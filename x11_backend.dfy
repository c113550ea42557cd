/** The X11 backend: key events taken from a second connection to the X
    server, translated through the key map.

    Xlib is not modelled. The event queue is a sequence of events, each paired
    with what the server answers while that event is handled: the keysym of a
    keycode (`XkbKeycodeToKeysym` at group 0, level 0) and the 32-byte key
    bitmap of `XQueryKeymap`. The display, the window and the callback are
    present or absent. The event thread is not modelled: `Loop` runs on the
    calling thread until the queue holds no keyboard event. */
module X11Backend {
  import opened KeyboardBackend
  import KeyMap

  // Event type codes (X11/X.h)
  const KeyPress: int := 2
  const KeyRelease: int := 3
  const FocusIn: int := 9
  const FocusOut: int := 10
  const KeymapNotify: int := 11
  const MappingNotify: int := 34

  /** The keysym of a keycode with no symbol. */
  const NoSymbol: KeyMap.KeySym := 0

  /** `1ul << 31`: presses closer together than this are new presses. */
  const RepeatWindow: bv64 := 0x8000_0000

  /** `Time` is an `unsigned long`: 64 bits wide on LP64, so the subtraction
      of two times wraps around modulo 2^64. */
  type Time = bv64

  /** The fields of an `XEvent` the backend reads. `keycode` is the unsigned
      `xkey.keycode`. */
  datatype XEvent = XEvent(evType: int, keycode: u32, time: Time)

  /** The `char keys_state[32]` that `XQueryKeymap` fills: bit `k & 7` of
      byte `k >> 3` is set while keycode `k` is down. */
  type KeyBitmap = s: seq<bv8> | |s| == 32 witness seq(32, _ => 0)

  /** What the server answers: the keysym of each keycode and the key bitmap,
      `None` when `XQueryKeymap` returns 0. */
  datatype Server = Server(keysymOf: nat -> KeyMap.KeySym, keymap: Option<KeyBitmap>)

  /** An event in the queue, with the server as it is when the event is
      handled. */
  datatype Queued = Queued(event: XEvent, server: Server)

  /** `KeyOnlyPredicate`: the events `XIfEvent` may take from the queue. */
  predicate KeyOnlyPredicate(ev: XEvent) {
    || ev.evType == KeyPress
    || ev.evType == KeyRelease
    || ev.evType == FocusIn
    || ev.evType == FocusOut
    || ev.evType == KeymapNotify
    || ev.evType == MappingNotify
  }

  /** The event types the `switch` of `Loop` has a case for. */
  const HandledTypes: set<int> :=
    {KeyPress, KeyRelease, FocusOut, FocusIn, KeymapNotify, MappingNotify}


  /** The key index of a keycode: its keysym, unless it is `NoSymbol`,
      through the key map. */
  function IndexOf(server: Server, keycode: nat): (r: Option<nat>)
    ensures r.Some? ==> r.value < KeyCount
  {
    var sym := server.keysymOf(keycode);
    if sym == NoSymbol then None else KeyMap.XKeySymToIndex(sym)
  }

  /** A map from keycode to key index, every index below 256. */
  type KeyIndex = f: nat -> Option<nat> | forall k :: f(k).Some? ==> f(k).value < KeyCount
    witness _ => None

  function KeyIndexOf(server: Server): KeyIndex {
    k => IndexOf(server, k)
  }

  // ---------------------------------------------------------------------------
  // Key-repeat suppression

  /** Whether a press at `ts` is a new press after one recorded at `prev`
      (0: none recorded). */
  predicate Accepts(prev: Time, ts: Time) {
    var diff := ts - prev;
    diff == ts || (diff > 0 && diff < RepeatWindow)
  }

  /** The `diff == ts` case is the one where no press is recorded: a press
      is new when none is recorded or when it is 1 to 2^31 - 1 after the
      recorded one, counting modulo 2^64. */
  lemma AcceptsIff(prev: Time, ts: Time)
    ensures Accepts(prev, ts) <==> prev == 0 || (0 < ts - prev < RepeatWindow)
  {
    assert ts - prev == ts <==> prev == 0;
  }

  /** The first press of a key, or the first after a focus loss, is taken. */
  lemma FirstPressAccepted(ts: Time)
    ensures Accepts(0, ts)
  {
  }

  /** A second press with the same non-zero time is a repeat. */
  lemma SameTimeRejected(ts: Time)
    requires ts != 0
    ensures !Accepts(ts, ts)
  {
  }

  /** A press too long after the previous one, 2^31 ms or more (or before it,
      read modulo 2^64), is dropped too. */
  lemma DistantPressRejected(prev: Time, ts: Time)
    requires prev != 0 && ts - prev >= RepeatWindow
    ensures !Accepts(prev, ts)
  {
  }

  // ---------------------------------------------------------------------------
  // What one event does

  function Zeros(): (t: seq<Time>)
    ensures |t| == KeyCount && forall k :: 0 <= k < KeyCount ==> t[k] == 0
  {
    seq(KeyCount, _ => 0)
  }

  /** The callbacks for a keycode going down or up: one when it is mapped. */
  function KeyCalls(keyIndex: KeyIndex, keycode: nat, down: bool): seq<KeyCall> {
    match keyIndex(keycode)
    case Some(i) => [KeyCall(i, down)]
    case None => []
  }

  /** The pessimistic release of the first `n` indices, in ascending order. */
  function ReleaseAll(n: nat): seq<KeyCall>
    requires n <= KeyCount
  {
    if n == 0 then [] else ReleaseAll(n - 1) + [KeyCall(n - 1, false)]
  }

  /** `1 << bit` for a bit of a byte. */
  function BitMask(bit: nat): (m: bv8)
    requires bit < 8
  {
    if bit == 0 then 0x01 else if bit == 1 then 0x02 else if bit == 2 then 0x04
    else if bit == 3 then 0x08 else if bit == 4 then 0x10 else if bit == 5 then 0x20
    else if bit == 6 then 0x40 else 0x80
  }

  lemma BitMaskIsShift(bit: nat)
    requires bit < 8
    ensures BitMask(bit) == 1 << bit
  {
  }

  /** Whether bit `bit` of `byte` is set, the lowest bit being bit 0. */
  predicate BitSet(byte: bv8, bit: nat)
    requires bit < 8
  {
    if bit == 0 then byte & 1 == 1 else BitSet(byte >> 1, bit - 1)
  }

  /** Whether bit `k` of `bytes` is set, counting eight bits to a byte
      from the first byte's lowest bit. */
  predicate BitOfBytes(bytes: seq<bv8>, k: nat)
    requires k < 8 * |bytes|
  {
    if k < 8 then BitSet(bytes[0], k) else BitOfBytes(bytes[1..], k - 8)
  }

  /** Whether the bitmap has keycode `keycode` down: bit `keycode` of the
      32-byte map. */
  predicate IsDown(bitmap: KeyBitmap, keycode: nat)
    requires keycode < KeyCount
  {
    BitOfBytes(bitmap, keycode)
  }

  /** Masking with `BitMask(bit)` tests bit `bit`. */
  lemma {:induction false} MaskTestsBit(byte: bv8, bit: nat)
    requires bit < 8
    ensures (byte & BitMask(bit) != 0) == BitSet(byte, bit)
  {
    if bit > 0 {
      MaskTestsBit(byte >> 1, bit - 1);
    }
  }

  /** Bit `k` of the bytes is bit `k % 8` of byte `k / 8`, which is what
      `key_code >> 3` and `key_code & 7` select. */
  lemma {:induction false} BitOfBytesIsByteBit(bytes: seq<bv8>, k: nat)
    requires k < 8 * |bytes|
    ensures BitOfBytes(bytes, k) == BitSet(bytes[k / 8], k % 8)
  {
    if k >= 8 {
      BitOfBytesIsByteBit(bytes[1..], k - 8);
      assert bytes[1..][(k - 8) / 8] == bytes[k / 8];
    }
  }

  /** The keycodes the bitmap has down. */
  function Pressed(bitmap: KeyBitmap): nat -> bool {
    (k: nat) => k < KeyCount && IsDown(bitmap, k)
  }

  /** The resync callbacks for keycodes below `n`, in ascending order, with
      `pressed` telling which keycodes are down. */
  function SyncCalls(keyIndex: KeyIndex, pressed: nat -> bool, n: nat): seq<KeyCall> {
    if n == 0 then []
    else SyncCalls(keyIndex, pressed, n - 1) + KeyCalls(keyIndex, n - 1, pressed(n - 1))
  }

  /** `SyncFromServer` with a display and a callback: nothing when the key
      bitmap query fails. */
  function ResyncCalls(keyIndex: KeyIndex, keymap: Option<KeyBitmap>): seq<KeyCall> {
    match keymap
    case Some(bitmap) => SyncCalls(keyIndex, Pressed(bitmap), KeyCount)
    case None => []
  }

  /** The press times and the callbacks after an event. */
  datatype Stepped = Stepped(table: seq<Time>, calls: seq<KeyCall>)

  /** One pass of the loop body, with the display and the callback present,
      `keyIndex` taking a keycode to its key index and `keymap` the answer to
      a key bitmap query. */
  function StepWith(table: seq<Time>, ev: XEvent, keyIndex: KeyIndex, keymap: Option<KeyBitmap>): (s: Stepped)
    requires |table| == KeyCount
    ensures |s.table| == KeyCount
  {
    var k := ev.keycode as nat;
    if ev.evType == KeyPress then
      if k < KeyCount && Accepts(table[k], ev.time) then
        Stepped(table[k := ev.time], KeyCalls(keyIndex, k, true))
      else Stepped(table, [])
    else if ev.evType == KeyRelease then
      Stepped(table, if k < KeyCount then KeyCalls(keyIndex, k, false) else [])
    else if ev.evType == FocusOut then
      Stepped(Zeros(), ReleaseAll(KeyCount))
    else if ev.evType == FocusIn || ev.evType == KeymapNotify then
      Stepped(table, ResyncCalls(keyIndex, keymap))
    else
      Stepped(table, [])
  }

  /** One pass of the loop body against the server's answers. */
  function StepSpec(table: seq<Time>, ev: XEvent, server: Server): (s: Stepped)
    requires |table| == KeyCount
    ensures |s.table| == KeyCount
  {
    StepWith(table, ev, KeyIndexOf(server), server.keymap)
  }

  // ---------------------------------------------------------------------------
  // Properties of one event

  // The properties below hold for every `keyIndex`, in particular for
  // `KeyIndexOf(server)`, which makes `StepWith` into `StepSpec`.

  /** The predicate takes exactly the events the loop has a case for: any
      other event would fall through the loop's `switch` and change nothing. */
  lemma KeyOnlyPredicateTakesHandledTypes(ev: XEvent, table: seq<Time>, keyIndex: KeyIndex, keymap: Option<KeyBitmap>)
    requires |table| == KeyCount
    ensures KeyOnlyPredicate(ev) <==> ev.evType in HandledTypes
    ensures ev.evType !in HandledTypes ==> StepWith(table, ev, keyIndex, keymap) == Stepped(table, [])
  {
  }

  /** A new press of keycode `k` records its time in slot `k` and nowhere
      else, and reports the key down when the keycode is mapped; the time is
      recorded even when it is not mapped. */
  lemma AcceptedPress(table: seq<Time>, ev: XEvent, keyIndex: KeyIndex, keymap: Option<KeyBitmap>)
    requires |table| == KeyCount && ev.evType == KeyPress
    requires ev.keycode < KeyCount && Accepts(table[ev.keycode], ev.time)
    ensures var s := StepWith(table, ev, keyIndex, keymap);
            && s.table[ev.keycode] == ev.time
            && (forall k :: 0 <= k < KeyCount && k != ev.keycode as int ==> s.table[k] == table[k])
            && |s.calls| <= 1
            && (s.calls != [] <==> keyIndex(ev.keycode).Some?)
            && (s.calls != [] ==> s.calls[0] == KeyCall(keyIndex(ev.keycode).value, true))
  {
  }

  /** A repeated press changes nothing and reports nothing. */
  lemma RejectedPress(table: seq<Time>, ev: XEvent, keyIndex: KeyIndex, keymap: Option<KeyBitmap>)
    requires |table| == KeyCount && ev.evType == KeyPress
    requires ev.keycode < KeyCount && !Accepts(table[ev.keycode], ev.time)
    ensures StepWith(table, ev, keyIndex, keymap) == Stepped(table, [])
  {
  }

  /** A release leaves the press times alone and reports the key up exactly
      when it is mapped, repeated or not. */
  lemma Release(table: seq<Time>, ev: XEvent, keyIndex: KeyIndex, keymap: Option<KeyBitmap>)
    requires |table| == KeyCount && ev.evType == KeyRelease && ev.keycode < KeyCount
    ensures var s := StepWith(table, ev, keyIndex, keymap);
            && s.table == table
            && (s.calls != [] <==> keyIndex(ev.keycode).Some?)
            && (s.calls != [] ==> s.calls == [KeyCall(keyIndex(ev.keycode).value, false)])
  {
  }

  /** A press or release with a keycode outside 0..255 is ignored. */
  lemma KeycodeOutOfRangeIgnored(table: seq<Time>, ev: XEvent, keyIndex: KeyIndex, keymap: Option<KeyBitmap>)
    requires |table| == KeyCount && ev.keycode >= KeyCount
    requires ev.evType == KeyPress || ev.evType == KeyRelease
    ensures StepWith(table, ev, keyIndex, keymap) == Stepped(table, [])
  {
  }

  /** Losing the focus releases every one of the 256 indices, 0 first, and
      forgets every press. */
  lemma {:induction false} FocusLoss(table: seq<Time>, ev: XEvent, keyIndex: KeyIndex, keymap: Option<KeyBitmap>)
    requires |table| == KeyCount && ev.evType == FocusOut
    ensures var s := StepWith(table, ev, keyIndex, keymap);
            && |s.calls| == KeyCount
            && (forall i :: 0 <= i < KeyCount ==> s.calls[i] == KeyCall(i, false))
            && (forall k :: 0 <= k < KeyCount ==> s.table[k] == 0)
  {
    ReleaseAllIsAscending(KeyCount);
  }

  lemma {:induction false} ReleaseAllIsAscending(n: nat)
    requires n <= KeyCount
    ensures |ReleaseAll(n)| == n
    ensures forall i :: 0 <= i < n ==> ReleaseAll(n)[i] == KeyCall(i, false)
  {
    if n > 0 {
      ReleaseAllIsAscending(n - 1);
    }
  }

  /** A keyboard mapping change reports nothing and keeps the press times. */
  lemma MappingChangeQuiet(table: seq<Time>, ev: XEvent, keyIndex: KeyIndex, keymap: Option<KeyBitmap>)
    requires |table| == KeyCount && ev.evType == MappingNotify
    ensures StepWith(table, ev, keyIndex, keymap) == Stepped(table, [])
  {
  }

  /** Regaining the focus keeps the press times; when the key bitmap query
      fails it reports nothing. */
  lemma FocusGainKeepsTimes(table: seq<Time>, ev: XEvent, keyIndex: KeyIndex, keymap: Option<KeyBitmap>)
    requires |table| == KeyCount && (ev.evType == FocusIn || ev.evType == KeymapNotify)
    ensures StepWith(table, ev, keyIndex, keymap) == Stepped(table, ResyncCalls(keyIndex, keymap))
    ensures keymap.None? ==> StepWith(table, ev, keyIndex, keymap).calls == []
  {
  }

  /** Keycode `k` maps to the index of `c` and `pressed` has it as `c` has
      the key. */
  predicate Reports(keyIndex: KeyIndex, pressed: nat -> bool, k: nat, c: KeyCall) {
    keyIndex(k) == Some(c.index) && pressed(k) == c.down
  }

  /** A resync reports, for every mapped keycode, its key index with whether
      the keycode is down, and nothing else. */
  lemma {:induction false} SyncCallsExactly(keyIndex: KeyIndex, pressed: nat -> bool, n: nat, c: KeyCall)
    ensures c in SyncCalls(keyIndex, pressed, n)
            <==> exists k :: 0 <= k < n && Reports(keyIndex, pressed, k, c)
  {
    if n > 0 {
      var k := n - 1;
      SyncCallsExactly(keyIndex, pressed, k, c);
      var last := KeyCalls(keyIndex, k, pressed(k));
      assert c in last <==> Reports(keyIndex, pressed, k, c);
      assert c in SyncCalls(keyIndex, pressed, n) <==> c in SyncCalls(keyIndex, pressed, k) || c in last;
      if c in last {
        assert 0 <= k < n && Reports(keyIndex, pressed, k, c);
      }
      if c in SyncCalls(keyIndex, pressed, k) {
        var j :| 0 <= j < k && Reports(keyIndex, pressed, j, c);
        assert 0 <= j < n && Reports(keyIndex, pressed, j, c);
      }
      if exists j :: 0 <= j < n && Reports(keyIndex, pressed, j, c) {
        var j :| 0 <= j < n && Reports(keyIndex, pressed, j, c);
        if j < k {
          assert c in SyncCalls(keyIndex, pressed, k);
        }
      }
    }
  }

  /** One callback per mapped keycode below `n`: at most `n`, each with an
      index below 256. */
  lemma {:induction false} SyncCallsBound(keyIndex: KeyIndex, pressed: nat -> bool, n: nat)
    ensures |SyncCalls(keyIndex, pressed, n)| <= n
    ensures ValidCalls(SyncCalls(keyIndex, pressed, n))
  {
    if n > 0 {
      SyncCallsBound(keyIndex, pressed, n - 1);
    }
  }

  /** The mapped keycodes below `n`, in ascending order. */
  function MappedKeycodes(keyIndex: KeyIndex, n: nat): seq<nat> {
    if n == 0 then []
    else MappedKeycodes(keyIndex, n - 1) + (if keyIndex(n - 1).Some? then [n - 1] else [])
  }

  /** `MappedKeycodes` lists every mapped keycode below `n` once, lowest
      first. */
  lemma MappedKeycodesAscending(keyIndex: KeyIndex, n: nat)
    ensures var ks := MappedKeycodes(keyIndex, n);
            && (forall i, j :: 0 <= i < j < |ks| ==> ks[i] < ks[j])
            && (forall j :: 0 <= j < |ks| ==> ks[j] < n && keyIndex(ks[j]).Some?)
            && (forall k :: 0 <= k < n && keyIndex(k).Some? ==> k in ks)
  {
    MappedKeycodesBelow(keyIndex, n);
    MappedKeycodesSorted(keyIndex, n);
    MappedKeycodesComplete(keyIndex, n);
  }

  lemma {:induction false} MappedKeycodesBelow(keyIndex: KeyIndex, n: nat)
    ensures forall j :: 0 <= j < |MappedKeycodes(keyIndex, n)| ==>
              MappedKeycodes(keyIndex, n)[j] < n && keyIndex(MappedKeycodes(keyIndex, n)[j]).Some?
  {
    if n > 0 {
      MappedKeycodesBelow(keyIndex, n - 1);
      var ks, prev := MappedKeycodes(keyIndex, n), MappedKeycodes(keyIndex, n - 1);
      assert ks == prev + (if keyIndex(n - 1).Some? then [n - 1] else []);
      forall j | 0 <= j < |ks| ensures ks[j] < n && keyIndex(ks[j]).Some? {
        if j < |prev| {
          assert ks[j] == prev[j];
        } else {
          assert keyIndex(n - 1).Some? && ks[j] == n - 1;
        }
      }
    }
  }

  lemma {:induction false} MappedKeycodesSorted(keyIndex: KeyIndex, n: nat)
    ensures forall i, j :: 0 <= i < j < |MappedKeycodes(keyIndex, n)| ==>
              MappedKeycodes(keyIndex, n)[i] < MappedKeycodes(keyIndex, n)[j]
  {
    if n > 0 {
      MappedKeycodesSorted(keyIndex, n - 1);
      MappedKeycodesBelow(keyIndex, n - 1);
      var ks, prev := MappedKeycodes(keyIndex, n), MappedKeycodes(keyIndex, n - 1);
      assert ks == prev + (if keyIndex(n - 1).Some? then [n - 1] else []);
      forall i, j | 0 <= i < j < |ks| ensures ks[i] < ks[j] {
        assert ks[i] == prev[i] && prev[i] < n - 1;
        if j < |prev| {
          assert ks[j] == prev[j];
        } else {
          assert ks[j] == n - 1;
        }
      }
    }
  }

  lemma {:induction false} MappedKeycodesComplete(keyIndex: KeyIndex, n: nat)
    ensures forall k :: 0 <= k < n && keyIndex(k).Some? ==> k in MappedKeycodes(keyIndex, n)
  {
    if n > 0 {
      MappedKeycodesComplete(keyIndex, n - 1);
      var ks, prev := MappedKeycodes(keyIndex, n), MappedKeycodes(keyIndex, n - 1);
      assert ks == prev + (if keyIndex(n - 1).Some? then [n - 1] else []);
      forall k | 0 <= k < n && keyIndex(k).Some? ensures k in ks {
        if k < n - 1 {
          assert k in prev;
        } else {
          assert ks[|ks| - 1] == k;
        }
      }
    }
  }

  /** The resync makes its callbacks in ascending keycode order: the `j`-th
      reports the `j`-th mapped keycode, down as `pressed` has it. */
  lemma {:induction false} SyncCallsInKeycodeOrder(keyIndex: KeyIndex, pressed: nat -> bool, n: nat)
    ensures var calls, ks := SyncCalls(keyIndex, pressed, n), MappedKeycodes(keyIndex, n);
            && |calls| == |ks|
            && forall j :: 0 <= j < |ks| ==>
                 keyIndex(ks[j]).Some? && calls[j] == KeyCall(keyIndex(ks[j]).value, pressed(ks[j]))
  {
    if n > 0 {
      SyncCallsInKeycodeOrder(keyIndex, pressed, n - 1);
    }
  }

  /** A resync with a key bitmap at hand. */
  lemma ResyncOf(keyIndex: KeyIndex, bitmap: KeyBitmap)
    ensures ResyncCalls(keyIndex, Some(bitmap)) == SyncCalls(keyIndex, Pressed(bitmap), KeyCount)
  {
  }

  /** A resync reports exactly the mapped keycodes, each with whether the
      bitmap has it down: at most one callback per keycode, every index
      below 256. */
  lemma {:induction false} ResyncExactly(keyIndex: KeyIndex, bitmap: KeyBitmap, c: KeyCall)
    ensures var calls := ResyncCalls(keyIndex, Some(bitmap));
            && (c in calls <==> exists k :: 0 <= k < KeyCount && keyIndex(k) == Some(c.index)
                                                              && IsDown(bitmap, k) == c.down)
            && |calls| <= KeyCount && ValidCalls(calls)
  {
    var pressed := Pressed(bitmap);
    ResyncOf(keyIndex, bitmap);
    SyncCallsExactly(keyIndex, pressed, KeyCount, c);
    SyncCallsBound(keyIndex, pressed, KeyCount);
    if c in SyncCalls(keyIndex, pressed, KeyCount) {
      var k :| 0 <= k < KeyCount && Reports(keyIndex, pressed, k, c);
      assert keyIndex(k) == Some(c.index) && IsDown(bitmap, k) == c.down;
    }
    if exists k :: 0 <= k < KeyCount && keyIndex(k) == Some(c.index) && IsDown(bitmap, k) == c.down {
      var k :| 0 <= k < KeyCount && keyIndex(k) == Some(c.index) && IsDown(bitmap, k) == c.down;
      assert Reports(keyIndex, pressed, k, c);
    }
  }

  /** With the key bitmap at hand, the resync reports the mapped keycodes
      lowest first, each down exactly when its bit is set. */
  lemma ResyncInKeycodeOrder(keyIndex: KeyIndex, bitmap: KeyBitmap)
    ensures var calls, ks := ResyncCalls(keyIndex, Some(bitmap)), MappedKeycodes(keyIndex, KeyCount);
            && |calls| == |ks|
            && forall j :: 0 <= j < |ks| ==>
                 ks[j] < KeyCount && keyIndex(ks[j]).Some?
                 && calls[j] == KeyCall(keyIndex(ks[j]).value, IsDown(bitmap, ks[j]))
  {
    ResyncOf(keyIndex, bitmap);
    MappedKeycodesAscending(keyIndex, KeyCount);
    SyncCallsInKeycodeOrder(keyIndex, Pressed(bitmap), KeyCount);
  }

  /** Regaining the focus, with the key bitmap at hand, reports exactly the
      mapped keycodes, each as the bitmap has it. */
  lemma {:induction false} FocusGainResyncs(table: seq<Time>, ev: XEvent, keyIndex: KeyIndex, bitmap: KeyBitmap, c: KeyCall)
    requires |table| == KeyCount && (ev.evType == FocusIn || ev.evType == KeymapNotify)
    ensures var calls := StepWith(table, ev, keyIndex, Some(bitmap)).calls;
            && (c in calls <==> exists k :: 0 <= k < KeyCount && keyIndex(k) == Some(c.index)
                                                              && IsDown(bitmap, k) == c.down)
            && |calls| <= KeyCount && ValidCalls(calls)
  {
    FocusGainKeepsTimes(table, ev, keyIndex, Some(bitmap));
    ResyncExactly(keyIndex, bitmap, c);
  }

  /** Every pass of the loop body makes at most 256 callbacks, each with an
      index the host can store. */
  lemma {:induction false} StepCallsValid(table: seq<Time>, ev: XEvent, keyIndex: KeyIndex, keymap: Option<KeyBitmap>)
    requires |table| == KeyCount
    ensures |StepWith(table, ev, keyIndex, keymap).calls| <= KeyCount
    ensures ValidCalls(StepWith(table, ev, keyIndex, keymap).calls)
  {
    if ev.evType == FocusOut {
      ReleaseAllIsAscending(KeyCount);
    } else if ev.evType == FocusIn || ev.evType == KeymapNotify {
      if keymap.Some? {
        ResyncOf(keyIndex, keymap.value);
        SyncCallsBound(keyIndex, Pressed(keymap.value), KeyCount);
      }
    }
  }

  // ---------------------------------------------------------------------------
  // The loop over a queue

  /** What the loop makes of one queued event: a keyboard event goes through
      one pass of the loop body, appending its callbacks; `XIfEvent` passes
      over the others. */
  function Take(before: Stepped, q: Queued): (after: Stepped)
    requires |before.table| == KeyCount
    ensures |after.table| == KeyCount
  {
    if !KeyOnlyPredicate(q.event) then before
    else
      var s := StepSpec(before.table, q.event, q.server);
      Stepped(s.table, before.calls + s.calls)
  }

  /** The press times and callbacks after the events of `queue`, from
      `start`. */
  function Run(start: Stepped, queue: seq<Queued>): (s: Stepped)
    requires |start.table| == KeyCount
    ensures |s.table| == KeyCount
  {
    if queue == [] then start
    else Take(Run(start, queue[..|queue| - 1]), queue[|queue| - 1])
  }

  lemma RunNext(start: Stepped, queue: seq<Queued>, i: nat)
    requires |start.table| == KeyCount && i < |queue|
    ensures Run(start, queue[..i + 1]) == Take(Run(start, queue[..i]), queue[i])
  {
    assert queue[..i + 1][..i] == queue[..i];
  }

  /** The loop keeps every callback index below 256. */
  lemma {:induction false} RunCallsValid(start: Stepped, queue: seq<Queued>)
    requires |start.table| == KeyCount && ValidCalls(start.calls)
    ensures ValidCalls(Run(start, queue).calls)
  {
    if queue != [] {
      var before := Run(start, queue[..|queue| - 1]);
      RunCallsValid(start, queue[..|queue| - 1]);
      var q := queue[|queue| - 1];
      if KeyOnlyPredicate(q.event) {
        StepCallsValid(before.table, q.event, KeyIndexOf(q.server), q.server.keymap);
      }
    }
  }

  /** Events the predicate refuses leave the press times and the callbacks
      alone. */
  lemma {:induction false} RunPassesOverOthers(start: Stepped, queue: seq<Queued>)
    requires |start.table| == KeyCount
    requires forall j :: 0 <= j < |queue| ==> !KeyOnlyPredicate(queue[j].event)
    ensures Run(start, queue) == start
  {
    if queue != [] {
      RunPassesOverOthers(start, queue[..|queue| - 1]);
    }
  }

  /** The events `XIfEvent` passes over: they stay in the queue, in order. */
  function Skipped(queue: seq<Queued>): (left: seq<XEvent>)
    ensures forall j :: 0 <= j < |left| ==> !KeyOnlyPredicate(left[j])
  {
    if queue == [] then []
    else
      var last := queue[|queue| - 1];
      Skipped(queue[..|queue| - 1]) + (if KeyOnlyPredicate(last.event) then [] else [last.event])
  }

  lemma SkippedNext(queue: seq<Queued>, i: nat)
    requires i < |queue|
    ensures Skipped(queue[..i + 1])
            == Skipped(queue[..i]) + (if KeyOnlyPredicate(queue[i].event) then [] else [queue[i].event])
  {
    assert queue[..i + 1][..i] == queue[..i];
  }

  /** Two presses of one key with times that rise by less than 2^31 each are
      both new presses. */
  lemma RisingPressesAccepted(k: u32, t1: Time, t2: Time, s: Server)
    requires k < KeyCount && 0 < t2 - t1 < RepeatWindow
    ensures var q := [Queued(XEvent(KeyPress, k, t1), s), Queued(XEvent(KeyPress, k, t2), s)];
            Run(Stepped(Zeros(), []), q).table[k] == t2
            && Run(Stepped(Zeros(), []), q).calls == KeyCalls(KeyIndexOf(s), k, true) + KeyCalls(KeyIndexOf(s), k, true)
  {
    var q := [Queued(XEvent(KeyPress, k, t1), s), Queued(XEvent(KeyPress, k, t2), s)];
    assert q[..1][..0] == [];
    assert q[..1] == [q[0]];
    var first := Run(Stepped(Zeros(), []), q[..1]);
    assert Run(Stepped(Zeros(), []), q[..0]) == Stepped(Zeros(), []);
    assert first == Stepped(Zeros()[k := t1], KeyCalls(KeyIndexOf(s), k, true));
    assert Accepts(first.table[k], t2);
  }

  /** A press at `t` comes 1 to 2^31 - 1 after one at `prev`, modulo 2^64. */
  predicate Follows(prev: Time, t: Time) {
    0 < t - prev < RepeatWindow
  }

  lemma FollowsAccepted(prev: Time, t: Time)
    requires Follows(prev, t)
    ensures Accepts(prev, t)
  {
    AcceptsIff(prev, t);
  }

  /** Each time follows the one before it. */
  predicate Rising(ts: seq<Time>) {
    forall j :: 0 < j < |ts| ==> Follows(ts[j - 1], ts[j])
  }

  /** The press times and the callbacks after presses of keycode `k` at the
      times `ts`, one loop pass each. */
  function Presses(table: seq<Time>, k: u32, ts: seq<Time>, keyIndex: KeyIndex): (s: Stepped)
    requires |table| == KeyCount
    ensures |s.table| == KeyCount
    decreases |ts|
  {
    if ts == [] then Stepped(table, [])
    else
      var first := StepWith(table, XEvent(KeyPress, k, ts[0]), keyIndex, None);
      var rest := Presses(first.table, k, ts[1..], keyIndex);
      Stepped(rest.table, first.calls + rest.calls)
  }

  /** Once a first press is new, every press that follows the one before it
      is new too: each is reported, and the last time is recorded. */
  lemma {:induction false} RisingPressesAllAccepted(table: seq<Time>, k: u32, ts: seq<Time>, keyIndex: KeyIndex)
    requires |table| == KeyCount && k < KeyCount && ts != []
    requires Accepts(table[k], ts[0]) && Rising(ts)
    ensures Presses(table, k, ts, keyIndex).table == table[k := ts[|ts| - 1]]
    ensures keyIndex(k as nat).Some? ==>
              Presses(table, k, ts, keyIndex).calls == seq(|ts|, _ => KeyCall(keyIndex(k as nat).value, true))
    ensures keyIndex(k as nat).None? ==> Presses(table, k, ts, keyIndex).calls == []
    decreases |ts|
  {
    var first := StepWith(table, XEvent(KeyPress, k, ts[0]), keyIndex, None);
    assert first == Stepped(table[k := ts[0]], KeyCalls(keyIndex, k as nat, true));
    if |ts| > 1 {
      var rest := ts[1..];
      assert Follows(ts[0], ts[1]);
      FollowsAccepted(ts[0], ts[1]);
      assert Rising(rest) by {
        forall j | 0 < j < |rest| ensures Follows(rest[j - 1], rest[j]) {
          assert Follows(ts[j], ts[j + 1]);
        }
      }
      RisingPressesAllAccepted(first.table, k, rest, keyIndex);
      assert first.table[k := rest[|rest| - 1]] == table[k := ts[|ts| - 1]];
    }
  }

  /** The events of a queue, in order. */
  function Events(queue: seq<Queued>): (evs: seq<XEvent>)
    ensures |evs| == |queue| && forall j :: 0 <= j < |queue| ==> evs[j] == queue[j].event
  {
    seq(|queue|, j requires 0 <= j < |queue| => queue[j].event)
  }

  class X11KeyboardBackend {
    /** `m_AppDisplay != nullptr` and `m_Window != 0`. */
    var appDisplay: bool
    var window: bool
    /** The backend's own connection is open. */
    var keyboardDisplay: bool
    var masksSelected: bool
    var stopThread: bool
    /** Whether `SetCallbacks` has registered a callback. */
    var hasCallback: bool
    /** The callbacks made, oldest first. */
    var calls: seq<KeyCall>
    /** `m_LastPressTimeStamp`: per keycode, the time of the last press taken. */
    const lastPress: array<Time>

    constructor(appDisplay: bool, window: bool)
      ensures this.appDisplay == appDisplay && this.window == window
      ensures !keyboardDisplay && !masksSelected && !stopThread && !hasCallback && calls == []
      ensures lastPress.Length == KeyCount && lastPress[..] == Zeros()
      ensures fresh(lastPress)
    {
      this.appDisplay := appDisplay;
      this.window := window;
      keyboardDisplay := false;
      masksSelected := false;
      stopThread := false;
      hasCallback := false;
      calls := [];
      lastPress := new Time[KeyCount](_ => 0);
    }

    /** Registers the host callback. */
    method SetCallbacks()
      modifies this`hasCallback
      ensures hasCallback
    {
      hasCallback := true;
    }

    /** Selecting the event masks needs the backend's connection and the
        window. */
    method SelectMasks() returns (ok: bool)
      ensures ok <==> keyboardDisplay && window
    {
      ok := keyboardDisplay && window;
    }

    /** `openOk` is whether the second connection to the display opens. Init
        succeeds exactly when the application display and window are present,
        the connection opens and the masks are selected. */
    method Init(openOk: bool) returns (ok: bool)
      modifies this`keyboardDisplay, this`masksSelected
      ensures ok <==> appDisplay && window && openOk
      ensures keyboardDisplay == if appDisplay && window then openOk else old(keyboardDisplay)
      ensures masksSelected == if ok then true else old(masksSelected)
    {
      if !appDisplay || !window {
        return false;
      }
      keyboardDisplay := openOk;
      if !keyboardDisplay {
        return false;
      }
      masksSelected := SelectMasks();
      ok := masksSelected;
    }

    /** Clears the stop flag and runs the loop over `queue` (on the calling
        thread rather than a new one). */
    method Start(queue: seq<Queued>) returns (left: seq<XEvent>)
      requires lastPress.Length == KeyCount
      modifies this`stopThread, this`calls, lastPress
      ensures !stopThread
      ensures var ready := keyboardDisplay && window && hasCallback && masksSelected;
              && (ready ==> Stepped(lastPress[..], calls) == Run(Stepped(Zeros(), old(calls)), queue)
                            && left == Skipped(queue))
              && (!ready ==> lastPress[..] == old(lastPress[..]) && calls == old(calls)
                             && left == Events(queue))
    {
      stopThread := false;
      left := Loop(queue);
    }

    method Stop()
      modifies this`stopThread
      ensures stopThread
    {
      stopThread := true;
    }

    /** `fill(0)` on the press times. */
    method ClearPressTimes()
      requires lastPress.Length == KeyCount
      modifies lastPress
      ensures lastPress[..] == Zeros()
    {
      for k := 0 to KeyCount
        invariant forall j :: 0 <= j < k ==> lastPress[j] == 0
      {
        lastPress[k] := 0;
      }
    }

    /** The pessimistic release of every index on focus loss. */
    method ReleaseEveryKey()
      modifies this`calls
      ensures calls == old(calls) + ReleaseAll(KeyCount)
    {
      for i := 0 to KeyCount
        invariant calls == old(calls) + ReleaseAll(i)
      {
        calls := calls + [KeyCall(i, false)];
      }
    }

    /** Reports every mapped keycode as the key bitmap has it, when the
        connection and a callback are there and the query answers. `keyIndex`
        stands for `XkbKeycodeToKeysym` followed, unless the keysym is
        `NoSymbol`, by the key map; `keymap` for the answer to `XQueryKeymap`. */
    method SyncFromServer(keyIndex: KeyIndex, keymap: Option<KeyBitmap>)
      modifies this`calls
      ensures calls == old(calls) + if keyboardDisplay && hasCallback then ResyncCalls(keyIndex, keymap) else []
    {
      if !keyboardDisplay || !hasCallback {
        assert old(calls) + [] == old(calls);
        return;
      }
      ReportKeymap(keyIndex, keymap);
    }

    /** The rest of `SyncFromServer`: nothing when the key bitmap query
        fails, otherwise the loop over the keycodes. */
    method ReportKeymap(keyIndex: KeyIndex, keymap: Option<KeyBitmap>)
      modifies this`calls
      ensures calls == old(calls) + ResyncCalls(keyIndex, keymap)
    {
      if keymap.None? {
        assert old(calls) + ResyncCalls(keyIndex, keymap) == old(calls);
        return;
      }
      ResyncOf(keyIndex, keymap.value);
      ReportKeys(keyIndex, keymap.value);
    }

    /** The loop of `SyncFromServer` over the 256 keycodes. */
    method ReportKeys(keyIndex: KeyIndex, keysState: KeyBitmap)
      modifies this`calls
      ensures calls == old(calls) + SyncCalls(keyIndex, Pressed(keysState), KeyCount)
    {
      ghost var pressed := Pressed(keysState);
      assert old(calls) + SyncCalls(keyIndex, pressed, 0) == calls;
      for keyCode := 0 to KeyCount
        invariant calls == old(calls) + SyncCalls(keyIndex, pressed, keyCode)
      {
        AppendAssoc(old(calls), SyncCalls(keyIndex, pressed, keyCode), KeyCalls(keyIndex, keyCode, pressed(keyCode)));
        ReportKey(keyIndex, keysState, keyCode);
      }
    }

    /** One pass of that loop: the key is reported, down or up as the bitmap
        has it, when its keycode is mapped. */
    method ReportKey(keyIndex: KeyIndex, keysState: KeyBitmap, keyCode: nat)
      requires keyCode < KeyCount
      modifies this`calls
      ensures calls == old(calls) + KeyCalls(keyIndex, keyCode, Pressed(keysState)(keyCode))
    {
      var isDown := KeyIsDown(keysState, keyCode);
      var index := keyIndex(keyCode);
      if index.Some? {
        calls := calls + [KeyCall(index.value, isDown)];
      }
    }

    /** `(keys_state[key_code >> 3] & (1 << (key_code & 7))) != 0`. */
    static method KeyIsDown(keysState: KeyBitmap, keyCode: nat) returns (isDown: bool)
      requires keyCode < KeyCount
      ensures isDown == Pressed(keysState)(keyCode)
    {
      isDown := keysState[keyCode / 8] & BitMask(keyCode % 8) != 0;
      MaskTestsBit(keysState[keyCode / 8], keyCode % 8);
      BitOfBytesIsByteBit(keysState, keyCode);
    }

    /** A `KeyPress` of `keyCode` at `ts`: a new press reports the key down
        when it is mapped and records `ts`; a repeat does nothing. */
    method OnKeyPress(keyCode: nat, ts: Time, keyIndex: KeyIndex)
      requires lastPress.Length == KeyCount
      modifies this`calls, lastPress
      ensures keyCode < KeyCount && Accepts(old(lastPress[keyCode]), ts) ==>
                lastPress[..] == old(lastPress[..])[keyCode := ts]
                && calls == old(calls) + KeyCalls(keyIndex, keyCode, true)
      ensures !(keyCode < KeyCount && Accepts(old(lastPress[keyCode]), ts)) ==>
                lastPress[..] == old(lastPress[..]) && calls == old(calls)
    {
      if keyCode < KeyCount {
        var prev := lastPress[keyCode];
        if Accepts(prev, ts) {
          var index := keyIndex(keyCode);
          if index.Some? {
            calls := calls + [KeyCall(index.value, true)];
          }
          lastPress[keyCode] := ts;
        }
      }
    }

    /** A `KeyRelease` of `keyCode`: reports the key up when it is mapped. */
    method OnKeyRelease(keyCode: nat, keyIndex: KeyIndex)
      modifies this`calls
      ensures calls == old(calls) + if keyCode < KeyCount then KeyCalls(keyIndex, keyCode, false) else []
    {
      if keyCode < KeyCount {
        var index := keyIndex(keyCode);
        if index.Some? {
          calls := calls + [KeyCall(index.value, false)];
        }
      }
    }

    /** The body of the loop for one keyboard event, `keyIndex` and `keymap`
        as for `SyncFromServer`. */
    method Step(ev: XEvent, keyIndex: KeyIndex, keymap: Option<KeyBitmap>)
      requires lastPress.Length == KeyCount && keyboardDisplay && hasCallback
      modifies this`calls, lastPress
      ensures lastPress[..] == StepWith(old(lastPress[..]), ev, keyIndex, keymap).table
      ensures calls == old(calls) + StepWith(old(lastPress[..]), ev, keyIndex, keymap).calls
    {
      if ev.evType == KeyPress {
        OnKeyPress(ev.keycode, ev.time, keyIndex);
      } else if ev.evType == KeyRelease {
        OnKeyRelease(ev.keycode, keyIndex);
      } else if ev.evType == FocusOut {
        ReleaseEveryKey();
        ClearPressTimes();
      } else if ev.evType == FocusIn || ev.evType == KeymapNotify {
        SyncFromServer(keyIndex, keymap);
      }
    }

    /** One queued event: `XIfEvent` takes it when it is a keyboard event,
        and the loop body handles it. */
    method Handle(q: Queued) returns (taken: bool)
      requires lastPress.Length == KeyCount && keyboardDisplay && hasCallback
      modifies this`calls, lastPress
      ensures taken == KeyOnlyPredicate(q.event)
      ensures Stepped(lastPress[..], calls) == Take(Stepped(old(lastPress[..]), old(calls)), q)
    {
      if !KeyOnlyPredicate(q.event) {
        return false;
      }
      Step(q.event, KeyIndexOf(q.server), q.server.keymap);
      taken := true;
    }

    /** The event loop over the events the connection will deliver, in
        order: `left` is what `XIfEvent` leaves in the queue. The loop ends
        when the queue holds no keyboard event any more. */
    method Loop(queue: seq<Queued>) returns (left: seq<XEvent>)
      requires lastPress.Length == KeyCount
      modifies this`calls, lastPress
      ensures var ready := keyboardDisplay && window && hasCallback && masksSelected;
              && (ready && !stopThread ==> Stepped(lastPress[..], calls) == Run(Stepped(Zeros(), old(calls)), queue)
                                           && left == Skipped(queue))
              && (ready && stopThread ==> lastPress[..] == Zeros() && calls == old(calls)
                                          && left == Events(queue))
              && (!ready ==> lastPress[..] == old(lastPress[..]) && calls == old(calls)
                             && left == Events(queue))
    {
      if !keyboardDisplay || !window || !hasCallback || !masksSelected {
        return Events(queue);
      }
      ClearPressTimes();
      ghost var start := Stepped(Zeros(), old(calls));
      left := [];
      var i := 0;
      assert queue[..0] == [];
      while !stopThread
        invariant 0 <= i <= |queue|
        invariant stopThread ==> i == 0
        invariant Stepped(lastPress[..], calls) == Run(start, queue[..i])
        invariant left == Skipped(queue[..i])
        decreases |queue| - i
      {
        if i == |queue| {
          assert queue[..i] == queue;
          break;
        }
        RunNext(start, queue, i);
        SkippedNext(queue, i);
        var taken := Handle(queue[i]);
        if !taken {
          left := left + [queue[i].event];
        }
        i := i + 1;
      }
      if stopThread {
        left := Events(queue);
      }
    }
  }
}
