/** The evdev backend: keyboard events read straight from the kernel's
    `/dev/input/eventN` device.

    `read(2)` is replaced by a sequence of read outcomes, `open(2)` by a
    function from path to descriptor and `close(2)` by a trace of the
    descriptors passed to it. The reading thread is not modelled: `Loop` runs
    on the calling thread over the outcomes it is given. */
module EvdevBackend {
  import opened KeyboardBackend
  import InputDetection
  import KeyMap

  /** `EV_KEY` from `<linux/input.h>`. */
  const EV_KEY: u16 := 1
  /** `EINTR` from `<errno.h>`. */
  const EINTR: int := 4
  /** `sizeof(struct input_event)` on a 64-bit kernel. */
  const InputEventSize: nat := 24

  /** The part of a `struct input_event` the backend looks at. */
  datatype InputEvent = InputEvent(evType: u16, code: u16, value: i32)

  /** A byte count `read` can return short of a whole record. */
  type ShortCount = n: nat | n < InputEventSize

  /** What one `read(fd, &ev, sizeof(ev))` gives back: a whole record, a
      short count (0 at end of file), or -1 with `errno` set. */
  datatype ReadOutcome =
    | Full(event: InputEvent)
    | Short(count: ShortCount)
    | Failed(errno: int)

  /** The outcomes that make the loop `break`. */
  predicate EndsLoop(r: ReadOutcome) {
    r.Short? || (r.Failed? && r.errno != EINTR)
  }

  /** The callbacks one read produces: a whole `EV_KEY` record whose code
      fits the 256 key slots reports that code, down unless the value is 0. */
  function CallsOf(r: ReadOutcome): seq<KeyCall> {
    if r.Full? && r.event.evType == EV_KEY && r.event.code < KeyCount then
      [KeyCall(r.event.code, r.event.value != 0)]
    else []
  }

  /** What the loop does with `outcomes`: the callbacks it makes and how many
      outcomes it takes before it stops. */
  datatype Drained = Drained(calls: seq<KeyCall>, consumed: nat)

  function Drain(outcomes: seq<ReadOutcome>): (d: Drained)
    ensures d.consumed <= |outcomes|
    ensures |d.calls| <= d.consumed
  {
    if outcomes == [] then Drained([], 0)
    else if EndsLoop(outcomes[0]) then Drained([], 1)
    else
      var rest := Drain(outcomes[1..]);
      Drained(CallsOf(outcomes[0]) + rest.calls, rest.consumed + 1)
  }

  /** The callbacks of `outcomes` one after the other, whatever they are. */
  function Emitted(outcomes: seq<ReadOutcome>): seq<KeyCall> {
    if outcomes == [] then [] else Emitted(outcomes[..|outcomes| - 1]) + CallsOf(outcomes[|outcomes| - 1])
  }

  // ---------------------------------------------------------------------------
  // Properties of the read loop

  /** The loop takes reads up to and including the first one that ends it,
      or every read when none does. */
  lemma {:induction false} DrainStopsAtFirstEnd(outcomes: seq<ReadOutcome>)
    ensures var n := Drain(outcomes).consumed;
            && (forall k :: 0 <= k < n - 1 ==> !EndsLoop(outcomes[k]))
            && ((0 < n && EndsLoop(outcomes[n - 1]))
                || (n == |outcomes| && forall k :: 0 <= k < |outcomes| ==> !EndsLoop(outcomes[k])))
  {
    if outcomes != [] && !EndsLoop(outcomes[0]) {
      DrainStopsAtFirstEnd(outcomes[1..]);
      var n := Drain(outcomes).consumed;
      forall k | 0 <= k < n - 1 ensures !EndsLoop(outcomes[k]) {
        if k > 0 {
          assert outcomes[k] == outcomes[1..][k - 1];
        }
      }
      if n == |outcomes| && !EndsLoop(outcomes[n - 1]) {
        forall k | 0 <= k < |outcomes| ensures !EndsLoop(outcomes[k]) {
          if k > 0 {
            assert outcomes[k] == outcomes[1..][k - 1];
          }
        }
      }
    }
  }

  lemma {:induction false} EmittedCons(r: ReadOutcome, outcomes: seq<ReadOutcome>)
    ensures Emitted([r] + outcomes) == CallsOf(r) + Emitted(outcomes)
    decreases |outcomes|
  {
    if outcomes != [] {
      var init := outcomes[..|outcomes| - 1];
      assert ([r] + outcomes)[..|outcomes|] == [r] + init;
      EmittedCons(r, init);
    } else {
      assert [r][..0] == [];
    }
  }

  /** The loop reports the key records among the reads it takes, in order
      and nothing else. */
  lemma {:induction false} DrainEmitsWhatItReads(outcomes: seq<ReadOutcome>)
    ensures Drain(outcomes).calls == Emitted(outcomes[..Drain(outcomes).consumed])
  {
    if outcomes == [] {
    } else if EndsLoop(outcomes[0]) {
      assert outcomes[..1] == [outcomes[0]] + [];
      EmittedCons(outcomes[0], []);
    } else {
      var n := Drain(outcomes[1..]).consumed;
      DrainEmitsWhatItReads(outcomes[1..]);
      assert outcomes[..n + 1] == [outcomes[0]] + outcomes[1..][..n];
      EmittedCons(outcomes[0], outcomes[1..][..n]);
    }
  }

  lemma EmittedSnoc(outcomes: seq<ReadOutcome>, i: nat)
    requires i < |outcomes|
    ensures Emitted(outcomes[..i + 1]) == Emitted(outcomes[..i]) + CallsOf(outcomes[i])
  {
    assert outcomes[..i + 1][..i] == outcomes[..i];
  }

  /** When no read ends the loop, it takes them all. */
  lemma DrainWhenAllRead(outcomes: seq<ReadOutcome>)
    requires forall k :: 0 <= k < |outcomes| ==> !EndsLoop(outcomes[k])
    ensures Drain(outcomes) == Drained(Emitted(outcomes), |outcomes|)
  {
    DrainStopsAtFirstEnd(outcomes);
    DrainEmitsWhatItReads(outcomes);
    assert outcomes[..|outcomes|] == outcomes;
  }

  lemma FirstEndUnique(outcomes: seq<ReadOutcome>, a: nat, b: nat)
    requires a < |outcomes| && EndsLoop(outcomes[a]) && forall k :: 0 <= k < a ==> !EndsLoop(outcomes[k])
    requires b < |outcomes| && EndsLoop(outcomes[b]) && forall k :: 0 <= k < b ==> !EndsLoop(outcomes[k])
    ensures a == b
  {
  }

  /** The loop stops at the first read that ends it. */
  lemma DrainWhenEndAt(outcomes: seq<ReadOutcome>, e: nat)
    requires e < |outcomes| && EndsLoop(outcomes[e])
    requires forall k :: 0 <= k < e ==> !EndsLoop(outcomes[k])
    ensures Drain(outcomes) == Drained(Emitted(outcomes[..e]), e + 1)
  {
    DrainStopsAtFirstEnd(outcomes);
    var n := Drain(outcomes).consumed;
    assert 0 < n && EndsLoop(outcomes[n - 1]);
    FirstEndUnique(outcomes, n - 1, e);
    DrainEmitsWhatItReads(outcomes);
    EmittedSnoc(outcomes, e);
    assert CallsOf(outcomes[e]) == [];
    assert Emitted(outcomes[..e]) + [] == Emitted(outcomes[..e]);
  }

  /** Every forwarded code fits the 256 key slots. */
  lemma {:induction false} EmittedInRange(outcomes: seq<ReadOutcome>)
    ensures ValidCalls(Emitted(outcomes))
  {
    if outcomes != [] {
      EmittedInRange(outcomes[..|outcomes| - 1]);
    }
  }

  /** A whole `EV_KEY` record with a code below 256 is forwarded with its code
      unchanged, down exactly when its value is not 0 (so an auto-repeat,
      value 2, reports down again). */
  lemma KeyRecordForwarded(code: u16, value: i32, rest: seq<ReadOutcome>)
    requires code < KeyCount
    ensures var d := Drain([Full(InputEvent(EV_KEY, code, value))] + rest);
            d.calls == [KeyCall(code, value != 0)] + Drain(rest).calls
            && d.consumed == 1 + Drain(rest).consumed
  {
    assert ([Full(InputEvent(EV_KEY, code, value))] + rest)[1..] == rest;
  }

  /** Any other whole record is read past without a callback. */
  lemma OtherRecordSkipped(ev: InputEvent, rest: seq<ReadOutcome>)
    requires ev.evType != EV_KEY || ev.code >= KeyCount
    ensures Drain([Full(ev)] + rest) == Drained(Drain(rest).calls, 1 + Drain(rest).consumed)
  {
    assert ([Full(ev)] + rest)[1..] == rest;
  }

  /** An interrupted read is retried without a callback. */
  lemma InterruptedReadRetried(rest: seq<ReadOutcome>)
    ensures Drain([Failed(EINTR)] + rest) == Drained(Drain(rest).calls, 1 + Drain(rest).consumed)
  {
    assert ([Failed(EINTR)] + rest)[1..] == rest;
  }

  /** End of file, a short read or any other error ends the loop there. */
  lemma EndingReadStops(r: ReadOutcome, rest: seq<ReadOutcome>)
    requires r.Short? || (r.Failed? && r.errno != EINTR)
    ensures Drain([r] + rest) == Drained([], 1)
  {
  }

  /** The key index the X11 backend gives a keysym is the evdev code of the
      same key, and the evdev backend forwards that code as it is. */
  lemma SameIndexAsKeyMap(sym: KeyMap.KeySym, value: i32, rest: seq<ReadOutcome>)
    requires KeyMap.XKeySymToIndex(sym).Some?
    ensures var i := KeyMap.XKeySymToIndex(sym).value;
            Drain([Full(InputEvent(EV_KEY, i, value))] + rest).calls
            == [KeyCall(i, value != 0)] + Drain(rest).calls
  {
    var i := KeyMap.XKeySymToIndex(sym).value;
    KeyRecordForwarded(i, value, rest);
  }

  /** `XK_a` is key 30, and evdev code 30 is reported as key 30. */
  lemma LetterAForwardedAsKeyA(value: i32)
    ensures KeyMap.XKeySymToIndex(KeyMap.XK_a) == Some(KeyMap.KEY_A) && KeyMap.KEY_A == 30
    ensures Drain([Full(InputEvent(EV_KEY, KeyMap.KEY_A, value))]).calls == [KeyCall(30, value != 0)]
  {
    KeyRecordForwarded(KeyMap.KEY_A, value, []);
  }

  // ---------------------------------------------------------------------------
  // Descriptor handling

  /** The descriptor state `Stop` works on: the descriptor, the stop flag and
      the descriptors closed so far. */
  datatype Handle = Handle(fd: int, stopThread: bool, closed: seq<int>)

  /** The fields as the constructor leaves them. */
  const Unopened := Handle(-1, false, [])

  /** `Stop`: close the descriptor if one is open and forget it, then raise
      the flag. */
  function StopSpec(h: Handle): Handle {
    if h.fd >= 0 then Handle(-1, true, h.closed + [h.fd]) else Handle(h.fd, true, h.closed)
  }

  /** A second `Stop` changes nothing. */
  lemma StopIdempotent(h: Handle)
    ensures StopSpec(StopSpec(h)) == StopSpec(h)
  {
  }

  /** `Stop` closes the open descriptor once, and nothing when none is open
      (in particular before `Init`). */
  lemma StopClosesOpenDescriptorOnly(h: Handle)
    ensures StopSpec(h).closed == h.closed + (if h.fd >= 0 then [h.fd] else [])
    ensures StopSpec(Unopened).closed == []
  {
  }

  /** The device file `Init` opens for an event node. */
  function DevicePath(node: string): string {
    "/dev/input/" + node
  }

  /** The node `Init` opens, as discovery finds it in the device registry
      (`None` when the registry cannot be opened). */
  function ActiveNode(registry: Option<seq<string>>): Option<string> {
    if registry.None? then None else InputDetection.ScanDevices(registry.value, "")
  }

  /** Whatever node discovery reports, `Init` opens a file under
      `/dev/input/event`. */
  lemma DevicePathOfNode(registry: Option<seq<string>>)
    requires ActiveNode(registry).Some?
    ensures InputDetection.StartsWith(DevicePath(ActiveNode(registry).value), "/dev/input/event")
  {
    InputDetection.ScanFindsEventNode(registry.value, "");
    var node := ActiveNode(registry).value;
    assert DevicePath(node)[..16] == "/dev/input/" + node[..5];
  }

  class EvdevKeyboardBackend {
    var fd: int
    var stopThread: bool
    /** Whether `SetCallbacks` has registered a callback. */
    var hasCallback: bool
    /** The callbacks made, oldest first. */
    var calls: seq<KeyCall>
    /** The descriptors passed to `close`, oldest first. */
    var closed: seq<int>

    function State(): Handle
      reads this
    {
      Handle(fd, stopThread, closed)
    }

    constructor()
      ensures State() == Unopened
      ensures !hasCallback && calls == []
    {
      fd := -1;
      stopThread := false;
      hasCallback := false;
      calls := [];
      closed := [];
    }

    method SetCallbacks()
      modifies this
      ensures hasCallback
      ensures State() == old(State()) && calls == old(calls)
    {
      hasCallback := true;
    }

    /** Finds the keyboard's event node in `registry` and opens it; `open`
        stands for `open(2)`, a negative result being a failure. With no
        node the descriptor is left as it was. */
    method Init(registry: Option<seq<string>>, open: string -> int) returns (ok: bool)
      modifies this
      ensures ActiveNode(registry).None? ==> !ok && fd == old(fd)
      ensures ActiveNode(registry).Some? ==>
                fd == open(DevicePath(ActiveNode(registry).value)) && (ok <==> fd >= 0)
      ensures stopThread == old(stopThread) && closed == old(closed)
      ensures hasCallback == old(hasCallback) && calls == old(calls)
    {
      var node := InputDetection.FindActiveKeyboardEventNode(registry);
      if node.None? {
        return false;
      }
      var path := DevicePath(node.value);
      fd := open(path);
      if fd < 0 {
        return false;
      }
      return true;
    }

    method Stop()
      modifies this
      ensures State() == StopSpec(old(State()))
      ensures hasCallback == old(hasCallback) && calls == old(calls)
    {
      if fd >= 0 {
        closed := closed + [fd];
        fd := -1;
      }
      stopThread := true;
    }

    /** `Start` runs `Loop` (on the calling thread here) without lowering
        the stop flag, so after a `Stop` it reads nothing. */
    method Start(outcomes: seq<ReadOutcome>) returns (consumed: nat)
      modifies this
      ensures State() == old(State()) && hasCallback == old(hasCallback)
      ensures fd < 0 || !hasCallback || stopThread ==> consumed == 0 && calls == old(calls)
      ensures fd >= 0 && hasCallback && !stopThread ==>
                calls == old(calls) + Drain(outcomes).calls && consumed == Drain(outcomes).consumed
    {
      consumed := Loop(outcomes);
    }

    /** The body of the read loop for one `read` result: a key record is
        forwarded, an interrupted read is retried (`continue`), and end of
        file, a short read or another error ends the loop (`break`). */
    method Dispatch(r: ReadOutcome) returns (stop: bool)
      modifies this
      ensures stop == EndsLoop(r)
      ensures calls == old(calls) + CallsOf(r)
      ensures State() == old(State()) && hasCallback == old(hasCallback)
    {
      if r.Full? {
        if r.event.evType == EV_KEY {
          var down := r.event.value != 0;
          if r.event.code < KeyCount {
            calls := calls + [KeyCall(r.event.code, down)];
          }
        }
      } else if r.Failed? {
        if r.errno == EINTR {
          return false;
        }
        return true;
      } else {
        return true;
      }
      return false;
    }

    /** The read loop over `outcomes`; `consumed` is how many it took. It
        returns at once without a descriptor, without a callback or once
        the stop flag is up. The real loop blocks for more input; this one
        returns when `outcomes` runs out. */
    method Loop(outcomes: seq<ReadOutcome>) returns (consumed: nat)
      modifies this
      ensures State() == old(State()) && hasCallback == old(hasCallback)
      ensures fd < 0 || !hasCallback || stopThread ==> consumed == 0 && calls == old(calls)
      ensures fd >= 0 && hasCallback && !stopThread ==>
                calls == old(calls) + Drain(outcomes).calls && consumed == Drain(outcomes).consumed
    {
      if fd < 0 || !hasCallback {
        return 0;
      }
      var i := 0;
      while !stopThread
        invariant 0 <= i <= |outcomes|
        invariant fd == old(fd) && stopThread == old(stopThread) && closed == old(closed)
        invariant hasCallback == old(hasCallback)
        invariant stopThread ==> i == 0
        invariant forall k :: 0 <= k < i ==> !EndsLoop(outcomes[k])
        invariant calls == old(calls) + Emitted(outcomes[..i])
        decreases |outcomes| - i
      {
        if i == |outcomes| {
          DrainWhenAllRead(outcomes);
          assert outcomes[..i] == outcomes;
          break;
        }
        EmittedSnoc(outcomes, i);
        AppendAssoc(old(calls), Emitted(outcomes[..i]), CallsOf(outcomes[i]));
        var stop := Dispatch(outcomes[i]);
        i := i + 1;
        if stop {
          DrainWhenEndAt(outcomes, i - 1);
          break;
        }
      }
      if stopThread {
        assert outcomes[..0] == [];
      }
      consumed := i;
    }
  }
}
