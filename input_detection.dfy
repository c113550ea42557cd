/** Keyboard discovery (src/xkbInputDetection.cpp): scan the lines of the
    kernel's device registry (/proc/bus/input/devices) for a device whose
    supported-event bitmask has every keyboard bit, and report the event node
    named last on the most recent `H: Handlers=` line. Opening the registry is
    the caller's business: the lines arrive as `Some(lines)`, an unreadable
    registry as `None`. */
module InputDetection {
  import opened KeyboardBackend

  // ---------------------------------------------------------------------------
  // Characters and hexadecimal numbers

  /** Whitespace as `isspace` sees it in the C locale. */
  predicate IsSpace(c: char) {
    c == ' ' || c == '\t' || c == '\n' || c == '\U{000B}' || c == '\U{000C}' || c == '\r'
  }

  predicate IsHexDigit(c: char) {
    '0' <= c <= '9' || 'a' <= c <= 'f' || 'A' <= c <= 'F'
  }

  function HexDigitValue(c: char): (d: nat)
    requires IsHexDigit(c)
    ensures d < 16
  {
    if '0' <= c <= '9' then c as int - '0' as int
    else if 'a' <= c <= 'f' then c as int - 'a' as int + 10
    else c as int - 'A' as int + 10
  }

  predicate AllHexDigits(s: string) {
    forall k :: 0 <= k < |s| ==> IsHexDigit(s[k])
  }

  predicate AllSpaces(s: string) {
    forall k :: 0 <= k < |s| ==> IsSpace(s[k])
  }

  /** The number a string of hex digits denotes, most significant digit first. */
  function HexValue(digits: string): nat
    requires AllHexDigits(digits)
  {
    if digits == [] then 0
    else 16 * HexValue(digits[..|digits| - 1]) + HexDigitValue(digits[|digits| - 1])
  }

  /** `s` without its leading whitespace. */
  function SkipSpaces(s: string): (t: string)
    ensures |t| <= |s| && t == s[|s| - |t|..]
    ensures t == [] || !IsSpace(t[0])
  {
    if s != [] && IsSpace(s[0]) then SkipSpaces(s[1..]) else s
  }

  /** The length of the run of hex digits that starts `s`. */
  function HexRun(s: string): (n: nat)
    ensures n <= |s| && AllHexDigits(s[..n])
    ensures n == |s| || !IsHexDigit(s[n])
  {
    if s != [] && IsHexDigit(s[0]) then
      assert s[1..][..HexRun(s[1..])] == s[1..1 + HexRun(s[1..])];
      1 + HexRun(s[1..])
    else 0
  }

  predicate HasHexPrefix(t: string) {
    |t| >= 2 && t[0] == '0' && (t[1] == 'x' || t[1] == 'X')
  }

  /** Where the digits start: after the whitespace and an optional prefix. */
  function DigitsFrom(s: string): string {
    var t := SkipSpaces(s);
    if HasHexPrefix(t) then t[2..] else t
  }

  /** `ParseHexToUint`: what `ss >> std::hex >> v` reads into an `unsigned int`.
      Leading whitespace is skipped, a `0x`/`0X` prefix is optional, then at
      least one hex digit must follow; reading stops at the first non-digit.
      No digit, or a value above 0xFFFFFFFF, sets the stream's fail bit. */
  function ParseHexToUint(s: string): Option<u32> {
    var digits := DigitsFrom(s);
    var n := HexRun(digits);
    if n == 0 then None
    else
      var v := HexValue(digits[..n]);
      if v <= 0xFFFF_FFFF then Some(v) else None
  }

  function HexChar(d: nat): (c: char)
    requires d < 16
    ensures IsHexDigit(c) && HexDigitValue(c) == d
  {
    if d < 10 then ('0' as int + d) as char else ('a' as int + d - 10) as char
  }

  /** The kernel's `%lx`: lower-case hex digits, no prefix, no leading zeros. */
  function FormatHex(v: nat): (s: string)
    ensures 0 < |s| && AllHexDigits(s)
    decreases v
  {
    if v < 16 then [HexChar(v)] else FormatHex(v / 16) + [HexChar(v % 16)]
  }

  /** Only zero is written with a leading `0`. */
  lemma {:induction false} FormatHexLeadingZero(v: nat)
    ensures FormatHex(v)[0] == '0' <==> v == 0
    decreases v
  {
    if v >= 16 {
      assert FormatHex(v)[0] == FormatHex(v / 16)[0];
      FormatHexLeadingZero(v / 16);
    }
  }

  /** The kernel's `%lx` of the keyboard mask 0x120013. */
  lemma KeyboardMaskFormat()
    ensures FormatHex(0x120013) == "120013"
  {
    assert FormatHex(0x1) == "1";
    assert FormatHex(0x12) == FormatHex(0x1) + [HexChar(2)];
    assert FormatHex(0x120) == FormatHex(0x12) + [HexChar(0)];
    assert FormatHex(0x1200) == FormatHex(0x120) + [HexChar(0)];
    assert FormatHex(0x12001) == FormatHex(0x1200) + [HexChar(1)];
    assert FormatHex(0x120013) == FormatHex(0x12001) + [HexChar(3)];
  }

  /** Reading back what `FormatHex` wrote recovers the number. */
  lemma {:induction false} HexValueOfFormat(v: nat)
    ensures HexValue(FormatHex(v)) == v
    decreases v
  {
    if v >= 16 {
      var s := FormatHex(v);
      assert s[..|s| - 1] == FormatHex(v / 16);
      HexValueOfFormat(v / 16);
    }
  }

  /** A run of hex digits ends where the digits do. */
  lemma {:induction false} HexRunOfDigits(digits: string, rest: string)
    requires AllHexDigits(digits)
    requires rest == [] || !IsHexDigit(rest[0])
    ensures HexRun(digits + rest) == |digits|
    decreases |digits|
  {
    if digits != [] {
      assert (digits + rest)[1..] == digits[1..] + rest;
      HexRunOfDigits(digits[1..], rest);
    }
  }

  lemma {:induction false} SkipLeadingSpaces(spaces: string, t: string)
    requires AllSpaces(spaces)
    requires t == [] || !IsSpace(t[0])
    ensures SkipSpaces(spaces + t) == t
    decreases |spaces|
  {
    if spaces != [] {
      assert (spaces + t)[1..] == spaces[1..] + t;
      SkipLeadingSpaces(spaces[1..], t);
    }
  }

  /** A number written in hex after any whitespace, and before any text that
      does not continue it, parses back to itself when it fits in 32 bits and
      fails when it does not. */
  lemma {:induction false} ParseFormatRoundTrip(spaces: string, v: nat, rest: string)
    requires AllSpaces(spaces)
    requires rest == [] || (!IsHexDigit(rest[0]) && (v == 0 ==> rest[0] != 'x' && rest[0] != 'X'))
    ensures ParseHexToUint(spaces + FormatHex(v) + rest) == if v <= 0xFFFF_FFFF then Some(v) else None
  {
    var digits := FormatHex(v);
    assert spaces + digits + rest == spaces + (digits + rest);
    FormatHexLeadingZero(v);
    DigitsAfterSpacesBare(spaces, digits, rest);
    ParseDigits(digits, rest);
    HexValueOfFormat(v);
  }

  /** The same with a `0x` prefix. */
  lemma {:induction false} ParsePrefixedFormatRoundTrip(spaces: string, v: nat, rest: string)
    requires AllSpaces(spaces)
    requires rest == [] || !IsHexDigit(rest[0])
    ensures ParseHexToUint(spaces + "0x" + FormatHex(v) + rest) == if v <= 0xFFFF_FFFF then Some(v) else None
  {
    var digits := FormatHex(v);
    assert spaces + "0x" + digits + rest == spaces + "0x" + (digits + rest);
    DigitsAfterPrefix(spaces, digits + rest);
    ParseDigits(digits, rest);
    HexValueOfFormat(v);
  }

  /** Once the digits are found, the value is theirs. */
  lemma ParseDigits(digits: string, rest: string)
    requires AllHexDigits(digits) && digits != []
    requires rest == [] || !IsHexDigit(rest[0])
    ensures HexRun(digits + rest) == |digits| && (digits + rest)[..|digits|] == digits
  {
    HexRunOfDigits(digits, rest);
  }

  lemma DigitsAfterPrefix(spaces: string, u: string)
    requires AllSpaces(spaces)
    ensures DigitsFrom(spaces + "0x" + u) == u
  {
    assert spaces + "0x" + u == spaces + ("0x" + u);
    SkipLeadingSpaces(spaces, "0x" + u);
    PrefixedDigits(u);
  }

  lemma DigitsAfterSpacesBare(spaces: string, digits: string, rest: string)
    requires AllSpaces(spaces) && AllHexDigits(digits) && digits != []
    requires rest == [] || (!IsHexDigit(rest[0]) && (digits[0] == '0' ==> rest[0] != 'x' && rest[0] != 'X'))
    ensures DigitsFrom(spaces + (digits + rest)) == digits + rest
  {
    SkipLeadingSpaces(spaces, digits + rest);
    BareDigits(digits, rest);
  }

  lemma PrefixedDigits(u: string)
    ensures SkipSpaces("0x" + u) == "0x" + u
    ensures HasHexPrefix("0x" + u) && ("0x" + u)[2..] == u
  {
  }

  lemma BareDigits(digits: string, rest: string)
    requires AllHexDigits(digits) && digits != []
    requires rest == [] || (!IsHexDigit(rest[0]) && (digits[0] == '0' ==> rest[0] != 'x' && rest[0] != 'X'))
    ensures !HasHexPrefix(digits + rest)
  {
    if |digits| == 1 {
      assert (digits + rest)[1..] == rest;
    } else {
      assert (digits + rest)[1] == digits[1];
    }
  }

  /** When no hex digit can be read, after the whitespace and an optional
      `0x`, parsing fails. */
  lemma ParseWithoutDigitFails(s: string)
    requires DigitsFrom(s) == [] || !IsHexDigit(DigitsFrom(s)[0])
    ensures ParseHexToUint(s) == None
  {
  }

  // ---------------------------------------------------------------------------
  // Whitespace-separated tokens (`hs >> token`)

  /** The length of the word that starts `s`. */
  function WordLength(s: string): (n: nat)
    ensures n <= |s|
    ensures forall k :: 0 <= k < n ==> !IsSpace(s[k])
    ensures n == |s| || IsSpace(s[n])
  {
    if s == [] || IsSpace(s[0]) then 0 else 1 + WordLength(s[1..])
  }

  /** The whitespace-separated tokens of `s`, left to right. */
  function Tokens(s: string): seq<string>
    decreases |s|
  {
    if s == [] then []
    else if IsSpace(s[0]) then Tokens(s[1..])
    else
      var n := WordLength(s);
      [s[..n]] + Tokens(s[n..])
  }

  /** The last token of `s`, or the empty string when it has none. */
  function LastToken(s: string): string {
    var tokens := Tokens(s);
    if tokens == [] then "" else tokens[|tokens| - 1]
  }

  /** A word is a non-empty string without whitespace. */
  predicate IsWord(w: string) {
    w != [] && forall k :: 0 <= k < |w| ==> !IsSpace(w[k])
  }

  /** Words separated by single spaces, as the kernel writes a handler list. */
  function JoinWords(words: seq<string>): string {
    if words == [] then ""
    else if |words| == 1 then words[0]
    else words[0] + " " + JoinWords(words[1..])
  }

  lemma {:induction false} WordThenRest(w: string, rest: string)
    requires IsWord(w)
    requires rest == [] || IsSpace(rest[0])
    ensures Tokens(w + rest) == [w] + Tokens(rest)
  {
    WordLengthOfWord(w, rest);
    assert (w + rest)[..|w|] == w;
    assert (w + rest)[|w|..] == rest;
  }

  lemma {:induction false} WordLengthOfWord(w: string, rest: string)
    requires forall k :: 0 <= k < |w| ==> !IsSpace(w[k])
    requires rest == [] || IsSpace(rest[0])
    ensures WordLength(w + rest) == |w|
    decreases |w|
  {
    if w != [] {
      assert (w + rest)[1..] == w[1..] + rest;
      WordLengthOfWord(w[1..], rest);
    }
  }

  /** Splitting joined words gives the words back. */
  lemma {:induction false} TokensOfJoin(words: seq<string>)
    requires forall j :: 0 <= j < |words| ==> IsWord(words[j])
    ensures Tokens(JoinWords(words)) == words
  {
    if |words| == 1 {
      WordThenRest(words[0], "");
      assert words[0] + "" == words[0];
    } else if |words| > 1 {
      var rest := JoinWords(words[1..]);
      TokensOfJoin(words[1..]);
      WordThenRest(words[0], " " + rest);
      assert words[0] + " " + rest == words[0] + (" " + rest);
      assert (" " + rest)[1..] == rest;
    }
  }

  /** Text that ends in whitespace tokenizes on its own. */
  lemma {:induction false} TokensAppend(a: string, b: string)
    requires a == [] || IsSpace(a[|a| - 1])
    ensures Tokens(a + b) == Tokens(a) + Tokens(b)
    decreases |a|
  {
    if a == [] {
      assert a + b == b;
    } else if IsSpace(a[0]) {
      assert a[1..] == [] || a[1..][|a[1..]| - 1] == a[|a| - 1];
      assert (a + b)[1..] == a[1..] + b;
      TokensAppend(a[1..], b);
      assert Tokens(a + b) == Tokens(a[1..] + b);
    } else {
      var n := WordLength(a);
      assert n < |a|;
      var w, tail := a[..n], a[n..];
      assert tail[|tail| - 1] == a[|a| - 1];
      assert a == w + tail;
      WordThenRest(w, tail);
      WordThenRest(w, tail + b);
      assert a + b == w + (tail + b);
      TokensAppend(tail, b);
    }
  }

  /** The word after the last space is the last token. */
  lemma LastTokenAfterSpace(prefix: string, w: string)
    requires IsWord(w)
    ensures LastToken(prefix + " " + w) == w
  {
    TokensAppend(prefix + " ", w);
    WordThenRest(w, "");
    assert w + "" == w;
  }

  lemma TokensSkipSpace(s: string, i: nat)
    requires i < |s| && IsSpace(s[i])
    ensures Tokens(s[i..]) == Tokens(s[i + 1..])
  {
    assert s[i..][1..] == s[i + 1..];
  }

  lemma TokensTakeWord(s: string, i: nat, j: nat)
    requires i < j <= |s|
    requires forall k :: i <= k < j ==> !IsSpace(s[k])
    requires j == |s| || IsSpace(s[j])
    ensures Tokens(s[i..]) == [s[i..j]] + Tokens(s[j..])
  {
    assert s[i..] == s[i..j] + s[j..];
    WordThenRest(s[i..j], s[j..]);
  }

  /** Where the word that starts at `i` ends. */
  method WordEnd(s: string, i: nat) returns (j: nat)
    requires i < |s| && !IsSpace(s[i])
    ensures i < j <= |s|
    ensures forall k :: i <= k < j ==> !IsSpace(s[k])
    ensures j == |s| || IsSpace(s[j])
  {
    j := i + 1;
    while j < |s| && !IsSpace(s[j])
      invariant i < j <= |s|
      invariant forall k :: i <= k < j ==> !IsSpace(s[k])
    {
      j := j + 1;
    }
  }

  /** `while (hs >> token) last_token = token;`: the last token of `s`. */
  method ReadLastToken(s: string) returns (last: string)
    ensures last == LastToken(s)
  {
    var i := 0;
    last := "";
    ghost var read: seq<string> := [];
    while i < |s|
      invariant 0 <= i <= |s|
      invariant Tokens(s) == read + Tokens(s[i..])
      invariant last == if read == [] then "" else read[|read| - 1]
      decreases |s| - i
    {
      var j, token := ReadToken(s, i);
      if token.Some? {
        last := token.value;
        read := read + [last];
      }
      i := j;
    }
    assert s[|s|..] == [];
  }

  /** One extraction `hs >> token` from position `i`: a space is skipped, a
      word is read whole. */
  method ReadToken(s: string, i: nat) returns (j: nat, token: Option<string>)
    requires i < |s|
    ensures i < j <= |s|
    ensures Tokens(s[i..]) == (if token.Some? then [token.value] else []) + Tokens(s[j..])
  {
    if IsSpace(s[i]) {
      TokensSkipSpace(s, i);
      j, token := i + 1, None;
    } else {
      j := WordEnd(s, i);
      TokensTakeWord(s, i, j);
      token := Some(s[i..j]);
    }
  }

  // ---------------------------------------------------------------------------
  // The registry scan

  /** EV_SYN, EV_KEY, EV_MSC, EV_LED and EV_REP: the event types a keyboard
      supports. */
  const KeyboardMask: bv32 := 0x120013

  predicate StartsWith(s: string, prefix: string) {
    |prefix| <= |s| && s[..|prefix|] == prefix
  }

  predicate IsHandlersLine(line: string) {
    StartsWith(line, "H: Handlers=")
  }

  predicate IsEventTypesLine(line: string) {
    StartsWith(line, "B: EV=")
  }

  predicate HasKeyboardEvents(v: u32) {
    (v as bv32) & KeyboardMask == KeyboardMask
  }

  /** A `B: EV=` line whose bitmask parses and has every keyboard bit. */
  predicate IsKeyboardLine(line: string) {
    && IsEventTypesLine(line)
    && var val := ParseHexToUint(line[6..]);
       val.Some? && HasKeyboardEvents(val.value)
  }

  /** `line` ends the scan while `handlers` is the handlers line in force: it
      is a keyboard's bitmask line and the handlers end in an event node. */
  predicate Qualifies(line: string, handlers: string) {
    !IsHandlersLine(line) && IsKeyboardLine(line) && StartsWith(LastToken(handlers), "event")
  }

  /** The handlers line in force after `line`. */
  function NextHandlers(line: string, handlers: string): string {
    if IsHandlersLine(line) then line else handlers
  }

  /** The scan from some line on, `handlers` being the last `H: Handlers=` line
      seen before it ("" if none): the first qualifying line ends it with the
      last token of the handlers line in force. */
  function ScanDevices(lines: seq<string>, handlers: string): Option<string> {
    if lines == [] then None
    else if Qualifies(lines[0], handlers) then Some(LastToken(handlers))
    else ScanDevices(lines[1..], NextHandlers(lines[0], handlers))
  }

  /** What the scan finds is an event node name, one token on its own. */
  lemma {:induction false} ScanFindsEventNode(lines: seq<string>, handlers: string)
    ensures var node := ScanDevices(lines, handlers);
            node.Some? ==> StartsWith(node.value, "event") && node.value == LastToken(node.value)
  {
    if lines != [] {
      if Qualifies(lines[0], handlers) {
        LastTokenIsAToken(handlers);
      } else {
        ScanFindsEventNode(lines[1..], NextHandlers(lines[0], handlers));
      }
    }
  }

  /** A non-empty last token is one token on its own. */
  lemma LastTokenIsAToken(s: string)
    requires LastToken(s) != ""
    ensures LastToken(LastToken(s)) == LastToken(s)
  {
    var w := LastToken(s);
    assert IsWord(w) by { TokensAreWords(s); }
    TokensOfJoin([w]);
  }

  lemma {:induction false} TokensAreWords(s: string)
    ensures forall j :: 0 <= j < |Tokens(s)| ==> IsWord(Tokens(s)[j])
    decreases |s|
  {
    if s != [] {
      if IsSpace(s[0]) {
        TokensAreWords(s[1..]);
      } else {
        TokensAreWords(s[WordLength(s)..]);
      }
    }
  }

  /** `FindActiveKeyboardEventNode`: the scan over the registry's lines. */
  method FindActiveKeyboardEventNode(registry: Option<seq<string>>) returns (node: Option<string>)
    ensures node == if registry.None? then None else ScanDevices(registry.value, "")
  {
    if registry.None? {
      return None;
    }
    var lines := registry.value;
    var lastHandlers := "";
    var i := 0;
    while i < |lines|
      invariant 0 <= i <= |lines|
      invariant ScanDevices(lines, "") == ScanDevices(lines[i..], lastHandlers)
    {
      var line := lines[i];
      assert lines[i..][1..] == lines[i + 1..];
      if IsHandlersLine(line) {
        lastHandlers := line;
      } else if IsEventTypesLine(line) {
        var hex := line[6..];
        var val := ParseHexToUint(hex);
        if val.None? {
          i := i + 1;
          continue;
        }
        if HasKeyboardEvents(val.value) {
          var lastToken := ReadLastToken(lastHandlers);
          if StartsWith(lastToken, "event") {
            return Some(lastToken);
          }
        }
      }
      i := i + 1;
    }
    return None;
  }

  // ---------------------------------------------------------------------------
  // Reference: the first qualifying device, by line number

  /** The last `H: Handlers=` line among the first `j` lines, else `initial`. */
  function HandlersBefore(lines: seq<string>, j: nat, initial: string): string
    requires j <= |lines|
  {
    if j == 0 then initial
    else if IsHandlersLine(lines[j - 1]) then lines[j - 1]
    else HandlersBefore(lines, j - 1, initial)
  }

  /** Line `j` qualifies under the handlers line in force there. */
  predicate QualifiesAt(lines: seq<string>, j: nat, initial: string)
    requires j < |lines|
  {
    Qualifies(lines[j], HandlersBefore(lines, j, initial))
  }

  lemma {:induction false} HandlersBeforeShift(lines: seq<string>, j: nat, initial: string)
    requires 0 < |lines| && j < |lines|
    ensures HandlersBefore(lines, j + 1, initial)
            == HandlersBefore(lines[1..], j, NextHandlers(lines[0], initial))
  {
    if j > 0 {
      HandlersBeforeShift(lines, j - 1, initial);
    }
  }

  lemma QualifiesAtShift(lines: seq<string>, j: nat, initial: string)
    requires 0 < |lines| && j + 1 < |lines|
    ensures QualifiesAt(lines, j + 1, initial)
            == QualifiesAt(lines[1..], j, NextHandlers(lines[0], initial))
  {
    HandlersBeforeShift(lines, j, initial);
  }

  /** Past lines that do not qualify, the scan resumes at line `i` with the
      handlers line in force there. */
  lemma {:induction false} ScanResumes(lines: seq<string>, initial: string, i: nat)
    requires i <= |lines|
    requires forall k :: 0 <= k < i ==> !QualifiesAt(lines, k, initial)
    ensures ScanDevices(lines, initial) == ScanDevices(lines[i..], HandlersBefore(lines, i, initial))
  {
    if i == 0 {
      assert lines[0..] == lines;
    } else {
      assert !QualifiesAt(lines, i - 1, initial);
      ScanResumes(lines, initial, i - 1);
      ScanStepAt(lines, initial, i - 1);
    }
  }

  lemma ScanStepAt(lines: seq<string>, initial: string, i: nat)
    requires i < |lines| && !QualifiesAt(lines, i, initial)
    ensures ScanDevices(lines[i..], HandlersBefore(lines, i, initial))
            == ScanDevices(lines[i + 1..], HandlersBefore(lines, i + 1, initial))
  {
    assert lines[i..][0] == lines[i];
    assert lines[i..][1..] == lines[i + 1..];
  }

  /** When line `j` is the first qualifying line, the scan returns the last
      token of the handlers line in force there. */
  lemma ScanReturnsFirstQualifying(lines: seq<string>, initial: string, j: nat)
    requires j < |lines| && QualifiesAt(lines, j, initial)
    requires forall k :: 0 <= k < j ==> !QualifiesAt(lines, k, initial)
    ensures ScanDevices(lines, initial) == Some(LastToken(HandlersBefore(lines, j, initial)))
  {
    ScanResumes(lines, initial, j);
    assert lines[j..][0] == lines[j];
  }

  /** The scan finds nothing exactly when no line qualifies. */
  lemma {:induction false} ScanNoneIffNoneQualifies(lines: seq<string>, initial: string)
    ensures ScanDevices(lines, initial) == None
            <==> forall j :: 0 <= j < |lines| ==> !QualifiesAt(lines, j, initial)
    decreases |lines|
  {
    if lines != [] {
      var next := NextHandlers(lines[0], initial);
      ScanNoneIffNoneQualifies(lines[1..], next);
      forall k | 0 <= k < |lines| - 1 ensures QualifiesAt(lines, k + 1, initial) == QualifiesAt(lines[1..], k, next) {
        QualifiesAtShift(lines, k, initial);
      }
      if ScanDevices(lines, initial) == None {
        assert !QualifiesAt(lines, 0, initial);
        forall j | 0 <= j < |lines| ensures !QualifiesAt(lines, j, initial) {
          if j > 0 {
            assert !QualifiesAt(lines[1..], j - 1, next);
          }
        }
      } else if !QualifiesAt(lines, 0, initial) {
        var j :| 0 <= j < |lines| - 1 && QualifiesAt(lines[1..], j, next);
        assert QualifiesAt(lines, j + 1, initial);
      }
    }
  }

  /** Without any `H: Handlers=` line there is no event node to report. */
  lemma {:induction false} NoHandlersNoNode(lines: seq<string>)
    requires forall j :: 0 <= j < |lines| ==> !IsHandlersLine(lines[j])
    ensures ScanDevices(lines, "") == None
    decreases |lines|
  {
    if lines != [] {
      assert Tokens("") == [];
      NoHandlersNoNode(lines[1..]);
    }
  }

  /** A handlers line followed by a line that qualifies under it. */
  lemma ScanTwoLines(handlers: string, bitmask: string)
    requires IsHandlersLine(handlers)
    requires Qualifies(bitmask, handlers)
    ensures ScanDevices([handlers, bitmask], "") == Some(LastToken(handlers))
  {
    assert [handlers, bitmask][1..] == [bitmask];
  }

  /** One keyboard block, `H: Handlers=kbd event3` then `B: EV=120013` (the
      kernel's `%lx` of the keyboard mask), reports `event3`. */
  lemma ExampleRegistry()
    ensures ScanDevices(["H: Handlers=kbd event3", "B: EV=120013"], "") == Some("event3")
  {
    var handlers, bitmask := "H: Handlers=kbd event3", "B: EV=120013";
    ExampleHandlers(handlers);
    ExampleHandlersTokens(handlers);
    ExampleBitmaskQualifies(bitmask, handlers);
    ScanTwoLines(handlers, bitmask);
  }

  lemma ExampleHandlers(handlers: string)
    requires handlers == "H: Handlers=kbd event3"
    ensures IsHandlersLine(handlers)
  {
    assert handlers[..12] == "H: Handlers=";
  }

  lemma ExampleBitmaskQualifies(bitmask: string, handlers: string)
    requires bitmask == "B: EV=120013"
    requires LastToken(handlers) == "event3"
    ensures Qualifies(bitmask, handlers)
  {
    assert !IsHandlersLine(bitmask) by {
      assert bitmask[0] != 'H';
    }
    ExampleBitmask(bitmask);
    assert StartsWith(LastToken(handlers), "event") by {
      assert "event3"[..5] == "event";
    }
  }

  lemma ExampleHandlersTokens(handlers: string)
    requires handlers == "H: Handlers=kbd event3"
    ensures LastToken(handlers) == "event3"
  {
    LastTokenAfterSpace("H: Handlers=kbd", "event3");
    assert "H: Handlers=kbd" + " " + "event3" == handlers;
  }

  /** The keyboard mask's field reads back as 0x120013. */
  lemma ExampleMaskParses()
    ensures ParseHexToUint("120013") == Some(0x120013)
  {
    KeyboardMaskFormat();
    ParseFormatRoundTrip("", 0x120013, "");
    assert "" + FormatHex(0x120013) + "" == "120013";
  }

  /** The keyboard mask line: its hex field reads back as 0x120013, whose
      `EV_KEY` bit is set. */
  lemma ExampleBitmask(bitmask: string)
    requires bitmask == "B: EV=120013"
    ensures ParseHexToUint(bitmask[6..]) == Some(0x120013)
    ensures IsKeyboardLine(bitmask)
  {
    assert IsEventTypesLine(bitmask) by {
      assert bitmask[..6] == "B: EV=";
    }
    assert bitmask[6..] == "120013";
    ExampleMaskParses();
    assert HasKeyboardEvents(0x120013);
  }

}
