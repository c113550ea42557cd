/** The callback contract shared by both backends (include/xkbKeyboardBackend.h).
    A backend reports `(index, isDown)` pairs to the host through one registered
    callback; the model records every invocation, in order, as a `KeyCall`. */
module KeyboardBackend {

  datatype Option<+T> = None | Some(value: T)

  /** Unsigned integer widths of the C++ source (LP64). */
  type u16 = x: int | 0 <= x < 0x1_0000
  type u32 = x: int | 0 <= x < 0x1_0000_0000
  type i32 = x: int | -0x8000_0000 <= x < 0x8000_0000

  /** Indices the callback may receive: `size_t` values below 256. */
  const KeyCount: nat := 256

  /** One invocation `m_SetKey(index, down)` of the host callback. */
  datatype KeyCall = KeyCall(index: nat, down: bool)

  /** Every call of `calls` names an index the host can store. */
  ghost predicate ValidCalls(calls: seq<KeyCall>) {
    forall j :: 0 <= j < |calls| ==> calls[j].index < KeyCount
  }

  /** Regrouping a trace of calls; a hint for appends inside loops. */
  lemma AppendAssoc(a: seq<KeyCall>, b: seq<KeyCall>, c: seq<KeyCall>)
    ensures a + (b + c) == (a + b) + c
  {
  }
}
