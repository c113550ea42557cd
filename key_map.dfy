/** The canonical key map (src/xkbKeyMap.cpp): an X11 keysym is translated to
    the key code that the Linux input layer (linux/input.h) uses for the same
    physical key, so that the host sees one index space whichever backend runs.
    Only letters, top-row digits, a few controls and modifiers, the arrows and
    F1-F12 are mapped; every other keysym is unmapped. */
module KeyMap {
  import opened KeyboardBackend

  /** `KeySym_Fwd` of include/xkbKeyMap.h: an `unsigned long`. */
  type KeySym = x: int | 0 <= x < 0x1_0000_0000_0000_0000

  // Keysyms (X11/keysym.h)
  const XK_a: KeySym := 0x61
  const XK_b: KeySym := 0x62
  const XK_c: KeySym := 0x63
  const XK_d: KeySym := 0x64
  const XK_e: KeySym := 0x65
  const XK_f: KeySym := 0x66
  const XK_g: KeySym := 0x67
  const XK_h: KeySym := 0x68
  const XK_i: KeySym := 0x69
  const XK_j: KeySym := 0x6a
  const XK_k: KeySym := 0x6b
  const XK_l: KeySym := 0x6c
  const XK_m: KeySym := 0x6d
  const XK_n: KeySym := 0x6e
  const XK_o: KeySym := 0x6f
  const XK_p: KeySym := 0x70
  const XK_q: KeySym := 0x71
  const XK_r: KeySym := 0x72
  const XK_s: KeySym := 0x73
  const XK_t: KeySym := 0x74
  const XK_u: KeySym := 0x75
  const XK_v: KeySym := 0x76
  const XK_w: KeySym := 0x77
  const XK_x: KeySym := 0x78
  const XK_y: KeySym := 0x79
  const XK_z: KeySym := 0x7a
  const XK_A: KeySym := 0x41
  const XK_B: KeySym := 0x42
  const XK_C: KeySym := 0x43
  const XK_D: KeySym := 0x44
  const XK_E: KeySym := 0x45
  const XK_F: KeySym := 0x46
  const XK_G: KeySym := 0x47
  const XK_H: KeySym := 0x48
  const XK_I: KeySym := 0x49
  const XK_J: KeySym := 0x4a
  const XK_K: KeySym := 0x4b
  const XK_L: KeySym := 0x4c
  const XK_M: KeySym := 0x4d
  const XK_N: KeySym := 0x4e
  const XK_O: KeySym := 0x4f
  const XK_P: KeySym := 0x50
  const XK_Q: KeySym := 0x51
  const XK_R: KeySym := 0x52
  const XK_S: KeySym := 0x53
  const XK_T: KeySym := 0x54
  const XK_U: KeySym := 0x55
  const XK_V: KeySym := 0x56
  const XK_W: KeySym := 0x57
  const XK_X: KeySym := 0x58
  const XK_Y: KeySym := 0x59
  const XK_Z: KeySym := 0x5a
  const XK_0: KeySym := 0x30
  const XK_1: KeySym := 0x31
  const XK_2: KeySym := 0x32
  const XK_3: KeySym := 0x33
  const XK_4: KeySym := 0x34
  const XK_5: KeySym := 0x35
  const XK_6: KeySym := 0x36
  const XK_7: KeySym := 0x37
  const XK_8: KeySym := 0x38
  const XK_9: KeySym := 0x39
  const XK_space: KeySym := 0x20
  const XK_Escape: KeySym := 0xff1b
  const XK_Tab: KeySym := 0xff09
  const XK_Caps_Lock: KeySym := 0xffe5
  const XK_Return: KeySym := 0xff0d
  const XK_Shift_L: KeySym := 0xffe1
  const XK_Shift_R: KeySym := 0xffe2
  const XK_Control_L: KeySym := 0xffe3
  const XK_Control_R: KeySym := 0xffe4
  const XK_Alt_L: KeySym := 0xffe9
  const XK_Alt_R: KeySym := 0xffea
  const XK_Up: KeySym := 0xff52
  const XK_Down: KeySym := 0xff54
  const XK_Left: KeySym := 0xff51
  const XK_Right: KeySym := 0xff53
  const XK_F1: KeySym := 0xffbe
  const XK_F2: KeySym := 0xffbf
  const XK_F3: KeySym := 0xffc0
  const XK_F4: KeySym := 0xffc1
  const XK_F5: KeySym := 0xffc2
  const XK_F6: KeySym := 0xffc3
  const XK_F7: KeySym := 0xffc4
  const XK_F8: KeySym := 0xffc5
  const XK_F9: KeySym := 0xffc6
  const XK_F10: KeySym := 0xffc7
  const XK_F11: KeySym := 0xffc8
  const XK_F12: KeySym := 0xffc9

  // Key codes (linux/input.h)
  const KEY_ESC: nat := 1
  const KEY_1: nat := 2
  const KEY_2: nat := 3
  const KEY_3: nat := 4
  const KEY_4: nat := 5
  const KEY_5: nat := 6
  const KEY_6: nat := 7
  const KEY_7: nat := 8
  const KEY_8: nat := 9
  const KEY_9: nat := 10
  const KEY_0: nat := 11
  const KEY_TAB: nat := 15
  const KEY_Q: nat := 16
  const KEY_W: nat := 17
  const KEY_E: nat := 18
  const KEY_R: nat := 19
  const KEY_T: nat := 20
  const KEY_Y: nat := 21
  const KEY_U: nat := 22
  const KEY_I: nat := 23
  const KEY_O: nat := 24
  const KEY_P: nat := 25
  const KEY_ENTER: nat := 28
  const KEY_LEFTCTRL: nat := 29
  const KEY_A: nat := 30
  const KEY_S: nat := 31
  const KEY_D: nat := 32
  const KEY_F: nat := 33
  const KEY_G: nat := 34
  const KEY_H: nat := 35
  const KEY_J: nat := 36
  const KEY_K: nat := 37
  const KEY_L: nat := 38
  const KEY_LEFTSHIFT: nat := 42
  const KEY_Z: nat := 44
  const KEY_X: nat := 45
  const KEY_C: nat := 46
  const KEY_V: nat := 47
  const KEY_B: nat := 48
  const KEY_N: nat := 49
  const KEY_M: nat := 50
  const KEY_RIGHTSHIFT: nat := 54
  const KEY_LEFTALT: nat := 56
  const KEY_SPACE: nat := 57
  const KEY_CAPSLOCK: nat := 58
  const KEY_F1: nat := 59
  const KEY_F2: nat := 60
  const KEY_F3: nat := 61
  const KEY_F4: nat := 62
  const KEY_F5: nat := 63
  const KEY_F6: nat := 64
  const KEY_F7: nat := 65
  const KEY_F8: nat := 66
  const KEY_F9: nat := 67
  const KEY_F10: nat := 68
  const KEY_F11: nat := 87
  const KEY_F12: nat := 88
  const KEY_RIGHTCTRL: nat := 97
  const KEY_RIGHTALT: nat := 100
  const KEY_UP: nat := 103
  const KEY_LEFT: nat := 105
  const KEY_RIGHT: nat := 106
  const KEY_DOWN: nat := 108


  /** The keysym -> key index switch. */
  function XKeySymToIndex(sym: KeySym): (r: Option<nat>)
    ensures r.Some? ==> r.value <= KEY_DOWN < KeyCount
  {
    // Letters: both cases of a letter share one key
    if sym == XK_a || sym == XK_A then Some(KEY_A)
    else if sym == XK_b || sym == XK_B then Some(KEY_B)
    else if sym == XK_c || sym == XK_C then Some(KEY_C)
    else if sym == XK_d || sym == XK_D then Some(KEY_D)
    else if sym == XK_e || sym == XK_E then Some(KEY_E)
    else if sym == XK_f || sym == XK_F then Some(KEY_F)
    else if sym == XK_g || sym == XK_G then Some(KEY_G)
    else if sym == XK_h || sym == XK_H then Some(KEY_H)
    else if sym == XK_i || sym == XK_I then Some(KEY_I)
    else if sym == XK_j || sym == XK_J then Some(KEY_J)
    else if sym == XK_k || sym == XK_K then Some(KEY_K)
    else if sym == XK_l || sym == XK_L then Some(KEY_L)
    else if sym == XK_m || sym == XK_M then Some(KEY_M)
    else if sym == XK_n || sym == XK_N then Some(KEY_N)
    else if sym == XK_o || sym == XK_O then Some(KEY_O)
    else if sym == XK_p || sym == XK_P then Some(KEY_P)
    else if sym == XK_q || sym == XK_Q then Some(KEY_Q)
    else if sym == XK_r || sym == XK_R then Some(KEY_R)
    else if sym == XK_s || sym == XK_S then Some(KEY_S)
    else if sym == XK_t || sym == XK_T then Some(KEY_T)
    else if sym == XK_u || sym == XK_U then Some(KEY_U)
    else if sym == XK_v || sym == XK_V then Some(KEY_V)
    else if sym == XK_w || sym == XK_W then Some(KEY_W)
    else if sym == XK_x || sym == XK_X then Some(KEY_X)
    else if sym == XK_y || sym == XK_Y then Some(KEY_Y)
    else if sym == XK_z || sym == XK_Z then Some(KEY_Z)
    // Digits (top row)
    else if sym == XK_0 then Some(KEY_0)
    else if sym == XK_1 then Some(KEY_1)
    else if sym == XK_2 then Some(KEY_2)
    else if sym == XK_3 then Some(KEY_3)
    else if sym == XK_4 then Some(KEY_4)
    else if sym == XK_5 then Some(KEY_5)
    else if sym == XK_6 then Some(KEY_6)
    else if sym == XK_7 then Some(KEY_7)
    else if sym == XK_8 then Some(KEY_8)
    else if sym == XK_9 then Some(KEY_9)
    // Modifiers & controls
    else if sym == XK_space then Some(KEY_SPACE)
    else if sym == XK_Escape then Some(KEY_ESC)
    else if sym == XK_Tab then Some(KEY_TAB)
    else if sym == XK_Caps_Lock then Some(KEY_CAPSLOCK)
    else if sym == XK_Return then Some(KEY_ENTER)
    else if sym == XK_Shift_L then Some(KEY_LEFTSHIFT)
    else if sym == XK_Shift_R then Some(KEY_RIGHTSHIFT)
    else if sym == XK_Control_L then Some(KEY_LEFTCTRL)
    else if sym == XK_Control_R then Some(KEY_RIGHTCTRL)
    else if sym == XK_Alt_L then Some(KEY_LEFTALT)
    else if sym == XK_Alt_R then Some(KEY_RIGHTALT)
    // Arrows
    else if sym == XK_Up then Some(KEY_UP)
    else if sym == XK_Down then Some(KEY_DOWN)
    else if sym == XK_Left then Some(KEY_LEFT)
    else if sym == XK_Right then Some(KEY_RIGHT)
    // Function keys
    else if sym == XK_F1 then Some(KEY_F1)
    else if sym == XK_F2 then Some(KEY_F2)
    else if sym == XK_F3 then Some(KEY_F3)
    else if sym == XK_F4 then Some(KEY_F4)
    else if sym == XK_F5 then Some(KEY_F5)
    else if sym == XK_F6 then Some(KEY_F6)
    else if sym == XK_F7 then Some(KEY_F7)
    else if sym == XK_F8 then Some(KEY_F8)
    else if sym == XK_F9 then Some(KEY_F9)
    else if sym == XK_F10 then Some(KEY_F10)
    else if sym == XK_F11 then Some(KEY_F11)
    else if sym == XK_F12 then Some(KEY_F12)
    else None
  }

  /** The upper-case letter keysyms are folded onto their lower-case partners;
      every other keysym is its own representative. */
  function FoldCase(sym: KeySym): KeySym {
    if XK_A <= sym <= XK_Z then sym + (XK_a - XK_A) else sym
  }

  /** Reference inverse of the table: the representative keysym of each mapped
      index (lower-case for letters). */
  function IndexToKeySym(i: nat): (r: Option<KeySym>) {
    if i == KEY_ESC then Some(XK_Escape)
    else if i == KEY_1 then Some(XK_1)
    else if i == KEY_2 then Some(XK_2)
    else if i == KEY_3 then Some(XK_3)
    else if i == KEY_4 then Some(XK_4)
    else if i == KEY_5 then Some(XK_5)
    else if i == KEY_6 then Some(XK_6)
    else if i == KEY_7 then Some(XK_7)
    else if i == KEY_8 then Some(XK_8)
    else if i == KEY_9 then Some(XK_9)
    else if i == KEY_0 then Some(XK_0)
    else if i == KEY_TAB then Some(XK_Tab)
    else if i == KEY_Q then Some(XK_q)
    else if i == KEY_W then Some(XK_w)
    else if i == KEY_E then Some(XK_e)
    else if i == KEY_R then Some(XK_r)
    else if i == KEY_T then Some(XK_t)
    else if i == KEY_Y then Some(XK_y)
    else if i == KEY_U then Some(XK_u)
    else if i == KEY_I then Some(XK_i)
    else if i == KEY_O then Some(XK_o)
    else if i == KEY_P then Some(XK_p)
    else if i == KEY_ENTER then Some(XK_Return)
    else if i == KEY_LEFTCTRL then Some(XK_Control_L)
    else if i == KEY_A then Some(XK_a)
    else if i == KEY_S then Some(XK_s)
    else if i == KEY_D then Some(XK_d)
    else if i == KEY_F then Some(XK_f)
    else if i == KEY_G then Some(XK_g)
    else if i == KEY_H then Some(XK_h)
    else if i == KEY_J then Some(XK_j)
    else if i == KEY_K then Some(XK_k)
    else if i == KEY_L then Some(XK_l)
    else if i == KEY_LEFTSHIFT then Some(XK_Shift_L)
    else if i == KEY_Z then Some(XK_z)
    else if i == KEY_X then Some(XK_x)
    else if i == KEY_C then Some(XK_c)
    else if i == KEY_V then Some(XK_v)
    else if i == KEY_B then Some(XK_b)
    else if i == KEY_N then Some(XK_n)
    else if i == KEY_M then Some(XK_m)
    else if i == KEY_RIGHTSHIFT then Some(XK_Shift_R)
    else if i == KEY_LEFTALT then Some(XK_Alt_L)
    else if i == KEY_SPACE then Some(XK_space)
    else if i == KEY_CAPSLOCK then Some(XK_Caps_Lock)
    else if i == KEY_F1 then Some(XK_F1)
    else if i == KEY_F2 then Some(XK_F2)
    else if i == KEY_F3 then Some(XK_F3)
    else if i == KEY_F4 then Some(XK_F4)
    else if i == KEY_F5 then Some(XK_F5)
    else if i == KEY_F6 then Some(XK_F6)
    else if i == KEY_F7 then Some(XK_F7)
    else if i == KEY_F8 then Some(XK_F8)
    else if i == KEY_F9 then Some(XK_F9)
    else if i == KEY_F10 then Some(XK_F10)
    else if i == KEY_F11 then Some(XK_F11)
    else if i == KEY_F12 then Some(XK_F12)
    else if i == KEY_RIGHTCTRL then Some(XK_Control_R)
    else if i == KEY_RIGHTALT then Some(XK_Alt_R)
    else if i == KEY_UP then Some(XK_Up)
    else if i == KEY_LEFT then Some(XK_Left)
    else if i == KEY_RIGHT then Some(XK_Right)
    else if i == KEY_DOWN then Some(XK_Down)
    else None
  }

  /** The keysyms `lo..hi`; letters, digits and function keys are contiguous. */
  function KeySymRange(lo: int, hi: int): set<int> {
    set sym: int | lo <= sym <= hi && Between(lo, sym, hi)
  }

  /** `lo <= sym <= hi`, as a term the solver can instantiate quantifiers on. */
  predicate Between(lo: int, sym: int, hi: int) {
    lo <= sym <= hi
  }

  const ControlKeySyms: set<int> := {
    XK_space, XK_Escape, XK_Tab, XK_Caps_Lock, XK_Return, XK_Shift_L,
    XK_Shift_R, XK_Control_L, XK_Control_R, XK_Alt_L, XK_Alt_R
  }

  const ArrowKeySyms: set<int> := { XK_Up, XK_Down, XK_Left, XK_Right }

  /** One keysym per mapped key: the lower-case letters stand for their key. */
  const RepresentativeKeySyms: set<int> :=
    KeySymRange(XK_a, XK_z) + KeySymRange(XK_0, XK_9) + ControlKeySyms
    + ArrowKeySyms + KeySymRange(XK_F1, XK_F12)

  /** Every keysym listed in the switch. */
  const MappedKeySyms: set<int> := RepresentativeKeySyms + KeySymRange(XK_A, XK_Z)

  /** The indices that `toIndex` gives the keysyms of `syms`. */
  function IndicesOf(toIndex: KeySym -> Option<nat>, syms: set<int>): set<nat> {
    set sym: KeySym | sym in syms && toIndex(sym).Some? :: toIndex(sym).value
  }

  /** Every key index the switch returns, collected from the representatives. */
  function MappedIndices(): set<nat> {
    IndicesOf(XKeySymToIndex, RepresentativeKeySyms)
  }

  /** Read back through the inverse, a mapped keysym yields its own
      case-folded representative: the index forgets nothing but letter case. */
  lemma {:induction false} IndexDeterminesKeySym(sym: KeySym)
    ensures XKeySymToIndex(sym).Some? ==>
              IndexToKeySym(XKeySymToIndex(sym).value) == Some(FoldCase(sym))
  {
    if sym < XK_A {
      IndexDeterminesKeySymBelowLetters(sym);
    } else if sym <= XK_z {
      IndexDeterminesKeySymLetters(sym);
    } else {
      IndexDeterminesKeySymAboveLetters(sym);
    }
  }

  lemma IndexDeterminesKeySymBelowLetters(sym: KeySym)
    requires sym < XK_A
    ensures XKeySymToIndex(sym).Some? ==>
              IndexToKeySym(XKeySymToIndex(sym).value) == Some(FoldCase(sym))
  {
  }

  lemma IndexDeterminesKeySymLetters(sym: KeySym)
    requires XK_A <= sym <= XK_z
    ensures XKeySymToIndex(sym).Some? ==>
              IndexToKeySym(XKeySymToIndex(sym).value) == Some(FoldCase(sym))
  {
  }

  lemma IndexDeterminesKeySymAboveLetters(sym: KeySym)
    requires XK_z < sym
    ensures XKeySymToIndex(sym).Some? ==>
              IndexToKeySym(XKeySymToIndex(sym).value) == Some(FoldCase(sym))
  {
  }

  /** The inverse only names keysyms that map back to the index it was given. */
  lemma {:induction false} KeySymOfIndexMapsBack(i: nat)
    ensures IndexToKeySym(i).Some? ==> XKeySymToIndex(IndexToKeySym(i).value) == Some(i)
  {
    if i < KEY_Q {
      KeySymOfIndexMapsBackDigits(i);
    } else if i < KEY_LEFTSHIFT {
      KeySymOfIndexMapsBackUpperRows(i);
    } else if i < KEY_F1 {
      KeySymOfIndexMapsBackLowerRows(i);
    } else {
      KeySymOfIndexMapsBackFunctionKeys(i);
    }
  }

  lemma KeySymOfIndexMapsBackDigits(i: nat)
    requires i < KEY_Q
    ensures IndexToKeySym(i).Some? ==> XKeySymToIndex(IndexToKeySym(i).value) == Some(i)
  {
  }

  lemma KeySymOfIndexMapsBackUpperRows(i: nat)
    requires KEY_Q <= i < KEY_LEFTSHIFT
    ensures IndexToKeySym(i).Some? ==> XKeySymToIndex(IndexToKeySym(i).value) == Some(i)
  {
  }

  lemma KeySymOfIndexMapsBackLowerRows(i: nat)
    requires KEY_LEFTSHIFT <= i < KEY_F1
    ensures IndexToKeySym(i).Some? ==> XKeySymToIndex(IndexToKeySym(i).value) == Some(i)
  {
  }

  lemma KeySymOfIndexMapsBackFunctionKeys(i: nat)
    requires KEY_F1 <= i
    ensures IndexToKeySym(i).Some? ==> XKeySymToIndex(IndexToKeySym(i).value) == Some(i)
  {
  }

  /** `XK_a + k` and `XK_A + k` name the same letter and share one index. */
  lemma {:induction false} LetterCasesAgree(k: nat)
    requires k < 26
    ensures XKeySymToIndex(XK_a + k).Some?
    ensures XKeySymToIndex(XK_a + k) == XKeySymToIndex(XK_A + k)
  {
  }

  /** Two keysyms share an index only when they are equal or are the upper- and
      lower-case keysyms of one letter. */
  lemma {:induction false} InjectiveModuloCase(s1: KeySym, s2: KeySym)
    requires XKeySymToIndex(s1).Some? && XKeySymToIndex(s1) == XKeySymToIndex(s2)
    ensures || s1 == s2
            || (XK_A <= s1 <= XK_Z && s2 == s1 + (XK_a - XK_A))
            || (XK_A <= s2 <= XK_Z && s1 == s2 + (XK_a - XK_A))
  {
    IndexDeterminesKeySym(s1);
    IndexDeterminesKeySym(s2);
  }

  /** The switch maps exactly the keysyms of its case labels; any other keysym
      falls through to `default` and is unmapped. */
  lemma {:induction false} MappedExactly(sym: KeySym)
    ensures XKeySymToIndex(sym).Some? <==> sym in MappedKeySyms
  {
    ListedExactly(sym);
  }

  /** The case labels of the switch, group by group. */
  predicate IsListedKeySym(sym: int) {
    || XK_a <= sym <= XK_z || XK_A <= sym <= XK_Z || XK_0 <= sym <= XK_9
    || sym in ControlKeySyms || sym in ArrowKeySyms || XK_F1 <= sym <= XK_F12
  }

  lemma ListedExactly(sym: KeySym)
    ensures XKeySymToIndex(sym).Some? <==> IsListedKeySym(sym)
    ensures IsListedKeySym(sym) <==> sym in MappedKeySyms
  {
  }

  /** The indices the switch can return are exactly `MappedIndices()`. */
  lemma {:induction false} IndicesExactly(i: nat)
    ensures i in MappedIndices() <==> exists sym: KeySym :: XKeySymToIndex(sym) == Some(i)
  {
    if sym: KeySym :| XKeySymToIndex(sym) == Some(i) {
      IndexDeterminesKeySym(sym);
      KeySymOfIndexMapsBack(i);
      MappedExactly(FoldCase(sym));
      assert FoldCase(sym) in RepresentativeKeySyms;
    }
  }

  /** `lo..hi` holds `hi - lo + 1` keysyms. */
  lemma {:induction false} KeySymRangeSize(lo: int, hi: int)
    requires lo <= hi + 1
    ensures |KeySymRange(lo, hi)| == hi - lo + 1
    decreases hi - lo
  {
    if lo <= hi {
      KeySymRangeSize(lo + 1, hi);
      assert KeySymRange(lo, hi) == {lo} + KeySymRange(lo + 1, hi);
    } else {
      assert KeySymRange(lo, hi) == {};
    }
  }

  lemma DisjointUnionSize(a: set<int>, b: set<int>)
    requires a * b == {}
    ensures |a + b| == |a| + |b|
  {
  }

  lemma ControlAndArrowCount()
    ensures |ControlKeySyms| == 11 && |ArrowKeySyms| == 4
  {
  }

  /** The representative groups are pairwise disjoint. */
  lemma RepresentativeGroupsDisjoint()
    ensures KeySymRange(XK_a, XK_z) * KeySymRange(XK_0, XK_9) == {}
    ensures (KeySymRange(XK_a, XK_z) + KeySymRange(XK_0, XK_9)) * ControlKeySyms == {}
    ensures (KeySymRange(XK_a, XK_z) + KeySymRange(XK_0, XK_9) + ControlKeySyms) * ArrowKeySyms == {}
  {
  }

  lemma FunctionKeysDisjoint()
    ensures (KeySymRange(XK_a, XK_z) + KeySymRange(XK_0, XK_9) + ControlKeySyms + ArrowKeySyms)
            * KeySymRange(XK_F1, XK_F12) == {}
    ensures RepresentativeKeySyms * KeySymRange(XK_A, XK_Z) == {}
  {
  }

  /** The 63 representatives: one keysym per mapped key. */
  lemma {:induction false} RepresentativeCount()
    ensures |RepresentativeKeySyms| == 63
  {
    var lower, digits, fkeys :=
      KeySymRange(XK_a, XK_z), KeySymRange(XK_0, XK_9), KeySymRange(XK_F1, XK_F12);
    KeySymRangeSize(XK_a, XK_z);
    KeySymRangeSize(XK_0, XK_9);
    KeySymRangeSize(XK_F1, XK_F12);
    ControlAndArrowCount();
    RepresentativeGroupsDisjoint();
    FunctionKeysDisjoint();
    DisjointUnionSize(lower, digits);
    DisjointUnionSize(lower + digits, ControlKeySyms);
    DisjointUnionSize(lower + digits + ControlKeySyms, ArrowKeySyms);
    DisjointUnionSize(lower + digits + ControlKeySyms + ArrowKeySyms, fkeys);
  }

  /** 89 keysyms are mapped: 26 letters in two cases, 10 digits, 11 controls
      and modifiers, 4 arrows and 12 function keys. */
  lemma {:induction false} MappedKeySymCount()
    ensures |MappedKeySyms| == 89
  {
    RepresentativeCount();
    KeySymRangeSize(XK_A, XK_Z);
    FunctionKeysDisjoint();
    DisjointUnionSize(RepresentativeKeySyms, KeySymRange(XK_A, XK_Z));
  }

  /** An index map that is defined and one-to-one on `syms` gives them as
      many indices as there are keysyms. */
  lemma {:induction false} InjectiveImageSize(toIndex: KeySym -> Option<nat>, syms: set<KeySym>)
    requires forall sym :: sym in syms ==> toIndex(sym).Some?
    requires forall a, b :: a in syms && b in syms && toIndex(a) == toIndex(b) ==> a == b
    ensures |IndicesOf(toIndex, syms)| == |syms|
    decreases |syms|
  {
    if syms != {} {
      var sym :| sym in syms;
      var rest := syms - {sym};
      InjectiveImageSize(toIndex, rest);
      assert IndicesOf(toIndex, syms) == IndicesOf(toIndex, rest) + {toIndex(sym).value};
    }
  }

  /** Two representatives with one index are the same keysym. */
  lemma {:induction false} RepresentativesInjective(a: KeySym, b: KeySym)
    requires a in RepresentativeKeySyms && b in RepresentativeKeySyms
    requires XKeySymToIndex(a) == XKeySymToIndex(b)
    ensures a == b
  {
    MappedExactly(a);
    IndexDeterminesKeySym(a);
    IndexDeterminesKeySym(b);
  }

  /** The mapped keysyms cover 63 distinct key indices. */
  lemma {:induction false} MappedIndexCount()
    ensures |MappedIndices()| == 63
  {
    var reps: set<KeySym> := set sym: KeySym | sym in RepresentativeKeySyms;
    assert reps == RepresentativeKeySyms;
    forall sym | sym in reps ensures XKeySymToIndex(sym).Some? {
      MappedExactly(sym);
    }
    forall a, b | a in reps && b in reps && XKeySymToIndex(a) == XKeySymToIndex(b)
      ensures a == b
    {
      RepresentativesInjective(a, b);
    }
    RepresentativeCount();
    InjectiveImageSize(XKeySymToIndex, reps);
  }
}
