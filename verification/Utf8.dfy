/**
 What JSON does to a Go string: bytes that are not UTF-8 become U+FFFD one at a time.
 Strings are byte strings.
 */
module Utf8 {
  import Text

  predicate In(c: char, lo: int, hi: int) {
    lo <= c as int <= hi
  }

  predicate Tail(s: string, from: nat, to: nat)
    requires to <= |s|
  {
    forall i | from <= i < to :: In(s[i], 0x80, 0xBF)
  }

  /** The length of the sequence `s` starts with, or 0 when its first byte starts none. */
  function Width(s: string): (w: nat)
    ensures w <= 4 && w <= |s|
  {
    if s == "" then 0
    else if In(s[0], 0, 0x7F) then 1
    else if |s| >= 2 && In(s[0], 0xC2, 0xDF) && Tail(s, 1, 2) then 2
    else if |s| >= 3 && In(s[0], 0xE0, 0xEF) && Second(s[0], s[1]) && Tail(s, 2, 3) then 3
    else if |s| >= 4 && In(s[0], 0xF0, 0xF4) && Second(s[0], s[1]) && Tail(s, 2, 4) then 4
    else 0
  }

  /** No overlong forms, no surrogates, nothing above U+10FFFF. */
  predicate Second(first: char, c: char) {
    In(c, if first as int == 0xE0 then 0xA0 else if first as int == 0xF0 then 0x90 else 0x80,
          if first as int == 0xED then 0x9F else if first as int == 0xF4 then 0x8F else 0xBF)
  }

  predicate Valid(s: string) {
    s == "" || (Width(s) > 0 && Valid(s[Width(s)..]))
  }

  // ----- What the widths are: the encodings of the Unicode scalar values -----

  predicate Scalar(n: int) {
    0 <= n < 0x11_0000 && !(0xD800 <= n <= 0xDFFF)
  }

  /** The bytes of a scalar value, as UTF-8 has them. */
  function Encoded(n: int): string
    requires Scalar(n)
  {
    if n < 0x80 then [n as char]
    else if n < 0x800 then [(0xC0 + n / 0x40) as char, (0x80 + n % 0x40) as char]
    else if n < 0x1_0000 then
      [(0xE0 + n / 0x1000) as char, (0x80 + n / 0x40 % 0x40) as char, (0x80 + n % 0x40) as char]
    else
      [(0xF0 + n / 0x4_0000) as char, (0x80 + n / 0x1000 % 0x40) as char, (0x80 + n / 0x40 % 0x40) as char,
       (0x80 + n % 0x40) as char]
  }

  /** The bits of the first `w` bytes. */
  function Decoded(s: string, w: nat): int
    requires w <= |s| && 1 <= w <= 4
  {
    if w == 1 then s[0] as int
    else if w == 2 then (s[0] as int - 0xC0) * 0x40 + (s[1] as int - 0x80)
    else if w == 3 then ((s[0] as int - 0xE0) * 0x40 + (s[1] as int - 0x80)) * 0x40 + (s[2] as int - 0x80)
    else
      (((s[0] as int - 0xF0) * 0x40 + (s[1] as int - 0x80)) * 0x40 + (s[2] as int - 0x80)) * 0x40
      + (s[3] as int - 0x80)
  }

  /** The digits of a number in base 64. */
  lemma Digits(x: int, y: int, z: int, t: int)
    requires 0 <= x && 0 <= y < 0x40 && 0 <= z < 0x40 && 0 <= t < 0x40
    ensures var n := x * 0x40 + y; n / 0x40 == x && n % 0x40 == y
    ensures var n := (x * 0x40 + y) * 0x40 + z; n / 0x1000 == x && n / 0x40 % 0x40 == y && n % 0x40 == z
    ensures var n := ((x * 0x40 + y) * 0x40 + z) * 0x40 + t;
            n / 0x4_0000 == x && n / 0x1000 % 0x40 == y && n / 0x40 % 0x40 == z && n % 0x40 == t
  {
  }

  predicate Right(s: string, w: nat)
    requires w <= |s| && 1 <= w <= 4
  {
    Scalar(Decoded(s, w)) && Encoded(Decoded(s, w)) == s[..w]
  }

  lemma TwoDecode(s: string)
    requires Width(s) == 2
    ensures Right(s, 2)
  {
    assert In(s[1], 0x80, 0xBF);
    Digits(s[0] as int - 0xC0, s[1] as int - 0x80, 0, 0);
  }

  lemma ThreeDecode(s: string)
    requires Width(s) == 3
    ensures Right(s, 3)
  {
    assert In(s[2], 0x80, 0xBF);
    Digits(s[0] as int - 0xE0, s[1] as int - 0x80, s[2] as int - 0x80, 0);
  }

  lemma FourDecode(s: string)
    requires Width(s) == 4
    ensures Right(s, 4)
  {
    assert In(s[2], 0x80, 0xBF) && In(s[3], 0x80, 0xBF);
    Digits(s[0] as int - 0xF0, s[1] as int - 0x80, s[2] as int - 0x80, s[3] as int - 0x80);
  }

  lemma WidthDecodes(s: string)
    requires Width(s) > 0
    ensures Right(s, Width(s))
  {
    hide Scalar, Second;
    if Width(s) == 1 {
      OneDecode(s);
    } else if Width(s) == 2 {
      TwoDecode(s);
    } else if Width(s) == 3 {
      ThreeDecode(s);
    } else {
      FourDecode(s);
    }
  }

  lemma OneDecode(s: string)
    requires Width(s) == 1
    ensures Right(s, 1)
  {
  }

  /** Where a scalar value of two, three or four bytes puts its bits. */
  lemma EncodedBytes(n: int)
    requires Scalar(n)
    ensures var e := Encoded(n);
            && (n < 0x80 ==> |e| == 1 && In(e[0], 0, 0x7F))
            && (0x80 <= n < 0x800 ==> |e| == 2 && In(e[0], 0xC2, 0xDF) && Tail(e, 1, 2))
            && (0x800 <= n < 0x1_0000 ==> |e| == 3 && In(e[0], 0xE0, 0xEF) && Second(e[0], e[1]) && Tail(e, 2, 3))
            && (0x1_0000 <= n ==> |e| == 4 && In(e[0], 0xF0, 0xF4) && Second(e[0], e[1]) && Tail(e, 2, 4))
  {
  }

  lemma EncodedWidth(n: int, t: string)
    requires Scalar(n)
    ensures Width(Encoded(n) + t) == |Encoded(n)|
  {
    EncodedBytes(n);
    hide Encoded, Second;
    var s := Encoded(n) + t;
    assert forall i | 0 <= i < |Encoded(n)| :: s[i] == Encoded(n)[i];
  }

  /** A string begins with a sequence exactly when it begins with the encoding of a scalar
      value, and then that is the sequence. */
  lemma WidthExactly(s: string, w: nat)
    requires w > 0
    ensures Width(s) == w <==> exists n :: Scalar(n) && Encoded(n) <= s && |Encoded(n)| == w
  {
    hide Width, Encoded;
    if Width(s) == w {
      WidthDecodes(s);
      assert Encoded(Decoded(s, w)) <= s;
    }
    if n :| Scalar(n) && Encoded(n) <= s && |Encoded(n)| == w {
      EncodedWidth(n, s[w..]);
      assert s == Encoded(n) + s[w..];
    }
  }

  const REPLACEMENT: string := [0xEF as char, 0xBF as char, 0xBD as char]

  function Repair(s: string): string {
    if s == "" then ""
    else if Width(s) > 0 then s[..Width(s)] + Repair(s[Width(s)..])
    else REPLACEMENT + Repair(s[1..])
  }

  /** A sequence stays the first one whatever follows it. */
  lemma WidthOfPrefix(s: string, t: string)
    requires Width(s) > 0
    ensures Width(s[..Width(s)] + t) == Width(s)
  {
    var w := Width(s);
    var u := s[..w] + t;
    assert forall i | 0 <= i < w :: u[i] == s[i];
    assert u != "";
  }

  lemma ReplacementWidth(t: string)
    ensures Width(REPLACEMENT + t) == 3
  {
    var u := REPLACEMENT + t;
    assert u[0] == 0xEF as char && u[1] == 0xBF as char && u[2] == 0xBD as char;
  }

  lemma {:induction false} RepairIsValid(s: string)
    ensures Valid(Repair(s))
    decreases |s|
  {
    hide Width, REPLACEMENT;
    if s != "" {
      if Width(s) > 0 {
        var rest := Repair(s[Width(s)..]);
        RepairIsValid(s[Width(s)..]);
        WidthOfPrefix(s, rest);
        assert Repair(s)[Width(s)..] == rest;
      } else {
        RepairIsValid(s[1..]);
        Replaced(Repair(s[1..]));
      }
    }
  }

  lemma Replaced(t: string)
    requires Valid(t)
    ensures Valid(REPLACEMENT + t)
  {
    hide Width;
    ReplacementWidth(t);
    assert (REPLACEMENT + t)[3..] == t;
  }

  lemma {:induction false} RepairValid(s: string)
    requires Valid(s)
    ensures Repair(s) == s
    decreases |s|
  {
    hide Width, REPLACEMENT;
    if s != "" {
      RepairValid(s[Width(s)..]);
      assert s == s[..Width(s)] + s[Width(s)..];
    }
  }

  /** What is not UTF-8 leaves a replacement character behind. */
  lemma {:induction false} RepairShows(s: string)
    requires !Valid(s)
    ensures Text.Contains(Repair(s), REPLACEMENT)
    decreases |s|
  {
    hide Width, REPLACEMENT, Text.At;
    if Width(s) > 0 {
      var head, rest := s[..Width(s)], Repair(s[Width(s)..]);
      RepairShows(s[Width(s)..]);
      var i :| Text.At(rest, REPLACEMENT, i);
      NotBefore(rest, REPLACEMENT, i);
      Text.AtRight(head, rest, REPLACEMENT, |head| + i);
    } else {
      AtFront(REPLACEMENT, Repair(s[1..]));
    }
  }

  lemma NotBefore(s: string, p: string, i: int)
    requires Text.At(s, p, i)
    ensures 0 <= i
  {
  }

  lemma AtFront(p: string, rest: string)
    ensures Text.At(p + rest, p, 0)
  {
  }

  /** Only UTF-8 survives. */
  lemma RepairFixes(s: string)
    ensures Repair(s) == s <==> Valid(s)
  {
    RepairIsValid(s);
    if Valid(s) { RepairValid(s); }
  }
}
