/** The string operations of Go's `strings` package the file transformations rest on. */
module Text {
  import opened Common

  /** `p` occurs in `s` at `i`. */
  predicate At(s: string, p: string, i: int) {
    0 <= i && i + |p| <= |s| && s[i..i + |p|] == p
  }

  ghost predicate Contains(s: string, p: string) {
    exists i :: At(s, p, i)
  }

  /** An occurrence that fits in the first part is an occurrence in it. */
  lemma AtLeft(a: string, b: string, p: string, i: int)
    requires i + |p| <= |a|
    ensures At(a + b, p, i) <==> At(a, p, i)
  {
    if 0 <= i { assert (a + b)[i..i + |p|] == a[i..i + |p|]; }
  }

  lemma AtRight(a: string, b: string, p: string, i: int)
    requires |a| <= i
    ensures At(a + b, p, i) <==> At(b, p, i - |a|)
  {
    if i + |p| <= |a + b| { assert (a + b)[i..i + |p|] == b[i - |a|..i - |a| + |p|]; }
  }

  lemma Middle(a: string, b: string, c: string)
    ensures (a + b + c)[|a|..|a| + |b|] == b
  {
  }

  lemma DropPrefix(a: string, b: string)
    ensures (a + b)[|a|..] == b
  {
  }

  lemma AtTail(s: string, p: string, i: int)
    requires s != [] && 1 <= i
    ensures At(s, p, i) <==> At(s[1..], p, i - 1)
  {
    assert s == s[..1] + s[1..];
    AtRight(s[..1], s[1..], p, i);
  }

  lemma AtChar(s: string, p: string, i: int, k: int)
    requires At(s, p, i) && 0 <= k < |p|
    ensures p[k] == s[i + k] && p[k] in p
  {
    assert s[i..i + |p|][k] == s[i + k];
  }

  lemma NotFirst(s: string, p: string)
    requires |s| >= |p| ==> s[..|p|] != p
    ensures !At(s, p, 0)
  {
  }

  /** What was found behind the first character is found one further on. */
  lemma FoundLater(s: string, p: string, k: nat)
    requires s != [] && !At(s, p, 0) && At(s[1..], p, k) && forall i | i < k :: !At(s[1..], p, i)
    ensures At(s, p, k + 1) && forall i | i < k + 1 :: !At(s, p, i)
  {
    AtTail(s, p, k + 1);
    forall i | i < k + 1 ensures !At(s, p, i) {
      if 1 <= i { AtTail(s, p, i); }
    }
  }

  lemma NotFoundLater(s: string, p: string)
    requires s != [] && !At(s, p, 0) && !Contains(s[1..], p)
    ensures !Contains(s, p)
  {
    forall i ensures !At(s, p, i) {
      if 1 <= i { AtTail(s, p, i); }
    }
  }

  /** `strings.Index`: the first occurrence. */
  function Find(s: string, p: string): (r: Option<nat>)
    requires |p| > 0
    ensures r.Some? ==> At(s, p, r.value) && forall i | i < r.value :: !At(s, p, i)
    ensures r.None? ==> !Contains(s, p)
  {
    if |s| < |p| then None
    else if s[..|p|] == p then Some(0)
    else
      NotFirst(s, p);
      var r := Find(s[1..], p);
      if r.None? then NotFoundLater(s, p); None
      else FoundLater(s, p, r.value); Some(r.value + 1)
  }

  /** The first occurrence is unique, so it can be given by its two properties. */
  lemma FindIs(s: string, p: string, i: nat)
    requires |p| > 0 && At(s, p, i) && forall j | j < i :: !At(s, p, j)
    ensures Find(s, p) == Some(i)
  {
  }

  lemma FindNone(s: string, p: string)
    requires |p| > 0 && !Contains(s, p)
    ensures Find(s, p) == None
  {
  }

  /** Text appended behind a first occurrence does not move it. */
  lemma FindLeft(a: string, b: string, p: string)
    requires |p| > 0 && Find(a, p).Some?
    ensures Find(a + b, p) == Find(a, p)
  {
    var i := Find(a, p).value;
    AtLeft(a, b, p, i);
    forall j | j < i ensures !At(a + b, p, j) { AtLeft(a, b, p, j); }
    FindIs(a + b, p, i);
  }

  lemma ShiftIn(a: string, b: string, p: string, i: nat)
    requires |p| > 0 && Find(b, p) == Some(i)
    ensures Find(a + b, p).Some? && Find(a + b, p).value <= |a| + i
  {
    AtRight(a, b, p, |a| + i);
  }

  lemma ShiftOut(a: string, b: string, p: string, i: nat)
    requires |p| > 0 && (forall j | j < |a| :: !At(a + b, p, j)) && Find(a + b, p) == Some(i)
    ensures |a| <= i && Find(b, p).Some? && Find(b, p).value <= i - |a|
  {
    assert At(a + b, p, i);
    AtRight(a, b, p, i);
  }

  /** A part in which no occurrence begins can be skipped in the search. */
  lemma FindShift(a: string, b: string, p: string)
    requires |p| > 0 && forall i | i < |a| :: !At(a + b, p, i)
    ensures Find(a + b, p) == match Find(b, p) case None => None case Some(i) => Some(|a| + i)
  {
    hide Find, At;
    var whole, part := Find(a + b, p), Find(b, p);
    if part.Some? { ShiftIn(a, b, p, part.value); }
    if whole.Some? { ShiftOut(a, b, p, whole.value); }
  }

  /** No occurrence of a pattern without a newline crosses a newline, so a line without
      the pattern can be skipped. */
  lemma FindLine(a: string, b: string, p: string)
    requires '\n' !in p && |p| > 0 && !Contains(a, p)
    ensures Find(a + "\n" + b, p) == match Find(b, p) case None => None case Some(i) => Some(|a| + 1 + i)
  {
    hide Find, At, Contains;
    var s := a + "\n" + b;
    forall i | i < |a| + 1 ensures !At(s, p, i) { NotAcrossLine(a, b, p, i); }
    FindShift(a + "\n", b, p);
  }

  lemma NotAcrossLine(a: string, b: string, p: string, i: int)
    requires '\n' !in p && |p| > 0 && !Contains(a, p) && i <= |a|
    ensures !At(a + "\n" + b, p, i)
  {
    var s := a + "\n" + b;
    assert s == a + ("\n" + b);
    if i + |p| <= |a| {
      AtLeft(a, "\n" + b, p, i);
    } else if At(s, p, i) {
      AtChar(s, p, i, |a| - i);
    }
  }

  lemma FindAtFront(p: string, b: string)
    requires |p| > 0
    ensures Find(p + b, p) == Some(0)
  {
    assert At(p + b, p, 0);
    FindIs(p + b, p, 0);
  }

  /** A pattern that holds its first character only once cannot straddle a place where
      that character stands. */
  lemma FindSkip(a: string, b: string, p: string)
    requires |p| > 0 && p[0] !in p[1..] && !Contains(a, p) && b != "" && b[0] == p[0]
    ensures Find(a + b, p) == match Find(b, p) case None => None case Some(i) => Some(|a| + i)
  {
    hide Find, At, Contains;
    forall i | i < |a| ensures !At(a + b, p, i) { NotAcrossFirst(a, b, p, i); }
    FindShift(a, b, p);
  }

  lemma NotAcrossFirst(a: string, b: string, p: string, i: int)
    requires |p| > 0 && p[0] !in p[1..] && !Contains(a, p) && b != "" && b[0] == p[0] && i < |a|
    ensures !At(a + b, p, i)
  {
    if i + |p| <= |a| {
      AtLeft(a, b, p, i);
    } else if At(a + b, p, i) {
      var k := |a| - i;
      assert p[k] == p[1..][k - 1];
      AtChar(a + b, p, i, k);
    }
  }

  /** `strings.ReplaceAll(s, p, "")`. */
  function RemoveAll(s: string, p: string): string
    requires |p| > 0
    decreases |s|
  {
    match Find(s, p)
    case None => s
    case Some(i) => s[..i] + RemoveAll(s[i + |p|..], p)
  }

  lemma FindBlank(p: string, s: string)
    requires '\n' !in p && |p| > 0
    ensures Find("\n\n" + s, p) == match Find(s, p) case None => None case Some(i) => Some(i + 2)
  {
    assert !Contains("", p);
    FindLine("", s, p);
    FindLine("", "\n" + s, p);
    assert "" + "\n" + s == "\n" + s && "" + "\n" + ("\n" + s) == "\n\n" + s;
  }

  lemma FindBeforeBlank(p: string, s: string)
    requires '\n' !in p && |p| > 0 && Find(s, p).None?
    ensures Find(s + "\n\n", p) == None
  {
    assert !Contains("", p);
    FindNone("", p);
    FindLine("", "", p);
    FindLine(s, "\n", p);
    assert s + "\n" + "\n" == s + "\n\n" && "" + "\n" + "" == "\n";
  }

  lemma {:induction false} RemoveAllSuffix(s: string, p: string)
    requires '\n' !in p && |p| > 0
    ensures RemoveAll(s + "\n\n", p) == RemoveAll(s, p) + "\n\n"
    decreases |s|
  {
    hide Find;
    if Find(s, p).None? {
      FindBeforeBlank(p, s);
    } else {
      var i := Find(s, p).value;
      FindLeft(s, "\n\n", p);
      assert (s + "\n\n")[i + |p|..] == s[i + |p|..] + "\n\n" && (s + "\n\n")[..i] == s[..i];
      RemoveAllSuffix(s[i + |p|..], p);
    }
  }

  lemma RemoveAllStep(s: string, p: string)
    requires |p| > 0
    ensures RemoveAll(s, p) == match Find(s, p) case None => s case Some(i) => s[..i] + RemoveAll(s[i + |p|..], p)
  {
    hide Find;
  }

  lemma RemoveAllPrefix(s: string, p: string)
    requires '\n' !in p && |p| > 0
    ensures RemoveAll("\n\n" + s, p) == "\n\n" + RemoveAll(s, p)
  {
    hide Find, RemoveAll;
    FindBlank(p, s);
    RemoveAllStep("\n\n" + s, p);
    RemoveAllStep(s, p);
    if Find(s, p).Some? {
      var i := Find(s, p).value;
      assert ("\n\n" + s)[i + 2 + |p|..] == s[i + |p|..] && ("\n\n" + s)[..i + 2] == "\n\n" + s[..i];
    }
  }

  // ----- Splitting -----

  /** `strings.Split` at a character: one piece more than there are separators. */
  function Split(s: string, sep: char): (r: seq<string>)
    ensures r != []
  {
    if s == "" then [""]
    else if s[0] == sep then [""] + Split(s[1..], sep)
    else
      var r := Split(s[1..], sep);
      [[s[0]] + r[0]] + r[1..]
  }

  /** A piece without a separator, before one, is the first piece. */
  lemma {:induction false} SplitHead(piece: string, s: string, sep: char)
    requires sep !in piece
    ensures Split(piece + [sep] + s, sep) == [piece] + Split(s, sep)
    ensures Split(piece, sep) == [piece]
    decreases |piece|
  {
    var whole := piece + [sep] + s;
    if piece == "" {
      assert whole == [sep] + s && whole[1..] == s;
    } else {
      SplitHead(piece[1..], s, sep);
      assert whole[1..] == piece[1..] + [sep] + s;
      assert piece == [piece[0]] + piece[1..];
    }
  }

  // ----- Trimming -----

  /** `unicode.IsSpace`. */
  predicate IsSpace(c: char) {
    || c in "\t\n\U{0b}\U{0c}\r \U{85}\U{a0}\U{1680}\U{2028}\U{2029}\U{202f}\U{205f}\U{3000}"
    || '\U{2000}' <= c <= '\U{200a}'
  }

  function TrimLeft(s: string, drop: char -> bool): (r: string) {
    if s != [] && drop(s[0]) then TrimLeft(s[1..], drop) else s
  }

  function TrimRight(s: string, drop: char -> bool): (r: string) {
    if s != [] && drop(s[|s| - 1]) then TrimRight(s[..|s| - 1], drop) else s
  }

  function TrimSpace(s: string): string {
    TrimRight(TrimLeft(s, IsSpace), IsSpace)
  }

  predicate IsNewline(c: char) {
    c == '\n'
  }

  /** `strings.TrimPrefix(s, "\n")`. */
  function TrimOne(s: string): string {
    if s != [] && s[0] == '\n' then s[1..] else s
  }

  lemma {:induction false} TrimLeftSuffix(s: string, c: char, drop: char -> bool)
    requires drop(c)
    ensures TrimLeft(s + [c], drop) == if TrimLeft(s, drop) == [] then [] else TrimLeft(s, drop) + [c]
  {
    if s == [] {
      assert TrimLeft([c], drop) == TrimLeft([c][1..], drop);
    } else {
      assert (s + [c])[1..] == s[1..] + [c];
      if drop(s[0]) { TrimLeftSuffix(s[1..], c, drop); }
    }
  }

  lemma TrimSpaceOuter(s: string)
    ensures TrimSpace("\n" + s) == TrimSpace(s) == TrimSpace(s + "\n")
  {
    assert ("\n" + s)[1..] == s;
    TrimLeftSuffix(s, '\n', IsSpace);
    var t := TrimLeft(s, IsSpace);
    assert (t + "\n")[..|t|] == t;
  }

  /** `kept` is `s` without the newlines it ends in. */
  predicate LessTrailing(s: string, kept: string) {
    && kept <= s && (forall i | |kept| <= i < |s| :: s[i] == '\n')
    && (kept != "" ==> kept[|kept| - 1] != '\n')
  }

  /** `kept` is `s` without the newlines it begins with. */
  predicate LessLeading(s: string, kept: string) {
    && |kept| <= |s| && s[|s| - |kept|..] == kept && (forall i | 0 <= i < |s| - |kept| :: s[i] == '\n')
    && (kept != "" ==> kept[0] != '\n')
  }

  lemma {:induction false} TrimRightIs(s: string, kept: string)
    ensures LessTrailing(s, kept) <==> kept == TrimRight(s, IsNewline)
    decreases |s|
  {
    if s != "" && s[|s| - 1] == '\n' {
      TrimRightIs(s[..|s| - 1], kept);
      if LessTrailing(s, kept) {
        assert kept <= s[..|s| - 1];
      }
    }
  }

  lemma {:induction false} TrimLeftIs(s: string, kept: string)
    ensures LessLeading(s, kept) <==> kept == TrimLeft(s, IsNewline)
    decreases |s|
  {
    if s != "" && s[0] == '\n' {
      TrimLeftIs(s[1..], kept);
      if LessLeading(s, kept) {
        assert |kept| < |s| && s[1..][|s| - 1 - |kept|..] == kept;
      }
      if LessLeading(s[1..], kept) {
        assert s[|s| - |kept|..] == kept;
        forall i | 0 <= i < |s| - |kept| ensures s[i] == '\n' {
          if i > 0 { assert s[1..][i - 1] == s[i]; }
        }
      }
    }
  }

  predicate Blank(s: string) {
    forall c <- s :: IsSpace(c)
  }

  lemma {:induction false} TrimLeftBlank(s: string)
    ensures TrimLeft(s, IsSpace) == "" <==> Blank(s)
    ensures TrimLeft(s, IsSpace) != "" ==> !IsSpace(TrimLeft(s, IsSpace)[0])
  {
    if s != "" && IsSpace(s[0]) {
      TrimLeftBlank(s[1..]);
      assert s == [s[0]] + s[1..];
    }
  }

  lemma {:induction false} TrimRightBlank(s: string)
    ensures TrimRight(s, IsSpace) == "" <==> Blank(s)
  {
    if s != "" && IsSpace(s[|s| - 1]) {
      TrimRightBlank(s[..|s| - 1]);
      assert s == s[..|s| - 1] + [s[|s| - 1]];
    }
  }

  /** Nothing is left exactly of white space. */
  lemma TrimSpaceBlank(s: string)
    ensures TrimSpace(s) == "" <==> Blank(s)
  {
    hide TrimLeft, TrimRight, IsSpace;
    TrimLeftBlank(s);
    TrimRightBlank(TrimLeft(s, IsSpace));
  }

  function Newlines(k: nat): (r: string)
    ensures |r| == k && forall i | 0 <= i < k :: r[i] == '\n'
  {
    if k == 0 then "" else "\n" + Newlines(k - 1)
  }

  lemma {:induction false} TrimLeftNewlines(k: nat, s: string)
    ensures TrimLeft(Newlines(k) + s, IsNewline) == TrimLeft(s, IsNewline)
  {
    if k == 0 {
      assert Newlines(0) + s == s;
    } else {
      assert (Newlines(k) + s)[1..] == Newlines(k - 1) + s;
      TrimLeftNewlines(k - 1, s);
    }
  }
}
