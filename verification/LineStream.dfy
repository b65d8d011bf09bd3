/**
 Rewriting a byte stream line by line: the lines of a text, a rewriter with memory
 threaded through them, and why it does not matter how the bytes were cut.
 */
module LineStream {
  import opened Common
  import Text

  /** `bytes.IndexByte(s, '\n')`. */
  function IndexNewline(s: string): (r: Option<nat>)
    ensures r.Some? ==> r.value < |s| && s[r.value] == '\n' && forall j | 0 <= j < r.value :: s[j] != '\n'
    ensures r.None? ==> '\n' !in s
  {
    assert forall i :: Text.At(s, "\n", i) <==> 0 <= i < |s| && s[i] == '\n' by { NewlineAt(s); }
    Text.Find(s, "\n")
  }

  lemma NewlineAt(s: string)
    ensures forall i :: Text.At(s, "\n", i) <==> 0 <= i < |s| && s[i] == '\n'
  {
    forall i | 0 <= i < |s| ensures Text.At(s, "\n", i) <==> s[i] == '\n' {
      assert s[i..i + 1] == [s[i]];
    }
  }

  lemma IndexIs(s: string, i: nat)
    requires i < |s| && s[i] == '\n' && forall j | 0 <= j < i :: s[j] != '\n'
    ensures IndexNewline(s) == Some(i)
  {
  }

  /** The complete lines of a text, and the unfinished rest. */
  function Lines(s: string): (r: seq<string>)
    ensures forall l <- r :: '\n' !in l
    decreases |s|
  {
    match IndexNewline(s)
    case None => []
    case Some(i) => [s[..i]] + Lines(s[i + 1..])
  }

  function Rest(s: string): (r: string)
    ensures '\n' !in r
    decreases |s|
  {
    match IndexNewline(s)
    case None => s
    case Some(i) => Rest(s[i + 1..])
  }

  function Unlines(lines: seq<string>): string {
    if lines == [] then "" else lines[0] + "\n" + Unlines(lines[1..])
  }

  lemma {:induction false} UnlinesConcat(a: seq<string>, b: seq<string>)
    ensures Unlines(a + b) == Unlines(a) + Unlines(b)
  {
    if a == [] {
      assert a + b == b;
    } else {
      assert (a + b)[1..] == a[1..] + b;
      UnlinesConcat(a[1..], b);
    }
  }

  /** Lines and rest lose nothing. */
  lemma {:induction false} LinesComplete(s: string)
    ensures Unlines(Lines(s)) + Rest(s) == s
    decreases |s|
  {
    hide IndexNewline, Lines, Rest, Unlines;
    if IndexNewline(s).None? {
      NoLines(s);
      NoneUnlined();
    } else {
      var i := IndexNewline(s).value;
      var line, tail := s[..i], s[i + 1..];
      LinesComplete(tail);
      FirstLine(s, i);
      assert s == line + "\n" + tail;
      assert line + "\n" + Unlines(Lines(tail)) + Rest(tail) == line + "\n" + (Unlines(Lines(tail)) + Rest(tail));
    }
  }

  lemma NoneUnlined()
    ensures Unlines([]) == ""
  {
  }

  lemma FirstLine(s: string, i: nat)
    requires IndexNewline(s) == Some(i)
    ensures Unlines(Lines(s)) == s[..i] + "\n" + Unlines(Lines(s[i + 1..])) && Rest(s) == Rest(s[i + 1..])
  {
    hide IndexNewline;
    assert Lines(s)[1..] == Lines(s[i + 1..]);
  }

  /** Bytes behind a cut only extend the unfinished rest. */
  lemma {:induction false} CutAnywhere(a: string, b: string)
    ensures Lines(a + b) == Lines(a) + Lines(Rest(a) + b)
    ensures Rest(a + b) == Rest(Rest(a) + b)
    decreases |a|
  {
    hide IndexNewline, Lines, Rest;
    if IndexNewline(a).Some? {
      var i := IndexNewline(a).value;
      LinesCons(a, i);
      IndexLeft(a, b, i);
      assert (a + b)[..i] == a[..i] && (a + b)[i + 1..] == a[i + 1..] + b;
      LinesCons(a + b, i);
      CutAnywhere(a[i + 1..], b);
      assert [a[..i]] + (Lines(a[i + 1..]) + Lines(Rest(a) + b)) == [a[..i]] + Lines(a[i + 1..]) + Lines(Rest(a) + b);
    } else {
      NoLines(a);
      assert [] + Lines(a + b) == Lines(a + b);
    }
  }

  lemma LinesCons(s: string, i: nat)
    requires IndexNewline(s) == Some(i)
    ensures i < |s| && Lines(s) == [s[..i]] + Lines(s[i + 1..]) && Rest(s) == Rest(s[i + 1..])
  {
    hide IndexNewline;
  }

  lemma NoLines(s: string)
    requires IndexNewline(s) == None
    ensures Lines(s) == [] && Rest(s) == s
  {
    hide IndexNewline;
  }

  lemma IndexLeft(a: string, b: string, i: nat)
    requires IndexNewline(a) == Some(i)
    ensures IndexNewline(a + b) == Some(i)
  {
    IndexIs(a + b, i);
  }

  // ----- A rewriter with memory -----

  /** What the rewriter remembers after `lines`, and what it makes of them. */
  function After<M>(f: (M, string) -> (M, string), m: M, lines: seq<string>): M {
    if lines == [] then m else f(After(f, m, lines[..|lines| - 1]), lines[|lines| - 1]).0
  }

  function Rewrite<M>(f: (M, string) -> (M, string), m: M, lines: seq<string>): (r: seq<string>)
    ensures |r| == |lines|
  {
    if lines == [] then []
    else
      var before := lines[..|lines| - 1];
      Rewrite(f, m, before) + [f(After(f, m, before), lines[|lines| - 1]).1]
  }

  lemma {:induction false} RewriteConcat<M>(f: (M, string) -> (M, string), m: M, a: seq<string>, b: seq<string>)
    ensures After(f, m, a + b) == After(f, After(f, m, a), b)
    ensures Rewrite(f, m, a + b) == Rewrite(f, m, a) + Rewrite(f, After(f, m, a), b)
    decreases |b|
  {
    if b == [] {
      assert a + b == a;
    } else {
      var n := |b| - 1;
      assert (a + b)[..|a| + n] == a + b[..n];
      RewriteConcat(f, m, a, b[..n]);
    }
  }

  /** One more line: what is remembered and what is written after it. */
  lemma RewriteSnoc<M>(f: (M, string) -> (M, string), m: M, lines: seq<string>, line: string)
    ensures var (m', l) := f(After(f, m, lines), line);
      && After(f, m, lines + [line]) == m'
      && Unlines(Rewrite(f, m, lines + [line])) == Unlines(Rewrite(f, m, lines)) + l + "\n"
  {
    var l := f(After(f, m, lines), line).1;
    assert (lines + [line])[..|lines|] == lines;
    UnlinesConcat(Rewrite(f, m, lines), [l]);
    assert Unlines([l]) == l + "\n";
    assert Unlines(Rewrite(f, m, lines)) + (l + "\n") == Unlines(Rewrite(f, m, lines)) + l + "\n";
  }

  function CountNewlines(s: string): nat {
    if s == "" then 0 else (if s[0] == '\n' then 1 else 0) + CountNewlines(s[1..])
  }

  lemma {:induction false} NewlinesConcat(a: string, b: string)
    ensures CountNewlines(a + b) == CountNewlines(a) + CountNewlines(b)
  {
    if a == "" {
      assert a + b == b;
    } else {
      assert (a + b)[1..] == a[1..] + b;
      NewlinesConcat(a[1..], b);
    }
  }

  lemma {:induction false} NoNewlines(s: string)
    requires '\n' !in s
    ensures CountNewlines(s) == 0
  {
    if s != "" { NoNewlines(s[1..]); }
  }

  lemma {:induction false} NewlinesOfUnlines(lines: seq<string>)
    requires forall l <- lines :: '\n' !in l
    ensures CountNewlines(Unlines(lines)) == |lines|
  {
    if lines != [] {
      NewlinesOfUnlines(lines[1..]);
      NoNewlines(lines[0]);
      NewlinesConcat(lines[0] + "\n", Unlines(lines[1..]));
      NewlinesConcat(lines[0], "\n");
      assert CountNewlines("\n") == 1 + CountNewlines("\n"[1..]);
    }
  }
}
