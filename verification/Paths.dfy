/**
 Slash-separated paths: splitting, joining, and the lexical clean-up of Go's `path.Clean`.
 A path is a string of bytes.
 */
module Paths {
  import Text

  const SLASH := '/'
  const DOT := "."
  const DOTDOT := ".."

  predicate Plain(seg: string) {
    SLASH !in seg
  }

  /** An ordinary name: something that clean-up leaves alone. */
  predicate Name(seg: string) {
    Plain(seg) && seg != "" && seg != DOT && seg != DOTDOT
  }

  ghost predicate AllPlain(segs: seq<string>) {
    forall i | 0 <= i < |segs| :: Plain(segs[i])
  }

  ghost predicate AllNames(segs: seq<string>) {
    forall i | 0 <= i < |segs| :: Name(segs[i])
  }

  function Split(s: string): (r: seq<string>)
    ensures r != []
  {
    Text.Split(s, SLASH)
  }

  function Join(segs: seq<string>): string {
    if segs == [] then ""
    else if |segs| == 1 then segs[0]
    else segs[0] + [SLASH] + Join(segs[1..])
  }

  lemma {:induction false} SplitPlain(s: string)
    ensures AllPlain(Split(s))
    decreases |s|
  {
    if s != "" { SplitPlain(s[1..]); }
  }

  lemma {:induction false} JoinSplit(s: string)
    ensures Join(Split(s)) == s
    decreases |s|
  {
    if s != "" {
      JoinSplit(s[1..]);
      var r := Split(s[1..]);
      if s[0] == SLASH {
        assert ([""] + r)[1..] == r;
      } else {
        var q := [[s[0]] + r[0]] + r[1..];
        assert q[1..] == r[1..];
      }
      assert s == [s[0]] + s[1..];
    }
  }

  lemma SplitHead(seg: string, s: string)
    requires Plain(seg)
    ensures Split(seg + [SLASH] + s) == [seg] + Split(s)
    ensures Split(seg) == [seg]
  {
    Text.SplitHead(seg, s, SLASH);
  }

  lemma {:induction false} SplitJoin(segs: seq<string>)
    requires segs != [] && AllPlain(segs)
    ensures Split(Join(segs)) == segs
    decreases |segs|
  {
    if |segs| == 1 {
      SplitHead(segs[0], "");
    } else {
      SplitJoin(segs[1..]);
      SplitHead(segs[0], Join(segs[1..]));
      assert segs == [segs[0]] + segs[1..];
    }
  }

  /** Leaving upwards, as a test on the string: ".." or something that begins with "../". */
  predicate LeadsUp(p: string) {
    p == DOTDOT || (|p| >= 3 && p[..3] == "../")
  }

  lemma UpSplits(p: string)
    requires LeadsUp(p)
    ensures Split(p)[0] == DOTDOT
  {
    hide Split;
    if p == ".." {
      SplitHead("..", "");
    } else {
      assert p == ".." + [SLASH] + p[3..];
      SplitHead("..", p[3..]);
    }
  }

  lemma UpJoins(segs: seq<string>)
    requires segs != [] && segs[0] == DOTDOT
    ensures LeadsUp(Join(segs))
  {
    if |segs| > 1 {
      assert Join(segs) == ".." + [SLASH] + Join(segs[1..]);
    }
  }

  // ----- Clean-up -----

  /** One segment read: nothing and "." vanish, ".." takes back a name if there is one, and
      at the root has nowhere to go. */
  function Push(out: seq<string>, seg: string, rooted: bool): seq<string> {
    if seg == "" || seg == DOT then out
    else if seg != DOTDOT then out + [seg]
    else if out != [] && out[|out| - 1] != DOTDOT then out[..|out| - 1]
    else if rooted then out
    else out + [seg]
  }

  function PushAll(segs: seq<string>, rooted: bool): seq<string> {
    if segs == [] then []
    else Push(PushAll(segs[..|segs| - 1], rooted), segs[|segs| - 1], rooted)
  }

  predicate IsAbs(p: string) {
    p != "" && p[0] == SLASH
  }

  function Clean(p: string): string {
    var out := PushAll(Split(p), IsAbs(p));
    if IsAbs(p) then [SLASH] + Join(out)
    else if out == [] then DOT
    else Join(out)
  }

  /** Some ".." at the front, then names only. */
  ghost predicate Tidy(out: seq<string>, k: nat) {
    k <= |out| && (forall i | 0 <= i < k :: out[i] == DOTDOT) && forall i | k <= i < |out| :: Name(out[i])
  }

  lemma {:induction false} PushAllTidy(segs: seq<string>, rooted: bool) returns (k: nat)
    requires AllPlain(segs)
    ensures Tidy(PushAll(segs, rooted), k) && (rooted ==> k == 0)
    decreases |segs|
  {
    if segs == [] {
      k := 0;
    } else {
      var m := |segs| - 1;
      k := PushAllTidy(segs[..m], rooted);
      var out := PushAll(segs[..m], rooted);
      if segs[m] == DOTDOT && k == |out| && !rooted { k := k + 1; }
    }
  }

  lemma {:induction false} PushAllNames(segs: seq<string>, rooted: bool)
    requires AllNames(segs)
    ensures PushAll(segs, rooted) == segs
    decreases |segs|
  {
    if segs != [] {
      var m := |segs| - 1;
      PushAllNames(segs[..m], rooted);
      assert segs == segs[..m] + [segs[m]];
    }
  }

  /** Clean-up leaves a relative path of names alone. */
  lemma CleanNames(segs: seq<string>)
    requires segs != [] && AllNames(segs)
    ensures Clean(Join(segs)) == Join(segs) && !IsAbs(Join(segs))
  {
    SplitJoin(segs);
    PushAllNames(segs, false);
    HeadOf(segs);
  }

  lemma HeadOf(segs: seq<string>)
    requires segs != [] && segs[0] != ""
    ensures Join(segs) != "" && Join(segs)[0] == segs[0][0]
  {
  }

  /** A relative path clean-up leaves alone is "." or some ".." and then names. */
  lemma CleanFixed(p: string) returns (k: nat)
    requires Clean(p) == p && !IsAbs(p)
    ensures p == DOT || Tidy(Split(p), k)
  {
    SplitPlain(p);
    k := PushAllTidy(Split(p), false);
    var out := PushAll(Split(p), false);
    if out != [] {
      SplitJoin(out);
    }
  }
}
