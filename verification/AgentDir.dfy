/**
 Path containment: an agent's own directory must not overlap a directory it may use.

 A clean absolute path is its list of names.  The containment test itself runs on the
 relative path as a string, the way the code does it.
 */
module AgentDir {
  import opened Common
  import opened Paths

  type Segs = s: seq<string> | AllNames(s) witness []

  function Abs(p: Segs): string {
    [SLASH] + Join(p)
  }

  lemma AbsIsClean(p: Segs)
    ensures Clean(Abs(p)) == Abs(p) && IsAbs(Abs(p))
  {
    var s := Abs(p);
    assert s[1..] == Join(p);
    if p == [] {
      assert Split("") == [""];
    } else {
      SplitJoin(p);
    }
    var pieces := Split(s);
    assert pieces == [""] + Split(Join(p));
    AfterRoot(Split(Join(p)));
    if p == [] {
      assert PushAll([""], true) == Push(PushAll([""][..0], true), "", true);
    } else {
      PushAllNames(p, true);
    }
  }

  lemma {:induction false} AfterRoot(segs: seq<string>)
    ensures PushAll([""] + segs, true) == PushAll(segs, true)
    decreases |segs|
  {
    var all := [""] + segs;
    if segs == [] {
      assert all[..0] == [];
    } else {
      var m := |segs| - 1;
      AfterRoot(segs[..m]);
      assert all[..|all| - 1] == [""] + segs[..m];
    }
  }

  lemma CleanIsAbs(s: string) returns (p: Segs)
    requires Clean(s) == s && IsAbs(s)
    ensures s == Abs(p)
  {
    SplitPlain(s);
    var k := PushAllTidy(Split(s), true);
    p := PushAll(Split(s), true);
  }

  /** Clean absolute paths are exactly the lists of names. */
  lemma CleanAbsExactly(s: string)
    ensures Clean(s) == s && IsAbs(s) <==> exists p: Segs :: s == Abs(p)
  {
    if Clean(s) == s && IsAbs(s) {
      var p := CleanIsAbs(s);
    }
    if p: Segs :| s == Abs(p) {
      AbsIsClean(p);
    }
  }

  // ----- The relative path and the test on it -----

  function Shared(a: seq<string>, b: seq<string>): (n: nat)
    ensures n <= |a| && n <= |b| && a[..n] == b[..n]
    ensures n < |a| && n < |b| ==> a[n] != b[n]
  {
    if a == [] || b == [] || a[0] != b[0] then 0
    else
      var n := 1 + Shared(a[1..], b[1..]);
      assert a[..n] == [a[0]] + a[1..][..n - 1] && b[..n] == [b[0]] + b[1..][..n - 1];
      n
  }

  function Ups(n: nat): seq<string> {
    seq(n, _ => DOTDOT)
  }

  /** `filepath.Rel` on clean absolute paths. */
  function Rel(base: Segs, targ: Segs): string {
    if base == targ then DOT
    else
      var n := Shared(base, targ);
      Join(Ups(|base| - n) + targ[n..])
  }

  predicate Prefix(a: Segs, b: Segs) {
    a <= b
  }

  lemma NamesLeadDown(segs: Segs)
    requires segs != []
    ensures !LeadsUp(Join(segs))
  {
    hide LeadsUp, Join, Split;
    SplitJoin(segs);
    if LeadsUp(Join(segs)) { UpSplits(Join(segs)); }
  }

  /** The string test says exactly whether one list of names begins with the other; names
      such as "..x" do not confuse it. */
  lemma RelTest(base: Segs, targ: Segs)
    ensures !LeadsUp(Rel(base, targ)) <==> Prefix(base, targ)
  {
    if base != targ {
      var n := Shared(base, targ);
      if n == |base| {
        assert Ups(0) + targ[n..] == targ[n..];
        NamesLeadDown(targ[n..]);
      } else {
        UpJoins(Ups(|base| - n) + targ[n..]);
      }
    }
  }

  // ----- Symlinks -----

  /** The file system: where a path leads once every link is followed, if it exists. */
  type FileSystem = Segs -> Option<Segs>

  /** Resolution is idempotent and a path below a resolved one can be resolved from there. */
  ghost predicate Consistent(fs: FileSystem) {
    && (forall p | fs(p).Some? :: fs(fs(p).value) == fs(p))
    && (forall p: Segs, rest: Segs | fs(p).Some? :: fs(p + rest) == fs(fs(p).value + rest))
  }

  /** The first `n` names of `p` are its deepest ancestor that exists, or nothing of it does. */
  ghost predicate Deepest(fs: FileSystem, p: Segs, n: nat) {
    n <= |p| && (forall m | n < m <= |p| :: fs(p[..m]).None?) && (fs(p[..n]).None? ==> n == 0)
  }

  /** That ancestor resolved, with the rest put back; the path itself if nothing of it exists. */
  ghost predicate IsLoose(fs: FileSystem, p: Segs, r: Segs) {
    exists n: nat :: Deepest(fs, p, n) && r == LooseAt(fs, p, n)
  }

  ghost function LooseAt(fs: FileSystem, p: Segs, n: nat): Segs
    requires n <= |p|
  {
    if fs(p[..n]).Some? then fs(p[..n]).value + p[n..] else p
  }

  lemma DeepestIsUnique(fs: FileSystem, p: Segs, n: nat, m: nat)
    requires Deepest(fs, p, n) && Deepest(fs, p, m)
    ensures n == m
  {
  }

  /** The loop as a recursion: what it gives is `IsLoose`. */
  ghost function Loose(fs: FileSystem, p: Segs, rest: Segs): Segs
    decreases |p|
  {
    if fs(p).Some? then fs(p).value + rest
    else if p == [] then rest
    else Loose(fs, p[..|p| - 1], [p[|p| - 1]] + rest)
  }

  method ResolveLoose(fs: FileSystem, path: Segs) returns (r: Segs)
    ensures r == Loose(fs, path, []) && IsLoose(fs, path, r)
  {
    LooseIs(fs, path);
    var p, rest: Segs := path, [];
    while true
      invariant Loose(fs, p, rest) == Loose(fs, path, [])
      decreases |p|
    {
      var resolved := fs(p);
      if resolved.Some? {
        return resolved.value + rest;
      }
      if p == [] {
        return rest;
      }
      p, rest := p[..|p| - 1], [p[|p| - 1]] + rest;
    }
  }

  lemma {:induction false} LooseFrom(fs: FileSystem, path: Segs, n: nat) returns (k: nat)
    requires n <= |path| && forall m | n < m <= |path| :: fs(path[..m]).None?
    ensures Deepest(fs, path, k) && Loose(fs, path[..n], path[n..]) == LooseAt(fs, path, k)
    decreases n
  {
    var p, rest: Segs := path[..n], path[n..];
    if fs(p).Some? {
      k := n;
    } else if n == 0 {
      k := 0;
      assert rest == path;
    } else {
      assert p[..n - 1] == path[..n - 1] && [p[n - 1]] + rest == path[n - 1..];
      k := LooseFrom(fs, path, n - 1);
    }
  }

  lemma LooseIs(fs: FileSystem, p: Segs)
    ensures IsLoose(fs, p, Loose(fs, p, []))
  {
    assert p[..|p|] == p && p[|p|..] == [];
    var k := LooseFrom(fs, p, |p|);
  }

  // ----- A directory that does not exist yet -----

  /** Whether anything stands at a path, links not followed. */
  type Standing = Segs -> bool

  /** The root exists, and every directory above a resolved path is resolved. */
  ghost predicate Rooted(fs: FileSystem) {
    && fs([]) == Some([])
    && (forall p: Segs, k: nat | k <= |p| && fs(p) == Some(p) :: fs(p[..k]) == Some(p[..k]))
  }

  /** Somewhere along `p`, nothing stands in a resolved directory. */
  ghost predicate Missing(fs: FileSystem, there: Standing, p: Segs) {
    exists k: nat :: k < |p| && fs(p[..k]) == Some(p[..k]) && !there(p[..k + 1])
  }

  /** What may have happened since: whatever existed still leads where it led, what was made
      where nothing stood is no link, and what stood without leading anywhere, a dangling
      link, is still a link. */
  ghost predicate Grown(fs: FileSystem, there: Standing, later: FileSystem) {
    && (forall p | fs(p).Some? :: later(p) == fs(p))
    && (forall p | Missing(fs, there, p) :: later(p).None? || later(p) == Some(p))
    && (forall p | there(p) && fs(p).None? :: later(p) != Some(p))
  }

  /** A link that leads nowhere stands right below the deepest existing ancestor of `p`. */
  ghost predicate Dangles(fs: FileSystem, there: Standing, p: Segs) {
    exists n: nat :: Deepest(fs, p, n) && n < |p| && fs(p[..n]).Some? && there(fs(p[..n]).value + [p[n]])
  }

  lemma DanglesAt(fs: FileSystem, there: Standing, p: Segs, n: nat)
    requires Deepest(fs, p, n) && n < |p| && fs(p[..n]).Some?
    ensures Dangles(fs, there, p) <==> there(fs(p[..n]).value + [p[n]])
  {
    if k: nat :| Deepest(fs, p, k) && k < |p| && fs(p[..k]).Some? && there(fs(p[..k]).value + [p[k]]) {
      DeepestIsUnique(fs, p, n, k);
    }
  }

  /** The first name that is missing: it is under a resolved directory and leads nowhere. */
  lemma FirstMissing(fs: FileSystem, p: Segs, n: nat)
    requires Consistent(fs) && Deepest(fs, p, n) && n < |p| && fs(p[..n]).Some?
    ensures var v := fs(p[..n]).value;
            && fs(v) == Some(v) && fs(v + [p[n]]).None?
            && (v + p[n..])[..|v| + 1] == v + [p[n]] && (v + p[n..])[..|v|] == v
  {
    var v := fs(p[..n]).value;
    assert p[..n + 1] == p[..n] + [p[n]];
    assert fs(p[..n] + [p[n]]) == fs(v + [p[n]]);
  }

  /** Where `p` later leads is where its place of now leads. */
  lemma LaterFrom(fs: FileSystem, later: FileSystem, p: Segs, n: nat)
    requires Consistent(later) && Deepest(fs, p, n) && fs(p[..n]).Some? && later(p[..n]) == fs(p[..n])
    ensures Loose(fs, p, []) == fs(p[..n]).value + p[n..]
    ensures later(p) == later(Loose(fs, p, []))
  {
    LooseIs(fs, p);
    var k: nat :| Deepest(fs, p, k) && Loose(fs, p, []) == LooseAt(fs, p, k);
    DeepestIsUnique(fs, p, n, k);
    assert p == p[..n] + p[n..];
    assert later(p[..n] + p[n..]) == later(fs(p[..n]).value + p[n..]);
  }

  /** A directory that does not exist yet compares by where it would be, exactly unless a
      dangling link stands where its first missing name would go: only then is it found
      elsewhere once it exists. */
  lemma LooseLater(fs: FileSystem, there: Standing, later: FileSystem, p: Segs)
    requires Consistent(fs) && Rooted(fs) && Consistent(later) && Rooted(later)
    requires Grown(fs, there, later) && later(p).Some?
    ensures Loose(later, p, []) == Loose(fs, p, []) <==> !Dangles(fs, there, p)
  {
    hide Consistent, Rooted, Grown, Deepest, Dangles, Loose;
    var n := DeepestThere(fs, there, later, p);
    LaterFrom(fs, later, p, n);
    DeepestWhole(later, there, p);
    if n < |p| {
      DanglesAt(fs, there, p, n);
      LaterMissing(fs, there, later, p, n);
    } else {
      assert p[..n] == p;
      DeepestWhole(fs, there, p);
    }
  }

  lemma DeepestThere(fs: FileSystem, there: Standing, later: FileSystem, p: Segs) returns (n: nat)
    requires Rooted(fs) && Grown(fs, there, later)
    ensures Deepest(fs, p, n) && n <= |p| && fs(p[..n]).Some? && later(p[..n]) == fs(p[..n])
  {
    hide Missing;
    n := LooseFrom(fs, p, |p|);
    assert p[..0] == [];
  }

  lemma DeepestWhole(fs: FileSystem, there: Standing, p: Segs)
    requires fs(p).Some?
    ensures !Dangles(fs, there, p) && Loose(fs, p, []) == fs(p).value
  {
    assert p[..|p|] == p;
  }

  lemma LaterMissing(fs: FileSystem, there: Standing, later: FileSystem, p: Segs, n: nat)
    requires Consistent(fs) && Rooted(later) && Grown(fs, there, later)
    requires Deepest(fs, p, n) && n < |p| && fs(p[..n]).Some?
    ensures var v := fs(p[..n]).value;
            later(v + p[n..]).Some? ==> (later(v + p[n..]) == Some(v + p[n..]) <==> !there(v + [p[n]]))
  {
    hide Consistent;
    var v := fs(p[..n]).value;
    var l := v + p[n..];
    FirstMissing(fs, p, n);
    if !there(v + [p[n]]) {
      assert Missing(fs, there, l) by {
        assert fs(l[..|v|]) == Some(l[..|v|]) && !there(l[..|v| + 1]);
      }
    }
  }

  /** So a check that finds no such link stays right about directories made later. */
  lemma StaysApart(fs: FileSystem, there: Standing, later: FileSystem, a: Segs, b: Segs)
    requires Consistent(fs) && Rooted(fs) && Consistent(later) && Rooted(later)
    requires Grown(fs, there, later) && later(a).Some? && later(b).Some?
    requires !Dangles(fs, there, a) && !Dangles(fs, there, b)
    ensures Apart(Loose(later, a, []), Loose(later, b, [])) <==> Apart(Loose(fs, a, []), Loose(fs, b, []))
  {
    LooseLater(fs, there, later, a);
    LooseLater(fs, there, later, b);
  }

  // The root with one link "l" in it, and later with the "t" it leads to.

  function OnlyRoot(p: Segs): Option<Segs> {
    if p == [] then Some([]) else None
  }

  predicate RootAndLink(p: Segs) {
    p == [] || p == ["l"]
  }

  function LinkLtoT(p: Segs): Option<Segs> {
    if p != [] && p[0] == "l" then Some(["t"] + p[1..]) else Some(p)
  }

  lemma LinkIsConsistent()
    ensures Consistent(OnlyRoot) && Consistent(LinkLtoT)
  {
    forall rest: Segs ensures [] + rest == rest {}
    forall p: Segs, rest: Segs ensures LinkLtoT(p + rest) == LinkLtoT(LinkLtoT(p).value + rest) {
      if p != [] && p[0] == "l" {
        assert (p + rest)[1..] == p[1..] + rest;
        assert ["t"] + (p[1..] + rest) == ["t"] + p[1..] + rest;
      }
    }
  }

  lemma LinkIsRooted()
    ensures Rooted(OnlyRoot) && Rooted(LinkLtoT)
  {
    assert "t"[0] != "l"[0];
    forall p: Segs | p != [] && LinkLtoT(p) == Some(p) ensures p[0] != "l" {
      assert (["t"] + p[1..])[0] == "t";
    }
  }

  lemma LinkGrows()
    ensures Grown(OnlyRoot, RootAndLink, LinkLtoT)
  {
    assert "t"[0] != "l"[0];
    forall p | Missing(OnlyRoot, RootAndLink, p) ensures LinkLtoT(p) == Some(p) {
      var k: nat :| k < |p| && OnlyRoot(p[..k]) == Some(p[..k]) && !RootAndLink(p[..k + 1]);
      assert k == 0 && p[..1] == [p[0]];
    }
    assert LinkLtoT(["l"]) == Some(["t"]) && ["t"][0] != ["l"][0] by { assert ["t"] + ["l"][1..] == ["t"]; }
  }

  lemma MissingByName(name: string)
    requires Name(name)
    ensures Loose(OnlyRoot, [name], []) == [name]
  {
    var p: Segs := [name];
    assert p[..0] == [] && [name] + [] == p;
    assert Loose(OnlyRoot, p, []) == Loose(OnlyRoot, [], p);
  }

  lemma LinkFollowed()
    ensures Loose(LinkLtoT, ["t"], []) == ["t"] == Loose(LinkLtoT, ["l"], [])
  {
    assert ["t"][0] == "t" && "t"[0] != "l"[0];
    assert ["t"] + ["l"][1..] + [] == ["t"];
  }

  lemma Siblings(a: string, b: string)
    requires Name(a) && Name(b) && a != b
    ensures Apart([a], [b]) && !Apart([a], [a])
  {
    ApartIs([a], [b]);
    ApartIs([a], [a]);
    assert [a][0] == a && [b][0] == b;
  }

  /** Compared by its own name, a link to the agent's directory that dangles now is let
      through, and overlaps it once that directory is there. */
  lemma DanglingLinkSlips()
    ensures Consistent(OnlyRoot) && Rooted(OnlyRoot) && Consistent(LinkLtoT) && Rooted(LinkLtoT)
    ensures RootAndLink(["l"]) && OnlyRoot(["l"]) == None && Grown(OnlyRoot, RootAndLink, LinkLtoT)
    ensures Apart(Loose(OnlyRoot, ["t"], []), Loose(OnlyRoot, ["l"], []))
    ensures !Apart(Loose(LinkLtoT, ["t"], []), Loose(LinkLtoT, ["l"], []))
  {
    hide Consistent, Rooted, Grown, Apart, Loose;
    assert "t"[0] != "l"[0];
    LinkIsConsistent();
    LinkIsRooted();
    LinkGrows();
    MissingByName("t");
    MissingByName("l");
    LinkFollowed();
    Siblings("t", "l");
  }

  /** Where an already loosely resolved path leads: to itself, or nowhere. */
  lemma {:induction false} LooseFixed(fs: FileSystem, p: Segs, rest: Segs)
    requires Consistent(fs) && (rest != [] ==> fs(p + rest).None?)
    ensures var r := Loose(fs, p, rest); fs(r).None? || fs(r) == Some(r)
    decreases |p|
  {
    if fs(p).Some? {
      if rest == [] {
        assert fs(p).value + rest == fs(p).value;
      } else {
        assert fs(p + rest) == fs(fs(p).value + rest);
      }
    } else if p == [] {
      assert p + rest == rest;
    } else {
      var m := |p| - 1;
      var rest' := [p[m]] + rest;
      assert p[..m] + rest' == p + rest;
      assert rest == [] ==> p + rest == p;
      LooseFixed(fs, p[..m], rest');
    }
  }

  function Evaluated(fs: FileSystem, p: Segs): Segs {
    if fs(p).Some? then fs(p).value else p
  }

  method Within(fs: FileSystem, root: Segs, p: Segs) returns (b: bool)
    ensures b <==> Prefix(Evaluated(fs, root), p)
  {
    var base := root;
    var resolved := fs(root);
    if resolved.Some? {
      base := resolved.value;
    }
    RelTest(base, p);
    return !LeadsUp(Rel(base, p));
  }

  /** No path is below both. */
  ghost predicate Apart(a: Segs, b: Segs) {
    forall q: Segs :: !(Prefix(a, q) && Prefix(b, q))
  }

  lemma ApartIs(a: Segs, b: Segs)
    ensures Apart(a, b) <==> !Prefix(a, b) && !Prefix(b, a)
  {
    if Apart(a, b) {
      assert !(Prefix(a, a) && Prefix(b, a)) && !(Prefix(a, b) && Prefix(b, b));
    }
  }

  /** Accepted exactly when nothing can lie under the agent's directory and a granted one. */
  method CheckOwnDirectories(fs: FileSystem, agentDir: Segs, directories: seq<Segs>) returns (ok: bool)
    requires Consistent(fs)
    ensures ok <==> forall dir <- directories :: Apart(Loose(fs, agentDir, []), Loose(fs, dir, []))
  {
    hide Consistent, Apart, Prefix, Loose;
    var root := ResolveLoose(fs, agentDir);
    LooseFixed(fs, agentDir, []);
    for n := 0 to |directories|
      invariant forall k | 0 <= k < n :: Apart(root, Loose(fs, directories[k], []))
    {
      var d := ResolveLoose(fs, directories[n]);
      LooseFixed(fs, directories[n], []);
      ApartIs(root, d);
      var below := Within(fs, d, root);
      var above := Within(fs, root, d);
      if below || above {
        assert directories[n] in directories;
        return false;
      }
    }
    return true;
  }
}
