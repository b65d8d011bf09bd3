/**
 The canonical encoding of a packaged skill: the files of a folder, sorted by path, as one
 JSON record.  A record is modelled by its contents, with each path as JSON leaves it; how
 many bytes it takes is a parameter.
 */
module SkillTree {
  import opened Common
  import opened Paths
  import Sorting
  import Order
  import Text
  import Utf8

  // ----- Paths -----

  predicate CheckSkillPath(p: string) {
    !(p == "" || Clean(p) != p || IsAbs(p) || LeadsUp(p) || '\\' in p)
  }

  /** The check accepts exactly "." and the paths made of ordinary names, without backslashes. */
  lemma CheckSkillPathExactly(p: string)
    ensures CheckSkillPath(p) <==> '\\' !in p && (p == "." || AllNames(Split(p)))
  {
    if CheckSkillPath(p) {
      var k := CleanFixed(p);
      if p != "." {
        JoinSplit(p);
        if k > 0 {
          UpJoins(Split(p));
        }
      }
    }
    if AllNames(Split(p)) {
      JoinSplit(p);
      CleanNames(Split(p));
      HeadOf(Split(p));
      if LeadsUp(p) {
        UpSplits(p);
      }
    }
    DotIsClean();
  }

  lemma DotIsClean()
    ensures CheckSkillPath(".")
  {
    SplitHead(".", "");
    assert PushAll(["."], false) == Push([], ".", false);
  }

  // ----- Trees -----

  /** A nil slice and an empty one hold the same bytes but are written differently. */
  datatype Content = Nil | Slice(bytes: string)

  type Files = map<string, Content>

  datatype File = File(path: string, content: Content)

  datatype Record = Record(format: string, files: seq<File>)

  const FORMAT := "nanite-skill-tree/v1"
  const SKILL := "SKILL.md"
  const MAX_BYTES := 0x10_0000

  predicate Leq(a: File, b: File) {
    Order.Leq(a.path, b.path)
  }

  ghost predicate DistinctPaths(s: seq<File>) {
    forall i, j | 0 <= i < j < |s| :: s[i].path != s[j].path
  }

  /** `s` lists the files, in any order. */
  ghost predicate Lists(s: seq<File>, files: Files) {
    DistinctPaths(s) && forall f :: f in s <==> f.path in files && files[f.path] == f.content
  }

  /** What JSON makes of the listed paths. */
  function Written(s: seq<File>): seq<File> {
    seq(|s|, i requires 0 <= i < |s| => s[i].(path := Utf8.Repair(s[i].path)))
  }

  lemma AtMostOnce(s: seq<File>, f: File)
    requires DistinctPaths(s)
    ensures multiset(s)[f] == if f in s then 1 else 0
  {
    assert Distinct(s);
    Sorting.DistinctCount(s, f);
  }

  lemma NoTies(s: seq<File>)
    requires DistinctPaths(s)
    ensures Sorting.TotalPreorder(Leq) && Sorting.NoTies(s, Leq)
  {
    Order.LeqSorts();
    forall a, b | a in s && b in s && Leq(a, b) && Leq(b, a) ensures a == b {
      Order.LessTotal(a.path, b.path);
    }
  }

  /** Every listing of the same files sorts to the same sequence. */
  lemma OneOrder(s: seq<File>, t: seq<File>, files: Files)
    requires Lists(s, files) && Lists(t, files)
    ensures Sorting.Sort(s, Leq) == Sorting.Sort(t, Leq)
  {
    forall f ensures multiset(s)[f] == multiset(t)[f] {
      AtMostOnce(s, f);
      AtMostOnce(t, f);
    }
    assert multiset(s) == multiset(t);
    NoTies(s);
    Sorting.SortForgetsOrder(s, t, Leq);
  }

  lemma Twice(s: seq<File>, i: nat, j: nat)
    requires i < j < |s| && s[i] == s[j]
    ensures multiset(s)[s[i]] >= 2
  {
    assert s == s[..j] + s[j..];
    assert s[..j][i] == s[i] && s[j..][0] == s[i];
    assert multiset(s)[s[i]] == multiset(s[..j])[s[i]] + multiset(s[j..])[s[i]];
  }

  lemma DistinctByCount(s: seq<File>)
    requires forall f :: multiset(s)[f] <= 1
    requires forall f, g | f in s && g in s && f.path == g.path :: f == g
    ensures DistinctPaths(s)
  {
    forall i, j | 0 <= i < j < |s| ensures s[i].path != s[j].path {
      if s[i] == s[j] { Twice(s, i, j); }
    }
  }

  lemma SortLists(s: seq<File>, files: Files)
    requires Lists(s, files)
    ensures Lists(Sorting.Sort(s, Leq), files)
  {
    hide Leq;
    var t := Sorting.Sort(s, Leq);
    Sorting.SortKeeps(s, Leq);
    forall f ensures f in t <==> f in s { Sorting.SameMembers(s, t, f); }
    forall f ensures multiset(t)[f] <= 1 { AtMostOnce(s, f); }
    DistinctByCount(t);
  }

  // ----- Encoding -----

  predicate Refused(files: Files) {
    SKILL !in files || exists p | p in files :: !CheckSkillPath(p)
  }

  /** The record an encoding must give: a sorted listing, written out. */
  ghost predicate Encodes(r: Record, files: Files) {
    r.format == FORMAT && exists s :: Lists(s, files) && r.files == Written(Sorting.Sort(s, Leq))
  }

  /** `EncodeSkillTree`: the map is walked in any order, then the list is sorted. */
  method EncodeSkillTree(files: Files, size: Record -> nat) returns (r: Option<Record>)
    ensures r.Some? ==> !Refused(files) && Encodes(r.value, files) && size(r.value) <= MAX_BYTES
    ensures r.None? ==> Refused(files) || exists t :: Encodes(t, files) && size(t) > MAX_BYTES
  {
    hide CheckSkillPath, Written, Leq;
    var list: seq<File> := [];
    var left := files;
    while left != map[]
      invariant forall p | p in left :: p in files && left[p] == files[p]
      invariant forall p | p in files && p !in left :: CheckSkillPath(p)
      invariant DistinctPaths(list)
      invariant forall f :: f in list <==> f.path in files && f.path !in left && files[f.path] == f.content
      decreases |left|
    {
      var p :| p in left;
      if !CheckSkillPath(p) {
        return None;
      }
      list := list + [File(p, files[p])];
      left := left - {p};
    }
    if SKILL !in files {
      return None;
    }
    var record := Record(FORMAT, Written(Sorting.Sort(list, Leq)));
    assert Lists(list, files);
    if size(record) > MAX_BYTES {
      return None;
    }
    return Some(record);
  }

  /** One folder, one encoding. */
  lemma EncodingIsCanonical(r: Record, t: Record, files: Files)
    requires Encodes(r, files) && Encodes(t, files)
    ensures r == t
  {
    hide Written, Leq, Lists;
    var a :| Lists(a, files) && r.files == Written(Sorting.Sort(a, Leq));
    var b :| Lists(b, files) && t.files == Written(Sorting.Sort(b, Leq));
    OneOrder(a, b, files);
  }

  // ----- Decoding -----

  ghost predicate Decodable(r: Record) {
    && r.format == FORMAT && DistinctPaths(r.files)
    && (forall i | 0 <= i < |r.files| :: CheckSkillPath(r.files[i].path))
    && exists i :: 0 <= i < |r.files| && r.files[i].path == SKILL
  }

  method DecodeSkillTree(r: Record) returns (files: Option<Files>)
    ensures files.Some? <==> Decodable(r)
    ensures files.Some? ==> Lists(r.files, files.value)
  {
    hide CheckSkillPath;
    if r.format != FORMAT {
      return None;
    }
    var out: Files := map[];
    for n := 0 to |r.files|
      invariant forall i | 0 <= i < n :: CheckSkillPath(r.files[i].path)
      invariant Lists(r.files[..n], out)
    {
      var f := r.files[n];
      assert r.files[..n + 1] == r.files[..n] + [f];
      if !CheckSkillPath(f.path) {
        return None;
      }
      if f.path in out {
        Repeated(r.files, n, out);
        return None;
      }
      ListsSnoc(r.files[..n], f, out);
      out := out[f.path := f.content];
    }
    assert r.files[..|r.files|] == r.files;
    ListedPath(r.files, out, SKILL);
    if SKILL !in out {
      return None;
    }
    return Some(out);
  }

  lemma ListedPath(s: seq<File>, files: Files, p: string)
    requires Lists(s, files)
    ensures p in files <==> exists i :: 0 <= i < |s| && s[i].path == p
  {
    if p in files {
      assert File(p, files[p]) in s;
    }
    if i :| 0 <= i < |s| && s[i].path == p {
      assert s[i] in s;
    }
  }

  lemma Repeated(s: seq<File>, n: nat, out: Files)
    requires n < |s| && Lists(s[..n], out) && s[n].path in out
    ensures !DistinctPaths(s)
  {
    ListedPath(s[..n], out, s[n].path);
    var i :| 0 <= i < n && s[..n][i].path == s[n].path;
    assert s[i].path == s[n].path;
  }

  lemma ListsSnoc(s: seq<File>, f: File, out: Files)
    requires Lists(s, out) && f.path !in out
    ensures Lists(s + [f], out[f.path := f.content])
  {
    forall i | 0 <= i < |s| ensures s[i].path != f.path { assert s[i] in s; }
  }

  /** A listing fixes its files. */
  lemma ListsUnique(s: seq<File>, a: Files, b: Files)
    requires Lists(s, a) && Lists(s, b)
    ensures a == b
  {
    forall p | p in a ensures p in b && a[p] == b[p] { assert File(p, a[p]) in s; }
    forall p | p in b ensures p in a { assert File(p, b[p]) in s; }
  }

  // ----- Round trips -----

  lemma WrittenValid(s: seq<File>)
    ensures Written(s) == s <==> forall f <- s :: Utf8.Valid(f.path)
  {
    var w := Written(s);
    forall i | 0 <= i < |s| ensures w[i] == s[i] <==> Utf8.Valid(s[i].path) {
      Utf8.RepairFixes(s[i].path);
    }
    if w == s {
      forall f <- s ensures Utf8.Valid(f.path) {
        var i :| 0 <= i < |s| && s[i] == f;
        assert w[i] == s[i];
      }
    }
    if forall f <- s :: Utf8.Valid(f.path) {
      assert forall i | 0 <= i < |s| :: w[i] == s[i];
    }
  }

  lemma ValidComesBack(files: Files, t: seq<File>)
    requires !Refused(files) && Lists(t, files) && forall p | p in files :: Utf8.Valid(p)
    ensures Written(t) == t && Decodable(Record(FORMAT, t))
  {
    hide CheckSkillPath, Written, Leq;
    WrittenValid(t);
    ListedPath(t, files, SKILL);
    forall i | 0 <= i < |t| ensures CheckSkillPath(t[i].path) { assert t[i] in t; }
  }

  /** Decoding an encoding gives the folder back exactly when its paths are UTF-8. */
  lemma RoundTrip(files: Files, r: Record)
    requires !Refused(files) && Encodes(r, files)
    ensures Decodable(r) && Lists(r.files, files) <==> forall p | p in files :: Utf8.Valid(p)
  {
    hide CheckSkillPath, Written, Leq, Refused, Decodable, DistinctPaths;
    var s :| Lists(s, files) && r.files == Written(Sorting.Sort(s, Leq));
    var t := Sorting.Sort(s, Leq);
    SortLists(s, files);
    if forall p | p in files :: Utf8.Valid(p) {
      ValidComesBack(files, t);
    }
    if Lists(r.files, files) {
      forall p | p in files ensures Utf8.Valid(p) {
        assert File(p, files[p]) in r.files;
        WrittenPaths(t, File(p, files[p]));
      }
    }
  }

  lemma WrittenPaths(s: seq<File>, f: File)
    requires f in Written(s)
    ensures Utf8.Valid(f.path)
  {
    var i :| 0 <= i < |s| && Written(s)[i] == f;
    Utf8.RepairIsValid(s[i].path);
  }

  /** An encoding of UTF-8 paths lists the folder as it is. */
  lemma ValidIsListed(files: Files, r: Record)
    requires Encodes(r, files) && forall p | p in files :: Utf8.Valid(p)
    ensures Lists(r.files, files)
  {
    hide Written, Leq, DistinctPaths, Utf8.Valid;
    var s :| Lists(s, files) && r.files == Written(Sorting.Sort(s, Leq));
    SortLists(s, files);
    WrittenValid(Sorting.Sort(s, Leq));
  }

  /** UTF-8, and without the character JSON puts for what is not. */
  ghost predicate Unmistakable(p: string) {
    Utf8.Valid(p) && !Text.Contains(p, Utf8.REPLACEMENT)
  }

  /** Written paths without that character were UTF-8 before they were written. */
  lemma WrittenTells(s: seq<File>)
    requires forall f <- Written(s) :: Unmistakable(f.path)
    ensures Written(s) == s
  {
    forall f <- s ensures Utf8.Valid(f.path) {
      var i :| 0 <= i < |s| && s[i] == f;
      assert Written(s)[i] in Written(s);
      if !Utf8.Valid(f.path) { Utf8.RepairShows(f.path); }
    }
    WrittenValid(s);
  }

  lemma UnmistakableIsListed(a: Files, b: Files, r: Record)
    requires Encodes(r, a) && Encodes(r, b) && forall p | p in a :: Unmistakable(p)
    ensures Lists(r.files, a) && Lists(r.files, b)
  {
    hide Written, Leq, DistinctPaths, Utf8.Valid, Utf8.REPLACEMENT, Text.Contains;
    ValidIsListed(a, r);
    forall f <- r.files ensures Unmistakable(f.path) { assert f.path in a; }
    var s :| Lists(s, b) && r.files == Written(Sorting.Sort(s, Leq));
    SortLists(s, b);
    WrittenTells(Sorting.Sort(s, Leq));
  }

  /** An encoding fixes the folder among all folders of UTF-8 paths; and among all folders
      whatever, if the paths of one of them are UTF-8 and hold no U+FFFD. */
  lemma EncodingIsInjective(a: Files, b: Files, r: Record)
    requires Encodes(r, a) && Encodes(r, b)
    ensures (forall p | p in a || p in b :: Utf8.Valid(p)) ==> a == b
    ensures (forall p | p in a :: Unmistakable(p)) ==> a == b
  {
    hide Encodes, Lists, Utf8.Valid, Unmistakable;
    if forall p | p in a || p in b :: Utf8.Valid(p) {
      ValidIsListed(a, r);
      ValidIsListed(b, r);
      ListsUnique(r.files, a, b);
    }
    if forall p | p in a :: Unmistakable(p) {
      UnmistakableIsListed(a, b, r);
      ListsUnique(r.files, a, b);
    }
  }

  /** Re-encoding a decoded record sorts it and changes nothing else. */
  lemma ReencodingSorts(r: Record, files: Files)
    requires Decodable(r) && Lists(r.files, files) && forall f <- r.files :: Utf8.Valid(f.path)
    ensures !Refused(files) && Encodes(Record(FORMAT, Sorting.Sort(r.files, Leq)), files)
  {
    hide CheckSkillPath, Written, Leq;
    var t := Sorting.Sort(r.files, Leq);
    SortLists(r.files, files);
    forall f <- t ensures Utf8.Valid(f.path) { assert f in r.files; }
    WrittenValid(t);
    ListedPath(r.files, files, SKILL);
    forall p | p in files ensures CheckSkillPath(p) {
      assert File(p, files[p]) in r.files;
    }
  }

  // ----- What is not UTF-8 -----

  const JUNK_A: string := [0xFF as char]
  const JUNK_B: string := [0xFE as char]

  function Folder(junk: string, body: Content, extra: Content): Files {
    map[SKILL := body, junk := extra]
  }

  lemma JunkIsAName(junk: string)
    requires |junk| == 1 && junk[0] as int >= 0xF5
    ensures CheckSkillPath(junk)
  {
    hide CheckSkillPath;
    assert Name(junk);
    SplitHead(junk, "");
    CheckSkillPathExactly(junk);
  }

  lemma JunkIsReplaced(junk: string)
    requires |junk| == 1 && junk[0] as int >= 0xF5
    ensures Utf8.Repair(junk) == Utf8.REPLACEMENT
  {
    assert junk[1..] == "";
    assert Utf8.REPLACEMENT + "" == Utf8.REPLACEMENT;
  }

  lemma SkillIsAName()
    ensures CheckSkillPath(SKILL) && Utf8.Repair(SKILL) == SKILL
  {
    hide CheckSkillPath, Utf8.Repair, Utf8.Valid;
    assert Name(SKILL);
    SplitHead(SKILL, "");
    CheckSkillPathExactly(SKILL);
    AsciiIsValid(SKILL);
    Utf8.RepairValid(SKILL);
  }

  lemma {:induction false} AsciiIsValid(s: string)
    requires forall i | 0 <= i < |s| :: s[i] as int < 0x80
    ensures Utf8.Valid(s)
    decreases |s|
  {
    if s != "" { AsciiIsValid(s[1..]); }
  }

  lemma TwoSorted(a: File, b: File)
    requires Leq(a, b)
    ensures Sorting.Sort([a, b], Leq) == [a, b]
  {
    hide Leq;
    var s := [a, b];
    assert s[1..] == [b] && s[1..][1..] == [];
    assert Sorting.Sort(s[1..], Leq) == [b];
  }

  lemma TwoListed(a: File, b: File)
    requires a.path != b.path
    ensures Lists([a, b], map[a.path := a.content, b.path := b.content])
  {
    assert a in [a, b] && b in [a, b];
  }

  lemma SkillBefore(junk: string, body: Content, extra: Content)
    requires |junk| == 1 && junk[0] as int >= 0xF5
    ensures Leq(File(SKILL, body), File(junk, extra)) && SKILL != junk
  {
    assert SKILL[0] == 'S' && |SKILL| == 8;
  }

  lemma FolderEncodes(junk: string, body: Content, extra: Content)
    requires |junk| == 1 && junk[0] as int >= 0xF5
    ensures !Refused(Folder(junk, body, extra))
    ensures Encodes(Record(FORMAT, [File(SKILL, body), File(Utf8.REPLACEMENT, extra)]), Folder(junk, body, extra))
  {
    hide CheckSkillPath, Utf8.Repair, Utf8.REPLACEMENT, Leq, Lists, SKILL;
    JunkIsAName(junk);
    JunkIsReplaced(junk);
    SkillIsAName();
    SkillBefore(junk, body, extra);
    var s := [File(SKILL, body), File(junk, extra)];
    TwoSorted(s[0], s[1]);
    TwoListed(s[0], s[1]);
    assert Written(s) == [File(SKILL, body), File(Utf8.REPLACEMENT, extra)];
  }

  /** Outside UTF-8 two different folders share one encoding, and so one digest. */
  lemma JunkCollides(body: Content, extra: Content)
    ensures Folder(JUNK_A, body, extra) != Folder(JUNK_B, body, extra)
    ensures exists r :: Encodes(r, Folder(JUNK_A, body, extra)) && Encodes(r, Folder(JUNK_B, body, extra))
  {
    hide Encodes, Refused, Utf8.REPLACEMENT, FORMAT;
    FolderEncodes(JUNK_A, body, extra);
    FolderEncodes(JUNK_B, body, extra);
    assert JUNK_A in Folder(JUNK_A, body, extra);
    assert JUNK_A[0] != JUNK_B[0] && |JUNK_A| != |SKILL|;
  }

  // ----- Nil and empty -----

  function BytesOf(c: Content): string {
    if c.Nil? then "" else c.bytes
  }

  ghost predicate SameBytes(a: Files, b: Files) {
    a.Keys == b.Keys && forall p | p in a :: BytesOf(a[p]) == BytesOf(b[p])
  }

  function PathsIn(s: seq<File>): seq<string> {
    seq(|s|, i requires 0 <= i < |s| => s[i].path)
  }

  lemma PathsInAre(s: seq<File>, files: Files)
    requires Lists(s, files)
    ensures Distinct(PathsIn(s)) && forall p :: p in PathsIn(s) <==> p in files
  {
    forall p ensures p in PathsIn(s) <==> p in files {
      ListedPath(s, files, p);
      if i :| 0 <= i < |s| && s[i].path == p { assert PathsIn(s)[i] == p; }
    }
  }

  /** Folders with the same paths are listed in the same order. */
  lemma SameOrder(s: seq<File>, t: seq<File>, a: Files, b: Files)
    requires Lists(s, a) && Lists(t, b) && a.Keys == b.Keys && Sorting.Sorted(s, Leq) && Sorting.Sorted(t, Leq)
    ensures PathsIn(s) == PathsIn(t)
  {
    PathsInAre(s, a);
    PathsInAre(t, b);
    Sorting.DistinctSame(PathsIn(s), PathsIn(t));
    Order.LeqSorts();
    Sorting.SortedIsUnique(PathsIn(s), PathsIn(t), Order.Leq);
  }

  lemma WrittenContent(s: seq<File>, t: seq<File>, i: nat)
    requires Written(s) == Written(t) && i < |s|
    ensures i < |t| && s[i].content == t[i].content
  {
    hide Utf8.Repair;
    assert Written(s)[i].content == s[i].content;
    assert |Written(t)| == |t| && Written(t)[i].content == t[i].content;
  }

  lemma SameWritten(s: seq<File>, t: seq<File>, a: Files, b: Files)
    requires Lists(s, a) && Lists(t, b) && PathsIn(s) == PathsIn(t) && Written(s) == Written(t)
    ensures forall p | p in a :: p in b && a[p] == b[p]
  {
    hide Written;
    forall p | p in a ensures p in b && a[p] == b[p] {
      ListedPath(s, a, p);
      var i :| 0 <= i < |s| && s[i].path == p;
      WrittenContent(s, t, i);
      assert PathsIn(s)[i] == PathsIn(t)[i];
      assert s[i] in s && t[i] in t;
    }
  }

  lemma EncodedFrom(r: Record, files: Files) returns (s: seq<File>)
    requires Encodes(r, files)
    ensures Lists(s, files) && Sorting.Sorted(s, Leq) && r.files == Written(s)
  {
    hide Written, Leq, Lists, Sorting.Sorted;
    var u :| Lists(u, files) && r.files == Written(Sorting.Sort(u, Leq));
    s := Sorting.Sort(u, Leq);
    SortLists(u, files);
    LeqOrders();
    Sorting.SortKeeps(u, Leq);
  }

  /** `s` lists the files by rising path, byte by byte. */
  ghost predicate Rises(s: seq<File>) {
    forall i, j | 0 <= i < j < |s| :: Ahead(s[i], s[j])
  }

  ghost predicate Ahead(a: File, b: File) {
    exists k :: Order.FirstDiffer(a.path, b.path, k)
  }

  lemma RisesIsSorted(s: seq<File>)
    requires DistinctPaths(s)
    ensures Rises(s) <==> Sorting.Sorted(s, Leq)
  {
    hide Ahead, Leq;
    forall i, j | 0 <= i < j < |s| ensures Ahead(s[i], s[j]) <==> Leq(s[i], s[j]) {
      assert s[i].path != s[j].path;
      RisesAt(s[i], s[j]);
    }
  }

  lemma RisesAt(a: File, b: File)
    requires a.path != b.path
    ensures Ahead(a, b) <==> Leq(a, b)
  {
    Order.LessExactly(a.path, b.path);
    Order.LeqSorts();
    Order.LessTotal(a.path, b.path);
  }

  /** Record `r` holds the files of `s` in their order, each path as JSON leaves it and each
      content as it is. */
  ghost predicate Holds(r: Record, s: seq<File>) {
    && r.format == "nanite-skill-tree/v1" && |r.files| == |s|
    && forall i | 0 <= i < |s| :: r.files[i] == File(Utf8.Repair(s[i].path), s[i].content)
  }

  lemma HoldsIs(r: Record, s: seq<File>)
    ensures Holds(r, s) <==> r.format == FORMAT && r.files == Written(s)
  {
    hide Utf8.Repair;
    var w := Written(s);
    assert forall i | 0 <= i < |s| :: w[i] == File(Utf8.Repair(s[i].path), s[i].content);
  }

  /** What an encoding is: the folder's files, each once, by rising path. */
  lemma EncodesExactly(r: Record, files: Files)
    ensures Encodes(r, files) <==> exists s :: Lists(s, files) && Rises(s) && Holds(r, s)
  {
    hide Written, Leq, Lists, Sorting.Sorted, Rises, Holds, DistinctPaths, FORMAT;
    if Encodes(r, files) {
      var s := EncodedFrom(r, files);
      ListsDistinct(s, files);
      RisesIsSorted(s);
      HoldsIs(r, s);
    }
    if s :| Lists(s, files) && Rises(s) && Holds(r, s) {
      ListsDistinct(s, files);
      RisesIsSorted(s);
      HoldsIs(r, s);
      SortedAlready(s);
    }
  }

  lemma ListsDistinct(s: seq<File>, files: Files)
    requires Lists(s, files)
    ensures DistinctPaths(s)
  {
  }

  lemma SortedAlready(s: seq<File>)
    requires DistinctPaths(s) && Sorting.Sorted(s, Leq)
    ensures Sorting.Sort(s, Leq) == s
  {
    hide Leq, Sorting.Sorted;
    NoTies(s);
    Sorting.SortKeeps(s, Leq);
    Sorting.SortedIsUnique(s, Sorting.Sort(s, Leq), Leq);
  }

  /** Among folders with the same paths, whatever those are made of, an encoding fixes the folder. */
  lemma SamePathsInjective(a: Files, b: Files, r: Record)
    requires a.Keys == b.Keys && Encodes(r, a) && Encodes(r, b)
    ensures a == b
  {
    hide Encodes, Written, Leq, Lists, Sorting.Sorted, PathsIn;
    var s := EncodedFrom(r, a);
    var t := EncodedFrom(r, b);
    SameOrder(s, t, a, b);
    SameWritten(s, t, a, b);
  }

  /** Two folders that hold the same bytes have one encoding exactly when the same files are
      nil in both. */
  lemma NilIsNotEmpty(a: Files, b: Files, r: Record, t: Record)
    requires SameBytes(a, b) && Encodes(r, a) && Encodes(t, b)
    ensures r == t <==> forall p | p in a :: a[p].Nil? <==> b[p].Nil?
  {
    hide Encodes;
    if r == t {
      SamePathsInjective(a, b, r);
    }
    if forall p | p in a :: a[p].Nil? <==> b[p].Nil? {
      assert a == b;
      EncodingIsCanonical(r, t, a);
    }
  }

  lemma LeqOrders()
    ensures Sorting.TotalPreorder(Leq)
  {
    NoTies([]);
  }
}
