/**
 The copy `Flatten` works on: every pointer, list and map of the input is severed, so the
 result shares no memory with it and later updates cannot reach it.

 Values live in cells; `Keyed` is a map whose keys are not strings.  A cell may be reached
 along several paths, but not from itself: the input has been marshalled before, which refuses
 cycles.  `Ranks` is the witness of that.
 */
module OwnedCopy {
  import opened Common

  datatype Node =
    | Nil
    | Leaf(text: string)
    | Pointer(target: Cell)
    | List(items: seq<Cell>)
    | Dict(entries: map<string, Cell>)
    | Keyed(values: map<int, Cell>)
    | Unexported

  class Cell {
    var node: Node

    constructor (node: Node)
      ensures this.node == node
    {
      this.node := node;
    }
  }

  ghost function Children(n: Node): set<Cell> {
    match n
    case Pointer(c) => {c}
    case List(items) => set c <- items
    case Dict(entries) => entries.Values
    case Keyed(values) => values.Values
    case _ => {}
  }

  type Ranks = map<Cell, nat>

  /** The cells are closed under following references, and references go down. */
  ghost predicate Closed(ranks: Ranks)
    reads ranks.Keys
  {
    forall c, d | c in ranks && d in Children(c.node) :: d in ranks && ranks[d] < ranks[c]
  }

  datatype Tree =
    | TNil
    | TLeaf(text: string)
    | TPointer(target: Tree)
    | TList(items: seq<Tree>)
    | TDict(entries: map<string, Tree>)
    | TKeyed(values: map<int, Tree>)
    | TUnexported

  /** The value a cell stands for, whatever cells it is made of. */
  ghost function Value(c: Cell, ranks: Ranks): Tree
    requires Closed(ranks) && c in ranks
    reads ranks.Keys
    decreases 2 * ranks[c] + 1, 0
  {
    match c.node
    case Nil => TNil
    case Leaf(text) => TLeaf(text)
    case Pointer(d) => TPointer(Value(d, ranks))
    case List(items) => TList(Values(items, ranks, ranks[c]))
    case Dict(entries) => TDict(map k | k in entries :: Value(entries[k], ranks))
    case Keyed(values) => TKeyed(map k | k in values :: Value(values[k], ranks))
    case Unexported => TUnexported
  }

  ghost function Values(items: seq<Cell>, ranks: Ranks, below: nat): (r: seq<Tree>)
    requires Closed(ranks) && forall i | 0 <= i < |items| :: items[i] in ranks && ranks[items[i]] < below
    reads ranks.Keys
    ensures |r| == |items|
    decreases 2 * below, |items|
  {
    if items == [] then []
    else
      var m := |items| - 1;
      Values(items[..m], ranks, below) + [Value(items[m], ranks)]
  }

  /** A value can be copied when nothing in it is unexported and no map with other keys than
      strings holds anything. */
  predicate Copyable(t: Tree) {
    match t
    case TPointer(d) => Copyable(d)
    case TList(items) => forall i | 0 <= i < |items| :: Copyable(items[i])
    case TDict(entries) => forall k | k in entries :: Copyable(entries[k])
    case TKeyed(values) => values == map[]
    case TUnexported => false
    case _ => true
  }

  /** `u` is the value itself or stands somewhere in it. */
  ghost predicate Within(u: Tree, t: Tree) {
    || u == t
    || match t
       case TPointer(d) => Within(u, d)
       case TList(items) => exists i :: 0 <= i < |items| && Within(u, items[i])
       case TDict(entries) => exists k :: k in entries && Within(u, entries[k])
       case TKeyed(values) => exists k :: k in values && Within(u, values[k])
       case _ => false
  }

  /** What cannot be copied: an unexported field, a map with other keys that holds something. */
  predicate Blocks(u: Tree) {
    u == TUnexported || (u.TKeyed? && u.values != map[])
  }

  lemma {:induction false} BlockedInside(t: Tree, u: Tree)
    requires Within(u, t) && Blocks(u)
    ensures !Copyable(t)
  {
    if u != t {
      match t
      case TPointer(d) => BlockedInside(d, u);
      case TList(items) =>
        var i :| 0 <= i < |items| && Within(u, items[i]);
        BlockedInside(items[i], u);
      case TDict(entries) =>
        var k :| k in entries && Within(u, entries[k]);
        BlockedInside(entries[k], u);
      case TKeyed(values) =>
    }
  }

  lemma {:induction false} SomethingBlocks(t: Tree) returns (u: Tree)
    requires !Copyable(t)
    ensures Within(u, t) && Blocks(u)
  {
    match t
    case TPointer(d) => u := SomethingBlocks(d);
    case TList(items) =>
      var i :| 0 <= i < |items| && !Copyable(items[i]);
      u := SomethingBlocks(items[i]);
    case TDict(entries) =>
      var k :| k in entries && !Copyable(entries[k]);
      u := SomethingBlocks(entries[k]);
    case _ => u := t;
  }

  /** A value is refused exactly for what stands in it. */
  lemma CopyableExactly(t: Tree)
    ensures Copyable(t) <==> forall u | Within(u, t) :: !Blocks(u)
  {
    hide Copyable, Within;
    if !Copyable(t) {
      var u := SomethingBlocks(t);
    } else {
      forall u | Within(u, t) ensures !Blocks(u) {
        if Blocks(u) { BlockedInside(t, u); }
      }
    }
  }

  /** `small` is a part of `big`. */
  ghost predicate PartOf(small: Ranks, big: Ranks) {
    forall c | c in small :: c in big && big[c] == small[c]
  }

  /** A value does not depend on the cells around it. */
  lemma {:induction false} ValuePart(c: Cell, small: Ranks, big: Ranks)
    requires Closed(small) && Closed(big) && PartOf(small, big) && c in small
    ensures Value(c, small) == Value(c, big)
    decreases 2 * small[c] + 1, 0
  {
    match c.node
    case Pointer(d) => ValuePart(d, small, big);
    case List(items) => ValuesPart(items, small, big, small[c]);
    case Dict(entries) =>
      forall k | k in entries ensures Value(entries[k], small) == Value(entries[k], big) {
        ValuePart(entries[k], small, big);
      }
    case Keyed(values) =>
      forall k | k in values ensures Value(values[k], small) == Value(values[k], big) {
        ValuePart(values[k], small, big);
      }
    case _ =>
  }

  lemma {:induction false} ValuesPart(items: seq<Cell>, small: Ranks, big: Ranks, below: nat)
    requires Closed(small) && Closed(big) && PartOf(small, big)
    requires forall i | 0 <= i < |items| :: items[i] in small && small[items[i]] < below
    ensures Values(items, small, below) == Values(items, big, below)
    decreases 2 * below, |items|
  {
    if items != [] {
      var m := |items| - 1;
      ValuesPart(items[..m], small, big, below);
      ValuePart(items[m], small, big);
    }
  }

  /** Two separate closed parts are closed together. */
  lemma Together(a: Ranks, b: Ranks)
    requires Closed(a) && Closed(b) && a.Keys !! b.Keys
    ensures Closed(a + b) && PartOf(a, a + b) && PartOf(b, a + b)
  {
  }

  // ----- The copy -----

  /** The new root on top of the copied parts. */
  ghost function Grow(p: Cell, parts: Ranks, rank: nat): Ranks {
    parts[p := rank]
  }

  lemma Root(p: Cell, parts: Ranks, rank: nat)
    requires Closed(parts) && p !in parts && Children(p.node) <= parts.Keys && forall x | x in parts :: parts[x] < rank
    ensures Closed(Grow(p, parts, rank)) && PartOf(parts, Grow(p, parts, rank))
  {
  }

  lemma RootPointer(p: Cell, parts: Ranks, rank: nat)
    requires Closed(parts) && p !in parts && p.node.Pointer? && p.node.target in parts
        && forall x | x in parts :: parts[x] < rank
    ensures Closed(Grow(p, parts, rank)) && Value(p, Grow(p, parts, rank)) == TPointer(Value(p.node.target, parts))
  {
    Root(p, parts, rank);
    ValuePart(p.node.target, parts, Grow(p, parts, rank));
  }

  lemma RootList(p: Cell, parts: Ranks, rank: nat)
    requires Closed(parts) && p !in parts && p.node.List? && forall x | x in parts :: parts[x] < rank
    requires forall i | 0 <= i < |p.node.items| :: p.node.items[i] in parts
    ensures Closed(Grow(p, parts, rank)) && Value(p, Grow(p, parts, rank)) == TList(Values(p.node.items, parts, rank))
  {
    Root(p, parts, rank);
    ValuesPart(p.node.items, parts, Grow(p, parts, rank), rank);
  }

  lemma RootDict(p: Cell, parts: Ranks, rank: nat)
    requires Closed(parts) && p !in parts && p.node.Dict? && forall x | x in parts :: parts[x] < rank
    requires forall k | k in p.node.entries :: p.node.entries[k] in parts
    ensures Closed(Grow(p, parts, rank))
    ensures Value(p, Grow(p, parts, rank)) == TDict(map k | k in p.node.entries :: Value(p.node.entries[k], parts))
  {
    Root(p, parts, rank);
    forall k | k in p.node.entries
      ensures Value(p.node.entries[k], parts) == Value(p.node.entries[k], Grow(p, parts, rank))
    {
      ValuePart(p.node.entries[k], parts, Grow(p, parts, rank));
    }
  }

  lemma {:induction false} ValuesAt(items: seq<Cell>, ranks: Ranks, below: nat, i: nat)
    requires Closed(ranks) && (forall i | 0 <= i < |items| :: items[i] in ranks && ranks[items[i]] < below)
    requires i < |items|
    ensures Values(items, ranks, below)[i] == Value(items[i], ranks)
    decreases |items|
  {
    if i < |items| - 1 { ValuesAt(items[..|items| - 1], ranks, below, i); }
  }

  /** `copyOwned`: new cells only, standing for the same value. */
  method Copy(c: Cell, ghost ranks: Ranks) returns (r: Option<Cell>, ghost mine: Ranks)
    requires Closed(ranks) && c in ranks
    ensures r.Some? <==> Copyable(Value(c, ranks))
    ensures Closed(mine) && fresh(mine.Keys) && forall x | x in mine :: mine[x] <= ranks[c]
    ensures r.Some? ==> r.value in mine && Value(r.value, mine) == Value(c, ranks)
    decreases 2 * ranks[c] + 1, 0
  {
    match c.node
    case Unexported =>
      r, mine := None, map[];
    case Pointer(_) => r, mine := CopyPointer(c, ranks);
    case List(_) => r, mine := CopyListCell(c, ranks);
    case Dict(_) => r, mine := CopyDictCell(c, ranks);
    case Keyed(values) =>
      KeyedIs(c, ranks);
      if values != map[] {
        return None, map[];
      }
      var p := new Cell(Keyed(map[]));
      r, mine := Some(p), map[p := ranks[c]];
      KeyedIs(p, mine);
    case _ =>
      var p := new Cell(c.node);
      r, mine := Some(p), map[p := ranks[c]];
  }

  lemma KeyedIs(c: Cell, ranks: Ranks)
    requires Closed(ranks) && c in ranks && c.node.Keyed?
    ensures Value(c, ranks).TKeyed? && Value(c, ranks).values.Keys == c.node.values.Keys
    ensures Copyable(Value(c, ranks)) <==> c.node.values == map[]
    ensures c.node.values == map[] ==> Value(c, ranks) == TKeyed(map[])
  {
    var t := Value(c, ranks);
    assert c.node.values == map[] <==> c.node.values.Keys == {};
    assert t.values == map[] <==> t.values.Keys == {};
  }

  method CopyPointer(c: Cell, ghost ranks: Ranks) returns (r: Option<Cell>, ghost mine: Ranks)
    requires Closed(ranks) && c in ranks && c.node.Pointer?
    ensures r.Some? <==> Copyable(Value(c, ranks))
    ensures Closed(mine) && fresh(mine.Keys) && forall x | x in mine :: mine[x] <= ranks[c]
    ensures r.Some? ==> r.value in mine && Value(r.value, mine) == Value(c, ranks)
    decreases 2 * ranks[c], 1
  {
    var child;
    child, mine := Copy(c.node.target, ranks);
    if child.None? {
      return None, mine;
    }
    var p := new Cell(Pointer(child.value));
    r := Some(p);
    RootPointer(p, mine, ranks[c]);
    mine := Grow(p, mine, ranks[c]);
  }

  method CopyListCell(c: Cell, ghost ranks: Ranks) returns (r: Option<Cell>, ghost mine: Ranks)
    requires Closed(ranks) && c in ranks && c.node.List?
    ensures r.Some? <==> Copyable(Value(c, ranks))
    ensures Closed(mine) && fresh(mine.Keys) && forall x | x in mine :: mine[x] <= ranks[c]
    ensures r.Some? ==> r.value in mine && Value(r.value, mine) == Value(c, ranks)
    decreases 2 * ranks[c], |c.node.items| + 1
  {
    var items := c.node.items;
    forall i | 0 <= i < |items| ensures items[i] in ranks && ranks[items[i]] < ranks[c] {
      assert items[i] in Children(c.node);
    }
    forall i | 0 <= i < |items| ensures Values(items, ranks, ranks[c])[i] == Value(items[i], ranks) {
      ValuesAt(items, ranks, ranks[c], i);
    }
    var copies;
    copies, mine := CopyList(items, ranks, ranks[c]);
    if copies.None? {
      return None, mine;
    }
    var p := new Cell(List(copies.value));
    r := Some(p);
    RootList(p, mine, ranks[c]);
    mine := Grow(p, mine, ranks[c]);
  }

  lemma DictValue(c: Cell, ranks: Ranks)
    requires Closed(ranks) && c in ranks && c.node.Dict?
    ensures forall k | k in c.node.entries :: c.node.entries[k] in ranks && ranks[c.node.entries[k]] < ranks[c]
    ensures Value(c, ranks) == TDict(map k | k in c.node.entries :: Value(c.node.entries[k], ranks))
  {
    hide Copyable, Values;
    assert forall k | k in c.node.entries :: c.node.entries[k] in Children(c.node);
  }

  lemma DictCopyable(t: Tree)
    requires t.TDict?
    ensures Copyable(t) <==> forall k | k in t.entries :: Copyable(t.entries[k])
  {
  }

  lemma DictIs(c: Cell, ranks: Ranks)
    requires Closed(ranks) && c in ranks && c.node.Dict?
    ensures forall k | k in c.node.entries :: c.node.entries[k] in ranks && ranks[c.node.entries[k]] < ranks[c]
    ensures Value(c, ranks) == TDict(map k | k in c.node.entries :: Value(c.node.entries[k], ranks))
    ensures Copyable(Value(c, ranks)) <==> forall k | k in c.node.entries :: Copyable(Value(c.node.entries[k], ranks))
  {
    hide Copyable, Value, Closed;
    DictValue(c, ranks);
    var t := Value(c, ranks);
    DictCopyable(t);
    assert forall k | k in c.node.entries :: t.entries[k] == Value(c.node.entries[k], ranks);
  }

  method CopyDictCell(c: Cell, ghost ranks: Ranks) returns (r: Option<Cell>, ghost mine: Ranks)
    requires Closed(ranks) && c in ranks && c.node.Dict?
    ensures r.Some? <==> Copyable(Value(c, ranks))
    ensures Closed(mine) && fresh(mine.Keys) && forall x | x in mine :: mine[x] <= ranks[c]
    ensures r.Some? ==> r.value in mine && Value(r.value, mine) == Value(c, ranks)
    decreases 2 * ranks[c], 1
  {
    hide Value, Copyable, Closed;
    var entries := c.node.entries;
    DictIs(c, ranks);
    var copies;
    copies, mine := CopyDict(entries, ranks, ranks[c]);
    if copies.None? {
      return None, mine;
    }
    var p := new Cell(Dict(copies.value));
    r := Some(p);
    RootDict(p, mine, ranks[c]);
    mine := Grow(p, mine, ranks[c]);
  }

  lemma ListStep(items: seq<Cell>, ranks: Ranks, out: seq<Cell>, mine: Ranks, child: Cell, part: Ranks, below: nat,
                 n: nat)
    requires Closed(ranks) && (forall i | 0 <= i < |items| :: items[i] in ranks && ranks[items[i]] < below)
    requires n < |items|
    requires Closed(mine) && Closed(part) && mine.Keys !! part.Keys
    requires |out| == n && (forall i | 0 <= i < n :: out[i] in mine && mine[out[i]] < below) && child in part
    requires part[child] < below
    requires Values(out, mine, below) == Values(items[..n], ranks, below)
    requires Value(child, part) == Value(items[n], ranks)
    ensures Closed(mine + part)
    ensures Values(out + [child], mine + part, below) == Values(items[..n + 1], ranks, below)
  {
    Together(mine, part);
    ValuesPart(out, mine, mine + part, below);
    ValuePart(child, part, mine + part);
    assert items[..n + 1][..n] == items[..n];
    assert (out + [child])[..n] == out;
  }

  method CopyList(items: seq<Cell>, ghost ranks: Ranks, ghost below: nat)
    returns (r: Option<seq<Cell>>, ghost mine: Ranks)
    requires Closed(ranks) && forall i | 0 <= i < |items| :: items[i] in ranks && ranks[items[i]] < below
    ensures Closed(mine) && fresh(mine.Keys) && forall x | x in mine :: mine[x] < below
    ensures r.Some? <==> forall i | 0 <= i < |items| :: Copyable(Value(items[i], ranks))
    ensures r.Some? ==> |r.value| == |items| && (forall i | 0 <= i < |items| :: r.value[i] in mine)
                        && Values(r.value, mine, below) == Values(items, ranks, below)
    decreases 2 * below, |items|
  {
    hide Closed, Value, Values, Copyable;
    var out: seq<Cell> := [];
    mine := map[];
    NoCells(ranks, below);
    for n := 0 to |items|
      invariant Closed(mine) && fresh(mine.Keys) && forall x | x in mine :: mine[x] < below
      invariant |out| == n && (forall i | 0 <= i < n :: out[i] in mine)
          && forall i | 0 <= i < n :: Copyable(Value(items[i], ranks))
      invariant Values(out, mine, below) == Values(items[..n], ranks, below)
    {
      var child;
      ghost var part: Ranks;
      child, part := Copy(items[n], ranks);
      if child.None? {
        return None, mine;
      }
      ListStep(items, ranks, out, mine, child.value, part, below, n);
      mine := mine + part;
      out := out + [child.value];
    }
    assert items[..|items|] == items;
    return Some(out), mine;
  }

  lemma NoCells(ranks: Ranks, below: nat)
    requires Closed(ranks)
    ensures Closed(map[]) && Values([], map[], below) == [] == Values([], ranks, below)
  {
  }

  method CopyDict(entries: map<string, Cell>, ghost ranks: Ranks, ghost below: nat)
    returns (r: Option<map<string, Cell>>, ghost mine: Ranks)
    requires Closed(ranks) && forall k | k in entries :: entries[k] in ranks && ranks[entries[k]] < below
    ensures Closed(mine) && fresh(mine.Keys) && forall x | x in mine :: mine[x] < below
    ensures r.Some? <==> forall k | k in entries :: Copyable(Value(entries[k], ranks))
    ensures r.Some? ==> r.value.Keys == entries.Keys
                        && forall k | k in entries ::
                             r.value[k] in mine && Value(r.value[k], mine) == Value(entries[k], ranks)
    decreases 2 * below, 0
  {
    hide Value, Values, Copyable, Closed;
    var out: map<string, Cell> := map[];
    var left := entries.Keys;
    mine := map[];
    NoCells(ranks, below);
    while left != {}
      invariant left <= entries.Keys && out.Keys == entries.Keys - left
      invariant Closed(mine) && fresh(mine.Keys) && forall x | x in mine :: mine[x] < below
      invariant forall k | k in out :: out[k] in mine && Value(out[k], mine) == Value(entries[k], ranks)
      invariant forall k | k in out :: Copyable(Value(entries[k], ranks))
      decreases left
    {
      var key :| key in left;
      var child;
      ghost var part: Ranks;
      child, part := Copy(entries[key], ranks);
      if child.None? {
        return None, mine;
      }
      assert mine.Keys !! part.Keys;
      Together(mine, part);
      forall k | k in out ensures Value(out[k], mine) == Value(out[k], mine + part) {
        ValuePart(out[k], mine, mine + part);
      }
      ValuePart(child.value, part, mine + part);
      mine := mine + part;
      out := out[key := child.value];
      left := left - {key};
    }
    return Some(out), mine;
  }

  // ----- Reading a value out of its cells -----

  method Read(c: Cell, ghost ranks: Ranks) returns (t: Tree)
    requires Closed(ranks) && c in ranks
    ensures t == Value(c, ranks)
    decreases 2 * ranks[c] + 1, 0
  {
    match c.node
    case Nil => t := TNil;
    case Leaf(text) => t := TLeaf(text);
    case Pointer(d) =>
      var child := Read(d, ranks);
      t := TPointer(child);
    case List(items) =>
      forall i | 0 <= i < |items| ensures items[i] in ranks && ranks[items[i]] < ranks[c] {
        assert items[i] in Children(c.node);
      }
      var trees := ReadList(items, ranks, ranks[c]);
      t := TList(trees);
    case Dict(entries) =>
      DictIs(c, ranks);
      var trees := ReadDict(entries, ranks, ranks[c]);
      t := TDict(trees);
    case Keyed(values) =>
      var trees := ReadDict(values, ranks, ranks[c]);
      t := TKeyed(trees);
    case Unexported => t := TUnexported;
  }

  method ReadList(items: seq<Cell>, ghost ranks: Ranks, ghost below: nat) returns (trees: seq<Tree>)
    requires Closed(ranks) && forall i | 0 <= i < |items| :: items[i] in ranks && ranks[items[i]] < below
    ensures trees == Values(items, ranks, below)
    decreases 2 * below, |items|
  {
    trees := [];
    for n := 0 to |items|
      invariant trees == Values(items[..n], ranks, below)
    {
      assert items[..n + 1][..n] == items[..n];
      var t := Read(items[n], ranks);
      trees := trees + [t];
    }
    assert items[..|items|] == items;
  }

  method ReadDict<K(!new)>(entries: map<K, Cell>, ghost ranks: Ranks, ghost below: nat) returns (trees: map<K, Tree>)
    requires Closed(ranks) && forall k | k in entries :: entries[k] in ranks && ranks[entries[k]] < below
    ensures trees == map k | k in entries :: Value(entries[k], ranks)
    decreases 2 * below, 0
  {
    hide Value, Closed;
    trees := map[];
    var left := entries.Keys;
    while left != {}
      invariant left <= entries.Keys && trees.Keys == entries.Keys - left
      invariant forall k | k in trees :: trees[k] == Value(entries[k], ranks)
      decreases left
    {
      var k :| k in left;
      var t := Read(entries[k], ranks);
      trees := trees[k := t];
      left := left - {k};
    }
  }
}
