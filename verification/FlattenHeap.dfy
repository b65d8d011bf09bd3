/**
 Flattening on the heap: the result is built in new objects only, so neither the role nor the
 concrete definition is changed or can be reached from it, even though the class is written
 into an extension's data map in place.

 A slice is an array, a map an object; the values of an extension's data are cells.
 */
module FlattenHeap {
  import opened Common
  import Counting
  import opened OwnedCopy
  import opened Flatten

  class DataMap {
    var m: map<string, Cell>

    constructor (m: map<string, Cell>)
      ensures this.m == m
    {
      this.m := m;
    }
  }

  /** An extension is a struct: a copy of it shares the data map. */
  datatype Ext = Ext(version: string, area: string, mandatory: bool, data: DataMap?)

  type Exts = map<string, Ext>

  class ExtMap {
    var m: Exts

    constructor (m: Exts)
      ensures this.m == m
    {
      this.m := m;
    }
  }

  class Def {
    var identity: string
    var purpose: string
    var body: string
    var completion: string
    var instructions: array?<Ref>
    var sops: array?<Ref>
    var hooks: array?<string>
    var others: Shape
    var extensions: ExtMap?

    constructor (identity: string, purpose: string, body: string, completion: string, instructions: array?<Ref>,
                 sops: array?<Ref>, hooks: array?<string>, others: Shape, extensions: ExtMap?)
      ensures this.identity == identity && this.purpose == purpose && this.body == body && this.completion == completion
      ensures this.instructions == instructions && this.sops == sops && this.hooks == hooks
      ensures this.others == others && this.extensions == extensions
    {
      this.identity, this.purpose, this.body, this.completion := identity, purpose, body, completion;
      this.instructions, this.sops, this.hooks := instructions, sops, hooks;
      this.others, this.extensions := others, extensions;
    }
  }

  // ----- The values objects stand for -----

  ghost predicate DataFits(data: DataMap?, ranks: Ranks)
    reads data, ranks.Keys
  {
    Closed(ranks) && (data != null ==> forall k | k in data.m :: data.m[k] in ranks)
  }

  ghost function Trees(m: map<string, Cell>, ranks: Ranks): (r: Data)
    requires Closed(ranks) && forall k | k in m :: m[k] in ranks
    reads ranks.Keys
    ensures r.Keys == m.Keys && forall k | k in m :: r[k] == Value(m[k], ranks)
  {
    map k | k in m :: Value(m[k], ranks)
  }

  ghost function ExtValue(e: Ext, ranks: Ranks): Extension
    requires DataFits(e.data, ranks)
    reads e.data, ranks.Keys
  {
    Extension(e.version, e.area, e.mandatory, if e.data == null then None else Some(Trees(e.data.m, ranks)))
  }

  ghost function DatasOf(m: Exts): set<DataMap> {
    set ns | ns in m && m[ns].data != null :: m[ns].data
  }

  /** The entries `m`, made of cells of `ranks`, stand for `v`. */
  ghost predicate Stand(m: Exts, ranks: Ranks, v: Extensions)
    reads DatasOf(m), ranks.Keys
  {
    && Closed(ranks) && m.Keys == v.Keys
    && forall ns | ns in m :: DataFits(m[ns].data, ranks) && ExtValue(m[ns], ranks) == v[ns]
  }

  function Items<T>(a: array?<T>): Option<seq<T>>
    reads a
  {
    if a == null then None else Some(a[..])
  }

  /** The fields of `d` outside its extensions are those of `v`. */
  ghost predicate FieldsStand(d: Def, v: Definition)
    reads d, d.instructions, d.sops, d.hooks
  {
    && d.identity == v.identity && d.purpose == v.purpose && d.body == v.body && d.completion == v.completion
    && d.others == v.others
    && Items(d.instructions) == v.instructions && Items(d.sops) == v.sops && Items(d.hooks) == v.hooks
  }

  ghost function DatasIn(x: ExtMap?): set<DataMap>
    reads x
  {
    if x == null then {} else DatasOf(x.m)
  }

  ghost predicate ExtsStand(x: ExtMap?, ranks: Ranks, v: Option<Extensions>)
    reads x, DatasIn(x), ranks.Keys
  {
    Closed(ranks) && (x == null <==> v.None?) && (x != null ==> Stand(x.m, ranks, v.value))
  }

  /** The definition object `d`, with its data in cells of `ranks`, stands for `v`. */
  ghost predicate Means(d: Def, ranks: Ranks, v: Definition)
    reads d, d.instructions, d.sops, d.hooks, d.extensions, DatasIn(d.extensions), ranks.Keys
  {
    FieldsStand(d, v) && ExtsStand(d.extensions, ranks, v.extensions)
  }

  ghost function Maybe(o: object?): set<object> {
    if o == null then {} else {o}
  }

  /** Everything a definition object is made of, cells apart. */
  ghost function Footprint(d: Def): set<object>
    reads d, d.extensions
  {
    {d} + Maybe(d.instructions) + Maybe(d.sops) + Maybe(d.hooks) + Maybe(d.extensions) + DatasIn(d.extensions)
  }

  // ----- The owned copy -----

  ghost predicate DataCopyable(e: Extension) {
    e.data.Some? ==> forall k | k in e.data.value :: Copyable(e.data.value[k])
  }

  ghost predicate AllCopyable(d: Definition) {
    forall ns | ns in Entries(d) :: DataCopyable(Entries(d)[ns])
  }

  method CopySlice<T>(a: array?<T>, ghost items: Option<seq<T>>) returns (b: array?<T>)
    requires Items(a) == items
    ensures Items(b) == items && fresh(Maybe(b))
  {
    if a == null {
      return null;
    }
    b := new T[a.Length](i requires 0 <= i < a.Length reads a => a[i]);
    assert b[..] == a[..];
  }

  ghost function Top(ranks: Ranks): (n: nat)
    ensures forall c | c in ranks :: ranks[c] < n
  {
    assert forall c | c in ranks :: ranks[c] in ranks.Values;
    Counting.Above(ranks.Values)
  }

  /** Looking at more cells changes no extension. */
  lemma ExtPart(e: Ext, small: Ranks, big: Ranks)
    requires DataFits(e.data, small) && Closed(big) && PartOf(small, big)
    ensures DataFits(e.data, big) && ExtValue(e, small) == ExtValue(e, big)
  {
    hide Value, Closed, Trees;
    if e.data != null {
      var m := e.data.m;
      forall k | k in m ensures Value(m[k], small) == Value(m[k], big) {
        ValuePart(m[k], small, big);
      }
      assert Trees(m, small) == Trees(m, big);
    }
  }

  method CopyExt(e: Ext, ghost ranks: Ranks) returns (ok: bool, r: Ext, ghost part: Ranks)
    requires DataFits(e.data, ranks)
    ensures Closed(part) && fresh(part.Keys)
    ensures ok <==> DataCopyable(ExtValue(e, ranks))
    ensures ok ==> DataFits(r.data, part) && ExtValue(r, part) == ExtValue(e, ranks) && fresh(Maybe(r.data))
  {
    hide Value, Closed, Copyable, Trees;
    NoCells(ranks, 0);
    if e.data == null {
      return true, e, map[];
    }
    var copies;
    copies, part := CopyDict(e.data.m, ranks, Top(ranks));
    if copies.None? {
      return false, e, part;
    }
    assert Trees(copies.value, part) == Trees(e.data.m, ranks);
    var data := new DataMap(copies.value);
    r := Ext(e.version, e.area, e.mandatory, data);
    ok := true;
  }

  /** No two namespaces share a data map. */
  ghost predicate Separate(m: Exts) {
    forall a, b | a in m && b in m && a != b && m[a].data != null :: m[a].data != m[b].data
  }

  /** The same, and writing one data map changes one extension. */
  ghost predicate ExtsMean(x: ExtMap?, ranks: Ranks, v: Option<Extensions>)
    reads x, DatasIn(x), ranks.Keys
  {
    ExtsStand(x, ranks, v) && (x != null ==> Separate(x.m))
  }

  function Only(v: Extensions, keys: set<string>): Extensions {
    map ns | ns in v && ns in keys :: v[ns]
  }

  lemma DatasMore(m: Exts, ns: string, e: Ext)
    requires ns !in m
    ensures DatasOf(m[ns := e]) == DatasOf(m) + Maybe(e.data)
  {
    var m' := m[ns := e];
    forall o | o in DatasOf(m) ensures o in DatasOf(m') {
      var k :| k in m && m[k].data != null && m[k].data == o;
      assert m'[k] == m[k];
    }
    forall o | o in Maybe(e.data) ensures o in DatasOf(m') {
      assert m'[ns].data == o;
    }
  }

  lemma CopiedMore(m: Exts, mine: Ranks, v: Extensions, ns: string, e: Ext, part: Ranks)
    requires Separate(m) && m.Keys <= v.Keys && Stand(m, mine, Only(v, m.Keys)) && ns in v && ns !in m
    requires Closed(part) && mine.Keys !! part.Keys
    requires DataFits(e.data, part) && ExtValue(e, part) == v[ns] && Maybe(e.data) !! DatasOf(m)
    ensures var m' := m[ns := e];
            && Separate(m') && Stand(m', mine + part, Only(v, m'.Keys)) && DatasOf(m') == DatasOf(m) + Maybe(e.data)
  {
    hide Value, Closed, ExtValue, DataFits;
    Together(mine, part);
    forall k | k in m ensures DataFits(m[k].data, mine + part) && ExtValue(m[k], mine + part) == v[k] {
      ExtPart(m[k], mine, mine + part);
    }
    ExtPart(e, part, mine + part);
    forall k | k in m && m[k].data != null ensures m[k].data != e.data {
      assert m[k].data in DatasOf(m);
    }
    DatasMore(m, ns, e);
  }

  method CopyNext(src: Exts, ns: string, ghost ranks: Ranks, ghost v: Extensions)
    returns (ok: bool, copy: Ext, ghost part: Ranks)
    requires Stand(src, ranks, v) && ns in src
    ensures Closed(part) && fresh(part.Keys) && Stand(src, ranks, v) && ns in v
    ensures ok <==> DataCopyable(v[ns])
    ensures ok ==> DataFits(copy.data, part) && ExtValue(copy, part) == v[ns] && fresh(Maybe(copy.data))
  {
    hide Closed, ExtValue, DataCopyable, DataFits;
    ok, copy, part := CopyExt(src[ns], ranks);
  }

  /** One more entry of `src` copied. */
  method CopyEntry(src: Exts, ns: string, m: Exts, ghost ranks: Ranks, ghost mine: Ranks, ghost v: Extensions)
    returns (ok: bool, r: Exts, ghost more: Ranks, ghost made: set<DataMap>)
    requires Stand(src, ranks, v) && ns in src && ns !in m
    requires m.Keys <= v.Keys && Separate(m) && Stand(m, mine, Only(v, m.Keys))
    ensures ok <==> ns in v && DataCopyable(v[ns])
    ensures ok ==> r.Keys == m.Keys + {ns} && Separate(r) && Stand(r, more, Only(v, r.Keys))
    ensures ok ==> fresh(more.Keys - mine.Keys) && DatasOf(r) <= DatasOf(m) + made && fresh(made)
    ensures Stand(src, ranks, v)
  {
    hide Closed, Copyable, ExtValue, DataCopyable, DataFits, Separate;
    var copy;
    ghost var part: Ranks;
    ok, copy, part := CopyNext(src, ns, ranks, v);
    r, more, made := m, mine, {};
    if ok {
      CopiedMore(m, mine, v, ns, copy, part);
      r, more := m[ns := copy], mine + part;
      made := if copy.data == null then {} else {copy.data};
    }
  }

  lemma NoneStands(v: Extensions)
    ensures Stand(map[], map[], Only(v, {})) && Separate(map[]) && DatasOf(map[]) == {}
  {
    assert Only(v, {}) == map[];
  }

  lemma EachStands(m: Exts, ranks: Ranks, v: Extensions)
    requires Stand(m, ranks, v)
    ensures m.Keys == v.Keys && forall ns | ns in m :: DataFits(m[ns].data, ranks) && v[ns] == ExtValue(m[ns], ranks)
  {
  }

  method CopyEntries(src: Exts, ghost ranks: Ranks, ghost v: Extensions) returns (ok: bool, m: Exts, ghost mine: Ranks)
    requires Stand(src, ranks, v)
    ensures ok <==> forall ns | ns in v :: DataCopyable(v[ns])
    ensures ok ==> Stand(m, mine, v) && Separate(m) && fresh(DatasOf(m)) && fresh(mine.Keys)
  {
    hide Closed, Copyable, ExtValue, DataCopyable, DataFits, Separate, Only, Stand, DatasOf;
    NoneStands(v);
    EachStands(src, ranks, v);
    m, mine := map[], map[];
    assert m.Keys == {};
    ghost var young: set<DataMap> := {};
    var left := src.Keys;
    while left != {}
      invariant left <= src.Keys && m.Keys == src.Keys - left && Stand(src, ranks, v)
      invariant fresh(mine.Keys) && Separate(m) && Stand(m, mine, Only(v, m.Keys))
      invariant DatasOf(m) <= young && fresh(young)
      invariant forall ns | ns in m :: DataCopyable(v[ns])
      decreases left
    {
      var ns :| ns in left;
      ghost var made: set<DataMap>;
      ok, m, mine, made := CopyEntry(src, ns, m, ranks, mine, v);
      if !ok {
        return;
      }
      young := young + made;
      left := left - {ns};
    }
    OnlyAll(v);
    assert m.Keys == v.Keys;
    ok := true;
  }

  lemma OnlyAll(v: Extensions)
    ensures Only(v, v.Keys) == v
  {
  }

  method CopyExtensions(x: ExtMap?, ghost ranks: Ranks, ghost v: Option<Extensions>)
    returns (ok: bool, y: ExtMap?, ghost mine: Ranks)
    requires ExtsStand(x, ranks, v)
    ensures ok <==> v.Some? ==> forall ns | ns in v.value :: DataCopyable(v.value[ns])
    ensures ok ==> ExtsMean(y, mine, v) && fresh(mine.Keys) && fresh(Maybe(y) + DatasIn(y))
  {
    hide Closed, DataCopyable, Separate, ExtValue, DataFits;
    y := null;
    if x == null {
      NoCells(ranks, 0);
      return true, null, map[];
    }
    var m;
    ok, m, mine := CopyEntries(x.m, ranks, v.value);
    if ok {
      y := new ExtMap(m);
    }
  }

  method CopySlices(c: Def, ghost v: Definition)
    returns (instructions: array?<Ref>, sops: array?<Ref>, hooks: array?<string>)
    requires FieldsStand(c, v)
    ensures v.instructions == Items(instructions) && v.sops == Items(sops) && v.hooks == Items(hooks)
    ensures fresh(Maybe(instructions) + Maybe(sops) + Maybe(hooks))
  {
    instructions := CopySlice(c.instructions, v.instructions);
    sops := CopySlice(c.sops, v.sops);
    hooks := CopySlice(c.hooks, v.hooks);
  }

  lemma CopyableIs(v: Definition)
    ensures AllCopyable(v) <==> v.extensions.Some? ==>
        forall ns | ns in v.extensions.value :: DataCopyable(v.extensions.value[ns])
  {
    hide DataCopyable;
    if v.extensions.Some? { assert Entries(v) == v.extensions.value; }
  }

  /** The fields and lists copied, around extensions that are already there. */
  method CopyAround(c: Def, y: ExtMap?, ghost mine: Ranks, ghost v: Definition) returns (out: Def)
    requires FieldsStand(c, v) && ExtsMean(y, mine, v.extensions)
    ensures fresh(out) && fresh(Maybe(out.instructions) + Maybe(out.sops) + Maybe(out.hooks)) && out.extensions == y
    ensures FieldsStand(out, v) && ExtsMean(y, mine, v.extensions)
  {
    hide Closed, Separate, ExtValue, DataFits;
    var instructions, sops, hooks := CopySlices(c, v);
    out := new Def(c.identity, c.purpose, c.body, c.completion, instructions, sops, hooks, c.others, y);
  }

  /** `copyOwned` of a definition. */
  method CopyDef(c: Def, ghost ranks: Ranks, ghost v: Definition) returns (ok: bool, out: Def, ghost mine: Ranks)
    requires Means(c, ranks, v)
    ensures ok <==> AllCopyable(v)
    ensures ok ==> fresh(Footprint(out)) && fresh(mine.Keys)
    ensures ok ==> FieldsStand(out, v) && ExtsMean(out.extensions, mine, v.extensions)
  {
    hide ExtsStand, Separate, AllCopyable;
    CopyableIs(v);
    out := c;
    var y;
    ok, y, mine := CopyExtensions(c.extensions, ranks, v.extensions);
    if ok {
      out := CopyAround(c, y, mine, v);
    }
  }

  // ----- Inheriting -----

  /** A nil list becomes a new array with the role's items. */
  method InheritList(own: array?<Ref>, theirs: array?<Ref>, ghost v: Option<seq<Ref>>, ghost vr: Option<seq<Ref>>)
    returns (list: array?<Ref>)
    requires Items(own) == v && Items(theirs) == vr
    ensures Items(list) == (if v.None? then vr else v) && fresh(Maybe(list) - Maybe(own))
  {
    list := own;
    if own == null && theirs != null {
      list := CopySlice(theirs, vr);
    }
  }

  method InheritTexts(out: Def, role: Def, ghost v: Definition, ghost vr: Definition)
    requires out != role && FieldsStand(out, v) && FieldsStand(role, vr)
    modifies out`purpose, out`body, out`completion
    ensures var w := InheritFields(vr, v);
            out.purpose == w.purpose && out.body == w.body && out.completion == w.completion
  {
    if out.purpose == "" {
      out.purpose := role.purpose;
    }
    if out.body == "" {
      out.body := role.body;
    }
    if out.completion == "" {
      out.completion := role.completion;
    }
  }

  method InheritInto(out: Def, role: Def, ghost v: Definition, ghost vr: Definition)
    requires out != role && FieldsStand(out, v) && FieldsStand(role, vr)
    modifies out
    ensures FieldsStand(out, InheritFields(vr, v)) && out.extensions == old(out.extensions)
    ensures fresh(Maybe(out.instructions) + Maybe(out.sops) + Maybe(out.hooks)
                  - old(Maybe(out.instructions) + Maybe(out.sops) + Maybe(out.hooks)))
  {
    InheritTexts(out, role, v, vr);
    var instructions := InheritList(out.instructions, role.instructions, v.instructions, vr.instructions);
    var sops := InheritList(out.sops, role.sops, v.sops, vr.sops);
    out.instructions, out.sops := instructions, sops;
  }

  /** An extension with the class in its data. */
  function Classed(e: Extension, name: string): Extension
    requires e.data.Some?
  {
    e.(data := Some(e.data.value[CLASS := TLeaf(name)]))
  }

  lemma LeafAdded(ranks: Ranks, leaf: Cell)
    requires Closed(ranks) && leaf !in ranks && leaf.node.Leaf?
    ensures Closed(ranks[leaf := 0]) && PartOf(ranks, ranks[leaf := 0])
    ensures Value(leaf, ranks[leaf := 0]) == TLeaf(leaf.node.text)
  {
  }

  lemma DataWithLeaf(before: map<string, Cell>, ranks: Ranks, leaf: Cell)
    requires Closed(ranks) && (forall k | k in before :: before[k] in ranks) && leaf !in ranks && leaf.node.Leaf?
    ensures var more, after := ranks[leaf := 0], before[CLASS := leaf];
            && Closed(more) && PartOf(ranks, more) && (forall k | k in after :: after[k] in more)
            && Trees(after, more) == Trees(before, ranks)[CLASS := TLeaf(leaf.node.text)]
  {
    hide Value, Trees;
    LeafAdded(ranks, leaf);
    var more := ranks[leaf := 0];
    forall k | k in before ensures Value(before[k], more) == Value(before[k], ranks) {
      ValuePart(before[k], ranks, more);
    }
  }

  /** Where the class goes into data that is already there: written in place. */
  method WriteClass(e: Ext, leaf: Cell, ghost ranks: Ranks, ghost v: Extension)
    requires e.data != null && DataFits(e.data, ranks) && ExtValue(e, ranks) == v && leaf !in ranks && leaf.node.Leaf?
    modifies e.data
    ensures DataFits(e.data, ranks[leaf := 0]) && ExtValue(e, ranks[leaf := 0]) == Classed(v, leaf.node.text)
  {
    hide Value, Trees, Closed;
    DataWithLeaf(e.data.m, ranks, leaf);
    e.data.m := e.data.m[CLASS := leaf];
  }

  /** The other entries as they were, and the native one as given. */
  lemma NativeStands(m: Exts, ranks: Ranks, v: Extensions, e: Ext, more: Ranks, ve: Extension)
    requires Closed(ranks) && Closed(more) && PartOf(ranks, more) && m.Keys == v.Keys
    requires forall ns | ns in m && ns != NATIVE :: DataFits(m[ns].data, ranks) && ExtValue(m[ns], ranks) == v[ns]
    requires DataFits(e.data, more) && ExtValue(e, more) == ve
    ensures Stand(m[NATIVE := e], more, v[NATIVE := ve])
  {
    hide ExtValue, DataFits, Closed;
    forall ns | ns in m && ns != NATIVE ensures DataFits(m[ns].data, more) && ExtValue(m[ns], more) == v[ns] {
      ExtPart(m[ns], ranks, more);
    }
  }

  lemma HasData(e: Ext, ranks: Ranks)
    requires DataFits(e.data, ranks)
    ensures ExtValue(e, ranks).data.Some? <==> e.data != null
  {
  }

  /** The class into the native entry of `x`, which is there with data. */
  method ClassInPlace(x: ExtMap, name: string, ghost ranks: Ranks, ghost v: Extensions) returns (ghost more: Ranks)
    requires Stand(x.m, ranks, v) && Separate(x.m) && NATIVE in x.m && x.m[NATIVE].data != null
    modifies x, x.m[NATIVE].data
    ensures x.m == old(x.m) && Closed(more) && fresh(more.Keys - ranks.Keys)
    ensures Stand(x.m, more, v[NATIVE := Classed(v[NATIVE], name)])
  {
    hide ExtValue, DataFits, Closed, Value;
    var e := x.m[NATIVE];
    ghost var m := x.m;
    HasData(e, ranks);
    var leaf := new Cell(Leaf(name));
    more := ranks[leaf := 0];
    LeafAdded(ranks, leaf);
    WriteClass(e, leaf, ranks, v[NATIVE]);
    x.m := x.m[NATIVE := e];
    assert x.m == m;
    assert m[NATIVE := e] == m;
    NativeStands(m, ranks, v, e, more, Classed(v[NATIVE], name));
  }

  function Bare(inherited: Extension): Extension {
    Extension(inherited.version, inherited.area, inherited.mandatory, Some(map[]))
  }

  method NewClass(inherited: Extension, name: string, ghost ranks: Ranks) returns (e: Ext, ghost more: Ranks)
    requires Closed(ranks)
    ensures Closed(more) && PartOf(ranks, more) && fresh(more.Keys - ranks.Keys)
    ensures e.data != null && fresh(e.data) && DataFits(e.data, more)
    ensures ExtValue(e, more) == Classed(Bare(inherited), name)
  {
    hide Value, Trees, Closed;
    var leaf := new Cell(Leaf(name));
    var data := new DataMap(map[]);
    e := Ext(inherited.version, inherited.area, inherited.mandatory, data);
    more := ranks[leaf := 0];
    LeafAdded(ranks, leaf);
    assert Trees(map[], ranks) == map[];
    WriteClass(e, leaf, ranks, Bare(inherited));
  }

  lemma SeparateMore(m: Exts, e: Ext)
    requires Separate(m) && NATIVE !in m && Maybe(e.data) !! DatasOf(m)
    ensures Separate(m[NATIVE := e])
  {
    forall k | k in m && m[k].data != null ensures m[k].data != e.data {
      assert m[k].data in DatasOf(m);
    }
  }

  /** A native entry with the class as its only setting, where there was none. */
  method ClassNew(x: ExtMap, inherited: Extension, name: string, ghost ranks: Ranks, ghost v: Extensions)
    returns (ghost more: Ranks)
    requires Stand(x.m, ranks, v) && Separate(x.m) && NATIVE !in x.m
    modifies x
    ensures Separate(x.m) && Closed(more) && fresh(more.Keys - ranks.Keys) && fresh(DatasOf(x.m) - old(DatasOf(x.m)))
    ensures Stand(x.m, more, v[NATIVE := Classed(Bare(inherited), name)])
  {
    hide ExtValue, DataFits, Closed, Separate, Classed;
    ghost var m := x.m;
    var e;
    e, more := NewClass(inherited, name, ranks);
    DatasMore(m, NATIVE, e);
    SeparateMore(m, e);
    NativeStands(m, ranks, v, e, more, Classed(Bare(inherited), name));
    x.m := x.m[NATIVE := e];
  }

  method ReadExt(e: Ext, ghost ranks: Ranks) returns (v: Extension)
    requires DataFits(e.data, ranks)
    ensures v == ExtValue(e, ranks)
  {
    hide Closed, Value;
    if e.data == null {
      return Extension(e.version, e.area, e.mandatory, None);
    }
    var trees := ReadDict(e.data.m, ranks, Top(ranks));
    assert trees == Trees(e.data.m, ranks);
    v := Extension(e.version, e.area, e.mandatory, Some(trees));
  }

  function EntryIn(v: Option<Extensions>, ns: string): Option<Extension> {
    if v.Some? && ns in v.value then Some(v.value[ns]) else None
  }

  /** The entry of a namespace, read out of the object. */
  method ReadEntry(x: ExtMap?, ns: string, ghost ranks: Ranks, ghost v: Option<Extensions>)
    returns (e: Option<Extension>)
    requires ExtsStand(x, ranks, v)
    ensures e == EntryIn(v, ns)
  {
    hide Closed, ExtValue, DataFits;
    if x == null || ns !in x.m {
      return None;
    }
    var value := ReadExt(x.m[ns], ranks);
    e := Some(value);
  }

  method ClassInto(x: ExtMap, inherited: Extension, name: string, ghost mine: Ranks, ghost v: Extensions)
    returns (ghost more: Ranks)
    requires Stand(x.m, mine, v) && Separate(x.m)
    requires NATIVE in v ==> v[NATIVE].data.Some?
    modifies x, DatasOf(x.m)
    ensures Closed(more) && fresh(more.Keys - mine.Keys) && fresh(DatasOf(x.m) - old(DatasOf(x.m))) && Separate(x.m)
    ensures Stand(x.m, more, v[NATIVE := Classed(if NATIVE in v then v[NATIVE] else Bare(inherited), name)])
  {
    hide DataFits, Closed, Separate, Classed, Trees;
    if NATIVE in x.m {
      assert x.m[NATIVE].data in DatasOf(x.m);
      more := ClassInPlace(x, name, mine, v);
    } else {
      more := ClassNew(x, inherited, name, mine, v);
    }
  }

  lemma NoExtensions(mine: Ranks)
    requires Closed(mine)
    ensures Stand(map[], mine, map[]) && Separate(map[]) && DatasOf(map[]) == {}
  {
  }

  /** The class into the native entry of a definition, making what is missing. */
  method PutClass(out: Def, inherited: Extension, name: string, ghost mine: Ranks, ghost v: Option<Extensions>)
    returns (ghost more: Ranks)
    requires ExtsMean(out.extensions, mine, v)
    requires var own := if v.Some? then v.value else map[]; NATIVE in own ==> own[NATIVE].data.Some?
    modifies out`extensions, out.extensions, DatasIn(out.extensions)
    ensures fresh(more.Keys - mine.Keys)
    ensures fresh(Maybe(out.extensions) + DatasIn(out.extensions)
                  - old(Maybe(out.extensions) + DatasIn(out.extensions)))
    ensures var own := if v.Some? then v.value else map[];
            ExtsMean(out.extensions, more,
                     Some(own[NATIVE := Classed(if NATIVE in own then own[NATIVE] else Bare(inherited), name)]))
  {
    hide ExtValue, DataFits, Closed, Separate, Classed, Trees, Stand;
    ghost var own: Extensions := if v.Some? then v.value else map[];
    if out.extensions == null {
      NoExtensions(mine);
      var x := new ExtMap(map[]);
      out.extensions := x;
      NoExtensions(mine);
    }
    more := ClassInto(out.extensions, inherited, name, mine, own);
  }

  /** The extensions after the native step, as `PutNative` has them. */
  function AfterNative(v: Option<Extensions>, e: Option<Extension>): Option<Extensions> {
    if e == EntryIn(v, NATIVE) || e.None? then v
    else Some((if v.Some? then v.value else map[])[NATIVE := e.value])
  }

  lemma AfterNativeIs(d: Definition, e: Option<Extension>)
    ensures PutNative(d, e) == d.(extensions := AfterNative(d.extensions, e))
    ensures forall ns :: EntryIn(d.extensions, ns) == Entry(d, ns)
  {
  }

  /** What the native namespace of the role asks for. */
  datatype Verdict = Refuse | Keep | Inherit(name: string)

  function NativeVerdict(inherited: Extension, own: Option<Extension>, lib: Library): Verdict {
    var name := lib.decodeNative(inherited);
    if inherited.version != VERSION then Keep
    else if name.None? || (inherited.mandatory && !Represented(inherited, own, lib)) then Refuse
    else if !InheritsClass(inherited, own) then (if inherited.mandatory && own.None? then Refuse else Keep)
    else if own.Some? && (lib.decodeNative(own.value).None? || own.value.data.None?) then Refuse
    else Inherit(name.value)
  }

  lemma VerdictIs(inherited: Extension, v: Option<Extensions>, lib: Library)
    ensures var own, verdict := EntryIn(v, NATIVE), NativeVerdict(inherited, EntryIn(v, NATIVE), lib);
            var step := NativeStep(inherited, own, lib);
            && (verdict.Refuse? <==> step.Err?)
            && (verdict.Keep? ==> AfterNative(v, step.value) == v)
            && (verdict.Inherit? ==>
                  && (own.Some? ==> own.value.data.Some?)
                  && AfterNative(v, step.value) == Some((if v.Some? then v.value else map[])[NATIVE :=
                       Classed(if own.Some? then own.value else Bare(inherited), verdict.name)]))
  {
    hide Represented;
  }

  /** The native namespace of the role, into the definition being built. */
  method NativeInto(out: Def, inherited: Extension, ghost mine: Ranks, ghost v: Option<Extensions>, lib: Library)
    returns (ok: bool, ghost more: Ranks)
    requires ExtsMean(out.extensions, mine, v)
    modifies out`extensions, out.extensions, DatasIn(out.extensions)
    ensures ok <==> NativeStep(inherited, EntryIn(v, NATIVE), lib).Ok?
    ensures ok ==> fresh(more.Keys - mine.Keys)
    ensures fresh(Maybe(out.extensions) + DatasIn(out.extensions)
                  - old(Maybe(out.extensions) + DatasIn(out.extensions)))
    ensures ok ==> ExtsMean(out.extensions, more, AfterNative(v, NativeStep(inherited, EntryIn(v, NATIVE), lib).value))
  {
    hide ExtsMean, Classed, Bare, NativeStep, NativeVerdict, AfterNative;
    more := mine;
    MeanStands(out.extensions, mine, v);
    var own := ReadEntry(out.extensions, NATIVE, mine, v);
    VerdictIs(inherited, v, lib);
    match NativeVerdict(inherited, own, lib)
    case Refuse => ok := false;
    case Keep => ok := true;
    case Inherit(name) =>
      more := PutClass(out, inherited, name, mine, v);
      ok := true;
  }

  lemma MeanStands(x: ExtMap?, ranks: Ranks, v: Option<Extensions>)
    requires ExtsMean(x, ranks, v)
    ensures ExtsStand(x, ranks, v)
  {
  }

  // ----- Reading a definition -----

  method ReadEntries(m: Exts, ghost ranks: Ranks, ghost v: Extensions) returns (r: Extensions)
    requires Stand(m, ranks, v)
    ensures r == v
  {
    hide Closed, ExtValue, DataFits;
    r := map[];
    var left := m.Keys;
    while left != {}
      invariant left <= m.Keys && r.Keys == m.Keys - left
      invariant forall ns | ns in r :: r[ns] == v[ns]
      decreases left
    {
      var ns :| ns in left;
      var e := ReadExt(m[ns], ranks);
      r := r[ns := e];
      left := left - {ns};
    }
  }

  method ReadDef(d: Def, ghost ranks: Ranks, ghost v: Definition) returns (r: Definition)
    requires Means(d, ranks, v)
    ensures r == v
  {
    hide Closed, ExtValue, DataFits;
    var extensions: Option<Extensions> := None;
    if d.extensions != null {
      var m := ReadEntries(d.extensions.m, ranks, v.extensions.value);
      extensions := Some(m);
    }
    r := Definition(d.identity, d.purpose, d.body, d.completion, Items(d.instructions), Items(d.sops), Items(d.hooks),
        d.others,
                    extensions);
  }

  // ----- Flattening -----

  /** The extensions once the namespaces in `done` have been taken. */
  ghost function Current(inherited: Extensions, v: Option<Extensions>, done: set<string>,
                         lib: Library): Option<Extensions>
    requires done <= inherited.Keys
  {
    if NATIVE !in done then v
    else
      var step := NativeStep(inherited[NATIVE], EntryIn(v, NATIVE), lib);
      if step.Err? then v else AfterNative(v, step.value)
  }

  lemma CurrentOthers(inherited: Extensions, v: Option<Extensions>, done: set<string>, lib: Library, ns: string)
    requires done <= inherited.Keys && ns != NATIVE
    ensures EntryIn(Current(inherited, v, done, lib), ns) == EntryIn(v, ns)
  {
    hide NativeStep;
  }

  ghost predicate TakenFine(inherited: Extensions, v: Option<Extensions>, done: set<string>, lib: Library)
    requires done <= inherited.Keys
  {
    forall ns | ns in done ::
      if ns == NATIVE then NativeStep(inherited[ns], EntryIn(v, NATIVE), lib).Ok?
      else OtherFine(ns, inherited[ns], EntryIn(v, ns), lib)
  }

  lemma AllTaken(vr: Definition, v: Definition, lib: Library)
    ensures FlattenedExtensions(vr, v, lib).Some? <==> TakenFine(Entries(vr), v.extensions, Entries(vr).Keys, lib)
    ensures FlattenedExtensions(vr, v, lib).Some? ==>
      FlattenedExtensions(vr, v, lib).value
          == v.(extensions := Current(Entries(vr), v.extensions, Entries(vr).Keys, lib))
  {
    hide NativeStep, OtherFine, PutNative, AfterNative;
    if NATIVE in Entries(vr) {
      var step := NativeStep(Entries(vr)[NATIVE], Entry(v, NATIVE), lib);
      AfterNativeIs(v, if step.Ok? then step.value else None);
    } else {
      AfterNativeIs(v, None);
    }
  }

  /** One namespace of the role. */
  method TakeNamespace(ns: string, inherited: Extension, out: Def, ghost mine: Ranks, ghost v: Option<Extensions>,
                       lib: Library)
    returns (ok: bool, ghost more: Ranks)
    requires ExtsMean(out.extensions, mine, v)
    modifies out`extensions, out.extensions, DatasIn(out.extensions)
    ensures ok <==> if ns == NATIVE then NativeStep(inherited, EntryIn(v, NATIVE), lib).Ok?
                    else OtherFine(ns, inherited, EntryIn(v, ns), lib)
    ensures ok ==> fresh(more.Keys - mine.Keys)
    ensures fresh(Maybe(out.extensions) + DatasIn(out.extensions)
                  - old(Maybe(out.extensions) + DatasIn(out.extensions)))
    ensures ok && ns == NATIVE ==>
      ExtsMean(out.extensions, more, AfterNative(v, NativeStep(inherited, EntryIn(v, NATIVE), lib).value))
    ensures ok && ns != NATIVE ==> ExtsMean(out.extensions, more, v)
  {
    hide ExtsMean, NativeStep, AfterNative, OtherFine;
    if ns == NATIVE {
      ok, more := NativeInto(out, inherited, mine, v, lib);
    } else {
      MeanStands(out.extensions, mine, v);
      var own := ReadEntry(out.extensions, ns, mine, v);
      ok, more := OtherFine(ns, inherited, own, lib), mine;
    }
  }

  lemma TakenMore(inherited: Extensions, v: Option<Extensions>, done: set<string>, ns: string, lib: Library)
    requires done <= inherited.Keys && ns in inherited && ns !in done
    ensures TakenFine(inherited, v, done + {ns}, lib) <==>
            TakenFine(inherited, v, done, lib)
            && if ns == NATIVE then NativeStep(inherited[ns], EntryIn(v, NATIVE), lib).Ok?
                else OtherFine(ns, inherited[ns], EntryIn(v, ns), lib)
    ensures TakenFine(inherited, v, inherited.Keys, lib) ==> TakenFine(inherited, v, done + {ns}, lib)
  {
    hide NativeStep, OtherFine;
  }

  /** `flattenExtensions` on the object being built. */
  method ExtensionsInto(inherited: Extensions, out: Def, ghost mine: Ranks, ghost v: Option<Extensions>, lib: Library)
    returns (ok: bool, ghost more: Ranks)
    requires ExtsMean(out.extensions, mine, v)
    modifies out`extensions, out.extensions, DatasIn(out.extensions)
    ensures ok <==> TakenFine(inherited, v, inherited.Keys, lib)
    ensures ok ==> fresh(more.Keys - mine.Keys)
    ensures fresh(Maybe(out.extensions) + DatasIn(out.extensions)
                  - old(Maybe(out.extensions) + DatasIn(out.extensions)))
    ensures ok ==> ExtsMean(out.extensions, more, Current(inherited, v, inherited.Keys, lib))
  {
    hide ExtsMean, NativeStep, AfterNative, OtherFine, TakenFine, EntryIn;
    more := mine;
    var left := inherited.Keys;
    ghost var done: set<string> := {};
    NothingTaken(inherited, v, lib);
    while left != {}
      invariant left !! done && left + done == inherited.Keys
      invariant ExtsMean(out.extensions, more, Current(inherited, v, done, lib)) && TakenFine(inherited, v, done, lib)
      invariant fresh(more.Keys - mine.Keys)
      invariant fresh(Maybe(out.extensions) + DatasIn(out.extensions)
                      - old(Maybe(out.extensions) + DatasIn(out.extensions)))
      decreases left
    {
      var ns :| ns in left;
      TakenMore(inherited, v, done, ns, lib);
      if ns != NATIVE { CurrentOthers(inherited, v, done, lib, ns); }
      ok, more := TakeNamespace(ns, inherited[ns], out, more, Current(inherited, v, done, lib), lib);
      if !ok {
        return;
      }
      left := left - {ns};
      done := done + {ns};
    }
    assert done == inherited.Keys;
    ok := true;
  }

  lemma NothingTaken(inherited: Extensions, v: Option<Extensions>, lib: Library)
    ensures TakenFine(inherited, v, {}, lib)
  {
  }

  /** The object being built stands for `v`. */
  ghost predicate Built(d: Def, mine: Ranks, v: Definition)
    reads d, d.instructions, d.sops, d.hooks, d.extensions, DatasIn(d.extensions), mine.Keys
  {
    FieldsStand(d, v) && ExtsMean(d.extensions, mine, v.extensions)
  }

  method InheritBuilt(out: Def, role: Def, ghost mine: Ranks, ghost v: Definition, ghost vr: Definition,
                      ghost young: set<object>)
    returns (ghost grown: set<object>)
    requires out != role && Built(out, mine, v) && FieldsStand(role, vr) && Footprint(out) <= young
    modifies out
    ensures Built(out, mine, InheritFields(vr, v)) && Footprint(out) <= grown && fresh(grown - young)
  {
    hide ExtValue, DataFits, Closed, Separate, InheritFields;
    InheritKeeps(vr, v);
    InheritInto(out, role, v, vr);
    assert ExtsMean(out.extensions, mine, v.extensions);
    grown := young + Maybe(out.instructions) + Maybe(out.sops) + Maybe(out.hooks);
  }

  lemma InheritKeeps(vr: Definition, v: Definition)
    ensures InheritFields(vr, v).extensions == v.extensions && InheritFields(vr, v).hooks == v.hooks
  {
  }

  method ExtensionsBuilt(out: Def, inherited: Extensions, ghost mine: Ranks, ghost v: Definition, lib: Library,
                         ghost young: set<object>)
    returns (ok: bool, ghost more: Ranks, ghost grown: set<object>)
    requires Built(out, mine, v) && Footprint(out) <= young
    modifies young
    ensures ok <==> TakenFine(inherited, v.extensions, inherited.Keys, lib)
    ensures ok ==> Footprint(out) <= grown && fresh(grown - young) && fresh(more.Keys - mine.Keys)
    ensures ok ==> Built(out, more, v.(extensions := Current(inherited, v.extensions, inherited.Keys, lib)))
  {
    hide TakenFine, Current, ExtsMean, FieldsStand;
    ok, more := ExtensionsBeside(inherited, out, mine, v, lib);
    FieldsApart(out, v, Current(inherited, v.extensions, inherited.Keys, lib));
    grown := young + Maybe(out.extensions) + DatasIn(out.extensions);
  }

  lemma FieldsApart(d: Def, v: Definition, extensions: Option<Extensions>)
    ensures FieldsStand(d, v) ==> FieldsStand(d, v.(extensions := extensions))
  {
  }

  /** Taking extensions leaves the other fields alone. */
  method ExtensionsBeside(inherited: Extensions, out: Def, ghost mine: Ranks, ghost v: Definition, lib: Library)
    returns (ok: bool, ghost more: Ranks)
    requires FieldsStand(out, v) && ExtsMean(out.extensions, mine, v.extensions)
    modifies out`extensions, out.extensions, DatasIn(out.extensions)
    ensures ok <==> TakenFine(inherited, v.extensions, inherited.Keys, lib)
    ensures ok ==> fresh(more.Keys - mine.Keys)
    ensures fresh(Maybe(out.extensions) + DatasIn(out.extensions)
                  - old(Maybe(out.extensions) + DatasIn(out.extensions)))
    ensures out.instructions == old(out.instructions) && out.sops == old(out.sops) && out.hooks == old(out.hooks)
    ensures FieldsStand(out, v)
    ensures ok ==> ExtsMean(out.extensions, more, Current(inherited, v.extensions, inherited.Keys, lib))
  {
    hide TakenFine, Current, ExtsMean;
    ok, more := ExtensionsInto(inherited, out, mine, v.extensions, lib);
  }

  /** The role's part: fields, hooks check, extensions. */
  method MergeInto(out: Def, role: Def, rv: Definition, ghost mine: Ranks, ghost v: Definition, lib: Library,
                   ghost young: set<object>)
    returns (ok: bool, ghost more: Ranks, ghost grown: set<object>)
    requires out != role && FieldsStand(role, rv) && Built(out, mine, v) && lib.validate(rv) && Footprint(out) <= young
    modifies young
    ensures ok <==> Merged(rv, v, lib).Some?
    ensures ok ==> Footprint(out) <= grown && fresh(grown - young) && fresh(more.Keys - mine.Keys)
    ensures ok ==> Built(out, more, Merged(rv, v, lib).value)
  {
    hide ExtsMean, FlattenedExtensions, TakenFine, Current, FieldsStand, Footprint, Built;
    RootIn(out);
    more := mine;
    grown := InheritBuilt(out, role, mine, v, rv, young);
    ghost var w := InheritFields(rv, v);
    HooksStand(out, mine, w);
    if rv.hooks.Some? && rv.hooks.value != [] && out.hooks == null {
      return false, mine, grown;
    }
    AllTaken(rv, w, lib);
    ghost var after: set<object>;
    ok, more, after := ExtensionsBuilt(out, Entries(rv), mine, w, lib, grown);
    grown := grown + after;
  }

  lemma RootIn(d: Def)
    ensures d in Footprint(d)
  {
  }

  lemma HooksStand(d: Def, mine: Ranks, v: Definition)
    requires Built(d, mine, v)
    ensures d.hooks == null <==> v.hooks.None?
  {
  }

  ghost function Target(role: Option<Definition>, concrete: Definition, lib: Library): Option<Definition> {
    if role.None? then Some(concrete) else Merged(role.value, concrete, lib)
  }

  /** Copy, then merge the role in. */
  method CopyThenMerge(role: Def, rv: Definition, concrete: Def, lib: Library, ghost rc: Ranks, ghost vc: Definition)
    returns (ok: bool, out: Def, ghost mine: Ranks)
    requires FieldsStand(role, rv) && lib.validate(rv) && Means(concrete, rc, vc)
    ensures ok <==> AllCopyable(vc) && Merged(rv, vc, lib).Some?
    ensures ok ==> fresh(Footprint(out)) && fresh(mine.Keys) && Built(out, mine, Merged(rv, vc, lib).value)
  {
    hide Merged, AllCopyable, ExtsStand, Separate, Entries, Footprint, FieldsStand;
    ok, out, mine := CopyDef(concrete, rc, vc);
    if ok {
      RootIn(out);
      ghost var young, grown := Footprint(out), Footprint(out);
      ok, mine, grown := MergeInto(out, role, rv, mine, vc, lib, young);
    }
  }

  method Build(role: Def?, rv: Option<Definition>, concrete: Def, lib: Library, ghost rc: Ranks, ghost vc: Definition)
    returns (ok: bool, out: Def, ghost mine: Ranks)
    requires role == null <==> rv.None?
    requires role != null ==> FieldsStand(role, rv.value) && lib.validate(rv.value)
    requires Means(concrete, rc, vc)
    ensures ok <==> AllCopyable(vc) && Target(rv, vc, lib).Some?
    ensures ok ==> fresh(Footprint(out)) && fresh(mine.Keys) && Built(out, mine, Target(rv, vc, lib).value)
  {
    hide Merged, AllCopyable, ExtsStand, Separate, FieldsStand;
    if role == null {
      ok, out, mine := CopyDef(concrete, rc, vc);
    } else {
      ok, out, mine := CopyThenMerge(role, rv.value, concrete, lib, rc, vc);
    }
  }

  lemma BuiltMeans(d: Def, mine: Ranks, v: Definition)
    requires Built(d, mine, v)
    ensures Means(d, mine, v)
  {
  }

  /** The validator and the pin check on the finished object. */
  method Seal(d: Def, ghost ranks: Ranks, ghost v: Definition, lib: Library) returns (ok: bool)
    requires Means(d, ranks, v)
    ensures ok <==> Sealed(v, lib)
  {
    hide Means, Pins, Consistent, ReflexDecodes;
    var value := ReadDef(d, ranks, v);
    if !lib.validate(value) {
      return false;
    }
    ok := CheckPins(value, lib);
  }

  method ReadRole(role: Def?, ghost rr: Ranks, ghost vr: Option<Definition>) returns (rv: Option<Definition>)
    requires (role == null <==> vr.None?) && (role != null ==> Means(role, rr, vr.value))
    ensures rv == vr && (role != null ==> FieldsStand(role, vr.value))
  {
    if role == null {
      return None;
    }
    var read := ReadDef(role, rr, vr.value);
    rv := Some(read);
  }

  /** The role read and validated, then the result built. */
  method Construct(role: Def?, concrete: Def, lib: Library,
                   ghost rr: Ranks, ghost rc: Ranks, ghost vr: Option<Definition>, ghost vc: Definition)
    returns (ok: bool, out: Def, ghost mine: Ranks)
    requires (role == null <==> vr.None?) && (role != null ==> Means(role, rr, vr.value)) && Means(concrete, rc, vc)
    ensures ok <==> AllCopyable(vc) && Target(vr, vc, lib).Some?
    ensures ok ==> fresh(Footprint(out)) && fresh(mine.Keys) && Built(out, mine, Target(vr, vc, lib).value)
  {
    hide Merged, AllCopyable, ExtValue, DataFits, Closed, Separate, FieldsStand;
    var rv := ReadRole(role, rr, vr);
    if rv.Some? && !lib.validate(rv.value) {
      RefusedRole(rv.value, vc, lib);
      return false, concrete, map[];
    }
    ok, out, mine := Build(role, rv, concrete, lib, rc, vc);
  }

  /** `Flatten` as it builds its result.  Nothing that was there before is changed: the method
      modifies nothing.  The result and all its cells are new, so neither input can be reached
      from it, and its value is that of flattening the values. */
  method FlattenObjects(role: Def?, concrete: Def?, lib: Library,
                        ghost rr: Ranks, ghost rc: Ranks, ghost vr: Option<Definition>, ghost vc: Definition)
    returns (out: Def?, ghost mine: Ranks)
    requires role == null <==> vr.None?
    requires role != null ==> Means(role, rr, vr.value)
    requires concrete != null ==> Means(concrete, rc, vc)
    ensures out != null <==> concrete != null && AllCopyable(vc) && Flattened(vr, vc, lib).Some?
    ensures out != null ==> fresh(Footprint(out)) && fresh(mine.Keys) && Means(out, mine, Flattened(vr, vc, lib).value)
    ensures out != null ==> lib.validate(Flattened(vr, vc, lib).value) && OneDigest(Flattened(vr, vc, lib).value, lib)
    ensures out != null && vr.None? ==> Flattened(vr, vc, lib) == Some(vc)
    ensures out != null && vr.Some? ==> Extends(vr.value, vc, Flattened(vr, vc, lib).value, lib)
  {
    if Flattened(vr, vc, lib).Some? { FlattenedMeans(vr, vc, lib); }
    hide Extends, OneDigest;
    hide Merged, AllCopyable, Sealed, Stand, Closed, Separate, FieldsStand;
    out, mine := null, map[];
    if concrete == null {
      return;
    }
    var ok, copy;
    ok, copy, mine := Construct(role, concrete, lib, rr, rc, vr, vc);
    if ok {
      BuiltMeans(copy, mine, Target(vr, vc, lib).value);
      ok := SealFinished(copy, mine, Target(vr, vc, lib).value, lib);
      if ok {
        out := copy;
      }
    }
  }

  lemma FlattenedMeans(role: Option<Definition>, concrete: Definition, lib: Library)
    requires Flattened(role, concrete, lib).Some?
    ensures var v := Flattened(role, concrete, lib).value;
            && lib.validate(v) && OneDigest(v, lib)
            && (role.None? ==> v == concrete) && (role.Some? ==> Extends(role.value, concrete, v, lib))
  {
    hide Merged, Extends, OneDigest, Pins, ReflexDecodes, Consistent;
    if role.Some? { FlattenExtends(role.value, concrete, lib); }
    ConsistentIs(Flattened(role, concrete, lib).value, lib);
  }

  method SealFinished(d: Def, ghost ranks: Ranks, ghost v: Definition, lib: Library) returns (ok: bool)
    requires Means(d, ranks, v)
    ensures ok <==> Sealed(v, lib)
    ensures Means(d, ranks, v)
  {
    hide ExtValue, DataFits, Closed, FieldsStand, Sealed;
    ok := Seal(d, ranks, v, lib);
  }

  lemma RefusedRole(role: Definition, concrete: Definition, lib: Library)
    requires !lib.validate(role)
    ensures Merged(role, concrete, lib).None?
  {
  }
}
