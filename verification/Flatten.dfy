/**
 Flattening an authored role into a concrete agent definition.

 Definitions are values here; a nil list or map and an empty one are told apart.  The
 definition validator and the two extension decoders are the shared library's and come in
 as functions.
 */
module Flatten {
  import opened Common
  import opened OwnedCopy

  datatype Ref = Ref(uri: string, digest: string)

  type Data = map<string, Tree>

  datatype Extension = Extension(version: string, area: string, mandatory: bool, data: Option<Data>)

  type Extensions = map<string, Extension>

  /** A value as the pin walk sees it: references, and the kinds it descends into. */
  datatype Shape =
    | Pin(ref: Ref)
    | Struct(fields: seq<Shape>)
    | Slice(items: seq<Shape>)
    | Indirect(target: Option<Shape>)
    | Plain

  /** `others` are the fields no step below looks at. */
  datatype Definition = Definition(
    identity: string,
    purpose: string,
    body: string,
    completion: string,
    instructions: Option<seq<Ref>>,
    sops: Option<seq<Ref>>,
    hooks: Option<seq<string>>,
    others: Shape,
    extensions: Option<Extensions>)

  const NATIVE := "com.hollislabs.nanite/native-policy"
  const REFLEX := "com.hollislabs.nanite/reflex-policy"
  const VERSION := "1"
  const CLASS := "class"

  datatype Library = Library(
    validate: Definition -> bool,
    decodeNative: Extension -> Option<string>,
    decodeReflex: Extension -> Option<Ref>)

  function Entries(d: Definition): Extensions {
    if d.extensions.Some? then d.extensions.value else map[]
  }

  function DataOf(e: Option<Extension>): Data {
    if e.Some? && e.value.data.Some? then e.value.data.value else map[]
  }

  function Entry(d: Definition, namespace: string): Option<Extension> {
    if namespace in Entries(d) then Some(Entries(d)[namespace]) else None
  }

  /** The validator decodes a negotiated native policy itself. */
  ghost predicate Authoritative(lib: Library) {
    forall d: Definition | lib.validate(d) && NATIVE in Entries(d) && Entries(d)[NATIVE].version == VERSION ::
      lib.decodeNative(Entries(d)[NATIVE]).Some?
  }

  /** The native decoder takes only the version this release negotiates. */
  ghost predicate Versioned(lib: Library) {
    forall e: Extension | lib.decodeNative(e).Some? :: e.version == VERSION
  }

  // ----- Extensions -----

  /** What a mandatory role policy demands of the concrete one. */
  predicate Represented(inherited: Extension, own: Option<Extension>, lib: Library) {
    && (own.Some? ==> lib.decodeNative(own.value).Some?)
    && forall key | key in DataOf(Some(inherited)) :: key == CLASS || key in DataOf(own)
  }

  predicate InheritsClass(inherited: Extension, own: Option<Extension>) {
    CLASS in DataOf(Some(inherited)) && CLASS !in DataOf(own)
  }

  /** The concrete entry with the role's class put in. */
  function WithClass(inherited: Extension, own: Option<Extension>, lib: Library): Option<Extension> {
    if own.Some? && lib.decodeNative(own.value).None? then None
    else
      var e := if own.Some? then own.value
          else Extension(inherited.version, inherited.area, inherited.mandatory, Some(map[]));
      var name := lib.decodeNative(inherited);
      if e.data.None? || name.None? then None
      else Some(e.(data := Some(e.data.value[CLASS := TLeaf(name.value)])))
  }

  /** The native namespace: an error, or the entry to have afterwards. */
  function NativeStep(inherited: Extension, own: Option<Extension>, lib: Library): Result<Option<Extension>, ()> {
    if inherited.version != VERSION then Ok(own)
    else if lib.decodeNative(inherited).None? then Err(())
    else if inherited.mandatory && !Represented(inherited, own, lib) then Err(())
    else if InheritsClass(inherited, own) then
      var e := WithClass(inherited, own, lib);
      if e.None? then Err(()) else Ok(e)
    else if inherited.mandatory && own.None? then Err(())
    else Ok(own)
  }

  /** Every other namespace is checked and never changed. */
  predicate OtherFine(namespace: string, inherited: Extension, own: Option<Extension>, lib: Library) {
    inherited.mandatory ==> own.Some? && (namespace == REFLEX ==> lib.decodeReflex(own.value).Some?)
  }

  function PutNative(d: Definition, e: Option<Extension>): Definition {
    if e == Entry(d, NATIVE) || e.None? then d
    else d.(extensions := Some(Entries(d)[NATIVE := e.value]))
  }

  ghost function FlattenedExtensions(role: Definition, out: Definition, lib: Library): Option<Definition> {
    if exists ns :: ns in Entries(role) && ns != NATIVE && !OtherFine(ns, Entries(role)[ns], Entry(out, ns), lib)
        then None
    else if NATIVE !in Entries(role) then Some(out)
    else
      match NativeStep(Entries(role)[NATIVE], Entry(out, NATIVE), lib)
      case Err(_) => None
      case Ok(e) => Some(PutNative(out, e))
  }

  /** `flattenExtensions`: one namespace of the role at a time, in any order. */
  method FlattenExtensions(role: Definition, concrete: Definition, lib: Library) returns (r: Option<Definition>)
    ensures r == FlattenedExtensions(role, concrete, lib)
  {
    hide NativeStep, OtherFine;
    var out := concrete;
    var left := Entries(role).Keys;
    ghost var done: set<string> := {};
    while left != {}
      invariant left !! done && left + done == Entries(role).Keys
      invariant forall ns | ns in done && ns != NATIVE :: OtherFine(ns, Entries(role)[ns], Entry(concrete, ns), lib)
      invariant NATIVE in done ==> NativeStep(Entries(role)[NATIVE], Entry(concrete, NATIVE), lib).Ok?
      invariant out == if NATIVE in done
          then PutNative(concrete, NativeStep(Entries(role)[NATIVE], Entry(concrete, NATIVE), lib).value)
                       else concrete
      decreases left
    {
      var ns :| ns in left;
      var inherited := Entries(role)[ns];
      if ns == NATIVE {
        var e := NativeStep(inherited, Entry(out, NATIVE), lib);
        if e.Err? {
          return None;
        }
        out := PutNative(out, e.value);
      } else {
        assert Entry(out, ns) == Entry(concrete, ns);
        if !OtherFine(ns, inherited, Entry(out, ns), lib) {
          return None;
        }
      }
      left := left - {ns};
      done := done + {ns};
    }
    return Some(out);
  }

  // ----- Pins -----

  function PinsIn(v: Shape): seq<Ref>
    decreases v, 1
  {
    match v
    case Pin(ref) => [ref]
    case Struct(fields) => PinsUpTo(v, fields, |fields|)
    case Slice(items) => PinsUpTo(v, items, |items|)
    case Indirect(target) => if target.Some? then PinsIn(target.value) else []
    case Plain => []
  }

  predicate PartsOf(v: Shape, parts: seq<Shape>) {
    (v.Struct? && parts == v.fields) || (v.Slice? && parts == v.items)
  }

  /** The pins in the first `n` parts of `v`. */
  function PinsUpTo(v: Shape, parts: seq<Shape>, n: nat): seq<Ref>
    requires n <= |parts| && PartsOf(v, parts)
    decreases v, 0, n
  {
    if n == 0 then [] else PinsUpTo(v, parts, n - 1) + PinsIn(parts[n - 1])
  }

  function RefSlice(refs: Option<seq<Ref>>): Shape {
    if refs.None? then Slice([]) else Slice(seq(|refs.value|, i requires 0 <= i < |refs.value| => Pin(refs.value[i])))
  }

  function ShapeOf(d: Definition): Shape {
    Struct([RefSlice(d.instructions), RefSlice(d.sops), d.others])
  }

  /** Every reference the definition pins, the negotiated reflex bundle last. */
  function Pins(d: Definition, lib: Library): seq<Ref> {
    PinsIn(ShapeOf(d))
    + if Entry(d, REFLEX).Some? && lib.decodeReflex(Entry(d, REFLEX).value).Some?
      then [lib.decodeReflex(Entry(d, REFLEX).value).value] else []
  }

  /** A URI asks for one artifact only. */
  ghost predicate Consistent(pins: seq<Ref>) {
    forall i, j | 0 <= i < j < |pins| && pins[i].uri == pins[j].uri :: pins[i].digest == pins[j].digest
  }

  predicate ReflexDecodes(d: Definition, lib: Library) {
    Entry(d, REFLEX).Some? ==> lib.decodeReflex(Entry(d, REFLEX).value).Some?
  }

  /** The reference stands somewhere in the value. */
  ghost predicate Occurs(ref: Ref, v: Shape) {
    match v
    case Pin(own) => own == ref
    case Struct(fields) => exists f <- fields :: Occurs(ref, f)
    case Slice(items) => exists item <- items :: Occurs(ref, item)
    case Indirect(target) => target.Some? && Occurs(ref, target.value)
    case Plain => false
  }

  /** The definition pins the reference: among its instructions or procedures, anywhere in its
      other fields, or as the bundle of its reflex policy. */
  ghost predicate Pinned(ref: Ref, d: Definition, lib: Library) {
    || (d.instructions.Some? && ref in d.instructions.value)
    || (d.sops.Some? && ref in d.sops.value)
    || Occurs(ref, d.others)
    || (Entry(d, REFLEX).Some? && lib.decodeReflex(Entry(d, REFLEX).value) == Some(ref))
  }

  /** No URI is pinned to two digests. */
  ghost predicate OneDigest(d: Definition, lib: Library) {
    forall a, b | Pinned(a, d, lib) && Pinned(b, d, lib) && a.uri == b.uri :: a.digest == b.digest
  }

  lemma {:induction false} PinsOccur(ref: Ref, v: Shape)
    ensures ref in PinsIn(v) <==> Occurs(ref, v)
    decreases v, 1
  {
    match v
    case Pin(own) =>
    case Struct(fields) => PartsOccur(ref, v, fields, |fields|);
    case Slice(items) => PartsOccur(ref, v, items, |items|);
    case Indirect(target) => if target.Some? { PinsOccur(ref, target.value); }
    case Plain =>
  }

  lemma {:induction false} PartsOccur(ref: Ref, v: Shape, parts: seq<Shape>, n: nat)
    requires n <= |parts| && PartsOf(v, parts)
    ensures ref in PinsUpTo(v, parts, n) <==> exists k :: 0 <= k < n && Occurs(ref, parts[k])
    decreases v, 0, n
  {
    hide Occurs;
    if n > 0 {
      PartsOccur(ref, v, parts, n - 1);
      PinsOccur(ref, parts[n - 1]);
    }
  }

  lemma RefsOccur(ref: Ref, refs: Option<seq<Ref>>)
    ensures Occurs(ref, RefSlice(refs)) <==> refs.Some? && ref in refs.value
  {
    var items := RefSlice(refs).items;
    if refs.Some? {
      if k :| 0 <= k < |refs.value| && refs.value[k] == ref { assert items[k] == Pin(ref) && items[k] in items; }
    }
  }

  lemma PinsExactly(ref: Ref, d: Definition, lib: Library)
    ensures ref in Pins(d, lib) <==> Pinned(ref, d, lib)
  {
    hide PinsIn, RefSlice;
    PinsOccur(ref, ShapeOf(d));
    RefsOccur(ref, d.instructions);
    RefsOccur(ref, d.sops);
    var fields := ShapeOf(d).fields;
    assert fields[0] in fields && fields[1] in fields && fields[2] in fields;
  }

  lemma ConsistentIs(d: Definition, lib: Library)
    ensures Consistent(Pins(d, lib)) <==> OneDigest(d, lib)
  {
    hide Pins, Pinned;
    var pins := Pins(d, lib);
    forall ref ensures ref in pins <==> Pinned(ref, d, lib) { PinsExactly(ref, d, lib); }
    if Consistent(pins) {
      forall a, b | Pinned(a, d, lib) && Pinned(b, d, lib) && a.uri == b.uri ensures a.digest == b.digest {
        var i, j :| 0 <= i < |pins| && 0 <= j < |pins| && pins[i] == a && pins[j] == b;
        if i < j { assert pins[i].uri == pins[j].uri; } else if j < i { assert pins[j].uri == pins[i].uri; }
      }
    }
    if OneDigest(d, lib) {
      forall i, j | 0 <= i < j < |pins| && pins[i].uri == pins[j].uri ensures pins[i].digest == pins[j].digest {
        assert pins[i] in pins && pins[j] in pins;
      }
    }
  }

  /** `seen` holds exactly the digests of `done`. */
  ghost predicate Recorded(seen: map<string, string>, done: seq<Ref>) {
    && (forall k | 0 <= k < |done| :: done[k].uri in seen && seen[done[k].uri] == done[k].digest)
    && (forall uri | uri in seen :: exists k :: 0 <= k < |done| && done[k].uri == uri)
  }

  lemma RecordedConsistent(seen: map<string, string>, done: seq<Ref>)
    requires Recorded(seen, done)
    ensures Consistent(done)
  {
  }

  lemma InconsistentMore(done: seq<Ref>, more: seq<Ref>)
    requires !Consistent(done)
    ensures !Consistent(done + more)
  {
    var i, j :| 0 <= i < j < |done| && done[i].uri == done[j].uri && done[i].digest != done[j].digest;
    assert (done + more)[i] == done[i] && (done + more)[j] == done[j];
  }

  /** One reference against what was seen. */
  method CheckPin(ref: Ref, seen: map<string, string>, ghost done: seq<Ref>)
    returns (ok: bool, after: map<string, string>)
    requires Recorded(seen, done)
    ensures ok ==> Recorded(after, done + [ref])
    ensures !ok ==> !Consistent(done + [ref])
  {
    ghost var all := done + [ref];
    if ref.uri in seen && seen[ref.uri] != ref.digest {
      ghost var k :| 0 <= k < |done| && done[k].uri == ref.uri;
      assert all[k] == done[k] && all[|done|] == ref;
      return false, seen;
    }
    after := seen[ref.uri := ref.digest];
    forall uri | uri in after ensures exists k :: 0 <= k < |all| && all[k].uri == uri {
      if uri == ref.uri {
        assert all[|done|].uri == uri;
      } else {
        var k :| 0 <= k < |done| && done[k].uri == uri;
        assert all[k].uri == uri;
      }
    }
    return true, after;
  }

  /** The walk over one value, with the map of digests seen so far. */
  method Walk(v: Shape, seen: map<string, string>, ghost done: seq<Ref>) returns (ok: bool, after: map<string, string>)
    requires Recorded(seen, done)
    ensures ok ==> Recorded(after, done + PinsIn(v))
    ensures !ok ==> !Consistent(done + PinsIn(v))
    decreases v, 1
  {
    hide Recorded, Consistent;
    match v
    case Pin(ref) => ok, after := CheckPin(ref, seen, done);
    case Struct(fields) => ok, after := WalkParts(v, fields, seen, done);
    case Slice(items) => ok, after := WalkParts(v, items, seen, done);
    case Indirect(target) =>
      if target.Some? {
        ok, after := Walk(target.value, seen, done);
      } else {
        assert done + [] == done;
        ok, after := true, seen;
      }
    case Plain =>
      assert done + [] == done;
      ok, after := true, seen;
  }

  method WalkParts(v: Shape, parts: seq<Shape>, seen: map<string, string>, ghost done: seq<Ref>)
    returns (ok: bool, after: map<string, string>)
    requires Recorded(seen, done) && PartsOf(v, parts)
    ensures ok ==> Recorded(after, done + PinsIn(v))
    ensures !ok ==> !Consistent(done + PinsIn(v))
    decreases v, 0
  {
    hide Recorded, Consistent;
    after := seen;
    assert done + PinsUpTo(v, parts, 0) == done;
    for n := 0 to |parts|
      invariant Recorded(after, done + PinsUpTo(v, parts, n))
    {
      ghost var before := done + PinsUpTo(v, parts, n);
      ok, after := Walk(parts[n], after, before);
      assert before + PinsIn(parts[n]) == done + PinsUpTo(v, parts, n + 1);
      if !ok {
        NeverRepaired(v, parts, n + 1, done);
        return;
      }
    }
    ok := true;
  }

  lemma {:induction false} NeverRepaired(v: Shape, parts: seq<Shape>, n: nat, done: seq<Ref>)
    requires n <= |parts| && PartsOf(v, parts)
    requires !Consistent(done + PinsUpTo(v, parts, n))
    ensures !Consistent(done + PinsUpTo(v, parts, |parts|))
    decreases |parts| - n
  {
    hide Consistent;
    if n < |parts| {
      var before := done + PinsUpTo(v, parts, n);
      InconsistentMore(before, PinsIn(parts[n]));
      assert before + PinsIn(parts[n]) == done + PinsUpTo(v, parts, n + 1);
      NeverRepaired(v, parts, n + 1, done);
    }
  }

  /** `checkPins`: the walk over the definition, then the reflex pin. */
  method CheckPins(d: Definition, lib: Library) returns (ok: bool)
    ensures ok <==> ReflexDecodes(d, lib) && Consistent(Pins(d, lib))
    ensures ok <==> ReflexDecodes(d, lib) && OneDigest(d, lib)
  {
    ConsistentIs(d, lib);
    hide OneDigest;
    hide Recorded, Consistent, PinsIn;
    NothingRecorded();
    var walked, seen := Walk(ShapeOf(d), map[], []);
    ghost var pins := PinsIn(ShapeOf(d));
    assert [] + pins == pins;
    if !walked {
      InconsistentMore(pins, Pins(d, lib)[|pins|..]);
      assert pins + Pins(d, lib)[|pins|..] == Pins(d, lib);
      return false;
    }
    var extension := Entry(d, REFLEX);
    if extension.None? {
      assert Pins(d, lib) == pins;
      RecordedConsistent(seen, pins);
      return true;
    }
    var bundle := lib.decodeReflex(extension.value);
    if bundle.None? {
      return false;
    }
    var last, after := CheckPin(bundle.value, seen, pins);
    if last { RecordedConsistent(after, pins + [bundle.value]); }
    return last;
  }

  lemma NothingRecorded()
    ensures Recorded(map[], [])
  {
  }

  // ----- Flattening -----

  function InheritFields(role: Definition, d: Definition): Definition {
    d.(purpose := if d.purpose == "" then role.purpose else d.purpose,
       body := if d.body == "" then role.body else d.body,
       completion := if d.completion == "" then role.completion else d.completion,
       instructions := if d.instructions.None? then role.instructions else d.instructions,
       sops := if d.sops.None? then role.sops else d.sops)
  }

  predicate HooksMissing(role: Definition, d: Definition) {
    role.hooks.Some? && role.hooks.value != [] && d.hooks.None?
  }

  ghost predicate Sealed(d: Definition, lib: Library) {
    lib.validate(d) && ReflexDecodes(d, lib) && Consistent(Pins(d, lib))
  }

  ghost function Merged(role: Definition, concrete: Definition, lib: Library): Option<Definition> {
    if !lib.validate(role) || HooksMissing(role, concrete) then None
    else FlattenedExtensions(role, InheritFields(role, concrete), lib)
  }

  ghost function Flattened(role: Option<Definition>, concrete: Definition, lib: Library): Option<Definition> {
    var out := if role.None? then Some(concrete) else Merged(role.value, concrete, lib);
    if out.Some? && Sealed(out.value, lib) then out else None
  }

  // ----- What flattening keeps and what it adds -----

  /** Nothing set is overridden, nothing but the five fields and the native class is inherited. */
  ghost predicate Extends(role: Definition, concrete: Definition, out: Definition, lib: Library) {
    && out.identity == concrete.identity && out.hooks == concrete.hooks && out.others == concrete.others
    && out.purpose == (if concrete.purpose != "" then concrete.purpose else role.purpose)
    && out.body == (if concrete.body != "" then concrete.body else role.body)
    && out.completion == (if concrete.completion != "" then concrete.completion else role.completion)
    && out.instructions == (if concrete.instructions.Some? then concrete.instructions else role.instructions)
    && out.sops == (if concrete.sops.Some? then concrete.sops else role.sops)
    && (forall ns | ns != NATIVE :: Entry(out, ns) == Entry(concrete, ns))
    && (Entry(out, NATIVE) == Entry(concrete, NATIVE) ==> out.extensions == concrete.extensions)
    && NativeExtends(Entry(concrete, NATIVE), Entry(out, NATIVE), Entry(role, NATIVE), lib)
  }

  /** The role has a negotiated native policy that names a class, and the concrete one has no class. */
  ghost predicate ClassInherited(own: Option<Extension>, inherited: Option<Extension>) {
    inherited.Some? && inherited.value.version == VERSION && CLASS in DataOf(inherited) && CLASS !in DataOf(own)
  }

  /** The native entry is the same, but for the class that the decoder finds in the role's when
      the concrete one has none; an entry made for it has the role's header and no other setting. */
  ghost predicate NativeExtends(own: Option<Extension>, out: Option<Extension>, inherited: Option<Extension>,
                                lib: Library)
  {
    if !ClassInherited(own, inherited) then out == own
    else
      var header := if own.Some? then own.value else inherited.value;
      && lib.decodeNative(inherited.value).Some? && out.Some? && out.value.data.Some?
      && DataOf(out) == DataOf(own)[CLASS := TLeaf(lib.decodeNative(inherited.value).value)]
      && out.value.version == header.version && out.value.area == header.area
      && out.value.mandatory == header.mandatory
  }

  lemma NativeStepExtends(inherited: Extension, own: Option<Extension>, lib: Library)
    requires NativeStep(inherited, own, lib).Ok?
    ensures NativeExtends(own, NativeStep(inherited, own, lib).value, Some(inherited), lib)
    ensures own.Some? ==> NativeStep(inherited, own, lib).value.Some?
  {
  }

  lemma PutNativeIs(d: Definition, e: Option<Extension>, ns: string)
    requires Entry(d, NATIVE).Some? ==> e.Some?
    ensures Entry(PutNative(d, e), NATIVE) == e
    ensures ns != NATIVE ==> Entry(PutNative(d, e), ns) == Entry(d, ns)
    ensures e == Entry(d, NATIVE) ==> PutNative(d, e) == d
    ensures PutNative(d, e) == d.(extensions := PutNative(d, e).extensions)
  {
  }

  lemma FlattenExtends(role: Definition, concrete: Definition, lib: Library)
    requires Flattened(Some(role), concrete, lib).Some?
    ensures Extends(role, concrete, Flattened(Some(role), concrete, lib).value, lib)
  {
    hide Merged, Extends, Sealed;
    MergedExtends(role, concrete, lib);
  }

  lemma MergedExtends(role: Definition, concrete: Definition, lib: Library)
    requires Merged(role, concrete, lib).Some?
    ensures Extends(role, concrete, Merged(role, concrete, lib).value, lib)
  {
    hide NativeStep, NativeExtends, PutNative;
    var d := InheritFields(role, concrete);
    var out := Merged(role, concrete, lib).value;
    assert Entries(d) == Entries(concrete);
    if NATIVE in Entries(role) {
      NativeStepExtends(Entries(role)[NATIVE], Entry(d, NATIVE), lib);
      forall ns ensures ns != NATIVE ==> Entry(out, ns) == Entry(concrete, ns) {
        PutNativeIs(d, NativeStep(Entries(role)[NATIVE], Entry(d, NATIVE), lib).value, ns);
      }
      PutNativeIs(d, NativeStep(Entries(role)[NATIVE], Entry(d, NATIVE), lib).value, NATIVE);
    } else {
      SameNative(Entry(concrete, NATIVE), lib);
    }
  }

  lemma SameNative(own: Option<Extension>, lib: Library)
    ensures NativeExtends(own, own, None, lib)
  {
  }

  // ----- When flattening succeeds, and with what -----

  /** What a negotiated native policy of the role asks of the concrete entry: it is decoded when
      it must stand in for a mandatory one or take the class, and a mandatory policy has every
      setting but the class made again and is not left without an entry. */
  ghost predicate NativeCompatible(inherited: Extension, own: Option<Extension>, lib: Library) {
    var takes := ClassInherited(own, Some(inherited));
    && lib.decodeNative(inherited).Some?
    && (own.Some? && (takes || inherited.mandatory) ==> lib.decodeNative(own.value).Some?)
    && (own.Some? && takes ==> own.value.data.Some?)
    && (inherited.mandatory ==>
          && (own.Some? || takes)
          && forall key | key in DataOf(Some(inherited)) && key != CLASS :: key in DataOf(own))
  }

  /** What a role asks of a concrete definition: its own hooks when the role has some, an entry
      of its own for everything mandatory, the reflex policy one that decodes. */
  ghost predicate Compatible(role: Definition, concrete: Definition, lib: Library) {
    && (role.hooks.Some? && role.hooks.value != [] ==> concrete.hooks.Some?)
    && (forall ns | ns in Entries(role) && ns != NATIVE && Entries(role)[ns].mandatory ::
          && Entry(concrete, ns).Some?
          && (ns == REFLEX ==> lib.decodeReflex(Entry(concrete, ns).value).Some?))
    && (NATIVE in Entries(role) && Entries(role)[NATIVE].version == VERSION ==>
          NativeCompatible(Entries(role)[NATIVE], Entry(concrete, NATIVE), lib))
  }

  lemma NativeExactly(inherited: Extension, own: Option<Extension>, lib: Library)
    requires inherited.version == VERSION
    ensures NativeStep(inherited, own, lib).Ok? <==> NativeCompatible(inherited, own, lib)
  {
  }

  lemma MergedExactly(role: Definition, concrete: Definition, lib: Library)
    ensures Merged(role, concrete, lib).Some? <==> lib.validate(role) && Compatible(role, concrete, lib)
  {
    hide NativeStep, NativeCompatible, PutNative;
    var d := InheritFields(role, concrete);
    assert Entries(d) == Entries(concrete);
    if NATIVE in Entries(role) {
      var inherited := Entries(role)[NATIVE];
      if inherited.version == VERSION {
        NativeExactly(inherited, Entry(d, NATIVE), lib);
      } else {
        Unnegotiated(inherited, Entry(d, NATIVE), lib);
      }
    }
    forall ns | ns in Entries(role) && ns != NATIVE
      ensures OtherFine(ns, Entries(role)[ns], Entry(d, ns), lib) <==> Entries(role)[ns].mandatory ==>
        Entry(concrete, ns).Some? && (ns == REFLEX ==> lib.decodeReflex(Entry(concrete, ns).value).Some?) {}
  }

  lemma Unnegotiated(inherited: Extension, own: Option<Extension>, lib: Library)
    requires inherited.version != VERSION
    ensures NativeStep(inherited, own, lib) == Ok(own)
  {
  }

  lemma EntriesFix(a: Definition, b: Definition)
    requires forall ns :: Entry(a, ns) == Entry(b, ns)
    ensures Entries(a) == Entries(b)
  {
    forall ns ensures ns in Entries(a) <==> ns in Entries(b) {
      assert Entry(a, ns) == Entry(b, ns);
    }
    forall ns | ns in Entries(a) ensures Entries(a)[ns] == Entries(b)[ns] {
      assert Entry(a, ns) == Entry(b, ns);
    }
  }

  lemma NativeFixed(own: Option<Extension>, a: Option<Extension>, b: Option<Extension>, inherited: Option<Extension>,
                    lib: Library)
    requires NativeExtends(own, a, inherited, lib) && NativeExtends(own, b, inherited, lib)
    ensures a == b && (a != own ==> a.Some?)
  {
  }

  /** That it extends the concrete definition from the role fixes the result. */
  lemma ExtendsFixes(role: Definition, concrete: Definition, a: Definition, b: Definition, lib: Library)
    requires Extends(role, concrete, a, lib) && Extends(role, concrete, b, lib)
    ensures a == b
  {
    hide NativeExtends;
    NativeFixed(Entry(concrete, NATIVE), Entry(a, NATIVE), Entry(b, NATIVE), Entry(role, NATIVE), lib);
    forall ns ensures Entry(a, ns) == Entry(b, ns) {
      if ns != NATIVE { assert Entry(a, ns) == Entry(concrete, ns) == Entry(b, ns); }
    }
    EntriesFix(a, b);
  }

  /** A definition is the result of flattening exactly when the role is valid and the concrete
      definition meets what it asks, the definition extends the concrete one from the role, and
      it is itself valid with consistent pins. */
  lemma FlattenExactly(role: Definition, concrete: Definition, out: Definition, lib: Library)
    ensures Flattened(Some(role), concrete, lib) == Some(out) <==>
            && lib.validate(role) && Compatible(role, concrete, lib) && Extends(role, concrete, out, lib)
            && lib.validate(out) && ReflexDecodes(out, lib) && OneDigest(out, lib)
  {
    ConsistentIs(out, lib);
    hide OneDigest, Compatible, Extends, Merged, ReflexDecodes, Consistent, Pins;
    MergedExactly(role, concrete, lib);
    if Merged(role, concrete, lib).Some? {
      MergedExtends(role, concrete, lib);
      if Extends(role, concrete, out, lib) {
        ExtendsFixes(role, concrete, out, Merged(role, concrete, lib).value, lib);
      }
    }
  }

  // ----- Idempotence -----

  lemma NativeStepAgain(inherited: Extension, own: Option<Extension>, lib: Library)
    requires Versioned(lib) && NativeStep(inherited, own, lib).Ok?
    requires var e := NativeStep(inherited, own, lib).value;
             e.Some? && e.value.version == VERSION ==> lib.decodeNative(e.value).Some?
    ensures NativeStep(inherited, NativeStep(inherited, own, lib).value, lib) == NativeStep(inherited, own, lib)
  {
    var e := NativeStep(inherited, own, lib).value;
    if e != own {
      assert CLASS in DataOf(e);
      assert forall key | key in DataOf(own) :: key in DataOf(e);
      assert e.value.version == VERSION;
    }
  }

  lemma ExtensionsAgain(role: Definition, d: Definition, lib: Library)
    requires Versioned(lib) && Authoritative(lib)
    requires FlattenedExtensions(role, d, lib).Some? && lib.validate(FlattenedExtensions(role, d, lib).value)
    ensures FlattenedExtensions(role, FlattenedExtensions(role, d, lib).value, lib) == FlattenedExtensions(role, d, lib)
  {
    hide NativeStep, Versioned, OtherFine, PutNative;
    var out := FlattenedExtensions(role, d, lib).value;
    if NATIVE in Entries(role) {
      var inherited, own := Entries(role)[NATIVE], Entry(d, NATIVE);
      var e := NativeStep(inherited, own, lib).value;
      NativeStepExtends(inherited, own, lib);
      forall ns ensures ns != NATIVE ==> Entry(out, ns) == Entry(d, ns) { PutNativeIs(d, e, ns); }
      PutNativeIs(d, e, NATIVE);
      NativeStepAgain(inherited, own, lib);
      PutSame(out, e);
    }
  }

  lemma PutSame(d: Definition, e: Option<Extension>)
    requires e == Entry(d, NATIVE)
    ensures PutNative(d, e) == d
  {
  }

  /** Flattening what was flattened changes nothing. */
  lemma FlattenIdempotent(role: Definition, concrete: Definition, lib: Library)
    requires Versioned(lib) && Authoritative(lib) && Flattened(Some(role), concrete, lib).Some?
    ensures Flattened(Some(role), Flattened(Some(role), concrete, lib).value, lib)
        == Flattened(Some(role), concrete, lib)
  {
    hide FlattenedExtensions, Versioned, Authoritative, Pins, ReflexDecodes, NativeExtends;
    var d := InheritFields(role, concrete);
    var out := Flattened(Some(role), concrete, lib).value;
    FlattenExtends(role, concrete, lib);
    assert InheritFields(role, out) == out;
    ExtensionsAgain(role, d, lib);
  }

  // ----- Mandatory behavior is never lost -----

  /** Each mandatory extension of the role is in the result; of a negotiated native policy,
      with every setting the role makes. */
  lemma MandatoryRepresented(role: Definition, concrete: Definition, lib: Library, ns: string)
    requires Flattened(Some(role), concrete, lib).Some?
    requires ns in Entries(role) && Entries(role)[ns].mandatory
    requires (ns == NATIVE ==> Entries(role)[ns].version == VERSION)
    ensures var out := Flattened(Some(role), concrete, lib).value;
            && Entry(out, ns).Some?
            && (ns == NATIVE ==> DataOf(Entry(role, NATIVE)).Keys <= DataOf(Entry(out, NATIVE)).Keys)
  {
    hide Sealed, PutNative;
    var d := InheritFields(role, concrete);
    if NATIVE in Entries(role) {
      var e := NativeStep(Entries(role)[NATIVE], Entry(d, NATIVE), lib);
      NativeStepExtends(Entries(role)[NATIVE], Entry(d, NATIVE), lib);
      PutNativeIs(d, e.value, ns);
    }
  }

  // ----- The operation -----

  /** `Flatten` on values.  A result is valid and its pins are consistent; without a role it is
      the definition as it was, with one it extends the definition from the role. */
  method FlattenDefinition(role: Option<Definition>, concrete: Definition, lib: Library) returns (r: Option<Definition>)
    ensures r == Flattened(role, concrete, lib)
    ensures r.Some? ==> lib.validate(r.value) && OneDigest(r.value, lib)
    ensures r.Some? && role.None? ==> r.value == concrete
    ensures r.Some? && role.Some? ==> Extends(role.value, concrete, r.value, lib)
    ensures role.Some? ==> forall out ::
      r == Some(out) <==>
        && lib.validate(role.value) && Compatible(role.value, concrete, lib) && Extends(role.value, concrete, out, lib)
        && lib.validate(out) && ReflexDecodes(out, lib) && OneDigest(out, lib)
  {
    hide FlattenedExtensions, Pins, Extends, Consistent, OneDigest, Compatible;
    if role.Some? {
      forall out ensures Flattened(role, concrete, lib) == Some(out) <==>
        && lib.validate(role.value) && Compatible(role.value, concrete, lib) && Extends(role.value, concrete, out, lib)
        && lib.validate(out) && ReflexDecodes(out, lib) && OneDigest(out, lib)
      {
        FlattenExactly(role.value, concrete, out, lib);
      }
    }
    var out := concrete;
    if role.Some? {
      if !lib.validate(role.value) {
        return None;
      }
      out := InheritFields(role.value, out);
      if HooksMissing(role.value, out) {
        return None;
      }
      var merged := FlattenExtensions(role.value, out, lib);
      if merged.None? {
        return None;
      }
      out := merged.value;
    }
    if !lib.validate(out) {
      return None;
    }
    var ok := CheckPins(out, lib);
    if !ok {
      return None;
    }
    if role.Some? { FlattenExtends(role.value, concrete, lib); }
    ConsistentIs(out, lib);
    return Some(out);
  }
}
