/**
 Importing agent definitions into the profile store, and the ownership boundary that holds
 over every run of imports: a profile the importer does not own is never changed.

 What the outside decides about one definition (which store calls fail, the identity a new
 row gets, the hash and version the store computes, the clock) is one `Env` record, so a
 call is a function of the rows, the definitions and their environments.
 */
module AgentImport {
  import opened Common
  import Text

  // ----- Ownership classes -----

  datatype ManageClass = Managed | Internal | Plugin | External

  const INTERNAL_SOURCES := {"internal", "builtin"}
  const MANAGED_SOURCES := {"", "api", "cli", "managed_file", "nanite", "project", "user"}
  const PROVENANCE := "import"
  const UNTRUSTED := "untrusted"
  const NEW_ROW_TIER := "normal"

  function Classify(source: string): ManageClass {
    if source in INTERNAL_SOURCES then Internal
    else if source == "plugin" then Plugin
    else if source in MANAGED_SOURCES then Managed
    else External
  }

  predicate Editable(c: ManageClass) {
    c == Managed
  }

  predicate CopyToManagedAllowed(c: ManageClass) {
    c == Plugin || c == External
  }

  /** An imported row is never editable in place; it may be copied. */
  lemma ImportedIsExternal()
    ensures Classify(PROVENANCE) == External
    ensures !Editable(Classify(PROVENANCE)) && CopyToManagedAllowed(Classify(PROVENANCE))
  {
    assert PROVENANCE[0] == 'i' && PROVENANCE[1] == 'm';
    assert "internal"[1] == 'n' && "builtin"[0] == 'b' && "plugin"[0] == 'p';
    assert forall m <- MANAGED_SOURCES :: m == "" || m[0] != 'i';
  }

  // ----- Rows -----

  datatype Profile = Profile(
    id: string,
    slug: string,
    name: string,
    content: string,
    source: string,
    sourceRef: string,
    importedAt: string,
    origin: string,
    hash: string,
    version: int,
    kind: string,
    capabilities: string,
    limits: string,
    roleId: string,
    consumerId: string,
    modelId: string,
    protocol: string,
    transport: string,
    createdAt: string)

  /** The trust tier is a column of its own that profile writes leave alone. */
  datatype Row = Row(profile: Profile, tier: string)

  type Rows = map<string, Row>

  /** Rows are filed under their identity and no two share a slug. */
  ghost predicate Sound(rows: Rows) {
    && (forall id | id in rows :: rows[id].profile.id == id)
    && (forall i, j | i in rows && j in rows && rows[i].profile.slug == rows[j].profile.slug :: i == j)
  }

  ghost function BySlug(rows: Rows, slug: string): (r: Option<string>)
    ensures r.Some? ==> r.value in rows && rows[r.value].profile.slug == slug
    ensures r.None? ==> forall id | id in rows :: rows[id].profile.slug != slug
  {
    if exists id :: id in rows && rows[id].profile.slug == slug
    then var id :| id in rows && rows[id].profile.slug == slug; Some(id)
    else None
  }

  // ----- Definitions -----

  datatype Definition = Definition(id: string, slug: string, name: string, content: string, source: string,
                                   sourceRef: string)

  datatype Env = Env(
    lookupFails: bool,
    writeFails: bool,
    tierFails: bool,
    seedFails: bool,
    newId: string,
    hash: string,
    version: int,
    now: string)

  /** The definitions of a call, some of them missing, and what the outside decides about each. */
  type Defs = seq<Option<Definition>>

  type Envs = nat -> Env

  predicate SlugChar(c: char) {
    'a' <= c <= 'z' || '0' <= c <= '9'
  }

  /** Lower-case letters and digits in segments joined by single hyphens. */
  predicate ValidSlug(slug: string) {
    && slug != "" && SlugChar(slug[0]) && SlugChar(slug[|slug| - 1])
    && (forall i | 0 <= i < |slug| :: SlugChar(slug[i]) || slug[i] == '-')
    && (forall i | 0 <= i < |slug| - 1 :: !(slug[i] == '-' && slug[i + 1] == '-'))
  }

  predicate Segment(piece: string) {
    piece != "" && forall c <- piece :: SlugChar(c)
  }

  /** Valid, or what may follow a valid beginning: the first segment may be missing. */
  ghost predicate Onward(s: string) {
    s != "" ==>
      && SlugChar(s[|s| - 1])
      && (forall i | 0 <= i < |s| :: SlugChar(s[i]) || s[i] == '-')
      && (forall i | 0 <= i < |s| - 1 :: !(s[i] == '-' && s[i + 1] == '-'))
  }

  ghost predicate AllSegments(pieces: seq<string>) {
    forall k | 0 <= k < |pieces| :: Segment(pieces[k])
  }

  lemma OnwardCons(s: string)
    requires s != "" && SlugChar(s[0])
    ensures Onward(s) <==> Onward(s[1..])
  {
    assert s == [s[0]] + s[1..];
    if Onward(s) {
      assert forall i | 0 <= i < |s[1..]| :: s[1..][i] == s[i + 1];
    }
    if Onward(s[1..]) && s[1..] != "" {
      assert s[|s| - 1] == s[1..][|s[1..]| - 1];
      forall i | 0 <= i < |s| ensures SlugChar(s[i]) || s[i] == '-' {
        if i > 0 { assert s[i] == s[1..][i - 1]; }
      }
      forall i | 0 <= i < |s| - 1 ensures !(s[i] == '-' && s[i + 1] == '-') {
        if i > 0 { assert s[i] == s[1..][i - 1] && s[i + 1] == s[1..][i]; }
      }
    }
  }

  lemma OnwardHyphen(s: string)
    requires s != "" && s[0] == '-'
    ensures Onward(s) <==> ValidSlug(s[1..])
  {
    assert s == [s[0]] + s[1..];
    var t := s[1..];
    if Onward(s) {
      assert |s| > 1 by { assert s[|s| - 1] != '-'; }
      assert s[1] == t[0] && s[|s| - 1] == t[|t| - 1];
      assert !(s[0] == '-' && s[0 + 1] == '-');
      assert forall i | 0 <= i < |t| :: t[i] == s[i + 1];
    }
    if ValidSlug(t) {
      assert s[|s| - 1] == t[|t| - 1];
      forall i | 0 <= i < |s| ensures SlugChar(s[i]) || s[i] == '-' {
        if i > 0 { assert s[i] == t[i - 1]; }
      }
      forall i | 0 <= i < |s| - 1 ensures !(s[i] == '-' && s[i + 1] == '-') {
        if i > 0 { assert s[i] == t[i - 1] && s[i + 1] == t[i]; }
      }
    }
  }

  /** A slug is valid exactly when it is segments of lower-case letters and digits, each with at
      least one, joined by hyphens. */
  lemma {:induction false} SlugPieces(s: string)
    ensures ValidSlug(s) <==> AllSegments(Text.Split(s, '-'))
    ensures Onward(s) <==>
        var r := Text.Split(s, '-'); (r[0] == "" || Segment(r[0])) && AllSegments(r[1..])
    decreases |s|
  {
    SegmentsCons(Text.Split(s, '-'));
    if s == "" {
      assert Text.Split(s, '-')[0] == "";
    } else {
      var r, t := Text.Split(s, '-'), Text.Split(s[1..], '-');
      SlugPieces(s[1..]);
      if s[0] == '-' {
        assert r == [""] + t && r[1..] == t;
        OnwardHyphen(s);
      } else {
        assert r == [[s[0]] + t[0]] + t[1..] && r[1..] == t[1..];
        SegmentCons(s[0], t[0]);
        if SlugChar(s[0]) { OnwardCons(s); }
      }
    }
  }

  lemma SegmentsCons(r: seq<string>)
    requires r != []
    ensures AllSegments(r) <==> Segment(r[0]) && AllSegments(r[1..])
  {
    if Segment(r[0]) && AllSegments(r[1..]) {
      forall k | 0 <= k < |r| ensures Segment(r[k]) {
        if k > 0 { assert r[k] == r[1..][k - 1]; }
      }
    }
  }

  lemma SegmentCons(c: char, piece: string)
    ensures Segment([c] + piece) <==> SlugChar(c) && (piece == "" || Segment(piece))
  {
    if Segment([c] + piece) {
      assert ([c] + piece)[0] == c;
      forall d <- piece ensures SlugChar(d) { assert d in [c] + piece; }
    }
  }

  function Origin(def: Definition, system: string): string {
    var named := Text.TrimSpace(def.source);
    if named != "" && named != PROVENANCE then named
    else if system != "" then system
    else PROVENANCE
  }

  function ToProfile(def: Definition, system: string, now: string): Profile {
    Profile(Text.TrimSpace(def.id), def.slug, def.name, def.content, PROVENANCE, def.sourceRef, now,
            Origin(def, system),
            "", 1, "", "", "", "", "", "", "", "", now)
  }

  /** What a sync keeps of the row it rewrites. */
  function Preserve(p: Profile, existing: Profile): Profile {
    p.(id := existing.id,
       hash := existing.hash,
       version := existing.version,
       kind := existing.kind,
       capabilities := if p.capabilities == "" then existing.capabilities else p.capabilities,
       limits := if p.limits == "" then existing.limits else p.limits,
       roleId := existing.roleId,
       consumerId := existing.consumerId,
       modelId := existing.modelId,
       protocol := existing.protocol,
       transport := existing.transport,
       createdAt := existing.createdAt)
  }

  // ----- The store's writes -----

  function NewProfile(p: Profile, env: Env): Profile {
    p.(id := if p.id == "" then env.newId else p.id,
       kind := if p.kind == "" then "internal" else p.kind,
       hash := env.hash)
  }

  predicate CreateFails(rows: Rows, p: Profile, env: Env) {
    env.writeFails || NewProfile(p, env).id in rows
  }

  function CreateRow(rows: Rows, p: Profile, env: Env): Rows {
    rows[NewProfile(p, env).id := Row(NewProfile(p, env), NEW_ROW_TIER)]
  }

  /** An update goes to the row with the profile's identity, recomputes hash and version
      and leaves the tier. */
  function UpdateRow(rows: Rows, p: Profile, env: Env): Rows {
    if p.id in rows then rows[p.id := Row(p.(hash := env.hash, version := env.version), rows[p.id].tier)] else rows
  }

  function SetTier(rows: Rows, id: string, tier: string): Rows {
    if id in rows then rows[id := rows[id].(tier := tier)] else rows
  }

  // ----- One definition -----

  datatype Stage = Lookup | Create | Update | Tier | Seed | Slug

  datatype Outcome =
    | Created(slug: string, profile: Profile)
    | Synced(slug: string, profile: Profile)
    | Skipped(slug: string, blockedBy: ManageClass)

  datatype Step = Step(rows: Rows, result: Result<Outcome, Stage>)

  /** The trust tier first, then the relational children. */
  function AfterWrite(rows: Rows, id: string, env: Env, done: Outcome): Step {
    if env.tierFails then Step(rows, Err(Tier))
    else Step(SetTier(rows, id, UNTRUSTED), if env.seedFails then Err(Seed) else Ok(done))
  }

  function CreateStep(rows: Rows, p: Profile, env: Env): Step {
    if CreateFails(rows, p, env) then Step(rows, Err(Create))
    else AfterWrite(CreateRow(rows, p, env), NewProfile(p, env).id, env, Created(p.slug, NewProfile(p, env)))
  }

  function SyncStep(rows: Rows, p: Profile, env: Env): Step {
    if env.writeFails then Step(rows, Err(Update))
    else AfterWrite(UpdateRow(rows, p, env), p.id, env, Synced(p.slug, p))
  }

  /** `write`: create, sync, or refuse a slug held by somebody else. */
  ghost function Write(rows: Rows, def: Definition, system: string, env: Env): Step {
    var p := ToProfile(def, system, env.now);
    if env.lookupFails then Step(rows, Err(Lookup))
    else
      match BySlug(rows, def.slug)
      case None => CreateStep(rows, p, env)
      case Some(id) =>
        var existing := rows[id].profile;
        var owner := Classify(existing.source);
        if owner != External then Step(rows, Ok(Skipped(def.slug, owner)))
        else SyncStep(rows, Preserve(p, existing), env)
  }

  // ----- The boundary -----

  /** What a row may become: a foreign row nothing else, an owned row only new content. */
  predicate RowKept(before: Row, after: Row) {
    var p, q := before.profile, after.profile;
    && (Classify(p.source) != External ==> after == before)
    && (after != before ==> q.source == PROVENANCE)
    && q.id == p.id && q.slug == p.slug && q.kind == p.kind
    && q.capabilities == p.capabilities && q.limits == p.limits
    && q.roleId == p.roleId && q.consumerId == p.consumerId && q.modelId == p.modelId
    && q.protocol == p.protocol && q.transport == p.transport && q.createdAt == p.createdAt
  }

  ghost predicate Kept(before: Rows, after: Rows) {
    && (forall id | id in before :: id in after && RowKept(before[id], after[id]))
    && (forall id | id in after && id !in before :: after[id].profile.source == PROVENANCE)
  }

  lemma KeptTransitive(a: Rows, b: Rows, c: Rows)
    requires Kept(a, b) && Kept(b, c)
    ensures Kept(a, c)
  {
    ImportedIsExternal();
    forall id | id in a ensures id in c && RowKept(a[id], c[id]) {
      assert RowKept(a[id], b[id]) && RowKept(b[id], c[id]);
    }
    forall id | id in c && id !in a ensures c[id].profile.source == PROVENANCE {
      if id in b { assert RowKept(b[id], c[id]); }
    }
  }

  /** A row that differs is untrusted, but for the one spared slug. */
  ghost predicate Reset(before: Rows, after: Rows, spared: Option<string>) {
    forall id | id in after && (id !in before || after[id] != before[id]) ::
      after[id].tier == UNTRUSTED || spared == Some(after[id].profile.slug)
  }

  /** Rows of other slugs are as before. */
  ghost predicate OnlySlug(before: Rows, after: Rows, slug: string) {
    forall id | id in after && (id !in before || after[id] != before[id]) :: after[id].profile.slug == slug
  }

  ghost predicate StepKeeps(rows: Rows, slug: string, s: Step) {
    && Sound(s.rows) && Kept(rows, s.rows) && OnlySlug(rows, s.rows, slug)
    && Reset(rows, s.rows, if s.result == Err(Tier) then Some(slug) else None)
  }

  lemma Unchanged(rows: Rows, slug: string, s: Step)
    requires Sound(rows) && s.rows == rows
    ensures StepKeeps(rows, slug, s)
  {
  }

  /** Writing one row, then setting its tier or failing to. */
  lemma OneRowKeeps(rows: Rows, row: Row, env: Env, done: Outcome)
    requires Sound(rows) && row.profile.source == PROVENANCE
    requires row.profile.id in rows ==> RowKept(rows[row.profile.id], row.(tier := rows[row.profile.id].tier))
                                        && Classify(rows[row.profile.id].profile.source) == External
    requires row.profile.id !in rows ==> BySlug(rows, row.profile.slug).None?
    ensures StepKeeps(rows, row.profile.slug, AfterWrite(rows[row.profile.id := row], row.profile.id, env, done))
  {
    hide Classify, PROVENANCE, BySlug, Kept, RowKept, Sound;
    var id := row.profile.id;
    var last := if env.tierFails then row else row.(tier := UNTRUSTED);
    var s := AfterWrite(rows[id := row], id, env, done);
    assert s.rows == rows[id := last];
    if id in rows { RetierKept(rows[id], row, last.tier); }
    OneRowSound(rows, last);
    OneRowKept(rows, last);
  }

  lemma RetierKept(before: Row, after: Row, tier: string)
    requires RowKept(before, after.(tier := before.tier)) && Classify(before.profile.source) == External
    requires after.profile.source == PROVENANCE
    ensures RowKept(before, after.(tier := tier)) && after.profile.slug == before.profile.slug
  {
    hide Classify, PROVENANCE;
  }

  lemma OneRowKept(rows: Rows, row: Row)
    requires row.profile.source == PROVENANCE
    requires row.profile.id in rows ==> RowKept(rows[row.profile.id], row)
    ensures Kept(rows, rows[row.profile.id := row])
  {
    hide Classify, PROVENANCE;
  }

  lemma OneRowSound(rows: Rows, row: Row)
    requires Sound(rows)
    requires row.profile.id in rows ==> rows[row.profile.id].profile.slug == row.profile.slug
    requires row.profile.id !in rows ==> BySlug(rows, row.profile.slug).None?
    ensures Sound(rows[row.profile.id := row])
  {
  }

  lemma CreateKeeps(rows: Rows, p: Profile, env: Env)
    requires Sound(rows) && p.source == PROVENANCE && BySlug(rows, p.slug).None?
    ensures StepKeeps(rows, p.slug, CreateStep(rows, p, env))
  {
    hide Classify, PROVENANCE, BySlug, StepKeeps, AfterWrite;
    if CreateFails(rows, p, env) {
      Unchanged(rows, p.slug, CreateStep(rows, p, env));
    } else {
      OneRowKeeps(rows, Row(NewProfile(p, env), NEW_ROW_TIER), env, Created(p.slug, NewProfile(p, env)));
    }
  }

  lemma SyncKeeps(rows: Rows, id: string, p: Profile, env: Env)
    requires Sound(rows) && id in rows && p.slug == rows[id].profile.slug && p.source == PROVENANCE
    requires p.capabilities == "" && p.limits == ""
    requires Classify(rows[id].profile.source) == External
    ensures StepKeeps(rows, p.slug, SyncStep(rows, Preserve(p, rows[id].profile), env))
  {
    hide Classify, PROVENANCE, BySlug, StepKeeps, AfterWrite;
    var q := Preserve(p, rows[id].profile);
    if env.writeFails {
      Unchanged(rows, p.slug, SyncStep(rows, q, env));
    } else {
      OneRowKeeps(rows, Row(q.(hash := env.hash, version := env.version), rows[id].tier), env, Synced(p.slug, q));
    }
  }

  /** No single write crosses the boundary, whatever fails in it. */
  lemma WriteKeeps(rows: Rows, def: Definition, system: string, env: Env)
    requires Sound(rows)
    ensures StepKeeps(rows, def.slug, Write(rows, def, system, env))
  {
    hide StepKeeps, Classify, PROVENANCE, CreateStep, SyncStep, Preserve, Origin;
    var p := ToProfile(def, system, env.now);
    if env.lookupFails {
      Unchanged(rows, def.slug, Write(rows, def, system, env));
    } else {
      match BySlug(rows, def.slug)
      case None => CreateKeeps(rows, p, env);
      case Some(id) =>
        if Classify(rows[id].profile.source) != External {
          Unchanged(rows, def.slug, Write(rows, def, system, env));
        } else {
          SyncKeeps(rows, id, p, env);
        }
    }
  }

  /** What a reported write leaves in the row of the slug: the definition's content under the
      importer's provenance, untrusted. */
  lemma WriteDelivers(rows: Rows, def: Definition, system: string, env: Env)
    requires Sound(rows)
    ensures var s := Write(rows, def, system, env);
            s.result.Ok? && !s.result.value.Skipped? ==>
              var p := s.result.value.profile;
              && p.id in s.rows && s.rows[p.id].tier == UNTRUSTED && Delivered(s.rows[p.id].profile, def, system, env)
              && (s.result.value.Created? <==> BySlug(rows, def.slug).None?)
  {
    OriginIs(def, system);
    hide Classify, Origin, PROVENANCE;
  }

  /** The whole row a creation leaves: the definition's text, the host's identity if it names
      none, the first version, and nothing that only the database can give. */
  lemma CreatedRow(rows: Rows, def: Definition, system: string, env: Env)
    requires Sound(rows)
    ensures var s := Write(rows, def, system, env);
            s.result.Ok? && s.result.value.Created? ==>
              var id := if Text.TrimSpace(def.id) == "" then env.newId else Text.TrimSpace(def.id);
              && id !in rows && id in s.rows
              && s.rows[id] == Row(Profile(id, def.slug, def.name, def.content, "import", def.sourceRef, env.now,
                                           Origin(def, system), env.hash, 1, "internal", "", "", "", "", "", "", "",
                                           env.now), "untrusted")
              && s.result.value.profile == s.rows[id].profile
  {
    hide Classify, Origin, PROVENANCE, UNTRUSTED, NEW_ROW_TIER, Text.TrimSpace;
    Constants();
  }

  lemma Constants()
    ensures PROVENANCE == "import" && UNTRUSTED == "untrusted"
  {
  }

  lemma OriginIs(def: Definition, system: string)
    ensures var named := Text.TrimSpace(def.source);
            Origin(def, system)
              == if named != "" && named != "import" then named else if system != "" then system else "import"
  {
    hide Text.TrimSpace;
  }

  ghost predicate Delivered(p: Profile, def: Definition, system: string, env: Env) {
    && p.slug == def.slug && p.name == def.name && p.content == def.content && p.sourceRef == def.sourceRef
    && p.source == PROVENANCE && p.importedAt == env.now
    && p.origin == (var named := Text.TrimSpace(def.source);
                    if named != "" && named != "import" then named else if system != "" then system else "import")
  }

  /** With the lookup working, a slug is refused exactly when a row of another owner holds it. */
  lemma RefusedExactly(rows: Rows, def: Definition, system: string, env: Env)
    requires Sound(rows) && !env.lookupFails
    ensures var s := Write(rows, def, system, env);
            (s.result.Ok? && s.result.value.Skipped?)
            <==> exists id ::
                   id in rows && rows[id].profile.slug == def.slug && Classify(rows[id].profile.source) != External
  {
    hide Classify, Origin, PROVENANCE;
  }

  /** The sources a row may have, and whose it then is. */
  lemma ClassifyExactly(source: string)
    ensures Classify(source) == Internal <==> source == "internal" || source == "builtin"
    ensures Classify(source) == Plugin <==> source == "plugin"
    ensures Classify(source) == Managed <==>
            || source == "" || source == "api" || source == "cli" || source == "managed_file"
            || source == "nanite" || source == "project" || source == "user"
  {
    assert "internal"[0] == 'i' && "builtin"[0] == 'b' && "plugin"[1] == 'l' && "project"[1] == 'r';
    assert forall s <- MANAGED_SOURCES :: s == "" || (s[0] != 'i' && s[0] != 'b' && s != "plugin");
  }

  /** No row holds the slug. */
  ghost predicate Free(rows: Rows, slug: string) {
    forall id | id in rows :: rows[id].profile.slug != slug
  }

  /** A row of another owner holds the slug. */
  ghost predicate Foreign(rows: Rows, slug: string) {
    exists id :: id in rows && rows[id].profile.slug == slug && Classify(rows[id].profile.source) != External
  }

  /** The row write takes place: the lookup works, the slug is not another owner's, the store
      takes the write and, for a new row, its identity is free. */
  ghost predicate Lands(rows: Rows, def: Definition, env: Env) {
    && !env.lookupFails && !Foreign(rows, def.slug) && !env.writeFails
    && (Free(rows, def.slug) ==>
          (if Text.TrimSpace(def.id) == "" then env.newId else Text.TrimSpace(def.id)) !in rows)
  }

  lemma CreateAnswers(rows: Rows, p: Profile, env: Env)
    ensures var r := CreateStep(rows, p, env).result;
            var taken := (if p.id == "" then env.newId else p.id) in rows;
            r == if env.writeFails || taken then Err(Create) else if env.tierFails then Err(Tier)
                 else if env.seedFails then Err(Seed) else Ok(Created(p.slug, NewProfile(p, env)))
  {
    hide UNTRUSTED, NEW_ROW_TIER;
  }

  /** What a write answers, from what fails in it and who holds the slug: a refusal leaves the
      import going, every failure stops it, and only a write with its tier and its children is
      reported as done. */
  lemma AnswersExactly(rows: Rows, def: Definition, system: string, env: Env)
    requires Sound(rows)
    ensures var r, lands := Write(rows, def, system, env).result, Lands(rows, def, env);
            && (r == Err(Lookup) <==> env.lookupFails)
            && (r.Ok? && r.value.Skipped? <==> !env.lookupFails && Foreign(rows, def.slug))
            && (r == Err(Create) <==>
                  !env.lookupFails && !Foreign(rows, def.slug) && Free(rows, def.slug) && !lands)
            && (r == Err(Update) <==>
                  !env.lookupFails && !Foreign(rows, def.slug) && !Free(rows, def.slug) && !lands)
            && (r == Err(Tier) <==> lands && env.tierFails)
            && (r == Err(Seed) <==> lands && !env.tierFails && env.seedFails)
            && (r.Ok? && !r.value.Skipped? <==> lands && !env.tierFails && !env.seedFails)
  {
    hide Classify, Origin, PROVENANCE, UNTRUSTED, NEW_ROW_TIER, CreateStep, Preserve;
    var p := ToProfile(def, system, env.now);
    match BySlug(rows, def.slug)
    case None => CreateAnswers(rows, p, env);
    case Some(id) =>
  }

  // ----- One call -----

  datatype Failure = Failure(stage: Stage, slug: string)

  datatype Batch = Batch(rows: Rows, outcomes: seq<Outcome>, failure: Option<Failure>)

  /** One more definition; a missing one is passed over. */
  ghost function Advance(b: Batch, def: Option<Definition>, system: string, env: Env): Batch {
    match def
    case None => b
    case Some(d) =>
      if !ValidSlug(d.slug) then b.(failure := Some(Failure(Slug, d.slug)))
      else
        var s := Write(b.rows, d, system, env);
        match s.result
        case Ok(o) => b.(rows := s.rows, outcomes := b.outcomes + [o])
        case Err(stage) => b.(rows := s.rows, failure := Some(Failure(stage, d.slug)))
  }

  /** The definitions in order, up to the first failure. */
  ghost function Process(rows: Rows, defs: Defs, system: string, envs: Envs): Batch {
    if defs == [] then Batch(rows, [], None)
    else
      var m := |defs| - 1;
      var b := Process(rows, defs[..m], system, envs);
      if b.failure.Some? then b else Advance(b, defs[m], system, envs(m))
  }

  function Present(defs: Defs): seq<Definition> {
    if defs == [] then []
    else
      var m := |defs| - 1;
      Present(defs[..m]) + if defs[m].Some? then [defs[m].value] else []
  }

  ghost predicate Names(o: Outcome, slug: string) {
    !o.Skipped? && o.slug == slug
  }

  /** Every row that differs is named by an outcome, or by the failure and then at a stage
      behind its write. */
  ghost predicate Reported(before: Rows, b: Batch) {
    forall id | id in b.rows && (id !in before || b.rows[id] != before[id]) ::
      || (exists k :: 0 <= k < |b.outcomes| && Names(b.outcomes[k], b.rows[id].profile.slug))
      || b.failure == Some(Failure(Tier, b.rows[id].profile.slug))
      || b.failure == Some(Failure(Seed, b.rows[id].profile.slug))
  }

  ghost predicate Matches(outcomes: seq<Outcome>, defs: seq<Definition>) {
    |outcomes| <= |defs| && forall k | 0 <= k < |outcomes| :: outcomes[k].slug == defs[k].slug
  }

  /** The slug whose tier could not be set, if that is what failed. */
  function Spared(failure: Option<Failure>): Option<string> {
    if failure.Some? && failure.value.stage == Tier then Some(failure.value.slug) else None
  }

  ghost predicate BatchKeeps(rows: Rows, defs: Defs, b: Batch) {
    && Sound(b.rows) && Kept(rows, b.rows) && Reported(rows, b)
    && Reset(rows, b.rows, Spared(b.failure))
    && Matches(b.outcomes, Present(defs))
    && (b.failure.None? ==> |b.outcomes| == |Present(defs)|)
    && (b.failure.Some? ==> |b.outcomes| < |Present(defs)|)
  }

  lemma WriteAnswers(rows: Rows, def: Definition, system: string, env: Env)
    ensures var s := Write(rows, def, system, env);
            && (s.result.Ok? ==> s.result.value.slug == def.slug && (s.result.value.Skipped? ==> s.rows == rows))
            && (s.result.Err? ==> s.result.error != Slug)
            && (s.result.Err? && s.result.error != Tier && s.result.error != Seed ==> s.rows == rows)
  {
    hide Classify, Origin, PROVENANCE, NewProfile, UNTRUSTED;
  }

  lemma ResetTransitive(a: Rows, b: Rows, c: Rows, spared: Option<string>)
    requires Reset(a, b, None) && Reset(b, c, spared)
    ensures Reset(a, c, spared)
  {
    forall id | id in c && (id !in a || c[id] != a[id])
      ensures c[id].tier == UNTRUSTED || spared == Some(c[id].profile.slug)
    {
      if id in b && c[id] == b[id] {
        assert b[id].tier == UNTRUSTED;
      }
    }
  }

  /** The report stays complete when the next definition's rows and its outcome are added. */
  lemma ReportedOnward(rows: Rows, b: Batch, b': Batch, slug: string)
    requires Reported(rows, b) && b.failure.None? && OnlySlug(b.rows, b'.rows, slug)
    requires b.outcomes <= b'.outcomes
    requires || b'.rows == b.rows
             || (|b'.outcomes| > 0 && Names(b'.outcomes[|b'.outcomes| - 1], slug))
             || b'.failure == Some(Failure(Tier, slug)) || b'.failure == Some(Failure(Seed, slug))
    ensures Reported(rows, b')
  {
    hide Names;
    forall id | id in b'.rows && (id !in rows || b'.rows[id] != rows[id])
      ensures || (exists k :: 0 <= k < |b'.outcomes| && Names(b'.outcomes[k], b'.rows[id].profile.slug))
              || b'.failure == Some(Failure(Tier, b'.rows[id].profile.slug))
              || b'.failure == Some(Failure(Seed, b'.rows[id].profile.slug))
    {
      if id in b.rows && b.rows[id] == b'.rows[id] {
        var k :| 0 <= k < |b.outcomes| && Names(b.outcomes[k], b.rows[id].profile.slug);
        assert b'.outcomes[k] == b.outcomes[k];
      } else {
        assert b'.rows[id].profile.slug == slug;
      }
    }
  }

  lemma PresentSnoc(defs: Defs, def: Option<Definition>)
    ensures Present(defs + [def]) == Present(defs) + if def.Some? then [def.value] else []
  {
    assert (defs + [def])[..|defs|] == defs;
  }

  lemma AdvanceRows(rows: Rows, b: Batch, d: Definition, system: string, env: Env)
    requires Sound(b.rows) && Kept(rows, b.rows) && Reset(rows, b.rows, None) && Reported(rows, b) && b.failure.None?
    ensures var b' := Advance(b, Some(d), system, env);
            && Sound(b'.rows) && Kept(rows, b'.rows) && Reported(rows, b')
            && Reset(rows, b'.rows, Spared(b'.failure))
  {
    hide Write, Sound, Kept, Reset, Reported, OnlySlug, ValidSlug;
    var b' := Advance(b, Some(d), system, env);
    if ValidSlug(d.slug) {
      WriteKeeps(b.rows, d, system, env);
      WriteAnswers(b.rows, d, system, env);
      KeptTransitive(rows, b.rows, b'.rows);
      var s := Write(b.rows, d, system, env);
      ResetTransitive(rows, b.rows, b'.rows, if s.result == Err(Tier) then Some(d.slug) else None);
      ReportedOnward(rows, b, b', d.slug);
    } else {
      NothingChanged(b.rows, d.slug);
      ReportedOnward(rows, b, b', d.slug);
    }
  }

  lemma NothingChanged(rows: Rows, slug: string)
    ensures OnlySlug(rows, rows, slug)
  {
  }

  lemma AdvanceKeeps(rows: Rows, defs: Defs, b: Batch, def: Option<Definition>, system: string, env: Env)
    requires BatchKeeps(rows, defs, b) && b.failure.None?
    ensures BatchKeeps(rows, defs + [def], Advance(b, def, system, env))
  {
    hide Write, Sound, Kept, Reset, Reported, ValidSlug, Present;
    PresentSnoc(defs, def);
    if def.Some? {
      AdvanceRows(rows, b, def.value, system, env);
      WriteAnswers(b.rows, def.value, system, env);
    }
  }

  lemma NoDefinitionsKeep(rows: Rows)
    requires Sound(rows)
    ensures BatchKeeps(rows, [], Batch(rows, [], None))
  {
  }

  /** The whole call: the boundary, the tiers, the report and one outcome for each definition. */
  lemma {:induction false} ProcessKeeps(rows: Rows, defs: Defs, system: string, envs: Envs)
    requires Sound(rows)
    ensures BatchKeeps(rows, defs, Process(rows, defs, system, envs))
    decreases |defs|
  {
    hide Advance, BatchKeeps;
    if defs == [] {
      NoDefinitionsKeep(rows);
    } else {
      var m := |defs| - 1;
      var b := Process(rows, defs[..m], system, envs);
      ProcessKeeps(rows, defs[..m], system, envs);
      assert defs == defs[..m] + [defs[m]];
      if b.failure.Some? {
        FailureStands(rows, defs[..m], b, defs[m]);
      } else {
        AdvanceKeeps(rows, defs[..m], b, defs[m], system, envs(m));
      }
    }
  }

  lemma FailureStands(rows: Rows, defs: Defs, b: Batch, def: Option<Definition>)
    requires BatchKeeps(rows, defs, b) && b.failure.Some?
    ensures BatchKeeps(rows, defs + [def], b)
  {
    hide Sound, Kept, Reset, Reported, Present;
    PresentSnoc(defs, def);
  }

  lemma {:induction false} FailureSticks(rows: Rows, defs: Defs, system: string, envs: Envs, n: nat)
    requires n <= |defs| && Process(rows, defs[..n], system, envs).failure.Some?
    ensures Process(rows, defs, system, envs) == Process(rows, defs[..n], system, envs)
    decreases |defs| - n
  {
    hide Advance;
    if n == |defs| {
      assert defs[..n] == defs;
    } else {
      assert defs[..n + 1][..n] == defs[..n];
      FailureSticks(rows, defs, system, envs, n + 1);
    }
  }

  // ----- Any run of calls -----

  /** The parser is outside: it found definitions (some of them missing), or the target is broken. */
  datatype Call = Call(path: string, parsed: Option<Defs>, system: string, envs: Envs)

  ghost function Definitions(call: Call): Defs {
    if call.path == "" || call.parsed.None? then [] else call.parsed.value
  }

  ghost function RunRows(rows: Rows, calls: seq<Call>): Rows {
    if calls == [] then rows
    else
      var m := |calls| - 1;
      Process(RunRows(rows, calls[..m]), Definitions(calls[m]), calls[m].system, calls[m].envs).rows
  }

  /** Over any sequence of calls, whatever fails in them: rows of other owners are as they
      were, owned rows keep their identity and configuration, new rows are imported ones. */
  lemma {:induction false} RunKeeps(rows: Rows, calls: seq<Call>)
    requires Sound(rows)
    ensures Sound(RunRows(rows, calls)) && Kept(rows, RunRows(rows, calls))
    decreases |calls|
  {
    hide Sound, Kept, Process, Definitions, Reset, Reported, Matches, Present;
    if calls == [] {
      NoCallKeeps(rows);
    } else {
      var m := |calls| - 1;
      var before := RunRows(rows, calls[..m]);
      RunKeeps(rows, calls[..m]);
      ProcessKeeps(before, Definitions(calls[m]), calls[m].system, calls[m].envs);
      KeptTransitive(rows, before, RunRows(rows, calls));
    }
  }

  lemma NoCallKeeps(rows: Rows)
    ensures Kept(rows, rows)
  {
  }

  /** The boundary in the words of the ownership rule. */
  lemma OthersUntouched(rows: Rows, calls: seq<Call>, id: string)
    requires Sound(rows) && id in rows && Classify(rows[id].profile.source) != External
    ensures id in RunRows(rows, calls) && RunRows(rows, calls)[id] == rows[id]
  {
    hide Classify, RunRows;
    RunKeeps(rows, calls);
  }

  // ----- The store and the importer as they run -----

  class ProfileStore {
    var rows: Rows

    method GetAgentBySlug(slug: string, env: Env) returns (r: Result<Option<Profile>, Stage>)
      requires Sound(rows)
      ensures r == if env.lookupFails then Err(Lookup)
                   else if BySlug(rows, slug).None? then Ok(None)
                   else Ok(Some(rows[BySlug(rows, slug).value].profile))
    {
      if env.lookupFails {
        return Err(Lookup);
      }
      if exists id | id in rows :: rows[id].profile.slug == slug {
        var id :| id in rows && rows[id].profile.slug == slug;
        return Ok(Some(rows[id].profile));
      }
      return Ok(None);
    }

    method CreateAgent(p: Profile, env: Env) returns (r: Option<Profile>)
      modifies this
      ensures r.Some? <==> !CreateFails(old(rows), p, env)
      ensures r.Some? ==> r.value == NewProfile(p, env) && rows == CreateRow(old(rows), p, env)
      ensures r.None? ==> rows == old(rows)
    {
      if CreateFails(rows, p, env) {
        return None;
      }
      rows := CreateRow(rows, p, env);
      return Some(NewProfile(p, env));
    }

    method UpdateAgent(p: Profile, env: Env) returns (ok: bool)
      modifies this
      ensures ok <==> !env.writeFails
      ensures rows == if ok then UpdateRow(old(rows), p, env) else old(rows)
    {
      if env.writeFails {
        return false;
      }
      rows := UpdateRow(rows, p, env);
      return true;
    }

    method SetAgentDefaultTrustTier(id: string, tier: string, env: Env) returns (ok: bool)
      modifies this
      ensures ok <==> !env.tierFails
      ensures rows == if ok then SetTier(old(rows), id, tier) else old(rows)
    {
      if env.tierFails {
        return false;
      }
      rows := SetTier(rows, id, tier);
      return true;
    }
  }

  datatype State = NotStarted | Parsing | Validating | Writing | Ready | Failed

  datatype Problem = EmptyPath | Broken | NothingFound | At(failure: Failure)

  /** Where the pipeline may go from where. */
  predicate Follows(a: State, b: State) {
    match a
    case Parsing => b == Validating || b == Ready || b == Failed
    case Validating => b == Writing || b == Failed
    case Writing => b == Validating || b == Ready || b == Failed
    case _ => false
  }

  ghost predicate Pipeline(events: seq<State>) {
    && events != [] && events[0] == Parsing
    && forall i | 0 <= i < |events| - 1 :: Follows(events[i], events[i + 1])
  }

  /** A pipeline that began at `from` and may take the next definition, or end. */
  ghost predicate InPipeline(before: seq<State>, events: seq<State>, from: nat) {
    && from == |before| < |events| && before <= events && Pipeline(events[from..])
    && (events[|events| - 1] == Parsing || events[|events| - 1] == Writing)
  }

  class Importer {
    const store: ProfileStore
    const system: string
    var state: State
    var events: seq<State>

    constructor (store: ProfileStore, system: string)
      ensures this.store == store && this.system == system && state == NotStarted && events == []
    {
      this.store, this.system, state, events := store, system, NotStarted, [];
    }

    method Transition(s: State)
      modifies this
      ensures state == s && events == old(events) + [s]
    {
      state := s;
      events := events + [s];
    }

    method AfterWriting(id: string, env: Env, done: Outcome) returns (r: Result<Outcome, Stage>)
      modifies store
      ensures Step(store.rows, r) == AfterWrite(old(store.rows), id, env, done)
    {
      var ok := store.SetAgentDefaultTrustTier(id, UNTRUSTED, env);
      if !ok {
        return Err(Tier);
      }
      if env.seedFails {
        return Err(Seed);
      }
      return Ok(done);
    }

    method WriteDefinition(def: Definition, env: Env) returns (r: Result<Outcome, Stage>)
      requires Sound(store.rows)
      modifies store
      ensures Step(store.rows, r) == Write(old(store.rows), def, system, env)
    {
      hide PROVENANCE, Classify, Sound, Origin, AfterWrite;
      var p := ToProfile(def, system, env.now);
      var found := store.GetAgentBySlug(def.slug, env);
      if found.Err? {
        return Err(Lookup);
      }
      if found.value.None? {
        var made := store.CreateAgent(p, env);
        if made.None? {
          return Err(Create);
        }
        r := AfterWriting(made.value.id, env, Created(def.slug, made.value));
        return;
      }
      var existing := found.value.value;
      var owner := Classify(existing.source);
      if owner != External {
        return Ok(Skipped(def.slug, owner));
      }
      p := Preserve(p, existing);
      var ok := store.UpdateAgent(p, env);
      if !ok {
        return Err(Update);
      }
      r := AfterWriting(p.id, env, Synced(def.slug, p));
    }

    /** The call as a whole; the boundary, the report and the tiers follow by `ProcessKeeps`. */
    method Import(path: string, parsed: Option<Defs>, envs: Envs)
      returns (outcomes: seq<Outcome>, problem: Option<Problem>)
      requires Sound(store.rows)
      modifies this, store
      ensures var b := Process(old(store.rows), Definitions(Call(path, parsed, system, envs)), system, envs);
              && store.rows == b.rows && outcomes == b.outcomes
              && (b.failure.Some? ==> problem == Some(At(b.failure.value)))
              && (b.failure.None? ==> problem == if path == "" then Some(EmptyPath)
                                                 else if parsed.None? then Some(Broken)
                                                 else if parsed.value == [] then Some(NothingFound)
                                                 else None)
      ensures path == "" ==> state == old(state) && events == old(events)
      ensures path != "" ==> state == (if problem.None? then Ready else Failed)
                             && old(events) <= events && Pipeline(events[|old(events)|..])
                             && events[|events| - 1] == state
    {
      hide Advance, Sound, Process, Pipeline, Follows;
      if path == "" {
        NoProcess(store.rows, system, envs);
        return [], Some(EmptyPath);
      }
      state := NotStarted;
      ghost var n0 := |events|;
      Begin();
      if parsed.None? || parsed.value == [] {
        Fail(n0);
        NoProcess(store.rows, system, envs);
        return [], Some(if parsed.None? then Broken else NothingFound);
      }
      var defs := parsed.value;
      ghost var rows0 := store.rows;
      outcomes := [];
      NoProcess(rows0, system, envs);
      for m := 0 to |defs|
        invariant InPipeline(old(events), events, n0) && Sound(store.rows)
        invariant Process(rows0, defs[..m], system, envs) == Batch(store.rows, outcomes, None)
      {
        ProcessOne(rows0, defs, system, envs, m);
        if defs[m].Some? {
          var r := Handle(defs[m].value, envs(m), n0, outcomes);
          if r.Err? {
            FailureSticks(rows0, defs, system, envs, m + 1);
            return outcomes, Some(At(r.error));
          }
          outcomes := outcomes + [r.value];
        }
      }
      assert defs[..|defs|] == defs;
      Finish(n0);
      return outcomes, None;
    }

    method Begin()
      modifies this
      ensures state == Parsing && events == old(events) + [Parsing] && InPipeline(old(events), events, |old(events)|)
    {
      Transition(Parsing);
      assert events[|old(events)|..] == [Parsing];
    }

    method Finish(ghost from: nat)
      requires from < |events| && InPipeline(events[..from], events, from)
      modifies this
      ensures state == Ready && events == old(events) + [Ready] && Pipeline(events[from..])
    {
      Go(Ready, from);
    }

    /** Validate and write one definition. */
    method Handle(def: Definition, env: Env, ghost from: nat, ghost outcomes: seq<Outcome>)
      returns (r: Result<Outcome, Failure>)
      requires Sound(store.rows) && from < |events| && InPipeline(events[..from], events, from)
      modifies this, store
      ensures old(events) <= events && from < |events| && Pipeline(events[from..])
      ensures r.Ok? ==> InPipeline(old(events[..from]), events, from)
      ensures r.Err? ==> state == Failed == events[|events| - 1]
      ensures Advance(Batch(old(store.rows), outcomes, None), Some(def), system, env)
           == if r.Ok? then Batch(store.rows, outcomes + [r.value], None)
               else Batch(store.rows, outcomes, Some(r.error))
    {
      hide Advance, Sound, ValidSlug, Pipeline, Write, BySlug;
      AdvanceIs(Batch(store.rows, outcomes, None), Some(def), system, env);
      Go(Validating, from);
      if !ValidSlug(def.slug) {
        Fail(from);
        return Err(Failure(Slug, def.slug));
      }
      Go(Writing, from);
      var w := WriteDefinition(def, env);
      if w.Err? {
        Fail(from);
        return Err(Failure(w.error, def.slug));
      }
      return Ok(w.value);
    }

    /** A transition inside a pipeline. */
    method Go(s: State, ghost from: nat)
      requires from < |events| && Pipeline(events[from..]) && Follows(events[|events| - 1], s)
      modifies this
      ensures state == s && events == old(events) + [s] && Pipeline(events[from..])
    {
      Transition(s);
      assert events[from..] == old(events[from..]) + [s];
      assert old(events[from..])[|old(events)| - from - 1] == old(events[|events| - 1]);
    }

    method Fail(ghost from: nat)
      requires from < |events| && Pipeline(events[from..]) && Follows(events[|events| - 1], Failed)
      modifies this
      ensures state == Failed && events == old(events) + [Failed] && Pipeline(events[from..])
    {
      Go(Failed, from);
    }
  }

  lemma NoProcess(rows: Rows, system: string, envs: Envs)
    ensures Process(rows, [], system, envs) == Batch(rows, [], None)
  {
  }

  lemma ProcessOne(rows: Rows, defs: Defs, system: string, envs: Envs, m: nat)
    requires m < |defs| && Sound(rows) && Process(rows, defs[..m], system, envs).failure.None?
    ensures var b := Process(rows, defs[..m + 1], system, envs);
            && b == Advance(Process(rows, defs[..m], system, envs), defs[m], system, envs(m))
            && (defs[m].None? ==> b == Process(rows, defs[..m], system, envs))
            && Sound(b.rows)
  {
    hide Sound, Kept, Reset, Reported, Matches, Present, Write;
    assert defs[..m + 1][..m] == defs[..m];
    ProcessKeeps(rows, defs[..m + 1], system, envs);
  }

  lemma AdvanceIs(b: Batch, def: Option<Definition>, system: string, env: Env)
    requires b.failure.None?
    ensures var b' := Advance(b, def, system, env);
            && (def.None? ==> b' == b)
            && (def.Some? && !ValidSlug(def.value.slug) ==> b' == b.(failure := Some(Failure(Slug, def.value.slug))))
            && (def.Some? && ValidSlug(def.value.slug) ==>
                  var s := Write(b.rows, def.value, system, env);
                  if s.result.Ok? then b' == b.(rows := s.rows, outcomes := b.outcomes + [s.result.value])
                  else b' == b.(rows := s.rows, failure := Some(Failure(s.result.error, def.value.slug))))
  {
    hide Write, ValidSlug;
  }
}
