/**
 The trust tier of imported rows.  Import writes the content first and the tier after it, so
 the promise that imported content is untrusted has an exact condition.
 */
module ImportTrust {
  import opened Common
  import opened AgentImport

  /** The row write took place, whatever came after it. */
  predicate Wrote(result: Result<Outcome, Stage>) {
    match result
    case Ok(o) => !o.Skipped?
    case Err(stage) => stage == Tier || stage == Seed
  }

  /** The row of the slug is there and untrusted. */
  ghost predicate Untrusted(rows: Rows, slug: string) {
    BySlug(rows, slug).Some? && rows[BySlug(rows, slug).value].tier == UNTRUSTED
  }

  /** When imported content is left under a tier nobody gave it: lookup and write succeed and
      the tier write fails, on a slug nobody held with a free identity (the new row then has
      the column's default), or on an owned row that was not untrusted (it keeps that tier). */
  ghost predicate LeavesTrust(rows: Rows, def: Definition, system: string, env: Env) {
    && !env.lookupFails && !env.writeFails && env.tierFails
    && match BySlug(rows, def.slug)
       case None => NewProfile(ToProfile(def, system, env.now), env).id !in rows
       case Some(id) => Classify(rows[id].profile.source) == External && rows[id].tier != UNTRUSTED
  }

  lemma SlugFound(rows: Rows, id: string)
    requires Sound(rows) && id in rows
    ensures BySlug(rows, rows[id].profile.slug) == Some(id)
  {
  }

  lemma CreateTier(rows: Rows, p: Profile, env: Env)
    requires Sound(rows) && BySlug(rows, p.slug).None?
    ensures var s := CreateStep(rows, p, env);
            && (Wrote(s.result) <==> !CreateFails(rows, p, env))
            && (Wrote(s.result) ==> (Untrusted(s.rows, p.slug) <==> !env.tierFails))
  {
    hide BySlug;
    var q := NewProfile(p, env);
    if !CreateFails(rows, p, env) {
      var s := CreateStep(rows, p, env);
      var row := Row(q, if env.tierFails then NEW_ROW_TIER else UNTRUSTED);
      assert s.rows == rows[q.id := row];
      OneRowSound(rows, row);
      SlugFound(s.rows, q.id);
      assert NEW_ROW_TIER[0] == 'n' && UNTRUSTED[0] == 'u';
    }
  }

  lemma SyncTier(rows: Rows, id: string, p: Profile, env: Env)
    requires Sound(rows) && id in rows && p.slug == rows[id].profile.slug
    ensures var s := SyncStep(rows, Preserve(p, rows[id].profile), env);
            && (Wrote(s.result) <==> !env.writeFails)
            && (Wrote(s.result) ==> (Untrusted(s.rows, p.slug) <==> !env.tierFails || rows[id].tier == UNTRUSTED))
  {
    hide BySlug;
    if !env.writeFails {
      var q := Preserve(p, rows[id].profile).(hash := env.hash, version := env.version);
      var s := SyncStep(rows, Preserve(p, rows[id].profile), env);
      var row := Row(q, if env.tierFails then rows[id].tier else UNTRUSTED);
      assert s.rows == rows[id := row];
      OneRowSound(rows, row);
      SlugFound(s.rows, id);
    }
  }

  /** Exactly when a written row is not untrusted afterwards. */
  lemma TrustExactly(rows: Rows, def: Definition, system: string, env: Env)
    requires Sound(rows)
    ensures var s := Write(rows, def, system, env);
            Wrote(s.result) && !Untrusted(s.rows, def.slug) <==> LeavesTrust(rows, def, system, env)
  {
    hide Classify, Origin, PROVENANCE, CreateStep, SyncStep, Preserve, Untrusted;
    var p := ToProfile(def, system, env.now);
    if !env.lookupFails {
      match BySlug(rows, def.slug)
      case None => CreateTier(rows, p, env);
      case Some(id) => SyncTier(rows, id, p, env);
    }
  }

  /** The tier of the slug's row, or the one a new row gets. */
  ghost function TierBefore(rows: Rows, slug: string): string {
    var held := BySlug(rows, slug);
    if held.Some? then rows[held.value].tier else NEW_ROW_TIER
  }

  /** Then it holds the new content under the tier it had, or the default of a new row. */
  lemma StaleTrust(rows: Rows, def: Definition, system: string, env: Env)
    requires Sound(rows) && LeavesTrust(rows, def, system, env)
    ensures var s := Write(rows, def, system, env);
            && s.result == Err(Tier) && BySlug(s.rows, def.slug).Some?
            && s.rows[BySlug(s.rows, def.slug).value].profile.content == def.content
            && s.rows[BySlug(s.rows, def.slug).value].tier == TierBefore(rows, def.slug)
  {
    hide Classify, Origin, PROVENANCE;
    var p := ToProfile(def, system, env.now);
    match BySlug(rows, def.slug)
    case None =>
      var q := NewProfile(p, env);
      OneRowSound(rows, Row(q, NEW_ROW_TIER));
      SlugFound(CreateRow(rows, p, env), q.id);
    case Some(id) =>
      var q := Preserve(p, rows[id].profile);
      OneRowSound(rows, Row(q.(hash := env.hash, version := env.version), rows[id].tier));
      SlugFound(UpdateRow(rows, q, env), id);
  }
}
