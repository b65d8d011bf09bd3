/**
 Server auto-start: any number of launchers check the server's health, try the lock file,
 check again under the lock, spawn and poll.

 A launcher is a program counter that moves one observable action at a time, so every
 interleaving is a sequence of steps.  The server comes up and goes down by itself, health
 checks may time out against a healthy server, and a launcher may die anywhere, its file
 lock then being dropped by the system.
 */
module Autostart {
  type Launcher = nat

  datatype Pc =
    | Start
    | Locking
    | Recheck
    | Spawning
    | Polling(owner: bool)
    | Releasing(ok: bool)
    | Done(ok: bool)

  datatype State = State(
    pcs: map<Launcher, Pc>,
    lock: set<Launcher>,
    healthy: bool,
    spawns: nat,
    failedPolls: nat,
    losses: nat,
    falseNegatives: nat)

  /** The configuration of one call: the flag and whether the target can be spawned here. */
  datatype Call = Call(noAutostart: bool, loopback: bool)

  function PcOf(s: State, t: Launcher): Pc {
    if t in s.pcs then s.pcs[t] else Start
  }

  function Move(s: State, t: Launcher, pc: Pc): State {
    s.(pcs := s.pcs[t := pc])
  }

  predicate Holding(pc: Pc) {
    pc.Recheck? || pc.Spawning? || pc == Polling(true) || pc.Releasing?
  }

  // ----- What a launcher does -----

  /** A check that says yes is right; a check that says no may be wrong. */
  predicate MayAnswer(s: State, answer: bool) {
    answer ==> s.healthy
  }

  /** The first check, before any lock. */
  predicate FirstCheck(s: State, t: Launcher, call: Call, s': State) {
    PcOf(s, t).Start? && exists answer | MayAnswer(s, answer) ::
      s' == Move(s, t,
        if answer then Done(true)
        else if call.noAutostart then Done(false)
        else if !call.loopback then Done(true)
        else Locking)
  }

  /** `TryAcquire`: the lock when it is free, the other owner's poll when it is not, or an
      error of the lock file itself. */
  predicate TryLock(s: State, t: Launcher, s': State) {
    PcOf(s, t).Locking? &&
    (|| (s.lock == {} && s' == Move(s, t, Recheck).(lock := {t}))
     || (s.lock != {} && s' == Move(s, t, Polling(false)))
     || s' == Move(s, t, Done(false)))
  }

  /** The second check, under the lock. */
  predicate CheckAgain(s: State, t: Launcher, s': State) {
    PcOf(s, t).Recheck? &&
    (|| (s.healthy && s' == Move(s, t, Releasing(true)))
     || s' == Move(s, t, Spawning).(falseNegatives := s.falseNegatives + if s.healthy then 1 else 0))
  }

  predicate Spawn(s: State, t: Launcher, s': State) {
    PcOf(s, t).Spawning? &&
    (|| s' == Move(s, t, Polling(true)).(spawns := s.spawns + 1)
     || s' == Move(s, t, Releasing(false)))
  }

  /** The poll ends at a yes, or without one: the deadline, a cancelled call, a dead child. */
  predicate OwnerPollEnds(s: State, t: Launcher, s': State) {
    PcOf(s, t) == Polling(true) &&
    (|| (s.healthy && s' == Move(s, t, Releasing(true)))
     || s' == Move(s, t, Releasing(false)).(failedPolls := s.failedPolls + 1))
  }

  predicate WaiterPollEnds(s: State, t: Launcher, s': State) {
    PcOf(s, t) == Polling(false) &&
    (|| (s.healthy && s' == Move(s, t, Done(true)))
     || s' == Move(s, t, Done(false)))
  }

  predicate Release(s: State, t: Launcher, s': State) {
    PcOf(s, t).Releasing? && s' == Move(s, t, Done(PcOf(s, t).ok)).(lock := s.lock - {t})
  }

  /** A launcher dies; a spawner's poll then ended without readiness. */
  predicate Die(s: State, t: Launcher, s': State) {
    && !PcOf(s, t).Done?
    && s' == Move(s, t, Done(false)).(
               lock := s.lock - {t},
               failedPolls := s.failedPolls + if PcOf(s, t) == Polling(true) then 1 else 0)
  }

  // ----- What the server does -----

  predicate ServerUp(s: State, s': State) {
    s' == s.(healthy := true)
  }

  predicate ServerDown(s: State, s': State) {
    s' == s.(healthy := false, losses := s.losses + if s.healthy then 1 else 0)
  }

  datatype Action = Launch(t: Launcher, call: Call) | Death(t: Launcher) | Up | Down

  predicate LockPhase(s: State, t: Launcher, s': State) {
    TryLock(s, t, s') || CheckAgain(s, t, s') || Spawn(s, t, s')
  }

  predicate EndPhase(s: State, t: Launcher, s': State) {
    OwnerPollEnds(s, t, s') || WaiterPollEnds(s, t, s') || Release(s, t, s')
  }

  predicate Next(s: State, a: Action, s': State) {
    match a
    case Launch(t, call) => FirstCheck(s, t, call, s') || LockPhase(s, t, s') || EndPhase(s, t, s')
    case Death(t) => Die(s, t, s')
    case Up => ServerUp(s, s')
    case Down => ServerDown(s, s')
  }

  ghost predicate Init(s: State) {
    && s.pcs == map[] && s.lock == {}
    && s.spawns == s.failedPolls == s.losses == s.falseNegatives == 0
  }

  /** `run[i + 1]` follows `run[i]` by `acts[i]`. */
  ghost predicate Run(run: seq<State>, acts: seq<Action>) {
    |run| == |acts| + 1 && forall i | 0 <= i < |acts| :: Next(run[i], acts[i], run[i + 1])
  }

  // ----- The lock -----

  /** The launchers between acquiring and releasing are exactly those the lock names, and
      the lock names at most one. */
  ghost predicate LockSound(s: State) {
    && (forall t :: t in s.lock <==> Holding(PcOf(s, t)))
    && (forall t, u | t in s.lock && u in s.lock :: t == u)
  }

  lemma NextKeepsLock(s: State, a: Action, s': State)
    requires LockSound(s) && Next(s, a, s')
    ensures LockSound(s')
  {
    match a
    case Launch(t, call) =>
      assert forall u | u != t :: PcOf(s', u) == PcOf(s, u);
    case Death(t) =>
      assert forall u | u != t :: PcOf(s', u) == PcOf(s, u);
    case Up =>
      assert forall u :: PcOf(s', u) == PcOf(s, u);
    case Down =>
      assert forall u :: PcOf(s', u) == PcOf(s, u);
  }

  lemma {:induction false} RunKeepsLock(run: seq<State>, acts: seq<Action>, i: nat)
    requires Run(run, acts) && LockSound(run[0]) && i < |run|
    ensures LockSound(run[i])
  {
    if i > 0 {
      RunKeepsLock(run, acts, i - 1);
      NextKeepsLock(run[i - 1], acts[i - 1], run[i]);
    }
  }

  /** The lock holds of spawners never overlap. */
  lemma HoldsNeverOverlap(run: seq<State>, acts: seq<Action>, i: nat, t: Launcher, u: Launcher)
    requires Run(run, acts) && Init(run[0]) && i < |run|
    requires Holding(PcOf(run[i], t)) && Holding(PcOf(run[i], u))
    ensures t == u
  {
    assert LockSound(run[0]);
    RunKeepsLock(run, acts, i);
  }

  // ----- The account -----

  function Excuses(s: State): nat {
    s.failedPolls + s.losses + s.falseNegatives
  }

  ghost predicate AboutToSpawn(s: State) {
    exists t :: PcOf(s, t).Spawning?
  }

  /** A server is there, or its spawner is still waiting for it; nobody is about to add one. */
  ghost predicate Covered(s: State) {
    !AboutToSpawn(s) && (s.healthy || exists t :: PcOf(s, t) == Polling(true))
  }

  ghost function Cover(s: State): nat {
    if Covered(s) then 1 else 0
  }

  /** What the excuses and the cover allow, less what was spawned. */
  ghost function Account(s: State): int {
    Excuses(s) + Cover(s) - s.spawns
  }

  /** No step of anyone ever lowers the account. */
  lemma NextKeepsAccount(s: State, a: Action, s': State)
    requires LockSound(s) && Next(s, a, s')
    ensures Account(s') >= Account(s)
  {
    NextKeepsLock(s, a, s');
    match a
    case Launch(t, call) =>
      assert forall u | u != t :: PcOf(s', u) == PcOf(s, u);
      assert PcOf(s', t) == s'.pcs[t];
    case Death(t) =>
      assert forall u | u != t :: PcOf(s', u) == PcOf(s, u);
      assert PcOf(s', t) == s'.pcs[t];
    case Up =>
      assert forall u :: PcOf(s', u) == PcOf(s, u);
    case Down =>
      assert forall u :: PcOf(s', u) == PcOf(s, u);
  }

  lemma {:induction false} RunKeepsAccount(run: seq<State>, acts: seq<Action>, i: nat, j: nat)
    requires Run(run, acts) && LockSound(run[0]) && i <= j < |run|
    ensures Account(run[j]) >= Account(run[i])
  {
    if i < j {
      RunKeepsAccount(run, acts, i, j - 1);
      RunKeepsLock(run, acts, j - 1);
      NextKeepsAccount(run[j - 1], acts[j - 1], run[j]);
    }
  }

  /** Between any two moments of a run: at most one spawn more than there were failed
      polls, losses and false negatives in between, and not even that one more when the
      first moment was covered. */
  lemma SpawnsBounded(run: seq<State>, acts: seq<Action>, i: nat, j: nat)
    requires Run(run, acts) && Init(run[0]) && i <= j < |run|
    ensures run[j].spawns - run[i].spawns <= Excuses(run[j]) - Excuses(run[i]) + 1 - Cover(run[i])
  {
    assert LockSound(run[0]);
    RunKeepsAccount(run, acts, i, j);
  }

  /** With no failed poll, loss or false negative, any number of launchers spawn one server,
      and none while one is up and nobody was already about to spawn. */
  lemma OneServer(run: seq<State>, acts: seq<Action>, i: nat, j: nat)
    requires Run(run, acts) && Init(run[0]) && i <= j < |run|
    requires Excuses(run[i]) == Excuses(run[j])
    ensures run[j].spawns <= run[i].spawns + 1
    ensures run[i].healthy && !AboutToSpawn(run[i]) ==> run[j].spawns == run[i].spawns
  {
    SpawnsBounded(run, acts, i, j);
    SpawnsGrow(run, acts, i, j);
  }

  lemma {:induction false} SpawnsGrow(run: seq<State>, acts: seq<Action>, i: nat, j: nat)
    requires Run(run, acts) && i <= j < |run|
    ensures run[i].spawns <= run[j].spawns
  {
    if i < j {
      SpawnsGrow(run, acts, i, j - 1);
      assert Next(run[j - 1], acts[j - 1], run[j]);
    }
  }

  // ----- The answer a launcher gives -----

  predicate Succeeding(pc: Pc) {
    pc == Done(true) || pc == Releasing(true)
  }

  /** The target is elsewhere and nothing forbids going on without a server. */
  predicate Remote(call: Call) {
    !call.noAutostart && !call.loopback
  }

  /** A launcher that returns without an error has seen a healthy server during its call, unless
      it may go on without one. */
  lemma {:induction false} SuccessSawHealth(run: seq<State>, acts: seq<Action>, j: nat, t: Launcher) returns (i: nat)
    requires Run(run, acts) && j < |run|
    requires !Succeeding(PcOf(run[0], t)) && Succeeding(PcOf(run[j], t))
    requires forall k | 0 <= k < |acts| :: acts[k].Launch? && acts[k].t == t ==> !Remote(acts[k].call)
    ensures i < j && run[i].healthy && !Succeeding(PcOf(run[i], t))
    decreases j
  {
    if Succeeding(PcOf(run[j - 1], t)) {
      i := SuccessSawHealth(run, acts, j - 1, t);
    } else {
      i := j - 1;
      assert Next(run[i], acts[i], run[j]);
    }
  }

  predicate OptsOut(call: Call) {
    call.noAutostart || !call.loopback
  }

  /** A launcher told not to start a server, or with a target elsewhere, never takes the lock,
      and so never spawns. */
  lemma {:induction false} OptedOutStaysOut(run: seq<State>, acts: seq<Action>, j: nat, t: Launcher)
    requires Run(run, acts) && j < |run| && PcOf(run[0], t).Start?
    requires forall k | 0 <= k < |acts| && acts[k].Launch? && acts[k].t == t :: OptsOut(acts[k].call)
    ensures PcOf(run[j], t).Start? || PcOf(run[j], t).Done?
  {
    if j > 0 {
      OptedOutStaysOut(run, acts, j - 1, t);
      assert Next(run[j - 1], acts[j - 1], run[j]);
    }
  }

  /** The outcomes of such a launcher, all of them: it returns at once, without an error when the
      server answers or when the target is elsewhere and the flag is not given, and with one when
      the flag is given and the check does not say yes. */
  lemma OptedOutExactly(s: State, t: Launcher, call: Call, s': State)
    requires PcOf(s, t).Start? && OptsOut(call)
    ensures Next(s, Launch(t, call), s') <==>
            || (s' == Move(s, t, Done(true)) && (s.healthy || !call.noAutostart))
            || (s' == Move(s, t, Done(false)) && call.noAutostart)
  {
    assert MayAnswer(s, false) && (s.healthy ==> MayAnswer(s, true));
  }

  /** With a target elsewhere and without the flag, a launcher that lives never fails. */
  lemma {:induction false} RemoteNeverFails(run: seq<State>, acts: seq<Action>, j: nat, t: Launcher)
    requires Run(run, acts) && j < |run| && PcOf(run[0], t).Start? && forall a <- acts :: a != Death(t)
    requires forall k | 0 <= k < |acts| && acts[k].Launch? && acts[k].t == t :: Remote(acts[k].call)
    ensures PcOf(run[j], t) == Start || PcOf(run[j], t) == Done(true)
  {
    if j > 0 {
      RemoteNeverFails(run, acts, j - 1, t);
      assert Next(run[j - 1], acts[j - 1], run[j]) && acts[j - 1] in acts;
    }
  }

  // ----- A healthy server is enough -----

  /** A run in which only `t` moves, living. */
  ghost predicate Alone(run: seq<State>, acts: seq<Action>, t: Launcher, call: Call) {
    Run(run, acts) && forall a <- acts :: a == Launch(t, call)
  }

  lemma Go(run: seq<State>, acts: seq<Action>, t: Launcher, call: Call, s: State)
    returns (run': seq<State>, acts': seq<Action>)
    requires Alone(run, acts, t, call) && Next(run[|run| - 1], Launch(t, call), s)
    ensures Alone(run', acts', t, call) && run'[0] == run[0] && run'[|run'| - 1] == s
  {
    run', acts' := run + [s], acts + [Launch(t, call)];
    forall i | 0 <= i < |acts'| ensures Next(run'[i], acts'[i], run'[i + 1]) {
      if i < |acts| {
        assert Next(run[i], acts[i], run[i + 1]);
      }
    }
  }

  /** Where a launcher can still succeed without a server being spawned. */
  predicate Hopeful(pc: Pc) {
    pc != Spawning && pc != Releasing(false) && pc != Done(false)
  }

  /** Before its checks and polls a launcher is one step from success when the server is up. */
  lemma HealthyStep(s: State, t: Launcher, call: Call) returns (s': State)
    requires s.healthy && PcOf(s, t) in {Start, Recheck, Polling(true), Polling(false)}
    ensures Next(s, Launch(t, call), s') && Succeeding(PcOf(s', t)) && s'.healthy && s'.spawns == s.spawns
  {
    var pc := PcOf(s, t);
    assert MayAnswer(s, true);
    s' := Move(s, t, if pc == Start || pc == Polling(false) then Done(true) else Releasing(true));
  }

  lemma LockingStep(s: State, t: Launcher, call: Call) returns (s': State)
    requires PcOf(s, t) == Locking
    ensures Next(s, Launch(t, call), s') && PcOf(s', t) in {Recheck, Polling(false)}
    ensures s'.healthy == s.healthy && s'.spawns == s.spawns
  {
    s' := if s.lock == {} then Move(s, t, Recheck).(lock := {t}) else Move(s, t, Polling(false));
  }

  /** When the server is up, every launcher that has not failed and is not about to spawn comes
      to success by its own moves, with no further spawn. */
  lemma HealthySucceeds(s: State, t: Launcher, call: Call) returns (run: seq<State>, acts: seq<Action>)
    requires s.healthy && Hopeful(PcOf(s, t))
    ensures Alone(run, acts, t, call) && run[0] == s
    ensures PcOf(run[|run| - 1], t) == Done(true) && run[|run| - 1].spawns == s.spawns
  {
    run, acts := [s], [];
    var now := s;
    if PcOf(now, t) == Locking {
      now := LockingStep(now, t, call);
      run, acts := Go(run, acts, t, call, now);
    }
    if !Succeeding(PcOf(now, t)) {
      now := HealthyStep(now, t, call);
      run, acts := Go(run, acts, t, call, now);
    }
    if PcOf(now, t) == Releasing(true) {
      now := Move(now, t, Done(true)).(lock := now.lock - {t});
      run, acts := Go(run, acts, t, call, now);
    }
  }

  ghost predicate SucceedsFrom(s: State, t: Launcher, run: seq<State>, acts: seq<Action>) {
    Run(run, acts) && run[0] == s && PcOf(run[|run| - 1], t) == Done(true) && run[|run| - 1].spawns == s.spawns
  }

  ghost predicate CanSucceed(s: State, t: Launcher) {
    exists run, acts :: SucceedsFrom(s, t, run, acts)
  }

  lemma HopelessStep(s: State, a: Action, s': State, t: Launcher)
    requires Next(s, a, s') && !Hopeful(PcOf(s, t)) && s'.spawns == s.spawns
    ensures !Hopeful(PcOf(s', t))
  {
  }

  lemma {:induction false} StaysHopeless(run: seq<State>, acts: seq<Action>, j: nat, t: Launcher)
    requires Run(run, acts) && j < |run| && !Hopeful(PcOf(run[0], t)) && run[|run| - 1].spawns == run[0].spawns
    ensures !Hopeful(PcOf(run[j], t))
  {
    hide Next, Hopeful;
    if j > 0 {
      StaysHopeless(run, acts, j - 1, t);
      SpawnsGrow(run, acts, 0, j - 1);
      SpawnsGrow(run, acts, j - 1, j);
      SpawnsGrow(run, acts, j, |run| - 1);
      HopelessStep(run[j - 1], acts[j - 1], run[j], t);
    }
  }

  /** With the server up, a launcher can still succeed without a further spawn exactly when it
      has not failed and is not about to spawn. */
  lemma CanSucceedExactly(s: State, t: Launcher)
    requires s.healthy
    ensures CanSucceed(s, t) <==> Hopeful(PcOf(s, t))
  {
    hide Next;
    if Hopeful(PcOf(s, t)) {
      var run, acts := HealthySucceeds(s, t, Call(false, true));
      assert SucceedsFrom(s, t, run, acts);
    }
    if run, acts :| SucceedsFrom(s, t, run, acts) {
      if !Hopeful(PcOf(s, t)) { StaysHopeless(run, acts, |run| - 1, t); }
    }
  }

  // ----- The bound is reached -----

  /** Nobody is in a call and launchers from `unused` on have not started. */
  ghost predicate Quiet(s: State, unused: nat) {
    s.lock == {} && forall t :: (t in s.pcs ==> t < unused && s.pcs[t].Done?)
  }

  lemma Extend(run: seq<State>, acts: seq<Action>, a: Action, s: State) returns (run': seq<State>, acts': seq<Action>)
    requires Run(run, acts) && Next(run[|run| - 1], a, s)
    ensures Run(run', acts') && run'[0] == run[0] && run'[|run'| - 1] == s
  {
    run', acts' := run + [s], acts + [a];
    forall i | 0 <= i < |acts'| ensures Next(run'[i], acts'[i], run'[i + 1]) {
      if i < |acts| {
        assert Next(run[i], acts[i], run[i + 1]);
      }
    }
  }

  /** One whole call that misses the server twice, spawns, and polls with success or without. */
  lemma Round(run: seq<State>, acts: seq<Action>, t: Launcher, up: bool) returns (run': seq<State>, acts': seq<Action>)
    requires Run(run, acts) && Quiet(run[|run| - 1], t)
    ensures Run(run', acts') && run'[0] == run[0]
    ensures var s, s' := run[|run| - 1], run'[|run'| - 1];
            && Quiet(s', t + 1) && s'.healthy == (s.healthy || up) && s'.losses == s.losses
            && s'.spawns == s.spawns + 1
            && s'.falseNegatives == s.falseNegatives + (if s.healthy then 1 else 0)
            && s'.failedPolls == s.failedPolls + (if up then 0 else 1)
  {
    var s := run[|run| - 1];
    var call := Call(false, true);
    assert MayAnswer(s, false);
    var a := Launch(t, call);
    var s1 := Move(s, t, Locking);
    assert Next(s, a, s1);
    run', acts' := Extend(run, acts, a, s1);
    var s2 := Move(s1, t, Recheck).(lock := {t});
    run', acts' := Extend(run', acts', a, s2);
    var s3 := Move(s2, t, Spawning).(falseNegatives := s.falseNegatives + if s.healthy then 1 else 0);
    run', acts' := Extend(run', acts', a, s3);
    run', acts' := Finish(run', acts', t, up);
  }

  lemma Finish(run: seq<State>, acts: seq<Action>, t: Launcher, up: bool) returns (run': seq<State>, acts': seq<Action>)
    requires Run(run, acts) && PcOf(run[|run| - 1], t).Spawning?
    ensures Run(run', acts') && run'[0] == run[0]
    ensures var s, s' := run[|run| - 1], run'[|run'| - 1];
            && s'.pcs == s.pcs[t := Done(up)] && s'.lock == s.lock - {t}
            && s'.healthy == (s.healthy || up) && s'.losses == s.losses
            && s'.spawns == s.spawns + 1 && s'.falseNegatives == s.falseNegatives
            && s'.failedPolls == s.failedPolls + (if up then 0 else 1)
  {
    var a := Launch(t, Call(false, true));
    var s := run[|run| - 1];
    var s1 := Move(s, t, Polling(true)).(spawns := s.spawns + 1);
    run', acts' := Extend(run, acts, a, s1);
    if up {
      run', acts' := Extend(run', acts', Up, s1.(healthy := true));
      run', acts' := Extend(run', acts', a, Move(s1.(healthy := true), t, Releasing(true)));
    } else {
      run', acts' := Extend(run', acts', a, Move(s1, t, Releasing(false)).(failedPolls := s.failedPolls + 1));
    }
    var s2 := run'[|run'| - 1];
    var s3 := Move(s2, t, Done(up)).(lock := s2.lock - {t});
    run', acts' := Extend(run', acts', a, s3);
  }

  /** Every combination of excuses has a run that spends all of them. */
  lemma {:induction false} BoundIsReached(f: nat, l: nat, n: nat) returns (run: seq<State>, acts: seq<Action>)
    ensures Run(run, acts) && Init(run[0]) && Quiet(run[|run| - 1], 1 + f + l + n) && run[|run| - 1].healthy
    ensures var s := run[|run| - 1];
            s.failedPolls == f && s.losses == l && s.falseNegatives == n && s.spawns == 1 + f + l + n
    decreases l + n
  {
    if n > 0 {
      run, acts := BoundIsReached(f, l, n - 1);
      run, acts := Round(run, acts, f + l + n, true);
    } else if l > 0 {
      run, acts := BoundIsReached(f, l - 1, n);
      var s := run[|run| - 1];
      run, acts := Extend(run, acts, Down, s.(healthy := false, losses := l));
      run, acts := Round(run, acts, f + l, true);
    } else {
      run, acts := OnlyFailures(f);
      run, acts := Round(run, acts, f, true);
    }
  }

  lemma {:induction false} OnlyFailures(f: nat) returns (run: seq<State>, acts: seq<Action>)
    ensures Run(run, acts) && Init(run[0]) && Quiet(run[|run| - 1], f) && !run[|run| - 1].healthy
    ensures var s := run[|run| - 1]; s.failedPolls == f && s.losses == 0 && s.falseNegatives == 0 && s.spawns == f
  {
    if f == 0 {
      run, acts := [State(map[], {}, false, 0, 0, 0, 0)], [];
    } else {
      run, acts := OnlyFailures(f - 1);
      run, acts := Round(run, acts, f - 1, false);
    }
  }
}
