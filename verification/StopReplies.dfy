/**
 What the stop route answers, move by move and over whole runs: a second stop of an ended
 session reports stopped=false and changes nothing, and a call is turned away only when a gate
 or store call of its own fails.
 */
module StopReplies {
  import opened Common
  import opened SessionStop

  ghost predicate Still(s: State, s': State) {
    s'.rows == s.rows && s'.turns == s.turns
  }

  ghost predicate Says(s: State, t: Tid, answer: Answer, s': State)
    requires t in s.stops
  {
    s'.replies == s.replies[t := Reply(s.stops[t].id, answer)]
  }

  /** Every turn of the session is now canceled, and no other is touched. */
  ghost predicate Canceled(turns: map<Tid, TurnRow>, id: Id, turns': map<Tid, TurnRow>) {
    && turns'.Keys == turns.Keys
    && forall u | u in turns :: turns'[u] == TurnRow(turns[u].id, turns[u].canceled || turns[u].id == id)
  }

  ghost predicate HasTurn(s: State, id: Id) {
    exists u :: u in s.turns && s.turns[u].id == id
  }

  /** What a stop call under both locks does with its second look at the session. */
  ghost predicate LooksAgain(s: State, t: Tid, ok: bool, s': State)
    requires t in s.stops
  {
    && Still(s, s')
    && if !ok then Says(s, t, Failed, s')
       else if s.stops[t].id in s.rows.archived then Says(s, t, Ended(false, false), s')
       else s'.replies == s.replies
  }

  ghost predicate Commits(s: State, t: Tid, ok: bool, s': State)
    requires t in s.stops
  {
    && s'.turns == s.turns
    && if !ok then s'.rows == s.rows && Says(s, t, Failed, s')
       else s'.rows == s.rows.(archived := s.rows.archived + {s.stops[t].id}) && s'.replies == s.replies
  }

  ghost predicate Cancels(s: State, t: Tid, s': State)
    requires t in s.stops
  {
    var id := s.stops[t].id;
    s'.rows == s.rows && Canceled(s.turns, id, s'.turns) && Says(s, t, Ended(true, HasTurn(s, id)), s')
  }

  /** The effect of one move of a stop call on the session, its turns and the answers. */
  ghost predicate MovesRight(s: State, t: Tid, ok: bool, s': State)
    requires t in s.stops
  {
    match s.stops[t].at
    case Gated => LooksAgain(s, t, ok, s')
    case Live => Commits(s, t, ok, s')
    case Archived => Cancels(s, t, s')
    case Locked => Still(s, s') && if s.locker && !ok then Says(s, t, Busy, s') else s'.replies == s.replies
    case _ => Still(s, s') && s'.replies == s.replies
  }

  lemma AcquireSays(s: State, t: Tid, ok: bool)
    requires t in s.stops && s.stops[t].at in {Waiting, Locked} && Acquire(s, t, ok).Some?
    ensures MovesRight(s, t, ok, Acquire(s, t, ok).value)
  {
    hide SetHolder;
  }

  lemma ReleaseSays(s: State, t: Tid, ok: bool)
    requires t in s.stops && s.stops[t].at in {Answered, Ungated, Unlocked} && Release(s, t).Some?
    ensures MovesRight(s, t, ok, Release(s, t).value)
  {
    hide SetHolder, Leave;
  }

  lemma CancelSays(s: State, t: Tid)
    requires t in s.stops
    ensures Cancels(s, t, CancelTurns(s, t))
  {
  }

  /** Every move of a stop call, in any state. */
  lemma StopMovesRight(s: State, t: Tid, ok: bool)
    requires t in s.stops && Next(s, StopMoves(t, ok)).Some?
    ensures MovesRight(s, t, ok, Next(s, StopMoves(t, ok)).value)
  {
    hide Acquire, Release, CancelTurns, Cancels;
    match s.stops[t].at
    case Waiting | Locked => AcquireSays(s, t, ok);
    case Answered | Ungated | Unlocked => ReleaseSays(s, t, ok);
    case Archived => CancelSays(s, t);
    case _ =>
  }

  /** A stop call that finds its session ended answers stopped=false and changes nothing. */
  lemma SecondStopAnswers(s: State, t: Tid)
    requires Reachable(s) && t in s.stops && s.stops[t].at == Gated && s.stops[t].id in s.rows.archived
    ensures Next(s, StopMoves(t, true)).Some?
    ensures var s' := Next(s, StopMoves(t, true)).value;
            && t in s'.replies && s'.replies[t] == Reply(s.stops[t].id, Ended(false, false))
            && s'.rows == s.rows && s'.turns == s.turns
  {
    StopMovesRight(s, t, true);
  }

  ghost predicate NewAnswer(s: State, t: Tid, s': State) {
    t in s'.replies && (t in s.replies ==> s'.replies[t] != s.replies[t])
  }

  /** Where an answer comes from, over every action of anyone: not found from the first look,
      busy and failed from a call of the stop's own that fails, stopped=false from finding the
      session ended, with nothing changed, and stopped=true from the cancel, which reports a
      canceled turn exactly when the session has one. */
  lemma AnswerComesFrom(s: State, a: Action, t: Tid)
    requires Next(s, a).Some? && NewAnswer(s, t, Next(s, a).value)
    ensures var s' := Next(s, a).value;
            var Reply(id, answer) := s'.replies[t];
            match answer
            case NotFound => a == StopUnknown(t, id)
            case Busy => a == StopMoves(t, false)
            case Failed => a == StopMoves(t, false)
            case Ended(stopped, turnCanceled) =>
              && a.StopMoves? && a.t == t
              && if stopped then turnCanceled == HasTurn(s, id) && s'.rows == s.rows
                 else !turnCanceled && a.ok && id in s.rows.archived && Still(s, s')
  {
    hide StopMove, SubmitMove, Enter, HasTurn, Canceled;
    match a
    case StopMoves(u, ok) => StopMovesRight(s, u, ok);
    case SubmitMoves(u, ok) => SubmitReplies(s, u, ok);
    case _ =>
  }

  // ----- A stop of an ended session, over whole runs -----

  /** The call has not got past finding its session live, and what it answered is no stop. */
  ghost predicate Harmless(s: State, t: Tid, id: Id) {
    && id in s.rows.archived
    && (t in s.stops && s.stops[t].id == id ==> s.stops[t].at != Live && s.stops[t].at != Archived)
    && (t in s.replies && s.replies[t].id == id ==> s.replies[t].answer in {NotFound, Ended(false, false)})
  }

  /** A move past the second look starts at a live session. */
  ghost predicate StagesRight(s: State, t: Tid, q: map<Tid, StopCall>)
    requires t in s.stops
  {
    if t !in q then q == s.stops - {t}
    else
      && q == s.stops[t := q[t]] && q[t].id == s.stops[t].id
      && (q[t].at == Live ==> s.stops[t].id !in s.rows.archived)
      && (q[t].at == Archived ==> s.stops[t].at == Live)
  }

  lemma AcquireStages(s: State, t: Tid, ok: bool)
    requires t in s.stops && s.stops[t].at in {Waiting, Locked} && Acquire(s, t, ok).Some?
    ensures StagesRight(s, t, Acquire(s, t, ok).value.stops)
  {
    hide SetHolder;
  }

  lemma ReleaseStages(s: State, t: Tid)
    requires t in s.stops && s.stops[t].at in {Answered, Ungated, Unlocked} && Release(s, t).Some?
    ensures StagesRight(s, t, Release(s, t).value.stops)
  {
    hide SetHolder, Leave;
  }

  lemma MoveStages(s: State, t: Tid, ok: bool)
    requires t in s.stops && StopMove(s, t, ok).Some?
    ensures StagesRight(s, t, StopMove(s, t, ok).value.stops)
  {
    hide Acquire, Release, CancelAll;
    match s.stops[t].at
    case Waiting | Locked => AcquireStages(s, t, ok);
    case Answered | Ungated | Unlocked => ReleaseStages(s, t);
    case _ =>
  }

  lemma HarmlessMove(s: State, t: Tid, id: Id, u: Tid, ok: bool)
    requires Harmless(s, t, id) && u in s.stops && Next(s, StopMoves(u, ok)).Some? && (u == t ==> ok)
    ensures Harmless(Next(s, StopMoves(u, ok)).value, t, id)
  {
    StopMovesRight(s, u, ok);
    StopFrame(s, u, ok);
    MoveStages(s, u, ok);
    hide StopMove, Canceled, HasTurn;
  }

  lemma HarmlessNext(s: State, a: Action, t: Tid, id: Id)
    requires Harmless(s, t, id) && Next(s, a).Some? && (a.StopMoves? && a.t == t ==> a.ok)
    requires Revived(Next(s, a).value.rows, id) == Revived(s.rows, id)
    ensures Harmless(Next(s, a).value, t, id)
  {
    hide StopMove, SubmitMove, Enter;
    match a
    case StopMoves(u, ok) => HarmlessMove(s, t, id, u, ok);
    case SubmitMoves(u, ok) => SubmitFrame(s, u, ok); SubmitStill(s, u, ok);
    case _ =>
  }

  lemma SubmitStill(s: State, u: Tid, ok: bool)
    requires u in s.subs && SubmitMove(s, u, ok).Some?
    ensures var s' := SubmitMove(s, u, ok).value; s'.stops == s.stops && s'.replies == s.replies && s'.rows == s.rows
  {
  }

  lemma RevivalsGrow(s: State, a: Action, id: Id)
    requires Next(s, a).Some?
    ensures Revived(Next(s, a).value.rows, id) >= Revived(s.rows, id)
  {
    hide StopMove, SubmitMove, Enter;
    match a
    case StopMoves(u, ok) => StopFrame(s, u, ok);
    case SubmitMoves(u, ok) => SubmitStill(s, u, ok);
    case _ =>
  }

  lemma {:induction false} RunRevivals(s: State, run: seq<Action>, id: Id)
    requires Run(s, run).Some?
    ensures Revived(Run(s, run).value.rows, id) >= Revived(s.rows, id)
    decreases |run|
  {
    hide Next, Revived;
    if run != [] {
      RevivalsGrow(s, run[0], id);
      RunRevivals(Next(s, run[0]).value, run[1..], id);
    }
  }

  /** A stop call that comes when the session has ended, and whose own calls succeed, answers
      stopped=false whatever everyone else does, unless an update turns the session back. */
  lemma {:induction false} RepeatedStop(s: State, run: seq<Action>, t: Tid, id: Id)
    requires Run(s, run).Some? && Harmless(s, t, id)
    requires forall a <- run :: a.StopMoves? && a.t == t ==> a.ok
    requires Revived(Run(s, run).value.rows, id) == Revived(s.rows, id)
    ensures Harmless(Run(s, run).value, t, id)
    decreases |run|
  {
    hide Next, Revived, Harmless;
    if run != [] {
      var s' := Next(s, run[0]).value;
      assert run[0] in run;
      RevivalsGrow(s, run[0], id);
      RunRevivals(s', run[1..], id);
      HarmlessNext(s, run[0], t, id);
      RepeatedStop(s', run[1..], t, id);
    }
  }

  /** From a quiet state a whole second stop runs to its answer and leaves everything as it was. */
  lemma WholeSecondStop(s: State, t: Tid, id: Id) returns (s': State)
    requires Reachable(s) && Idle(s) && t !in s.replies && id in s.rows.archived
    ensures Reachable(s') && Idle(s') && s'.rows == s.rows && s'.turns == s.turns
    ensures s'.replies == s.replies[t := Reply(id, Ended(false, false))]
  {
    s' := StopGetsIn(s, t, id);
    s' := SecondLook(s', t, id);
    s' := StopLeaves(s', t);
  }

  lemma SecondLook(s: State, t: Tid, id: Id) returns (s': State)
    requires Reachable(s) && s.locker && s.subs == map[] && s.gate == map[id := ByStop(t)] && id in s.rows.archived
    requires t in s.stops && s.stops == map[t := s.stops[t]] && s.stops[t].id == id && s.stops[t].at == Gated
    ensures Reachable(s') && s'.locker && s'.subs == map[] && s'.gate == map[]
    ensures s'.rows == s.rows && s'.turns == s.turns && s'.replies == s.replies[t := Reply(id, Ended(false, false))]
    ensures t in s'.stops && s'.stops == map[t := s'.stops[t]] && s'.stops[t].at == Ungated
  {
    hide CancelAll, Acquire;
    s' := StopTo(s, t);
    s' := StopTo(s', t);
  }
}
