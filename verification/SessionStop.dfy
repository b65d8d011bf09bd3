/**
 The stop route of a session: the reference-counted table of per-session locks
 (`lockStop`), the conversation gate it shares with turn admission, and the order
 archive / cancel / answer.  Every lock operation, store call and service call is
 one atomic action of one thread; a run is any finite interleaving of actions of
 any number of stop calls, turn submissions, deletes and updates.
 */
module SessionStop {
  import opened Common
  import Counting

  type Id = string
  type Tid = nat
  type Addr = nat

  // ----- The lock table -----

  datatype StopLock = StopLock(refs: int, holder: Option<Tid>)

  /** `stopLocks` together with the heap of lock objects it points into.  Objects
      dropped from the table stay on the heap: a late waiter could still see them. */
  datatype Locks = Locks(table: map<Id, Addr>, heap: map<Addr, StopLock>, next: Addr)

  /** Find or create the entry, and count one more reference. */
  function Enter(k: Locks, id: Id): (r: (Locks, Addr))
    ensures id in r.0.table && r.0.table[id] == r.1
  {
    if id in k.table && k.table[id] in k.heap then
      var a := k.table[id];
      (k.(heap := k.heap[a := k.heap[a].(refs := k.heap[a].refs + 1)]), a)
    else
      (Locks(k.table[id := k.next], k.heap[k.next := StopLock(1, None)], k.next + 1), k.next)
  }

  /** Drop one reference to `a`; the last one deletes whatever entry `id` has. */
  function Leave(k: Locks, id: Id, a: Addr): Locks
    requires a in k.heap
  {
    var l := k.heap[a].(refs := k.heap[a].refs - 1);
    Locks(if l.refs == 0 then k.table - {id} else k.table, k.heap[a := l], k.next)
  }

  function SetHolder(k: Locks, a: Addr, h: Option<Tid>): Locks
    requires a in k.heap
  {
    k.(heap := k.heap[a := k.heap[a].(holder := h)])
  }

  ghost predicate Linked(k: Locks) {
    && (forall id <- k.table :: k.table[id] in k.heap)
    && (forall a <- k.heap :: a < k.next)
    && (forall i, j | i in k.table && j in k.table && k.table[i] == k.table[j] :: i == j)
  }

  /** The two critical sections of `lockStop`, as they update the table in place. */
  class LockTable {
    var stopLocks: map<Id, Addr>
    var heap: map<Addr, StopLock>
    var next: Addr

    ghost function View(): Locks reads this {
      Locks(stopLocks, heap, next)
    }

    constructor ()
      ensures View() == Locks(map[], map[], 0)
    {
      stopLocks, heap, next := map[], map[], 0;
    }

    method Register(id: Id) returns (l: Addr)
      requires Linked(View())
      modifies this
      ensures (View(), l) == Enter(old(View()), id)
    {
      if id !in stopLocks {
        l := next;
        heap, next := heap[l := StopLock(0, None)], next + 1;
        stopLocks := stopLocks[id := l];
      } else {
        l := stopLocks[id];
      }
      heap := heap[l := heap[l].(refs := heap[l].refs + 1)];
      assert heap == Enter(old(View()), id).0.heap;
    }

    method Unregister(id: Id, l: Addr)
      requires l in heap
      modifies this
      ensures View() == Leave(old(View()), id, l)
    {
      heap := heap[l := heap[l].(refs := heap[l].refs - 1)];
      if heap[l].refs == 0 {
        stopLocks := stopLocks - {id};
      }
    }
  }

  // ----- The protocol -----

  datatype Answer = NotFound | Busy | Failed | Ended(stopped: bool, turnCanceled: bool)

  datatype Reply = Reply(id: Id, answer: Answer)

  /** Where a stop call stands between registering and dropping its reference. */
  datatype Stage = Waiting | Locked | Gated | Live | Archived | Answered | Ungated | Unlocked

  datatype StopCall = StopCall(id: Id, lock: Addr, at: Stage)

  /** A turn submission; any other operation under the gate is one that is refused. */
  datatype Step = Asking | Holding | Open | Closing

  datatype Submission = Submission(id: Id, at: Step)

  datatype Owner = ByStop(t: Tid) | BySubmission(t: Tid)

  datatype TurnRow = TurnRow(id: Id, canceled: bool)

  /** A session update between its read of the row and its write: the status it will
      write, which is the one it read unless the request names one. */
  datatype Pending = Pending(id: Id, archived: bool)

  /** The stored rows and the updates under way; `revived` counts how often an update has
      turned an archived session back. */
  datatype Rows = Rows(archived: set<Id>, updates: map<Tid, Pending>, revived: map<Id, nat>)

  /** `locker` says whether the chat service offers the conversation gate. */
  datatype State = State(
    locker: bool,
    k: Locks,
    stops: map<Tid, StopCall>,
    subs: map<Tid, Submission>,
    gate: map<Id, Owner>,
    rows: Rows,
    turns: map<Tid, TurnRow>,
    replies: map<Tid, Reply>)

  datatype Action =
    | StopUnknown(t: Tid, id: Id)
    | StopArrives(t: Tid, id: Id)
    | StopMoves(t: Tid, ok: bool)
    | SubmitArrives(t: Tid, id: Id)
    | SubmitMoves(t: Tid, ok: bool)
    | TurnEnds(t: Tid)
    | Delete(id: Id)
    | UpdateReads(t: Tid, id: Id, status: Option<bool>)
    | UpdateWrites(t: Tid)

  function Revived(rows: Rows, id: Id): nat {
    if id in rows.revived then rows.revived[id] else 0
  }

  function Archive(rows: Rows, id: Id): Rows {
    rows.(archived := rows.archived + {id})
  }

  /** An update that names no status will write the one it reads. */
  function ReadRow(rows: Rows, t: Tid, id: Id, status: Option<bool>): Rows {
    rows.(updates := rows.updates[t := Pending(id, if status.Some? then status.value else id in rows.archived)])
  }

  function Revive(rows: Rows, id: Id): Rows {
    if id !in rows.archived then rows
    else rows.(archived := rows.archived - {id}, revived := rows.revived[id := Revived(rows, id) + 1])
  }

  /** An update writes the whole row, the status with it. */
  function WriteRow(rows: Rows, t: Tid): Rows
    requires t in rows.updates
  {
    var Pending(id, archived) := rows.updates[t];
    var done := rows.(updates := rows.updates - {t});
    if archived then Archive(done, id) else Revive(done, id)
  }

  predicate Inside(at: Stage) {
    at != Waiting && at != Unlocked
  }

  predicate Gates(at: Stage) {
    at == Gated || at == Live || at == Archived || at == Answered
  }

  function Init(locker: bool): State {
    State(locker, Locks(map[], map[], 0), map[], map[], map[], Rows({}, map[], map[]), map[], map[])
  }

  function CancelAll(turns: map<Tid, TurnRow>, id: Id): map<Tid, TurnRow> {
    map u | u in turns :: if turns[u].id == id then turns[u].(canceled := true) else turns[u]
  }

  function At(s: State, t: Tid, at: Stage): State
    requires t in s.stops
  {
    s.(stops := s.stops[t := s.stops[t].(at := at)])
  }

  function WithReply(s: State, t: Tid, at: Stage, answer: Answer): State
    requires t in s.stops
  {
    At(s, t, at).(replies := s.replies[t := Reply(s.stops[t].id, answer)])
  }

  /** Taking the stop lock, then the conversation gate; `None` while one is held. */
  function Acquire(s: State, t: Tid, ok: bool): (r: Option<State>)
    requires t in s.stops
  {
    var StopCall(id, l, at) := s.stops[t];
    if at == Waiting then
      if l in s.k.heap && s.k.heap[l].holder.None? then
        Some(At(s, t, Locked).(k := SetHolder(s.k, l, Some(t))))
      else None
    else if !s.locker then Some(At(s, t, Gated))
    else if !ok then Some(WithReply(s, t, Ungated, Busy))
    else if id in s.gate then None
    else Some(At(s, t, Gated).(gate := s.gate[id := ByStop(t)]))
  }

  /** Re-reading the session under both locks. */
  function Reread(s: State, t: Tid, ok: bool): (r: State)
    requires t in s.stops
  {
    if !ok then WithReply(s, t, Answered, Failed)
    else if s.stops[t].id in s.rows.archived then WithReply(s, t, Answered, Ended(false, false))
    else At(s, t, Live)
  }

  /** `endSession`: nothing happens unless the archive commits. */
  function EndSession(s: State, t: Tid, ok: bool): (r: State)
    requires t in s.stops
  {
    if !ok then WithReply(s, t, Answered, Failed)
    else At(s, t, Archived).(rows := Archive(s.rows, s.stops[t].id))
  }

  /** Cancel what was already running, then answer. */
  function CancelTurns(s: State, t: Tid): (r: State)
    requires t in s.stops
  {
    var id := s.stops[t].id;
    var hit := exists u :: u in s.turns && s.turns[u].id == id;
    WithReply(s, t, Answered, Ended(true, hit)).(turns := CancelAll(s.turns, id))
  }

  /** The deferred releases: the gate, the mutex, and the reference to the lock. */
  function Release(s: State, t: Tid): (r: Option<State>)
    requires t in s.stops
  {
    var StopCall(id, l, at) := s.stops[t];
    if at == Answered then
      Some(At(s, t, Ungated).(gate := if s.locker then s.gate - {id} else s.gate))
    else if l !in s.k.heap then None
    else if at == Ungated then
      Some(At(s, t, Unlocked).(k := SetHolder(s.k, l, None)))
    else
      Some(s.(k := Leave(s.k, id, l), stops := s.stops - {t}))
  }

  /** The next move of stop call `t`; `ok` is the outcome of the gate or store call
      the move makes. */
  function StopMove(s: State, t: Tid, ok: bool): (r: Option<State>)
    requires t in s.stops
  {
    match s.stops[t].at
    case Waiting | Locked => Acquire(s, t, ok)
    case Gated => Some(Reread(s, t, ok))
    case Live => Some(EndSession(s, t, ok))
    case Archived => Some(CancelTurns(s, t))
    case Answered | Ungated | Unlocked => Release(s, t)
  }

  /** The next move of submission `t`; `ok` is false when it gives up or is refused
      for a reason other than the session's state. */
  function SubmitMove(s: State, t: Tid, ok: bool): (r: Option<State>)
    requires t in s.subs
  {
    var Submission(id, at) := s.subs[t];
    match at
    case Asking =>
      if !ok then Some(s.(subs := s.subs - {t}))
      else if id in s.gate then None
      else Some(s.(subs := s.subs[t := Submission(id, Holding)], gate := s.gate[id := BySubmission(t)]))
    case Holding =>
      Some(s.(subs := s.subs[t := Submission(id, if ok && id !in s.rows.archived then Open else Closing)]))
    case Open =>
      Some(s.(subs := s.subs[t := Submission(id, Closing)],
              turns := if ok then s.turns[t := TurnRow(id, false)] else s.turns))
    case Closing =>
      Some(s.(subs := s.subs - {t}, gate := s.gate - {id}))
  }

  function Next(s: State, a: Action): (r: Option<State>) {
    match a
    case StopUnknown(t, id) =>
      if t in s.stops || t in s.replies then None
      else Some(s.(replies := s.replies[t := Reply(id, NotFound)]))
    case StopArrives(t, id) =>
      if t in s.stops || t in s.replies then None
      else
        var (k, l) := Enter(s.k, id);
        Some(s.(k := k, stops := s.stops[t := StopCall(id, l, Waiting)]))
    case StopMoves(t, ok) => if t in s.stops then StopMove(s, t, ok) else None
    case SubmitArrives(t, id) =>
      if t in s.subs || t in s.turns then None
      else Some(s.(subs := s.subs[t := Submission(id, Asking)]))
    case SubmitMoves(t, ok) => if t in s.subs then SubmitMove(s, t, ok) else None
    case TurnEnds(t) => if t in s.turns then Some(s.(turns := s.turns - {t})) else None
    case Delete(id) => Some(s.(rows := Archive(s.rows, id)))
    case UpdateReads(t, id, status) =>
      if t in s.rows.updates then None else Some(s.(rows := ReadRow(s.rows, t, id, status)))
    case UpdateWrites(t) => if t in s.rows.updates then Some(s.(rows := WriteRow(s.rows, t))) else None
  }

  /** The state after a whole interleaving, if every action of it was enabled. */
  function Run(s: State, run: seq<Action>): (r: Option<State>)
    decreases |run|
  {
    if run == [] then Some(s)
    else
      match Next(s, run[0])
      case None => None
      case Some(s') => Run(s', run[1..])
  }

  // ----- The lock table against the calls that use it -----

  /** The calls registered on `id` and not yet released. */
  ghost function Users(q: map<Tid, StopCall>, id: Id): set<Tid> {
    set t | t in q && q[t].id == id
  }

  /** Every registered call points at the entry now in the table for its id. */
  ghost predicate Pointed(k: Locks, q: map<Tid, StopCall>) {
    forall t <- q :: q[t].id in k.table && k.table[q[t].id] == q[t].lock
  }

  ghost predicate Counted(k: Locks, q: map<Tid, StopCall>)
    requires Linked(k)
  {
    forall id <- k.table :: k.heap[k.table[id]].refs == |Users(q, id)| > 0
  }

  ghost predicate Owned(k: Locks, q: map<Tid, StopCall>)
    requires Linked(k)
  {
    && (forall t <- q | Inside(q[t].at) :: q[t].lock in k.heap && k.heap[q[t].lock].holder == Some(t))
    && (forall id <- k.table | k.heap[k.table[id]].holder.Some? ::
          var t := k.heap[k.table[id]].holder.value; t in q && q[t].id == id && Inside(q[t].at))
  }

  ghost predicate TableInv(k: Locks, q: map<Tid, StopCall>) {
    Linked(k) && Pointed(k, q) && Counted(k, q) && Owned(k, q)
  }

  lemma UsersAdd(q: map<Tid, StopCall>, t: Tid, c: StopCall)
    requires t !in q
    ensures |Users(q[t := c], c.id)| == |Users(q, c.id)| + 1
    ensures forall j | j != c.id :: Users(q[t := c], j) == Users(q, j)
  {
    assert Users(q[t := c], c.id) == Users(q, c.id) + {t};
  }

  lemma UsersDrop(q: map<Tid, StopCall>, t: Tid)
    requires t in q
    ensures |Users(q - {t}, q[t].id)| == |Users(q, q[t].id)| - 1
    ensures forall j | j != q[t].id :: Users(q - {t}, j) == Users(q, j)
  {
    assert Users(q - {t}, q[t].id) == Users(q, q[t].id) - {t};
  }

  lemma EnterLinked(k: Locks, id: Id)
    requires Linked(k)
    ensures Linked(Enter(k, id).0)
  {
  }

  lemma EnterCounted(k: Locks, q: map<Tid, StopCall>, t: Tid, id: Id)
    requires Linked(k) && Pointed(k, q) && Counted(k, q) && t !in q
    ensures var (k', l) := Enter(k, id); Linked(k') && Counted(k', q[t := StopCall(id, l, Waiting)])
  {
    var (k', l) := Enter(k, id);
    EnterLinked(k, id);
    UsersAdd(q, t, StopCall(id, l, Waiting));
    if id !in k.table {
      assert Users(q, id) == {};
    }
  }

  lemma EnterKeeps(k: Locks, q: map<Tid, StopCall>, t: Tid, id: Id)
    requires TableInv(k, q) && t !in q
    ensures var (k', l) := Enter(k, id); TableInv(k', q[t := StopCall(id, l, Waiting)])
  {
    hide Counted, Users, Linked, Pointed, Owned, Enter;
    EnterCounted(k, q, t, id);
    EnterOwned(k, q, t, id);
  }

  lemma EnterOwned(k: Locks, q: map<Tid, StopCall>, t: Tid, id: Id)
    requires Linked(k) && Pointed(k, q) && Owned(k, q) && t !in q && Linked(Enter(k, id).0)
    ensures var (k', l) := Enter(k, id);
            Pointed(k', q[t := StopCall(id, l, Waiting)]) && Owned(k', q[t := StopCall(id, l, Waiting)])
  {
  }

  lemma LeaveCounted(k: Locks, q: map<Tid, StopCall>, t: Tid)
    requires Linked(k) && Pointed(k, q) && Counted(k, q) && t in q
    ensures q[t].lock in k.heap
    ensures var k' := Leave(k, q[t].id, q[t].lock); Linked(k') && Counted(k', q - {t}) && Pointed(k', q - {t})
  {
    var id, q' := q[t].id, q - {t};
    UsersDrop(q, t);
    forall u <- q' | k.heap[q[t].lock].refs == 1 ensures q'[u].id != id {
      assert u in Users(q', id) <==> q'[u].id == id;
    }
  }

  lemma LeaveKeeps(k: Locks, q: map<Tid, StopCall>, t: Tid)
    requires TableInv(k, q) && t in q && !Inside(q[t].at)
    ensures q[t].lock in k.heap && TableInv(Leave(k, q[t].id, q[t].lock), q - {t})
  {
    LeaveCounted(k, q, t);
  }

  lemma StayKeeps(k: Locks, q: map<Tid, StopCall>, t: Tid, at: Stage)
    requires TableInv(k, q) && t in q && Inside(q[t].at) == Inside(at)
    ensures TableInv(k, q[t := q[t].(at := at)])
  {
    hide Counted, Users;
    StayCounted(k, k, q, t, at);
  }

  /** Moving on inside a call changes no count. */
  lemma StayCounted(k: Locks, k': Locks, q: map<Tid, StopCall>, t: Tid, at: Stage)
    requires Linked(k) && Linked(k') && k'.table == k.table && Counted(k, q) && t in q
    requires forall id <- k.table :: k'.heap[k.table[id]].refs == k.heap[k.table[id]].refs
    ensures Counted(k', q[t := q[t].(at := at)])
  {
    hide Linked;
    assert forall j :: Users(q[t := q[t].(at := at)], j) == Users(q, j);
  }

  lemma LockKeeps(k: Locks, q: map<Tid, StopCall>, t: Tid)
    requires TableInv(k, q) && t in q && q[t].lock in k.heap && k.heap[q[t].lock].holder.None?
    ensures TableInv(SetHolder(k, q[t].lock, Some(t)), q[t := q[t].(at := Locked)])
  {
    hide Counted, Users;
    var k' := SetHolder(k, q[t].lock, Some(t));
    assert Linked(k');
    StayCounted(k, k', q, t, Locked);
  }

  lemma UnlockKeeps(k: Locks, q: map<Tid, StopCall>, t: Tid)
    requires TableInv(k, q) && t in q && q[t].lock in k.heap && Inside(q[t].at)
    ensures TableInv(SetHolder(k, q[t].lock, None), q[t := q[t].(at := Unlocked)])
  {
    hide Counted, Users;
    var k' := SetHolder(k, q[t].lock, None);
    assert Linked(k');
    StayCounted(k, k', q, t, Unlocked);
    assert k.heap[k.table[q[t].id]].holder == Some(t);
  }

  // ----- What every action keeps -----

  ghost predicate GateInv(locker: bool, q: map<Tid, StopCall>, subs: map<Tid, Submission>, gate: map<Id, Owner>) {
    && (forall t <- q | locker && Gates(q[t].at) :: q[t].id in gate && gate[q[t].id] == ByStop(t))
    && (forall t <- subs | subs[t].at != Asking :: subs[t].id in gate && gate[subs[t].id] == BySubmission(t))
    && (forall id <- gate ::
          match gate[id]
          case ByStop(t) => locker && t in q && q[t].id == id && Gates(q[t].at)
          case BySubmission(t) => t in subs && subs[t].id == id && subs[t].at != Asking)
  }

  ghost predicate GatesRight(s: State) {
    GateInv(s.locker, s.stops, s.subs, s.gate)
  }

  ghost predicate TableRight(s: State) {
    TableInv(s.k, s.stops)
  }

  predicate Yes(r: Reply) {
    r.answer.Ended? && r.answer.stopped
  }

  predicate Committing(c: StopCall) {
    c.at == Live || c.at == Archived
  }

  ghost predicate StoppedBy(replies: map<Tid, Reply>, t: Tid, id: Id) {
    t in replies && Yes(replies[t]) && replies[t].id == id
  }

  /** The calls that answered stopped=true for a session. */
  ghost function Stoppers(replies: map<Tid, Reply>, id: Id): set<Tid> {
    set t | t in replies && StoppedBy(replies, t, id)
  }

  ghost predicate SomeAt(q: map<Tid, StopCall>, id: Id, at: Stage) {
    exists t :: t in q && q[t].id == id && q[t].at == at
  }

  function One(b: bool): nat {
    if b then 1 else 0
  }

  /** Answers stopped=true, given or about to be given, against revivals. */
  ghost predicate Afforded(q: map<Tid, StopCall>, replies: map<Tid, Reply>, rows: Rows, id: Id) {
    && |Stoppers(replies, id)| + One(SomeAt(q, id, Archived)) <= Revived(rows, id) + One(id in rows.archived)
    && (SomeAt(q, id, Live) ==> |Stoppers(replies, id)| <= Revived(rows, id))
  }

  /** How answers, archived rows, revivals and calls in progress fit together. */
  ghost predicate StopInv(q: map<Tid, StopCall>, replies: map<Tid, Reply>, rows: Rows) {
    && (forall id :: Afforded(q, replies, rows, id))
    && (forall t <- q | t in replies :: q[t].at in {Answered, Ungated, Unlocked})
  }

  ghost predicate StopsRight(s: State) {
    StopInv(s.stops, s.replies, s.rows)
  }

  ghost predicate Inv(s: State) {
    TableRight(s) && GatesRight(s) && StopsRight(s)
  }

  lemma GateStay(locker: bool, q: map<Tid, StopCall>, subs: map<Tid, Submission>, gate: map<Id, Owner>, t: Tid,
                 at: Stage)
    requires GateInv(locker, q, subs, gate) && t in q && (locker ==> Gates(at) == Gates(q[t].at))
    ensures GateInv(locker, q[t := q[t].(at := at)], subs, gate)
  {
  }

  lemma GateByStop(q: map<Tid, StopCall>, subs: map<Tid, Submission>, gate: map<Id, Owner>, t: Tid, at: Stage)
    requires GateInv(true, q, subs, gate) && t in q && Gates(at) != Gates(q[t].at)
    requires Gates(at) ==> q[t].id !in gate
    ensures GateInv(true, q[t := q[t].(at := at)], subs,
                    if Gates(at) then gate[q[t].id := ByStop(t)] else gate - {q[t].id})
  {
  }

  lemma GateIdle(locker: bool, q: map<Tid, StopCall>, subs: map<Tid, Submission>, gate: map<Id, Owner>, t: Tid,
                 c: StopCall)
    requires GateInv(locker, q, subs, gate)
    ensures t in q && !Gates(q[t].at) ==> GateInv(locker, q - {t}, subs, gate)
    ensures t !in q && !Gates(c.at) ==> GateInv(locker, q[t := c], subs, gate)
  {
  }

  lemma GateBySubmission(locker: bool, q: map<Tid, StopCall>, subs: map<Tid, Submission>, gate: map<Id, Owner>,
                         t: Tid, at: Step)
    requires GateInv(locker, q, subs, gate) && t in subs && at != Asking
    requires subs[t].at == Asking ==> subs[t].id !in gate
    ensures GateInv(locker, q, subs[t := subs[t].(at := at)],
                    if subs[t].at == Asking then gate[subs[t].id := BySubmission(t)] else gate)
  {
  }

  lemma GateSubmissionGone(locker: bool, q: map<Tid, StopCall>, subs: map<Tid, Submission>, gate: map<Id, Owner>,
                           t: Tid)
    requires GateInv(locker, q, subs, gate) && t in subs
    ensures GateInv(locker, q, subs - {t}, if subs[t].at == Asking then gate else gate - {subs[t].id})
  {
  }

  /** Who is at a given stage of a session, after call `t` moved. */
  lemma StageMoves(q: map<Tid, StopCall>, t: Tid, at: Stage, stage: Stage)
    requires t in q
    ensures forall id ::
      var q' := q[t := q[t].(at := at)];
      && (SomeAt(q', id, stage) ==> SomeAt(q, id, stage) || (id == q[t].id && at == stage))
      && (q[t].at != stage || at == stage || id != q[t].id ==> SomeAt(q, id, stage) ==> SomeAt(q', id, stage))
  {
    var q' := q[t := q[t].(at := at)];
    forall id
      ensures SomeAt(q', id, stage) ==> SomeAt(q, id, stage) || (id == q[t].id && at == stage)
      ensures q[t].at != stage || at == stage || id != q[t].id ==> SomeAt(q, id, stage) ==> SomeAt(q', id, stage)
    {
      if u :| u in q && q[u].id == id && q[u].at == stage {
        assert u in q';
      }
      if u :| u in q' && q'[u].id == id && q'[u].at == stage {
        assert u in q;
      }
    }
  }

  lemma StopMoveQuiet(q: map<Tid, StopCall>, replies: map<Tid, Reply>, rows: Rows, t: Tid, at: Stage)
    requires StopInv(q, replies, rows) && t in q
    requires !Committing(q[t].(at := at)) && (t in replies ==> at in {Answered, Ungated, Unlocked})
    ensures StopInv(q[t := q[t].(at := at)], replies, rows)
  {
    hide SomeAt, Stoppers;
    var q' := q[t := q[t].(at := at)];
    StageMoves(q, t, at, Archived);
    StageMoves(q, t, at, Live);
    forall id ensures Afforded(q', replies, rows, id) { assert Afforded(q, replies, rows, id); }
  }

  lemma StoppersSame(replies: map<Tid, Reply>, t: Tid, r: Reply, id: Id)
    requires t !in replies && (!Yes(r) || r.id != id)
    ensures Stoppers(replies[t := r], id) == Stoppers(replies, id)
  {
  }

  lemma StoppersMore(replies: map<Tid, Reply>, t: Tid, r: Reply)
    requires t !in replies && Yes(r)
    ensures |Stoppers(replies[t := r], r.id)| == |Stoppers(replies, r.id)| + 1
  {
    assert Stoppers(replies[t := r], r.id) == Stoppers(replies, r.id) + {t};
  }

  lemma StopReply(q: map<Tid, StopCall>, replies: map<Tid, Reply>, rows: Rows, t: Tid, r: Reply)
    requires StopInv(q, replies, rows) && t !in replies && !Yes(r)
    requires t in q ==> q[t].at in {Answered, Ungated, Unlocked}
    ensures StopInv(q, replies[t := r], rows)
  {
    hide SomeAt, Stoppers;
    var replies' := replies[t := r];
    forall id ensures Afforded(q, replies', rows, id) {
      StoppersSame(replies, t, r, id);
      assert Afforded(q, replies, rows, id);
    }
  }

  lemma StopEnters(q: map<Tid, StopCall>, replies: map<Tid, Reply>, rows: Rows, t: Tid, c: StopCall)
    requires StopInv(q, replies, rows)
    ensures t !in q && t !in replies && c.at == Waiting ==> StopInv(q[t := c], replies, rows)
    ensures t in q && q[t].at == Unlocked ==> StopInv(q - {t}, replies, rows)
  {
    hide Stoppers;
    var more, fewer := q[t := c], q - {t};
    forall id ensures t !in q && c.at == Waiting ==> Afforded(more, replies, rows, id) {
      assert Afforded(q, replies, rows, id);
      assert t !in q && c.at == Waiting ==>
          (SomeAt(more, id, Archived) ==> SomeAt(q, id, Archived)) && (SomeAt(more, id, Live) ==> SomeAt(q, id, Live));
    }
    forall id ensures Afforded(fewer, replies, rows, id) {
      assert Afforded(q, replies, rows, id);
      assert (SomeAt(fewer, id, Archived) ==> SomeAt(q, id, Archived))
          && (SomeAt(fewer, id, Live) ==> SomeAt(q, id, Live));
    }
  }

  lemma StopSeesLive(q: map<Tid, StopCall>, replies: map<Tid, Reply>, rows: Rows, t: Tid)
    requires StopInv(q, replies, rows) && t in q && q[t].at == Gated && q[t].id !in rows.archived && t !in replies
    ensures StopInv(q[t := q[t].(at := Live)], replies, rows)
  {
    hide SomeAt, Stoppers;
    var q' := q[t := q[t].(at := Live)];
    StageMoves(q, t, Live, Archived);
    StageMoves(q, t, Live, Live);
    forall id ensures Afforded(q', replies, rows, id) { assert Afforded(q, replies, rows, id); }
  }

  lemma StopCommits(q: map<Tid, StopCall>, replies: map<Tid, Reply>, rows: Rows, t: Tid)
    requires StopInv(q, replies, rows) && t in q && q[t].at == Live && t !in replies
    ensures StopInv(q[t := q[t].(at := Archived)], replies, Archive(rows, q[t].id))
  {
    assert SomeAt(q, q[t].id, Live);
    hide SomeAt, Stoppers;
    var q' := q[t := q[t].(at := Archived)];
    StageMoves(q, t, Archived, Archived);
    StageMoves(q, t, Archived, Live);
    forall id ensures Afforded(q', replies, Archive(rows, q[t].id), id) { assert Afforded(q, replies, rows, id); }
  }

  lemma StopSaysYes(q: map<Tid, StopCall>, replies: map<Tid, Reply>, rows: Rows, t: Tid, r: Reply)
    requires StopInv(q, replies, rows) && t in q && q[t].at == Archived && r.id == q[t].id && Yes(r) && t !in replies
    requires forall u <- q | u != t && q[u].id == q[t].id :: !Committing(q[u])
    ensures StopInv(q[t := q[t].(at := Answered)], replies[t := r], rows)
  {
    var q' := q[t := q[t].(at := Answered)];
    assert SomeAt(q, r.id, Archived) && !SomeAt(q', r.id, Archived) && !SomeAt(q', r.id, Live);
    hide SomeAt, Stoppers;
    StageMoves(q, t, Answered, Archived);
    StageMoves(q, t, Answered, Live);
    StoppersMore(replies, t, r);
    var replies' := replies[t := r];
    forall id ensures Afforded(q', replies', rows, id) {
      if id != r.id { StoppersSame(replies, t, r, id); }
      assert Afforded(q, replies, rows, id);
    }
  }

  /** Whatever an update or a delete writes. */
  lemma StatusWritten(q: map<Tid, StopCall>, replies: map<Tid, Reply>, rows: Rows, id: Id)
    requires StopInv(q, replies, rows)
    ensures StopInv(q, replies, Archive(rows, id)) && StopInv(q, replies, Revive(rows, id))
  {
    hide SomeAt, Stoppers;
    forall j ensures Afforded(q, replies, Archive(rows, id), j) && Afforded(q, replies, Revive(rows, id), j) {
      assert Afforded(q, replies, rows, j);
    }
  }

  lemma UpdatesApart(q: map<Tid, StopCall>, replies: map<Tid, Reply>, rows: Rows, updates: map<Tid, Pending>)
    requires StopInv(q, replies, rows)
    ensures StopInv(q, replies, rows.(updates := updates))
  {
    hide SomeAt, Stoppers;
    forall j ensures Afforded(q, replies, rows.(updates := updates), j) { assert Afforded(q, replies, rows, j); }
  }

  /** Two calls inside the lock of the same session are the same call. */
  lemma InsideAlone(k: Locks, q: map<Tid, StopCall>, t: Tid, u: Tid)
    requires TableInv(k, q) && t in q && u in q && q[t].id == q[u].id && Inside(q[t].at) && Inside(q[u].at)
    ensures t == u
  {
  }

  lemma CommitsAlone(k: Locks, q: map<Tid, StopCall>, t: Tid)
    requires TableInv(k, q) && t in q && Inside(q[t].at)
    ensures forall u <- q | u != t && q[u].id == q[t].id :: !Committing(q[u])
  {
  }

  lemma NotAnswered(s: State, t: Tid)
    requires StopsRight(s) && t in s.stops && s.stops[t].at in {Waiting, Locked, Gated, Live, Archived}
    ensures t !in s.replies
  {
  }

  lemma NoneSubmitting(q: map<Tid, StopCall>, subs: map<Tid, Submission>, gate: map<Id, Owner>, t: Tid)
    requires GateInv(true, q, subs, gate) && t in q && Gates(q[t].at)
    ensures forall u <- subs | subs[u].id == q[t].id :: subs[u].at == Asking
  {
  }

  // ----- Each move of a stop call -----

  lemma AcquireKeeps(s: State, t: Tid, ok: bool)
    requires Inv(s) && t in s.stops && s.stops[t].at in {Waiting, Locked} && Acquire(s, t, ok).Some?
    ensures Inv(Acquire(s, t, ok).value)
  {
    hide TableInv, GateInv, StopInv, SetHolder;
    var s' := Acquire(s, t, ok).value;
    var at := s'.stops[t].at;
    NotAnswered(s, t);
    if s.stops[t].at == Waiting {
      LockKeeps(s.k, s.stops, t);
    } else {
      StayKeeps(s.k, s.stops, t, at);
    }
    if s.locker && Gates(at) {
      GateByStop(s.stops, s.subs, s.gate, t, at);
    } else {
      GateStay(s.locker, s.stops, s.subs, s.gate, t, at);
    }
    StopMoveQuiet(s.stops, s.replies, s.rows, t, at);
    if at == Ungated {
      AnswerKeeps(s, s'.stops, t, s'.replies[t]);
    }
  }

  /** An answer other than stopped=true disturbs nothing. */
  lemma AnswerKeeps(s: State, q: map<Tid, StopCall>, t: Tid, r: Reply)
    requires StopInv(q, s.replies, s.rows) && t !in s.replies && !Yes(r)
    requires t in q ==> q[t].at in {Answered, Ungated, Unlocked}
    ensures StopInv(q, s.replies[t := r], s.rows)
  {
    StopReply(q, s.replies, s.rows, t, r);
  }

  lemma RereadKeeps(s: State, t: Tid, ok: bool)
    requires Inv(s) && t in s.stops && s.stops[t].at == Gated
    ensures Inv(Reread(s, t, ok))
  {
    hide TableInv, GateInv, StopInv;
    var s' := Reread(s, t, ok);
    var at := s'.stops[t].at;
    NotAnswered(s, t);
    StayKeeps(s.k, s.stops, t, at);
    GateStay(s.locker, s.stops, s.subs, s.gate, t, at);
    if at == Live {
      StopSeesLive(s.stops, s.replies, s.rows, t);
    } else {
      StopMoveQuiet(s.stops, s.replies, s.rows, t, at);
      AnswerKeeps(s, s'.stops, t, s'.replies[t]);
    }
  }

  lemma EndSessionKeeps(s: State, t: Tid, ok: bool)
    requires Inv(s) && t in s.stops && s.stops[t].at == Live
    ensures Inv(EndSession(s, t, ok))
  {
    hide TableInv, GateInv, StopInv;
    var s' := EndSession(s, t, ok);
    var at := s'.stops[t].at;
    NotAnswered(s, t);
    StayKeeps(s.k, s.stops, t, at);
    GateStay(s.locker, s.stops, s.subs, s.gate, t, at);
    if at == Archived {
      StopCommits(s.stops, s.replies, s.rows, t);
    } else {
      StopMoveQuiet(s.stops, s.replies, s.rows, t, at);
      AnswerKeeps(s, s'.stops, t, s'.replies[t]);
    }
  }

  lemma CancelTurnsKeeps(s: State, t: Tid)
    requires Inv(s) && t in s.stops && s.stops[t].at == Archived
    ensures Inv(CancelTurns(s, t))
  {
    hide TableInv, GateInv, StopInv, CancelAll;
    var r := CancelTurns(s, t).replies[t];
    NotAnswered(s, t);
    StayKeeps(s.k, s.stops, t, Answered);
    GateStay(s.locker, s.stops, s.subs, s.gate, t, Answered);
    CommitsAlone(s.k, s.stops, t);
    StopSaysYes(s.stops, s.replies, s.rows, t, r);
  }

  lemma ReleaseKeeps(s: State, t: Tid)
    requires Inv(s) && t in s.stops && s.stops[t].at in {Answered, Ungated, Unlocked} && Release(s, t).Some?
    ensures Inv(Release(s, t).value)
  {
    hide TableInv, GateInv, StopInv, SetHolder, Leave;
    if s.stops[t].at == Unlocked {
      LeaveKeeps(s.k, s.stops, t);
      GateIdle(s.locker, s.stops, s.subs, s.gate, t, s.stops[t]);
      StopEnters(s.stops, s.replies, s.rows, t, s.stops[t]);
    } else {
      var at := Release(s, t).value.stops[t].at;
      StopMoveQuiet(s.stops, s.replies, s.rows, t, at);
      if s.stops[t].at == Ungated {
        UnlockKeeps(s.k, s.stops, t);
      } else {
        StayKeeps(s.k, s.stops, t, at);
      }
      if s.locker && at == Ungated {
        GateByStop(s.stops, s.subs, s.gate, t, at);
      } else {
        GateStay(s.locker, s.stops, s.subs, s.gate, t, at);
      }
    }
  }

  lemma StopMoveKeeps(s: State, t: Tid, ok: bool)
    requires Inv(s) && t in s.stops && StopMove(s, t, ok).Some?
    ensures Inv(StopMove(s, t, ok).value)
  {
    hide Inv, Acquire, Reread, EndSession, CancelTurns, Release;
    match s.stops[t].at
    case Waiting | Locked => AcquireKeeps(s, t, ok);
    case Gated => RereadKeeps(s, t, ok);
    case Live => EndSessionKeeps(s, t, ok);
    case Archived => CancelTurnsKeeps(s, t);
    case Answered | Ungated | Unlocked => ReleaseKeeps(s, t);
  }

  // ----- Submissions and the environment -----

  lemma SubmitGates(s: State, t: Tid, ok: bool)
    requires GatesRight(s) && t in s.subs && SubmitMove(s, t, ok).Some?
    ensures GatesRight(SubmitMove(s, t, ok).value)
  {
    hide GateInv;
    var s' := SubmitMove(s, t, ok).value;
    if t in s'.subs {
      GateBySubmission(s.locker, s.stops, s.subs, s.gate, t, s'.subs[t].at);
    } else {
      GateSubmissionGone(s.locker, s.stops, s.subs, s.gate, t);
    }
  }

  lemma SubmitMoveKeeps(s: State, t: Tid, ok: bool)
    requires Inv(s) && t in s.subs && SubmitMove(s, t, ok).Some?
    ensures Inv(SubmitMove(s, t, ok).value)
  {
    hide TableInv, GateInv, StopInv;
    SubmitGates(s, t, ok);
    hide GatesRight;
  }

  lemma ArrivalKeeps(s: State, a: Action)
    requires Inv(s) && (a.StopUnknown? || a.StopArrives?) && Next(s, a).Some?
    ensures Inv(Next(s, a).value)
  {
    hide TableInv, GateInv, StopInv, Enter;
    var s' := Next(s, a).value;
    if a.StopUnknown? {
      AnswerKeeps(s, s.stops, a.t, s'.replies[a.t]);
    } else {
      EnterKeeps(s.k, s.stops, a.t, a.id);
      GateIdle(s.locker, s.stops, s.subs, s.gate, a.t, s'.stops[a.t]);
      StopEnters(s.stops, s.replies, s.rows, a.t, s'.stops[a.t]);
    }
  }

  lemma GateAsks(locker: bool, q: map<Tid, StopCall>, subs: map<Tid, Submission>, gate: map<Id, Owner>, t: Tid, id: Id)
    requires GateInv(locker, q, subs, gate) && t !in subs
    ensures GateInv(locker, q, subs[t := Submission(id, Asking)], gate)
  {
  }

  lemma EnvironmentKeeps(s: State, a: Action)
    requires Inv(s) && (a.SubmitArrives? || a.TurnEnds? || a.Delete? || a.UpdateReads? || a.UpdateWrites?)
    requires Next(s, a).Some?
    ensures Inv(Next(s, a).value)
  {
    hide TableInv, GateInv, StopInv;
    match a
    case Delete(id) => StatusWritten(s.stops, s.replies, s.rows, id);
    case UpdateReads(t, id, status) => UpdatesApart(s.stops, s.replies, s.rows, ReadRow(s.rows, t, id, status).updates);
    case UpdateWrites(t) =>
      UpdatesApart(s.stops, s.replies, s.rows, s.rows.updates - {t});
      StatusWritten(s.stops, s.replies, s.rows.(updates := s.rows.updates - {t}), s.rows.updates[t].id);
    case SubmitArrives(t, id) => GateAsks(s.locker, s.stops, s.subs, s.gate, t, id);
    case _ =>
  }

  lemma NextKeeps(s: State, a: Action)
    requires Inv(s) && Next(s, a).Some?
    ensures Inv(Next(s, a).value)
  {
    match a
    case StopMoves(t, ok) =>
      hide Inv, StopMove;
      StopMoveKeeps(s, t, ok);
    case SubmitMoves(t, ok) =>
      hide Inv, SubmitMove;
      SubmitMoveKeeps(s, t, ok);
    case StopUnknown(_, _) | StopArrives(_, _) =>
      hide Inv;
      ArrivalKeeps(s, a);
    case _ =>
      hide Inv;
      EnvironmentKeeps(s, a);
  }

  lemma {:induction false} RunKeeps(s: State, run: seq<Action>)
    requires Inv(s) && Run(s, run).Some?
    ensures Inv(Run(s, run).value)
    decreases |run|
  {
    if run != [] {
      NextKeeps(s, run[0]);
      RunKeeps(Next(s, run[0]).value, run[1..]);
    }
  }

  ghost predicate Reachable(s: State) {
    exists locker, run :: Run(Init(locker), run) == Some(s)
  }

  lemma ReachableInv(s: State)
    requires Reachable(s)
    ensures Inv(s)
  {
    var locker, run :| Run(Init(locker), run) == Some(s);
    RunKeeps(Init(locker), run);
  }

  // ----- What holds in every reachable state -----

  /** `refs` counts exactly the registered calls, each of which points at the entry
      now in the table; at most one of them is inside; the table holds no other entry. */
  lemma LockTableSound(s: State)
    requires Reachable(s)
    ensures forall id <- s.k.table ::
              s.k.table[id] in s.k.heap && s.k.heap[s.k.table[id]].refs == |Users(s.stops, id)| > 0
    ensures forall t <- s.stops :: s.stops[t].id in s.k.table && s.k.table[s.stops[t].id] == s.stops[t].lock
    ensures forall t, u | t in s.stops && u in s.stops && s.stops[t].id == s.stops[u].id
                          && Inside(s.stops[t].at) && Inside(s.stops[u].at) :: t == u
    ensures s.stops == map[] ==> s.k.table == map[]
  {
    ReachableInv(s);
    forall t, u | t in s.stops && u in s.stops && s.stops[t].id == s.stops[u].id
                  && Inside(s.stops[t].at) && Inside(s.stops[u].at) ensures t == u {
      InsideAlone(s.k, s.stops, t, u);
    }
    assert s.stops == map[] ==> forall id :: Users(s.stops, id) == {};
  }

  /** However many calls race, the answers stopped=true for a session are at most its
      revivals, and one more only while it is archived. */
  lemma StopsAreAfforded(s: State, id: Id)
    requires Reachable(s)
    ensures |Stoppers(s.replies, id)| <= Revived(s.rows, id) + One(id in s.rows.archived)
  {
    ReachableInv(s);
    assert Afforded(s.stops, s.replies, s.rows, id);
  }

  /** As long as no update has turned it back, at most one call answers stopped=true. */
  lemma OneStopPerSession(s: State, t: Tid, u: Tid, id: Id)
    requires Reachable(s) && Revived(s.rows, id) == 0 && StoppedBy(s.replies, t, id) && StoppedBy(s.replies, u, id)
    ensures t == u && id in s.rows.archived
  {
    StopsAreAfforded(s, id);
    assert {t, u} <= Stoppers(s.replies, id);
    Subset({t, u}, Stoppers(s.replies, id));
  }

  lemma Subset(a: set<Tid>, b: set<Tid>)
    requires a <= b
    ensures |a| <= |b|
  {
    assert b == a + (b - a);
  }

  // ----- Progress -----

  ghost predicate CanMove(s: State) {
    exists a: Action :: (a.StopMoves? || a.SubmitMoves?) && a.ok && Next(s, a).Some?
  }

  lemma GateMoves(s: State, id: Id)
    requires Inv(s) && id in s.gate
    ensures CanMove(s)
  {
    hide CanMove, GatesRight, TableRight, StopsRight;
    match s.gate[id]
    case ByStop(t) => StopperMoves(s, id, t);
    case BySubmission(t) => SubmitterMoves(s, id, t);
  }

  lemma StopperMoves(s: State, id: Id, t: Tid)
    requires GatesRight(s) && id in s.gate && s.gate[id] == ByStop(t)
    ensures CanMove(s)
  {
    hide Acquire, Reread, EndSession, CancelTurns;
    assert Next(s, StopMoves(t, true)).Some?;
  }

  lemma SubmitterMoves(s: State, id: Id, t: Tid)
    requires GatesRight(s) && id in s.gate && s.gate[id] == BySubmission(t)
    ensures CanMove(s)
  {
    hide StopMove;
    assert Next(s, SubmitMoves(t, true)).Some?;
  }

  lemma InsideMoves(s: State, t: Tid)
    requires Inv(s) && t in s.stops && s.stops[t].at != Waiting
    ensures CanMove(s)
  {
    if s.stops[t].at == Locked && s.stops[t].id in s.gate {
      GateMoves(s, s.stops[t].id);
    } else {
      assert Next(s, StopMoves(t, true)).Some?;
    }
  }

  /** No deadlock: while any stop call or submission is unfinished, one of them can
      move without being refused. */
  lemma SomeoneCanMove(s: State)
    requires Reachable(s) && (s.stops != map[] || s.subs != map[])
    ensures CanMove(s)
  {
    ReachableInv(s);
    if s.stops != map[] {
      var t :| t in s.stops;
      var l := s.stops[t].lock;
      if s.stops[t].at != Waiting {
        InsideMoves(s, t);
      } else if s.k.heap[l].holder.None? {
        assert Next(s, StopMoves(t, true)).Some?;
      } else {
        assert s.k.table[s.stops[t].id] == l;
        InsideMoves(s, s.k.heap[l].holder.value);
      }
    } else {
      var t :| t in s.subs;
      if s.subs[t].at == Asking && s.subs[t].id in s.gate {
        GateMoves(s, s.subs[t].id);
      } else {
        assert Next(s, SubmitMoves(t, true)).Some?;
      }
    }
  }

  // ----- Ended sessions stay quiet -----

  ghost predicate AllCanceled(s: State, id: Id) {
    forall u <- s.turns | s.turns[u].id == id :: s.turns[u].canceled
  }

  /** No submission of the session has passed its check and not yet registered its turn. */
  ghost predicate NoneOpen(s: State, id: Id) {
    forall u <- s.subs | s.subs[u].id == id :: s.subs[u].at != Open
  }

  /** No update under way will write that the session is not archived. */
  ghost predicate NoneStale(s: State, id: Id) {
    forall u <- s.rows.updates | s.rows.updates[u].id == id :: s.rows.updates[u].archived
  }

  ghost predicate Calm(s: State, id: Id) {
    id in s.rows.archived && AllCanceled(s, id) && NoneOpen(s, id) && NoneStale(s, id)
  }

  /** A request to turn the session back; updates that name no status are not. */
  predicate Asks(a: Action, id: Id) {
    a.UpdateReads? && a.id == id && a.status == Some(false)
  }

  ghost predicate NobodyAsks(run: seq<Action>, id: Id) {
    forall i | 0 <= i < |run| :: !Asks(run[i], id)
  }

  /** However it goes on, as long as nobody asks for the session back, no turn of it runs uncanceled. */
  ghost predicate Settled(s: State, id: Id) {
    forall run | Run(s, run).Some? && NobodyAsks(run, id) :: AllCanceled(Run(s, run).value, id)
  }

  lemma AcquireFrame(s: State, t: Tid, ok: bool)
    requires t in s.stops && Acquire(s, t, ok).Some?
    ensures var s' := Acquire(s, t, ok).value;
            s'.subs == s.subs && s'.rows == s.rows && s'.turns == s.turns && s'.locker == s.locker
  {
    hide SetHolder;
  }

  lemma ReleaseFrame(s: State, t: Tid)
    requires t in s.stops && Release(s, t).Some?
    ensures var s' := Release(s, t).value;
            s'.subs == s.subs && s'.rows == s.rows && s'.turns == s.turns && s'.locker == s.locker
  {
    hide SetHolder, Leave;
  }

  lemma DecideFrame(s: State, t: Tid, ok: bool)
    requires t in s.stops
    ensures Reread(s, t, ok).locker == EndSession(s, t, ok).locker == CancelTurns(s, t).locker == s.locker
    ensures var s' := Reread(s, t, ok); s'.subs == s.subs && s'.rows == s.rows && s'.turns == s.turns
    ensures var s' := EndSession(s, t, ok);
            s'.subs == s.subs && s'.turns == s.turns && (s'.rows == s.rows || s'.rows == Archive(s.rows, s.stops[t].id))
    ensures var s' := CancelTurns(s, t);
            s'.subs == s.subs && s'.rows == s.rows && s'.turns == CancelAll(s.turns, s.stops[t].id)
  {
    hide CancelAll;
  }

  /** What a move of a stop call leaves alone. */
  lemma StopFrame(s: State, t: Tid, ok: bool)
    requires t in s.stops && StopMove(s, t, ok).Some?
    ensures var s' := StopMove(s, t, ok).value;
            && s'.subs == s.subs && s'.rows.updates == s.rows.updates && s'.rows.revived == s.rows.revived
            && s.rows.archived <= s'.rows.archived && s'.locker == s.locker
            && (s'.turns == s.turns || s'.turns == CancelAll(s.turns, s.stops[t].id))
  {
    hide Acquire, Release, CancelAll, Reread, EndSession, CancelTurns;
    match s.stops[t].at
    case Waiting | Locked => AcquireFrame(s, t, ok);
    case Answered | Ungated | Unlocked => ReleaseFrame(s, t);
    case _ => DecideFrame(s, t, ok);
  }

  lemma CalmStop(s: State, t: Tid, ok: bool, id: Id)
    requires Calm(s, id) && t in s.stops && StopMove(s, t, ok).Some?
    ensures Calm(StopMove(s, t, ok).value, id)
  {
    hide StopMove;
    StopFrame(s, t, ok);
  }

  /** What a move of a submission can do. */
  lemma SubmitFrame(s: State, t: Tid, ok: bool)
    requires t in s.subs && SubmitMove(s, t, ok).Some?
    ensures var s', id := SubmitMove(s, t, ok).value, s.subs[t].id;
            && s'.rows == s.rows
            && (s'.turns == s.turns || (s.subs[t].at == Open && s'.turns == s.turns[t := TurnRow(id, false)]))
            && (s'.subs == s.subs - {t}
                || (t in s'.subs && s'.subs == s.subs[t := s'.subs[t]] && s'.subs[t].id == id
                    && (s'.subs[t].at == Open ==> id !in s.rows.archived)))
  {
    SubmissionMoves(s, t, ok);
    hide SubmitMove;
  }

  lemma SubmissionMoves(s: State, t: Tid, ok: bool)
    requires t in s.subs && SubmitMove(s, t, ok).Some?
    ensures var s', id := SubmitMove(s, t, ok).value, s.subs[t].id;
            && (t !in s'.subs ==> s'.subs == s.subs - {t})
            && (t in s'.subs ==> s'.subs == s.subs[t := s'.subs[t]] && s'.subs[t].id == id)
            && (t in s'.subs && s'.subs[t].at == Open ==> id !in s.rows.archived)
  {
  }

  lemma CalmSubmit(s: State, t: Tid, ok: bool, id: Id)
    requires Calm(s, id) && t in s.subs && SubmitMove(s, t, ok).Some?
    ensures Calm(SubmitMove(s, t, ok).value, id)
  {
    hide SubmitMove;
    SubmitFrame(s, t, ok);
  }

  lemma CalmNext(s: State, a: Action, id: Id)
    requires Calm(s, id) && Next(s, a).Some? && !Asks(a, id)
    ensures Calm(Next(s, a).value, id)
  {
    hide StopMove, SubmitMove, Enter;
    match a
    case StopMoves(t, ok) => CalmStop(s, t, ok, id);
    case SubmitMoves(t, ok) => CalmSubmit(s, t, ok, id);
    case _ =>
  }

  lemma {:induction false} CalmRun(s: State, run: seq<Action>, id: Id)
    requires Calm(s, id) && Run(s, run).Some? && NobodyAsks(run, id)
    ensures Calm(Run(s, run).value, id)
    decreases |run|
  {
    hide Calm, Next;
    if run != [] {
      CalmNext(s, run[0], id);
      CalmRun(Next(s, run[0]).value, run[1..], id);
    }
  }

  lemma CalmSettles(s: State, id: Id)
    requires Calm(s, id)
    ensures Settled(s, id)
  {
    hide Run;
    forall run | Run(s, run).Some? && NobodyAsks(run, id) ensures AllCanceled(Run(s, run).value, id) {
      CalmRun(s, run, id);
    }
  }

  // ----- Stopped and not turned back -----

  ghost predicate QuietFor(s: State, id: Id) {
    Revived(s.rows, id) == 0 && Stoppers(s.replies, id) != {} ==> AllCanceled(s, id) && NoneOpen(s, id)
  }

  /** A move that gives no new answer stopped=true for `id` and is of the kinds above. */
  lemma QuietStep(s: State, s': State, id: Id)
    requires Inv(s) && QuietFor(s, id) && Revived(s.rows, id) <= Revived(s'.rows, id)
    requires Stoppers(s'.replies, id) <= Stoppers(s.replies, id)
    requires AllCanceled(s, id) && NoneOpen(s, id) && id in s.rows.archived ==> AllCanceled(s', id) && NoneOpen(s', id)
    ensures QuietFor(s', id)
  {
    hide AllCanceled, NoneOpen, Stoppers, TableRight, GatesRight, SomeAt;
    assert Afforded(s.stops, s.replies, s.rows, id);
    assert Stoppers(s.replies, id) != {} ==> |Stoppers(s.replies, id)| > 0;
  }

  /** Answers other than stopped=true add no stopper. */
  lemma RepliesMove(s: State, t: Tid, ok: bool, id: Id)
    requires t in s.stops && StopMove(s, t, ok).Some? && t !in s.replies
    requires s.stops[t].at != Archived || s.stops[t].id != id
    ensures Stoppers(StopMove(s, t, ok).value.replies, id) == Stoppers(s.replies, id)
  {
    hide Stoppers, CancelAll, SetHolder, Leave;
    var s' := StopMove(s, t, ok).value;
    if t in s'.replies {
      assert s'.replies == s.replies[t := s'.replies[t]];
      StoppersSame(s.replies, t, s'.replies[t], id);
    }
  }

  lemma RepliesRelease(s: State, t: Tid, ok: bool)
    requires t in s.stops && s.stops[t].at in {Answered, Ungated, Unlocked} && StopMove(s, t, ok).Some?
    ensures StopMove(s, t, ok).value.replies == s.replies
  {
    hide SetHolder, Leave;
  }

  lemma QuietStop(s: State, t: Tid, ok: bool, id: Id)
    requires Inv(s) && s.locker && QuietFor(s, id) && t in s.stops && StopMove(s, t, ok).Some?
    ensures QuietFor(StopMove(s, t, ok).value, id)
  {
    hide StopMove, Inv, Stoppers, Revived;
    var s' := StopMove(s, t, ok).value;
    StopFrame(s, t, ok);
    RevivedFrame(s.rows, s'.rows, id);
    if s.stops[t].at == Archived && s.stops[t].id == id {
      QuietAnswer(s, t, ok);
    } else {
      if s.stops[t].at in {Answered, Ungated, Unlocked} {
        RepliesRelease(s, t, ok);
      } else {
        InvAnswered(s, t);
        RepliesMove(s, t, ok, id);
      }
      QuietStep(s, s', id);
    }
  }

  lemma RevivedFrame(rows: Rows, rows': Rows, id: Id)
    requires rows'.revived == rows.revived
    ensures Revived(rows', id) == Revived(rows, id)
  {
  }

  lemma InvAnswered(s: State, t: Tid)
    requires Inv(s) && t in s.stops && s.stops[t].at !in {Answered, Ungated, Unlocked}
    ensures t !in s.replies
  {
    hide TableInv, GateInv, Afforded;
  }

  /** At the answer itself the gate keeps submissions out and the turns have just been canceled. */
  lemma QuietAnswer(s: State, t: Tid, ok: bool)
    requires Inv(s) && s.locker && t in s.stops && s.stops[t].at == Archived && StopMove(s, t, ok).Some?
    ensures QuietFor(StopMove(s, t, ok).value, s.stops[t].id)
  {
    hide TableInv, StopInv, Stoppers, Revived;
    NoneSubmitting(s.stops, s.subs, s.gate, t);
  }

  lemma QuietSubmit(s: State, t: Tid, ok: bool, id: Id)
    requires Inv(s) && QuietFor(s, id) && t in s.subs && SubmitMove(s, t, ok).Some?
    ensures QuietFor(SubmitMove(s, t, ok).value, id)
  {
    hide SubmitMove, Inv, Stoppers, Revived;
    SubmitFrame(s, t, ok);
    SubmitReplies(s, t, ok);
    QuietStep(s, SubmitMove(s, t, ok).value, id);
  }

  lemma SubmitReplies(s: State, t: Tid, ok: bool)
    requires t in s.subs && SubmitMove(s, t, ok).Some?
    ensures SubmitMove(s, t, ok).value.replies == s.replies && SubmitMove(s, t, ok).value.locker == s.locker
  {
  }

  lemma QuietNext(s: State, a: Action, id: Id)
    requires Inv(s) && s.locker && QuietFor(s, id) && Next(s, a).Some?
    ensures QuietFor(Next(s, a).value, id)
  {
    hide StopMove, SubmitMove, Enter, Inv, QuietFor, Stoppers;
    match a
    case StopMoves(t, ok) => QuietStop(s, t, ok, id);
    case SubmitMoves(t, ok) => QuietSubmit(s, t, ok, id);
    case StopUnknown(t, j) =>
      StoppersSame(s.replies, t, Reply(j, NotFound), id);
      QuietStep(s, Next(s, a).value, id);
    case _ => QuietStep(s, Next(s, a).value, id);
  }

  lemma LockerStays(s: State, a: Action)
    requires Next(s, a).Some?
    ensures Next(s, a).value.locker == s.locker
  {
    hide StopMove, SubmitMove, Enter;
    match a
    case StopMoves(t, ok) => StopFrame(s, t, ok);
    case SubmitMoves(t, ok) => SubmitReplies(s, t, ok);
    case _ =>
  }

  lemma {:induction false} QuietRun(s: State, run: seq<Action>, id: Id)
    requires Inv(s) && s.locker && QuietFor(s, id) && Run(s, run).Some?
    ensures QuietFor(Run(s, run).value, id)
    decreases |run|
  {
    hide Inv, QuietFor, Next;
    if run != [] {
      NextKeeps(s, run[0]);
      QuietNext(s, run[0], id);
      LockerStays(s, run[0]);
      QuietRun(Next(s, run[0]).value, run[1..], id);
    }
  }

  /** With the gate, a session some call reported stopped and no update turned back has no
      uncanceled turn and none about to register, whatever else is in progress. */
  lemma StoppedSessionIsQuiet(run: seq<Action>, t: Tid, id: Id)
    requires Run(Init(true), run).Some?
    ensures var s := Run(Init(true), run).value;
            StoppedBy(s.replies, t, id) && Revived(s.rows, id) == 0 ==> AllCanceled(s, id) && NoneOpen(s, id)
  {
    hide Run, AllCanceled, NoneOpen;
    NoStoppers(id);
    InitInv();
    QuietRun(Init(true), run, id);
    var s := Run(Init(true), run).value;
    assert StoppedBy(s.replies, t, id) ==> t in Stoppers(s.replies, id);
  }

  lemma InitInv()
    ensures Inv(Init(true))
  {
    forall id ensures Afforded(map[], map[], Rows({}, map[], map[]), id) { NoStoppers(id); }
  }

  // ----- And only those -----

  /** A settled state has only settled successors. */
  lemma SettledNext(s: State, a: Action, id: Id)
    requires Settled(s, id) && Next(s, a).Some? && !Asks(a, id)
    ensures Settled(Next(s, a).value, id)
  {
    hide Next;
    var s' := Next(s, a).value;
    forall run | Run(s', run).Some? && NobodyAsks(run, id) ensures AllCanceled(Run(s', run).value, id) {
      var all := [a] + run;
      assert all[1..] == run && Run(s, all) == Run(s', run);
    }
  }

  lemma SettledNow(s: State, id: Id)
    requires Settled(s, id)
    ensures AllCanceled(s, id)
  {
    assert Run(s, []) == Some(s);
  }

  /** An open submission registers its turn, whatever the session has become. */
  lemma OpenUnsettles(s: State, u: Tid, id: Id)
    requires u in s.subs && s.subs[u] == Submission(id, Open)
    ensures !Settled(s, id)
  {
    hide Settled, StopMove;
    var a := SubmitMoves(u, true);
    var s' := Next(s, a).value;
    assert s'.turns[u] == TurnRow(id, false);
    if Settled(s, id) {
      SettledNext(s, a, id);
      SettledNow(s', id);
    }
  }

  /** A session that is not archived and has a free gate takes a new turn. */
  lemma LiveUnsettles(s: State, id: Id)
    requires id !in s.rows.archived && id !in s.gate
    ensures !Settled(s, id)
  {
    hide Settled, StopMove;
    var u := Counting.Above(s.subs.Keys + s.turns.Keys);
    var s1 := Next(s, SubmitArrives(u, id)).value;
    var s2 := Next(s1, SubmitMoves(u, true)).value;
    var s3 := Next(s2, SubmitMoves(u, true)).value;
    OpenUnsettles(s3, u, id);
    if Settled(s, id) {
      SettledNext(s, SubmitArrives(u, id), id);
      SettledNext(s1, SubmitMoves(u, true), id);
      SettledNext(s2, SubmitMoves(u, true), id);
    }
  }

  lemma StaleUnsettles(s: State, u: Tid, id: Id)
    requires u in s.rows.updates && s.rows.updates[u] == Pending(id, false) && id !in s.gate
    ensures !Settled(s, id)
  {
    hide Settled, StopMove, SubmitMove;
    LiveUnsettles(Next(s, UpdateWrites(u)).value, id);
    if Settled(s, id) {
      SettledNext(s, UpdateWrites(u), id);
    }
  }

  /** With the gate free: not archived, or about to be turned back by an update under way. */
  lemma FreeUnsettles(s: State, id: Id)
    requires id !in s.gate && (id !in s.rows.archived || !NoneStale(s, id))
    ensures !Settled(s, id)
  {
    hide Settled;
    if id !in s.rows.archived {
      LiveUnsettles(s, id);
    } else {
      var u :| u in s.rows.updates && s.rows.updates[u].id == id && !s.rows.updates[u].archived;
      StaleUnsettles(s, u, id);
    }
  }

  // A gate that is held comes free: its holder can fail and leave, and changes no row by it.

  lemma AnsweredUnsettles(s: State, t: Tid, id: Id)
    requires s.locker && t in s.stops && s.stops[t].at == Answered && s.stops[t].id == id
    requires id !in s.rows.archived || !NoneStale(s, id)
    ensures !Settled(s, id)
  {
    hide Settled, SubmitMove;
    var s' := Next(s, StopMoves(t, false)).value;
    FreeUnsettles(s', id);
    if Settled(s, id) {
      SettledNext(s, StopMoves(t, false), id);
    }
  }

  lemma StopAnswersFailing(s: State, t: Tid)
    requires t in s.stops && s.stops[t].at in {Gated, Live, Archived}
    ensures var s' := StopMove(s, t, false);
            && s'.Some? && s'.value.rows == s.rows && s'.value.locker == s.locker && t in s'.value.stops
            && s'.value.stops[t] == s.stops[t].(at := Answered)
  {
    hide CancelAll;
  }

  lemma StopHolds(s: State, t: Tid, id: Id)
    requires GatesRight(s) && id in s.gate && s.gate[id] == ByStop(t)
    requires id !in s.rows.archived || !NoneStale(s, id)
    ensures !Settled(s, id)
  {
    hide Settled, StopMove, SubmitMove;
    if s.stops[t].at == Answered {
      AnsweredUnsettles(s, t, id);
    } else {
      StopAnswersFailing(s, t);
      AnsweredUnsettles(Next(s, StopMoves(t, false)).value, t, id);
      if Settled(s, id) {
        SettledNext(s, StopMoves(t, false), id);
      }
    }
  }

  lemma ClosingUnsettles(s: State, t: Tid, id: Id)
    requires t in s.subs && s.subs[t] == Submission(id, Closing)
    requires id !in s.rows.archived || !NoneStale(s, id)
    ensures !Settled(s, id)
  {
    hide Settled, StopMove;
    FreeUnsettles(Next(s, SubmitMoves(t, false)).value, id);
    if Settled(s, id) {
      SettledNext(s, SubmitMoves(t, false), id);
    }
  }

  lemma SubmissionHolds(s: State, t: Tid, id: Id)
    requires GatesRight(s) && id in s.gate && s.gate[id] == BySubmission(t)
    requires id !in s.rows.archived || !NoneStale(s, id)
    ensures !Settled(s, id)
  {
    hide Settled, StopMove;
    if s.subs[t].at == Open {
      OpenUnsettles(s, t, id);
    } else if s.subs[t].at == Closing {
      ClosingUnsettles(s, t, id);
    } else {
      ClosingUnsettles(Next(s, SubmitMoves(t, false)).value, t, id);
      if Settled(s, id) {
        SettledNext(s, SubmitMoves(t, false), id);
      }
    }
  }

  lemma RestlessUnsettles(s: State, id: Id)
    requires GatesRight(s) && (id !in s.rows.archived || !NoneStale(s, id))
    ensures !Settled(s, id)
  {
    hide Settled, NoneStale;
    if id !in s.gate {
      FreeUnsettles(s, id);
    } else {
      match s.gate[id]
      case ByStop(t) => StopHolds(s, t, id);
      case BySubmission(t) => SubmissionHolds(s, t, id);
    }
  }

  lemma NotOpenUnsettles(s: State, id: Id)
    requires !NoneOpen(s, id)
    ensures !Settled(s, id)
  {
    hide Settled;
    var u :| u in s.subs && s.subs[u].id == id && s.subs[u].at == Open;
    OpenUnsettles(s, u, id);
  }

  /** Exactly when a session stays quiet, in any reachable state: it is archived, all its turns
      are canceled, no submission has passed its check and not yet registered, and no update
      under way still holds an older status. */
  lemma SettledExactly(s: State, id: Id)
    requires Reachable(s)
    ensures Settled(s, id) <==> Calm(s, id)
  {
    hide Settled, Run, AllCanceled, NoneOpen, NoneStale, GatesRight, TableRight, StopsRight;
    ReachableInv(s);
    if Calm(s, id) {
      CalmSettles(s, id);
    } else if id !in s.rows.archived || !NoneStale(s, id) {
      RestlessUnsettles(s, id);
    } else if !NoneOpen(s, id) {
      NotOpenUnsettles(s, id);
    } else if Settled(s, id) {
      SettledNow(s, id);
    }
  }

  /** What the delete route, which archives without gate and without cancel, leaves behind. */
  lemma DeleteSettlesExactly(s: State, id: Id)
    requires Reachable(s)
    ensures Settled(Next(s, Delete(id)).value, id) <==> AllCanceled(s, id) && NoneOpen(s, id) && NoneStale(s, id)
  {
    hide Settled, Run;
    ReachableNext(s, Delete(id));
    SettledExactly(Next(s, Delete(id)).value, id);
  }

  /** And an update that writes "archived". */
  lemma UpdateSettlesExactly(s: State, u: Tid, id: Id)
    requires Reachable(s) && u in s.rows.updates && s.rows.updates[u] == Pending(id, true)
    ensures Settled(Next(s, UpdateWrites(u)).value, id)
       <==> AllCanceled(s, id) && NoneOpen(s, id) && NoneStale(s, id)
  {
    hide Settled, Run;
    ReachableNext(s, UpdateWrites(u));
    var s' := Next(s, UpdateWrites(u)).value;
    assert s'.rows.updates == s.rows.updates - {u};
    assert NoneStale(s', id) <==> NoneStale(s, id) by {
      forall v | v in s.rows.updates && v != u ensures v in s'.rows.updates {}
    }
    SettledExactly(s', id);
  }

  lemma AnswerFacts(s: State, t: Tid, ok: bool)
    requires t in s.stops && s.stops[t].at == Archived
    ensures var id, next := s.stops[t].id, Next(s, StopMoves(t, ok));
            && next.Some? && StoppedBy(next.value.replies, t, id) && AllCanceled(next.value, id)
            && next.value.rows == s.rows && next.value.subs == s.subs
  {
    hide SubmitMove;
  }

  /** With the conversation gate or without it, the answer stopped=true settles a session exactly
      when the session is still archived, no submission has passed its check and not yet
      registered, and no update under way holds an older status. */
  lemma AnswerSettlesExactly(s: State, t: Tid, ok: bool)
    requires Reachable(s) && t in s.stops && s.stops[t].at == Archived
    ensures var id := s.stops[t].id;
            var s' := Next(s, StopMoves(t, ok)).value;
            && StoppedBy(s'.replies, t, id)
            && (Settled(s', id) <==> id in s.rows.archived && NoneOpen(s, id) && NoneStale(s, id))
  {
    hide Settled, Run, Next, StoppedBy, AllCanceled;
    AnswerFacts(s, t, ok);
    ReachableNext(s, StopMoves(t, ok));
    SettledExactly(Next(s, StopMoves(t, ok)).value, s.stops[t].id);
  }

  /** With the gate no submission can be there, so two conditions are left. */
  lemma StopSettlesExactly(s: State, t: Tid, ok: bool)
    requires Reachable(s) && s.locker && t in s.stops && s.stops[t].at == Archived
    ensures var id := s.stops[t].id;
            var s' := Next(s, StopMoves(t, ok)).value;
            && StoppedBy(s'.replies, t, id)
            && (Settled(s', id) <==> id in s.rows.archived && NoneStale(s, id))
  {
    hide Settled, Run, Next, StoppedBy, NoneStale, TableRight, StopsRight;
    AnswerSettlesExactly(s, t, ok);
    ReachableInv(s);
    NoneSubmitting(s.stops, s.subs, s.gate, t);
  }

  // ----- Runs that show it -----

  lemma {:induction false} RunSnoc(s: State, run: seq<Action>, a: Action)
    requires Run(s, run).Some?
    ensures Run(s, run + [a]) == Next(Run(s, run).value, a)
    decreases |run|
  {
    if run == [] {
      var r := Next(s, a);
      assert (run + [a])[1..] == [];
    } else {
      RunSnoc(Next(s, run[0]).value, run[1..], a);
      assert (run + [a])[1..] == run[1..] + [a];
    }
  }

  lemma ReachableNext(s: State, a: Action)
    requires Reachable(s) && Next(s, a).Some?
    ensures Reachable(Next(s, a).value)
  {
    var locker, run :| Run(Init(locker), run) == Some(s);
    RunSnoc(Init(locker), run, a);
  }

  /** A submission of thread 7 for session "a", up to and including its check. */
  lemma OpenSubmission(locker: bool) returns (s: State)
    ensures Reachable(s)
    ensures s == Init(locker).(subs := map[7 := Submission("a", Open)], gate := map["a" := BySubmission(7)])
  {
    s := Init(locker);
    assert Run(s, []) == Some(s);
    ReachableNext(s, SubmitArrives(7, "a"));
    s := Next(s, SubmitArrives(7, "a")).value;
    ReachableNext(s, SubmitMoves(7, true));
    s := Next(s, SubmitMoves(7, true)).value;
    ReachableNext(s, SubmitMoves(7, true));
    s := Next(s, SubmitMoves(7, true)).value;
  }

  /** The delete route archives without the gate and without canceling: a session it
      ended can have a free gate and a turn that runs on. */
  lemma DeletedSessionKeepsItsTurn() returns (s: State)
    ensures Reachable(s) && s.locker && s.gate == map[] && "a" in s.rows.archived
    ensures s.turns == map[7 := TurnRow("a", false)]
  {
    s := OpenSubmission(true);
    ReachableNext(s, SubmitMoves(7, true));
    s := Next(s, SubmitMoves(7, true)).value;
    ReachableNext(s, SubmitMoves(7, true));
    s := Next(s, SubmitMoves(7, true)).value;
    ReachableNext(s, Delete("a"));
    s := Next(s, Delete("a")).value;
  }

  lemma StopTo(s: State, t: Tid) returns (s': State)
    requires Reachable(s) && t in s.stops && Next(s, StopMoves(t, true)).Some?
    ensures s' == Next(s, StopMoves(t, true)).value && Reachable(s')
  {
    ReachableNext(s, StopMoves(t, true));
    s' := Next(s, StopMoves(t, true)).value;
  }

  lemma UngatedStopReachesGated() returns (s: State)
    ensures Reachable(s) && !s.locker && s.replies == map[] && s.turns == map[] && s.rows == Init(false).rows
    ensures s.subs == map[7 := Submission("a", Open)] && s.stops == map[0 := StopCall("a", 0, Gated)]
  {
    s := OpenSubmission(false);
    ReachableNext(s, StopArrives(0, "a"));
    s := Next(s, StopArrives(0, "a")).value;
    s := StopTo(s, 0);
    s := StopTo(s, 0);
  }

  lemma UngatedStopArchives() returns (s: State)
    ensures Reachable(s) && !s.locker && s.replies == map[] && s.turns == map[]
    ensures s.rows == Archive(Init(false).rows, "a")
    ensures s.subs == map[7 := Submission("a", Open)] && s.stops == map[0 := StopCall("a", 0, Archived)]
  {
    s := UngatedStopReachesGated();
    s := StopTo(s, 0);
    s := StopTo(s, 0);
  }

  /** Without the gate a turn can register after the stop has canceled and answered. */
  lemma UngatedStopMissesATurn() returns (s: State)
    ensures Reachable(s) && !s.locker && StoppedBy(s.replies, 0, "a")
    ensures s.turns == map[7 := TurnRow("a", false)]
  {
    s := UngatedStopArchives();
    assert CancelAll(s.turns, "a") == map[];
    s := StopTo(s, 0);
    ReachableNext(s, SubmitMoves(7, true));
    s := Next(s, SubmitMoves(7, true)).value;
  }

  // ----- As many stops as revivals allow -----

  /** Nobody is in a call. */
  ghost predicate Idle(s: State) {
    s.locker && s.stops == map[] && s.subs == map[] && s.gate == map[]
  }

  lemma StopGetsIn(s: State, t: Tid, id: Id) returns (s': State)
    requires Reachable(s) && Idle(s) && t !in s.replies
    ensures Reachable(s') && s'.locker && s'.subs == map[] && s'.gate == map[id := ByStop(t)]
    ensures s'.rows == s.rows && s'.turns == s.turns && s'.replies == s.replies
    ensures t in s'.stops && s'.stops == map[t := s'.stops[t]] && s'.stops[t].id == id && s'.stops[t].at == Gated
  {
    LockTableSound(s);
    ReachableNext(s, StopArrives(t, id));
    s' := Next(s, StopArrives(t, id)).value;
    s' := StopTo(s', t);
    s' := StopTo(s', t);
  }

  lemma StopCommitted(s: State, t: Tid, id: Id) returns (s': State)
    requires Reachable(s) && s.locker && s.subs == map[] && s.gate == map[id := ByStop(t)] && id !in s.rows.archived
    requires t in s.stops && s.stops == map[t := s.stops[t]] && s.stops[t].id == id && s.stops[t].at == Gated
    ensures Reachable(s') && s'.locker && s'.subs == map[] && s'.gate == map[id := ByStop(t)]
    ensures s'.rows == Archive(s.rows, id) && s'.replies == s.replies
    ensures t in s'.stops && s'.stops == map[t := s'.stops[t]] && s'.stops[t].id == id && s'.stops[t].at == Archived
  {
    hide CancelAll, Acquire, Release;
    s' := StopTo(s, t);
    s' := StopTo(s', t);
  }

  lemma StopAnswers(s: State, t: Tid, id: Id) returns (s': State)
    requires Reachable(s) && s.locker && s.subs == map[] && s.gate == map[id := ByStop(t)] && id in s.rows.archived
    requires t in s.stops && s.stops == map[t := s.stops[t]] && s.stops[t].id == id && s.stops[t].at == Archived
    ensures Reachable(s') && s'.locker && s'.subs == map[] && s'.gate == map[]
    ensures s'.rows == s.rows && t in s'.replies && s'.replies == s.replies[t := s'.replies[t]]
    ensures StoppedBy(s'.replies, t, id)
    ensures t in s'.stops && s'.stops == map[t := s'.stops[t]] && s'.stops[t].at == Ungated
  {
    hide CancelAll, Acquire;
    s' := StopTo(s, t);
    s' := StopTo(s', t);
  }

  lemma StopLeaves(s: State, t: Tid) returns (s': State)
    requires Reachable(s) && s.locker && s.subs == map[] && s.gate == map[]
    requires t in s.stops && s.stops == map[t := s.stops[t]] && s.stops[t].at == Ungated
    ensures Reachable(s') && Idle(s') && s'.rows == s.rows && s'.turns == s.turns && s'.replies == s.replies
  {
    LockTableSound(s);
    assert s.stops[t].lock in s.k.heap;
    s' := StopTo(s, t);
    s' := StopTo(s', t);
  }

  /** A whole stop of a live session while nobody else is about. */
  lemma WholeStop(s: State, t: Tid, id: Id) returns (s': State)
    requires Reachable(s) && Idle(s) && t !in s.replies && id !in s.rows.archived
    ensures Reachable(s') && Idle(s') && s'.rows == Archive(s.rows, id)
    ensures t in s'.replies && s'.replies == s.replies[t := s'.replies[t]] && StoppedBy(s'.replies, t, id)
  {
    hide Idle;
    s' := StopGetsIn(s, t, id);
    s' := StopCommitted(s', t, id);
    s' := StopAnswers(s', t, id);
    s' := StopLeaves(s', t);
  }

  /** An update that names no status, read before the stop and written after it, turns the
      session back although nobody asked for that. */
  lemma RenameUndoesStop() returns (s: State)
    ensures Reachable(s) && s.locker && StoppedBy(s.replies, 0, "a") && "a" !in s.rows.archived
  {
    s := Init(true);
    assert Run(s, []) == Some(s);
    ReachableNext(s, UpdateReads(9, "a", None));
    s := Next(s, UpdateReads(9, "a", None)).value;
    s := WholeStop(s, 0, "a");
    ReachableNext(s, UpdateWrites(9));
    s := Next(s, UpdateWrites(9)).value;
  }

  lemma ReviveOnce(s: State, id: Id) returns (s': State)
    requires Reachable(s) && Idle(s) && s.rows.updates == map[] && id in s.rows.archived
    ensures Reachable(s') && Idle(s') && s'.replies == s.replies && s'.rows == Revive(s.rows, id)
  {
    ReachableNext(s, UpdateReads(0, id, Some(false)));
    s' := Next(s, UpdateReads(0, id, Some(false))).value;
    ReachableNext(s', UpdateWrites(0));
    s' := Next(s', UpdateWrites(0)).value;
    assert s'.rows.updates == map[];
  }

  /** The bound on answers is reached for every number of revivals. */
  lemma {:induction false} StopsAreReached(n: nat) returns (s: State)
    ensures Reachable(s) && Idle(s) && s.rows.updates == map[] && "a" in s.rows.archived
    ensures Revived(s.rows, "a") == n && |Stoppers(s.replies, "a")| == n + 1
    ensures forall t <- s.replies :: t <= n
  {
    hide Idle, Stoppers;
    if n == 0 {
      s := Init(true);
      assert Run(s, []) == Some(s);
      NoStoppers("a");
      IdleInit();
    } else {
      s := StopsAreReached(n - 1);
      s := ReviveOnce(s, "a");
    }
    var before := s.replies;
    s := WholeStop(s, n, "a");
    StoppersMore(before, n, s.replies[n]);
  }

  lemma NoStoppers(id: Id)
    ensures Stoppers(map[], id) == {}
  {
  }

  lemma IdleInit()
    ensures Idle(Init(true))
  {
  }
}
