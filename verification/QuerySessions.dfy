/**
 * The daemon's query sessions as a step system. Requests are tasks that run concurrently; each step
 * below is what one task does between two waits, so every interleaving of the steps is a run.
 */
module QuerySessions {
  import opened Common

  const MAX_CONCURRENT_QUERY_TASKS: nat := 16

  type TaskId = nat
  type QueryId = nat

  datatype Request = QueryStart | QueryPage(id: QueryId)

  datatype Reply =
    | Rejected                             // bad parameters, or a table could not be registered
    | TooManyTasks
    | QueryNotFound
    | QueryFailed
    | RowsReturned(id: QueryId, began: nat)

  datatype Phase =
    | Arrived
    | Planning(id: QueryId)                // query_start only: inside start_query_stream
    | AwaitingHandle(id: QueryId)
    | HoldingHandle(id: QueryId)           // locked, before the cancellation check of the read
    | Reading(id: QueryId, began: nat)
    | Finished(reply: Reply)

  /** `issued` is the id a query_start was given, once it has one. */
  datatype Task = Task(request: Request, issued: Option<QueryId>, phase: Phase)

  datatype State = State(
    clock: nat,
    free: nat,
    nextId: QueryId,
    tasks: map<TaskId, Task>,
    sessions: set<QueryId>,
    holder: map<QueryId, TaskId>,
    cancelledAt: map<QueryId, nat>,
    cancelReplies: seq<(QueryId, bool)>)

  datatype Event =
    | Arrive(t: TaskId, request: Request)
    | Reject(t: TaskId)
    | Acquire(t: TaskId, validPageSize: bool)
    | PlanFails(t: TaskId)
    | PlanSucceeds(t: TaskId)
    | LockHandle(t: TaskId)
    | BeginRead(t: TaskId)
    | ReadFails(t: TaskId)
    | ReadSucceeds(t: TaskId)
    | Cancel(id: QueryId)

  const INIT := State(0, MAX_CONCURRENT_QUERY_TASKS, 1, map[], {}, map[], map[], [])

  predicate HoldsPermit(p: Phase) { !p.Arrived? && !p.Finished? }

  /** The handle a task is inside, if any. */
  function Inside(p: Phase): Option<QueryId> {
    if p.HoldingHandle? || p.Reading? then Some(p.id) else None
  }

  // ---------- the steps ----------

  function Enter(s: State, t: TaskId, p: Phase): State
    requires t in s.tasks
  {
    s.(tasks := s.tasks[t := s.tasks[t].(phase := p)])
  }

  /** The task returns: its handle guard and its permit are dropped. */
  function Return(s: State, t: TaskId, reply: Reply): State
    requires t in s.tasks
  {
    var p := s.tasks[t].phase;
    var released := if Inside(p).Some? then s.(holder := s.holder - {Inside(p).value}) else s;
    Enter(if HoldsPermit(p) then released.(free := s.free + 1) else released, t, Finished(reply))
  }

  predicate Enabled(s: State, e: Event) {
    match e
    case Arrive(t, _) => t !in s.tasks
    case Reject(t) => t in s.tasks && s.tasks[t].phase.Arrived? && s.tasks[t].request.QueryStart?
    case Acquire(t, _) => t in s.tasks && s.tasks[t].phase.Arrived?
    case PlanFails(t) => t in s.tasks && s.tasks[t].phase.Planning?
    case PlanSucceeds(t) => t in s.tasks && s.tasks[t].phase.Planning?
    case LockHandle(t) => t in s.tasks && s.tasks[t].phase.AwaitingHandle? && s.tasks[t].phase.id !in s.holder
    case BeginRead(t) => t in s.tasks && s.tasks[t].phase.HoldingHandle?
    case ReadFails(t) => t in s.tasks && (s.tasks[t].phase.HoldingHandle? || s.tasks[t].phase.Reading?)
    case ReadSucceeds(t) => t in s.tasks && s.tasks[t].phase.Reading?
    case Cancel(_) => true
  }

  /** `try_acquire_owned`, and everything up to the next wait. */
  function AcquireStep(s: State, t: TaskId, validPageSize: bool): State
    requires t in s.tasks
  {
    if s.free == 0 then Return(s, t, TooManyTasks)
    else match s.tasks[t].request
      case QueryStart =>
        s.(free := s.free - 1,
           nextId := s.nextId + 1,
           tasks := s.tasks[t := Task(QueryStart, Some(s.nextId), Planning(s.nextId))])
      case QueryPage(id) =>
        if id !in s.sessions then Return(s, t, QueryNotFound)
        else if !validPageSize then Return(s, t, Rejected)
        else Enter(s.(free := s.free - 1), t, AwaitingHandle(id))
  }

  /** A failed page ends a query_start's session; a failed query_page keeps it. */
  function ReadFailsStep(s: State, t: TaskId): State
    requires Enabled(s, ReadFails(t))
  {
    var cleaned := if s.tasks[t].request.QueryStart? then s.(sessions := s.sessions - {s.tasks[t].phase.id}) else s;
    Return(cleaned, t, QueryFailed)
  }

  /** The read starts with the cancellation check. */
  function BeginReadStep(s: State, t: TaskId): State
    requires Enabled(s, BeginRead(t))
  {
    var id := s.tasks[t].phase.id;
    if id in s.cancelledAt then ReadFailsStep(s, t) else Enter(s, t, Reading(id, s.clock))
  }

  function CancelStep(s: State, id: QueryId): State {
    s.(sessions := s.sessions - {id},
       cancelledAt := if id in s.sessions then s.cancelledAt[id := s.clock] else s.cancelledAt,
       cancelReplies := s.cancelReplies + [(id, id in s.sessions)])
  }

  function Effect(s: State, e: Event): State
    requires Enabled(s, e)
  {
    match e
    case Arrive(t, request) => s.(tasks := s.tasks[t := Task(request, None, Arrived)])
    case Reject(t) => Return(s, t, Rejected)
    case Acquire(t, validPageSize) => AcquireStep(s, t, validPageSize)
    case PlanFails(t) => Return(s, t, QueryFailed)
    case PlanSucceeds(t) =>
      var id := s.tasks[t].phase.id;
      Enter(s.(sessions := s.sessions + {id}), t, AwaitingHandle(id))
    case LockHandle(t) =>
      var id := s.tasks[t].phase.id;
      Enter(s.(holder := s.holder[id := t]), t, HoldingHandle(id))
    case BeginRead(t) => BeginReadStep(s, t)
    case ReadFails(t) => ReadFailsStep(s, t)
    case ReadSucceeds(t) => Return(s, t, RowsReturned(s.tasks[t].phase.id, s.tasks[t].phase.began))
    case Cancel(id) => CancelStep(s, id)
  }

  function Step(s: State, e: Event): State
    requires Enabled(s, e)
  {
    var after := Effect(s, e);
    after.(clock := s.clock + 1)
  }

  /** The state after a run of events; None when some event was not possible. */
  function Run(s: State, es: seq<Event>): Option<State>
    decreases es
  {
    if es == [] then Some(s)
    else if Enabled(s, es[0]) then Run(Step(s, es[0]), es[1..])
    else None
  }

  // ---------- what every step keeps ----------

  ghost function PermitHolders(s: State): set<TaskId> {
    set t | t in s.tasks && HoldsPermit(s.tasks[t].phase)
  }

  ghost predicate PermitsBalance(s: State) {
    s.free + |PermitHolders(s)| == MAX_CONCURRENT_QUERY_TASKS
  }

  /** A handle is locked by exactly the task inside it. */
  ghost predicate LocksMatch(s: State) {
    && (forall t :: t in s.tasks && Inside(s.tasks[t].phase).Some? ==>
          Inside(s.tasks[t].phase).value in s.holder && s.holder[Inside(s.tasks[t].phase).value] == t)
    && (forall id :: id in s.holder ==>
          s.holder[id] in s.tasks && Inside(s.tasks[s.holder[id]].phase) == Some(id))
  }

  function PhaseId(p: Phase): Option<QueryId> {
    match p
    case Arrived => None
    case Planning(id) => Some(id)
    case AwaitingHandle(id) => Some(id)
    case HoldingHandle(id) => Some(id)
    case Reading(id, _) => Some(id)
    case Finished(_) => None
  }

  /** What holds of a task by itself: a query_start works under the id it was issued. */
  predicate TaskOk(task: Task, nextId: QueryId) {
    && (task.issued.Some? ==> 0 < task.issued.value < nextId && task.request.QueryStart? && !task.phase.Arrived?)
    && (task.request.QueryStart? && PhaseId(task.phase).Some? ==> task.issued == PhaseId(task.phase))
    && (task.phase.Planning? ==> task.request.QueryStart?)
  }

  ghost predicate TasksOk(s: State) {
    && 0 < s.nextId
    && forall t :: t in s.tasks ==> TaskOk(s.tasks[t], s.nextId)
  }

  /** No id is issued twice. */
  ghost predicate IssuedOnce(s: State) {
    forall t, u :: t in s.tasks && u in s.tasks && t != u && s.tasks[t].issued.Some? ==>
      s.tasks[t].issued != s.tasks[u].issued
  }

  /** Sessions carry issued ids, and a query still being planned is not a session yet. */
  ghost predicate SessionsAreIssued(s: State) {
    && (forall id :: id in s.sessions || id in s.cancelledAt ==> 0 < id < s.nextId)
    && (forall t :: t in s.tasks && s.tasks[t].phase.Planning? ==>
          s.tasks[t].phase.id !in s.sessions && s.tasks[t].phase.id !in s.cancelledAt)
  }

  /** A query_start that did not answer with rows has left no session behind. */
  ghost predicate FailedStartsAreGone(s: State) {
    forall t :: t in s.tasks && s.tasks[t].issued.Some? && s.tasks[t].phase == Finished(QueryFailed) ==>
      s.tasks[t].issued.value !in s.sessions
  }

  /** A cancelled query is no session any more, and was acknowledged once. */
  ghost predicate CancelsAreFinal(s: State) {
    && (forall id :: id in s.cancelledAt ==> id !in s.sessions && s.cancelledAt[id] < s.clock)
    && (forall i :: 0 <= i < |s.cancelReplies| && s.cancelReplies[i].1 ==> s.cancelReplies[i].0 in s.cancelledAt)
    && (forall i, j :: 0 <= i < j < |s.cancelReplies| && s.cancelReplies[i].1 && s.cancelReplies[j].1 ==>
          s.cancelReplies[i].0 != s.cancelReplies[j].0)
  }

  function ReadStart(p: Phase): Option<(QueryId, nat)> {
    match p
    case Reading(id, began) => Some((id, began))
    case Finished(RowsReturned(id, began)) => Some((id, began))
    case _ => None
  }

  /** Reads that go on, or ended with rows, began before any cancellation of their query. */
  ghost predicate ReadsPrecedeCancels(s: State) {
    forall t :: t in s.tasks && ReadStart(s.tasks[t].phase).Some? ==>
      var (id, began) := ReadStart(s.tasks[t].phase).value;
      began < s.clock && (id in s.cancelledAt ==> began < s.cancelledAt[id])
  }

  ghost predicate Invariant(s: State) {
    && PermitsBalance(s) && LocksMatch(s)
    && TasksOk(s) && IssuedOnce(s) && SessionsAreIssued(s)
    && FailedStartsAreGone(s) && CancelsAreFinal(s) && ReadsPrecedeCancels(s)
  }

  /** Every step but a cancellation moves one task. */
  function Mover(e: Event): Option<TaskId> {
    match e
    case Arrive(t, _) => Some(t)
    case Reject(t) => Some(t)
    case Acquire(t, _) => Some(t)
    case PlanFails(t) => Some(t)
    case PlanSucceeds(t) => Some(t)
    case LockHandle(t) => Some(t)
    case BeginRead(t) => Some(t)
    case ReadFails(t) => Some(t)
    case ReadSucceeds(t) => Some(t)
    case Cancel(_) => None
  }

  /** `task` takes the place of task `t`, and no cancellation is recorded. */
  ghost predicate Moved(s: State, after: State, t: TaskId, task: Task) {
    && after.tasks == s.tasks[t := task] && after.clock == s.clock + 1
    && after.cancelledAt == s.cancelledAt && after.cancelReplies == s.cancelReplies
  }

  lemma StepMoves(s: State, e: Event, t: TaskId)
    requires Enabled(s, e) && Mover(e) == Some(t)
    ensures t in Step(s, e).tasks && Moved(s, Step(s, e), t, Step(s, e).tasks[t])
  {}

  /** Replacing one task changes the number of permit holders by that task alone. */
  lemma PermitsOfUpdate(s: State, after: State, t: TaskId, task: Task)
    requires after.tasks == s.tasks[t := task]
    ensures |PermitHolders(after)| ==
            |PermitHolders(s)| - (if t in PermitHolders(s) then 1 else 0) + (if HoldsPermit(task.phase) then 1 else 0)
  {
    var others := PermitHolders(s) - {t};
    assert PermitHolders(s) == if t in PermitHolders(s) then others + {t} else others;
    assert PermitHolders(after) == if HoldsPermit(task.phase) then others + {t} else others;
  }

  function PermitsOf(s: State, t: TaskId): nat { if t in s.tasks && HoldsPermit(s.tasks[t].phase) then 1 else 0 }

  /** The permit a task gains or loses is taken from the free ones or given back. */
  lemma PermitsMove(s: State, e: Event, t: TaskId)
    requires Enabled(s, e) && Mover(e) == Some(t)
    ensures Step(s, e).free + PermitsOf(Step(s, e), t) == s.free + PermitsOf(s, t)
  {}

  lemma PermitsStep(s: State, e: Event)
    requires Enabled(s, e) && PermitsBalance(s)
    ensures PermitsBalance(Step(s, e))
  {
    var after := Step(s, e);
    if e.Cancel? {
      assert PermitHolders(after) == PermitHolders(s);
    } else {
      var t := Mover(e).value;
      StepMoves(s, e, t);
      PermitsMove(s, e, t);
      PermitsOfUpdate(s, after, t, after.tasks[t]);
    }
  }

  lemma LocksReturn(s: State, t: TaskId, reply: Reply)
    requires t in s.tasks && LocksMatch(s)
    ensures LocksMatch(Return(s, t, reply))
  {}

  lemma LocksEnter(s: State, after: State, t: TaskId, task: Task)
    requires LocksMatch(s) && (t in s.tasks ==> Inside(s.tasks[t].phase).None?)
    requires after.tasks == s.tasks[t := task] && after.holder == s.holder
    requires Inside(task.phase).None?
    ensures LocksMatch(after)
  {}

  lemma LocksStay(s: State, after: State, t: TaskId, task: Task)
    requires LocksMatch(s) && t in s.tasks && Inside(task.phase) == Inside(s.tasks[t].phase)
    requires after.tasks == s.tasks[t := task] && after.holder == s.holder
    ensures LocksMatch(after)
  {}

  lemma LocksTake(s: State, after: State, t: TaskId, task: Task, id: QueryId)
    requires LocksMatch(s) && t in s.tasks && id !in s.holder
    requires Inside(s.tasks[t].phase).None? && Inside(task.phase) == Some(id)
    requires after.tasks == s.tasks[t := task] && after.holder == s.holder[id := t]
    ensures LocksMatch(after)
  {}

  lemma LocksStep(s: State, e: Event)
    requires Enabled(s, e) && LocksMatch(s)
    ensures LocksMatch(Step(s, e))
  {
    match e
    case Cancel(_) =>
    case Arrive(t, _) => LocksEnter(s, Step(s, e), t, Step(s, e).tasks[t]);
    case Reject(t) => LocksReturn(s, t, Rejected);
    case Acquire(t, _) => LocksEnter(s, Step(s, e), t, Step(s, e).tasks[t]);
    case PlanFails(t) => LocksReturn(s, t, QueryFailed);
    case PlanSucceeds(t) => LocksEnter(s, Step(s, e), t, Step(s, e).tasks[t]);
    case _ => LocksInside(s, e);
  }

  /** Steps of tasks that are to enter a handle or are inside one. */
  lemma LocksInside(s: State, e: Event)
    requires Enabled(s, e) && LocksMatch(s) && (e.LockHandle? || e.BeginRead? || e.ReadFails? || e.ReadSucceeds?)
    ensures LocksMatch(Step(s, e))
  {
    var after := Step(s, e);
    match e
    case LockHandle(t) => LocksTake(s, after, t, after.tasks[t], s.tasks[t].phase.id);
    case BeginRead(t) =>
      if after.tasks[t].phase.Reading? {
        LocksStay(s, after, t, after.tasks[t]);
      } else {
        LocksReturn(s, t, QueryFailed);
      }
    case ReadFails(t) => LocksReturn(s, t, QueryFailed);
    case ReadSucceeds(t) => LocksReturn(s, t, after.tasks[t].phase.reply);
  }

  lemma TasksUpdate(s: State, after: State, t: TaskId, task: Task)
    requires TasksOk(s) && Moved(s, after, t, task) && s.nextId <= after.nextId && TaskOk(task, after.nextId)
    ensures TasksOk(after)
  {}

  lemma MoverIsOk(s: State, e: Event, t: TaskId)
    requires Enabled(s, e) && Mover(e) == Some(t) && 0 < s.nextId && (t in s.tasks ==> TaskOk(s.tasks[t], s.nextId))
    ensures var after := Step(s, e);
            t in after.tasks && s.nextId <= after.nextId && TaskOk(after.tasks[t], after.nextId)
  {
    if e.Acquire? {
      AcquirerIsOk(s, t, e.validPageSize);
    }
  }

  lemma AcquirerIsOk(s: State, t: TaskId, validPageSize: bool)
    requires t in s.tasks && s.tasks[t].phase.Arrived? && 0 < s.nextId && TaskOk(s.tasks[t], s.nextId)
    ensures var after := AcquireStep(s, t, validPageSize);
            t in after.tasks && s.nextId <= after.nextId && TaskOk(after.tasks[t], after.nextId)
  {}

  lemma TasksStep(s: State, e: Event)
    requires Enabled(s, e) && TasksOk(s)
    ensures TasksOk(Step(s, e))
  {
    if !e.Cancel? {
      var t := Mover(e).value;
      StepMoves(s, e, t);
      MoverIsOk(s, e, t);
      TasksUpdate(s, Step(s, e), t, Step(s, e).tasks[t]);
    }
  }

  function IssuedTo(s: State, t: TaskId): Option<QueryId> { if t in s.tasks then s.tasks[t].issued else None }

  lemma IssuedUpdate(s: State, after: State, t: TaskId, task: Task)
    requires TasksOk(s) && IssuedOnce(s) && Moved(s, after, t, task)
    requires task.issued == IssuedTo(s, t) || task.issued == Some(s.nextId)
    ensures IssuedOnce(after)
  {}

  /** A task keeps the id it was issued, or is issued the next one. */
  lemma MoverIsIssued(s: State, e: Event, t: TaskId)
    requires Enabled(s, e) && Mover(e) == Some(t)
    ensures var after := Step(s, e);
            t in after.tasks && (after.tasks[t].issued == IssuedTo(s, t) || after.tasks[t].issued == Some(s.nextId))
  {}

  lemma IssuedStep(s: State, e: Event)
    requires Enabled(s, e) && TasksOk(s) && IssuedOnce(s)
    ensures IssuedOnce(Step(s, e))
  {
    if !e.Cancel? {
      var t := Mover(e).value;
      StepMoves(s, e, t);
      MoverIsIssued(s, e, t);
      IssuedUpdate(s, Step(s, e), t, Step(s, e).tasks[t]);
    }
  }

  lemma SessionsStep(s: State, e: Event)
    requires Enabled(s, e) && TasksOk(s) && IssuedOnce(s) && SessionsAreIssued(s)
    ensures SessionsAreIssued(Step(s, e))
  {
    if e.Acquire? {
      AcquireKeepsSessions(s, e);
    } else if !e.Cancel? {
      var t := Mover(e).value;
      StepMoves(s, e, t);
      SessionsGrow(s, e, t);
      OnlyAcquirersPlan(s, e, t);
      SessionsUpdate(s, Step(s, e), t, Step(s, e).tasks[t]);
    }
  }

  /** A task that was planning is the only one whose query becomes a session. */
  lemma SessionsUpdate(s: State, after: State, t: TaskId, task: Task)
    requires TasksOk(s) && IssuedOnce(s) && SessionsAreIssued(s) && Moved(s, after, t, task) && after.nextId == s.nextId
    requires !task.phase.Planning?
    requires forall id :: id in after.sessions ==>
               id in s.sessions || (t in s.tasks && s.tasks[t].phase == Planning(id))
    ensures SessionsAreIssued(after)
  {}

  lemma OnlyAcquirersPlan(s: State, e: Event, t: TaskId)
    requires Enabled(s, e) && Mover(e) == Some(t) && !e.Acquire?
    ensures var after := Step(s, e); t in after.tasks && !after.tasks[t].phase.Planning? && after.nextId == s.nextId
  {}

  lemma AcquireKeepsSessions(s: State, e: Event)
    requires e.Acquire? && Enabled(s, e) && TasksOk(s) && SessionsAreIssued(s)
    ensures SessionsAreIssued(Step(s, e))
  {}

  lemma FailedStartsStep(s: State, e: Event)
    requires Enabled(s, e) && TasksOk(s) && IssuedOnce(s) && SessionsAreIssued(s) && FailedStartsAreGone(s)
    ensures FailedStartsAreGone(Step(s, e))
  {}

  lemma CancelsUpdate(s: State, after: State, t: TaskId, task: Task)
    requires CancelsAreFinal(s) && Moved(s, after, t, task)
    requires forall id :: id in after.sessions ==> id in s.sessions || id !in s.cancelledAt
    ensures CancelsAreFinal(after)
  {}

  /** Only a query whose planning succeeded becomes a session. */
  lemma SessionsGrow(s: State, e: Event, t: TaskId)
    requires Enabled(s, e) && Mover(e) == Some(t)
    ensures Step(s, e).sessions <= s.sessions + (if e.PlanSucceeds? then {s.tasks[t].phase.id} else {})
  {}

  lemma CancelsStep(s: State, e: Event)
    requires Enabled(s, e) && SessionsAreIssued(s) && CancelsAreFinal(s)
    ensures CancelsAreFinal(Step(s, e))
  {
    if e.Cancel? {
      CancelKeepsCancels(s, e.id);
    } else {
      var t := Mover(e).value;
      StepMoves(s, e, t);
      SessionsGrow(s, e, t);
      CancelsUpdate(s, Step(s, e), t, Step(s, e).tasks[t]);
    }
  }

  lemma CancelKeepsCancels(s: State, id: QueryId)
    requires CancelsAreFinal(s)
    ensures CancelsAreFinal(Step(s, Cancel(id)))
  {}

  function ReadOf(s: State, t: TaskId): Option<(QueryId, nat)> {
    if t in s.tasks then ReadStart(s.tasks[t].phase) else None
  }

  lemma ReadsUpdate(s: State, after: State, t: TaskId, task: Task)
    requires ReadsPrecedeCancels(s) && Moved(s, after, t, task)
    requires ReadStart(task.phase).Some? ==>
               ReadStart(task.phase) == ReadOf(s, t)
               || (ReadStart(task.phase).value.1 == s.clock && ReadStart(task.phase).value.0 !in s.cancelledAt)
    ensures ReadsPrecedeCancels(after)
  {}

  /** A task goes on with its read, begins one that is not cancelled, or has none. */
  lemma MoverReads(s: State, e: Event, t: TaskId)
    requires Enabled(s, e) && Mover(e) == Some(t)
    ensures var after := Step(s, e);
            ReadOf(after, t).Some? ==>
              ReadOf(after, t) == ReadOf(s, t)
              || (ReadOf(after, t).value.1 == s.clock && ReadOf(after, t).value.0 !in s.cancelledAt)
  {}

  lemma ReadsStep(s: State, e: Event)
    requires Enabled(s, e) && CancelsAreFinal(s) && ReadsPrecedeCancels(s)
    ensures ReadsPrecedeCancels(Step(s, e))
  {
    if e.Cancel? {
      CancelKeepsReads(s, e.id);
    } else {
      var t := Mover(e).value;
      StepMoves(s, e, t);
      MoverReads(s, e, t);
      ReadsUpdate(s, Step(s, e), t, Step(s, e).tasks[t]);
    }
  }

  lemma CancelKeepsReads(s: State, id: QueryId)
    requires ReadsPrecedeCancels(s)
    ensures ReadsPrecedeCancels(Step(s, Cancel(id)))
  {}

  // ---------- every run ----------

  ghost predicate Reachable(s: State) { exists es :: Run(INIT, es) == Some(s) }

  lemma StepKeepsInvariant(s: State, e: Event)
    requires Enabled(s, e) && Invariant(s)
    ensures Invariant(Step(s, e))
  {
    PermitsStep(s, e);
    LocksStep(s, e);
    TasksStep(s, e);
    IssuedStep(s, e);
    SessionsStep(s, e);
    FailedStartsStep(s, e);
    CancelsStep(s, e);
    ReadsStep(s, e);
  }

  lemma {:induction false} RunKeepsInvariant(s: State, es: seq<Event>)
    requires Invariant(s) && Run(s, es).Some?
    ensures Invariant(Run(s, es).value) && s.clock <= Run(s, es).value.clock
    decreases es
  {
    if es != [] {
      StepKeepsInvariant(s, es[0]);
      RunKeepsInvariant(Step(s, es[0]), es[1..]);
    }
  }

  lemma InvariantAtStart()
    ensures Invariant(INIT)
  {
    assert PermitHolders(INIT) == {};
  }

  lemma ReachableInvariant(s: State)
    requires Reachable(s)
    ensures Invariant(s)
  {
    var es :| Run(INIT, es) == Some(s);
    InvariantAtStart();
    RunKeepsInvariant(INIT, es);
  }

  /** Free and held permits always make sixteen; once every task has returned, all are free. */
  lemma PermitsAreConserved(s: State)
    requires Reachable(s)
    ensures s.free + |PermitHolders(s)| == MAX_CONCURRENT_QUERY_TASKS
    ensures (forall t :: t in s.tasks ==> s.tasks[t].phase.Finished?) ==> s.free == MAX_CONCURRENT_QUERY_TASKS
  {
    ReachableInvariant(s);
    if forall t :: t in s.tasks ==> s.tasks[t].phase.Finished? {
      assert PermitHolders(s) == {};
    }
  }

  /** At most one task is ever inside a handle, and no two queries were issued the same id. */
  lemma HandlesAreExclusive(s: State, t: TaskId, u: TaskId)
    requires Reachable(s) && t in s.tasks && u in s.tasks && t != u
    ensures Inside(s.tasks[t].phase).Some? ==> Inside(s.tasks[t].phase) != Inside(s.tasks[u].phase)
    ensures s.tasks[t].issued.Some? ==> s.tasks[t].issued != s.tasks[u].issued
  {
    ReachableInvariant(s);
  }

  /** A cancellation is acknowledged at most once per query, however many requests ask for it. */
  lemma CancelledAtMostOnce(s: State, i: nat, j: nat)
    requires Reachable(s) && i < j < |s.cancelReplies| && s.cancelReplies[i].0 == s.cancelReplies[j].0
    ensures !(s.cancelReplies[i].1 && s.cancelReplies[j].1)
  {
    ReachableInvariant(s);
  }

  /** An issued id whose session is gone: cancelled, or its start failed. */
  ghost predicate Gone(s: State, id: QueryId) {
    && 0 < id < s.nextId && id !in s.sessions
    && forall t :: t in s.tasks && s.tasks[t].phase.Planning? ==> s.tasks[t].phase.id != id
  }

  lemma CancelledIsGone(s: State, id: QueryId)
    requires Reachable(s) && id in s.cancelledAt
    ensures Gone(s, id)
  {
    ReachableInvariant(s);
  }

  lemma FailedStartIsGone(s: State, t: TaskId)
    requires Reachable(s) && t in s.tasks && s.tasks[t].issued.Some? && s.tasks[t].phase == Finished(QueryFailed)
    ensures Gone(s, s.tasks[t].issued.value)
  {
    ReachableInvariant(s);
    forall u | u in s.tasks && s.tasks[u].phase.Planning? ensures s.tasks[u].phase.id != s.tasks[t].issued.value {
      assert TaskOk(s.tasks[u], s.nextId);
    }
    assert TaskOk(s.tasks[t], s.nextId);
  }

  lemma GoneStep(s: State, e: Event, id: QueryId)
    requires Enabled(s, e) && Gone(s, id)
    ensures Gone(Step(s, e), id)
  {}

  /** A query that is gone stays gone: it never serves another session, page request or cancel. */
  lemma {:induction false} GoneForever(s: State, es: seq<Event>, id: QueryId)
    requires Gone(s, id) && Run(s, es).Some?
    ensures Gone(Run(s, es).value, id)
    ensures forall t, v :: Enabled(Run(s, es).value, Acquire(t, v))
                           && Run(s, es).value.tasks[t].request == QueryPage(id) ==>
              Step(Run(s, es).value, Acquire(t, v)).tasks[t].phase in {Finished(QueryNotFound), Finished(TooManyTasks)}
    ensures Step(Run(s, es).value, Cancel(id)).cancelReplies == Run(s, es).value.cancelReplies + [(id, false)]
    decreases es
  {
    if es != [] {
      GoneStep(s, es[0], id);
      GoneForever(Step(s, es[0]), es[1..], id);
    }
  }

  /**
   * No read that begins after an acknowledged cancel returns rows: whatever happens later, every task
   * reading that query or answered with its rows began to read before the cancellation.
   */
  lemma NoRowsAfterCancel(s: State, es: seq<Event>, id: QueryId, t: TaskId)
    requires Reachable(s) && id in s.cancelledAt
    requires Run(s, es).Some? && t in Run(s, es).value.tasks
    ensures var start := ReadStart(Run(s, es).value.tasks[t].phase);
            start.Some? && start.value.0 == id ==> start.value.1 < s.cancelledAt[id] < s.clock
  {
    ReachableInvariant(s);
    RunKeepsInvariant(s, es);
    CancelTimeIsFixed(s, es, id);
  }

  lemma CancelTimeStays(s: State, e: Event, id: QueryId)
    requires Enabled(s, e) && CancelsAreFinal(s) && id in s.cancelledAt
    ensures id in Step(s, e).cancelledAt && Step(s, e).cancelledAt[id] == s.cancelledAt[id]
  {}

  lemma {:induction false} CancelTimeIsFixed(s: State, es: seq<Event>, id: QueryId)
    requires Invariant(s) && id in s.cancelledAt && Run(s, es).Some?
    ensures id in Run(s, es).value.cancelledAt && Run(s, es).value.cancelledAt[id] == s.cancelledAt[id]
    decreases es
  {
    if es != [] {
      StepKeepsInvariant(s, es[0]);
      CancelTimeStays(s, es[0], id);
      CancelTimeIsFixed(Step(s, es[0]), es[1..], id);
    }
  }

  /** An event by which some task, and not a client, moves on. */
  predicate MovesTask(s: State, e: Event) {
    !e.Arrive? && !e.Cancel? && Enabled(s, e)
  }

  /** Deadlock freedom: as long as a task has not returned, some task can move. */
  lemma SomeTaskCanMove(s: State, t: TaskId) returns (e: Event)
    requires Reachable(s) && t in s.tasks && !s.tasks[t].phase.Finished?
    ensures MovesTask(s, e)
  {
    ReachableInvariant(s);
    match s.tasks[t].phase
    case Arrived => e := Acquire(t, true);
    case Planning(_) => e := PlanSucceeds(t);
    case AwaitingHandle(id) => e := if id in s.holder then ReadFails(s.holder[id]) else LockHandle(t);
    case HoldingHandle(_) => e := BeginRead(t);
    case Reading(_, _) => e := ReadSucceeds(t);
  }
}
