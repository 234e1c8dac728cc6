/** What brings query sessions about and ends them, and what each request is answered, told from whole runs. */
module SessionLaws {
  import opened Common
  import opened QuerySessions

  // ---------- runs and their prefixes ----------

  /** The state before event `k` of a run; the state after the run, for `k == |es|`. */
  function StateAt(es: seq<Event>, k: nat): State
    requires k <= |es|
  {
    match Run(INIT, es[..k])
    case Some(s) => s
    case None => INIT
  }

  ghost predicate IsRun(es: seq<Event>) { Run(INIT, es).Some? }

  lemma {:induction false} RunAppend(s: State, es: seq<Event>, e: Event)
    ensures Run(s, es + [e]) ==
            if Run(s, es).Some? && Enabled(Run(s, es).value, e) then Some(Step(Run(s, es).value, e)) else None
    decreases es
  {
    if es == [] {
      assert [] + [e] == [e] && [e][1..] == [];
    } else {
      assert (es + [e])[1..] == es[1..] + [e];
      if Enabled(s, es[0]) {
        RunAppend(Step(s, es[0]), es[1..], e);
      }
    }
  }

  /** The last event of a run is one step from the state before it. */
  lemma LastStep(es: seq<Event>)
    requires IsRun(es) && es != []
    ensures var k := |es| - 1;
            && IsRun(es[..k])
            && Enabled(StateAt(es, k), es[k]) && StateAt(es, |es|) == Step(StateAt(es, k), es[k])
            && StateAt(es[..k], k) == StateAt(es, k)
            && Reachable(StateAt(es, k)) && Reachable(StateAt(es, |es|))
  {
    var k := |es| - 1;
    RunAppend(INIT, es[..k], es[k]);
    assert es == es[..k] + [es[k]] && es[..|es|] == es && es[..k][..k] == es[..k];
    assert Run(INIT, es[..k]) == Some(StateAt(es, k)) && Run(INIT, es) == Some(StateAt(es, |es|));
  }

  /** The states before the earlier events are those of the shorter run. */
  lemma EarlierStates(es: seq<Event>)
    requires es != []
    ensures forall k :: 0 <= k < |es| ==> StateAt(es[..|es| - 1], k) == StateAt(es, k)
  {
    forall k | 0 <= k < |es| ensures StateAt(es[..|es| - 1], k) == StateAt(es, k) {
      assert es[..|es| - 1][..k] == es[..k];
    }
  }

  // ---------- the life of a session ----------

  /** The planning of the query_start that was issued this id succeeds. */
  predicate Begins(s: State, e: Event, id: QueryId) {
    e.PlanSucceeds? && e.t in s.tasks && s.tasks[e.t].issued == Some(id)
  }

  /** The query is cancelled, or the first page of its own query_start fails. */
  predicate Ends(s: State, e: Event, id: QueryId) {
    || e == Cancel(id)
    || (e.ReadFails? && e.t in s.tasks && s.tasks[e.t].request.QueryStart? && s.tasks[e.t].issued == Some(id))
  }

  /** Sessions begin and end by these events only. */
  lemma SessionStep(s: State, e: Event, id: QueryId)
    requires Invariant(s) && Enabled(s, e)
    ensures id in Step(s, e).sessions <==> Begins(s, e, id) || (id in s.sessions && !Ends(s, e, id))
  {
    if !e.Cancel? && !e.Arrive? {
      assert TaskOk(s.tasks[e.t], s.nextId);
    }
  }

  ghost predicate LivesSince(es: seq<Event>, k: nat, id: QueryId) {
    && k < |es| && Begins(StateAt(es, k), es[k], id)
    && forall j :: k < j < |es| ==> !Ends(StateAt(es, j), es[j], id)
  }

  ghost predicate Lives(es: seq<Event>, id: QueryId) { exists k: nat :: LivesSince(es, k, id) }

  /** A query is a session if and only if its planning succeeded and nothing has ended it since. */
  lemma {:induction false} SessionLives(es: seq<Event>, id: QueryId)
    requires IsRun(es)
    ensures id in StateAt(es, |es|).sessions <==> Lives(es, id)
    decreases |es|
  {
    if es != [] {
      SessionLasts(es, id);
      LivesLonger(es, id);
      SessionLives(es[..|es| - 1], id);
    }
  }

  lemma SessionLasts(es: seq<Event>, id: QueryId)
    requires IsRun(es) && es != []
    ensures var n := |es| - 1;
            && IsRun(es[..n])
            && (id in StateAt(es, |es|).sessions <==>
                Begins(StateAt(es, n), es[n], id)
                || (id in StateAt(es[..n], n).sessions && !Ends(StateAt(es, n), es[n], id)))
  {
    var n := |es| - 1;
    LastStep(es);
    ReachableInvariant(StateAt(es, n));
    SessionStep(StateAt(es, n), es[n], id);
  }

  lemma LivesLonger(es: seq<Event>, id: QueryId)
    requires es != []
    ensures var n := |es| - 1;
            Lives(es, id) <==>
            Begins(StateAt(es, n), es[n], id) || (Lives(es[..n], id) && !Ends(StateAt(es, n), es[n], id))
  {
    var n := |es| - 1;
    if Begins(StateAt(es, n), es[n], id) {
      assert LivesSince(es, n, id);
    } else {
      if k: nat :| LivesSince(es[..n], k, id) {
        if !Ends(StateAt(es, n), es[n], id) {
          LivesOn(es, k, id);
        }
      }
      if k: nat :| LivesSince(es, k, id) {
        LivedBefore(es, k, id);
      }
    }
  }

  lemma LivedBefore(es: seq<Event>, k: nat, id: QueryId)
    requires LivesSince(es, k, id) && k < |es| - 1
    ensures LivesSince(es[..|es| - 1], k, id) && !Ends(StateAt(es, |es| - 1), es[|es| - 1], id)
  {
    EarlierStates(es);
  }

  lemma LivesOn(es: seq<Event>, k: nat, id: QueryId)
    requires es != [] && LivesSince(es[..|es| - 1], k, id)
    requires !Ends(StateAt(es, |es| - 1), es[|es| - 1], id)
    ensures LivesSince(es, k, id)
  {
    EarlierStates(es);
    forall j | k < j < |es| ensures !Ends(StateAt(es, j), es[j], id) {
      if j < |es| - 1 {
        assert es[..|es| - 1][j] == es[j];
      }
    }
  }

  // ---------- cancellations ----------

  /** The replies to the cancellations of a run: each is asked once, in order, and told whether its query lived. */
  ghost predicate Replied(es: seq<Event>, asked: seq<nat>, replies: seq<(QueryId, bool)>) {
    && |asked| == |replies|
    && (forall i, j :: 0 <= i < j < |asked| ==> asked[i] < asked[j])
    && (forall k :: 0 <= k < |es| && es[k].Cancel? ==> k in asked)
    && forall i :: 0 <= i < |asked| ==>
         && asked[i] < |es| && es[asked[i]] == Cancel(replies[i].0)
         && (replies[i].1 <==> replies[i].0 in StateAt(es, asked[i]).sessions)
  }

  /** A cancellation ends the session and says so if there is one, and does nothing otherwise. */
  lemma CancelEndsSession(s: State, id: QueryId)
    requires Reachable(s)
    ensures var after := Step(s, Cancel(id));
            && after.cancelReplies == s.cancelReplies + [(id, id in s.sessions)]
            && after.sessions == s.sessions - {id}
            && after.tasks == s.tasks && after.free == s.free && after.holder == s.holder
            && (id in after.cancelledAt <==> id in s.sessions || id in s.cancelledAt)
            && (forall other :: other != id ==> (other in after.cancelledAt <==> other in s.cancelledAt))
            && (id in s.sessions ==> after.cancelledAt[id] == s.clock && Gone(after, id))
  {
    ReachableInvariant(s);
  }

  lemma {:induction false} CancelReplies(es: seq<Event>) returns (asked: seq<nat>)
    requires IsRun(es)
    ensures Replied(es, asked, StateAt(es, |es|).cancelReplies)
    decreases |es|
  {
    asked := [];
    if es != [] {
      var n := |es| - 1;
      LastStep(es);
      EarlierStates(es);
      asked := CancelReplies(es[..n]);
      var before := StateAt(es, n).cancelReplies;
      if es[n].Cancel? {
        RepliedOnce(es, asked, before, es[n].id);
        asked := asked + [n];
      } else {
        var t := Mover(es[n]).value;
        StepMoves(StateAt(es, n), es[n], t);
      }
    }
  }

  lemma RepliedOnce(es: seq<Event>, asked: seq<nat>, replies: seq<(QueryId, bool)>, id: QueryId)
    requires es != [] && es[|es| - 1] == Cancel(id) && Replied(es[..|es| - 1], asked, replies)
    ensures var n := |es| - 1; Replied(es, asked + [n], replies + [(id, id in StateAt(es, n).sessions)])
  {
    EarlierStates(es);
    var n := |es| - 1;
    forall k | 0 <= k < |es| && es[k].Cancel? ensures k in asked + [n] {
      assert k < n ==> es[..n][k] == es[k];
    }
  }

  /** Whatever comes in between, a read of a cancelled query that begins afterwards fails. */
  lemma ReadAfterCancelFails(s: State, id: QueryId, es: seq<Event>, t: TaskId)
    requires Reachable(s) && id in s.sessions
    requires var now := Run(Step(s, Cancel(id)), es);
             now.Some? && Enabled(now.value, BeginRead(t)) && now.value.tasks[t].phase.id == id
    ensures var now := Run(Step(s, Cancel(id)), es).value;
            && Step(now, BeginRead(t)).tasks[t].phase == Finished(QueryFailed)
            && id !in Step(now, BeginRead(t)).sessions
  {
    ReachableInvariant(s);
    StepKeepsInvariant(s, Cancel(id));
    RunKeepsInvariant(Step(s, Cancel(id)), es);
    CancelTimeIsFixed(Step(s, Cancel(id)), es, id);
  }

  // ---------- what is answered ----------

  function QueryOf(task: Task): Option<QueryId> {
    match task.request
    case QueryPage(id) => Some(id)
    case QueryStart => task.issued
  }

  /** A task works on the query it asked for, or was issued, and returns the rows of no other. */
  predicate OnItsOwn(task: Task) {
    && (PhaseId(task.phase).Some? ==> PhaseId(task.phase) == QueryOf(task))
    && (ReadStart(task.phase).Some? ==> Some(ReadStart(task.phase).value.0) == QueryOf(task))
  }

  lemma {:induction false} EachOnItsOwn(es: seq<Event>, t: TaskId)
    requires IsRun(es) && t in StateAt(es, |es|).tasks
    ensures OnItsOwn(StateAt(es, |es|).tasks[t])
    decreases |es|
  {
    if es != [] {
      var n := |es| - 1;
      LastStep(es);
      var s, after := StateAt(es, n), StateAt(es, |es|);
      if t in s.tasks {
        EachOnItsOwn(es[..n], t);
      }
      if Mover(es[n]) == Some(t) {
        MoverOnItsOwn(s, es[n], t);
      } else if Mover(es[n]).Some? {
        StepMoves(s, es[n], Mover(es[n]).value);
      }
    }
  }

  lemma MoverOnItsOwn(s: State, e: Event, t: TaskId)
    requires Enabled(s, e) && Mover(e) == Some(t) && (t in s.tasks ==> OnItsOwn(s.tasks[t]))
    ensures t in Step(s, e).tasks && OnItsOwn(Step(s, e).tasks[t])
  {}

  /** Who asks for a permit while none is free is turned away; otherwise the request decides. */
  lemma AcquireOutcome(s: State, t: TaskId, validPageSize: bool)
    requires Reachable(s) && Enabled(s, Acquire(t, validPageSize))
    ensures var after, request := Step(s, Acquire(t, validPageSize)), s.tasks[t].request;
            var phase, full := after.tasks[t].phase, |PermitHolders(s)| == 16;
            && (phase == Finished(TooManyTasks) <==> full)
            && (phase == Finished(QueryNotFound) <==> !full && request.QueryPage? && request.id !in s.sessions)
            && (phase == Finished(Rejected) <==>
                  !full && request.QueryPage? && request.id in s.sessions && !validPageSize)
            && (phase.AwaitingHandle? <==>
                  !full && request.QueryPage? && request.id in s.sessions && validPageSize)
            && (phase.AwaitingHandle? ==> phase.id == request.id)
            && (phase.Planning? <==> !full && request.QueryStart?)
            && (phase.Planning? ==>
                  && after.tasks[t].issued == Some(phase.id)
                  && forall u :: u in s.tasks ==> s.tasks[u].issued != Some(phase.id))
  {
    ReachableInvariant(s);
    forall u | u in s.tasks ensures s.tasks[u].issued != Some(s.nextId) {
      assert TaskOk(s.tasks[u], s.nextId);
    }
  }

  /** Once inside the handle, a read begins unless its query was cancelled. */
  lemma ReadOutcome(s: State, t: TaskId)
    requires Reachable(s) && Enabled(s, BeginRead(t))
    ensures var phase, id := Step(s, BeginRead(t)).tasks[t].phase, s.tasks[t].phase.id;
            phase == if id in s.cancelledAt then Finished(QueryFailed) else Reading(id, s.clock)
  {}

  /** Task `t` returns the rows of `id`, read from `began` on; sessions and locks stay as they were. */
  ghost predicate Serves(s: State, now: Option<State>, t: TaskId, id: QueryId, began: nat, free: nat) {
    && now.Some? && Answered(now.value, t, RowsReturned(id, began))
    && now.value.sessions == s.sessions && now.value.holder == s.holder && now.value.free == free
  }

  /** A page of a live session is served to whoever finds a permit and the handle free. */
  lemma PageIsServed(s: State, t: TaskId, id: QueryId)
    requires Reachable(s) && Enabled(s, Acquire(t, true)) && s.tasks[t].request == QueryPage(id)
    requires id in s.sessions && s.free > 0 && id !in s.holder
    ensures Serves(s, Run(s, [Acquire(t, true), LockHandle(t), BeginRead(t), ReadSucceeds(t)]),
                   t, id, s.clock + 2, s.free)
  {
    ReachableInvariant(s);
    assert id !in s.cancelledAt;
    PermitIsTaken(s, t, id);
    HandleIsServed(Step(s, Acquire(t, true)), t, id);
    assert [Acquire(t, true), LockHandle(t), BeginRead(t), ReadSucceeds(t)][1..]
        == [LockHandle(t), BeginRead(t), ReadSucceeds(t)];
  }

  lemma PermitIsTaken(s: State, t: TaskId, id: QueryId)
    requires Enabled(s, Acquire(t, true)) && s.tasks[t].request == QueryPage(id) && id in s.sessions && s.free > 0
    ensures var now := Step(s, Acquire(t, true));
            && now.free == s.free - 1 && now.sessions == s.sessions && now.holder == s.holder
            && now.cancelledAt == s.cancelledAt && now.clock == s.clock + 1
            && t in now.tasks && now.tasks[t].phase == AwaitingHandle(id)
  {}

  lemma HandleIsServed(s: State, t: TaskId, id: QueryId)
    requires t in s.tasks && s.tasks[t].phase == AwaitingHandle(id) && id !in s.holder && id !in s.cancelledAt
    ensures Serves(s, Run(s, [LockHandle(t), BeginRead(t), ReadSucceeds(t)]), t, id, s.clock + 1, s.free + 1)
  {
    var s1 := Step(s, LockHandle(t));
    assert s1.tasks[t].phase == HoldingHandle(id) && s1.clock == s.clock + 1;
    var s2 := Step(s1, BeginRead(t));
    assert s2.tasks[t].phase == Reading(id, s.clock + 1);
    assert s.holder[id := t] - {id} == s.holder;
    ThreeSteps(s, LockHandle(t), BeginRead(t), ReadSucceeds(t));
  }

  lemma ThreeSteps(s: State, a: Event, b: Event, c: Event)
    requires Enabled(s, a) && Enabled(Step(s, a), b) && Enabled(Step(Step(s, a), b), c)
    ensures Run(s, [a, b, c]) == Some(Step(Step(Step(s, a), b), c))
  {
    assert [a, b, c][1..] == [b, c] && [b, c][1..] == [c] && [c][1..] == [];
    var s1 := Step(s, a);
    var s2 := Step(s1, b);
    assert Run(s2, [c]) == Some(Step(s2, c));
    assert Run(s1, [b, c]) == Run(s2, [c]);
  }

  /** The event by which a task returned, and why. */
  predicate Caused(s: State, e: Event, t: TaskId, reply: Reply) {
    && Mover(e) == Some(t) && t in s.tasks
    && match reply
       case TooManyTasks => e.Acquire? && s.free == 0
       case QueryNotFound =>
         e.Acquire? && s.free > 0 && s.tasks[t].request.QueryPage? && s.tasks[t].request.id !in s.sessions
       case Rejected =>
         || (e.Reject? && s.tasks[t].request.QueryStart?)
         || (e.Acquire? && !e.validPageSize && s.free > 0
             && s.tasks[t].request.QueryPage? && s.tasks[t].request.id in s.sessions)
       case QueryFailed =>
         || e.PlanFails? || e.ReadFails?
         || (e.BeginRead? && s.tasks[t].phase.HoldingHandle? && s.tasks[t].phase.id in s.cancelledAt)
       case RowsReturned(id, began) => e.ReadSucceeds? && s.tasks[t].phase == Reading(id, began)
  }

  lemma MoverReturns(s: State, e: Event, t: TaskId, reply: Reply)
    requires Enabled(s, e) && Mover(e) == Some(t) && t in Step(s, e).tasks
    ensures Step(s, e).tasks[t].phase == Finished(reply) <==> Caused(s, e, t, reply)
  {
    if e.Acquire? {
      AcquirerReturns(s, t, e.validPageSize, reply);
    } else if e.BeginRead? {
      ReaderReturns(s, t, reply);
    } else {
      OtherReturns(s, e, t, reply);
    }
  }

  lemma OtherReturns(s: State, e: Event, t: TaskId, reply: Reply)
    requires Enabled(s, e) && Mover(e) == Some(t) && t in Step(s, e).tasks && !e.Acquire? && !e.BeginRead?
    ensures Step(s, e).tasks[t].phase == Finished(reply) <==> Caused(s, e, t, reply)
  {}

  lemma AcquirerReturns(s: State, t: TaskId, validPageSize: bool, reply: Reply)
    requires Enabled(s, Acquire(t, validPageSize))
    ensures var e := Acquire(t, validPageSize);
            Step(s, e).tasks[t].phase == Finished(reply) <==> Caused(s, e, t, reply)
  {}

  lemma ReaderReturns(s: State, t: TaskId, reply: Reply)
    requires Enabled(s, BeginRead(t))
    ensures Step(s, BeginRead(t)).tasks[t].phase == Finished(reply) <==> Caused(s, BeginRead(t), t, reply)
  {}

  ghost predicate CausedAt(es: seq<Event>, k: nat, t: TaskId, reply: Reply) {
    k < |es| && Caused(StateAt(es, k), es[k], t, reply)
  }

  /** Every answer of a run has its cause, and each cause gets its answer, which is final. */
  lemma {:induction false} EveryAnswerHasItsCause(es: seq<Event>, t: TaskId, reply: Reply)
    requires IsRun(es)
    ensures Answered(StateAt(es, |es|), t, reply) <==> exists k: nat :: CausedAt(es, k, t, reply)
    decreases |es|
  {
    if es != [] {
      var n := |es| - 1;
      LastStep(es);
      EveryAnswerHasItsCause(es[..n], t, reply);
      CausedByNow(es, t, reply);
      AnswerStep(StateAt(es, n), es[n], t, reply);
    }
  }

  lemma CausedByNow(es: seq<Event>, t: TaskId, reply: Reply)
    requires es != []
    ensures var n := |es| - 1;
            (exists k: nat :: CausedAt(es, k, t, reply)) <==>
            Caused(StateAt(es, n), es[n], t, reply) || exists k: nat :: CausedAt(es[..n], k, t, reply)
  {
    var n := |es| - 1;
    EarlierStates(es);
    if Caused(StateAt(es, n), es[n], t, reply) {
      assert CausedAt(es, n, t, reply);
    }
    if k: nat :| CausedAt(es[..n], k, t, reply) {
      assert CausedAt(es, k, t, reply);
    }
    if k: nat :| CausedAt(es, k, t, reply) {
      if k < n {
        assert CausedAt(es[..n], k, t, reply);
      }
    }
  }

  predicate Answered(s: State, t: TaskId, reply: Reply) { t in s.tasks && s.tasks[t].phase == Finished(reply) }

  lemma AnswerStep(s: State, e: Event, t: TaskId, reply: Reply)
    requires Enabled(s, e)
    ensures Answered(Step(s, e), t, reply) <==> Answered(s, t, reply) || Caused(s, e, t, reply)
  {
    if Mover(e) == Some(t) {
      StepMoves(s, e, t);
      MoverReturns(s, e, t, reply);
    } else if Mover(e).Some? {
      StepMoves(s, e, Mover(e).value);
    }
  }
}
