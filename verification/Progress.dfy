/**
 * Progress of the coordinator: with idle owners the planner always finds work to dispatch, and
 * planning and finishing in turn drains every task that does not depend on a dropped one.
 */
module Progress {
  import opened Common
  import opened FileStore
  import opened FileHistory
  import opened Tasks
  import opened Scheduler
  import opened Coordinator
  import opened CoordinatorSafety
  import opened CoordinatorTheorems

  /** Not started, and not held up for good by a dropped task. */
  ghost predicate Live(m: Table, id: TaskId) {
    id in m && (m[id].state == Blocked || m[id].state == Unassigned) && !Poisoned(m, id)
  }

  ghost predicate NoneAssigned(m: Table) {
    forall id | id in m :: m[id].state != Assigned
  }

  ghost predicate OwnersIdle(m: Table, idle: set<AgentId>) {
    forall id | Live(m, id) :: m[id].owner.Some? && m[id].owner.value in idle
  }

  // --------------------------------------------------------- there is always work

  lemma PoisonSpreads(m: Table, id: TaskId, d: TaskId)
    requires id in m && d in m && d in m[id].dependsOn
    requires m[d].state == Dropped || Poisoned(m, d)
    ensures Poisoned(m, id)
  {
    if m[d].state == Dropped {
      assert LeadsToDropped(m, [id, d], id);
    } else {
      var p :| LeadsToDropped(m, p, d);
      var q := [id] + p;
      assert forall k | 0 < k < |q| :: q[k] == p[k - 1];
      assert DependencyPath(m, q) by {
        forall k | 0 <= k < |q| - 1 && q[k] in m ensures q[k + 1] in m[q[k]].dependsOn {
          if k > 0 { assert p[k] in m[p[k - 1]].dependsOn; }
        }
      }
      assert LeadsToDropped(m, q, id);
    }
  }

  /** Some live task has nothing left to wait for. */
  lemma {:induction false} ReadyLiveTask(m: Table, order: seq<TaskId>, i: nat) returns (id: TaskId)
    requires Ordered(m, order) && NoneAssigned(m)
    requires i < |order| && Live(m, order[i])
    ensures Live(m, id) && DepsDone(m, m[id])
    decreases i
  {
    if DepsDone(m, m[order[i]]) { return order[i]; }
    var d :| d in m[order[i]].dependsOn && !IsDone(m, d);
    assert d in order[..i];
    var j :| 0 <= j < i && order[j] == d;
    if m[d].state == Dropped || Poisoned(m, d) { PoisonSpreads(m, order[i], d); }
    id := ReadyLiveTask(m, order, j);
  }

  // ------------------------------------------------------- plans that do nothing

  /** The task cannot be dispatched now: nobody owns it, its owner is busy, or an assigned task is in its way. */
  predicate Waits(t: Task, idle: set<AgentId>, inflight: seq<seq<Path>>) {
    t.owner.None? || t.owner.value !in idle || ConflictsWithAny(t.writes, inflight)
  }

  predicate AllWait(candidates: seq<Task>, idle: set<AgentId>, inflight: seq<seq<Path>>) {
    forall t | t in candidates :: Waits(t, idle, inflight)
  }

  lemma {:induction false} NothingPickedIff(candidates: seq<Task>, idle: set<AgentId>, inflight: seq<seq<Path>>)
    ensures Greedy(candidates, idle, inflight) == [] <==> AllWait(candidates, idle, inflight)
  {
    if candidates != [] {
      var n := |candidates| - 1;
      NothingPickedIff(candidates[..n], idle, inflight);
      assert forall t :: t in candidates <==> t in candidates[..n] || t == candidates[n];
      assert Fits(candidates[n], [], idle, inflight) <==> !Waits(candidates[n], idle, inflight);
      hide Waits, Fits;
    }
  }

  /**
   * A plan dispatches nothing if and only if every task that is ready is unowned, has a busy owner or
   * meets an assigned task. These are the tasks that are left to the next event that starts a plan.
   */
  lemma NothingDispatchedIff(tasks: seq<Task>, idle: set<AgentId>)
    requires UniqueIds(tasks)
    ensures Plan(tasks, idle).dispatch == []
            <==> AllWait(Candidates(ByTime(tasks), MarkSet(tasks)), idle, InFlight(tasks))
  {
    NothingPickedIff(Candidates(ByTime(tasks), MarkSet(tasks)), idle, InFlight(tasks));
    var picked := Picked(tasks, idle);
    forall u | u in picked ensures u.owner.Some? { PickedFacts(tasks, idle, u); }
    DecisionsExact(picked);
    assert Plan(tasks, idle).dispatch == [] <==> picked == [];
  }

  /** With nothing in flight and the owners of live tasks idle, a live task means a dispatch. */
  lemma PlanFindsWork(tasks: seq<Task>, idle: set<AgentId>, id: TaskId)
    requires UniqueIds(tasks) && GraphOk(View(tasks)) && NoneAssigned(View(tasks))
    requires Live(View(tasks), id) && OwnersIdle(View(tasks), idle)
    ensures Plan(tasks, idle).dispatch != []
  {
    var m := View(tasks);
    var order :| Ordered(m, order);
    var i :| 0 <= i < |order| && order[i] == id;
    var x := ReadyLiveTask(m, order, i);
    var t := m[x];
    ViewKeyed(tasks);
    ReadyIsCandidate(tasks, t);
    var candidates := Candidates(ByTime(tasks), MarkSet(tasks));
    var n :| 0 <= n < |candidates| && candidates[n] == t;
    GreedyMaximal(candidates, idle, InFlight(tasks), n);
    NothingInFlight(tasks);
    forall u | u in Picked(tasks, idle) ensures u.owner.Some? { PickedFacts(tasks, idle, u); }
    DecisionsExact(Picked(tasks, idle));
    hide View, UniqueIds, Candidates, MarkSet, Decisions;
    assert Picked(tasks, idle) == [] ==> Fits(t, [], idle, []);
  }

  lemma ReadyIsCandidate(tasks: seq<Task>, t: Task)
    requires UniqueIds(tasks) && t in tasks && (t.state == Blocked || t.state == Unassigned)
    requires DepsDone(View(tasks), t)
    ensures t in Candidates(ByTime(tasks), MarkSet(tasks))
  {
    var sorted := ByTime(tasks);
    ByTimeExact(tasks, 0);
    CandidatesExact(sorted, MarkSet(tasks), t);
    MarksExact(sorted, DoneIds(tasks), t.id);
    forall d | d in t.dependsOn ensures d in DoneIds(tasks) { DoneIdsExact(tasks, d); }
  }

  lemma NothingInFlight(tasks: seq<Task>)
    requires UniqueIds(tasks) && NoneAssigned(View(tasks))
    ensures InFlight(tasks) == []
  {
    var inflight := InFlight(tasks);
    assert inflight != [] ==> inflight[0] in inflight;
    if inflight != [] {
      InFlightExact(tasks, inflight[0]);
      var t :| t in tasks && t.state.Assigned? && t.writes == inflight[0];
      ViewAt(tasks, t);
    }
  }

  /**
   * In every reachable state with no task assigned and the owners of all live tasks idle, a live task
   * means that planning dispatches something. Without dropped tasks every unfinished task is live.
   */
  lemma PlannerNeverStalls(t0: Tables, steps: seq<Step>, idle: set<AgentId>, id: TaskId)
    requires Fresh(t0)
    ensures var tasks := Run(Boot(t0), steps).tasks;
            var m := View(tasks);
            NoneAssigned(m) && Live(m, id) && OwnersIdle(m, idle) ==> Plan(tasks, idle).dispatch != []
  {
    Reachable(t0, steps);
    hide Run, View, Plan;
    var tasks := Run(Boot(t0), steps).tasks;
    var m := View(tasks);
    if NoneAssigned(m) && Live(m, id) && OwnersIdle(m, idle) { PlanFindsWork(tasks, idle, id); }
  }

  // -------------------------------------------------------------------- one round

  /** Nothing is going on: no tick, no request, no task in flight. */
  ghost predicate Quiet(s: Sys) {
    s.tick == NoTick && s.requests == map[] && NoneAssigned(View(s.tasks))
  }

  function MarkSteps(n: nat): seq<Step> {
    if n == 0 then [] else MarkSteps(n - 1) + [MarkNext]
  }

  /** Each decision in turn: pushed to its owner, who reports it done. */
  function FinishSteps(dispatch: seq<Decision>): seq<Step> {
    if dispatch == [] then []
    else
      var d := dispatch[|dispatch| - 1];
      FinishSteps(dispatch[..|dispatch| - 1])
      + [DispatchNext(true), BeginDone(d.ownerId, d.taskId), FinishDone(d.ownerId)]
  }

  function RoundSteps(tasks: seq<Task>, idle: set<AgentId>): seq<Step> {
    var plan := Plan(tasks, idle);
    [StartTick(idle)] + MarkSteps(|plan.markUnassigned|) + FinishSteps(plan.dispatch) + [EndTick]
  }

  /** The tasks of `m` with some of them in another state. */
  ghost predicate Restated(m: Table, m': Table, ids: seq<TaskId>, state: TaskState) {
    && m'.Keys == m.Keys
    && forall id | id in m :: m'[id] == if id in ids then m[id].(state := state) else m[id]
  }

  /** `s'` is `s` after its first `n` marks. */
  ghost predicate AfterMarks(s: Sys, s': Sys, n: nat)
    requires s.tick.Applying? && n <= |s.tick.marks|
  {
    && UniqueIds(s'.tasks) && s'.requests == s.requests
    && s'.tick == Applying(s.tick.marks[n..], s.tick.dispatch)
    && Restated(View(s.tasks), View(s'.tasks), s.tick.marks[..n], Unassigned)
  }

  lemma MarkedOneMore(s: Sys, before: Sys, n: nat)
    requires s.tick.Applying? && 0 < n <= |s.tick.marks|
    requires forall id | id in s.tick.marks :: id in View(s.tasks)
    requires AfterMarks(s, before, n - 1)
    ensures AfterMarks(s, Next(before, MarkNext), n)
  {
    hide UniqueIds, View, Next;
    var id := s.tick.marks[n - 1];
    assert id in s.tick.marks;
    OneMark(before);
    assert s.tick.marks[n - 1..][1..] == s.tick.marks[n..];
    assert s.tick.marks[..n] == s.tick.marks[..n - 1] + [id];
    RestatedMore(View(s.tasks), View(before.tasks), View(Next(before, MarkNext).tasks), s.tick.marks[..n - 1], id, Unassigned);
  }

  lemma RunNothing(s: Sys)
    ensures Run(s, []) == s
  {
    hide Next;
  }

  lemma NoMarks(s: Sys)
    requires UniqueIds(s.tasks) && s.tick.Applying?
    ensures AfterMarks(s, s, 0)
  {
    hide View, UniqueIds;
    assert s.tick.marks[0..] == s.tick.marks;
  }

  lemma {:induction false} MarksApplied(s: Sys, n: nat)
    requires UniqueIds(s.tasks) && s.tick.Applying? && n <= |s.tick.marks|
    requires forall id | id in s.tick.marks :: id in View(s.tasks)
    ensures AfterMarks(s, Run(s, MarkSteps(n)), n)
  {
    hide AfterMarks, Next, Run, View, UniqueIds;
    if n == 0 {
      RunNothing(s);
      NoMarks(s);
    } else {
      MarksApplied(s, n - 1);
      RunLast(s, MarkSteps(n - 1), MarkNext);
      MarkedOneMore(s, Run(s, MarkSteps(n - 1)), n);
    }
  }

  lemma RunLast(s: Sys, steps: seq<Step>, step: Step)
    ensures Run(s, steps + [step]) == Next(Run(s, steps), step)
  {
    assert (steps + [step])[..|steps|] == steps;
  }

  lemma OneMark(s: Sys)
    requires UniqueIds(s.tasks) && s.tick.Applying? && s.tick.marks != [] && s.tick.marks[0] in View(s.tasks)
    ensures var s' := Next(s, MarkNext);
            var id := s.tick.marks[0];
            && UniqueIds(s'.tasks) && s'.requests == s.requests
            && s'.tick == Applying(s.tick.marks[1..], s.tick.dispatch)
            && View(s'.tasks) == View(s.tasks)[id := View(s.tasks)[id].(state := Unassigned)]
  {
    hide View, UniqueIds, Update;
    ViewUpdate(s.tasks, s.tick.marks[0], Patch(Some(Unassigned), None));
  }

  lemma RestatedMore(m: Table, m1: Table, m2: Table, ids: seq<TaskId>, id: TaskId, state: TaskState)
    requires Restated(m, m1, ids, state) && id in m && m2 == m1[id := m1[id].(state := state)]
    ensures Restated(m, m2, ids + [id], state)
  {
    assert forall x :: x in ids + [id] <==> x in ids || x == id;
    assert m2.Keys == m.Keys;
  }

  /** One decision: pushed, reported done, recorded done. */
  lemma OneDispatch(s: Sys)
    requires UniqueIds(s.tasks) && s.requests == map[]
    requires s.tick.Applying? && s.tick.marks == [] && s.tick.dispatch != []
    requires var d, m := s.tick.dispatch[0], View(s.tasks);
             d.taskId in m && m[d.taskId].state == Unassigned && m[d.taskId].owner == Some(d.ownerId)
    ensures var d := s.tick.dispatch[0];
            var s' := Next(Next(Next(s, DispatchNext(true)), BeginDone(d.ownerId, d.taskId)), FinishDone(d.ownerId));
            && UniqueIds(s'.tasks) && s'.requests == map[]
            && s'.tick == Applying([], s.tick.dispatch[1..])
            && View(s'.tasks) == View(s.tasks)[d.taskId := View(s.tasks)[d.taskId].(state := Done)]
  {
    hide View, UniqueIds, Update, Has, Get;
    var d, m := s.tick.dispatch[0], View(s.tasks);
    var s1 := Next(s, DispatchNext(true));
    ViewExact(s.tasks, d.taskId);
    ViewUpdate(s.tasks, d.taskId, Patch(Some(Assigned), None));
    assert View(s1.tasks) == m[d.taskId := m[d.taskId].(state := Assigned)];
    var s2 := Next(s1, BeginDone(d.ownerId, d.taskId));
    ViewExact(s1.tasks, d.taskId);
    assert s2 == Put(s1, d.ownerId, DoneReady(d.taskId));
    ViewUpdate(s1.tasks, d.taskId, Patch(Some(Done), None));
    assert s2.requests - {d.ownerId} == map[];
  }

  ghost predicate Dispatchable(m: Table, dispatch: seq<Decision>) {
    && (forall d | d in dispatch :: d.taskId in m && m[d.taskId].state == Unassigned && m[d.taskId].owner == Some(d.ownerId))
    && (forall i, j | 0 <= i < j < |dispatch| :: dispatch[i].taskId != dispatch[j].taskId)
  }

  function Targets(dispatch: seq<Decision>): seq<TaskId> {
    seq(|dispatch|, i requires 0 <= i < |dispatch| => dispatch[i].taskId)
  }

  /** `s'` is `s` after its first `n` dispatches have been pushed and finished. */
  ghost predicate AfterDispatches(s: Sys, s': Sys, n: nat)
    requires s.tick.Applying? && n <= |s.tick.dispatch|
  {
    && UniqueIds(s'.tasks) && s'.requests == map[]
    && s'.tick == Applying([], s.tick.dispatch[n..])
    && Restated(View(s.tasks), View(s'.tasks), Targets(s.tick.dispatch)[..n], Done)
  }

  ghost function Through(s: Sys, d: Decision): Sys {
    Next(Next(Next(s, DispatchNext(true)), BeginDone(d.ownerId, d.taskId)), FinishDone(d.ownerId))
  }

  lemma DispatchedOneMore(s: Sys, before: Sys, n: nat)
    requires s.tick.Applying? && 0 < n <= |s.tick.dispatch|
    requires Dispatchable(View(s.tasks), s.tick.dispatch)
    requires AfterDispatches(s, before, n - 1)
    ensures AfterDispatches(s, Through(before, s.tick.dispatch[n - 1]), n)
  {
    hide UniqueIds, View, Next;
    var ds := s.tick.dispatch;
    var d := ds[n - 1];
    assert d in ds && Targets(ds)[n - 1] == d.taskId;
    assert d.taskId !in Targets(ds)[..n - 1];
    OneDispatch(before);
    assert ds[n - 1..][1..] == ds[n..];
    assert Targets(ds)[..n] == Targets(ds)[..n - 1] + [d.taskId];
    RestatedMore(View(s.tasks), View(before.tasks), View(Through(before, d).tasks), Targets(ds)[..n - 1], d.taskId, Done);
  }

  lemma RunThrough(s: Sys, ds: seq<Decision>, n: nat)
    requires 0 < n <= |ds|
    ensures Run(s, FinishSteps(ds[..n])) == Through(Run(s, FinishSteps(ds[..n - 1])), ds[n - 1])
  {
    hide Next, Run;
    var d := ds[n - 1];
    assert ds[..n][..n - 1] == ds[..n - 1];
    var steps := FinishSteps(ds[..n - 1]);
    var s1, s2 := BeginDone(d.ownerId, d.taskId), FinishDone(d.ownerId);
    assert FinishSteps(ds[..n]) == steps + [DispatchNext(true)] + [s1] + [s2];
    RunLast(s, steps, DispatchNext(true));
    RunLast(s, steps + [DispatchNext(true)], s1);
    RunLast(s, steps + [DispatchNext(true)] + [s1], s2);
  }

  lemma {:induction false} DispatchesFinished(s: Sys, n: nat)
    requires UniqueIds(s.tasks) && s.requests == map[]
    requires s.tick.Applying? && s.tick.marks == [] && n <= |s.tick.dispatch|
    requires Dispatchable(View(s.tasks), s.tick.dispatch)
    ensures AfterDispatches(s, Run(s, FinishSteps(s.tick.dispatch[..n])), n)
  {
    if n == 0 {
      assert s.tick.dispatch[0..] == s.tick.dispatch;
    } else {
      hide AfterDispatches, Run, Through;
      DispatchesFinished(s, n - 1);
      RunThrough(s, s.tick.dispatch, n);
      DispatchedOneMore(s, Run(s, FinishSteps(s.tick.dispatch[..n - 1])), n);
    }
  }

  /** What one round does to the tasks. */
  ghost predicate RoundDone(m: Table, m': Table, plan: SchedulerPlan) {
    && m'.Keys == m.Keys
    && forall id | id in m ::
         m'[id] == if id in Targets(plan.dispatch) then m[id].(state := Done)
                   else if id in plan.markUnassigned then m[id].(state := Unassigned)
                   else m[id]
  }

  /** Once the marks are applied, what the plan picked is unassigned. */
  lemma PickedRestated(tasks: seq<Task>, idle: set<AgentId>, m: Table, t: Task)
    requires UniqueIds(tasks) && t in Picked(tasks, idle)
    requires Restated(View(tasks), m, Plan(tasks, idle).markUnassigned, Unassigned)
    ensures t.id in m && m[t.id].state == Unassigned && m[t.id].owner == t.owner
  {
    hide Picked, View, UniqueIds, Plan;
    PickedReady(tasks, idle, t);
    PickedFacts(tasks, idle, t);
  }

  lemma PlannedAreDispatchable(tasks: seq<Task>, idle: set<AgentId>, m: Table)
    requires UniqueIds(tasks) && Restated(View(tasks), m, Plan(tasks, idle).markUnassigned, Unassigned)
    ensures Dispatchable(m, Plan(tasks, idle).dispatch)
    ensures forall d | d in Plan(tasks, idle).dispatch ::
              d.taskId in View(tasks) && DepsReady(View(tasks), View(tasks)[d.taskId])
  {
    var picked := Picked(tasks, idle);
    var dispatch := Plan(tasks, idle).dispatch;
    hide Picked, View, UniqueIds, Decisions, Restated, DepsReady;
    forall t | t in picked ensures t.owner.Some? { PickedFacts(tasks, idle, t); }
    DecisionsExact(picked);
    forall k | 0 <= k < |picked|
      ensures picked[k].id in View(tasks) && DepsReady(View(tasks), picked[k])
      ensures View(tasks)[picked[k].id] == picked[k]
      ensures picked[k].id in m && m[picked[k].id].state == Unassigned && m[picked[k].id].owner == picked[k].owner
    {
      PickedReady(tasks, idle, picked[k]);
      PickedRestated(tasks, idle, m, picked[k]);
    }
    forall i, j | 0 <= i < j < |dispatch| ensures dispatch[i].taskId != dispatch[j].taskId {
      PickedApart(tasks, idle, i, j);
    }
  }

  /** Unassigned, or blocked with everything it waits for done. */
  ghost predicate DepsReady(m: Table, t: Task) {
    t.state == Unassigned || (t.state == Blocked && DepsDone(m, t))
  }

  lemma PickedReady(tasks: seq<Task>, idle: set<AgentId>, t: Task)
    requires UniqueIds(tasks) && t in Picked(tasks, idle)
    ensures t.id in View(tasks) && View(tasks)[t.id] == t && DepsReady(View(tasks), t)
    ensures t.state == Blocked ==> t.id in Plan(tasks, idle).markUnassigned
  {
    PickedFacts(tasks, idle, t);
    ViewAt(tasks, t);
    if t.state == Blocked {
      forall d | d in t.dependsOn ensures IsDone(View(tasks), d) { DoneIdsExact(tasks, d); }
      ByTimeExact(tasks, 0);
      MarksExact(ByTime(tasks), DoneIds(tasks), t.id);
    }
  }

  lemma RoundEnds(s: Sys, idle: set<AgentId>)
    requires UniqueIds(s.tasks) && Quiet(s)
    ensures var s' := Run(s, RoundSteps(s.tasks, idle));
            && UniqueIds(s'.tasks) && Quiet(s')
            && RoundDone(View(s.tasks), View(s'.tasks), Plan(s.tasks, idle))
  {
    hide UniqueIds, View, Next, Run, Dispatchable, AfterMarks, AfterDispatches, Plan, RoundSteps;
    var plan := Plan(s.tasks, idle);
    PlanMarksOk(s.tasks, idle);
    var s1 := Next(s, StartTick(idle));
    StartOfTick(s, idle);
    MarksApplied(s1, |plan.markUnassigned|);
    var s2 := Run(s1, MarkSteps(|plan.markUnassigned|));
    AllMarked(s1, s2);
    PlannedAreDispatchable(s.tasks, idle, View(s2.tasks));
    assert plan.dispatch[..|plan.dispatch|] == plan.dispatch;
    DispatchesFinished(s2, |plan.dispatch|);
    var s3 := Run(s2, FinishSteps(plan.dispatch));
    AllDispatched(s2, s3);
    EndOfTick(s3);
    RoundRuns(s, idle, s1, s2, s3, Next(s3, EndTick));
    RoundAdds(View(s.tasks), View(s2.tasks), View(s3.tasks), plan);
  }

  lemma RoundAdds(m: Table, m2: Table, m3: Table, plan: SchedulerPlan)
    requires NoneAssigned(m)
    requires Restated(m, m2, plan.markUnassigned, Unassigned) && Restated(m2, m3, Targets(plan.dispatch), Done)
    ensures RoundDone(m, m3, plan) && NoneAssigned(m3)
  {}

  lemma StartOfTick(s: Sys, idle: set<AgentId>)
    requires s.tick == NoTick
    ensures Next(s, StartTick(idle)) == s.(tick := Applying(Plan(s.tasks, idle).markUnassigned, Plan(s.tasks, idle).dispatch))
  {}

  lemma AllMarked(s: Sys, s': Sys)
    requires s.tick.Applying? && AfterMarks(s, s', |s.tick.marks|)
    ensures UniqueIds(s'.tasks) && s'.requests == s.requests && s'.tick == Applying([], s.tick.dispatch)
    ensures Restated(View(s.tasks), View(s'.tasks), s.tick.marks, Unassigned)
  {
    assert s.tick.marks[..|s.tick.marks|] == s.tick.marks;
  }

  lemma AllDispatched(s: Sys, s': Sys)
    requires s.tick.Applying? && AfterDispatches(s, s', |s.tick.dispatch|)
    ensures UniqueIds(s'.tasks) && s'.requests == map[] && s'.tick == Applying([], [])
    ensures Restated(View(s.tasks), View(s'.tasks), Targets(s.tick.dispatch), Done)
  {
    assert Targets(s.tick.dispatch)[..|s.tick.dispatch|] == Targets(s.tick.dispatch);
  }

  lemma EndOfTick(s: Sys)
    requires s.tick == Applying([], [])
    ensures Next(s, EndTick) == s.(tick := NoTick)
  {}

  lemma RoundRuns(s: Sys, idle: set<AgentId>, s1: Sys, s2: Sys, s3: Sys, s4: Sys)
    requires var plan := Plan(s.tasks, idle);
             && s1 == Next(s, StartTick(idle)) && s2 == Run(s1, MarkSteps(|plan.markUnassigned|))
             && s3 == Run(s2, FinishSteps(plan.dispatch)) && s4 == Next(s3, EndTick)
    ensures Run(s, RoundSteps(s.tasks, idle)) == s4
  {
    hide Next, Plan;
    var plan := Plan(s.tasks, idle);
    var marks, finish := MarkSteps(|plan.markUnassigned|), FinishSteps(plan.dispatch);
    assert [StartTick(idle)][..0] == [];
    assert Run(s, [StartTick(idle)]) == s1;
    RunAppend(s, [StartTick(idle)], marks);
    RunAppend(s, [StartTick(idle)] + marks, finish);
    RunLast(s, [StartTick(idle)] + marks + finish, EndTick);
  }

  // ------------------------------------------------------------------------ draining

  ghost function LiveSet(m: Table): set<TaskId> {
    set id | id in m && Live(m, id)
  }

  /** Rounds neither drop tasks nor touch dependencies, so the same tasks stay poisoned. */
  lemma PoisonUnchanged(m: Table, m': Table, id: TaskId)
    requires m'.Keys == m.Keys
    requires forall x | x in m :: SameShape(m[x], m'[x]) && (m'[x].state == Dropped <==> m[x].state == Dropped)
    ensures Poisoned(m', id) <==> Poisoned(m, id)
  {
    if p :| LeadsToDropped(m, p, id) {
      assert p[|p| - 1] in p;
      assert LeadsToDropped(m', p, id);
    }
    if p :| LeadsToDropped(m', p, id) {
      assert p[|p| - 1] in p;
      assert LeadsToDropped(m, p, id);
    }
  }

  lemma ReadyIsNotPoisoned(m: Table, id: TaskId)
    requires DepsOk(m) && id in m && DepsReady(m, m[id])
    ensures !Poisoned(m, id)
  {
    if p :| LeadsToDropped(m, p, id) {
      if m[id].state == Unassigned {
        PoisonedIsBlocked(m, id);
      } else {
        assert p[0] in m && p[1] in m[p[0]].dependsOn;
        assert IsDone(m, p[1]);
        if |p| > 2 {
          var rest := p[1..];
          assert DependencyPath(m, rest) by {
            forall x | x in rest ensures x in m { assert x in p; }
            forall k | 0 <= k < |rest| - 1 && rest[k] in m ensures rest[k + 1] in m[rest[k]].dependsOn {
              assert p[k + 1] in m && p[k + 2] in m[p[k + 1]].dependsOn;
            }
          }
          DonePathStaysDone(m, rest, |rest| - 1);
        }
      }
    }
  }

  /** A round with something to do leaves fewer live tasks, with the same owners. */
  lemma RoundShrinks(t0: Tables, s: Sys, s': Sys, idle: set<AgentId>)
    requires Inv(t0, s) && Quiet(s) && OwnersIdle(View(s.tasks), idle)
    requires RoundDone(View(s.tasks), View(s'.tasks), Plan(s.tasks, idle))
    ensures LiveSet(View(s'.tasks)) <= LiveSet(View(s.tasks))
    ensures LiveSet(View(s.tasks)) != {} ==> LiveSet(View(s'.tasks)) < LiveSet(View(s.tasks))
    ensures OwnersIdle(View(s'.tasks), idle)
  {
    var m, m', plan := View(s.tasks), View(s'.tasks), Plan(s.tasks, idle);
    PlanMarksOk(s.tasks, idle);
    PlannedAreReady(s.tasks, idle);
    if LiveSet(m) != {} {
      var id :| id in LiveSet(m);
      PlanFindsWork(s.tasks, idle, id);
    }
    assert DepsOk(m);
    hide Plan, View, Inv, GraphOk, DepsOk, DepsDone, Poisoned;
    TableShrinks(m, m', plan, idle);
  }

  lemma PlannedAreReady(tasks: seq<Task>, idle: set<AgentId>)
    requires UniqueIds(tasks)
    ensures forall d | d in Plan(tasks, idle).dispatch ::
              d.taskId in View(tasks) && DepsReady(View(tasks), View(tasks)[d.taskId])
  {
    var m, marks := View(tasks), Plan(tasks, idle).markUnassigned;
    var m' := map id | id in m :: if id in marks then m[id].(state := Unassigned) else m[id];
    PlannedAreDispatchable(tasks, idle, m');
  }

  lemma TableShrinks(m: Table, m': Table, plan: SchedulerPlan, idle: set<AgentId>)
    requires DepsOk(m) && MarksOk(m, plan.markUnassigned) && RoundDone(m, m', plan)
    requires forall d | d in plan.dispatch :: d.taskId in m && DepsReady(m, m[d.taskId])
    requires OwnersIdle(m, idle) && (LiveSet(m) != {} ==> plan.dispatch != [])
    ensures LiveSet(m') <= LiveSet(m)
    ensures LiveSet(m) != {} ==> LiveSet(m') < LiveSet(m)
    ensures OwnersIdle(m', idle)
  {
    forall x | x in m ensures SameShape(m[x], m'[x]) && (m'[x].state == Dropped <==> m[x].state == Dropped)
             ensures m'[x].state == Blocked || m'[x].state == Unassigned ==> m[x].state == Blocked || m[x].state == Unassigned
    {
      if x in Targets(plan.dispatch) {
        var k :| 0 <= k < |plan.dispatch| && Targets(plan.dispatch)[k] == x;
        assert plan.dispatch[k] in plan.dispatch;
      }
    }
    forall x | Live(m', x) ensures Live(m, x) { PoisonUnchanged(m, m', x); }
    if LiveSet(m) != {} {
      var d := plan.dispatch[0];
      assert d in plan.dispatch;
      ReadyIsNotPoisoned(m, d.taskId);
      assert Targets(plan.dispatch)[0] == d.taskId;
      assert d.taskId in LiveSet(m) && d.taskId !in LiveSet(m');
    }
  }

  ghost function Rounds(s: Sys, idle: set<AgentId>, n: nat): seq<Step> {
    if n == 0 then []
    else
      var before := Rounds(s, idle, n - 1);
      before + RoundSteps(Run(s, before).tasks, idle)
  }

  /** A quiet state with at most `bound` live tasks, all with idle owners. */
  ghost predicate Bounded(t0: Tables, s: Sys, idle: set<AgentId>, bound: int) {
    && Inv(t0, s) && Quiet(s) && OwnersIdle(View(s.tasks), idle)
    && (|LiveSet(View(s.tasks))| <= bound || |LiveSet(View(s.tasks))| == 0)
  }

  lemma OneRound(t0: Tables, s: Sys, idle: set<AgentId>, bound: int)
    requires Bounded(t0, s, idle, bound)
    ensures Bounded(t0, Run(s, RoundSteps(s.tasks, idle)), idle, bound - 1)
  {
    hide Run, View, RoundSteps, LiveSet, OwnersIdle, Quiet, RoundDone;
    var s' := Run(s, RoundSteps(s.tasks, idle));
    RunKeeps(t0, s, RoundSteps(s.tasks, idle));
    RoundEnds(s, idle);
    RoundShrinks(t0, s, s', idle);
    Smaller(LiveSet(View(s'.tasks)), LiveSet(View(s.tasks)));
  }

  lemma {:induction false} RoundsDrain(t0: Tables, s: Sys, idle: set<AgentId>, n: nat, bound: int)
    requires Bounded(t0, s, idle, bound)
    ensures Bounded(t0, Run(s, Rounds(s, idle, n)), idle, bound - n)
  {
    hide Bounded, RoundSteps, Run, Next;
    RunNothing(s);
    if n > 0 {
      RoundsDrain(t0, s, idle, n - 1, bound);
      var steps := Rounds(s, idle, n - 1);
      RunAppend(s, steps, RoundSteps(Run(s, steps).tasks, idle));
      OneRound(t0, Run(s, steps), idle, bound - (n - 1));
    }
  }

  lemma {:induction false} Smaller<T>(a: set<T>, b: set<T>)
    requires a <= b
    ensures |a| <= |b|
    ensures a < b ==> |a| < |b|
  {
    if a != {} {
      var x :| x in a;
      Smaller(a - {x}, b - {x});
      if a < b {
        var y :| y in b && y !in a;
        assert y in b - {x};
      }
    } else if a < b {
      var y :| y in b;
    }
  }

  lemma LiveFits(tasks: seq<Task>)
    ensures |LiveSet(View(tasks))| <= |tasks|
  {
    Smaller(LiveSet(View(tasks)), IdsOf(tasks));
    IdsFit(tasks);
  }

  lemma {:induction false} IdsFit(tasks: seq<Task>)
    ensures |IdsOf(tasks)| <= |tasks|
  {
    if tasks != [] {
      var n := |tasks| - 1;
      IdsFit(tasks[..n]);
      assert forall t :: t in tasks <==> t in tasks[..n] || t == tasks[n];
      assert IdsOf(tasks) == IdsOf(tasks[..n]) + {tasks[n].id};
    }
  }

  /**
   * From any reachable quiet state whose live tasks have idle owners, as many rounds of planning and
   * finishing as there are tasks leave every task done, dropped, or blocked behind a dropped one.
   */
  lemma TasksDrain(t0: Tables, steps: seq<Step>, idle: set<AgentId>)
    requires Fresh(t0)
    requires var s := Run(Boot(t0), steps); Quiet(s) && OwnersIdle(View(s.tasks), idle)
    ensures var s := Run(Boot(t0), steps);
            var m := View(Run(s, Rounds(s, idle, |s.tasks|)).tasks);
            forall id | id in m ::
              m[id].state == Done || m[id].state == Dropped || (m[id].state == Blocked && Poisoned(m, id))
  {
    Reachable(t0, steps);
    var s := Run(Boot(t0), steps);
    LiveFits(s.tasks);
    RoundsDrain(t0, s, idle, |s.tasks|, |s.tasks|);
    var s' := Run(s, Rounds(s, idle, |s.tasks|));
    var m := View(s'.tasks);
    assert LiveSet(m) == {};
    hide Run, Rounds, View;
    forall id | id in m
      ensures m[id].state == Done || m[id].state == Dropped || (m[id].state == Blocked && Poisoned(m, id))
    {
      assert id !in LiveSet(m);
      if Poisoned(m, id) { PoisonedIsBlocked(m, id); }
    }
  }
}
