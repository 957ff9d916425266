/**
 * Exactly when assigned tasks write different files: which steps of the coordinator break it, and
 * that both of them are within reach.
 */
module Exclusion {
  import opened Common
  import opened FileStore
  import opened FileHistory
  import opened DagTheory
  import opened Tasks
  import opened Scheduler
  import opened Coordinator
  import opened CoordinatorSafety
  import opened CoordinatorTheorems

  /** All assigned tasks write pairwise different files. */
  ghost predicate Apart(m: Table) {
    forall a, b | BothAssigned(m, a, b) :: !Overlap(m[a].writes, m[b].writes)
  }

  /** Some other assigned task writes a file this one writes. */
  ghost predicate Meets(m: Table, id: TaskId) {
    id in m && exists x :: x in m && x != id && m[x].state == Assigned && Overlap(m[id].writes, m[x].writes)
  }

  ghost predicate AdoptsNow(s: Sys, step: Step, id: TaskId) {
    && step.AdoptNext? && step.agent in s.requests && s.requests[step.agent].Adopting?
    && s.requests[step.agent].todo != [] && id == s.requests[step.agent].todo[0]
  }

  ghost predicate DispatchesNow(s: Sys, step: Step, id: TaskId) {
    && step == DispatchNext(true) && s.tick.Applying? && s.tick.marks == [] && s.tick.dispatch != []
    && id == s.tick.dispatch[0].taskId && Has(s.tasks, id) && Get(s.tasks, id).state == Unassigned
  }

  /** The step adopts or dispatches a task beside a running one that writes a file it writes. */
  ghost predicate Collides(s: Sys, step: Step) {
    exists id :: (AdoptsNow(s, step, id) || DispatchesNow(s, step, id)) && Meets(View(s.tasks), id)
  }

  /** Whatever is assigned now was assigned before, with the same writes. */
  ghost predicate NoneTaken(m: Table, m': Table) {
    forall id | id in m' && m'[id].state == Assigned ::
      id in m && m[id].state == Assigned && m'[id].writes == m[id].writes
  }

  lemma StaysApart(m: Table, m': Table)
    requires Apart(m) && NoneTaken(m, m')
    ensures Apart(m')
  {
    hide Overlap;
    forall a, b | BothAssigned(m', a, b) ensures !Overlap(m'[a].writes, m'[b].writes) {
      assert BothAssigned(m, a, b);
    }
  }

  lemma JoinsApart(m: Table, id: TaskId)
    requires Apart(m) && id in m
    ensures Apart(m[id := m[id].(state := Assigned)]) <==> !Meets(m, id)
  {
    var m' := m[id := m[id].(state := Assigned)];
    if Meets(m, id) {
      var x :| x in m && x != id && m[x].state == Assigned && Overlap(m[id].writes, m[x].writes);
      assert BothAssigned(m', id, x);
    } else {
      forall a, b | BothAssigned(m', a, b) ensures !Overlap(m'[a].writes, m'[b].writes) {
        OverlapSymmetric(m[a].writes, m[b].writes);
        assert a != id && b != id ==> BothAssigned(m, a, b);
      }
    }
  }

  /** The tasks after an adoption or a dispatch that takes effect. */
  lemma TakenTable(t0: Tables, s: Sys, step: Step, id: TaskId)
    requires Inv(t0, s) && (AdoptsNow(s, step, id) || DispatchesNow(s, step, id))
    ensures var m := View(s.tasks);
            id in m && View(Next(s, step).tasks) == m[id := m[id].(state := Assigned)]
  {
    hide TasksOk, StrikesOk, UniqueIds, View, Update, Find;
    if AdoptsNow(s, step, id) {
      assert RequestOk(View(s.tasks), step.agent, s.requests[step.agent]);
      assert id in s.requests[step.agent].todo;
    }
    ViewExact(s.tasks, id);
    ViewUpdate(s.tasks, id, Patch(Some(Assigned), None));
    assert Next(s, step).tasks == Update(s.tasks, id, Patch(Some(Assigned), None));
  }

  lemma SameTakesNone(m: Table)
    ensures NoneTaken(m, m)
  {}

  lemma UpdateTakesNone(tasks: seq<Task>, id: TaskId, patch: Patch)
    requires UniqueIds(tasks) && patch.state != Some(Assigned)
    ensures NoneTaken(View(tasks), View(Update(tasks, id, patch)))
  {
    hide UniqueIds, View, Update;
    ViewUpdate(tasks, id, patch);
  }

  lemma CreateTakesNone(s: Sys, step: Step)
    requires UniqueIds(s.tasks) && (step.Submit? || step.CreateTasks?)
    ensures NoneTaken(View(s.tasks), View(Next(s, step).tasks))
  {
    hide View, UniqueIds, GoodBatch;
    SameTakesNone(View(s.tasks));
    if Acceptable(s.tasks, step.batch, step.agents) { AppendTakesNone(s.tasks, step.batch, step.clock); }
  }

  lemma AppendTakesNone(tasks: seq<Task>, batch: seq<NewTask>, clock: int)
    requires UniqueIds(tasks) && GoodBatch(Nodes(batch), IdsOf(tasks))
    ensures NoneTaken(View(tasks), View(tasks + StoredAll(batch, clock)))
  {
    assert View(tasks).Keys == IdsOf(tasks);
    BatchView(batch, clock, IdsOf(tasks));
    BatchIsNew(View(tasks), batch, clock);
    ViewAppend(tasks, StoredAll(batch, clock));
    hide View, StoredAll, UniqueIds, GoodBatch, OrderedWithin;
  }

  lemma TickTakesNone(s: Sys, step: Step)
    requires UniqueIds(s.tasks) && (step.MarkNext? || step.DispatchNext?)
    requires forall id :: !DispatchesNow(s, step, id)
    ensures NoneTaken(View(s.tasks), View(Next(s, step).tasks))
  {
    hide View, UniqueIds, NoneTaken, Update;
    SameTakesNone(View(s.tasks));
    if step.MarkNext? && s.tick.Applying? && s.tick.marks != [] {
      UpdateTakesNone(s.tasks, s.tick.marks[0], Patch(Some(Unassigned), None));
    }
    if step.DispatchNext? && s.tick.Applying? && s.tick.marks == [] && s.tick.dispatch != [] {
      var id := s.tick.dispatch[0].taskId;
      assert !DispatchesNow(s, step, id);
      if Has(s.tasks, id) && Get(s.tasks, id).state == Unassigned { PushFailureRestores(s.tasks, id); }
    }
  }

  lemma RequestTakesNone(s: Sys, step: Step)
    requires UniqueIds(s.tasks) && (step.AdoptNext? || step.RecordStrike? || step.FinishDone?)
    requires forall id :: !AdoptsNow(s, step, id)
    ensures NoneTaken(View(s.tasks), View(Next(s, step).tasks))
  {
    hide View, UniqueIds, NoneTaken, Update;
    SameTakesNone(View(s.tasks));
    if step.AdoptNext? {
      assert step.agent in s.requests && s.requests[step.agent].Adopting? && s.requests[step.agent].todo != [] ==>
          AdoptsNow(s, step, s.requests[step.agent].todo[0]);
    } else if step.RecordStrike? {
      StrikeIs(s, step.agent);
      if step.agent in s.requests && s.requests[step.agent].StrikeReady? {
        UpdateTakesNone(s.tasks, s.requests[step.agent].taskId, StrikePatch(s.requests[step.agent].strikes));
      }
    } else {
      DoneIs(s, step.agent);
      if step.agent in s.requests && s.requests[step.agent].DoneReady? {
        UpdateTakesNone(s.tasks, s.requests[step.agent].taskId, Patch(Some(Done), None));
      }
    }
  }

  /** A step that neither adopts nor dispatches makes no task assigned. */
  lemma NothingTaken(s: Sys, step: Step)
    requires UniqueIds(s.tasks)
    requires forall id :: !AdoptsNow(s, step, id) && !DispatchesNow(s, step, id)
    ensures NoneTaken(View(s.tasks), View(Next(s, step).tasks))
  {
    hide View, UniqueIds, NoneTaken, AdoptsNow, DispatchesNow;
    SameTakesNone(View(s.tasks));
    if step.Submit? || step.CreateTasks? {
      CreateTakesNone(s, step);
    } else if step.MarkNext? || step.DispatchNext? {
      TickTakesNone(s, step);
    } else if step.AdoptNext? || step.RecordStrike? || step.FinishDone? {
      RequestTakesNone(s, step);
    }
  }

  /**
   * The exact condition: from a state whose assigned tasks write pairwise different files, a step
   * leads to such a state if and only if it does not adopt or dispatch a task beside a running one
   * that writes one of its files.
   */
  lemma StepKeepsApartIff(t0: Tables, s: Sys, step: Step)
    requires Inv(t0, s) && Apart(View(s.tasks))
    ensures Apart(View(Next(s, step).tasks)) <==> !Collides(s, step)
  {
    hide TasksOk, RequestsOk, StrikesOk, View, Next, Apart, Meets, AdoptsNow, DispatchesNow, UniqueIds, NoneTaken;
    if id :| AdoptsNow(s, step, id) || DispatchesNow(s, step, id) {
      TakenTable(t0, s, step, id);
      JoinsApart(View(s.tasks), id);
      OneTaken(s, step);
    } else {
      NothingTaken(s, step);
      StaysApart(View(s.tasks), View(Next(s, step).tasks));
    }
  }

  lemma OneTaken(s: Sys, step: Step)
    ensures forall a, b ::
              (AdoptsNow(s, step, a) || DispatchesNow(s, step, a)) && (AdoptsNow(s, step, b) || DispatchesNow(s, step, b))
              ==> a == b
  {}

  /** Assigned tasks write pairwise different files after every prefix of the run. */
  ghost predicate ApartThroughout(t0: Tables, steps: seq<Step>) {
    && Apart(View(Run(Boot(t0), steps).tasks))
    && (steps != [] ==> ApartThroughout(t0, steps[..|steps| - 1]))
  }

  ghost predicate NeverCollides(t0: Tables, steps: seq<Step>) {
    steps != [] ==>
      var before := steps[..|steps| - 1];
      NeverCollides(t0, before) && !Collides(Run(Boot(t0), before), steps[|steps| - 1])
  }

  /** At every moment of a run assigned tasks write different files, if and only if no step of it collides. */
  lemma {:induction false} RunKeepsApartIff(t0: Tables, steps: seq<Step>)
    requires Fresh(t0)
    ensures ApartThroughout(t0, steps) <==> NeverCollides(t0, steps)
  {
    if steps == [] {
      assert View(Run(Boot(t0), []).tasks) == map[];
    } else {
      hide Next, View, Apart, Collides, Fresh, Inv;
      var before, last := steps[..|steps| - 1], steps[|steps| - 1];
      RunKeepsApartIff(t0, before);
      Reachable(t0, before);
      var s := Run(Boot(t0), before);
      assert Run(Boot(t0), steps) == Next(s, last);
      assert ApartThroughout(t0, before) ==> Apart(View(s.tasks));
      hide Run;
      if Apart(View(s.tasks)) { StepKeepsApartIff(t0, s, last); }
    }
  }

  /** A colliding dispatch meets a task its creator adopted, or is itself of one. */
  lemma CollidingDispatchMeetsAdopted(t0: Tables, s: Sys, id: TaskId)
    requires Inv(t0, s) && DispatchesNow(s, DispatchNext(true), id) && Meets(View(s.tasks), id)
    ensures var m := View(s.tasks);
            exists x :: x in m && x != id && m[x].state == Assigned && x in s.adopted && Overlap(m[id].writes, m[x].writes)
  {
    var m := View(s.tasks);
    hide View, UniqueIds, GraphOk, DepsOk, ExclusionOk, MarksOk, StrikesOk, RequestsOk, Overlap;
    var x :| x in m && x != id && m[x].state == Assigned && Overlap(m[id].writes, m[x].writes);
    assert s.tick.dispatch[0] in s.tick.dispatch;
    assert DispatchOk(m, s.tick.dispatch, s.adopted);
    assert x !in s.adopted ==> Running(m, x, s.adopted);
  }

  lemma AdoptionLeavesTick(s: Sys, agent: AgentId, t: NewTask, agents: set<AgentId>, clock: int)
    ensures Next(Next(s, CreateTasks(agent, [t], agents, clock)), AdoptNext(agent)).tick == s.tick
  {
    hide GoodBatch, IdsOf, UniqueIds;
  }

  lemma StillDispatches(s: Sys, s': Sys, head: TaskId)
    requires DispatchesNow(s, DispatchNext(true), head) && s'.tick == s.tick
    requires head in View(s.tasks) && head in View(s'.tasks) && View(s'.tasks)[head] == View(s.tasks)[head]
    ensures DispatchesNow(s', DispatchNext(true), head)
  {
    ViewExact(s.tasks, head);
    ViewExact(s'.tasks, head);
  }

  lemma NewcomerApart(m: Table, head: TaskId, u: Task)
    requires Apart(m) && head in m && m[head].state != Assigned && !Meets(m, head)
    requires u.id !in m && u.writes == m[head].writes && u.writes != [] && u.state == Assigned
    ensures Apart(m[u.id := u]) && Meets(m[u.id := u], head)
  {
    var m' := m[u.id := u];
    forall a, b | BothAssigned(m', a, b) ensures !Overlap(m'[a].writes, m'[b].writes) {
      OverlapSymmetric(m'[a].writes, m'[b].writes);
      assert a != u.id && b != u.id ==> BothAssigned(m, a, b);
    }
    assert u.writes[0] in u.writes;
    assert Overlap(m'[head].writes, m'[u.id].writes);
  }

  /**
   * Both routes are within reach. Whatever dispatch a tick still has to apply, any agent without an
   * outstanding request can first create and adopt a task that writes the same files: nothing
   * overlaps then, and it is the late dispatch that puts a task beside a running one.
   */
  lemma StaleDispatchCollides(t0: Tables, s: Sys, head: TaskId, id: TaskId, agent: AgentId, agents: set<AgentId>, clock: int)
    requires Inv(t0, s) && Apart(View(s.tasks))
    requires DispatchesNow(s, DispatchNext(true), head)
    requires var m := View(s.tasks);
             id !in m && head in m && m[head].writes != [] && !Meets(m, head)
    requires agent in agents && agent !in s.requests
    ensures var t := NewTask(id, Some(agent), [], View(s.tasks)[head].writes);
            var adopted := Next(Next(s, CreateTasks(agent, [t], agents, clock)), AdoptNext(agent));
            var after := View(Next(adopted, DispatchNext(true)).tasks);
            && Apart(View(adopted.tasks))
            && Collides(adopted, DispatchNext(true))
            && BothAssigned(after, head, id) && Overlap(after[head].writes, after[id].writes)
  {
    var m := View(s.tasks);
    var t := NewTask(id, Some(agent), [], m[head].writes);
    var adopted := Next(Next(s, CreateTasks(agent, [t], agents, clock)), AdoptNext(agent));
    var u := Stored(t, clock).(state := Assigned);
    AdoptedBeside(s, m, head, t, agent, agents, clock);
    AdoptionLeavesTick(s, agent, t, agents, clock);
    HeadUnassigned(s, head);
    hide TasksOk, RequestsOk, StrikesOk, UniqueIds, View, Apart, Meets, DispatchesNow;
    NextKeeps(t0, s, CreateTasks(agent, [t], agents, clock));
    NextKeeps(t0, Next(s, CreateTasks(agent, [t], agents, clock)), AdoptNext(agent));
    hide Next, Inv;
    NewcomerApart(m, head, u);
    StillDispatches(s, adopted, head);
    TakenTable(t0, adopted, DispatchNext(true), head);
    BothTaken(m, head, u);
    hide Stored, Run;
  }

  lemma BothTaken(m: Table, head: TaskId, u: Task)
    requires head in m && u.id !in m && u.writes == m[head].writes && u.writes != [] && u.state == Assigned
    ensures var after := m[u.id := u][head := m[head].(state := Assigned)];
            BothAssigned(after, head, u.id) && Overlap(after[head].writes, after[u.id].writes)
  {
    assert u.writes[0] in u.writes;
  }

  lemma HeadUnassigned(s: Sys, head: TaskId)
    requires DispatchesNow(s, DispatchNext(true), head)
    ensures head in View(s.tasks) && View(s.tasks)[head].state == Unassigned
  {
    ViewExact(s.tasks, head);
  }

  // -------------------------------------------------------- and both are reached

  lemma ReadyOne(u: Task)
    requires u.state == Unassigned
    ensures ByTime([u]) == [u] && Marks([u], DoneIds([u])) == [] && InFlight([u]) == []
    ensures Candidates([u], {}) == [u]
  {
    assert [u][..0] == [] && [u][1..] == [];
    assert ByTime([]) == [];
    assert Marks([], DoneIds([u])) == [] && InFlight([]) == [] && Candidates([], {}) == [];
  }

  lemma PicksOne(u: Task, owner: AgentId)
    requires u.owner == Some(owner)
    ensures Greedy([u], {owner}, []) == [u] && Decisions([u]) == [Decision(u.id, owner)]
  {
    assert [u][..0] == [];
    assert Greedy([], {owner}, []) == [] && Decisions([]) == [];
    assert Fits(u, [], {owner}, []);
    hide Fits;
  }

  /** The plan for one task that can start and whose owner is idle. */
  lemma PlanOfOne(u: Task, owner: AgentId)
    requires u.state == Unassigned && u.owner == Some(owner)
    ensures Plan([u], {owner}) == SchedulerPlan([], [Decision(u.id, owner)])
  {
    hide ByTime, Marks, Candidates, InFlight, Greedy, Decisions, DoneIds;
    ReadyOne(u);
    PicksOne(u, owner);
    assert MarkSet([u]) == {};
  }

  /** The coordinator has planned its only task and not dispatched it yet. */
  function Planned(t0: Tables, u: Task, owner: AgentId): Sys {
    Boot(t0).(tasks := [u], tick := Applying([], [Decision(u.id, owner)]))
  }

  lemma SubmitOneIs(s: Sys, t: NewTask, owner: AgentId, agents: set<AgentId>, clock: int)
    requires t.owner == Some(owner) && t.dependsOn == [] && owner in agents && t.id !in IdsOf(s.tasks)
    ensures Next(s, Submit([t], agents, clock)) == s.(tasks := s.tasks + [Stored(t, clock)])
  {
    OneTaskIsGood(t, IdsOf(s.tasks));
    hide GoodBatch, IdsOf;
    assert StoredAll([t], clock) == [Stored(t, clock)];
  }

  lemma PlannedIsReached(t0: Tables, t: NewTask, owner: AgentId, agents: set<AgentId>, clock: int)
    requires t.owner == Some(owner) && t.dependsOn == [] && owner in agents
    ensures Run(Boot(t0), [Submit([t], agents, clock), StartTick({owner})]) == Planned(t0, Stored(t, clock), owner)
  {
    var submit, start := Submit([t], agents, clock), StartTick({owner});
    var s1 := Boot(t0).(tasks := [Stored(t, clock)]);
    SubmitOneIs(Boot(t0), t, owner, agents, clock);
    assert Boot(t0).tasks + [Stored(t, clock)] == [Stored(t, clock)];
    StartOneIs(s1, Stored(t, clock), owner);
    hide Next;
    RunMore(Boot(t0), [], submit);
    RunMore(Boot(t0), [submit], start);
    assert Run(Boot(t0), []) == Boot(t0);
    assert [] + [submit] == [submit] && [submit] + [start] == [submit, start];
    hide Run;
  }

  lemma StartOneIs(s: Sys, u: Task, owner: AgentId)
    requires s.tick.NoTick? && s.tasks == [u] && u.state == Unassigned && u.owner == Some(owner)
    ensures Next(s, StartTick({owner})) == s.(tick := Applying([], [Decision(u.id, owner)]))
  {
    PlanOfOne(u, owner);
    hide Plan;
  }

  lemma PlannedIsClear(t0: Tables, u: Task, owner: AgentId)
    requires u.state == Unassigned
    ensures var s := Planned(t0, u, owner);
            && View(s.tasks) == map[u.id := u] && Apart(View(s.tasks)) && !Meets(View(s.tasks), u.id)
            && DispatchesNow(s, DispatchNext(true), u.id)
  {
    SingleView(u);
    ViewExact([u], u.id);
    hide View;
  }

  /**
   * From any store: a task is submitted and planned, any agent then creates and adopts one with the
   * same writes, and nothing overlaps; the planned dispatch puts its task beside the running one.
   */
  lemma CollisionIsReached(t0: Tables, t: NewTask, owner: AgentId, id: TaskId, agent: AgentId, agents: set<AgentId>, clock: int)
    requires Fresh(t0) && t.owner == Some(owner) && t.dependsOn == [] && t.writes != []
    requires owner in agents && agent in agents && id != t.id
    ensures var create := CreateTasks(agent, [NewTask(id, Some(agent), [], t.writes)], agents, clock);
            var steps := [Submit([t], agents, clock), StartTick({owner})] + [create] + [AdoptNext(agent)];
            var adopted := Run(Boot(t0), steps);
            var after := View(Run(Boot(t0), steps + [DispatchNext(true)]).tasks);
            && Apart(View(adopted.tasks)) && Collides(adopted, DispatchNext(true))
            && BothAssigned(after, t.id, id) && Overlap(after[t.id].writes, after[id].writes)
  {
    var create := CreateTasks(agent, [NewTask(id, Some(agent), [], t.writes)], agents, clock);
    var first := [Submit([t], agents, clock), StartTick({owner})];
    var s := Planned(t0, Stored(t, clock), owner);
    PlannedIsReached(t0, t, owner, agents, clock);
    Reachable(t0, first);
    PlannedIsClear(t0, Stored(t, clock), owner);
    hide Next, Run, View, Apart, Collides, Inv, Overlap, DispatchesNow, Meets;
    RunMore(Boot(t0), first, create);
    RunMore(Boot(t0), first + [create], AdoptNext(agent));
    RunMore(Boot(t0), first + [create] + [AdoptNext(agent)], DispatchNext(true));
    StaleDispatchCollides(t0, s, t.id, id, agent, agents, clock);
  }

  lemma RunMore(s: Sys, steps: seq<Step>, step: Step)
    ensures Run(s, steps + [step]) == Next(Run(s, steps), step)
  {
    assert (steps + [step])[..|steps|] == steps;
  }
}
