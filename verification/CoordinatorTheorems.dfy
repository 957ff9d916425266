/** What the coordinator guarantees in every run, whatever the interleaving. */
module CoordinatorTheorems {
  import opened Common
  import opened FileStore
  import opened FileHistory
  import opened Serializability
  import opened Dag
  import opened DagTheory
  import opened Tasks
  import opened Scheduler
  import opened Coordinator
  import opened CoordinatorSafety

  // -------------------------------------------------------------- dependencies

  /** Before a task is unassigned, assigned, done or dropped, everything it depends on is done. */
  lemma DependenciesBeforeStart(t0: Tables, steps: seq<Step>)
    requires Fresh(t0)
    ensures var m := View(Run(Boot(t0), steps).tasks);
            forall id, d | id in m && m[id].state != Blocked && d in m[id].dependsOn :: d in m && m[d].state == Done
  {
    Reachable(t0, steps);
    hide Run;
    var m := View(Run(Boot(t0), steps).tasks);
    assert DepsOk(m);
    hide View;
    forall id, d | id in m && m[id].state != Blocked && d in m[id].dependsOn ensures IsDone(m, d) {
      assert DepsDone(m, m[id]);
    }
  }

  /** `p` follows dependencies: each task of it depends on the next. */
  ghost predicate DependencyPath(m: Table, p: seq<TaskId>) {
    && p != []
    && (forall id | id in p :: id in m)
    && (forall k | 0 <= k < |p| - 1 && p[k] in m :: p[k + 1] in m[p[k]].dependsOn)
  }

  /** Along a path of dependencies, positions in the order go down. */
  lemma {:induction false} PathDescends(m: Table, order: seq<TaskId>, p: seq<TaskId>, i: nat) returns (j: nat)
    requires Ordered(m, order) && DependencyPath(m, p)
    requires i < |order| && order[i] == p[0]
    ensures j + |p| - 1 <= i && order[j] == p[|p| - 1]
    decreases |p|
  {
    if |p| == 1 { return i; }
    assert p[0] in p && order[i] in m;
    assert p[1] in m[p[0]].dependsOn;
    var k :| 0 <= k < i && order[..i][k] == p[1];
    var rest := p[1..];
    assert DependencyPath(m, rest) by {
      forall id | id in rest ensures id in m { assert id in p; }
      forall n | 0 <= n < |rest| - 1 && rest[n] in m ensures rest[n + 1] in m[rest[n]].dependsOn {
        assert p[n + 1] in m && p[n + 2] in m[p[n + 1]].dependsOn;
      }
    }
    j := PathDescends(m, order, rest, k);
  }

  /**
   * After any run the stored ids are unique, every dependency is stored, and no task depends on
   * itself through others, although each batch is checked for cycles on its own.
   */
  lemma GraphStaysSound(t0: Tables, steps: seq<Step>)
    requires Fresh(t0)
    ensures var s := Run(Boot(t0), steps);
            var m := View(s.tasks);
            && UniqueIds(s.tasks)
            && (forall id, d | id in m && d in m[id].dependsOn :: d in m)
            && (forall p | DependencyPath(m, p) && |p| > 1 :: p[0] != p[|p| - 1])
  {
    Reachable(t0, steps);
    hide Run;
    var m := View(Run(Boot(t0), steps).tasks);
    var order :| Ordered(m, order);
    forall id, d | id in m && d in m[id].dependsOn ensures d in m {
      var k :| 0 <= k < |order| && order[k] == id;
      assert d in order[..k];
    }
    forall p | DependencyPath(m, p) && |p| > 1 ensures p[0] != p[|p| - 1] {
      if p[0] == p[|p| - 1] {
        assert p[0] in p;
        var i :| 0 <= i < |order| && order[i] == p[0];
        var j := PathDescends(m, order, p, i);
      }
    }
  }

  // ------------------------------------------------------------ what never changes

  /** From one state to a later one: no task disappears, only states and strikes move, done and dropped stay. */
  ghost predicate Follows(m: Table, m': Table) {
    forall id | id in m ::
      && id in m' && SameShape(m[id], m'[id])
      && (m[id].state == Done || m[id].state == Dropped ==> m'[id] == m[id])
  }

  lemma UpdateFollows(tasks: seq<Task>, id: TaskId, patch: Patch)
    requires UniqueIds(tasks)
    requires id in View(tasks) ==> View(tasks)[id].state != Done && View(tasks)[id].state != Dropped
    ensures Follows(View(tasks), View(Update(tasks, id, patch)))
  {
    ViewUpdate(tasks, id, patch);
  }

  lemma AppendFollows(tasks: seq<Task>, batch: seq<NewTask>, clock: int)
    requires UniqueIds(tasks) && GoodBatch(Nodes(batch), IdsOf(tasks))
    ensures Follows(View(tasks), View(tasks + StoredAll(batch, clock)))
  {
    BatchView(batch, clock, IdsOf(tasks));
    BatchIsNew(View(tasks), batch, clock) by { assert View(tasks).Keys == IdsOf(tasks); }
    ViewAppend(tasks, StoredAll(batch, clock));
  }

  lemma CreateFollows(s: Sys, step: Step)
    requires UniqueIds(s.tasks) && (step.Submit? || step.CreateTasks?)
    ensures Follows(View(s.tasks), View(Next(s, step).tasks))
  {
    hide View, UniqueIds, GoodBatch;
    if Acceptable(s.tasks, step.batch, step.agents) { AppendFollows(s.tasks, step.batch, step.clock); }
  }

  lemma TickFollows(t0: Tables, s: Sys, step: Step)
    requires Inv(t0, s) && (step.MarkNext? || step.DispatchNext?)
    ensures Follows(View(s.tasks), View(Next(s, step).tasks))
  {
    hide RequestsOk, StrikesOk, GraphOk, DepsOk, ExclusionOk, View, UniqueIds, Follows;
    SameFollows(View(s.tasks));
    if step.MarkNext? && s.tick.Applying? && s.tick.marks != [] {
      assert s.tick.marks[0] in s.tick.marks;
      UpdateFollows(s.tasks, s.tick.marks[0], Patch(Some(Unassigned), None));
    }
    if step.DispatchNext? && s.tick.Applying? && s.tick.marks == [] && s.tick.dispatch != [] {
      var id := s.tick.dispatch[0].taskId;
      ViewExact(s.tasks, id);
      if Has(s.tasks, id) && Get(s.tasks, id).state == Unassigned {
        UpdateFollows(s.tasks, id, Patch(Some(Assigned), None));
        PushFailureRestores(s.tasks, id);
      }
    }
  }

  lemma SameFollows(m: Table)
    ensures Follows(m, m)
  {}

  lemma RequestFollows(t0: Tables, s: Sys, step: Step)
    requires Inv(t0, s) && (step.AdoptNext? || step.RecordStrike? || step.FinishDone?)
    ensures Follows(View(s.tasks), View(Next(s, step).tasks))
  {
    hide StrikesOk, TasksOk, View, UniqueIds, Follows;
    SameFollows(View(s.tasks));
    var a := step.agent;
    if a in s.requests {
      var r := s.requests[a];
      assert RequestOk(View(s.tasks), a, r);
      if step.AdoptNext? && r.Adopting? && r.todo != [] {
        assert r.todo[0] in r.todo;
        UpdateFollows(s.tasks, r.todo[0], Patch(Some(Assigned), None));
      } else if step.RecordStrike? && r.StrikeReady? {
        UpdateFollows(s.tasks, r.taskId, StrikePatch(r.strikes));
      } else if step.FinishDone? && r.DoneReady? {
        UpdateFollows(s.tasks, r.taskId, Patch(Some(Done), None));
      }
    }
  }

  lemma StepFollows(t0: Tables, s: Sys, step: Step)
    requires Inv(t0, s)
    ensures Follows(View(s.tasks), View(Next(s, step).tasks))
  {
    hide TasksOk, RequestsOk, StrikesOk, View, Follows;
    if step.Submit? || step.CreateTasks? {
      CreateFollows(s, step);
    } else if step.MarkNext? || step.DispatchNext? {
      TickFollows(t0, s, step);
    } else if step.AdoptNext? || step.RecordStrike? || step.FinishDone? {
      RequestFollows(t0, s, step);
    } else {
      SameFollows(View(s.tasks));
    }
  }

  lemma FollowsOn(m: Table, m1: Table, m2: Table)
    requires Follows(m, m1) && Follows(m1, m2)
    ensures Follows(m, m2)
  {}

  /** Done and dropped are never left, and a task's owner, dependencies and writes never change. */
  lemma {:induction false} RunFollows(t0: Tables, s: Sys, steps: seq<Step>)
    requires Inv(t0, s)
    ensures Follows(View(s.tasks), View(Run(s, steps).tasks))
  {
    if steps != [] {
      var before := Run(s, steps[..|steps| - 1]);
      hide Inv, Next, View, Follows;
      RunFollows(t0, s, steps[..|steps| - 1]);
      RunKeeps(t0, s, steps[..|steps| - 1]);
      StepFollows(t0, before, steps[|steps| - 1]);
      FollowsOn(View(s.tasks), View(before.tasks), View(Next(before, steps[|steps| - 1]).tasks));
    }
  }

  // ------------------------------------------------------------------ poisoning

  /** The task depends, directly or through others, on a dropped one. */
  ghost predicate Poisoned(m: Table, id: TaskId) {
    exists p :: LeadsToDropped(m, p, id)
  }

  ghost predicate LeadsToDropped(m: Table, p: seq<TaskId>, id: TaskId) {
    DependencyPath(m, p) && |p| > 1 && p[0] == id && p[|p| - 1] in m && m[p[|p| - 1]].state == Dropped
  }

  lemma {:induction false} DonePathStaysDone(m: Table, p: seq<TaskId>, k: nat)
    requires DepsOk(m) && DependencyPath(m, p) && 0 < k < |p|
    requires p[0] in m && m[p[0]].state != Blocked
    ensures IsDone(m, p[k])
  {
    if k > 1 { DonePathStaysDone(m, p, k - 1); }
    assert p[k - 1] in p;
    assert DepsDone(m, m[p[k - 1]]);
    assert p[k] in m[p[k - 1]].dependsOn;
  }

  lemma PoisonedIsBlocked(m: Table, id: TaskId)
    requires DepsOk(m) && Poisoned(m, id)
    ensures id in m && m[id].state == Blocked
  {
    var p :| LeadsToDropped(m, p, id);
    assert p[0] in p;
    if m[id].state != Blocked { DonePathStaysDone(m, p, |p| - 1); }
  }

  lemma PoisonLasts(m: Table, m': Table, id: TaskId)
    requires Follows(m, m') && Poisoned(m, id)
    ensures Poisoned(m', id)
  {
    var p :| LeadsToDropped(m, p, id);
    assert p[|p| - 1] in p;
    assert LeadsToDropped(m', p, id);
  }

  /**
   * Once a task is dropped, everything that depends on it, directly or through others, is blocked
   * then and in every later state of the run.
   */
  lemma DroppedPoisonsDescendants(t0: Tables, steps: seq<Step>, later: seq<Step>, id: TaskId)
    requires Fresh(t0)
    requires Poisoned(View(Run(Boot(t0), steps).tasks), id)
    ensures var m := View(Run(Boot(t0), steps + later).tasks);
            id in m && m[id].state == Blocked
  {
    hide Run;
    var s := Run(Boot(t0), steps);
    Reachable(t0, steps);
    RunAppend(Boot(t0), steps, later);
    RunFollows(t0, s, later);
    PoisonLasts(View(s.tasks), View(Run(s, later).tasks), id);
    Reachable(t0, steps + later);
    PoisonedIsBlocked(View(Run(Boot(t0), steps + later).tasks), id);
  }

  // -------------------------------------------------------------- write exclusion

  ghost predicate BothAssigned(m: Table, a: TaskId, b: TaskId) {
    a in m && b in m && a != b && m[a].state == Assigned && m[b].state == Assigned
  }

  /**
   * Plans are applied late and in pieces, but two tasks assigned at once with overlapping writes
   * always include one that its creator adopted.
   */
  lemma WriteExclusion(t0: Tables, steps: seq<Step>)
    requires Fresh(t0)
    ensures var s := Run(Boot(t0), steps);
            var m := View(s.tasks);
            forall a, b | BothAssigned(m, a, b) && Overlap(m[a].writes, m[b].writes) :: a in s.adopted || b in s.adopted
  {
    Reachable(t0, steps);
    hide Run;
    var s := Run(Boot(t0), steps);
    var m := View(s.tasks);
    assert ExclusionOk(m, s.adopted);
    hide View, Inv;
    forall a, b | BothAssigned(m, a, b) && Overlap(m[a].writes, m[b].writes) ensures a in s.adopted || b in s.adopted {
      assert a !in s.adopted ==> Running(m, a, s.adopted);
      assert b !in s.adopted ==> Running(m, b, s.adopted);
    }
  }

  lemma {:induction false} NoAdoption(s: Sys, steps: seq<Step>)
    requires forall step | step in steps :: !step.AdoptNext?
    ensures Run(s, steps).adopted == s.adopted
  {
    if steps != [] {
      assert steps[|steps| - 1] in steps;
      assert forall step | step in steps[..|steps| - 1] :: step in steps;
      NoAdoption(s, steps[..|steps| - 1]);
    }
  }

  /** In a run without adoptions the assigned tasks always write pairwise different files. */
  lemma WriteExclusionWithoutAdoption(t0: Tables, steps: seq<Step>)
    requires Fresh(t0) && forall step | step in steps :: !step.AdoptNext?
    ensures var m := View(Run(Boot(t0), steps).tasks);
            forall a, b | BothAssigned(m, a, b) :: !Overlap(m[a].writes, m[b].writes)
  {
    NoAdoption(Boot(t0), steps);
    hide Run, View, Overlap;
    WriteExclusion(t0, steps);
  }

  lemma OneTaskIsGood(t: NewTask, existing: set<TaskId>)
    requires t.dependsOn == [] && t.id !in existing
    ensures GoodBatch(Nodes([t]), existing)
  {
    var nodes := Nodes([t]);
    assert nodes == [DagNode(t.id, [])];
    forall p ensures !Cycle(nodes, p) {
      assert Cycle(nodes, p) ==> Edge(nodes, p[0], p[1]);
    }
  }

  lemma CreateOneIs(s: Sys, agent: AgentId, t: NewTask, agents: set<AgentId>, clock: int)
    requires agent !in s.requests && agent in agents
    requires t.owner == Some(agent) && t.dependsOn == [] && t.id !in IdsOf(s.tasks)
    ensures Next(s, CreateTasks(agent, [t], agents, clock))
            == Put(s.(tasks := s.tasks + [Stored(t, clock)]), agent, Adopting([t.id]))
  {
    OneTaskIsGood(t, IdsOf(s.tasks));
    hide GoodBatch, IdsOf;
    var created := StoredAll([t], clock);
    assert created == [Stored(t, clock)];
    assert ToAdopt(created[1..], agent) == [];
    assert ToAdopt(created, agent) == [t.id];
  }

  lemma AdoptOneIs(s: Sys, agent: AgentId, id: TaskId)
    requires agent in s.requests && s.requests[agent] == Adopting([id])
    ensures Next(s, AdoptNext(agent))
            == Put(s, agent, Adopting([])).(tasks := SetState(s.tasks, id, Assigned), adopted := s.adopted + {id})
  {
    assert [id][1..] == [];
  }

  /**
   * The exception in write exclusion is needed in every reachable state: whatever task is running,
   * any other agent with no request outstanding can create one more that writes the same files, and
   * adopting it leaves both assigned.
   */
  lemma AdoptionIgnoresWrites(t0: Tables, steps: seq<Step>, a: TaskId, id: TaskId, agent: AgentId,
                              agents: set<AgentId>, clock: int)
    requires Fresh(t0) && agent in agents && agent !in Run(Boot(t0), steps).requests
    requires var m := View(Run(Boot(t0), steps).tasks);
             a in m && m[a].state == Assigned && m[a].writes != [] && id !in m
    ensures var m := View(Run(Boot(t0), steps).tasks);
            var create := CreateTasks(agent, [NewTask(id, Some(agent), [], m[a].writes)], agents, clock);
            var s' := Run(Boot(t0), steps + [create, AdoptNext(agent)]);
            var m' := View(s'.tasks);
            && BothAssigned(m', a, id) && Overlap(m'[a].writes, m'[id].writes)
            && s'.adopted == Run(Boot(t0), steps).adopted + {id}
  {
    Reachable(t0, steps);
    var s := Run(Boot(t0), steps);
    var m := View(s.tasks);
    var t := NewTask(id, Some(agent), [], m[a].writes);
    var create := CreateTasks(agent, [t], agents, clock);
    RunAppend(Boot(t0), steps, [create, AdoptNext(agent)]);
    assert [create, AdoptNext(agent)][..1][..0] == [];
    assert Run(s, [create, AdoptNext(agent)][..1]) == Next(s, create);
    assert Run(s, [create, AdoptNext(agent)]) == Next(Next(s, create), AdoptNext(agent));
    AdoptedBeside(s, m, a, t, agent, agents, clock);
    assert t.writes[0] in t.writes;
  }

  lemma AdoptedBeside(s: Sys, m: Table, a: TaskId, t: NewTask, agent: AgentId, agents: set<AgentId>, clock: int)
    requires UniqueIds(s.tasks) && m == View(s.tasks) && a in m && t.id !in m
    requires agent !in s.requests && agent in agents && t.owner == Some(agent) && t.dependsOn == []
    ensures var s' := Next(Next(s, CreateTasks(agent, [t], agents, clock)), AdoptNext(agent));
            && View(s'.tasks) == m[t.id := Stored(t, clock).(state := Assigned)]
            && s'.adopted == s.adopted + {t.id}
  {
    var u, taken := Stored(t, clock), Patch(Some(Assigned), None);
    OneTaskView(s.tasks, u);
    hide View, Next, IdsOf, Find, Has, UniqueIds, Update;
    CreateOneIs(s, agent, t, agents, clock);
    AdoptOneIs(Next(s, CreateTasks(agent, [t], agents, clock)), agent, t.id);
    ViewUpdate(s.tasks + [u], t.id, taken);
    hide Stored;
    TwiceSet(m, t.id, u, Patched(u, taken));
  }

  lemma TwiceSet(m: Table, id: TaskId, u: Task, v: Task)
    ensures m[id := u][id := v] == m[id := v]
    ensures m + map[id := u] == m[id := u]
  {}

  lemma OneTaskView(tasks: seq<Task>, u: Task)
    requires UniqueIds(tasks) && u.id !in View(tasks)
    ensures u.id !in IdsOf(tasks)
    ensures UniqueIds(tasks + [u]) && View(tasks + [u]) == View(tasks)[u.id := u]
  {
    assert View(tasks).Keys == IdsOf(tasks);
    SingleView(u);
    assert UniqueIds([u]);
    hide View, IdsOf, UniqueIds;
    TwiceSet(View(tasks), u.id, u, u);
    ViewAppend(tasks, [u]);
  }

  lemma SingleView(u: Task)
    ensures View([u]) == map[u.id := u]
  {
    ViewAt([u], u);
    ViewKeyed([u]);
    hide View;
  }

  // ------------------------------------------------------------ strike accounting

  /**
   * The refused commits on record for a task are its strikes, plus the strikes the store refused to
   * write, plus one exactly while its owner's request has still to write it. There are at most three
   * strikes, and three means dropped.
   */
  lemma StrikeAccounting(t0: Tables, steps: seq<Step>)
    requires Fresh(t0)
    ensures var s := Run(Boot(t0), steps);
            var m := View(s.tasks);
            forall id | id in m ::
              && m[id].id == id
              && Rejections(s.tables.events, id) == m[id].strikes + s.lost[id] + Pending(s.requests, m[id])
              && m[id].strikes + Pending(s.requests, m[id]) <= MAX_STRIKES
              && (m[id].strikes == MAX_STRIKES <==> m[id].state == Dropped)
  {
    Reachable(t0, steps);
    hide Run, Rejections, View;
    var s := Run(Boot(t0), steps);
    var m := View(s.tasks);
    forall id | id in m
      ensures m[id].id == id && StrikesMatch(m[id], s.requests, s.tables.events, s.lost)
      ensures m[id].strikes + Pending(s.requests, m[id]) <= MAX_STRIKES
    {
      assert StrikesMatch(m[id], s.requests, s.tables.events, s.lost);
      assert Pending(s.requests, m[id]) == 1 ==> RequestOk(m, m[id].owner.value, s.requests[m[id].owner.value]);
    }
  }

  /** All refused commits on record. */
  function AllRejections(events: seq<StoredEvent>): nat {
    if events == [] then 0
    else AllRejections(events[..|events| - 1]) + if events[|events| - 1].kind == CommitRejected then 1 else 0
  }

  function Others(events: seq<StoredEvent>, id: TaskId): seq<StoredEvent> {
    if events == [] then []
    else
      var e := events[|events| - 1];
      Others(events[..|events| - 1], id) + if e.kind == CommitRejected && e.taskId == id then [] else [e]
  }

  lemma {:induction false} SplitOff(events: seq<StoredEvent>, id: TaskId)
    ensures AllRejections(events) == Rejections(events, id) + AllRejections(Others(events, id))
  {
    if events != [] {
      var n := |events| - 1;
      var before := Others(events[..n], id);
      SplitOff(events[..n], id);
      assert before + [] == before;
      assert (before + [events[n]])[..|before|] == before;
    }
  }

  lemma {:induction false} OthersKeep(events: seq<StoredEvent>, id: TaskId, x: TaskId)
    requires x != id
    ensures Rejections(Others(events, id), x) == Rejections(events, x)
  {
    if events != [] {
      var n := |events| - 1;
      OthersKeep(events[..n], id, x);
      assert Others(events[..n], id) + [] == Others(events[..n], id);
      OneMoreRejection(Others(events[..n], id), events[n], x);
    }
  }

  lemma {:induction false} OthersFrom(events: seq<StoredEvent>, id: TaskId, e: StoredEvent)
    requires e in Others(events, id)
    ensures e in events && (e.kind == CommitRejected ==> e.taskId != id)
  {
    var n := |events| - 1;
    if e in Others(events[..n], id) { OthersFrom(events[..n], id, e); }
  }

  lemma {:induction false} BoundedTotal(events: seq<StoredEvent>, ids: set<TaskId>, lost: multiset<TaskId>)
    requires forall e | e in events && e.kind == CommitRejected :: e.taskId in ids
    requires forall id | id in ids :: Rejections(events, id) <= MAX_STRIKES + lost[id]
    ensures AllRejections(events) <= MAX_STRIKES * |ids| + |lost|
    decreases ids
  {
    if ids == {} {
      NoRejectionAtAll(events);
    } else {
      var id :| id in ids;
      SplitOff(events, id);
      forall e | e in Others(events, id) ensures e in events && (e.kind == CommitRejected ==> e.taskId != id) {
        OthersFrom(events, id, e);
      }
      forall x | x in ids - {id} ensures Rejections(Others(events, id), x) == Rejections(events, x) {
        OthersKeep(events, id, x);
      }
      BoundedTotal(Others(events, id), ids - {id}, lost[id := 0]);
    }
  }

  lemma {:induction false} NoRejectionAtAll(events: seq<StoredEvent>)
    requires forall e | e in events :: e.kind != CommitRejected
    ensures AllRejections(events) == 0
  {
    if events != [] {
      assert events[|events| - 1] in events;
      assert forall e | e in events[..|events| - 1] :: e in events;
      NoRejectionAtAll(events[..|events| - 1]);
    }
  }

  lemma TallyBounded(m: Table, requests: map<AgentId, Request>, events: seq<StoredEvent>, lost: multiset<TaskId>)
    requires EventsKnown(m, events)
    requires forall id | id in m ::
               && Rejections(events, id) == m[id].strikes + lost[id] + Pending(requests, m[id])
               && m[id].strikes + Pending(requests, m[id]) <= MAX_STRIKES
    ensures AllRejections(events) <= MAX_STRIKES * |m.Keys| + |lost|
  {
    hide Rejections, AllRejections, Pending;
    BoundedTotal(events, m.Keys, lost);
  }

  lemma RejectionsKnown(t0: Tables, s: Sys)
    requires Inv(t0, s)
    ensures EventsKnown(View(s.tasks), s.tables.events)
  {}

  lemma KeysAreIds(tasks: seq<Task>)
    ensures View(tasks).Keys == IdsOf(tasks)
  {}

  /** Over a whole run no more commits are refused than three per stored task and one per unwritten strike. */
  lemma RejectionsAreBounded(t0: Tables, steps: seq<Step>)
    requires Fresh(t0)
    ensures var s := Run(Boot(t0), steps);
            AllRejections(s.tables.events) <= MAX_STRIKES * |IdsOf(s.tasks)| + |s.lost|
  {
    Reachable(t0, steps);
    StrikeAccounting(t0, steps);
    hide Run, Rejections, AllRejections, View, IdsOf, Pending, Inv, EventsKnown;
    var s := Run(Boot(t0), steps);
    KeysAreIds(s.tasks);
    RejectionsKnown(t0, s);
    TallyBounded(View(s.tasks), s.requests, s.tables.events, s.lost);
  }

  /** Strikes go unwritten only when the store refuses a write: without such steps three per task is the bound. */
  lemma {:induction false} NothingLost(s: Sys, steps: seq<Step>)
    requires forall i | 0 <= i < |steps| :: !steps[i].GiveUp?
    ensures Run(s, steps).lost == s.lost
  {
    if steps != [] { NothingLost(s, steps[..|steps| - 1]); }
  }

  // ----------------------------------------------------------------- readiness

  /** What a plan is ready to dispatch is what `unblockedIds` would list. */
  lemma ReadinessAgrees(t0: Tables, steps: seq<Step>, id: TaskId)
    requires Fresh(t0)
    ensures var tasks := Run(Boot(t0), steps).tasks;
            id in Unblocked(tasks)
            <==> exists t | t in Candidates(ByTime(tasks), MarkSet(tasks)) :: t.id == id
  {
    Reachable(t0, steps);
    hide Run;
    var tasks := Run(Boot(t0), steps).tasks;
    var sorted, marked, m := ByTime(tasks), MarkSet(tasks), View(tasks);
    ByTimeExact(tasks, 0);
    MarksExact(sorted, DoneIds(tasks), id);
    if id in Unblocked(tasks) {
      var t :| t in tasks && (t.state.Blocked? || t.state.Unassigned?) && DepsIn(t, DoneIds(tasks)) && t.id == id;
      CandidatesExact(sorted, marked, t);
    }
    if t :| t in Candidates(sorted, marked) && t.id == id {
      CandidatesExact(sorted, marked, t);
      ViewAt(tasks, t);
      if t.state.Unassigned? {
        assert DepsDone(m, m[id]);
        forall d | d in t.dependsOn ensures d in DoneIds(tasks) { DoneIdsExact(tasks, d); }
      } else {
        var u :| u in sorted && u.id == id && u.state.Blocked? && DepsIn(u, DoneIds(tasks));
        ViewAt(tasks, u);
      }
    }
  }

  // ------------------------------------------------------------------ the files

  /** Whatever the coordinator interleaves, its file operations are a run of the store, and so serializable. */
  lemma CoordinatedFilesAreSerializable(t0: Tables, steps: seq<Step>)
    requires Fresh(t0)
    ensures var s := Run(Boot(t0), steps);
            && s.tables == Exec(t0, s.ops)
            && Exec(t0, SerialOps(t0, s.ops)).files == s.tables.files
            && forall i | 0 <= i < |s.ops| && Accepts(At(t0, s.ops, i), s.ops[i]) :: SerialStepMatches(t0, s.ops, i)
  {
    Reachable(t0, steps);
    Serializable(t0, Run(Boot(t0), steps).ops);
  }
}
