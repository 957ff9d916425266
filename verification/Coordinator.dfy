/**
 * The coordinator (task-server/coordinator.ts, occ.ts) as a state machine.
 *
 * Each step is one atomic piece of a handler: the code between two awaits, or one `mutate` block of
 * the store. A tick is many steps - plan, then each mark, then each dispatch - and the steps of other
 * agents' requests fall anywhere in between. An agent has at most one request outstanding.
 */
module Coordinator {
  import opened Common
  import opened FileStore
  import opened FileHistory
  import opened Dag
  import opened DagTheory
  import opened Tasks
  import opened Scheduler

  const MAX_STRIKES: nat := 3

  /** How far an agent's outstanding request has got. */
  datatype Request =
    | CommitReady(taskId: TaskId, strikes: nat, writes: seq<FileWrite>, refs: seq<FileRef>) // checked; commit queued
    | StrikeReady(taskId: TaskId, strikes: nat)                                             // stale; strike not written yet
    | DoneReady(taskId: TaskId)                                                             // checked; update queued
    | Adopting(todo: seq<TaskId>)                                                           // created; adoptions queued
    | Fetching(todo: seq<Path>)

  datatype Tick = NoTick | Applying(marks: seq<TaskId>, dispatch: seq<Decision>)

  /**
   * `ops`, `adopted` and `lost` only record history: the run of the file store, the tasks taken over by
   * their creators, and the strikes that were never written. A process crash is an AbortTick and a
   * GiveUp of every outstanding request.
   */
  datatype Sys =
    Sys(tasks: seq<Task>, tables: Tables, tick: Tick, requests: map<AgentId, Request>,
        ops: seq<Op>, adopted: set<TaskId>, lost: multiset<TaskId>)

  datatype Step =
    | Submit(batch: seq<NewTask>, agents: set<AgentId>, clock: int)
    | CreateTasks(agent: AgentId, batch: seq<NewTask>, agents: set<AgentId>, clock: int)
    | AdoptNext(agent: AgentId)
    | StartTick(idle: set<AgentId>)
    | MarkNext
    | DispatchNext(pushed: bool)
    | EndTick
    | BeginCommit(agent: AgentId, taskId: TaskId, writes: seq<FileWrite>, refs: seq<FileRef>)
    | StoreCommit(agent: AgentId)
    | RecordStrike(agent: AgentId)
    | BeginDone(agent: AgentId, taskId: TaskId)
    | FinishDone(agent: AgentId)
    | BeginFetch(agent: AgentId, paths: seq<Path>)
    | FetchNext(agent: AgentId)
    | GiveUp(agent: AgentId) // the store refuses the request's next write, and the handler throws
    | AbortTick              // the store refuses the tick's next write, and its body throws

  // ------------------------------------------------------------------- handlers

  function Nodes(batch: seq<NewTask>): seq<DagNode> {
    seq(|batch|, i requires 0 <= i < |batch| => DagNode(batch[i].id, batch[i].dependsOn))
  }

  predicate OwnersKnown(batch: seq<NewTask>, agents: set<AgentId>) {
    forall t | t in batch && t.owner.Some? :: t.owner.value in agents
  }

  ghost predicate Acceptable(tasks: seq<Task>, batch: seq<NewTask>, agents: set<AgentId>) {
    GoodBatch(Nodes(batch), IdsOf(tasks)) && OwnersKnown(batch, agents)
  }

  /** Does the creator of this task take it over at once? */
  predicate Adopts(t: Task, agent: AgentId) {
    t.owner == Some(agent) && |t.dependsOn| == 0 && t.state == Unassigned
  }

  function ToAdopt(created: seq<Task>, agent: AgentId): seq<TaskId> {
    if created == [] then []
    else (if Adopts(created[0], agent) then [created[0].id] else []) + ToAdopt(created[1..], agent)
  }

  /** The guards of `onCommit` and `onDone`. */
  predicate MayReport(tasks: seq<Task>, agent: AgentId, taskId: TaskId) {
    Has(tasks, taskId) && Get(tasks, taskId).state == Assigned && Get(tasks, taskId).owner == Some(agent)
  }

  function StrikePatch(strikes: nat): Patch {
    if strikes >= MAX_STRIKES then Patch(Some(Dropped), Some(strikes)) else Patch(None, Some(strikes))
  }

  function Put(s: Sys, agent: AgentId, r: Request): Sys {
    s.(requests := s.requests[agent := r])
  }

  function Finish(s: Sys, agent: AgentId): Sys {
    s.(requests := s.requests - {agent})
  }

  /** One step; a step that is not possible now changes nothing. */
  ghost function Next(s: Sys, step: Step): Sys {
    match step
    case Submit(batch, agents, clock) =>
      if Acceptable(s.tasks, batch, agents) then s.(tasks := s.tasks + StoredAll(batch, clock)) else s
    case CreateTasks(agent, batch, agents, clock) =>
      if agent !in s.requests && Acceptable(s.tasks, batch, agents)
      then Put(s.(tasks := s.tasks + StoredAll(batch, clock)), agent, Adopting(ToAdopt(StoredAll(batch, clock), agent)))
      else s
    case AdoptNext(agent) =>
      if agent in s.requests && s.requests[agent].Adopting? then
        var todo := s.requests[agent].todo;
        if todo == [] then Finish(s, agent)
        else Put(s, agent, Adopting(todo[1..])).(tasks := SetState(s.tasks, todo[0], Assigned),
                                                 adopted := s.adopted + {todo[0]})
      else s
    case StartTick(idle) =>
      if s.tick.NoTick? then
        var plan := Plan(s.tasks, idle);
        s.(tick := Applying(plan.markUnassigned, plan.dispatch))
      else s
    case MarkNext =>
      if s.tick.Applying? && s.tick.marks != [] then
        s.(tasks := SetState(s.tasks, s.tick.marks[0], Unassigned), tick := s.tick.(marks := s.tick.marks[1..]))
      else s
    case DispatchNext(pushed) =>
      if s.tick.Applying? && s.tick.marks == [] && s.tick.dispatch != [] then
        var id := s.tick.dispatch[0].taskId;
        var after := s.(tick := s.tick.(dispatch := s.tick.dispatch[1..]));
        if Has(s.tasks, id) && Get(s.tasks, id).state == Unassigned then
          var taken := SetState(s.tasks, id, Assigned);
          after.(tasks := if pushed then taken else SetState(taken, id, Unassigned))
        else after
      else s
    case EndTick =>
      if s.tick == Applying([], []) then s.(tick := NoTick) else s
    case BeginCommit(agent, taskId, writes, refs) =>
      if agent !in s.requests && MayReport(s.tasks, agent, taskId)
      then Put(s, agent, CommitReady(taskId, Get(s.tasks, taskId).strikes, writes, refs)) else s
    case StoreCommit(agent) =>
      if agent in s.requests && s.requests[agent].CommitReady? then
        var r := s.requests[agent];
        var op := Commit(agent, r.taskId, r.writes, r.refs);
        var after := s.(tables := FileHistory.Step(s.tables, op), ops := s.ops + [op]);
        if Rejects(s.tables, op) then Put(after, agent, StrikeReady(r.taskId, r.strikes + 1)) else Finish(after, agent)
      else s
    case RecordStrike(agent) =>
      if agent in s.requests && s.requests[agent].StrikeReady? then
        var r := s.requests[agent];
        Finish(s.(tasks := Update(s.tasks, r.taskId, StrikePatch(r.strikes))), agent)
      else s
    case BeginDone(agent, taskId) =>
      if agent !in s.requests && MayReport(s.tasks, agent, taskId) then Put(s, agent, DoneReady(taskId)) else s
    case FinishDone(agent) =>
      if agent in s.requests && s.requests[agent].DoneReady?
      then Finish(s.(tasks := SetState(s.tasks, s.requests[agent].taskId, Done)), agent) else s
    case BeginFetch(agent, paths) =>
      if agent !in s.requests then Put(s, agent, Fetching(paths)) else s
    case FetchNext(agent) =>
      if agent in s.requests && s.requests[agent].Fetching? then
        var todo := s.requests[agent].todo;
        if todo == [] then Finish(s, agent)
        else
          var op := Fetch(agent, todo[0]);
          Put(s, agent, Fetching(todo[1..])).(tables := FileHistory.Step(s.tables, op), ops := s.ops + [op])
      else s
    case GiveUp(agent) =>
      if agent in s.requests then
        var r := s.requests[agent];
        Finish(if r.StrikeReady? then s.(lost := s.lost + multiset{r.taskId}) else s, agent)
      else s
    case AbortTick => s.(tick := NoTick)
  }

  ghost function Run(s: Sys, steps: seq<Step>): Sys {
    if steps == [] then s else Next(Run(s, steps[..|steps| - 1]), steps[|steps| - 1])
  }

  function Boot(t: Tables): Sys {
    Sys([], t, NoTick, map[], [], {}, multiset{})
  }

  lemma {:induction false} RunAppend(s: Sys, a: seq<Step>, b: seq<Step>)
    ensures Run(s, a + b) == Run(Run(s, a), b)
  {
    if b == [] {
      assert a + b == a;
    } else {
      hide Next;
      var n := |b| - 1;
      RunAppend(s, a, b[..n]);
      assert (a + b)[..|a + b| - 1] == a + b[..n];
    }
  }

  lemma StrikeIs(s: Sys, a: AgentId)
    ensures Next(s, RecordStrike(a)) ==
              if a in s.requests && s.requests[a].StrikeReady?
              then Finish(s.(tasks := Update(s.tasks, s.requests[a].taskId, StrikePatch(s.requests[a].strikes))), a)
              else s
  {}

  lemma DoneIs(s: Sys, a: AgentId)
    ensures Next(s, FinishDone(a)) ==
              if a in s.requests && s.requests[a].DoneReady?
              then Finish(s.(tasks := Update(s.tasks, s.requests[a].taskId, Patch(Some(Done), None))), a)
              else s
  {}

  // ------------------------------------------------------ the tasks as a table

  type Table = map<TaskId, Task>

  /** The stored tasks by id. */
  function View(tasks: seq<Task>): Table {
    map id | id in IdsOf(tasks) :: (HasIff(tasks, id); Get(tasks, id))
  }

  lemma FindSame(a: seq<Task>, b: seq<Task>, id: TaskId)
    requires |a| == |b| && forall i | 0 <= i < |a| :: a[i].id == b[i].id
    ensures Find(a, id) == Find(b, id)
  {
    var i, j := Find(a, id), Find(b, id);
    assert i < |a| ==> b[i].id == id;
    assert j < |b| ==> a[j].id == id;
  }

  lemma ViewExact(tasks: seq<Task>, id: TaskId)
    ensures id in View(tasks) <==> Has(tasks, id)
    ensures id in View(tasks) ==> View(tasks)[id] == Get(tasks, id)
  {
    HasIff(tasks, id);
  }

  lemma UpdateGet(tasks: seq<Task>, id: TaskId, patch: Patch, x: TaskId)
    requires Has(tasks, id)
    ensures var after := Update(tasks, id, patch);
            && (Has(after, x) <==> Has(tasks, x))
            && (Has(tasks, x) ==> Get(after, x) == if x == id then Patched(Get(tasks, id), patch) else Get(tasks, x))
  {
    FindSame(tasks, Update(tasks, id, patch), x);
  }

  lemma ViewUpdate(tasks: seq<Task>, id: TaskId, patch: Patch)
    requires UniqueIds(tasks)
    ensures UniqueIds(Update(tasks, id, patch))
    ensures id in View(tasks) <==> Has(tasks, id)
    ensures View(Update(tasks, id, patch)) ==
              if id in View(tasks) then View(tasks)[id := Patched(View(tasks)[id], patch)] else View(tasks)
  {
    var after := Update(tasks, id, patch);
    ViewExact(tasks, id);
    if Has(tasks, id) {
      UpdateUnique(tasks, after);
      hide View, Update, Has, Get, Find, UniqueIds, Patched;
      var expected := View(tasks)[id := Patched(View(tasks)[id], patch)];
      forall x
        ensures x in View(after) <==> x in expected
        ensures x in View(after) ==> View(after)[x] == expected[x]
      {
        UpdateGet(tasks, id, patch, x);
        ViewExact(tasks, x);
        ViewExact(after, x);
      }
    }
  }

  lemma UpdateUnique(a: seq<Task>, b: seq<Task>)
    requires UniqueIds(a) && |a| == |b| && forall i | 0 <= i < |a| :: a[i].id == b[i].id
    ensures UniqueIds(b)
  {}

  lemma ViewAt(tasks: seq<Task>, t: Task)
    requires UniqueIds(tasks)
    ensures t in tasks <==> t.id in View(tasks) && View(tasks)[t.id] == t
  {
    HasIff(tasks, t.id);
    if t in tasks {
      var k :| 0 <= k < |tasks| && tasks[k] == t;
      FindUnique(tasks, k);
    } else if t.id in View(tasks) {
      assert Get(tasks, t.id) in tasks;
    }
  }

  lemma ViewKeyed(tasks: seq<Task>)
    ensures forall id | id in View(tasks) :: View(tasks)[id].id == id && View(tasks)[id] in tasks
  {
    forall id | id in View(tasks) ensures View(tasks)[id].id == id && View(tasks)[id] in tasks {
      HasIff(tasks, id);
    }
  }

  lemma ViewAppend(tasks: seq<Task>, more: seq<Task>)
    requires UniqueIds(tasks) && UniqueIds(more)
    requires forall i | 0 <= i < |more| :: more[i].id !in IdsOf(tasks)
    ensures UniqueIds(tasks + more)
    ensures View(tasks + more) == View(tasks) + View(more)
  {
    var all := tasks + more;
    forall i, j | 0 <= i < j < |all| ensures all[i].id != all[j].id {
      if i < |tasks| && j >= |tasks| {
        assert tasks[i] in tasks && more[j - |tasks|].id !in IdsOf(tasks);
      }
    }
    forall t: Task ensures t in all <==> t in tasks || t in more {}
    assert View(all) == View(tasks) + View(more) by {
      forall id ensures id in View(all) <==> id in View(tasks) || id in View(more) {}
      forall id | id in View(all)
        ensures View(all)[id] == if id in View(more) then View(more)[id] else View(tasks)[id]
      {
        ViewKeyed(tasks);
        ViewKeyed(more);
        if id in View(more) { ViewAt(all, View(more)[id]); } else { ViewAt(all, View(tasks)[id]); }
      }
    }
  }
}
