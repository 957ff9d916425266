/** What every step of the coordinator keeps, and what follows for every run. */
module CoordinatorSafety {
  import opened Common
  import opened FileStore
  import opened FileHistory
  import opened Dag
  import opened DagTheory
  import opened Tasks
  import opened Scheduler
  import opened Coordinator

  // ------------------------------------------------------------------ invariants

  /** All stored ids in an order in which every task comes after everything it depends on. */
  ghost predicate Ordered(m: Table, order: seq<TaskId>) {
    && Distinct(order)
    && (forall id :: id in order <==> id in m)
    && (forall k, d | 0 <= k < |order| && order[k] in m && d in m[order[k]].dependsOn :: d in order[..k])
  }

  /** Every dependency is stored, and the stored graph has no cycle. */
  ghost predicate GraphOk(m: Table) {
    && (forall id | id in m :: m[id].id == id)
    && exists order :: Ordered(m, order)
  }

  ghost predicate IsDone(m: Table, id: TaskId) {
    id in m && m[id].state == Done
  }

  ghost predicate DepsDone(m: Table, t: Task) {
    forall d | d in t.dependsOn :: IsDone(m, d)
  }

  /** Whatever is past `blocked` has all its dependencies done. */
  ghost predicate DepsOk(m: Table) {
    forall id | id in m && m[id].state != Blocked :: DepsDone(m, m[id])
  }

  ghost predicate Running(m: Table, id: TaskId, adopted: set<TaskId>) {
    id in m && m[id].state == Assigned && id !in adopted
  }

  /** Two running tasks write different files, unless one was adopted by its creator. */
  ghost predicate ExclusionOk(m: Table, adopted: set<TaskId>) {
    forall a, b | Running(m, a, adopted) && Running(m, b, adopted) && a != b :: !Overlap(m[a].writes, m[b].writes)
  }

  /** The marks still to be applied name blocked tasks with all dependencies done. */
  ghost predicate MarksOk(m: Table, marks: seq<TaskId>) {
    && Distinct(marks)
    && forall id | id in marks :: id in m && m[id].state == Blocked && DepsDone(m, m[id])
  }

  /** The dispatches still to be applied stay out of each other's way and of every running task's. */
  ghost predicate DispatchOk(m: Table, dispatch: seq<Decision>, adopted: set<TaskId>) {
    && (forall d | d in dispatch :: d.taskId in m)
    && (forall i, j | 0 <= i < j < |dispatch| ::
          dispatch[i].taskId != dispatch[j].taskId
          && !Overlap(m[dispatch[i].taskId].writes, m[dispatch[j].taskId].writes))
    && (forall d, id | d in dispatch && Running(m, id, adopted) && id != d.taskId ::
          !Overlap(m[d.taskId].writes, m[id].writes))
  }

  ghost predicate TickOk(m: Table, tick: Tick, adopted: set<TaskId>) {
    tick.Applying? ==> MarksOk(m, tick.marks) && DispatchOk(m, tick.dispatch, adopted)
  }

  ghost predicate Owns(m: Table, agent: AgentId, id: TaskId) {
    id in m && m[id].owner == Some(agent)
  }

  /** What an outstanding request still knows about its task. */
  ghost predicate RequestOk(m: Table, agent: AgentId, r: Request) {
    match r
    case CommitReady(id, strikes, _, _) => Owns(m, agent, id) && m[id].state == Assigned && m[id].strikes == strikes
    case StrikeReady(id, strikes) => Owns(m, agent, id) && m[id].state == Assigned && m[id].strikes + 1 == strikes
    case DoneReady(id) => Owns(m, agent, id) && m[id].state == Assigned
    case Adopting(todo) =>
      forall id | id in todo ::
        Owns(m, agent, id) && m[id].dependsOn == [] && (m[id].state == Unassigned || m[id].state == Assigned)
    case Fetching(_) => true
  }

  ghost predicate RequestsOk(m: Table, requests: map<AgentId, Request>) {
    forall a | a in requests :: RequestOk(m, a, requests[a])
  }

  /** The refused commits on record for a task. */
  function Rejections(events: seq<StoredEvent>, id: TaskId): nat {
    if events == [] then 0
    else
      var e := events[|events| - 1];
      Rejections(events[..|events| - 1], id) + if e.kind == CommitRejected && e.taskId == id then 1 else 0
  }

  /** A refusal whose strike its owner's request has yet to write. */
  function Pending(requests: map<AgentId, Request>, t: Task): nat {
    if t.owner.Some? && t.owner.value in requests
       && requests[t.owner.value].StrikeReady? && requests[t.owner.value].taskId == t.id
    then 1 else 0
  }

  ghost predicate StrikesMatch(t: Task, requests: map<AgentId, Request>, events: seq<StoredEvent>, lost: multiset<TaskId>) {
    && Rejections(events, t.id) == t.strikes + Pending(requests, t) + lost[t.id]
    && t.strikes <= MAX_STRIKES
    && (t.strikes == MAX_STRIKES <==> t.state == Dropped)
  }

  ghost predicate EventsKnown(m: Table, events: seq<StoredEvent>) {
    forall e | e in events && e.kind == CommitRejected :: e.taskId in m
  }

  ghost predicate StrikesOk(m: Table, requests: map<AgentId, Request>, events: seq<StoredEvent>, lost: multiset<TaskId>) {
    && EventsKnown(m, events)
    && (forall id | id in lost :: id in m)
    && forall id | id in m :: StrikesMatch(m[id], requests, events, lost)
  }

  ghost predicate TasksOk(m: Table, tick: Tick, adopted: set<TaskId>) {
    GraphOk(m) && DepsOk(m) && ExclusionOk(m, adopted) && TickOk(m, tick, adopted)
  }

  ghost predicate Inv(t0: Tables, s: Sys) {
    var m := View(s.tasks);
    && UniqueIds(s.tasks)
    && TasksOk(m, s.tick, s.adopted)
    && RequestsOk(m, s.requests)
    && StrikesOk(m, s.requests, s.tables.events, s.lost)
    && s.tables == Exec(t0, s.ops)
  }

  // ----------------------------------------------------- changing one task's state

  /** Only the state and the strikes may differ. */
  predicate SameShape(a: Task, b: Task) {
    b == a.(state := b.state, strikes := b.strikes)
  }

  lemma GraphKept(m: Table, id: TaskId, t: Task)
    requires GraphOk(m) && id in m && SameShape(m[id], t)
    ensures GraphOk(m[id := t])
  {
    var order :| Ordered(m, order);
    assert Ordered(m[id := t], order);
  }

  lemma DepsDoneKept(m: Table, id: TaskId, t: Task, u: Task)
    requires id in m && (m[id].state == Done ==> t.state == Done)
    requires DepsDone(m, u)
    ensures DepsDone(m[id := t], u)
  {}

  lemma DepsKept(m: Table, id: TaskId, t: Task)
    requires DepsOk(m) && id in m && SameShape(m[id], t)
    requires m[id].state == Done ==> t.state == Done
    requires t.state != Blocked ==> DepsDone(m, m[id])
    ensures DepsOk(m[id := t])
  {
    var after := m[id := t];
    forall x | x in after && after[x].state != Blocked ensures DepsDone(after, after[x]) {
      DepsDoneKept(m, id, t, m[x]);
      assert after[x].dependsOn == m[x].dependsOn;
    }
  }

  /** A task that starts running keeps clear of the writes of the others. */
  ghost predicate ClearOf(m: Table, id: TaskId, adopted: set<TaskId>) {
    id in m && forall x | Running(m, x, adopted) && x != id :: !Overlap(m[id].writes, m[x].writes)
  }

  lemma ExclusionKept(m: Table, id: TaskId, t: Task, adopted: set<TaskId>, adopted': set<TaskId>)
    requires ExclusionOk(m, adopted) && id in m && SameShape(m[id], t) && adopted <= adopted'
    requires t.state == Assigned && id !in adopted' ==> Running(m, id, adopted) || ClearOf(m, id, adopted)
    ensures ExclusionOk(m[id := t], adopted')
  {
    var after := m[id := t];
    forall a, b | Running(after, a, adopted') && Running(after, b, adopted') && a != b
      ensures !Overlap(after[a].writes, after[b].writes)
    {
      if a != id { assert Running(m, a, adopted); }
      if b != id { assert Running(m, b, adopted); }
      OverlapSymmetric(m[a].writes, m[b].writes);
    }
  }

  lemma MarksKept(m: Table, marks: seq<TaskId>, id: TaskId, t: Task)
    requires MarksOk(m, marks) && id in m && SameShape(m[id], t) && id !in marks
    requires m[id].state == Done ==> t.state == Done
    ensures MarksOk(m[id := t], marks)
  {
    forall x | x in marks ensures x in m && DepsDone(m[id := t], m[x]) { DepsDoneKept(m, id, t, m[x]); }
  }

  lemma DispatchKept(m: Table, dispatch: seq<Decision>, adopted: set<TaskId>, id: TaskId, t: Task, adopted': set<TaskId>)
    requires DispatchOk(m, dispatch, adopted) && id in m && SameShape(m[id], t) && adopted <= adopted'
    requires t.state == Assigned && id !in adopted' ==>
               Running(m, id, adopted)
               || forall d | d in dispatch && d.taskId in m && d.taskId != id :: !Overlap(m[d.taskId].writes, m[id].writes)
    ensures DispatchOk(m[id := t], dispatch, adopted')
  {
    var after := m[id := t];
    forall d, x | d in dispatch && Running(after, x, adopted') && x != d.taskId
      ensures !Overlap(after[d.taskId].writes, after[x].writes)
    {
      if x != id { assert Running(m, x, adopted); }
    }
  }

  /** A state change to a task that stops running, or was not and does not start to. */
  lemma QuietChange(m: Table, tick: Tick, adopted: set<TaskId>, id: TaskId, t: Task)
    requires TasksOk(m, tick, adopted) && id in m && SameShape(m[id], t)
    requires tick.Applying? ==> id !in tick.marks
    requires m[id].state != Done && (t.state != Blocked ==> DepsDone(m, m[id]))
    requires t.state == Assigned ==> m[id].state == Assigned
    ensures TasksOk(m[id := t], tick, adopted)
  {
    hide Ordered, GraphOk, DepsOk, ExclusionOk, MarksOk, DispatchOk, DepsDone;
    GraphKept(m, id, t);
    DepsKept(m, id, t);
    ExclusionKept(m, id, t, adopted, adopted);
    if tick.Applying? {
      MarksKept(m, tick.marks, id, t);
      DispatchKept(m, tick.dispatch, adopted, id, t, adopted);
    }
  }

  // ------------------------------------------------------------- requests, framed

  /** A change of one task that another agent's request cannot notice. */
  lemma RequestKept(m: Table, id: TaskId, t: Task, agent: AgentId, r: Request)
    requires RequestOk(m, agent, r) && id in m && SameShape(m[id], t)
    requires || m[id].owner != Some(agent)
             || m[id].state == Blocked
             || (m[id].state == Unassigned && t.state == Assigned)
    ensures RequestOk(m[id := t], agent, r)
  {}

  lemma {:induction false} NoRejections(events: seq<StoredEvent>, id: TaskId)
    requires forall e | e in events && e.kind == CommitRejected :: e.taskId != id
    ensures Rejections(events, id) == 0
  {
    if events != [] {
      assert events[|events| - 1] in events;
      assert forall e | e in events[..|events| - 1] :: e in events;
      NoRejections(events[..|events| - 1], id);
    }
  }

  lemma StrikesKept(m: Table, requests: map<AgentId, Request>, requests': map<AgentId, Request>,
                    events: seq<StoredEvent>, lost: multiset<TaskId>, id: TaskId, t: Task)
    requires StrikesOk(m, requests, events, lost) && id in m && SameShape(m[id], t)
    requires StrikesMatch(t, requests', events, lost)
    requires forall x | x in m && x != id :: Pending(requests', m[x]) == Pending(requests, m[x])
    ensures StrikesOk(m[id := t], requests', events, lost)
  {
    hide Rejections, Pending;
  }

  // -------------------------------------------------------------------- the plan

  lemma DoneIdsExact(tasks: seq<Task>, id: TaskId)
    requires UniqueIds(tasks)
    ensures id in DoneIds(tasks) <==> IsDone(View(tasks), id)
  {
    ViewKeyed(tasks);
    if id in DoneIds(tasks) {
      var t :| t in tasks && t.state == Done && t.id == id;
      ViewAt(tasks, t);
    }
  }

  lemma PickedFacts(tasks: seq<Task>, idle: set<AgentId>, t: Task)
    requires UniqueIds(tasks) && t in Picked(tasks, idle)
    ensures t in tasks && t.owner.Some? && t.owner.value in idle
    ensures t.state == Unassigned || (t.state == Blocked && DepsIn(t, DoneIds(tasks)))
    ensures forall u | u in tasks && u.state == Assigned :: !Overlap(t.writes, u.writes)
  {
    var sorted := ByTime(tasks);
    var candidates := Candidates(sorted, MarkSet(tasks));
    GreedyCompatible(candidates, idle, InFlight(tasks));
    ByTimeExact(tasks, 0);
    ByTimeUnique(tasks);
    CandidatesExact(sorted, MarkSet(tasks), t);
    assert t in Greedy(candidates, idle, InFlight(tasks));
    hide ByTime, CreatedAt, InTimeOrder, Candidates, Greedy, Picked, Marks, InFlight, DepsIn, DoneIds, Overlap, Subsequence;
    if t.id in MarkSet(tasks) {
      MarksExact(sorted, DoneIds(tasks), t.id);
      var u :| u in sorted && u.id == t.id && u.state.Blocked? && DepsIn(u, DoneIds(tasks));
      ViewAt(tasks, u);
      ViewAt(tasks, t);
    }
    forall u | u in tasks && u.state == Assigned ensures !Overlap(t.writes, u.writes) {
      InFlightExact(tasks, u.writes);
    }
  }

  lemma PlanMarksOk(tasks: seq<Task>, idle: set<AgentId>)
    requires UniqueIds(tasks)
    ensures MarksOk(View(tasks), Plan(tasks, idle).markUnassigned)
  {
    var sorted, m := ByTime(tasks), View(tasks);
    var marks := Marks(sorted, DoneIds(tasks));
    ByTimeUnique(tasks);
    ByTimeExact(tasks, 0);
    MarksDistinct(sorted, DoneIds(tasks));
    forall id | id in marks ensures id in m && m[id].state == Blocked && DepsDone(m, m[id]) {
      MarksExact(sorted, DoneIds(tasks), id);
      var t :| t in sorted && t.id == id && t.state.Blocked? && DepsIn(t, DoneIds(tasks));
      ViewAt(tasks, t);
      forall d | d in t.dependsOn ensures IsDone(m, d) { DoneIdsExact(tasks, d); }
    }
  }

  lemma PlanDispatchOk(tasks: seq<Task>, idle: set<AgentId>, adopted: set<TaskId>)
    requires UniqueIds(tasks)
    ensures DispatchOk(View(tasks), Plan(tasks, idle).dispatch, adopted)
  {
    var picked, m := Picked(tasks, idle), View(tasks);
    hide Picked, View, Decisions, UniqueIds, DoneIds;
    forall t | t in picked ensures t.owner.Some? { PickedFacts(tasks, idle, t); }
    DecisionsExact(picked);
    var dispatch := Decisions(picked);
    forall k | 0 <= k < |picked|
      ensures dispatch[k].taskId in m && m[dispatch[k].taskId] == picked[k]
      ensures forall u | u in tasks && u.state == Assigned :: !Overlap(picked[k].writes, u.writes)
    {
      PickedFacts(tasks, idle, picked[k]);
      ViewAt(tasks, picked[k]);
    }
    forall i, j | 0 <= i < j < |dispatch|
      ensures dispatch[i].taskId != dispatch[j].taskId
      ensures !Overlap(m[dispatch[i].taskId].writes, m[dispatch[j].taskId].writes)
    {
      PickedApart(tasks, idle, i, j);
    }
    ViewKeyed(tasks);
  }

  lemma PickedApart(tasks: seq<Task>, idle: set<AgentId>, i: nat, j: nat)
    requires UniqueIds(tasks) && i < j < |Picked(tasks, idle)|
    ensures var picked := Picked(tasks, idle);
            && picked[i].id != picked[j].id && picked[i].owner != picked[j].owner
            && !Overlap(picked[i].writes, picked[j].writes)
  {
    var sorted := ByTime(tasks);
    ByTimeUnique(tasks);
    CandidatesUnique(sorted, MarkSet(tasks));
    GreedyUnique(Candidates(sorted, MarkSet(tasks)), idle, InFlight(tasks));
    GreedyCompatible(Candidates(sorted, MarkSet(tasks)), idle, InFlight(tasks));
  }

  lemma StartTickKeeps(t0: Tables, s: Sys, idle: set<AgentId>)
    requires Inv(t0, s)
    ensures Inv(t0, Next(s, StartTick(idle)))
  {
    hide MarksOk, DispatchOk, Plan, GraphOk, DepsOk, ExclusionOk, RequestsOk, StrikesOk, UniqueIds, View;
    PlanMarksOk(s.tasks, idle);
    PlanDispatchOk(s.tasks, idle, s.adopted);
  }

  // ------------------------------------------------------- steps that move one task

  /** Everything about one task's change of state that the invariant needs to know. */
  lemma MoveTask(t0: Tables, s: Sys, s': Sys, id: TaskId, patch: Patch)
    requires Inv(t0, s) && Has(s.tasks, id)
    requires s'.tasks == Update(s.tasks, id, patch) && s'.tables == s.tables && s'.ops == s.ops
    requires var m := View(s.tasks);
             id in m ==>
               var m' := m[id := Patched(m[id], patch)];
               && TasksOk(m', s'.tick, s'.adopted)
               && RequestsOk(m', s'.requests)
               && StrikesOk(m', s'.requests, s'.tables.events, s'.lost)
    ensures Inv(t0, s')
  {
    hide TasksOk, RequestsOk, StrikesOk, Update, UniqueIds, View;
    ViewUpdate(s.tasks, id, patch);
  }

  lemma MarkKeeps(t0: Tables, s: Sys)
    requires Inv(t0, s)
    ensures Inv(t0, Next(s, MarkNext))
  {
    if s.tick.Applying? && s.tick.marks != [] {
      var m, id := View(s.tasks), s.tick.marks[0];
      assert id in s.tick.marks;
      ViewExact(s.tasks, id);
      var t := m[id].(state := Unassigned);
      var tick := s.tick.(marks := s.tick.marks[1..]);
      var patch := Patch(Some(Unassigned), None);
      assert Patched(m[id], patch) == t;
      MarkedTable(m, s.tick, s.adopted);
      RequestsUnmoved(m, id, t, s.requests);
      StrikesUnmoved(m, id, t, s.requests, s.tables.events, s.lost);
      hide TasksOk, RequestsOk, StrikesOk;
      MoveTask(t0, s, Next(s, MarkNext), id, patch);
    }
  }

  lemma MarkedTable(m: Table, tick: Tick, adopted: set<TaskId>)
    requires TasksOk(m, tick, adopted) && tick.Applying? && tick.marks != []
    ensures TasksOk(m[tick.marks[0] := m[tick.marks[0]].(state := Unassigned)], tick.(marks := tick.marks[1..]), adopted)
  {
    var id := tick.marks[0];
    assert id in tick.marks;
    assert MarksOk(m, tick.marks[1..]) by {
      assert forall x | x in tick.marks[1..] :: x in tick.marks;
    }
    QuietChange(m, tick.(marks := tick.marks[1..]), adopted, id, m[id].(state := Unassigned));
  }

  /** Blocked tasks and tasks going from unassigned to assigned are nobody's request. */
  lemma RequestsUnmoved(m: Table, id: TaskId, t: Task, requests: map<AgentId, Request>)
    requires RequestsOk(m, requests) && id in m && SameShape(m[id], t)
    requires m[id].state == Blocked || (m[id].state == Unassigned && t.state == Assigned)
    ensures RequestsOk(m[id := t], requests)
  {
    forall a | a in requests ensures RequestOk(m[id := t], a, requests[a]) {
      RequestKept(m, id, t, a, requests[a]);
    }
  }

  lemma StrikesUnmoved(m: Table, id: TaskId, t: Task, requests: map<AgentId, Request>, events: seq<StoredEvent>, lost: multiset<TaskId>)
    requires StrikesOk(m, requests, events, lost) && id in m && SameShape(m[id], t)
    requires t.strikes == m[id].strikes && m[id].state != Dropped && t.state != Dropped
    ensures StrikesOk(m[id := t], requests, events, lost)
  {
    StrikesKept(m, requests, requests, events, lost, id, t);
  }

  lemma DispatchKeeps(t0: Tables, s: Sys, pushed: bool)
    requires Inv(t0, s)
    ensures Inv(t0, Next(s, DispatchNext(pushed)))
  {
    if s.tick.Applying? && s.tick.marks == [] && s.tick.dispatch != [] {
      var m, id := View(s.tasks), s.tick.dispatch[0].taskId;
      var tick := s.tick.(dispatch := s.tick.dispatch[1..]);
      ViewExact(s.tasks, id);
      DispatchTail(m, s.tick.dispatch, s.adopted);
      if Has(s.tasks, id) && Get(s.tasks, id).state == Unassigned {
        var t := m[id].(state := Assigned);
        DispatchedTable(m, s.tick, s.adopted);
        RequestsUnmoved(m, id, t, s.requests);
        StrikesUnmoved(m, id, t, s.requests, s.tables.events, s.lost);
        var patch := Patch(Some(Assigned), None);
        assert Patched(m[id], patch) == t;
        if pushed {
          hide TasksOk, RequestsOk, StrikesOk;
          MoveTask(t0, s, Next(s, DispatchNext(true)), id, patch);
        } else {
          PushFailureRestores(s.tasks, id);
        }
      }
    }
  }

  /** Assigning an unassigned task and taking it back leaves the tasks as they were. */
  lemma PushFailureRestores(tasks: seq<Task>, id: TaskId)
    requires Has(tasks, id) && Get(tasks, id).state == Unassigned
    ensures SetState(SetState(tasks, id, Assigned), id, Unassigned) == tasks
  {
    FindSame(tasks, SetState(tasks, id, Assigned), id);
  }

  lemma DispatchTail(m: Table, dispatch: seq<Decision>, adopted: set<TaskId>)
    requires DispatchOk(m, dispatch, adopted) && dispatch != []
    ensures DispatchOk(m, dispatch[1..], adopted)
  {
    assert forall d | d in dispatch[1..] :: d in dispatch;
  }

  lemma DispatchedTable(m: Table, tick: Tick, adopted: set<TaskId>)
    requires TasksOk(m, tick, adopted) && tick.Applying? && tick.marks == [] && tick.dispatch != []
    requires var id := tick.dispatch[0].taskId; id in m && m[id].state == Unassigned
    ensures var id := tick.dispatch[0].taskId;
            TasksOk(m[id := m[id].(state := Assigned)], tick.(dispatch := tick.dispatch[1..]), adopted)
  {
    var head, rest := tick.dispatch[0], tick.dispatch[1..];
    var id := head.taskId;
    var t := m[id].(state := Assigned);
    assert head in tick.dispatch;
    GraphKept(m, id, t);
    DepsKept(m, id, t);
    assert ClearOf(m, id, adopted);
    ExclusionKept(m, id, t, adopted, adopted);
    MarksKept(m, [], id, t);
    DispatchTail(m, tick.dispatch, adopted);
    forall d | d in rest && d.taskId != id ensures !Overlap(m[d.taskId].writes, m[id].writes) {
      var k :| 0 <= k < |rest| && rest[k] == d;
      assert tick.dispatch[k + 1] == d;
      OverlapSymmetric(m[id].writes, m[d.taskId].writes);
    }
    DispatchKept(m, rest, adopted, id, t, adopted);
  }

  lemma AdoptedState(m: Table, tick: Tick, adopted: set<TaskId>, requests: map<AgentId, Request>,
                     events: seq<StoredEvent>, lost: multiset<TaskId>, a: AgentId)
    requires TasksOk(m, tick, adopted) && RequestsOk(m, requests) && StrikesOk(m, requests, events, lost)
    requires a in requests && requests[a].Adopting? && requests[a].todo != []
    ensures var id := requests[a].todo[0];
            var requests' := requests[a := Adopting(requests[a].todo[1..])];
            && id in m
            && var m' := m[id := m[id].(state := Assigned)];
               TasksOk(m', tick, adopted + {id}) && RequestsOk(m', requests') && StrikesOk(m', requests', events, lost)
  {
    hide Rejections, TasksOk;
    var id := requests[a].todo[0];
    assert id in requests[a].todo;
    assert RequestOk(m, a, requests[a]);
    AdoptedTable(m, tick, adopted, id);
    AdoptedRequests(m, requests, a);
    assert StrikesMatch(m[id], requests, events, lost);
    StrikesKept(m, requests, requests[a := Adopting(requests[a].todo[1..])], events, lost, id, m[id].(state := Assigned));
  }

  lemma AdoptKeeps(t0: Tables, s: Sys, a: AgentId)
    requires Inv(t0, s)
    ensures Inv(t0, Next(s, AdoptNext(a)))
  {
    if a in s.requests && s.requests[a].Adopting? {
      if s.requests[a].todo == [] {
        RequestDropped(t0, s, a);
      } else {
        var id, m := s.requests[a].todo[0], View(s.tasks);
        ViewExact(s.tasks, id);
        var patch := Patch(Some(Assigned), None);
        hide TasksOk, RequestsOk, StrikesOk, View, UniqueIds;
        AdoptedState(m, s.tick, s.adopted, s.requests, s.tables.events, s.lost, a);
        assert Patched(m[id], patch) == m[id].(state := Assigned);
        MoveTask(t0, s, Next(s, AdoptNext(a)), id, patch);
      }
    }
  }

  lemma AdoptedTable(m: Table, tick: Tick, adopted: set<TaskId>, id: TaskId)
    requires TasksOk(m, tick, adopted) && id in m && m[id].dependsOn == []
    requires m[id].state == Unassigned || m[id].state == Assigned
    ensures TasksOk(m[id := m[id].(state := Assigned)], tick, adopted + {id})
  {
    var t := m[id].(state := Assigned);
    GraphKept(m, id, t);
    DepsKept(m, id, t);
    ExclusionKept(m, id, t, adopted, adopted + {id});
    if tick.Applying? {
      MarksKept(m, tick.marks, id, t);
      DispatchKept(m, tick.dispatch, adopted, id, t, adopted + {id});
    }
  }

  lemma AdoptedRequests(m: Table, requests: map<AgentId, Request>, a: AgentId)
    requires RequestsOk(m, requests) && a in requests && requests[a].Adopting? && requests[a].todo != []
    ensures var id := requests[a].todo[0];
            id in m && RequestsOk(m[id := m[id].(state := Assigned)], requests[a := Adopting(requests[a].todo[1..])])
  {
    var todo := requests[a].todo;
    var id := todo[0];
    assert RequestOk(m, a, requests[a]);
    assert id in todo && forall x | x in todo[1..] :: x in todo;
    forall b | b in requests && b != a ensures RequestOk(m[id := m[id].(state := Assigned)], b, requests[b]) {
      RequestKept(m, id, m[id].(state := Assigned), b, requests[b]);
    }
  }

  /** An agent's own request ends, having changed one of its tasks. */
  lemma OwnTaskMoved(m: Table, requests: map<AgentId, Request>, a: AgentId, id: TaskId, t: Task)
    requires RequestsOk(m, requests) && Owns(m, a, id) && SameShape(m[id], t)
    ensures RequestsOk(m[id := t], requests - {a})
  {
    forall b | b in requests && b != a ensures RequestOk(m[id := t], b, requests[b]) {
      RequestKept(m, id, t, b, requests[b]);
    }
  }

  lemma StruckTable(m: Table, tick: Tick, adopted: set<TaskId>, requests: map<AgentId, Request>,
                    events: seq<StoredEvent>, lost: multiset<TaskId>, a: AgentId)
    requires TasksOk(m, tick, adopted) && RequestsOk(m, requests) && StrikesOk(m, requests, events, lost)
    requires a in requests && requests[a].StrikeReady?
    ensures var r := requests[a];
            && r.taskId in m
            && var m' := m[r.taskId := Patched(m[r.taskId], StrikePatch(r.strikes))];
               TasksOk(m', tick, adopted) && RequestsOk(m', requests - {a}) && StrikesOk(m', requests - {a}, events, lost)
  {
    hide Rejections, GraphOk, DepsOk, ExclusionOk, TickOk;
    var r := requests[a];
    assert RequestOk(m, a, r);
    var t := Patched(m[r.taskId], StrikePatch(r.strikes));
    assert SameShape(m[r.taskId], t);
    KeyedTable(m, tick, adopted, r.taskId);
    NotMarked(m, tick, adopted, r.taskId);
    assert StrikesMatch(m[r.taskId], requests, events, lost);
    hide TasksOk, DepsDone;
    StrikesKept(m, requests, requests - {a}, events, lost, r.taskId, t) by { OthersPend(m, requests, a, r.taskId, tick, adopted); }
    OwnTaskMoved(m, requests, a, r.taskId, t);
    QuietChange(m, tick, adopted, r.taskId, t);
  }

  lemma KeyedTable(m: Table, tick: Tick, adopted: set<TaskId>, id: TaskId)
    requires TasksOk(m, tick, adopted) && id in m
    ensures m[id].id == id
  {}

  /** Only the task it is about waits for an agent's strike. */
  lemma OthersPend(m: Table, requests: map<AgentId, Request>, a: AgentId, id: TaskId, tick: Tick, adopted: set<TaskId>)
    requires TasksOk(m, tick, adopted) && a in requests
    requires requests[a].StrikeReady? ==> requests[a].taskId == id
    ensures forall x | x in m && x != id :: Pending(requests - {a}, m[x]) == Pending(requests, m[x])
  {}

  lemma StrikeKeeps(t0: Tables, s: Sys, a: AgentId)
    requires Inv(t0, s)
    ensures Inv(t0, Next(s, RecordStrike(a)))
  {
    StrikeIs(s, a);
    if a in s.requests && s.requests[a].StrikeReady? {
      var id := s.requests[a].taskId;
      hide TasksOk, RequestsOk, StrikesOk, View, UniqueIds, StrikePatch, Patched, Next;
      ViewExact(s.tasks, id);
      StruckTable(View(s.tasks), s.tick, s.adopted, s.requests, s.tables.events, s.lost, a);
      MoveTask(t0, s, Next(s, RecordStrike(a)), id, StrikePatch(s.requests[a].strikes));
    }
  }

  lemma NotMarked(m: Table, tick: Tick, adopted: set<TaskId>, id: TaskId)
    requires TasksOk(m, tick, adopted) && id in m && m[id].state == Assigned
    ensures tick.Applying? ==> id !in tick.marks
    ensures DepsDone(m, m[id])
  {}

  lemma FinishedTable(m: Table, tick: Tick, adopted: set<TaskId>, requests: map<AgentId, Request>,
                      events: seq<StoredEvent>, lost: multiset<TaskId>, a: AgentId)
    requires TasksOk(m, tick, adopted) && RequestsOk(m, requests) && StrikesOk(m, requests, events, lost)
    requires a in requests && requests[a].DoneReady?
    ensures var id := requests[a].taskId;
            && id in m
            && var m' := m[id := m[id].(state := Done)];
               TasksOk(m', tick, adopted) && RequestsOk(m', requests - {a}) && StrikesOk(m', requests - {a}, events, lost)
  {
    hide Rejections, GraphOk, DepsOk, ExclusionOk, TickOk;
    var id := requests[a].taskId;
    assert RequestOk(m, a, requests[a]);
    var t := m[id].(state := Done);
    NotMarked(m, tick, adopted, id);
    assert StrikesMatch(m[id], requests, events, lost);
    hide TasksOk, DepsDone;
    StrikesKept(m, requests, requests - {a}, events, lost, id, t) by { OthersPend(m, requests, a, id, tick, adopted); }
    OwnTaskMoved(m, requests, a, id, t);
    QuietChange(m, tick, adopted, id, t);
  }

  lemma DoneKeeps(t0: Tables, s: Sys, a: AgentId)
    requires Inv(t0, s)
    ensures Inv(t0, Next(s, FinishDone(a)))
  {
    DoneIs(s, a);
    if a in s.requests && s.requests[a].DoneReady? {
      var id, m := s.requests[a].taskId, View(s.tasks);
      var patch := Patch(Some(Done), None);
      hide TasksOk, RequestsOk, StrikesOk, View, UniqueIds, Next;
      ViewExact(s.tasks, id);
      FinishedTable(m, s.tick, s.adopted, s.requests, s.tables.events, s.lost, a);
      assert Patched(m[id], patch) == m[id].(state := Done);
      MoveTask(t0, s, Next(s, FinishDone(a)), id, patch);
    }
  }

  // --------------------------------------------------- steps that move no task

  lemma RequestDropped(t0: Tables, s: Sys, a: AgentId)
    requires Inv(t0, s) && a in s.requests && !s.requests[a].StrikeReady?
    ensures Inv(t0, Finish(s, a))
  {
    hide TasksOk, UniqueIds, View, Rejections;
    PendingUnchanged(View(s.tasks), s.requests, s.requests - {a}, s.tables.events, s.lost);
  }

  lemma RequestTaken(t0: Tables, s: Sys, a: AgentId, r: Request)
    requires Inv(t0, s) && (a in s.requests ==> !s.requests[a].StrikeReady?) && !r.StrikeReady?
    requires RequestOk(View(s.tasks), a, r)
    ensures Inv(t0, Put(s, a, r))
  {
    hide TasksOk, UniqueIds, View, Rejections;
    PendingUnchanged(View(s.tasks), s.requests, s.requests[a := r], s.tables.events, s.lost);
  }

  lemma PendingUnchanged(m: Table, requests: map<AgentId, Request>, requests': map<AgentId, Request>, events: seq<StoredEvent>, lost: multiset<TaskId>)
    requires StrikesOk(m, requests, events, lost)
    requires forall a, id, n ::
               (a in requests && requests[a] == StrikeReady(id, n)) <==> (a in requests' && requests'[a] == StrikeReady(id, n))
    ensures StrikesOk(m, requests', events, lost)
  {
    hide EventsKnown, StrikesMatch;
    forall id | id in m ensures StrikesMatch(m[id], requests', events, lost) {
      SamePending(m[id], requests, requests', events, lost);
    }
  }

  lemma SamePending(t: Task, requests: map<AgentId, Request>, requests': map<AgentId, Request>,
                    events: seq<StoredEvent>, lost: multiset<TaskId>)
    requires StrikesMatch(t, requests, events, lost)
    requires forall a, id, n ::
               (a in requests && requests[a] == StrikeReady(id, n)) <==> (a in requests' && requests'[a] == StrikeReady(id, n))
    ensures StrikesMatch(t, requests', events, lost)
  {
    hide Rejections;
    if t.owner.Some? {
      var a := t.owner.value;
      assert a in requests && requests[a].StrikeReady? ==> requests[a] == StrikeReady(requests[a].taskId, requests[a].strikes);
      assert a in requests' && requests'[a].StrikeReady? ==> requests'[a] == StrikeReady(requests'[a].taskId, requests'[a].strikes);
    }
  }

  lemma BeginKeeps(t0: Tables, s: Sys, step: Step)
    requires Inv(t0, s) && (step.BeginCommit? || step.BeginDone? || step.BeginFetch?)
    ensures Inv(t0, Next(s, step))
  {
    hide Inv, View;
    var a := step.agent;
    if a !in s.requests {
      if step.BeginFetch? {
        RequestTaken(t0, s, a, Fetching(step.paths));
      } else if MayReport(s.tasks, a, step.taskId) {
        ViewExact(s.tasks, step.taskId);
        if step.BeginDone? {
          RequestTaken(t0, s, a, DoneReady(step.taskId));
        } else {
          RequestTaken(t0, s, a, CommitReady(step.taskId, Get(s.tasks, step.taskId).strikes, step.writes, step.refs));
        }
      }
    }
  }

  // ------------------------------------------------------------- the file store

  lemma OneMoreRejection(events: seq<StoredEvent>, e: StoredEvent, id: TaskId)
    ensures Rejections(events + [e], id) == Rejections(events, id) + if e.kind == CommitRejected && e.taskId == id then 1 else 0
  {
    assert (events + [e])[..|events|] == events;
  }

  lemma StoreStep(t0: Tables, s: Sys, s': Sys, op: Op)
    requires Inv(t0, s)
    requires s'.tasks == s.tasks && s'.tick == s.tick && s'.adopted == s.adopted
    requires s'.tables == FileHistory.Step(s.tables, op) && s'.ops == s.ops + [op]
    requires RequestsOk(View(s.tasks), s'.requests)
    requires StrikesOk(View(s.tasks), s'.requests, s'.tables.events, s'.lost)
    ensures Inv(t0, s')
  {
    hide TasksOk, RequestsOk, StrikesOk, UniqueIds, View, FileHistory.Step;
    assert (s.ops + [op])[..|s.ops|] == s.ops;
  }

  lemma FetchIs(s: Sys, a: AgentId)
    requires a in s.requests && s.requests[a].Fetching? && s.requests[a].todo != []
    ensures var todo := s.requests[a].todo;
            var op := Fetch(a, todo[0]);
            Next(s, FetchNext(a))
            == Put(s, a, Fetching(todo[1..])).(tables := FileHistory.Step(s.tables, op), ops := s.ops + [op])
  {
    hide FileHistory.Step;
  }

  lemma FetchKeeps(t0: Tables, s: Sys, a: AgentId)
    requires Inv(t0, s)
    ensures Inv(t0, Next(s, FetchNext(a)))
  {
    if a in s.requests && s.requests[a].Fetching? {
      var todo := s.requests[a].todo;
      if todo == [] {
        RequestDropped(t0, s, a);
      } else {
        var op := Fetch(a, todo[0]);
        hide Next, FileHistory.Step, TasksOk, UniqueIds, View;
        FetchIs(s, a);
        RequestTaken(t0, s, a, Fetching(todo[1..]));
        FetchIsQuiet(s.tables, op);
        hide RequestsOk, StrikesOk;
        StoreStep(t0, s, Next(s, FetchNext(a)), op);
      }
    }
  }

  lemma FetchIsQuiet(t: Tables, op: Op)
    requires op.Fetch?
    ensures FileHistory.Step(t, op).events == t.events
  {}

  lemma RefusedStrike(m: Table, requests: map<AgentId, Request>, events: seq<StoredEvent>, lost: multiset<TaskId>, a: AgentId, e: StoredEvent, id: TaskId)
    requires id in m && m[id].id == id && StrikesMatch(m[id], requests, events, lost)
    requires a in requests && requests[a].CommitReady? && RequestOk(m, a, requests[a])
    requires e.kind == CommitRejected && e.taskId == requests[a].taskId
    ensures StrikesMatch(m[id], requests[a := StrikeReady(requests[a].taskId, requests[a].strikes + 1)], events + [e], lost)
  {
    OneMoreRejection(events, e, id);
    hide Rejections;
  }

  lemma EventsStillKnown(m: Table, events: seq<StoredEvent>, e: StoredEvent)
    requires EventsKnown(m, events) && (e.kind == CommitRejected ==> e.taskId in m)
    ensures EventsKnown(m, events + [e])
  {}

  lemma RefusedStrikes(m: Table, requests: map<AgentId, Request>, events: seq<StoredEvent>, lost: multiset<TaskId>, a: AgentId, e: StoredEvent)
    requires StrikesOk(m, requests, events, lost) && RequestsOk(m, requests)
    requires a in requests && requests[a].CommitReady?
    requires e.kind == CommitRejected && e.taskId == requests[a].taskId
    requires forall id | id in m :: m[id].id == id
    ensures StrikesOk(m, requests[a := StrikeReady(requests[a].taskId, requests[a].strikes + 1)], events + [e], lost)
  {
    var r := requests[a];
    var requests' := requests[a := StrikeReady(r.taskId, r.strikes + 1)];
    assert RequestOk(m, a, r);
    EventsStillKnown(m, events, e);
    hide RequestsOk, StrikesMatch, EventsKnown, RequestOk;
    forall id | id in m ensures StrikesMatch(m[id], requests', events + [e], lost) {
      RefusedStrike(m, requests, events, lost, a, e, id);
    }
  }

  lemma AcceptedStrikes(m: Table, requests: map<AgentId, Request>, events: seq<StoredEvent>, lost: multiset<TaskId>, e: StoredEvent)
    requires StrikesOk(m, requests, events, lost) && e.kind == CommitOk
    ensures StrikesOk(m, requests, events + [e], lost)
  {
    assert forall x | x in events + [e] :: x in events || x == e;
    forall id | id in m ensures StrikesMatch(m[id], requests, events + [e], lost) {
      OneMoreRejection(events, e, m[id].id);
      assert StrikesMatch(m[id], requests, events, lost);
    }
  }

  /** What a queued commit does to the state once it reaches the store. */
  ghost function AfterStore(s: Sys, a: AgentId, op: Op): Sys
    requires a in s.requests && s.requests[a].CommitReady?
  {
    var after := s.(tables := FileHistory.Step(s.tables, op), ops := s.ops + [op]);
    if Rejects(s.tables, op) then Put(after, a, StrikeReady(s.requests[a].taskId, s.requests[a].strikes + 1))
    else Finish(after, a)
  }

  lemma RefusedKeeps(t0: Tables, s: Sys, a: AgentId, op: Op)
    requires Inv(t0, s) && a in s.requests && s.requests[a].CommitReady?
    requires op == Commit(a, s.requests[a].taskId, s.requests[a].writes, s.requests[a].refs)
    requires Rejects(s.tables, op)
    ensures Inv(t0, AfterStore(s, a, op))
  {
    hide FileHistory.Step, Rejects, StrikesOk, RequestsOk, View, TasksOk, UniqueIds;
    var m, r := View(s.tasks), s.requests[a];
    StepEvents(s.tables, op);
    forall id | id in m ensures m[id].id == id { KeyedTable(m, s.tick, s.adopted, id); }
    RefusedStrikes(m, s.requests, s.tables.events, s.lost, a, StoredEvent(s.tables.eventSeq + 1, CommitRejected, a, r.taskId));
    StrikeRequested(m, s.requests, a);
    StoreStep(t0, s, AfterStore(s, a, op), op);
  }

  lemma LandedKeeps(t0: Tables, s: Sys, a: AgentId, op: Op)
    requires Inv(t0, s) && a in s.requests && s.requests[a].CommitReady?
    requires op == Commit(a, s.requests[a].taskId, s.requests[a].writes, s.requests[a].refs)
    requires !Rejects(s.tables, op)
    ensures Inv(t0, AfterStore(s, a, op))
  {
    hide FileHistory.Step, Rejects, Accepts, StrikesOk, RequestsOk, View, TasksOk, UniqueIds;
    var m := View(s.tasks);
    StepEvents(s.tables, op);
    RequestDropped(t0, s, a);
    if Accepts(s.tables, op) {
      AcceptedStrikes(m, s.requests - {a}, s.tables.events, s.lost,
                      StoredEvent(s.tables.eventSeq + 1, CommitOk, a, s.requests[a].taskId));
    }
    StoreStep(t0, s, AfterStore(s, a, op), op);
  }

  lemma StoreCommitIs(s: Sys, a: AgentId)
    ensures Next(s, StoreCommit(a)) ==
              if a in s.requests && s.requests[a].CommitReady?
              then AfterStore(s, a, Commit(a, s.requests[a].taskId, s.requests[a].writes, s.requests[a].refs))
              else s
  {
    hide FileHistory.Step, Rejects;
  }

  lemma StoreCommitKeeps(t0: Tables, s: Sys, a: AgentId)
    requires Inv(t0, s)
    ensures Inv(t0, Next(s, StoreCommit(a)))
  {
    hide Inv, FileHistory.Step, Rejects, Next, AfterStore;
    StoreCommitIs(s, a);
    if a in s.requests && s.requests[a].CommitReady? {
      var r := s.requests[a];
      var op := Commit(a, r.taskId, r.writes, r.refs);
      if Rejects(s.tables, op) { RefusedKeeps(t0, s, a, op); } else { LandedKeeps(t0, s, a, op); }
    }
  }

  lemma StrikeRequested(m: Table, requests: map<AgentId, Request>, a: AgentId)
    requires RequestsOk(m, requests) && a in requests && requests[a].CommitReady?
    ensures RequestsOk(m, requests[a := StrikeReady(requests[a].taskId, requests[a].strikes + 1)])
  {
    assert RequestOk(m, a, requests[a]);
  }

  // ------------------------------------------------------------- adding a batch

  /** The tasks of an accepted batch, as stored. */
  ghost predicate NewTasks(m: Table, n: Table) {
    && m.Keys !! n.Keys
    && (forall id | id in n ::
          && n[id].id == id && n[id].strikes == 0
          && n[id].state == (if n[id].dependsOn == [] then Unassigned else Blocked))
    && exists order :: OrderedWithin(m, n, order)
  }

  ghost predicate OrderedWithin(m: Table, n: Table, order: seq<TaskId>) {
    && Distinct(order)
    && (forall id :: id in order <==> id in n)
    && (forall k, d | 0 <= k < |order| && order[k] in n && d in n[order[k]].dependsOn :: d in m || d in order[..k])
  }

  lemma StoredAllAt(batch: seq<NewTask>, clock: int, t: Task)
    ensures t in StoredAll(batch, clock) <==> exists b | b in batch :: Stored(b, clock) == t
  {
    if b :| b in batch && Stored(b, clock) == t {
      var i :| 0 <= i < |batch| && batch[i] == b;
      assert StoredAll(batch, clock)[i] == t;
    }
  }

  lemma NodesAt(batch: seq<NewTask>)
    ensures forall b | b in batch :: DagNode(b.id, b.dependsOn) in Nodes(batch)
    ensures forall x | x in Nodes(batch) :: exists b | b in batch :: x == DagNode(b.id, b.dependsOn)
  {
    forall b | b in batch ensures DagNode(b.id, b.dependsOn) in Nodes(batch) {
      var i :| 0 <= i < |batch| && batch[i] == b;
      assert Nodes(batch)[i] == DagNode(b.id, b.dependsOn);
    }
  }

  lemma BatchIds(batch: seq<NewTask>, clock: int)
    ensures IdsOf(StoredAll(batch, clock)) == Ids(Nodes(batch))
  {
    var created := StoredAll(batch, clock);
    forall id ensures id in IdsOf(created) <==> id in Ids(Nodes(batch)) {
      if id in IdsOf(created) {
        var t :| t in created && t.id == id;
        var i :| 0 <= i < |created| && created[i] == t;
        assert Nodes(batch)[i] in Nodes(batch);
      }
      if id in Ids(Nodes(batch)) {
        var x :| x in Nodes(batch) && x.id == id;
        var i :| 0 <= i < |batch| && Nodes(batch)[i] == x;
        assert created[i] in created;
      }
    }
  }

  lemma BatchView(batch: seq<NewTask>, clock: int, existing: set<TaskId>)
    requires GoodBatch(Nodes(batch), existing)
    ensures UniqueIds(StoredAll(batch, clock))
    ensures forall i | 0 <= i < |batch| :: StoredAll(batch, clock)[i].id !in existing
    ensures forall id | id in View(StoredAll(batch, clock)) ::
              exists b | b in batch :: b.id == id && View(StoredAll(batch, clock))[id] == Stored(b, clock)
    ensures forall id :: id in View(StoredAll(batch, clock)) <==> id in Ids(Nodes(batch))
  {
    var created, nodes := StoredAll(batch, clock), Nodes(batch);
    assert forall i | 0 <= i < |batch| :: created[i].id == nodes[i].id;
    BatchIds(batch, clock);
    ViewKeyed(created);
    forall id | id in View(created)
      ensures exists b | b in batch :: b.id == id && View(created)[id] == Stored(b, clock)
    {
      StoredAllAt(batch, clock, View(created)[id]);
    }
  }

  lemma BatchOrdered(m: Table, batch: seq<NewTask>, clock: int)
    requires GoodBatch(Nodes(batch), m.Keys)
    ensures exists order :: OrderedWithin(m, View(StoredAll(batch, clock)), order)
  {
    var nodes, n := Nodes(batch), View(StoredAll(batch, clock));
    BatchView(batch, clock, m.Keys);
    var order := KahnOrderExists(nodes);
    KahnRespectsEdges(nodes, order);
    NoCycleNodesIffAcyclic(nodes, order);
    forall k, d | 0 <= k < |order| && order[k] in n && d in n[order[k]].dependsOn
      ensures d in m || d in order[..k]
    {
      var b :| b in batch && b.id == order[k] && n[order[k]] == Stored(b, clock);
      NodesAt(batch);
      var x := DagNode(b.id, b.dependsOn);
      assert x in nodes && d in x.dependsOn;
      if d !in m { assert Edge(nodes, d, order[k]); }
    }
    assert OrderedWithin(m, n, order);
  }

  lemma BatchIsNew(m: Table, batch: seq<NewTask>, clock: int)
    requires GoodBatch(Nodes(batch), m.Keys)
    ensures NewTasks(m, View(StoredAll(batch, clock)))
  {
    var n := View(StoredAll(batch, clock));
    BatchView(batch, clock, m.Keys);
    BatchOrdered(m, batch, clock);
    hide OrderedWithin, View, StoredAll, GoodBatch;
    forall id | id in n ensures id !in m {
      FreshId(batch, m.Keys, id);
    }
  }

  lemma FreshId(batch: seq<NewTask>, existing: set<TaskId>, id: TaskId)
    requires GoodBatch(Nodes(batch), existing) && id in Ids(Nodes(batch))
    ensures id !in existing
  {
    var x :| x in Nodes(batch) && x.id == id;
    var i :| 0 <= i < |batch| && Nodes(batch)[i] == x;
  }

  lemma GraphGrows(m: Table, n: Table)
    requires GraphOk(m) && NewTasks(m, n)
    ensures GraphOk(m + n)
  {
    var a :| Ordered(m, a);
    var b :| OrderedWithin(m, n, b);
    var order, all := a + b, m + n;
    forall i, j | 0 <= i < j < |order| ensures order[i] != order[j] {
      if i < |a| && j >= |a| {
        assert a[i] in a && b[j - |a|] in b;
      }
    }
    forall k, d | 0 <= k < |order| && order[k] in all && d in all[order[k]].dependsOn ensures d in order[..k] {
      if k < |a| {
        assert order[k] in a;
        assert order[..k] == a[..k];
      } else {
        assert b[k - |a|] in b;
        assert order[..k] == a + b[..k - |a|];
      }
    }
    assert Ordered(all, order);
  }

  lemma TableGrows(m: Table, n: Table, tick: Tick, adopted: set<TaskId>)
    requires TasksOk(m, tick, adopted) && NewTasks(m, n)
    ensures TasksOk(m + n, tick, adopted)
  {
    var all := m + n;
    GraphGrows(m, n);
    hide GraphOk;
    assert forall id | IsDone(m, id) :: IsDone(all, id);
    forall id | id in all && all[id].state != Blocked ensures DepsDone(all, all[id]) {
      if id in m { assert DepsDone(m, m[id]); }
    }
    forall id | Running(all, id, adopted) ensures Running(m, id, adopted) && all[id] == m[id] {}
  }

  lemma RequestsGrow(m: Table, n: Table, requests: map<AgentId, Request>)
    requires RequestsOk(m, requests) && m.Keys !! n.Keys
    ensures RequestsOk(m + n, requests)
  {
    forall a | a in requests ensures RequestOk(m + n, a, requests[a]) {
      assert RequestOk(m, a, requests[a]);
    }
  }

  lemma StrikesGrow(m: Table, n: Table, requests: map<AgentId, Request>, events: seq<StoredEvent>, lost: multiset<TaskId>)
    requires StrikesOk(m, requests, events, lost) && RequestsOk(m, requests) && NewTasks(m, n)
    ensures StrikesOk(m + n, requests, events, lost)
  {
    forall id | id in n ensures StrikesMatch(n[id], requests, events, lost) {
      NoRejections(events, id);
      if n[id].owner.Some? && n[id].owner.value in requests {
        assert RequestOk(m, n[id].owner.value, requests[n[id].owner.value]);
      }
    }
  }

  lemma BatchKeeps(t0: Tables, s: Sys, batch: seq<NewTask>, clock: int)
    requires Inv(t0, s) && GoodBatch(Nodes(batch), IdsOf(s.tasks))
    ensures Inv(t0, s.(tasks := s.tasks + StoredAll(batch, clock)))
  {
    var m, created := View(s.tasks), StoredAll(batch, clock);
    assert m.Keys == IdsOf(s.tasks);
    BatchView(batch, clock, m.Keys);
    BatchIsNew(m, batch, clock);
    ViewAppend(s.tasks, created);
    hide TasksOk, RequestsOk, StrikesOk, View, UniqueIds, NewTasks, GoodBatch;
    TableGrows(m, View(created), s.tick, s.adopted);
    RequestsGrow(m, View(created), s.requests) by { NewAreDisjoint(m, View(created)); }
    StrikesGrow(m, View(created), s.requests, s.tables.events, s.lost);
  }

  lemma NewAreDisjoint(m: Table, n: Table)
    requires NewTasks(m, n)
    ensures m.Keys !! n.Keys
  {}

  lemma {:induction false} ToAdoptExact(created: seq<Task>, agent: AgentId, id: TaskId)
    requires id in ToAdopt(created, agent)
    ensures exists t | t in created :: t.id == id && t.owner == Some(agent) && t.dependsOn == [] && t.state == Unassigned
  {
    if id in ToAdopt(created[1..], agent) {
      ToAdoptExact(created[1..], agent, id);
      var t :| t in created[1..] && t.id == id && t.owner == Some(agent) && t.dependsOn == [] && t.state == Unassigned;
      assert t in created;
    } else {
      assert created[0] in created;
    }
  }

  lemma CreateKeeps(t0: Tables, s: Sys, step: Step)
    requires Inv(t0, s) && (step.Submit? || step.CreateTasks?)
    ensures Inv(t0, Next(s, step))
  {
    if Acceptable(s.tasks, step.batch, step.agents) {
      BatchKeeps(t0, s, step.batch, step.clock);
      var grown := s.(tasks := s.tasks + StoredAll(step.batch, step.clock));
      if step.CreateTasks? && step.agent !in s.requests {
        hide Inv, View, UniqueIds, GoodBatch;
        AdoptionPlanned(t0, s, step.agent, step.batch, step.clock);
        RequestTaken(t0, grown, step.agent, Adopting(ToAdopt(StoredAll(step.batch, step.clock), step.agent)));
      }
    }
  }

  lemma AdoptionPlanned(t0: Tables, s: Sys, agent: AgentId, batch: seq<NewTask>, clock: int)
    requires Inv(t0, s.(tasks := s.tasks + StoredAll(batch, clock)))
    ensures RequestOk(View(s.tasks + StoredAll(batch, clock)), agent, Adopting(ToAdopt(StoredAll(batch, clock), agent)))
  {
    var created := StoredAll(batch, clock);
    var all := s.tasks + created;
    assert UniqueIds(all);
    forall id | id in ToAdopt(created, agent)
      ensures Owns(View(all), agent, id) && View(all)[id].dependsOn == [] && View(all)[id].state == Unassigned
    {
      ToAdoptExact(created, agent, id);
      var t :| t in created && t.id == id && t.owner == Some(agent) && t.dependsOn == [] && t.state == Unassigned;
      ViewAt(all, t);
    }
  }

  // ------------------------------------------------------------------ every run

  lemma NextKeeps(t0: Tables, s: Sys, step: Step)
    requires Inv(t0, s)
    ensures Inv(t0, Next(s, step))
  {
    hide Inv;
    match step {
      case Submit(_, _, _) => CreateKeeps(t0, s, step);
      case CreateTasks(_, _, _, _) => CreateKeeps(t0, s, step);
      case AdoptNext(a) => AdoptKeeps(t0, s, a);
      case StartTick(idle) => StartTickKeeps(t0, s, idle);
      case MarkNext => MarkKeeps(t0, s);
      case DispatchNext(pushed) => DispatchKeeps(t0, s, pushed);
      case EndTick => EndTickKeeps(t0, s);
      case BeginCommit(_, _, _, _) => BeginKeeps(t0, s, step);
      case StoreCommit(a) => StoreCommitKeeps(t0, s, a);
      case RecordStrike(a) => StrikeKeeps(t0, s, a);
      case BeginDone(_, _) => BeginKeeps(t0, s, step);
      case FinishDone(a) => DoneKeeps(t0, s, a);
      case BeginFetch(_, _) => BeginKeeps(t0, s, step);
      case FetchNext(a) => FetchKeeps(t0, s, a);
      case GiveUp(a) => GiveUpKeeps(t0, s, a);
      case AbortTick => AbortTickKeeps(t0, s);
    }
  }

  lemma EndTickKeeps(t0: Tables, s: Sys)
    requires Inv(t0, s)
    ensures Inv(t0, Next(s, EndTick))
  {
    hide View, UniqueIds, GraphOk, DepsOk, ExclusionOk, RequestsOk, StrikesOk;
  }

  lemma AbortTickKeeps(t0: Tables, s: Sys)
    requires Inv(t0, s)
    ensures Inv(t0, Next(s, AbortTick))
  {
    hide View, UniqueIds, GraphOk, DepsOk, ExclusionOk, RequestsOk, StrikesOk;
  }

  /** The strike of a request that gives up is never written. */
  lemma StrikesLost(m: Table, requests: map<AgentId, Request>, events: seq<StoredEvent>, lost: multiset<TaskId>,
                    a: AgentId, tick: Tick, adopted: set<TaskId>)
    requires TasksOk(m, tick, adopted) && RequestsOk(m, requests) && StrikesOk(m, requests, events, lost)
    requires a in requests && requests[a].StrikeReady?
    ensures StrikesOk(m, requests - {a}, events, lost + multiset{requests[a].taskId})
  {
    var id := requests[a].taskId;
    assert RequestOk(m, a, requests[a]);
    KeyedTable(m, tick, adopted, id);
    OthersPend(m, requests, a, id, tick, adopted);
    hide Rejections, TasksOk, RequestsOk;
    forall x | x in m ensures StrikesMatch(m[x], requests - {a}, events, lost + multiset{id}) {
      assert StrikesMatch(m[x], requests, events, lost);
      KeyedTable(m, tick, adopted, x);
    }
  }

  lemma GiveUpKeeps(t0: Tables, s: Sys, a: AgentId)
    requires Inv(t0, s)
    ensures Inv(t0, Next(s, GiveUp(a)))
  {
    hide TasksOk, UniqueIds, View, StrikesOk;
    if a in s.requests {
      if s.requests[a].StrikeReady? {
        StrikesLost(View(s.tasks), s.requests, s.tables.events, s.lost, a, s.tick, s.adopted);
        assert RequestsOk(View(s.tasks), s.requests - {a});
        hide RequestsOk;
      } else {
        hide Inv;
        RequestDropped(t0, s, a);
      }
    }
  }

  lemma {:induction false} RunKeeps(t0: Tables, s: Sys, steps: seq<Step>)
    requires Inv(t0, s)
    ensures Inv(t0, Run(s, steps))
  {
    if steps != [] {
      hide Inv, Next;
      RunKeeps(t0, s, steps[..|steps| - 1]);
      NextKeeps(t0, Run(s, steps[..|steps| - 1]), steps[|steps| - 1]);
    }
  }

  lemma BootOk(t0: Tables)
    requires Fresh(t0)
    ensures Inv(t0, Boot(t0))
  {
    assert Ordered(map[], []);
    assert View([]) == map[];
  }

  /** The invariant holds in every state a coordinator can reach from an empty task list. */
  lemma Reachable(t0: Tables, steps: seq<Step>)
    requires Fresh(t0)
    ensures Inv(t0, Run(Boot(t0), steps))
  {
    BootOk(t0);
    RunKeeps(t0, Boot(t0), steps);
  }
}
