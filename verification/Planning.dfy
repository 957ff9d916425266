/**
 * What a plan is, said of the stored tasks alone: which tasks it marks and dispatches, in which order,
 * and why it leaves a ready task out.
 */
module Planning {
  import opened Common
  import opened Tasks
  import opened Scheduler
  import opened Coordinator
  import opened CoordinatorSafety

  /** `t` comes before `u`: created earlier, or at the same time and stored earlier. */
  ghost predicate Earlier(tasks: seq<Task>, t: Task, u: Task) {
    exists i, j | 0 <= i < |tasks| && 0 <= j < |tasks| ::
      tasks[i] == t && tasks[j] == u && (t.createdAt < u.createdAt || (t.createdAt == u.createdAt && i < j))
  }

  ghost predicate DependenciesDone(tasks: seq<Task>, t: Task) {
    forall d | d in t.dependsOn :: exists u | u in tasks :: u.id == d && u.state == Done
  }

  /** May be dispatched as far as dependencies go. */
  ghost predicate Ready(tasks: seq<Task>, t: Task) {
    t.state == Unassigned || (t.state == Blocked && DependenciesDone(tasks, t))
  }

  // ------------------------------------------------------------ the stable order

  lemma {:induction false} CreatedAtFrom(s: seq<Task>, c: int, x: nat, y: nat) returns (p: nat, q: nat)
    requires x < y < |s| && s[x].createdAt == c && s[y].createdAt == c
    ensures p < q < |CreatedAt(s, c)| && CreatedAt(s, c)[p] == s[x] && CreatedAt(s, c)[q] == s[y]
  {
    var here := if s[0].createdAt == c then 1 else 0;
    if x == 0 {
      p := 0;
      q := CreatedAtOf(s[1..], c, y - 1);
      q := q + 1;
    } else {
      p, q := CreatedAtFrom(s[1..], c, x - 1, y - 1);
      p, q := p + here, q + here;
    }
  }

  lemma {:induction false} CreatedAtOf(s: seq<Task>, c: int, y: nat) returns (q: nat)
    requires y < |s| && s[y].createdAt == c
    ensures q < |CreatedAt(s, c)| && CreatedAt(s, c)[q] == s[y]
  {
    if y == 0 {
      q := 0;
    } else {
      q := CreatedAtOf(s[1..], c, y - 1);
      q := q + if s[0].createdAt == c then 1 else 0;
    }
  }

  lemma {:induction false} CreatedAtBack(s: seq<Task>, c: int, p: nat, q: nat) returns (i: nat, j: nat)
    requires p < q < |CreatedAt(s, c)|
    ensures i < j < |s| && s[i] == CreatedAt(s, c)[p] && s[j] == CreatedAt(s, c)[q]
  {
    var here := if s[0].createdAt == c then 1 else 0;
    if p < here {
      i := 0;
      j := CreatedAtSource(s[1..], c, q - 1);
      j := j + 1;
    } else {
      i, j := CreatedAtBack(s[1..], c, p - here, q - here);
      i, j := i + 1, j + 1;
    }
  }

  lemma {:induction false} CreatedAtSource(s: seq<Task>, c: int, q: nat) returns (j: nat)
    requires q < |CreatedAt(s, c)|
    ensures j < |s| && s[j] == CreatedAt(s, c)[q]
  {
    var here := if s[0].createdAt == c then 1 else 0;
    if q < here {
      j := 0;
    } else {
      j := CreatedAtSource(s[1..], c, q - here);
      j := j + 1;
    }
  }

  /** The sort puts earlier tasks first. */
  lemma SortedEarlier(tasks: seq<Task>, x: nat, y: nat)
    requires x < y < |ByTime(tasks)|
    ensures Earlier(tasks, ByTime(tasks)[x], ByTime(tasks)[y])
  {
    var sorted := ByTime(tasks);
    var t, u := sorted[x], sorted[y];
    var c := t.createdAt;
    ByTimeExact(tasks, c);
    hide ByTime, CreatedAt;
    if u.createdAt == c {
      var p, q := CreatedAtFrom(sorted, c, x, y);
      var i, j := CreatedAtBack(tasks, c, p, q);
    } else {
      assert t in tasks && u in tasks;
      var i :| 0 <= i < |tasks| && tasks[i] == t;
      var j :| 0 <= j < |tasks| && tasks[j] == u;
    }
  }

  /** So does anything that picks from the sorted tasks without reordering them. */
  lemma PickedEarlier(tasks: seq<Task>, picked: seq<Task>, i: nat, j: nat)
    requires Subsequence(picked, ByTime(tasks)) && i < j < |picked|
    ensures Earlier(tasks, picked[i], picked[j])
  {
    hide ByTime, Subsequence;
    var x, y := SubsequenceOrder(picked, ByTime(tasks), i, j);
    SortedEarlier(tasks, x, y);
  }

  lemma {:induction false} SubsequenceTrans<T>(a: seq<T>, b: seq<T>, c: seq<T>)
    requires Subsequence(a, b) && Subsequence(b, c)
    ensures Subsequence(a, c)
    decreases |b| + |c|
  {
    if a != [] {
      var n := |c| - 1;
      if Subsequence(b, c[..n]) {
        SubsequenceTrans(a, b, c[..n]);
      } else if Subsequence(a, b[..|b| - 1]) {
        SubsequenceTrans(a, b[..|b| - 1], c[..n]);
      } else {
        SubsequenceTrans(a[..|a| - 1], b[..|b| - 1], c[..n]);
      }
    }
  }

  // -------------------------------------------------------------------- the plan

  lemma ReadyIff(tasks: seq<Task>, t: Task)
    requires UniqueIds(tasks) && t in tasks
    ensures t in Candidates(ByTime(tasks), MarkSet(tasks)) <==> Ready(tasks, t)
  {
    var sorted := ByTime(tasks);
    ByTimeExact(tasks, 0);
    CandidatesExact(sorted, MarkSet(tasks), t);
    MarksExact(sorted, DoneIds(tasks), t.id);
    DoneIff(tasks, t);
    hide ByTime, Candidates, Marks, DependenciesDone, DepsIn, DoneIds;
    if u :| u in sorted && u.id == t.id && u.state.Blocked? && DepsIn(u, DoneIds(tasks)) { SameTask(tasks, t, u); }
  }

  lemma DoneIff(tasks: seq<Task>, t: Task)
    ensures DepsIn(t, DoneIds(tasks)) <==> DependenciesDone(tasks, t)
  {}

  lemma SameTask(tasks: seq<Task>, t: Task, u: Task)
    requires UniqueIds(tasks) && t in tasks && u in tasks && t.id == u.id
    ensures t == u
  {
    ViewAt(tasks, t);
    ViewAt(tasks, u);
  }

  lemma MarkIff(tasks: seq<Task>, id: TaskId)
    ensures id in Marks(ByTime(tasks), DoneIds(tasks))
            <==> exists t | t in tasks :: t.id == id && t.state == Blocked && DependenciesDone(tasks, t)
  {
    var sorted, done := ByTime(tasks), DoneIds(tasks);
    ByTimeExact(tasks, 0);
    MarksExact(sorted, done, id);
    forall t: Task ensures DepsIn(t, done) <==> DependenciesDone(tasks, t) { DoneIff(tasks, t); }
    hide ByTime, Marks, DependenciesDone, DepsIn, DoneIds, CreatedAt;
  }

  /** The tasks with these ids come in this order. */
  ghost predicate EarlierId(tasks: seq<Task>, x: TaskId, y: TaskId) {
    exists t, u | t in tasks && u in tasks :: t.id == x && u.id == y && Earlier(tasks, t, u)
  }

  lemma MarkEarlier(tasks: seq<Task>, i: nat, j: nat)
    requires i < j < |Marks(ByTime(tasks), DoneIds(tasks))|
    ensures var marks := Marks(ByTime(tasks), DoneIds(tasks));
            EarlierId(tasks, marks[i], marks[j])
  {
    var sorted := ByTime(tasks);
    MarksOrder(sorted, DoneIds(tasks));
    ByTimeExact(tasks, 0);
    hide ByTime, Marks, Subsequence, Earlier, CreatedAt, DoneIds;
    var x, y := SubsequenceOrder(Marks(sorted, DoneIds(tasks)), IdsInOrder(sorted), i, j);
    SortedEarlier(tasks, x, y);
    assert sorted[x] in tasks && sorted[y] in tasks;
  }

  /** The marks: exactly the blocked tasks whose dependencies are all done, once each, in creation order. */
  lemma PlanMarks(tasks: seq<Task>, idle: set<AgentId>)
    requires UniqueIds(tasks)
    ensures var marks := Plan(tasks, idle).markUnassigned;
            && Distinct(marks)
            && (forall id :: id in marks <==> exists t | t in tasks :: t.id == id && t.state == Blocked && DependenciesDone(tasks, t))
            && forall i, j | 0 <= i < j < |marks| :: EarlierId(tasks, marks[i], marks[j])
  {
    var marks := Marks(ByTime(tasks), DoneIds(tasks));
    ByTimeUnique(tasks);
    MarksDistinct(ByTime(tasks), DoneIds(tasks));
    assert Plan(tasks, idle).markUnassigned == marks;
    hide ByTime, Marks, EarlierId, UniqueIds, DependenciesDone, DoneIds, Plan;
    forall id
      ensures id in marks <==> exists t | t in tasks :: t.id == id && t.state == Blocked && DependenciesDone(tasks, t)
    {
      MarkIff(tasks, id);
    }
    forall i, j | 0 <= i < j < |marks|
      ensures EarlierId(tasks, marks[i], marks[j])
    {
      MarkEarlier(tasks, i, j);
    }
  }

  lemma PlanOrder(tasks: seq<Task>, idle: set<AgentId>)
    requires UniqueIds(tasks)
    ensures Subsequence(Picked(tasks, idle), ByTime(tasks))
  {
    var sorted := ByTime(tasks);
    var candidates := Candidates(sorted, MarkSet(tasks));
    CandidatesOrder(sorted, MarkSet(tasks));
    GreedyOrder(candidates, idle, InFlight(tasks));
    hide ByTime, Candidates, Greedy, Subsequence;
    SubsequenceTrans(Greedy(candidates, idle, InFlight(tasks)), candidates, sorted);
  }

  /** The decision `d` is for the stored task `t`, which its idle owner may start. */
  ghost predicate Dispatches(tasks: seq<Task>, idle: set<AgentId>, d: Decision, t: Task) {
    t in tasks && d.taskId == t.id && t.owner == Some(d.ownerId) && d.ownerId in idle && Ready(tasks, t)
  }

  lemma DecisionOf(tasks: seq<Task>, idle: set<AgentId>, k: nat)
    requires UniqueIds(tasks) && k < |Plan(tasks, idle).dispatch|
    ensures k < |Picked(tasks, idle)|
    ensures Dispatches(tasks, idle, Plan(tasks, idle).dispatch[k], Picked(tasks, idle)[k])
  {
    var picked := Picked(tasks, idle);
    hide Picked, Decisions;
    forall t | t in picked ensures t.owner.Some? { PickedFacts(tasks, idle, t); }
    DecisionsExact(picked);
    var t := picked[k];
    PickedFacts(tasks, idle, t);
    DoneIff(tasks, t);
    hide DependenciesDone, DepsIn;
  }

  /**
   * The dispatches: ready tasks with idle owners, no two of one owner or with a common path, none with
   * a path of an assigned task, in creation order.
   */
  lemma PlanDispatch(tasks: seq<Task>, idle: set<AgentId>)
    requires UniqueIds(tasks)
    ensures var dispatch := Plan(tasks, idle).dispatch;
            && (forall d | d in dispatch ::
                  exists t | Dispatches(tasks, idle, d, t) ::
                    forall a | a in tasks && a.state == Assigned :: !Overlap(t.writes, a.writes))
            && forall i, j | 0 <= i < j < |dispatch| ::
                 && dispatch[i].ownerId != dispatch[j].ownerId
                 && exists t, u | Dispatches(tasks, idle, dispatch[i], t) && Dispatches(tasks, idle, dispatch[j], u) ::
                      Earlier(tasks, t, u) && !Overlap(t.writes, u.writes)
  {
    var dispatch, picked := Plan(tasks, idle).dispatch, Picked(tasks, idle);
    PlanOrder(tasks, idle);
    hide Plan, Picked, Subsequence, Earlier, Dispatches, UniqueIds, ByTime;
    forall d | d in dispatch
      ensures exists t | Dispatches(tasks, idle, d, t) ::
                forall a | a in tasks && a.state == Assigned :: !Overlap(t.writes, a.writes)
    {
      var k :| 0 <= k < |dispatch| && dispatch[k] == d;
      DecisionOf(tasks, idle, k);
      PickedFacts(tasks, idle, picked[k]);
    }
    forall i, j | 0 <= i < j < |dispatch|
      ensures dispatch[i].ownerId != dispatch[j].ownerId
      ensures exists t, u | Dispatches(tasks, idle, dispatch[i], t) && Dispatches(tasks, idle, dispatch[j], u) ::
                Earlier(tasks, t, u) && !Overlap(t.writes, u.writes)
    {
      DecisionOf(tasks, idle, i);
      DecisionOf(tasks, idle, j);
      PickedApart(tasks, idle, i, j);
      PickedEarlier(tasks, picked, i, j);
      OwnersOf(tasks, idle, dispatch[i], picked[i]);
      OwnersOf(tasks, idle, dispatch[j], picked[j]);
    }
  }

  lemma OwnersOf(tasks: seq<Task>, idle: set<AgentId>, d: Decision, t: Task)
    requires Dispatches(tasks, idle, d, t)
    ensures t.owner == Some(d.ownerId)
  {}

  /** What keeps a ready task with an idle owner out of a plan: an assigned task, or an earlier dispatch. */
  ghost predicate InTheWay(tasks: seq<Task>, idle: set<AgentId>, t: Task) {
    || (exists a | a in tasks :: a.state == Assigned && Overlap(t.writes, a.writes))
    || exists u, d | d in Plan(tasks, idle).dispatch && Dispatches(tasks, idle, d, u) ::
         Earlier(tasks, u, t) && (u.owner == t.owner || Overlap(t.writes, u.writes))
  }

  /** A ready task whose owner is idle is dispatched, or something is in its way. */
  lemma PlanLeavesOut(tasks: seq<Task>, idle: set<AgentId>, t: Task)
    requires UniqueIds(tasks) && t in tasks && Ready(tasks, t) && t.owner.Some? && t.owner.value in idle
    ensures Decision(t.id, t.owner.value) in Plan(tasks, idle).dispatch || InTheWay(tasks, idle, t)
  {
    var candidates, inflight := Candidates(ByTime(tasks), MarkSet(tasks)), InFlight(tasks);
    ReadyIff(tasks, t);
    var n :| 0 <= n < |candidates| && candidates[n] == t;
    var before, picked := Greedy(candidates[..n], idle, inflight), Picked(tasks, idle);
    GreedyMaximal(candidates, idle, inflight, n);
    assert before <= picked && (before + [t] <= picked || Excused(candidates, idle, inflight, n));
    hide ByTime, Candidates, Greedy, Ready, UniqueIds, Plan, InTheWay, Picked, Excused, InFlight, MarkSet;
    if before + [t] <= picked {
      assert picked[|before|] == t;
      DispatchedAt(tasks, idle, |before|, t);
    } else {
      ExcusedInTheWay(tasks, idle, n);
    }
  }

  lemma ExcusedInTheWay(tasks: seq<Task>, idle: set<AgentId>, n: nat)
    requires UniqueIds(tasks)
    requires var candidates := Candidates(ByTime(tasks), MarkSet(tasks));
             && n < |candidates| && candidates[n].owner.Some? && candidates[n].owner.value in idle
             && Excused(candidates, idle, InFlight(tasks), n)
             && Greedy(candidates[..n], idle, InFlight(tasks)) <= Picked(tasks, idle)
    ensures InTheWay(tasks, idle, Candidates(ByTime(tasks), MarkSet(tasks))[n])
  {
    var candidates, inflight := Candidates(ByTime(tasks), MarkSet(tasks)), InFlight(tasks);
    var t, before := candidates[n], Greedy(candidates[..n], idle, inflight);
    hide ByTime, Candidates, Greedy, UniqueIds, Plan, InTheWay, Picked, InFlight, MarkSet, Overlap;
    if ConflictsWithAny(t.writes, inflight) {
      var w :| w in inflight && Overlap(t.writes, w);
      InFlightExact(tasks, w);
      AssignedInTheWay(tasks, idle, t);
    } else {
      var u :| u in before && (u.owner == t.owner || Overlap(t.writes, u.writes));
      var k :| 0 <= k < |before| && before[k] == u;
      assert Picked(tasks, idle)[k] == u;
      PickedFacts(tasks, idle, u);
      BeforeInCandidates(tasks, idle, n, u);
      DispatchInTheWay(tasks, idle, t, k);
    }
  }

  lemma DispatchedAt(tasks: seq<Task>, idle: set<AgentId>, k: nat, t: Task)
    requires UniqueIds(tasks) && k < |Picked(tasks, idle)| && Picked(tasks, idle)[k] == t && t.owner.Some?
    ensures k < |Plan(tasks, idle).dispatch| && Plan(tasks, idle).dispatch[k] == Decision(t.id, t.owner.value)
  {
    var picked := Picked(tasks, idle);
    hide Picked, Decisions;
    forall t | t in picked ensures t.owner.Some? { PickedFacts(tasks, idle, t); }
    DecisionsExact(picked);
  }

  lemma AssignedInTheWay(tasks: seq<Task>, idle: set<AgentId>, t: Task)
    requires exists a | a in tasks :: a.state == Assigned && Overlap(t.writes, a.writes)
    ensures InTheWay(tasks, idle, t)
  {
    hide Overlap, Plan, Earlier, Dispatches;
  }

  /** What the greedy loop had picked when it came to candidate `n` is earlier than that candidate. */
  lemma BeforeInCandidates(tasks: seq<Task>, idle: set<AgentId>, n: nat, u: Task)
    requires var candidates := Candidates(ByTime(tasks), MarkSet(tasks));
             n < |candidates| && u in Greedy(candidates[..n], idle, InFlight(tasks))
    ensures Earlier(tasks, u, Candidates(ByTime(tasks), MarkSet(tasks))[n])
  {
    var candidates := Candidates(ByTime(tasks), MarkSet(tasks));
    GreedyCompatible(candidates[..n], idle, InFlight(tasks));
    CandidatesOrder(ByTime(tasks), MarkSet(tasks));
    hide ByTime, Candidates, Greedy, Subsequence, Earlier;
    var m :| 0 <= m < n && candidates[m] == u;
    PickedEarlier(tasks, candidates, m, n);
  }

  lemma DispatchInTheWay(tasks: seq<Task>, idle: set<AgentId>, t: Task, k: nat)
    requires UniqueIds(tasks) && k < |Picked(tasks, idle)|
    requires var u := Picked(tasks, idle)[k];
             u.owner.Some? && Earlier(tasks, u, t) && (u.owner == t.owner || Overlap(t.writes, u.writes))
    ensures InTheWay(tasks, idle, t)
  {
    var u := Picked(tasks, idle)[k];
    hide Picked, Plan, Earlier, Overlap, Dispatches;
    DispatchedAt(tasks, idle, k, u);
    DecisionOf(tasks, idle, k);
    assert Plan(tasks, idle).dispatch[k] in Plan(tasks, idle).dispatch;
  }
}
