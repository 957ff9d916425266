/**
 * The planner (task-server/scheduler.ts, intent-graph.ts): which blocked tasks become unassigned and
 * which tasks are pushed to their owners, given the stored tasks and the agents that are idle.
 */
module Scheduler {
  import opened Common
  import opened Tasks

  datatype Decision = Decision(taskId: TaskId, ownerId: AgentId)
  datatype SchedulerPlan = SchedulerPlan(markUnassigned: seq<TaskId>, dispatch: seq<Decision>)

  // ------------------------------------------------------------ write intents

  predicate Overlap(a: seq<Path>, b: seq<Path>) {
    exists p | p in a :: p in b
  }

  /** The first path of `b` that `a` writes too. */
  method WritesOverlap(a: seq<Path>, b: seq<Path>) returns (conflict: Option<Path>)
    ensures conflict.Some? <==> Overlap(a, b)
    ensures conflict.None? <==> forall p | p in b :: p !in a
    ensures conflict.Some? ==>
              exists k | 0 <= k < |b| :: conflict.value == b[k] && b[k] in a && forall j | 0 <= j < k :: b[j] !in a
  {
    if |a| == 0 || |b| == 0 { return None; }
    var i := 0;
    while i < |b|
      invariant 0 <= i <= |b|
      invariant forall j | 0 <= j < i :: b[j] !in a
    {
      if b[i] in a { return Some(b[i]); }
      i := i + 1;
    }
    return None;
  }

  predicate ConflictsWithAny(writes: seq<Path>, others: seq<seq<Path>>) {
    exists other | other in others :: Overlap(writes, other)
  }

  method CheckConflicts(writes: seq<Path>, others: seq<seq<Path>>) returns (r: bool)
    ensures r == ConflictsWithAny(writes, others)
    ensures r <==> exists p, other | other in others :: p in writes && p in other
  {
    var i := 0;
    while i < |others|
      invariant 0 <= i <= |others|
      invariant forall j | 0 <= j < i :: !Overlap(writes, others[j])
    {
      var conflict := WritesOverlap(writes, others[i]);
      if conflict.Some? {
        assert others[i] in others;
        return true;
      }
      i := i + 1;
    }
    return false;
  }

  // ------------------------------------------- the stable order by creation time

  function InsertByTime(t: Task, s: seq<Task>): seq<Task> {
    if s != [] && s[0].createdAt < t.createdAt then [s[0]] + InsertByTime(t, s[1..]) else [t] + s
  }

  /** A stable sort by creation time. */
  function ByTime(tasks: seq<Task>): seq<Task> {
    if tasks == [] then [] else InsertByTime(tasks[0], ByTime(tasks[1..]))
  }

  function CreatedAt(tasks: seq<Task>, c: int): seq<Task> {
    if tasks == [] then []
    else (if tasks[0].createdAt == c then [tasks[0]] else []) + CreatedAt(tasks[1..], c)
  }

  predicate InTimeOrder(s: seq<Task>) {
    forall i, j | 0 <= i < j < |s| :: s[i].createdAt <= s[j].createdAt
  }

  lemma {:induction false} InsertByTimeElements(t: Task, s: seq<Task>)
    ensures multiset(InsertByTime(t, s)) == multiset([t] + s)
    ensures forall u :: u in InsertByTime(t, s) <==> u == t || u in s
  {
    if s != [] && s[0].createdAt < t.createdAt {
      InsertByTimeElements(t, s[1..]);
      assert s == [s[0]] + s[1..];
      assert multiset([t] + s[1..]) == multiset{t} + multiset(s[1..]);
    }
  }

  lemma {:induction false} InsertByTimeOrdered(t: Task, s: seq<Task>)
    requires InTimeOrder(s)
    ensures InTimeOrder(InsertByTime(t, s))
  {
    if s != [] && s[0].createdAt < t.createdAt {
      InsertByTimeOrdered(t, s[1..]);
      InsertByTimeElements(t, s[1..]);
      var rest := InsertByTime(t, s[1..]);
      forall u | u in rest ensures s[0].createdAt <= u.createdAt {}
      assert InsertByTime(t, s) == [s[0]] + rest;
    }
  }

  lemma {:induction false} InsertByTimeStable(t: Task, s: seq<Task>, c: int)
    requires InTimeOrder(s)
    ensures CreatedAt(InsertByTime(t, s), c) == CreatedAt([t] + s, c)
  {
    assert ([t] + s)[1..] == s;
    if s != [] && s[0].createdAt < t.createdAt {
      InsertByTimeStable(t, s[1..], c);
      assert ([t] + s[1..])[1..] == s[1..];
      var rest := InsertByTime(t, s[1..]);
      assert ([s[0]] + rest)[1..] == rest;
    }
  }

  /** Sorting keeps every task, orders by time, and keeps the stored order among equal times. */
  lemma {:induction false} ByTimeExact(tasks: seq<Task>, c: int)
    ensures InTimeOrder(ByTime(tasks))
    ensures multiset(ByTime(tasks)) == multiset(tasks)
    ensures CreatedAt(ByTime(tasks), c) == CreatedAt(tasks, c)
    ensures forall u :: u in ByTime(tasks) <==> u in tasks
  {
    if tasks != [] {
      ByTimeExact(tasks[1..], c);
      InsertByTimeElements(tasks[0], ByTime(tasks[1..]));
      InsertByTimeOrdered(tasks[0], ByTime(tasks[1..]));
      InsertByTimeStable(tasks[0], ByTime(tasks[1..]), c);
      assert tasks == [tasks[0]] + tasks[1..];
      assert ([tasks[0]] + ByTime(tasks[1..]))[1..] == ByTime(tasks[1..]);
    }
  }

  // -------------------------------------------------------------------- the plan

  function DoneIds(tasks: seq<Task>): set<TaskId> {
    set t | t in tasks && t.state.Done? :: t.id
  }

  predicate DepsIn(t: Task, done: set<TaskId>) {
    forall d | d in t.dependsOn :: d in done
  }

  function Marks(sorted: seq<Task>, done: set<TaskId>): seq<TaskId> {
    if sorted == [] then []
    else
      var t := sorted[|sorted| - 1];
      Marks(sorted[..|sorted| - 1], done) + if t.state.Blocked? && DepsIn(t, done) then [t.id] else []
  }

  function InFlight(tasks: seq<Task>): seq<seq<Path>> {
    if tasks == [] then []
    else
      var t := tasks[|tasks| - 1];
      InFlight(tasks[..|tasks| - 1]) + if t.state.Assigned? then [t.writes] else []
  }

  function Candidates(sorted: seq<Task>, marked: set<TaskId>): seq<Task> {
    if sorted == [] then []
    else
      var t := sorted[|sorted| - 1];
      Candidates(sorted[..|sorted| - 1], marked) + if t.state.Unassigned? || t.id in marked then [t] else []
  }

  /** May `t` be dispatched besides the tasks already picked? */
  predicate Fits(t: Task, picked: seq<Task>, idle: set<AgentId>, inflight: seq<seq<Path>>) {
    && t.owner.Some? && t.owner.value in idle
    && (forall u | u in picked :: u.owner != t.owner)
    && !ConflictsWithAny(t.writes, inflight)
    && (forall u | u in picked :: !Overlap(t.writes, u.writes))
  }

  function Greedy(candidates: seq<Task>, idle: set<AgentId>, inflight: seq<seq<Path>>): seq<Task> {
    if candidates == [] then []
    else
      var t := candidates[|candidates| - 1];
      var picked := Greedy(candidates[..|candidates| - 1], idle, inflight);
      if Fits(t, picked, idle, inflight) then picked + [t] else picked
  }

  function Decisions(picked: seq<Task>): seq<Decision> {
    if picked == [] then []
    else
      var t := picked[|picked| - 1];
      Decisions(picked[..|picked| - 1]) + match t.owner case Some(o) => [Decision(t.id, o)] case None => []
  }

  function MarkSet(tasks: seq<Task>): set<TaskId> {
    set id | id in Marks(ByTime(tasks), DoneIds(tasks))
  }

  /** The tasks the plan dispatches, in dispatch order. */
  function Picked(tasks: seq<Task>, idle: set<AgentId>): seq<Task> {
    Greedy(Candidates(ByTime(tasks), MarkSet(tasks)), idle, InFlight(tasks))
  }

  function Plan(tasks: seq<Task>, idle: set<AgentId>): SchedulerPlan {
    SchedulerPlan(Marks(ByTime(tasks), DoneIds(tasks)), Decisions(Picked(tasks, idle)))
  }

  method ComputePlan(tasks: seq<Task>, idle: set<AgentId>) returns (plan: SchedulerPlan)
    ensures plan == Plan(tasks, idle)
  {
    var done := set t | t in tasks && t.state.Done? :: t.id;
    var inflightWrites := CollectInFlight(tasks);
    var sorted := ByTime(tasks);
    var markUnassigned := CollectMarks(sorted, done);
    var unassigned := set id | id in markUnassigned;
    var dispatchable := CollectCandidates(sorted, unassigned);
    var dispatch := Dispatch(dispatchable, idle, inflightWrites);
    plan := SchedulerPlan(markUnassigned, dispatch);
  }

  method CollectInFlight(tasks: seq<Task>) returns (writes: seq<seq<Path>>)
    ensures writes == InFlight(tasks)
  {
    writes := [];
    var i := 0;
    while i < |tasks|
      invariant 0 <= i <= |tasks|
      invariant writes == InFlight(tasks[..i])
    {
      assert tasks[..i + 1][..i] == tasks[..i];
      if tasks[i].state == Assigned { writes := writes + [tasks[i].writes]; }
      i := i + 1;
    }
    assert tasks[..i] == tasks;
  }

  method CollectMarks(sorted: seq<Task>, done: set<TaskId>) returns (marks: seq<TaskId>)
    ensures marks == Marks(sorted, done)
  {
    marks := [];
    var i := 0;
    while i < |sorted|
      invariant 0 <= i <= |sorted|
      invariant marks == Marks(sorted[..i], done)
    {
      assert sorted[..i + 1][..i] == sorted[..i];
      var task := sorted[i];
      if task.state == Blocked && forall d | d in task.dependsOn :: d in done {
        marks := marks + [task.id];
      }
      i := i + 1;
    }
    assert sorted[..i] == sorted;
  }

  method CollectCandidates(sorted: seq<Task>, unassigned: set<TaskId>) returns (candidates: seq<Task>)
    ensures candidates == Candidates(sorted, unassigned)
  {
    candidates := [];
    var i := 0;
    while i < |sorted|
      invariant 0 <= i <= |sorted|
      invariant candidates == Candidates(sorted[..i], unassigned)
    {
      assert sorted[..i + 1][..i] == sorted[..i];
      if sorted[i].state == Unassigned || sorted[i].id in unassigned {
        candidates := candidates + [sorted[i]];
      }
      i := i + 1;
    }
    assert sorted[..i] == sorted;
  }

  /** `reserved` and `projected` are the owners and the writes of the picked tasks, besides what is in flight. */
  ghost predicate Tracks(picked: seq<Task>, reserved: set<AgentId>, projected: seq<seq<Path>>, inflight: seq<seq<Path>>) {
    && (forall u | u in picked :: u.owner.Some? && u.owner.value in reserved)
    && (forall o | o in reserved :: exists u | u in picked :: u.owner == Some(o))
    && (forall w :: w in projected <==> w in inflight || exists u | u in picked :: u.writes == w)
  }

  lemma TrackedFit(t: Task, picked: seq<Task>, idle: set<AgentId>, reserved: set<AgentId>,
                   projected: seq<seq<Path>>, inflight: seq<seq<Path>>)
    requires Tracks(picked, reserved, projected, inflight)
    ensures Fits(t, picked, idle, inflight) <==>
            t.owner.Some? && t.owner.value !in reserved && t.owner.value in idle && !ConflictsWithAny(t.writes, projected)
  {
    if ConflictsWithAny(t.writes, projected) {
      var w :| w in projected && Overlap(t.writes, w);
    } else {
      forall w | w in inflight ensures !Overlap(t.writes, w) { assert w in projected; }
      forall u | u in picked ensures !Overlap(t.writes, u.writes) { assert u.writes in projected; }
    }
  }

  lemma TracksMore(t: Task, picked: seq<Task>, reserved: set<AgentId>, projected: seq<seq<Path>>, inflight: seq<seq<Path>>)
    requires Tracks(picked, reserved, projected, inflight) && t.owner.Some?
    ensures Tracks(picked + [t], reserved + {t.owner.value}, projected + [t.writes], inflight)
  {
    assert forall u :: u in picked + [t] <==> u in picked || u == t;
    assert forall w :: w in projected + [t.writes] <==> w in projected || w == t.writes;
  }

  method Dispatch(candidates: seq<Task>, idle: set<AgentId>, inflight: seq<seq<Path>>) returns (dispatch: seq<Decision>)
    ensures dispatch == Decisions(Greedy(candidates, idle, inflight))
  {
    dispatch := [];
    var reserved: set<AgentId> := {};
    var projected := inflight;
    ghost var picked: seq<Task> := [];
    var i := 0;
    while i < |candidates|
      invariant 0 <= i <= |candidates|
      invariant picked == Greedy(candidates[..i], idle, inflight)
      invariant dispatch == Decisions(picked)
      invariant Tracks(picked, reserved, projected, inflight)
    {
      var task := candidates[i];
      assert candidates[..i + 1][..i] == candidates[..i];
      TrackedFit(task, picked, idle, reserved, projected, inflight);
      hide Fits, Tracks, ConflictsWithAny;
      i := i + 1;
      if task.owner.None? { continue; }
      if task.owner.value in reserved { continue; }
      if task.owner.value !in idle { continue; }
      var conflict := CheckConflicts(task.writes, projected);
      if conflict { continue; }
      TracksMore(task, picked, reserved, projected, inflight);
      dispatch := dispatch + [Decision(task.id, task.owner.value)];
      reserved := reserved + {task.owner.value};
      projected := projected + [task.writes];
      assert (picked + [task])[..|picked|] == picked;
      picked := picked + [task];
    }
    assert candidates[..i] == candidates;
  }

  // ------------------------------------------------------------- what a plan is

  lemma {:induction false} MarksExact(sorted: seq<Task>, done: set<TaskId>, id: TaskId)
    ensures id in Marks(sorted, done) <==> exists t | t in sorted :: t.id == id && t.state.Blocked? && DepsIn(t, done)
  {
    if sorted != [] {
      var k := |sorted| - 1;
      MarksExact(sorted[..k], done, id);
      assert forall t :: t in sorted <==> t in sorted[..k] || t == sorted[k];
    }
  }

  lemma {:induction false} InFlightExact(tasks: seq<Task>, w: seq<Path>)
    ensures w in InFlight(tasks) <==> exists t | t in tasks :: t.state.Assigned? && t.writes == w
  {
    if tasks != [] {
      var k := |tasks| - 1;
      InFlightExact(tasks[..k], w);
      assert forall t :: t in tasks <==> t in tasks[..k] || t == tasks[k];
    }
  }

  lemma {:induction false} CandidatesOrder(sorted: seq<Task>, marked: set<TaskId>)
    ensures Subsequence(Candidates(sorted, marked), sorted)
  {
    if sorted != [] {
      var k := |sorted| - 1;
      CandidatesOrder(sorted[..k], marked);
      SubsequenceKeep(Candidates(sorted[..k], marked), sorted[..k], sorted[k]);
      assert Candidates(sorted[..k], marked) + [] == Candidates(sorted[..k], marked) && sorted[..k] + [sorted[k]] == sorted;
    }
  }

  function IdsInOrder(tasks: seq<Task>): seq<TaskId> {
    seq(|tasks|, i requires 0 <= i < |tasks| => tasks[i].id)
  }

  lemma {:induction false} MarksOrder(sorted: seq<Task>, done: set<TaskId>)
    ensures Subsequence(Marks(sorted, done), IdsInOrder(sorted))
  {
    if sorted != [] {
      var k := |sorted| - 1;
      MarksOrder(sorted[..k], done);
      SubsequenceKeep(Marks(sorted[..k], done), IdsInOrder(sorted[..k]), sorted[k].id);
      assert Marks(sorted[..k], done) + [] == Marks(sorted[..k], done);
      assert IdsInOrder(sorted) == IdsInOrder(sorted[..k]) + [sorted[k].id];
    }
  }

  lemma {:induction false} GreedyOrder(candidates: seq<Task>, idle: set<AgentId>, inflight: seq<seq<Path>>)
    ensures Subsequence(Greedy(candidates, idle, inflight), candidates)
  {
    if candidates != [] {
      var k := |candidates| - 1;
      GreedyOrder(candidates[..k], idle, inflight);
      hide Fits;
      SubsequenceKeep(Greedy(candidates[..k], idle, inflight), candidates[..k], candidates[k]);
      assert candidates[..k] + [candidates[k]] == candidates;
    }
  }

  lemma {:induction false} CandidatesExact(sorted: seq<Task>, marked: set<TaskId>, t: Task)
    ensures t in Candidates(sorted, marked) <==> t in sorted && (t.state.Unassigned? || t.id in marked)
    ensures Subsequence(Candidates(sorted, marked), sorted)
  {
    hide Subsequence;
    CandidatesOrder(sorted, marked);
    if sorted != [] {
      var k := |sorted| - 1;
      CandidatesExact(sorted[..k], marked, t);
      assert t in sorted <==> t in sorted[..k] || t == sorted[k];
    }
  }

  /** Each pick is a candidate with an idle owner; no two share an owner or a write; none writes what is in flight. */
  ghost predicate Compatible(picked: seq<Task>, candidates: seq<Task>, idle: set<AgentId>, inflight: seq<seq<Path>>) {
    && (forall t | t in picked :: t in candidates && t.owner.Some? && t.owner.value in idle
                                  && !ConflictsWithAny(t.writes, inflight))
    && (forall i, j | 0 <= i < j < |picked| :: picked[i].owner != picked[j].owner
                                               && !Overlap(picked[i].writes, picked[j].writes))
  }

  lemma OverlapSymmetric(a: seq<Path>, b: seq<Path>)
    ensures Overlap(a, b) == Overlap(b, a)
  {}

  lemma {:induction false} GreedyCompatible(candidates: seq<Task>, idle: set<AgentId>, inflight: seq<seq<Path>>)
    ensures Compatible(Greedy(candidates, idle, inflight), candidates, idle, inflight)
  {
    if candidates != [] {
      var k := |candidates| - 1;
      GreedyCompatible(candidates[..k], idle, inflight);
      var before := Greedy(candidates[..k], idle, inflight);
      var t := candidates[k];
      if Fits(t, before, idle, inflight) {
        var picked := before + [t];
        forall i, j | 0 <= i < j < |picked|
          ensures picked[i].owner != picked[j].owner && !Overlap(picked[i].writes, picked[j].writes)
        {
          if j == k || j == |before| {
            assert picked[i] in before;
            OverlapSymmetric(picked[i].writes, t.writes);
          }
        }
      }
    }
  }

  lemma {:induction false} GreedyGrows(candidates: seq<Task>, idle: set<AgentId>, inflight: seq<seq<Path>>, n: nat)
    requires n <= |candidates|
    ensures Greedy(candidates[..n], idle, inflight) <= Greedy(candidates, idle, inflight)
  {
    if n < |candidates| {
      assert candidates[..|candidates| - 1][..n] == candidates[..n];
      GreedyGrows(candidates[..|candidates| - 1], idle, inflight, n);
    } else {
      assert candidates[..n] == candidates;
    }
  }

  /** Why a candidate is not dispatched: no idle owner, or in the way of a task in flight or dispatched before it. */
  ghost predicate Excused(candidates: seq<Task>, idle: set<AgentId>, inflight: seq<seq<Path>>, n: nat)
    requires n < |candidates|
  {
    var t := candidates[n];
    || t.owner.None?
    || t.owner.value !in idle
    || ConflictsWithAny(t.writes, inflight)
    || exists u | u in Greedy(candidates[..n], idle, inflight) :: u.owner == t.owner || Overlap(t.writes, u.writes)
  }

  /**
   * Greedy maximality: every candidate is dispatched or excused by what came before it, so no
   * further candidate fits beside the dispatched ones.
   */
  lemma GreedyMaximal(candidates: seq<Task>, idle: set<AgentId>, inflight: seq<seq<Path>>, n: nat)
    requires n < |candidates|
    ensures Greedy(candidates[..n], idle, inflight) <= Greedy(candidates, idle, inflight)
    ensures Greedy(candidates[..n], idle, inflight) + [candidates[n]] <= Greedy(candidates, idle, inflight)
            || Excused(candidates, idle, inflight, n)
    ensures candidates[n] in Greedy(candidates, idle, inflight)
            || !Fits(candidates[n], Greedy(candidates, idle, inflight), idle, inflight)
  {
    GreedyGrows(candidates, idle, inflight, n);
    GreedyGrows(candidates, idle, inflight, n + 1);
    assert candidates[..n + 1][..n] == candidates[..n];
    var before, all := Greedy(candidates[..n], idle, inflight), Greedy(candidates, idle, inflight);
    assert forall u | u in before :: u in all;
    if Fits(candidates[n], before, idle, inflight) {
      assert before + [candidates[n]] <= all;
      assert all[|before|] == candidates[n];
    }
  }

  /** One task per idle owner: the decisions name the picked tasks and their owners, in order. */
  lemma {:induction false} DecisionsExact(picked: seq<Task>)
    requires forall t | t in picked :: t.owner.Some?
    ensures |Decisions(picked)| == |picked|
    ensures forall k | 0 <= k < |picked| :: Decisions(picked)[k] == Decision(picked[k].id, picked[k].owner.value)
  {
    if picked != [] {
      var n := |picked| - 1;
      assert picked[n] in picked;
      assert forall t | t in picked[..n] :: t in picked;
      DecisionsExact(picked[..n]);
    }
  }

  lemma {:induction false} InsertByTimeUnique(t: Task, s: seq<Task>)
    requires UniqueIds(s) && forall u | u in s :: u.id != t.id
    ensures UniqueIds(InsertByTime(t, s))
  {
    if s != [] && s[0].createdAt < t.createdAt {
      InsertByTimeUnique(t, s[1..]);
      InsertByTimeElements(t, s[1..]);
      var rest := InsertByTime(t, s[1..]);
      forall u | u in rest ensures u.id != s[0].id {
        if u != t { var k :| 0 <= k < |s[1..]| && s[1..][k] == u; }
      }
      assert InsertByTime(t, s) == [s[0]] + rest;
    }
  }

  lemma {:induction false} ByTimeUnique(tasks: seq<Task>)
    requires UniqueIds(tasks)
    ensures UniqueIds(ByTime(tasks))
  {
    if tasks != [] {
      ByTimeUnique(tasks[1..]);
      ByTimeExact(tasks[1..], 0);
      forall u | u in ByTime(tasks[1..]) ensures u.id != tasks[0].id {
        var k :| 0 <= k < |tasks[1..]| && tasks[1..][k] == u;
      }
      InsertByTimeUnique(tasks[0], ByTime(tasks[1..]));
    }
  }

  lemma {:induction false} MarksDistinct(sorted: seq<Task>, done: set<TaskId>)
    requires UniqueIds(sorted)
    ensures Distinct(Marks(sorted, done))
  {
    if sorted != [] {
      var k := |sorted| - 1;
      MarksDistinct(sorted[..k], done);
      MarksExact(sorted[..k], done, sorted[k].id);
    }
  }

  lemma {:induction false} CandidatesUnique(sorted: seq<Task>, marked: set<TaskId>)
    requires UniqueIds(sorted)
    ensures UniqueIds(Candidates(sorted, marked))
  {
    if sorted != [] {
      var k := |sorted| - 1;
      CandidatesUnique(sorted[..k], marked);
      forall t | t in Candidates(sorted[..k], marked) ensures t.id != sorted[k].id {
        CandidatesExact(sorted[..k], marked, t);
      }
    }
  }

  lemma {:induction false} GreedyUnique(candidates: seq<Task>, idle: set<AgentId>, inflight: seq<seq<Path>>)
    requires UniqueIds(candidates)
    ensures UniqueIds(Greedy(candidates, idle, inflight))
  {
    if candidates != [] {
      var k := |candidates| - 1;
      GreedyUnique(candidates[..k], idle, inflight);
      GreedyCompatible(candidates[..k], idle, inflight);
      forall t | t in Greedy(candidates[..k], idle, inflight) ensures t.id != candidates[k].id {
        assert t in candidates[..k];
      }
    }
  }

  // ------------------------------------------------------------- the other readiness

  /** `unblockedIds`: the blocked or unassigned tasks whose dependencies are all done. */
  method UnblockedIds(tasks: seq<Task>) returns (out: set<TaskId>)
    ensures out == Unblocked(tasks)
  {
    var done := set t | t in tasks && t.state.Done? :: t.id;
    out := {};
    var i := 0;
    while i < |tasks|
      invariant 0 <= i <= |tasks|
      invariant out == set t | t in tasks[..i] && (t.state.Blocked? || t.state.Unassigned?) && DepsIn(t, done) :: t.id
    {
      var task := tasks[i];
      assert forall t :: t in tasks[..i + 1] <==> t in tasks[..i] || t == task;
      i := i + 1;
      if task.state != Blocked && task.state != Unassigned { continue; }
      if forall d | d in task.dependsOn :: d in done { out := out + {task.id}; }
    }
    assert tasks[..i] == tasks;
  }

  function Unblocked(tasks: seq<Task>): set<TaskId> {
    var done := DoneIds(tasks);
    set t | t in tasks && (t.state.Blocked? || t.state.Unassigned?) && DepsIn(t, done) :: t.id
  }
}
