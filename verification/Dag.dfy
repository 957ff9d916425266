/**
 * Batch validation and Kahn's algorithm with a sorted queue (task-server/dag.ts).
 *
 * KahnOrder says which order the algorithm must produce for any batch, repeated ids and repeated
 * edges included; the method TopoSort is proved to produce it. Module DagTheory proves what such an
 * order is good for.
 */
module Dag {
  import opened Common
  import opened Ordering

  datatype DagNode = DagNode(id: TaskId, dependsOn: seq<TaskId>)

  ghost function Ids(tasks: seq<DagNode>): set<TaskId> {
    set t | t in tasks :: t.id
  }

  /** An edge inside the batch: some task `id` waits for `dep`, and `dep` is in the batch too. */
  ghost predicate Edge(tasks: seq<DagNode>, dep: TaskId, id: TaskId) {
    dep in Ids(tasks) && exists t | t in tasks :: t.id == id && dep in t.dependsOn
  }

  /** Not placed yet, and everything it waits for in the batch is. */
  ghost predicate Ready(tasks: seq<DagNode>, placed: seq<TaskId>, n: TaskId) {
    n in Ids(tasks) && n !in placed && forall d | Edge(tasks, d, n) :: d in placed
  }

  ghost predicate IsLeastReady(tasks: seq<DagNode>, placed: seq<TaskId>, n: TaskId) {
    Ready(tasks, placed, n) && forall m | Ready(tasks, placed, m) :: m == n || Less(n, m)
  }

  /** Always place the least ready id; stop only when none is ready. */
  ghost predicate KahnOrder(tasks: seq<DagNode>, order: seq<TaskId>) {
    && (forall k | 0 <= k < |order| :: IsLeastReady(tasks, order[..k], order[k]))
    && (forall n :: !Ready(tasks, order, n))
  }

  /** The ids in the order a JavaScript Map keyed by them lists them. */
  function FirstSeen(tasks: seq<DagNode>): seq<TaskId> {
    if tasks == [] then []
    else
      var before := FirstSeen(tasks[..|tasks| - 1]);
      var id := tasks[|tasks| - 1].id;
      if id in before then before else before + [id]
  }

  /** The ids of the listing that were never placed. */
  function Unplaced(ids: seq<TaskId>, order: seq<TaskId>): seq<TaskId> {
    if ids == [] then []
    else
      var last := ids[|ids| - 1];
      Unplaced(ids[..|ids| - 1], order) + if last in order then [] else [last]
  }

  lemma {:induction false} FirstSeenExact(tasks: seq<DagNode>)
    ensures Distinct(FirstSeen(tasks))
    ensures forall n :: n in FirstSeen(tasks) <==> n in Ids(tasks)
  {
    if tasks != [] {
      var k := |tasks| - 1;
      FirstSeenExact(tasks[..k]);
      assert Ids(tasks) == Ids(tasks[..k]) + {tasks[k].id} by {
        assert forall t :: t in tasks <==> t in tasks[..k] || t == tasks[k];
      }
    }
  }

  /** The listing follows the batch: of two ids, the one met first comes first. */
  lemma {:induction false} FirstSeenOrder(tasks: seq<DagNode>, i: nat, j: nat) returns (k: nat, l: nat)
    requires i < j < |FirstSeen(tasks)|
    ensures k < l < |tasks| && tasks[k].id == FirstSeen(tasks)[i] && tasks[l].id == FirstSeen(tasks)[j]
    ensures forall m | 0 <= m < l :: tasks[m].id != FirstSeen(tasks)[j]
  {
    var n := |tasks| - 1;
    var before := tasks[..n];
    if j < |FirstSeen(before)| {
      k, l := FirstSeenOrder(before, i, j);
    } else {
      FirstSeenExact(before);
      assert FirstSeen(before)[i] in FirstSeen(before);
      var t :| t in before && t.id == FirstSeen(before)[i];
      k :| k < n && before[k] == t;
      l := n;
      forall m | 0 <= m < l ensures tasks[m].id != tasks[n].id { assert before[m] in before; }
    }
  }

  /** The unplaced ids keep the order of the listing. */
  lemma {:induction false} UnplacedOrder(ids: seq<TaskId>, order: seq<TaskId>)
    ensures Subsequence(Unplaced(ids, order), ids)
  {
    if ids != [] {
      var k := |ids| - 1;
      UnplacedOrder(ids[..k], order);
      SubsequenceKeep(Unplaced(ids[..k], order), ids[..k], ids[k]);
      assert ids[..k] + [ids[k]] == ids;
      assert Unplaced(ids[..k], order) + [] == Unplaced(ids[..k], order);
    }
  }

  lemma {:induction false} UnplacedExact(ids: seq<TaskId>, order: seq<TaskId>, n: TaskId)
    ensures n in Unplaced(ids, order) <==> n in ids && n !in order
  {
    if ids != [] {
      var k := |ids| - 1;
      UnplacedExact(ids[..k], order, n);
      assert n in ids <==> n in ids[..k] || n == ids[k];
    }
  }

  // --------------------------------------------- counting edges with repetitions

  type Pair = (TaskId, TaskId)

  function TaskEdges(id: TaskId, deps: seq<TaskId>, ids: seq<TaskId>): seq<Pair> {
    if deps == [] then []
    else
      var dep := deps[|deps| - 1];
      TaskEdges(id, deps[..|deps| - 1], ids) + if dep in ids then [(dep, id)] else []
  }

  /** One pair per listed dependency that is in the batch, in the order they are met. */
  function Edges(tasks: seq<DagNode>, ids: seq<TaskId>): seq<Pair> {
    if tasks == [] then []
    else
      var t := tasks[|tasks| - 1];
      Edges(tasks[..|tasks| - 1], ids) + TaskEdges(t.id, t.dependsOn, ids)
  }

  /** What the adjacency list of `d` holds. */
  function Targets(es: seq<Pair>, d: TaskId): seq<TaskId> {
    if es == [] then []
    else
      var e := es[|es| - 1];
      Targets(es[..|es| - 1], d) + if e.0 == d then [e.1] else []
  }

  function Count(s: seq<TaskId>, n: TaskId): nat {
    if s == [] then 0 else Count(s[..|s| - 1], n) + if s[|s| - 1] == n then 1 else 0
  }

  /** How many edges into `n` come from ids that are not placed yet. */
  function Open(es: seq<Pair>, n: TaskId, placed: seq<TaskId>): nat {
    if es == [] then 0
    else
      var e := es[|es| - 1];
      Open(es[..|es| - 1], n, placed) + if e.1 == n && e.0 !in placed then 1 else 0
  }

  lemma {:induction false} TaskEdgesExact(id: TaskId, deps: seq<TaskId>, ids: seq<TaskId>, e: Pair)
    ensures e in TaskEdges(id, deps, ids) <==> e.1 == id && e.0 in deps && e.0 in ids
  {
    if deps != [] {
      var k := |deps| - 1;
      TaskEdgesExact(id, deps[..k], ids, e);
      assert e.0 in deps <==> e.0 in deps[..k] || e.0 == deps[k];
    }
  }

  lemma {:induction false} EdgesExact(tasks: seq<DagNode>, ids: seq<TaskId>, e: Pair)
    ensures e in Edges(tasks, ids) <==> e.0 in ids && exists t | t in tasks :: t.id == e.1 && e.0 in t.dependsOn
  {
    if tasks != [] {
      var k := |tasks| - 1;
      EdgesExact(tasks[..k], ids, e);
      TaskEdgesExact(tasks[k].id, tasks[k].dependsOn, ids, e);
      assert forall t :: t in tasks <==> t in tasks[..k] || t == tasks[k];
    }
  }

  lemma {:induction false} OpenZero(es: seq<Pair>, n: TaskId, placed: seq<TaskId>)
    ensures Open(es, n, placed) == 0 <==> forall e | e in es && e.1 == n :: e.0 in placed
  {
    if es != [] {
      var k := |es| - 1;
      OpenZero(es[..k], n, placed);
      assert es[k] in es;
      assert forall e :: e in es <==> e in es[..k] || e == es[k];
    }
  }

  lemma CountMore(s: seq<TaskId>, m: TaskId, n: TaskId)
    ensures Count(s + [m], n) == Count(s, n) + if m == n then 1 else 0
  {
    assert (s + [m])[..|s|] == s;
  }

  /** Placing `d` settles exactly the edges from `d`. */
  lemma {:induction false} OpenAfter(es: seq<Pair>, n: TaskId, placed: seq<TaskId>, d: TaskId)
    requires d !in placed
    ensures Open(es, n, placed) == Open(es, n, placed + [d]) + Count(Targets(es, d), n)
  {
    if es != [] {
      var k := |es| - 1;
      OpenAfter(es[..k], n, placed, d);
      var e := es[k];
      var before := Targets(es[..k], d);
      assert e.0 in placed + [d] <==> e.0 in placed || e.0 == d;
      assert Targets(es, d) == before + if e.0 == d then [e.1] else [];
      assert Open(es, n, placed) == Open(es[..k], n, placed) + if e.1 == n && e.0 !in placed then 1 else 0;
      assert Open(es, n, placed + [d])
             == Open(es[..k], n, placed + [d]) + if e.1 == n && e.0 !in placed + [d] then 1 else 0;
      CountMore(before, e.1, n);
      assert before + [] == before;
      hide Open, Targets, Count;
    }
  }

  lemma {:induction false} TargetsExact(es: seq<Pair>, d: TaskId, n: TaskId)
    ensures n in Targets(es, d) <==> (d, n) in es
  {
    if es != [] {
      var k := |es| - 1;
      TargetsExact(es[..k], d, n);
      assert (d, n) in es <==> (d, n) in es[..k] || es[k] == (d, n);
    }
  }

  lemma {:induction false} CountPrefix(s: seq<TaskId>, j: nat, n: TaskId)
    requires j <= |s|
    ensures Count(s[..j], n) <= Count(s, n)
  {
    if j < |s| {
      assert s[..|s| - 1][..j] == s[..j];
      CountPrefix(s[..|s| - 1], j, n);
    } else {
      assert s[..j] == s;
    }
  }

  /** An id is ready exactly when it is unplaced and has no open edge left. */
  lemma ReadyIffClosed(tasks: seq<DagNode>, ids: seq<TaskId>, placed: seq<TaskId>, n: TaskId)
    requires forall m :: m in ids <==> m in Ids(tasks)
    ensures Ready(tasks, placed, n) <==> n in ids && n !in placed && Open(Edges(tasks, ids), n, placed) == 0
  {
    var es := Edges(tasks, ids);
    OpenZero(es, n, placed);
    forall d ensures Edge(tasks, d, n) <==> (d, n) in es {
      EdgesExact(tasks, ids, (d, n));
    }
    assert (forall e | e in es && e.1 == n :: e.0 in placed) <==> forall d | (d, n) in es :: d in placed by {
      forall e | e in es && e.1 == n ensures e == (e.0, n) {}
    }
  }

  // --------------------------------------------------------------- the algorithm

  method Listing(tasks: seq<DagNode>) returns (ids: seq<TaskId>)
    ensures ids == FirstSeen(tasks)
  {
    ids := [];
    var i := 0;
    while i < |tasks|
      invariant 0 <= i <= |tasks|
      invariant ids == FirstSeen(tasks[..i])
    {
      assert tasks[..i + 1][..i] == tasks[..i];
      if tasks[i].id !in ids { ids := ids + [tasks[i].id]; }
      i := i + 1;
    }
    assert tasks[..i] == tasks;
  }

  /** The adjacency lists and in-degrees of a list of edges. */
  ghost predicate Describes(es: seq<Pair>, ids: seq<TaskId>,
                            adjacency: map<TaskId, seq<TaskId>>, indegree: map<TaskId, int>)
  {
    forall n | n in ids ::
      && n in adjacency && adjacency[n] == Targets(es, n)
      && n in indegree && indegree[n] == Open(es, n, [])
  }

  lemma TargetsMore(es: seq<Pair>, e: Pair, d: TaskId)
    ensures Targets(es + [e], d) == Targets(es, d) + if e.0 == d then [e.1] else []
    ensures Open(es + [e], d, []) == Open(es, d, []) + if e.1 == d then 1 else 0
  {
    assert (es + [e])[..|es|] == es;
  }

  method BuildGraph(tasks: seq<DagNode>, ids: seq<TaskId>)
    returns (adjacency: map<TaskId, seq<TaskId>>, indegree: map<TaskId, int>)
    requires forall t | t in tasks :: t.id in ids
    ensures Describes(Edges(tasks, ids), ids, adjacency, indegree)
  {
    indegree := map n | n in ids :: 0;
    adjacency := map n | n in ids :: [];
    var i := 0;
    while i < |tasks|
      invariant 0 <= i <= |tasks|
      invariant Describes(Edges(tasks[..i], ids), ids, adjacency, indegree)
    {
      assert tasks[i] in tasks;
      adjacency, indegree := AddTask(Edges(tasks[..i], ids), tasks[i], ids, adjacency, indegree);
      assert tasks[..i + 1][..i] == tasks[..i];
      i := i + 1;
    }
    assert tasks[..i] == tasks;
  }

  method AddTask(ghost es: seq<Pair>, task: DagNode, ids: seq<TaskId>,
                 adjacency0: map<TaskId, seq<TaskId>>, indegree0: map<TaskId, int>)
    returns (adjacency: map<TaskId, seq<TaskId>>, indegree: map<TaskId, int>)
    requires task.id in ids
    requires Describes(es, ids, adjacency0, indegree0)
    ensures Describes(es + TaskEdges(task.id, task.dependsOn, ids), ids, adjacency, indegree)
  {
    adjacency, indegree := adjacency0, indegree0;
    var deps := task.dependsOn;
    var i := 0;
    assert es + TaskEdges(task.id, [], ids) == es;
    while i < |deps|
      invariant 0 <= i <= |deps|
      invariant Describes(es + TaskEdges(task.id, deps[..i], ids), ids, adjacency, indegree)
    {
      ghost var before := es + TaskEdges(task.id, deps[..i], ids);
      var dep := deps[i];
      assert deps[..i + 1][..i] == deps[..i];
      if dep in ids {
        forall d ensures Targets(before + [(dep, task.id)], d) == Targets(before, d) + if dep == d then [task.id] else [] {
          TargetsMore(before, (dep, task.id), d);
        }
        forall n ensures Open(before + [(dep, task.id)], n, []) == Open(before, n, []) + if task.id == n then 1 else 0 {
          TargetsMore(before, (dep, task.id), n);
        }
        assert es + TaskEdges(task.id, deps[..i + 1], ids) == before + [(dep, task.id)];
        adjacency := adjacency[dep := adjacency[dep] + [task.id]];
        indegree := indegree[task.id := indegree[task.id] + 1];
      } else {
        assert es + TaskEdges(task.id, deps[..i + 1], ids) == before;
      }
      i := i + 1;
    }
    assert deps[..i] == deps;
  }

  /** The queue holds, once each, the listed ids that are unplaced and have count zero. */
  ghost predicate Queued(queue: seq<TaskId>, ids: seq<TaskId>, placed: seq<TaskId>, indegree: map<TaskId, int>)
    requires forall n | n in ids :: n in indegree
  {
    Distinct(queue) && forall n :: n in queue <==> n in ids && n !in placed && indegree[n] == 0
  }

  /** Counting `id` off at all its targets; those that reach zero join the queue. */
  method Release(ghost es: seq<Pair>, ids: seq<TaskId>, ghost order: seq<TaskId>, id: TaskId,
                 targets: seq<TaskId>, queue0: seq<TaskId>, indegree0: map<TaskId, int>)
    returns (queue: seq<TaskId>, indegree: map<TaskId, int>)
    requires id !in order && targets == Targets(es, id)
    requires forall e | e in es :: e.1 in ids
    requires forall n | n in ids :: n in indegree0 && indegree0[n] == Open(es, n, order)
    requires forall n | n in order + [id] :: Open(es, n, order) == 0
    requires Queued(queue0, ids, order + [id], indegree0)
    ensures forall n | n in ids :: n in indegree && indegree[n] == Open(es, n, order + [id])
    ensures Queued(queue, ids, order + [id], indegree)
  {
    queue, indegree := queue0, indegree0;
    var j := 0;
    while j < |targets|
      invariant 0 <= j <= |targets|
      invariant forall n | n in ids :: n in indegree && indegree[n] == Open(es, n, order) - Count(targets[..j], n)
      invariant Queued(queue, ids, order + [id], indegree)
    {
      var next := targets[j];
      assert targets[..j + 1][..j] == targets[..j];
      assert next in ids by { TargetsExact(es, id, next); assert next in targets; }
      CountPrefix(targets, j + 1, next);
      OpenAfter(es, next, order, id);
      var nextDeg := indegree[next] - 1;
      indegree := indegree[next := nextDeg];
      if nextDeg == 0 { queue := queue + [next]; }
      j := j + 1;
    }
    assert targets[..j] == targets;
    forall n | n in ids ensures indegree[n] == Open(es, n, order + [id]) {
      OpenAfter(es, n, order, id);
    }
  }

  method TopoSort(tasks: seq<DagNode>) returns (order: seq<TaskId>, cycleNodes: seq<TaskId>)
    ensures KahnOrder(tasks, order)
    ensures cycleNodes == Unplaced(FirstSeen(tasks), order)
  {
    var ids := Listing(tasks);
    FirstSeenExact(tasks);
    hide IsLeastReady, FirstSeen, Edges, Targets, Open;
    var adjacency, indegree := BuildGraph(tasks, ids);
    ghost var es := Edges(tasks, ids);
    forall e | e in es ensures e.1 in ids { EdgesExact(tasks, ids, e); }

    var queue := InitialQueue(ids, indegree);
    order := [];
    queue := SortedQueue(queue);
    while queue != []
      invariant KahnPrefix(tasks, ids, es, order)
      invariant forall n | n in ids :: n in indegree && indegree[n] == Open(es, n, order)
      invariant Queued(queue, ids, order, indegree) && Sorted(queue)
      decreases |ids| - |order|
    {
      var id := queue[0];
      HeadIsLeastReady(tasks, ids, es, order, queue, indegree);
      PrefixGrows(tasks, ids, es, order, id);
      assert forall n :: n in queue[1..] <==> n in queue && n != id;
      queue, indegree := Release(es, ids, order, id, adjacency[id], queue[1..], indegree);
      order := order + [id];
      queue := SortedQueue(queue);
    }
    forall n ensures !Ready(tasks, order, n) { ReadyIffClosed(tasks, ids, order, n); }
    cycleNodes := LeftOver(es, ids, order, indegree);
  }

  method InitialQueue(ids: seq<TaskId>, indegree: map<TaskId, int>) returns (queue: seq<TaskId>)
    requires Distinct(ids) && forall n | n in ids :: n in indegree
    ensures Queued(queue, ids, [], indegree)
  {
    queue := [];
    var i := 0;
    while i < |ids|
      invariant 0 <= i <= |ids|
      invariant Distinct(queue)
      invariant forall n :: n in queue <==> n in ids[..i] && indegree[n] == 0
    {
      assert forall n :: n in ids[..i + 1] <==> n in ids[..i] || n == ids[i];
      if indegree[ids[i]] == 0 { queue := queue + [ids[i]]; }
      i := i + 1;
    }
    assert ids[..i] == ids;
  }

  /** `queue.sort()`. */
  method SortedQueue(queue: seq<TaskId>) returns (sorted: seq<TaskId>)
    requires Distinct(queue)
    ensures Sorted(sorted) && Distinct(sorted) && forall n :: n in sorted <==> n in queue
  {
    SortSorts(queue);
    SortDistinct(queue);
    sorted := Sort(queue);
  }

  /** The part of an order placed so far. */
  ghost predicate KahnPrefix(tasks: seq<DagNode>, ids: seq<TaskId>, es: seq<Pair>, order: seq<TaskId>) {
    && Distinct(order) && |order| <= |ids|
    && (forall k | 0 <= k < |order| :: IsLeastReady(tasks, order[..k], order[k]))
    && (forall n | n in order :: n in ids && Open(es, n, order) == 0)
  }

  lemma HeadIsLeastReady(tasks: seq<DagNode>, ids: seq<TaskId>, es: seq<Pair>, order: seq<TaskId>,
                         queue: seq<TaskId>, indegree: map<TaskId, int>)
    requires (forall m :: m in ids <==> m in Ids(tasks)) && es == Edges(tasks, ids)
    requires forall n | n in ids :: n in indegree && indegree[n] == Open(es, n, order)
    requires queue != [] && Queued(queue, ids, order, indegree) && Sorted(queue)
    ensures IsLeastReady(tasks, order, queue[0])
  {
    hide Ready;
    ReadyIffClosed(tasks, ids, order, queue[0]);
    assert queue[0] in queue;
    forall m | Ready(tasks, order, m) ensures m == queue[0] || Less(queue[0], m) {
      ReadyIffClosed(tasks, ids, order, m);
      assert m in queue;
      LessTotal(m, queue[0]);
    }
  }

  lemma PrefixGrows(tasks: seq<DagNode>, ids: seq<TaskId>, es: seq<Pair>, order: seq<TaskId>, id: TaskId)
    requires (forall m :: m in ids <==> m in Ids(tasks)) && es == Edges(tasks, ids)
    requires Distinct(ids) && KahnPrefix(tasks, ids, es, order) && IsLeastReady(tasks, order, id)
    ensures KahnPrefix(tasks, ids, es, order + [id])
    ensures |order| < |ids|
    ensures id in ids && id !in order
    ensures forall n | n in order + [id] :: Open(es, n, order) == 0
  {
    var longer := order + [id];
    ReadyIffClosed(tasks, ids, order, id);
    forall n | n in longer ensures n in ids && Open(es, n, order) == 0 && Open(es, n, longer) == 0 {
      OpenAfter(es, n, order, id);
    }
    forall k | 0 <= k < |longer| ensures IsLeastReady(tasks, longer[..k], longer[k]) {
      assert longer[..k] == order[..k];
      if k == |order| { assert order[..k] == order; }
    }
    assert Distinct(longer);
    DistinctFits(longer, set n | n in ids);
    ListingSize(ids);
  }

  lemma {:induction false} ListingSize(ids: seq<TaskId>)
    ensures |set n | n in ids| <= |ids|
  {
    if ids != [] {
      var k := |ids| - 1;
      ListingSize(ids[..k]);
      assert (set n | n in ids) == (set n | n in ids[..k]) + {ids[k]};
    }
  }

  /** A duplicate-free selection from a listing that is as long as the listing is all of it. */
  lemma FullSelection(ids: seq<TaskId>, order: seq<TaskId>, n: TaskId)
    requires Distinct(order) && |order| == |ids|
    requires forall m | m in order :: m in ids
    requires n in ids
    ensures n in order
  {
    if n !in order {
      DistinctFits(order, (set m | m in ids) - {n});
      ListingSize(ids);
    }
  }

  method LeftOver(ghost es: seq<Pair>, ids: seq<TaskId>, order: seq<TaskId>, indegree: map<TaskId, int>)
    returns (cycleNodes: seq<TaskId>)
    requires Distinct(order) && forall n | n in order :: n in ids && Open(es, n, order) == 0
    requires forall n | n in ids :: n in indegree && indegree[n] == Open(es, n, order)
    requires forall n | n in ids && Open(es, n, order) == 0 :: n in order
    ensures cycleNodes == Unplaced(ids, order)
  {
    cycleNodes := [];
    if |order| == |ids| {
      ghost var left := Unplaced(ids, order);
      assert left != [] ==> left[0] in left;
      forall n ensures n !in left {
        UnplacedExact(ids, order, n);
        if n in ids { FullSelection(ids, order, n); }
      }
      return;
    }
    var i := 0;
    while i < |ids|
      invariant 0 <= i <= |ids|
      invariant cycleNodes == Unplaced(ids[..i], order)
    {
      assert ids[..i + 1][..i] == ids[..i];
      assert ids[i] in ids;
      if indegree[ids[i]] > 0 { cycleNodes := cycleNodes + [ids[i]]; }
      i := i + 1;
    }
    assert ids[..i] == ids;
  }
}
