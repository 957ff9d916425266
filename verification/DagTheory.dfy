/** What Kahn's algorithm with a sorted queue guarantees, for any batch whatever. */
module DagTheory {
  import opened Common
  import opened Ordering
  import opened Dag

  // ---------------------------------------------------------------- soundness

  /** Ids come once each, all from the batch, each after everything it waits for in the batch. */
  ghost predicate RespectsEdges(tasks: seq<DagNode>, order: seq<TaskId>) {
    && Distinct(order)
    && (forall n | n in order :: n in Ids(tasks))
    && (forall k, d | 0 <= k < |order| && Edge(tasks, d, order[k]) :: d in order[..k])
  }

  lemma KahnRespectsEdges(tasks: seq<DagNode>, order: seq<TaskId>)
    requires KahnOrder(tasks, order)
    ensures RespectsEdges(tasks, order)
  {
    forall i, j | 0 <= i < j < |order| ensures order[i] != order[j] {
      assert IsLeastReady(tasks, order[..j], order[j]);
      assert order[..j][i] == order[i];
    }
    forall k | 0 <= k < |order| ensures order[k] in Ids(tasks) {
      assert IsLeastReady(tasks, order[..k], order[k]);
    }
    forall k, d | 0 <= k < |order| && Edge(tasks, d, order[k]) ensures d in order[..k] {
      assert IsLeastReady(tasks, order[..k], order[k]);
    }
  }

  // -------------------------------------------------------------------- cycles

  /** A walk along the edges of the batch, from what is waited for to what waits. */
  ghost predicate Walk(tasks: seq<DagNode>, p: seq<TaskId>) {
    p != [] && forall k | 0 <= k < |p| - 1 :: Edge(tasks, p[k], p[k + 1])
  }

  ghost predicate Cycle(tasks: seq<DagNode>, p: seq<TaskId>) {
    Walk(tasks, p) && |p| > 1 && p[0] == p[|p| - 1]
  }

  ghost predicate Acyclic(tasks: seq<DagNode>) {
    forall p :: !Cycle(tasks, p)
  }

  ghost predicate Leads(tasks: seq<DagNode>, c: seq<TaskId>, q: seq<TaskId>, n: TaskId) {
    Cycle(tasks, c) && Walk(tasks, q) && q[0] == c[0] && q[|q| - 1] == n
  }

  /** On a cycle, or reached by a walk from one. */
  ghost predicate OnOrBelowCycle(tasks: seq<DagNode>, n: TaskId) {
    exists c, q :: Leads(tasks, c, q, n)
  }

  /** A walk that ends inside the order stays inside it, and moves forward in it at every edge. */
  lemma {:induction false} WalkBackInOrder(tasks: seq<DagNode>, order: seq<TaskId>, p: seq<TaskId>, i: nat) returns (j: nat)
    requires RespectsEdges(tasks, order) && Walk(tasks, p)
    requires i < |order| && order[i] == p[|p| - 1]
    ensures j + |p| - 1 <= i && order[j] == p[0]
  {
    if |p| == 1 { return i; }
    var m := |p| - 1;
    assert Edge(tasks, p[m - 1], p[m]);
    var k :| 0 <= k < i && order[..i][k] == p[m - 1];
    assert Walk(tasks, p[..m]) by {
      forall l | 0 <= l < m - 1 ensures Edge(tasks, p[..m][l], p[..m][l + 1]) {
        assert Edge(tasks, p[l], p[l + 1]);
      }
    }
    j := WalkBackInOrder(tasks, order, p[..m], k);
  }

  lemma PlacedIsNotBelowCycle(tasks: seq<DagNode>, order: seq<TaskId>, n: TaskId)
    requires RespectsEdges(tasks, order) && n in order
    ensures !OnOrBelowCycle(tasks, n)
  {
    if c, q :| Leads(tasks, c, q, n) {
      var i :| 0 <= i < |order| && order[i] == n;
      var j := WalkBackInOrder(tasks, order, q, i);
      var k := WalkBackInOrder(tasks, order, c, j);
    }
  }

  /** Walking backwards from an unplaced id, always through unplaced ids. */
  lemma {:induction false} WalkBackOutside(tasks: seq<DagNode>, order: seq<TaskId>, n: TaskId, length: nat) returns (p: seq<TaskId>)
    requires KahnOrder(tasks, order) && n in Ids(tasks) && n !in order && length > 0
    ensures Walk(tasks, p) && |p| == length && p[|p| - 1] == n
    ensures forall m | m in p :: m in Ids(tasks)
    decreases length
  {
    if length == 1 {
      p := [n];
    } else {
      assert !Ready(tasks, order, n);
      var d :| Edge(tasks, d, n) && d !in order;
      var shorter := WalkBackOutside(tasks, order, d, length - 1);
      p := shorter + [n];
      forall k | 0 <= k < |p| - 1 ensures Edge(tasks, p[k], p[k + 1]) {
        if k < |shorter| - 1 { assert Edge(tasks, shorter[k], shorter[k + 1]); }
      }
    }
  }

  lemma Slice(tasks: seq<DagNode>, p: seq<TaskId>, i: nat, j: nat)
    requires Walk(tasks, p) && i < j <= |p|
    ensures Walk(tasks, p[i..j])
  {
    forall k | 0 <= k < j - i - 1 ensures Edge(tasks, p[i..j][k], p[i..j][k + 1]) {
      assert Edge(tasks, p[i + k], p[i + k + 1]);
    }
  }

  lemma UnplacedIsBelowCycle(tasks: seq<DagNode>, order: seq<TaskId>, n: TaskId)
    requires KahnOrder(tasks, order) && n in Ids(tasks) && n !in order
    ensures OnOrBelowCycle(tasks, n)
  {
    var p := WalkBackOutside(tasks, order, n, |Ids(tasks)| + 1);
    if Distinct(p) { DistinctFits(p, Ids(tasks)); }
    var i, j :| 0 <= i < j < |p| && p[i] == p[j];
    Slice(tasks, p, i, j + 1);
    Slice(tasks, p, j, |p|);
    assert Leads(tasks, p[i..j + 1], p[j..], n);
  }

  /** The reported cycle nodes are exactly the ids on a cycle or downstream of one. */
  lemma CycleNodesExact(tasks: seq<DagNode>, order: seq<TaskId>, n: TaskId)
    requires KahnOrder(tasks, order)
    ensures n in Unplaced(FirstSeen(tasks), order) <==> n in Ids(tasks) && OnOrBelowCycle(tasks, n)
    ensures n in order <==> n in Ids(tasks) && !OnOrBelowCycle(tasks, n)
  {
    KahnRespectsEdges(tasks, order);
    FirstSeenExact(tasks);
    UnplacedExact(FirstSeen(tasks), order, n);
    if n in order {
      PlacedIsNotBelowCycle(tasks, order, n);
    } else if n in Ids(tasks) {
      UnplacedIsBelowCycle(tasks, order, n);
    }
  }

  lemma CycleStaysInBatch(tasks: seq<DagNode>, p: seq<TaskId>)
    requires Cycle(tasks, p)
    ensures p[0] in Ids(tasks) && OnOrBelowCycle(tasks, p[0])
  {
    assert Edge(tasks, p[0], p[1]);
    assert Walk(tasks, [p[0]]);
    assert Leads(tasks, p, [p[0]], p[0]);
  }

  /** No cycle node is reported if and only if the batch has no cycle. */
  lemma NoCycleNodesIffAcyclic(tasks: seq<DagNode>, order: seq<TaskId>)
    requires KahnOrder(tasks, order)
    ensures Unplaced(FirstSeen(tasks), order) == [] <==> Acyclic(tasks)
    ensures Acyclic(tasks) ==> forall n | n in Ids(tasks) :: n in order
  {
    var left := Unplaced(FirstSeen(tasks), order);
    if left != [] {
      CycleNodesExact(tasks, order, left[0]);
      assert !Acyclic(tasks);
    } else if !Acyclic(tasks) {
      var p :| Cycle(tasks, p);
      CycleStaysInBatch(tasks, p);
      CycleNodesExact(tasks, order, p[0]);
    }
    if Acyclic(tasks) {
      forall n | n in Ids(tasks) ensures n in order { CycleNodesExact(tasks, order, n); }
    }
  }

  /** Kahn's algorithm has a result for every batch. */
  lemma KahnOrderExists(tasks: seq<DagNode>) returns (order: seq<TaskId>)
    ensures KahnOrder(tasks, order)
  {
    order := Extend(tasks, []);
  }

  lemma {:induction false} Extend(tasks: seq<DagNode>, placed: seq<TaskId>) returns (order: seq<TaskId>)
    requires Distinct(placed) && forall n | n in placed :: n in Ids(tasks)
    requires forall k | 0 <= k < |placed| :: IsLeastReady(tasks, placed[..k], placed[k])
    ensures KahnOrder(tasks, order)
    decreases |Ids(tasks)| + 1 - |placed|
  {
    DistinctFits(placed, Ids(tasks));
    var ready := SortedElements(set n | n in Ids(tasks) && Ready(tasks, placed, n));
    if ready == [] {
      forall n ensures !Ready(tasks, placed, n) {
        assert Ready(tasks, placed, n) ==> n in ready;
      }
      return placed;
    }
    var n := ready[0];
    assert n in ready;
    forall m | Ready(tasks, placed, m) ensures m == n || Less(n, m) {
      assert m in ready;
      LessTotal(n, m);
    }
    var more := placed + [n];
    forall k | 0 <= k < |more| ensures IsLeastReady(tasks, more[..k], more[k]) {
      assert more[..k] == placed[..k];
      assert placed[..|placed|] == placed;
    }
    order := Extend(tasks, more);
  }

  // ---------------------------------------------------------------- canonicity

  /** `a` comes before `b` in the lexicographic order of sequences of ids. */
  ghost predicate LexicallyBefore(a: seq<TaskId>, b: seq<TaskId>) {
    exists k: nat :: k < |a| && k < |b| && a[..k] == b[..k] && Less(a[k], b[k])
  }

  lemma {:induction false} FirstDifference(a: seq<TaskId>, b: seq<TaskId>) returns (k: nat)
    requires |a| == |b| && a != b
    ensures k < |a| && a[..k] == b[..k] && a[k] != b[k]
  {
    if a[0] != b[0] { return 0; }
    assert a == [a[0]] + a[1..] && b == [b[0]] + b[1..];
    var m := FirstDifference(a[1..], b[1..]);
    k := m + 1;
    assert a[..k] == [a[0]] + a[1..][..m] && b[..k] == [b[0]] + b[1..][..m];
  }

  lemma {:induction false} SameElementsSameLength(a: seq<TaskId>, b: seq<TaskId>)
    requires Distinct(a) && Distinct(b) && forall n :: n in a <==> n in b
    ensures |a| == |b|
  {
    ListingSize(a);
    ListingSize(b);
    DistinctFits(a, set n | n in b);
    DistinctFits(b, set n | n in a);
  }

  /** On an acyclic batch the result is the lexicographically least of all topological orders. */
  lemma LeastTopologicalOrder(tasks: seq<DagNode>, order: seq<TaskId>, other: seq<TaskId>)
    requires KahnOrder(tasks, order) && Acyclic(tasks)
    requires RespectsEdges(tasks, other) && forall n | n in Ids(tasks) :: n in other
    ensures order == other || LexicallyBefore(order, other)
  {
    KahnRespectsEdges(tasks, order);
    NoCycleNodesIffAcyclic(tasks, order);
    SameElementsSameLength(order, other);
    if order != other {
      var k := FirstDifference(order, other);
      assert IsLeastReady(tasks, order[..k], order[k]);
      assert Ready(tasks, other[..k], other[k]) by {
        forall d | Edge(tasks, d, other[k]) ensures d in other[..k] {}
      }
    }
  }

  /** The result depends on the ids and edges of the batch only, not on the order the tasks come in. */
  lemma InputOrderIsIrrelevant(a: seq<DagNode>, b: seq<DagNode>, orderA: seq<TaskId>, orderB: seq<TaskId>)
    requires forall t :: t in a <==> t in b
    requires KahnOrder(a, orderA) && KahnOrder(b, orderB)
    ensures orderA == orderB
  {
    assert Ids(a) == Ids(b);
    assert forall d, n :: Edge(a, d, n) <==> Edge(b, d, n);
    SameGraphSameOrder(a, b, orderA, orderB, 0);
  }

  lemma SameGraphSameOrder(a: seq<DagNode>, b: seq<DagNode>, orderA: seq<TaskId>, orderB: seq<TaskId>, k: nat)
    requires Ids(a) == Ids(b) && forall d, n :: Edge(a, d, n) <==> Edge(b, d, n)
    requires KahnOrder(a, orderA) && KahnOrder(b, orderB)
    requires k <= |orderA| && k <= |orderB| && orderA[..k] == orderB[..k]
    ensures orderA == orderB
    decreases |orderA| - k
  {
    var placed := orderA[..k];
    forall n ensures Ready(a, placed, n) <==> Ready(b, placed, n) {}
    assert k < |orderA| ==> IsLeastReady(a, orderA[..k], orderA[k]);
    assert k < |orderB| ==> IsLeastReady(b, orderB[..k], orderB[k]);
    assert k == |orderA| ==> orderA == placed;
    assert k == |orderB| ==> orderB == placed;
    if k < |orderA| && k < |orderB| {
      LessAsymmetric(orderA[k], orderB[k]);
      assert orderA[..k + 1] == placed + [orderA[k]] == orderB[..k + 1];
      SameGraphSameOrder(a, b, orderA, orderB, k + 1);
    }
  }

  // ---------------------------------------------------------- batch validation

  datatype DagError =
    | DuplicateId(ids: seq<TaskId>)
    | UnknownDependency(taskId: TaskId, missing: seq<TaskId>)
    | CycleError(nodes: seq<TaskId>)

  /** The id of task `i` is taken when the scan meets it. */
  ghost predicate TakenAt(tasks: seq<DagNode>, existing: set<TaskId>, i: int) {
    0 <= i < |tasks| && (tasks[i].id in existing || exists j :: 0 <= j < i && tasks[j].id == tasks[i].id)
  }

  /** The ids that are already taken when their task is met, each listed once. */
  ghost function Duplicates(tasks: seq<DagNode>, existing: set<TaskId>): set<TaskId> {
    set i | 0 <= i < |tasks| && TakenAt(tasks, existing, i) :: tasks[i].id
  }

  /** The same ids in the order in which they are found taken: a JavaScript set filled by the scan. */
  ghost function DuplicateIds(tasks: seq<DagNode>, existing: set<TaskId>): seq<TaskId> {
    if tasks == [] then []
    else
      var before, id := tasks[..|tasks| - 1], tasks[|tasks| - 1].id;
      var found := DuplicateIds(before, existing);
      found + if id in existing + Ids(before) && id !in found then [id] else []
  }

  function MissingOf(deps: seq<TaskId>, known: set<TaskId>): seq<TaskId> {
    if deps == [] then []
    else
      var d := deps[|deps| - 1];
      MissingOf(deps[..|deps| - 1], known) + if d in known then [] else [d]
  }

  function UnknownErrors(tasks: seq<DagNode>, known: set<TaskId>): seq<DagError> {
    if tasks == [] then []
    else
      var t := tasks[|tasks| - 1];
      var missing := MissingOf(t.dependsOn, known);
      UnknownErrors(tasks[..|tasks| - 1], known) + if missing == [] then [] else [UnknownDependency(t.id, missing)]
  }

  /** A batch that can be added to a stored graph with the given ids. */
  ghost predicate GoodBatch(tasks: seq<DagNode>, existing: set<TaskId>) {
    && (forall i | 0 <= i < |tasks| :: tasks[i].id !in existing)
    && (forall i, j | 0 <= i < j < |tasks| :: tasks[i].id != tasks[j].id)
    && (forall t, d | t in tasks && d in t.dependsOn :: d in existing || d in Ids(tasks))
    && Acyclic(tasks)
  }

  ghost predicate Ascending(at: seq<nat>) {
    forall i, j | 0 <= i < j < |at| :: at[i] < at[j]
  }

  /** Position `n` is added to the positions found below it, or not. */
  lemma OneMorePosition(before: seq<nat>, n: nat, found: bool) returns (at: seq<nat>)
    requires Ascending(before) && forall i | i in before :: i < n
    ensures at == before + if found then [n] else []
    ensures Ascending(at)
    ensures forall i :: i in at <==> i in before || (found && i == n)
  {
    at := before + if found then [n] else [];
    assert forall k | 0 <= k < |before| :: before[k] in before;
  }

  /** What is missing is each unknown dependency, as often and in the order in which it is listed; `at` says where. */
  lemma {:induction false} MissingExact(deps: seq<TaskId>, known: set<TaskId>) returns (at: seq<nat>)
    ensures |at| == |MissingOf(deps, known)| && Ascending(at)
    ensures forall i :: i in at <==> 0 <= i < |deps| && deps[i] !in known
    ensures forall k | 0 <= k < |at| :: at[k] in at && MissingOf(deps, known)[k] == deps[at[k]]
  {
    if deps == [] { return []; }
    var n := |deps| - 1;
    var before := MissingExact(deps[..n], known);
    var all := MissingOf(deps, known);
    assert all == MissingOf(deps[..n], known) + if deps[n] in known then [] else [deps[n]];
    hide MissingOf, Ascending;
    at := OneMorePosition(before, n, deps[n] !in known);
    assert forall i | 0 <= i < n :: deps[..n][i] == deps[i];
  }

  lemma MissingMembers(deps: seq<TaskId>, known: set<TaskId>)
    ensures forall d :: d in MissingOf(deps, known) <==> d in deps && d !in known
    ensures MissingOf(deps, known) == [] <==> forall d | d in deps :: d in known
  {
    var missing := MissingOf(deps, known);
    var at := MissingExact(deps, known);
    hide MissingOf, Ascending;
    forall d ensures d in missing <==> d in deps && d !in known {
      if d in deps && d !in known {
        var i :| 0 <= i < |deps| && deps[i] == d;
        var k :| 0 <= k < |at| && at[k] == i;
        assert missing[k] == d;
      }
      if d in missing {
        var k :| 0 <= k < |missing| && missing[k] == d;
        assert at[k] in at;
      }
    }
    assert missing != [] ==> missing[0] in missing;
  }

  ghost predicate HasUnknown(t: DagNode, known: set<TaskId>) {
    exists d :: d in t.dependsOn && d !in known
  }

  /** There is one error for each task with an unknown dependency, in the order of the tasks; `at` says which. */
  lemma {:induction false} UnknownErrorsExact(tasks: seq<DagNode>, known: set<TaskId>) returns (at: seq<nat>)
    ensures |at| == |UnknownErrors(tasks, known)| && Ascending(at)
    ensures forall i :: i in at <==> 0 <= i < |tasks| && HasUnknown(tasks[i], known)
    ensures forall k | 0 <= k < |at| ::
              && at[k] in at
              && UnknownErrors(tasks, known)[k]
                 == UnknownDependency(tasks[at[k]].id, MissingOf(tasks[at[k]].dependsOn, known))
  {
    if tasks == [] { return []; }
    var n := |tasks| - 1;
    var before := UnknownErrorsExact(tasks[..n], known);
    MissingMembers(tasks[n].dependsOn, known);
    assert MissingOf(tasks[n].dependsOn, known) != [] <==> HasUnknown(tasks[n], known);
    hide MissingOf, HasUnknown, Ascending;
    at := OneMorePosition(before, n, HasUnknown(tasks[n], known));
    var all := UnknownErrors(tasks, known);
    var latest := UnknownDependency(tasks[n].id, MissingOf(tasks[n].dependsOn, known));
    assert all == UnknownErrors(tasks[..n], known) + if HasUnknown(tasks[n], known) then [latest] else [];
    hide UnknownErrors;
    assert forall i | 0 <= i < n :: tasks[..n][i] == tasks[i];
  }

  lemma {:induction false} NoUnknownIff(tasks: seq<DagNode>, known: set<TaskId>)
    ensures UnknownErrors(tasks, known) == [] <==> forall t, d | t in tasks && d in t.dependsOn :: d in known
  {
    if tasks != [] {
      var k := |tasks| - 1;
      NoUnknownIff(tasks[..k], known);
      MissingMembers(tasks[k].dependsOn, known);
      assert forall t :: t in tasks <==> t in tasks[..k] || t == tasks[k];
      assert tasks[k] in tasks;
    }
  }

  method MissingDeps(deps: seq<TaskId>, known: set<TaskId>) returns (missing: seq<TaskId>)
    ensures missing == MissingOf(deps, known)
  {
    missing := [];
    var i := 0;
    while i < |deps|
      invariant 0 <= i <= |deps|
      invariant missing == MissingOf(deps[..i], known)
    {
      assert deps[..i + 1][..i] == deps[..i];
      if deps[i] !in known { missing := missing + [deps[i]]; }
      i := i + 1;
    }
    assert deps[..i] == deps;
  }

  method ScanIds(tasks: seq<DagNode>, existing: set<TaskId>) returns (ids: set<TaskId>, duplicates: seq<TaskId>)
    ensures ids == existing + Ids(tasks)
    ensures duplicates == DuplicateIds(tasks, existing)
  {
    ids, duplicates := existing, [];
    var i := 0;
    while i < |tasks|
      invariant 0 <= i <= |tasks|
      invariant ids == existing + Ids(tasks[..i])
      invariant duplicates == DuplicateIds(tasks[..i], existing)
    {
      var id := tasks[i].id;
      assert tasks[..i + 1][..i] == tasks[..i];
      IdsGrow(tasks, i);
      if id in ids && id !in duplicates { duplicates := duplicates + [id]; }
      ids := ids + {id};
      i := i + 1;
    }
    assert tasks[..i] == tasks;
  }

  lemma IdsGrow(tasks: seq<DagNode>, i: nat)
    requires i < |tasks|
    ensures Ids(tasks[..i + 1]) == Ids(tasks[..i]) + {tasks[i].id}
  {
    assert forall t :: t in tasks[..i + 1] <==> t in tasks[..i] || t == tasks[i];
  }

  /** The scan lists each id that is already taken when its task is met, once. */
  lemma {:induction false} DuplicatesExact(tasks: seq<DagNode>, existing: set<TaskId>)
    ensures Distinct(DuplicateIds(tasks, existing))
    ensures forall n :: n in DuplicateIds(tasks, existing) <==> n in Duplicates(tasks, existing)
  {
    if tasks != [] {
      var k := |tasks| - 1;
      DuplicatesExact(tasks[..k], existing);
      OneMoreId(tasks, existing, k);
      assert tasks[..k + 1] == tasks;
      hide Duplicates;
    }
  }

  lemma TakenBefore(tasks: seq<DagNode>, existing: set<TaskId>, n: nat, i: nat)
    requires i < n <= |tasks|
    ensures TakenAt(tasks[..n], existing, i) <==> TakenAt(tasks, existing, i)
  {
    assert forall i | 0 <= i < n :: tasks[..n][i] == tasks[i];
  }

  lemma TakenNow(tasks: seq<DagNode>, existing: set<TaskId>, n: nat)
    requires n < |tasks|
    ensures TakenAt(tasks, existing, n) <==> tasks[n].id in existing + Ids(tasks[..n])
  {
    var before := tasks[..n];
    assert forall i | 0 <= i < n :: before[i] == tasks[i];
    forall j | 0 <= j < n ensures before[j] in before {}
  }

  lemma OneMoreId(tasks: seq<DagNode>, existing: set<TaskId>, i: nat)
    requires i < |tasks|
    ensures Duplicates(tasks[..i + 1], existing)
            == Duplicates(tasks[..i], existing)
               + if tasks[i].id in existing + Ids(tasks[..i]) then {tasks[i].id} else {}
  {
    var now, before := tasks[..i + 1], tasks[..i];
    TakenNow(tasks, existing, i);
    forall k: nat | k <= i ensures TakenAt(now, existing, k) <==> TakenAt(tasks, existing, k) {
      TakenBefore(tasks, existing, i + 1, k);
    }
    forall k: nat | k < i ensures TakenAt(before, existing, k) <==> TakenAt(tasks, existing, k) {
      TakenBefore(tasks, existing, i, k);
    }
    hide TakenAt, Ids;
    assert forall k | 0 <= k < i :: before[k] == now[k];
    var id := tasks[i].id;
    forall n ensures n in Duplicates(now, existing) <==>
                     n in Duplicates(before, existing) || (n == id && TakenAt(tasks, existing, i)) {
      if n in Duplicates(before, existing) {
        var k: nat :| k < |before| && TakenAt(before, existing, k) && before[k].id == n;
        assert TakenAt(now, existing, k) && now[k].id == n;
      }
      if n == id && TakenAt(tasks, existing, i) { assert TakenAt(now, existing, i) && now[i].id == n; }
    }
  }

  /** The id of task `i` is taken when the scan meets it, and for the first time. */
  ghost predicate FirstTaken(tasks: seq<DagNode>, existing: set<TaskId>, i: int) {
    TakenAt(tasks, existing, i) && forall j | 0 <= j < i && tasks[j].id == tasks[i].id :: !TakenAt(tasks, existing, j)
  }

  lemma FirstTakenBefore(tasks: seq<DagNode>, existing: set<TaskId>, n: nat, i: nat)
    requires i < n <= |tasks|
    ensures FirstTaken(tasks[..n], existing, i) <==> FirstTaken(tasks, existing, i)
  {
    forall j: nat | j <= i ensures TakenAt(tasks[..n], existing, j) <==> TakenAt(tasks, existing, j) {
      TakenBefore(tasks, existing, n, j);
    }
    assert forall i | 0 <= i < n :: tasks[..n][i] == tasks[i];
    hide TakenAt;
  }

  lemma FirstTakenNow(tasks: seq<DagNode>, existing: set<TaskId>, n: nat)
    requires n < |tasks|
    ensures FirstTaken(tasks, existing, n)
            <==> tasks[n].id in existing + Ids(tasks[..n]) && tasks[n].id !in DuplicateIds(tasks[..n], existing)
  {
    var before, id := tasks[..n], tasks[n].id;
    DuplicatesExact(before, existing);
    assert forall i | 0 <= i < n :: before[i] == tasks[i];
    TakenNow(tasks, existing, n);
    assert id in Duplicates(before, existing) <==> exists j :: 0 <= j < n && TakenAt(before, existing, j) && before[j].id == id;
    forall j: nat | j < n ensures TakenAt(before, existing, j) <==> TakenAt(tasks, existing, j) {
      TakenBefore(tasks, existing, n, j);
    }
    hide TakenAt, Duplicates, DuplicateIds, Ids;
  }

  /** The duplicates come in the order in which they are first found taken; `at` says where. */
  lemma {:induction false} DuplicatesOrder(tasks: seq<DagNode>, existing: set<TaskId>) returns (at: seq<nat>)
    ensures |at| == |DuplicateIds(tasks, existing)| && Ascending(at)
    ensures forall i :: i in at <==> 0 <= i < |tasks| && FirstTaken(tasks, existing, i)
    ensures forall k | 0 <= k < |at| :: at[k] in at && DuplicateIds(tasks, existing)[k] == tasks[at[k]].id
  {
    if tasks == [] { return []; }
    var n := |tasks| - 1;
    var before := DuplicatesOrder(tasks[..n], existing);
    FirstTakenNow(tasks, existing, n);
    var found := DuplicateIds(tasks[..n], existing);
    assert DuplicateIds(tasks, existing) == found + if FirstTaken(tasks, existing, n) then [tasks[n].id] else [];
    forall i: nat | i < n ensures FirstTaken(tasks[..n], existing, i) <==> FirstTaken(tasks, existing, i) {
      FirstTakenBefore(tasks, existing, n, i);
    }
    hide FirstTaken, DuplicateIds, Ids, Ascending;
    at := OneMorePosition(before, n, FirstTaken(tasks, existing, n));
    forall i ensures i in at <==> 0 <= i < |tasks| && FirstTaken(tasks, existing, i) {}
    var ids := DuplicateIds(tasks, existing);
    forall k | 0 <= k < |at| ensures at[k] in at && ids[k] == tasks[at[k]].id {
      if k < |before| { assert at[k] == before[k] && ids[k] == found[k] && tasks[..n][before[k]] == tasks[before[k]]; }
    }
  }

  /** What one error of the report says, and where it may stand. */
  ghost predicate ErrorIs(tasks: seq<DagNode>, existing: set<TaskId>, e: DagError, first: bool, last: bool) {
    match e
    case DuplicateId(ids) =>
      first && Distinct(ids) && forall n :: n in ids <==> n in Duplicates(tasks, existing)
    case UnknownDependency(id, missing) => missing != [] && exists t :: t in tasks && MissesOnly(t, existing + Ids(tasks), e)
    case CycleError(nodes) => last && forall n :: n in nodes <==> n in Ids(tasks) && OnOrBelowCycle(tasks, n)
  }

  ghost predicate MissesOnly(t: DagNode, known: set<TaskId>, e: DagError) {
    && e.UnknownDependency? && e.taskId == t.id
    && forall d :: d in e.missing <==> d in t.dependsOn && d !in known
  }

  /** The report, error by error: the duplicates come first, then the unknown dependencies, and the cycle comes last. */
  lemma GraphErrorsExact(tasks: seq<DagNode>, existing: set<TaskId>, order: seq<TaskId>, k: nat)
    requires KahnOrder(tasks, order) && k < |GraphErrors(tasks, existing, order)|
    ensures var errors := GraphErrors(tasks, existing, order);
            ErrorIs(tasks, existing, errors[k], k == 0, k == |errors| - 1)
  {
    var duplicates, nodes := DuplicateIds(tasks, existing), Unplaced(FirstSeen(tasks), order);
    var first := if duplicates == [] then [] else [DuplicateId(duplicates)];
    var last := if Acyclic(tasks) then [] else [CycleError(nodes)];
    var unknown := UnknownErrors(tasks, existing + Ids(tasks));
    assert GraphErrors(tasks, existing, order) == first + unknown + last;
    EndsAre(tasks, existing, order);
    forall i | 0 <= i < |unknown| ensures ErrorIs(tasks, existing, unknown[i], false, false) {
      UnknownErrorIs(tasks, existing, i);
    }
    hide GraphErrors, DuplicateIds, UnknownErrors, Acyclic, Unplaced, FirstSeen, Ids, KahnOrder, ErrorIs;
    PartsAre(tasks, existing, first, unknown, last, k);
  }

  lemma EndsAre(tasks: seq<DagNode>, existing: set<TaskId>, order: seq<TaskId>)
    requires KahnOrder(tasks, order)
    ensures ErrorIs(tasks, existing, DuplicateId(DuplicateIds(tasks, existing)), true, false)
    ensures ErrorIs(tasks, existing, CycleError(Unplaced(FirstSeen(tasks), order)), false, true)
  {
    DuplicatesExact(tasks, existing);
    forall n ensures n in Unplaced(FirstSeen(tasks), order) <==> n in Ids(tasks) && OnOrBelowCycle(tasks, n) {
      CycleNodesExact(tasks, order, n);
    }
    hide Duplicates, DuplicateIds, Unplaced, FirstSeen, OnOrBelowCycle, Ids, KahnOrder;
  }

  lemma PartsAre(tasks: seq<DagNode>, existing: set<TaskId>,
                 first: seq<DagError>, unknown: seq<DagError>, last: seq<DagError>, k: nat)
    requires k < |first + unknown + last| && |first| <= 1 && |last| <= 1
    requires forall e | e in first :: ErrorIs(tasks, existing, e, true, false)
    requires forall i | 0 <= i < |unknown| :: ErrorIs(tasks, existing, unknown[i], false, false)
    requires forall e | e in last :: ErrorIs(tasks, existing, e, false, true)
    ensures ErrorIs(tasks, existing, (first + unknown + last)[k], k == 0, k == |first + unknown + last| - 1)
  {
    hide ErrorIs;
    var e := (first + unknown + last)[k];
    if k < |first| {
      assert e in first;
      ErrorIsWeaker(tasks, existing, e, k == 0, k == |first + unknown + last| - 1);
    } else if k < |first| + |unknown| {
      assert e == unknown[k - |first|];
      ErrorIsWeaker(tasks, existing, e, k == 0, k == |first + unknown + last| - 1);
    } else {
      assert e in last;
      ErrorIsWeaker(tasks, existing, e, k == 0, k == |first + unknown + last| - 1);
    }
  }

  lemma ErrorIsWeaker(tasks: seq<DagNode>, existing: set<TaskId>, e: DagError, first: bool, last: bool)
    requires || ErrorIs(tasks, existing, e, false, false)
             || (first && ErrorIs(tasks, existing, e, true, false))
             || (last && ErrorIs(tasks, existing, e, false, true))
    ensures ErrorIs(tasks, existing, e, first, last)
  {
    hide Duplicates, OnOrBelowCycle, Ids, MissesOnly;
  }

  lemma UnknownErrorIs(tasks: seq<DagNode>, existing: set<TaskId>, k: nat)
    requires k < |UnknownErrors(tasks, existing + Ids(tasks))|
    ensures var e := UnknownErrors(tasks, existing + Ids(tasks))[k];
            e.UnknownDependency? && ErrorIs(tasks, existing, e, false, false)
  {
    var known := existing + Ids(tasks);
    var at := UnknownErrorsExact(tasks, known);
    assert at[k] in at;
    var t := tasks[at[k]];
    MissingMembers(t.dependsOn, known);
    assert HasUnknown(t, known);
    hide UnknownErrors, MissingOf, Ids, Ascending;
    assert t in tasks && MissesOnly(t, known, UnknownDependency(t.id, MissingOf(t.dependsOn, known)));
  }

  method ValidateDag(tasks: seq<DagNode>, existing: set<TaskId>)
    returns (ok: bool, errors: seq<DagError>, topoOrder: seq<TaskId>)
    ensures ok <==> errors == []
    ensures ok <==> GoodBatch(tasks, existing)
    ensures KahnOrder(tasks, topoOrder)
    ensures errors == GraphErrors(tasks, existing, topoOrder)
  {
    var ids, duplicates := ScanIds(tasks, existing);
    var unknown := UnknownDeps(tasks, ids);
    var order, cycleNodes := TopoSort(tasks);
    errors := if duplicates != [] then [DuplicateId(duplicates)] else [];
    errors := errors + unknown;
    if cycleNodes != [] { errors := errors + [CycleError(cycleNodes)]; }
    topoOrder := order;
    ok := errors == [];
    NoCycleNodesIffAcyclic(tasks, order);
    GoodIffNoErrors(tasks, existing, order);
    hide DuplicateIds, UnknownErrors, GoodBatch, Acyclic, KahnOrder, Ids, FirstSeen, Unplaced;
  }

  /** Every fault of the batch, in the order in which they are reported; `order` is its Kahn order. */
  ghost function GraphErrors(tasks: seq<DagNode>, existing: set<TaskId>, order: seq<TaskId>): seq<DagError> {
    var duplicates := DuplicateIds(tasks, existing);
    (if duplicates == [] then [] else [DuplicateId(duplicates)])
    + UnknownErrors(tasks, existing + Ids(tasks))
    + (if Acyclic(tasks) then [] else [CycleError(Unplaced(FirstSeen(tasks), order))])
  }

  method UnknownDeps(tasks: seq<DagNode>, ids: set<TaskId>) returns (errors: seq<DagError>)
    ensures errors == UnknownErrors(tasks, ids)
  {
    errors := [];
    var i := 0;
    while i < |tasks|
      invariant 0 <= i <= |tasks|
      invariant errors == UnknownErrors(tasks[..i], ids)
    {
      assert tasks[..i + 1][..i] == tasks[..i];
      var missing := MissingDeps(tasks[i].dependsOn, ids);
      if missing != [] { errors := errors + [UnknownDependency(tasks[i].id, missing)]; }
      i := i + 1;
    }
    assert tasks[..i] == tasks;
  }

  /** A batch is good if and only if there is nothing to report. */
  lemma GoodIffNoErrors(tasks: seq<DagNode>, existing: set<TaskId>, order: seq<TaskId>)
    ensures GoodBatch(tasks, existing) <==> GraphErrors(tasks, existing, order) == []
  {
    NoUnknownIff(tasks, existing + Ids(tasks));
    NoDuplicatesIff(tasks, existing);
    DuplicatesExact(tasks, existing);
    var duplicates := DuplicateIds(tasks, existing);
    hide Duplicates, DuplicateIds, Acyclic, UnknownErrors;
    assert duplicates != [] ==> duplicates[0] in duplicates;
    assert duplicates == [] <==> Duplicates(tasks, existing) == {};
  }

  lemma NoDuplicatesIff(tasks: seq<DagNode>, existing: set<TaskId>)
    ensures Duplicates(tasks, existing) == {} <==>
            && (forall i | 0 <= i < |tasks| :: tasks[i].id !in existing)
            && (forall i, j | 0 <= i < j < |tasks| :: tasks[i].id != tasks[j].id)
  {
    if i, j :| 0 <= i < j < |tasks| && tasks[i].id == tasks[j].id {
      assert tasks[j].id in Duplicates(tasks, existing);
    }
    if i :| 0 <= i < |tasks| && tasks[i].id in existing {
      assert tasks[i].id in Duplicates(tasks, existing);
    }
  }
}
