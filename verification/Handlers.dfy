/**
 * The coordinator's handlers (task-server/coordinator.ts), carried out on the two stores they share.
 *
 * `run` is the state the coordinator's machine would be in: every handler, run to its end, is proved
 * to leave the stores exactly where its sequence of atomic steps leaves the machine, so all that is
 * proved of the machine's runs holds of the stores.
 */
module Handlers {
  import opened Common
  import opened Paths
  import opened FileStore
  import opened FileHistory
  import opened DagTheory
  import opened Dag
  import opened Tasks
  import opened Scheduler
  import opened Serializability
  import opened Coordinator
  import opened Planning
  import opened CoordinatorSafety

  datatype Refusal =
    | BadDag(errors: seq<DagError>)
    | UnknownOwner(taskId: TaskId, owner: AgentId)
    | UnknownTask(taskId: TaskId)
    | NotAssigned(taskId: TaskId, state: TaskState)
    | NotOwner(agent: AgentId, taskId: TaskId)
    | BadRequest(error: HttpError)

  // ----------------------------------------------------------- handlers as steps

  function Repeat(step: Coordinator.Step, n: nat): seq<Coordinator.Step> {
    seq(n, _ => step)
  }

  /** The first task of the batch with an owner nobody knows. */
  predicate FirstUnknownOwner(batch: seq<NewTask>, agents: set<AgentId>, k: nat) {
    && k < |batch| && batch[k].owner.Some? && batch[k].owner.value !in agents
    && forall j | 0 <= j < k && batch[j].owner.Some? :: batch[j].owner.value in agents
  }

  /** What a batch is refused with, or None if it is acceptable: faults of the graph come before unknown owners. */
  ghost predicate BatchAnswer(tasks: seq<Task>, batch: seq<NewTask>, agents: set<AgentId>, fault: Option<Refusal>) {
    match fault
    case None => Acceptable(tasks, batch, agents)
    case Some(BadDag(errors)) =>
      errors != [] && exists order ::
        KahnOrder(Nodes(batch), order) && errors == GraphErrors(Nodes(batch), IdsOf(tasks), order)
    case Some(UnknownOwner(taskId, owner)) =>
      GoodBatch(Nodes(batch), IdsOf(tasks)) && exists k: nat ::
        FirstUnknownOwner(batch, agents, k) && batch[k].id == taskId && batch[k].owner == Some(owner)
    case _ => false
  }

  /** A fault is reported exactly for the batches that are not acceptable. */
  lemma FaultIffUnacceptable(tasks: seq<Task>, batch: seq<NewTask>, agents: set<AgentId>, fault: Option<Refusal>)
    requires BatchAnswer(tasks, batch, agents, fault)
    ensures fault.None? <==> Acceptable(tasks, batch, agents)
    ensures fault.Some? && fault.value.BadDag? ==> !GoodBatch(Nodes(batch), IdsOf(tasks))
    ensures fault.Some? ==> fault.value.BadDag? || fault.value.UnknownOwner?
  {
    var nodes, ids := Nodes(batch), IdsOf(tasks);
    forall order ensures GoodBatch(nodes, ids) <==> GraphErrors(nodes, ids, order) == [] { GoodIffNoErrors(nodes, ids, order); }
    hide GoodBatch, GraphErrors, KahnOrder;
    forall k: nat | FirstUnknownOwner(batch, agents, k) ensures !OwnersKnown(batch, agents) { assert batch[k] in batch; }
  }

  /** And there is only one fault to report. */
  lemma OneBatchAnswer(tasks: seq<Task>, batch: seq<NewTask>, agents: set<AgentId>, a: Option<Refusal>, b: Option<Refusal>)
    requires BatchAnswer(tasks, batch, agents, a) && BatchAnswer(tasks, batch, agents, b)
    ensures a == b
  {
    var nodes := Nodes(batch);
    FaultIffUnacceptable(tasks, batch, agents, a);
    FaultIffUnacceptable(tasks, batch, agents, b);
    hide GoodBatch, GraphErrors, Acceptable;
    if a.Some? && a.value.BadDag? && b.Some? && b.value.BadDag? {
      var x :| KahnOrder(nodes, x) && a.value.errors == GraphErrors(nodes, IdsOf(tasks), x);
      var y :| KahnOrder(nodes, y) && b.value.errors == GraphErrors(nodes, IdsOf(tasks), y);
      InputOrderIsIrrelevant(nodes, nodes, x, y);
    }
    if a.Some? && a.value.UnknownOwner? && b.Some? && b.value.UnknownOwner? {
      var i: nat :| FirstUnknownOwner(batch, agents, i) && batch[i].id == a.value.taskId && batch[i].owner == Some(a.value.owner);
      var j: nat :| FirstUnknownOwner(batch, agents, j) && batch[j].id == b.value.taskId && batch[j].owner == Some(b.value.owner);
      assert i == j;
    }
  }

  /** What a commit or a done report is refused with before anything happens. */
  function ReportFault(tasks: seq<Task>, agent: AgentId, taskId: TaskId): Option<Refusal> {
    if !Has(tasks, taskId) then Some(UnknownTask(taskId))
    else if Get(tasks, taskId).state != Assigned then Some(NotAssigned(taskId, Get(tasks, taskId).state))
    else if Get(tasks, taskId).owner != Some(agent) then Some(NotOwner(agent, taskId))
    else None
  }

  /** Which refusal it is: no such task, then not assigned, then somebody else's. */
  lemma ReportFaultExact(tasks: seq<Task>, agent: AgentId, taskId: TaskId)
    ensures (forall t | t in tasks :: t.id != taskId) ==> ReportFault(tasks, agent, taskId) == Some(UnknownTask(taskId))
    ensures forall k: nat | FirstWith(tasks, taskId, k) ::
              ReportFault(tasks, agent, taskId)
              == if tasks[k].state != Assigned then Some(NotAssigned(taskId, tasks[k].state))
                 else if tasks[k].owner != Some(agent) then Some(NotOwner(agent, taskId))
                 else None
  {
    forall k: nat | FirstWith(tasks, taskId, k) ensures k == Find(tasks, taskId) {}
  }

  /** What a commit comes to for the task: landed, one more strike, or one strike too many. */
  datatype Outcome =
    | Landed(versions: map<Path, nat>)
    | Retry(moved: seq<MovedFile>, strikes: nat)
    | Exhausted(moved: seq<MovedFile>, strikes: nat)

  function OutcomeOf(answer: Result<CommitResult, HttpError>, strikes: nat): Result<Outcome, HttpError> {
    match answer
    case Failure(e) => Failure(e)
    case Success(Committed(versions)) => Success(Landed(versions))
    case Success(Stale(moved)) =>
      Success(if strikes + 1 >= MAX_STRIKES then Exhausted(moved, strikes + 1) else Retry(moved, strikes + 1))
  }

  /** A request that cannot be normalised or is malformed never reaches the machine. */
  function CommitSteps(agent: AgentId, taskId: TaskId, rawWrites: seq<FileWrite>, rawRefs: seq<FileRef>): seq<Coordinator.Step> {
    match Prepare(rawWrites, rawRefs)
    case Failure(_) => []
    case Success((writes, refs)) => [BeginCommit(agent, taskId, writes, refs), StoreCommit(agent), RecordStrike(agent)]
  }

  /** What the file store makes of a raw commit. */
  ghost function StoreAnswer(t: Tables, agent: AgentId, taskId: TaskId, rawWrites: seq<FileWrite>, rawRefs: seq<FileRef>)
    : (Tables, Result<CommitResult, HttpError>)
  {
    match Prepare(rawWrites, rawRefs)
    case Failure(e) => (t, Failure(e))
    case Success((writes, refs)) =>
      PreparedIsWellFormed(rawWrites, rawRefs);
      var (after, result) := CommitStep(t, agent, taskId, writes, refs);
      (after, Success(result))
  }

  /** The tasks once a stale answer has cost the task a strike. */
  function Struck(tasks: seq<Task>, taskId: TaskId, strikes: nat, answer: Result<CommitResult, HttpError>): seq<Task> {
    if answer.Success? && answer.value.Stale? then Update(tasks, taskId, StrikePatch(strikes + 1)) else tasks
  }

  /** One strike more on task `k`, the third one dropping it, and nothing else. */
  ghost predicate StruckAt(before: seq<Task>, after: seq<Task>, k: nat)
    requires k < |before|
  {
    after == before[k := before[k].(strikes := before[k].strikes + 1,
                                    state := if before[k].strikes + 1 >= 3 then Dropped else before[k].state)]
  }

  lemma StruckExact(tasks: seq<Task>, taskId: TaskId, answer: Result<CommitResult, HttpError>)
    requires Has(tasks, taskId)
    ensures var after := Struck(tasks, taskId, Get(tasks, taskId).strikes, answer);
            if answer.Success? && answer.value.Stale?
            then exists k: nat | FirstWith(tasks, taskId, k) :: StruckAt(tasks, after, k)
            else after == tasks
  {
    assert FirstWith(tasks, taskId, Find(tasks, taskId));
  }

  lemma StoreAnswerExact(t: Tables, agent: AgentId, taskId: TaskId, rawWrites: seq<FileWrite>, rawRefs: seq<FileRef>)
    ensures var (after, answer) := StoreAnswer(t, agent, taskId, rawWrites, rawRefs);
            && (answer.Success? <==> Prepare(rawWrites, rawRefs).Success?)
            && (answer.Success? ==>
                  var (writes, refs) := Prepare(rawWrites, rawRefs).value;
                  && WellFormed(writes) && (after, answer.value) == CommitStep(t, agent, taskId, writes, refs))
            && (answer.Failure? ==> after == t && answer.error == Prepare(rawWrites, rawRefs).error)
  {
    hide CommitStep, Prepare, WellFormed;
    if Prepare(rawWrites, rawRefs).Success? { PreparedIsWellFormed(rawWrites, rawRefs); }
  }

  function DoneSteps(agent: AgentId, taskId: TaskId): seq<Coordinator.Step> {
    [BeginDone(agent, taskId), FinishDone(agent)]
  }

  function FetchSteps(agent: AgentId, paths: seq<Path>): seq<Coordinator.Step> {
    [BeginFetch(agent, paths)] + Repeat(FetchNext(agent), |paths| + 1)
  }

  function CreateSteps(agent: AgentId, batch: seq<NewTask>, agents: set<AgentId>, clock: int): seq<Coordinator.Step> {
    [CreateTasks(agent, batch, agents, clock)]
    + Repeat(AdoptNext(agent), |ToAdopt(StoredAll(batch, clock), agent)| + 1)
  }

  function DispatchSteps(dispatch: seq<Decision>, push: TaskId -> bool): seq<Coordinator.Step> {
    seq(|dispatch|, i requires 0 <= i < |dispatch| => DispatchNext(push(dispatch[i].taskId)))
  }

  function TickSteps(tasks: seq<Task>, idle: set<AgentId>, push: TaskId -> bool): seq<Coordinator.Step> {
    var plan := Plan(tasks, idle);
    [StartTick(idle)] + Repeat(MarkNext, |plan.markUnassigned|) + DispatchSteps(plan.dispatch, push) + [EndTick]
  }

  lemma RunOne(s: Sys, steps: seq<Coordinator.Step>, step: Coordinator.Step)
    ensures Run(s, steps + [step]) == Next(Run(s, steps), step)
  {
    assert (steps + [step])[..|steps|] == steps;
  }

  lemma RunNone(s: Sys)
    ensures Run(s, []) == s
  {}

  lemma FirstOf(s: Sys, first: Coordinator.Step, rest: seq<Coordinator.Step>)
    ensures Run(s, [first] + rest) == Run(Next(s, first), rest)
  {
    hide Next;
    RunOne(s, [], first);
    RunNone(s);
    assert [] + [first] == [first];
    hide Run;
    RunAppend(s, [first], rest);
  }

  lemma RepeatOne(s: Sys, step: Coordinator.Step, k: nat)
    ensures Run(s, Repeat(step, k + 1)) == Next(Run(s, Repeat(step, k)), step)
    ensures Run(s, Repeat(step, 0)) == s
  {
    assert Repeat(step, k + 1) == Repeat(step, k) + [step];
    RunOne(s, Repeat(step, k), step);
  }

  lemma RunTwo(s: Sys, a: Coordinator.Step, b: Coordinator.Step)
    ensures Run(s, [a, b]) == Next(Next(s, a), b)
  {
    RunOne(s, [], a);
    RunOne(s, [a], b);
    assert Run(s, []) == s && [] + [a] == [a] && [a] + [b] == [a, b];
  }

  lemma RunThree(s: Sys, a: Coordinator.Step, b: Coordinator.Step, c: Coordinator.Step)
    ensures Run(s, [a, b, c]) == Next(Next(Next(s, a), b), c)
  {
    hide Next;
    RunTwo(s, a, b);
    RunOne(s, [a, b], c);
    assert [a, b] + [c] == [a, b, c];
  }

  /** A whole done report, with no request outstanding. */
  lemma DoneRun(s: Sys, agent: AgentId, taskId: TaskId)
    requires s.requests == map[]
    ensures Run(s, DoneSteps(agent, taskId))
            == if ReportFault(s.tasks, agent, taskId).Some? then s
               else s.(tasks := Update(s.tasks, taskId, Patch(Some(Done), None)))
  {
    RunTwo(s, BeginDone(agent, taskId), FinishDone(agent));
    hide Run, Find, Update;
  }

  lemma NoFaultIff(tasks: seq<Task>, agent: AgentId, taskId: TaskId)
    ensures ReportFault(tasks, agent, taskId).None? <==> MayReport(tasks, agent, taskId)
    ensures MayReport(tasks, agent, taskId) ==> Has(tasks, taskId) && Get(tasks, taskId).id == taskId
  {}

  lemma BeginCommitIs(s: Sys, agent: AgentId, taskId: TaskId, writes: seq<FileWrite>, refs: seq<FileRef>)
    requires agent !in s.requests && MayReport(s.tasks, agent, taskId)
    ensures Next(s, BeginCommit(agent, taskId, writes, refs))
            == Put(s, agent, CommitReady(taskId, Get(s.tasks, taskId).strikes, writes, refs))
  {}

  lemma StoreCommitAnswers(s: Sys, agent: AgentId, tables: Tables, result: CommitResult)
    requires agent in s.requests && s.requests[agent].CommitReady? && WellFormed(s.requests[agent].writes)
    requires var r := s.requests[agent]; (tables, result) == CommitStep(s.tables, agent, r.taskId, r.writes, r.refs)
    ensures var r := s.requests[agent];
            var after := s.(tables := tables, ops := s.ops + [Commit(agent, r.taskId, r.writes, r.refs)]);
            Next(s, StoreCommit(agent))
            == if result.Stale? then Put(after, agent, StrikeReady(r.taskId, r.strikes + 1)) else Finish(after, agent)
  {
    hide CommitStep;
  }

  lemma PreparedRun(s: Sys, agent: AgentId, taskId: TaskId, writes: seq<FileWrite>, refs: seq<FileRef>,
                    tables: Tables, result: CommitResult)
    requires s.requests == map[] && MayReport(s.tasks, agent, taskId)
    requires WellFormed(writes) && (tables, result) == CommitStep(s.tables, agent, taskId, writes, refs)
    ensures var after := Run(s, [BeginCommit(agent, taskId, writes, refs), StoreCommit(agent), RecordStrike(agent)]);
            && after.requests == map[] && after.tick == s.tick && after.tables == tables
            && after.tasks == Struck(s.tasks, taskId, Get(s.tasks, taskId).strikes, Success(result))
  {
    NoFaultIff(s.tasks, agent, taskId);
    var strikes := Get(s.tasks, taskId).strikes;
    hide Next, Run, CommitStep, Update, Find, WellFormed, StrikePatch, Has, Get, MayReport;
    RunThree(s, BeginCommit(agent, taskId, writes, refs), StoreCommit(agent), RecordStrike(agent));
    BeginCommitIs(s, agent, taskId, writes, refs);
    var s1 := Put(s, agent, CommitReady(taskId, strikes, writes, refs));
    StoreCommitAnswers(s1, agent, tables, result);
    var s2 := Next(s1, StoreCommit(agent));
    StrikeIs(s2, agent);
    if result.Stale? {
      assert s2.requests == map[agent := StrikeReady(taskId, strikes + 1)];
    } else {
      assert s2.requests == map[];
    }
  }

  /** A whole commit, with no request outstanding: refused by the guards, malformed, stale or landed. */
  lemma CommitRun(s: Sys, agent: AgentId, taskId: TaskId, rawWrites: seq<FileWrite>, rawRefs: seq<FileRef>)
    requires s.requests == map[] && MayReport(s.tasks, agent, taskId)
    ensures var after := Run(s, CommitSteps(agent, taskId, rawWrites, rawRefs));
            var (tables, answer) := StoreAnswer(s.tables, agent, taskId, rawWrites, rawRefs);
            && after.requests == map[] && after.tick == s.tick && after.tables == tables
            && after.tasks == Struck(s.tasks, taskId, Get(s.tasks, taskId).strikes, answer)
  {
    hide Next, CommitStep, MayReport, Update, StrikePatch, Prepare, WellFormed, Get, Has;
    if Prepare(rawWrites, rawRefs).Success? {
      var (writes, refs) := Prepare(rawWrites, rawRefs).value;
      PreparedIsWellFormed(rawWrites, rawRefs);
      var (tables, result) := CommitStep(s.tables, agent, taskId, writes, refs);
      hide Run;
      PreparedRun(s, agent, taskId, writes, refs, tables, result);
    }
  }

  lemma RefusedRun(s: Sys, agent: AgentId, taskId: TaskId, rawWrites: seq<FileWrite>, rawRefs: seq<FileRef>)
    requires s.requests == map[] && !MayReport(s.tasks, agent, taskId)
    ensures Run(s, CommitSteps(agent, taskId, rawWrites, rawRefs)) == s
  {
    hide MayReport, Prepare;
    if Prepare(rawWrites, rawRefs).Success? {
      var (writes, refs) := Prepare(rawWrites, rawRefs).value;
      RunThree(s, BeginCommit(agent, taskId, writes, refs), StoreCommit(agent), RecordStrike(agent));
    }
  }

  lemma FetchIs(s: Sys, agent: AgentId, todo: seq<Path>)
    requires s.requests == map[agent := Fetching(todo)]
    ensures todo != [] ==>
              var op := Fetch(agent, todo[0]);
              Next(s, FetchNext(agent))
              == s.(requests := map[agent := Fetching(todo[1..])], ops := s.ops + [op],
                    tables := FileHistory.Step(s.tables, op))
    ensures todo == [] ==> Next(s, FetchNext(agent)) == s.(requests := map[])
  {
    hide FileHistory.Step;
  }

  lemma {:induction false} FetchesSoFar(s: Sys, agent: AgentId, paths: seq<Path>, k: nat)
    requires s.requests == map[agent := Fetching(paths)] && k <= |paths|
    ensures Run(s, Repeat(FetchNext(agent), k))
            == s.(requests := map[agent := Fetching(paths[k..])], ops := s.ops + Refetches(agent, paths[..k]),
                  tables := Exec(s.tables, Refetches(agent, paths[..k])))
  {
    hide FileHistory.Step, Next, Run, Exec;
    RunNone(s);
    NoFetch(s.tables, agent);
    if k == 0 {
      RepeatOne(s, FetchNext(agent), 0);
      assert paths[0..] == paths && s.ops + [] == s.ops;
    } else {
      FetchesSoFar(s, agent, paths, k - 1);
      var before, op := Refetches(agent, paths[..k - 1]), Fetch(agent, paths[k - 1]);
      var loop := Repeat(FetchNext(agent), k - 1);
      assert Refetches(agent, paths[..k]) == before + [op];
      assert paths[k - 1..][1..] == paths[k..] && s.ops + before + [op] == s.ops + (before + [op]);
      RepeatOne(s, FetchNext(agent), k - 1);
      ExecOne(s.tables, before, op);
      FetchIs(Run(s, loop), agent, paths[k - 1..]);
    }
  }

  lemma ExecOne(t: Tables, ops: seq<Op>, op: Op)
    ensures Exec(t, ops + [op]) == FileHistory.Step(Exec(t, ops), op)
  {
    assert (ops + [op])[..|ops|] == ops;
  }

  lemma NoFetch(t: Tables, agent: AgentId)
    ensures Exec(t, Refetches(agent, [])) == t
  {}

  lemma OneMoreFetch(t: Tables, agent: AgentId, paths: seq<Path>, path: Path)
    ensures Exec(t, Refetches(agent, paths + [path])) == FetchStep(Exec(t, Refetches(agent, paths)), agent, path).0
  {
    var before := Refetches(agent, paths);
    assert Refetches(agent, paths + [path]) == before + [Fetch(agent, path)];
    ExecOne(t, before, Fetch(agent, path));
    hide Exec;
  }

  /** A whole fetch, with no request outstanding, in one equation. */
  lemma FetchRun(s: Sys, agent: AgentId, paths: seq<Path>)
    requires s.requests == map[]
    ensures Run(s, FetchSteps(agent, paths))
            == s.(ops := s.ops + Refetches(agent, paths), tables := Exec(s.tables, Refetches(agent, paths)))
  {
    var n := |paths|;
    var begin := BeginFetch(agent, paths);
    var begun := Put(s, agent, Fetching(paths));
    assert begun == Next(s, begin);
    hide FileHistory.Step, Refetches, Exec, Next, Run;
    var loop := Repeat(FetchNext(agent), n);
    FirstOf(s, begin, loop + [FetchNext(agent)]);
    assert FetchSteps(agent, paths) == [begin] + (loop + [FetchNext(agent)]);
    RunOne(begun, loop, FetchNext(agent));
    FetchesSoFar(begun, agent, paths, n);
    assert paths[..n] == paths && paths[n..] == [];
    FetchIs(Run(begun, loop), agent, []);
  }

  /** The files a fetch of these paths answers with. */
  function FilesAt(files: Files, paths: seq<Path>): seq<FetchResult> {
    if paths == [] then []
    else
      var r := Lookup(files, paths[|paths| - 1]);
      FilesAt(files, paths[..|paths| - 1]) + if r.Found? then [r] else []
  }

  /** Exactly the live files among the paths, each as it is, in the order and as often as asked. */
  ghost predicate FilesOf(files: Files, paths: seq<Path>, found: seq<FetchResult>) {
    && (forall f | f in found ::
          f.path in files && !files[f.path].deleted
          && f == Found(f.path, files[f.path].version, files[f.path].content))
    && AsOften(files, paths, PathsFound(found))
    && Subsequence(PathsFound(found), paths)
  }

  ghost predicate AsOften(files: Files, paths: seq<Path>, live: seq<Path>) {
    forall p :: multiset(live)[p] == if p in files && !files[p].deleted then multiset(paths)[p] else 0
  }

  function PathsFound(found: seq<FetchResult>): seq<Path> {
    seq(|found|, i requires 0 <= i < |found| => found[i].path)
  }

  lemma {:induction false} FilesAtExact(files: Files, paths: seq<Path>)
    ensures FilesOf(files, paths, FilesAt(files, paths))
  {
    if paths != [] {
      var n := |paths| - 1;
      var before, p := FilesAt(files, paths[..n]), paths[n];
      FilesAtExact(files, paths[..n]);
      OneMoreFile(files, paths[..n], before, p);
      assert paths[..n] + [p] == paths && before + [] == before;
      hide FilesOf;
    }
  }

  lemma OneMoreLive(files: Files, paths: seq<Path>, live: seq<Path>, p: Path)
    requires AsOften(files, paths, live)
    ensures AsOften(files, paths + [p], if p in files && !files[p].deleted then live + [p] else live)
  {}

  lemma OneMoreFile(files: Files, paths: seq<Path>, found: seq<FetchResult>, p: Path)
    requires FilesOf(files, paths, found)
    ensures FilesOf(files, paths + [p], found + if Lookup(files, p).Found? then [Lookup(files, p)] else [])
  {
    hide Subsequence, AsOften;
    OneMoreLive(files, paths, PathsFound(found), p);
    SubsequenceKeep(PathsFound(found), paths, p);
    if Lookup(files, p).Found? {
      var f := Found(p, files[p].version, files[p].content);
      assert PathsFound(found + [f]) == PathsFound(found) + [p];
      hide PathsFound;
      assert forall g | g in found + [f] :: g in found || g == f;
    } else {
      assert found + [] == found;
    }
  }

  // ------------------------------------------------- what handlers do to the tasks

  /** The states after a plan's marks: the marked tasks are unassigned, every other task is as it was. */
  ghost predicate MarkedAs(before: seq<Task>, after: seq<Task>, marks: seq<TaskId>) {
    && |after| == |before|
    && forall i | 0 <= i < |before| ::
         after[i] == before[i].(state := if before[i].id in marks then Unassigned else before[i].state)
  }

  predicate Names(dispatch: seq<Decision>, id: TaskId) {
    exists d | d in dispatch :: d.taskId == id
  }

  /** The states after the dispatches: what was unassigned is assigned if its push went through, and no other task moves. */
  ghost predicate DispatchedAs(before: seq<Task>, after: seq<Task>, dispatch: seq<Decision>, push: TaskId -> bool) {
    && |after| == |before|
    && forall i | 0 <= i < |before| ::
         after[i] == before[i].(state := if Names(dispatch, before[i].id) && before[i].state == Unassigned
                                         then if push(before[i].id) then Assigned else Unassigned
                                         else before[i].state)
  }

  /** The states after a whole tick. */
  ghost predicate TickedAs(before: seq<Task>, after: seq<Task>, plan: SchedulerPlan, push: TaskId -> bool) {
    && |after| == |before|
    && forall i | 0 <= i < |before| ::
         after[i] == before[i].(state := if Names(plan.dispatch, before[i].id)
                                         then if push(before[i].id) then Assigned else Unassigned
                                         else if before[i].id in plan.markUnassigned then Unassigned
                                         else before[i].state)
  }

  lemma {:induction false} MarksDone(s: Sys, marks: seq<TaskId>, dispatch: seq<Decision>, k: nat)
    requires UniqueIds(s.tasks) && s.tick == Applying(marks, dispatch) && k <= |marks|
    ensures var after := Run(s, Repeat(MarkNext, k));
            after.tick == Applying(marks[k..], dispatch) && UniqueIds(after.tasks) && MarkedAs(s.tasks, after.tasks, marks[..k])
  {
    hide Next, Run, Update, UniqueIds;
    if k == 0 {
      RepeatOne(s, MarkNext, 0);
      assert marks[0..] == marks;
    } else {
      MarksDone(s, marks, dispatch, k - 1);
      var before := Run(s, Repeat(MarkNext, k - 1));
      RepeatOne(s, MarkNext, k - 1);
      MarkIs(before, marks[k - 1..], dispatch);
      UpdateExact(before.tasks, marks[k - 1], Patch(Some(Unassigned), None));
      assert marks[k - 1..][1..] == marks[k..] && marks[..k] == marks[..k - 1] + [marks[k - 1]];
      hide Repeat;
    }
  }

  /** One dispatch, on a list with unique ids. */
  lemma DispatchOnce(tasks: seq<Task>, id: TaskId, pushed: bool)
    requires UniqueIds(tasks)
    ensures var taken := SetState(tasks, id, Assigned);
            var after := if Has(tasks, id) && Get(tasks, id).state == Unassigned
                         then if pushed then taken else SetState(taken, id, Unassigned)
                         else tasks;
            && |after| == |tasks| && UniqueIds(after)
            && forall i | 0 <= i < |tasks| ::
                 after[i] == if tasks[i].id == id && tasks[i].state == Unassigned
                             then tasks[i].(state := if pushed then Assigned else Unassigned) else tasks[i]
  {
    forall i | 0 <= i < |tasks| && tasks[i].id == id ensures Has(tasks, id) && Get(tasks, id) == tasks[i] { FindUnique(tasks, i); }
    hide Find, Has, Get, Update;
    UpdateExact(tasks, id, Patch(Some(Assigned), None));
    UpdateExact(SetState(tasks, id, Assigned), id, Patch(Some(Unassigned), None));
    hide UniqueIds;
  }

  lemma {:induction false} DispatchesDone(s: Sys, dispatch: seq<Decision>, push: TaskId -> bool, k: nat)
    requires UniqueIds(s.tasks) && s.tick == Applying([], dispatch) && k <= |dispatch|
    ensures var after := Run(s, DispatchSteps(dispatch[..k], push));
            && after.tick == Applying([], dispatch[k..]) && UniqueIds(after.tasks)
            && DispatchedAs(s.tasks, after.tasks, dispatch[..k], push)
  {
    hide Next, Run, Update, UniqueIds, Has, Get;
    if k == 0 {
      assert DispatchSteps(dispatch[..0], push) == [] && dispatch[0..] == dispatch;
      RunNone(s);
    } else {
      DispatchesDone(s, dispatch, push, k - 1);
      var steps, id := DispatchSteps(dispatch[..k - 1], push), dispatch[k - 1].taskId;
      var before, step := Run(s, steps), DispatchNext(push(id));
      assert DispatchSteps(dispatch[..k], push) == steps + [step];
      RunOne(s, steps, step);
      DispatchIs(before, dispatch[k - 1..], push(id));
      DispatchOnce(before.tasks, id, push(id));
      assert dispatch[k - 1..][1..] == dispatch[k..] && dispatch[..k] == dispatch[..k - 1] + [dispatch[k - 1]];
      hide DispatchSteps, SetState;
      OneMoreDispatched(s.tasks, before.tasks, Next(before, step).tasks, dispatch[..k - 1], dispatch[k - 1], push);
    }
  }

  lemma OneMoreDispatched(before: seq<Task>, mid: seq<Task>, after: seq<Task>, dispatch: seq<Decision>, d: Decision,
                          push: TaskId -> bool)
    requires DispatchedAs(before, mid, dispatch, push)
    requires |after| == |mid| && forall i | 0 <= i < |mid| ::
               after[i] == if mid[i].id == d.taskId && mid[i].state == Unassigned
                           then mid[i].(state := if push(d.taskId) then Assigned else Unassigned) else mid[i]
    ensures DispatchedAs(before, after, dispatch + [d], push)
  {
    forall id ensures Names(dispatch + [d], id) <==> Names(dispatch, id) || id == d.taskId {
      assert d in dispatch + [d];
    }
    hide Names;
  }

  /** What a plan dispatches is unassigned once its marks are applied. */
  lemma PlannedIsUnassigned(tasks: seq<Task>, idle: set<AgentId>, i: nat)
    requires UniqueIds(tasks) && i < |tasks| && Names(Plan(tasks, idle).dispatch, tasks[i].id)
    ensures tasks[i].state == Unassigned || tasks[i].id in Plan(tasks, idle).markUnassigned
  {
    var d :| d in Plan(tasks, idle).dispatch && d.taskId == tasks[i].id;
    PlanDispatch(tasks, idle);
    PlanMarks(tasks, idle);
    hide Plan, DependenciesDone, Earlier;
    var t :| Dispatches(tasks, idle, d, t);
    SameTask(tasks, t, tasks[i]);
  }

  lemma TickStates(tasks: seq<Task>, idle: set<AgentId>, push: TaskId -> bool, marked: seq<Task>, after: seq<Task>)
    requires UniqueIds(tasks)
    requires MarkedAs(tasks, marked, Plan(tasks, idle).markUnassigned)
    requires DispatchedAs(marked, after, Plan(tasks, idle).dispatch, push)
    ensures TickedAs(tasks, after, Plan(tasks, idle), push)
  {
    hide Plan, Names, UniqueIds;
    forall i | 0 <= i < |tasks| && Names(Plan(tasks, idle).dispatch, tasks[i].id)
      ensures tasks[i].state == Unassigned || tasks[i].id in Plan(tasks, idle).markUnassigned
    {
      PlannedIsUnassigned(tasks, idle, i);
    }
  }

  /** The created tasks, and those of them their creator can start at once already assigned. */
  ghost predicate CreatedAs(before: seq<Task>, after: seq<Task>, batch: seq<NewTask>, agent: AgentId, clock: int) {
    && |after| == |before| + |batch|
    && (forall i | 0 <= i < |before| :: after[i] == before[i])
    && forall i | 0 <= i < |batch| ::
         after[|before| + i] == Task(batch[i].id, batch[i].owner, batch[i].dependsOn, batch[i].writes,
                                     if batch[i].dependsOn != [] then Blocked
                                     else if batch[i].owner == Some(agent) then Assigned else Unassigned, 0, clock)
  }

  lemma {:induction false} AdoptionsDone(s: Sys, agent: AgentId, todo: seq<TaskId>, k: nat)
    requires UniqueIds(s.tasks) && s.requests == map[agent := Adopting(todo)] && k <= |todo|
    ensures var after := Run(s, Repeat(AdoptNext(agent), k));
            && after.requests == map[agent := Adopting(todo[k..])] && UniqueIds(after.tasks) && |after.tasks| == |s.tasks|
            && forall i | 0 <= i < |s.tasks| ::
                 after.tasks[i] == s.tasks[i].(state := if s.tasks[i].id in todo[..k] then Assigned else s.tasks[i].state)
  {
    hide Next, Run, Update, UniqueIds;
    if k == 0 {
      RepeatOne(s, AdoptNext(agent), 0);
      assert todo[0..] == todo;
    } else {
      AdoptionsDone(s, agent, todo, k - 1);
      var before := Run(s, Repeat(AdoptNext(agent), k - 1));
      RepeatOne(s, AdoptNext(agent), k - 1);
      AdoptIs(before, agent, todo[k - 1..]);
      UpdateExact(before.tasks, todo[k - 1], Patch(Some(Assigned), None));
      assert todo[k - 1..][1..] == todo[k..] && todo[..k] == todo[..k - 1] + [todo[k - 1]];
      hide Repeat;
    }
  }

  lemma {:induction false} ToAdoptIff(created: seq<Task>, agent: AgentId, i: nat)
    requires UniqueIds(created) && i < |created|
    ensures created[i].id in ToAdopt(created, agent) <==> Adopts(created[i], agent)
  {
    if i > 0 {
      ToAdoptIff(created[1..], agent, i - 1);
    } else if created[0].id in ToAdopt(created[1..], agent) {
      ToAdoptFrom(created[1..], agent, created[0].id);
    }
  }

  lemma {:induction false} ToAdoptFrom(created: seq<Task>, agent: AgentId, id: TaskId)
    requires id in ToAdopt(created, agent)
    ensures exists t | t in created :: t.id == id
  {
    if id in ToAdopt(created[1..], agent) {
      ToAdoptFrom(created[1..], agent, id);
      var t :| t in created[1..] && t.id == id;
      assert t in created;
    } else {
      assert created[0] in created;
    }
  }

  lemma AdoptIs(s: Sys, agent: AgentId, todo: seq<TaskId>)
    requires s.requests == map[agent := Adopting(todo)]
    ensures todo != [] ==>
              Next(s, AdoptNext(agent))
              == s.(requests := map[agent := Adopting(todo[1..])], tasks := SetState(s.tasks, todo[0], Assigned),
                    adopted := s.adopted + {todo[0]})
    ensures todo == [] ==> Next(s, AdoptNext(agent)) == s.(requests := map[])
  {}

  lemma ToAdoptNext(created: seq<Task>, agent: AgentId, i: nat)
    requires i < |created|
    ensures ToAdopt(created[i..], agent)
            == (if Adopts(created[i], agent) then [created[i].id] else []) + ToAdopt(created[i + 1..], agent)
  {
    assert created[i..][1..] == created[i + 1..];
  }

  lemma NothingToAdopt(created: seq<Task>, agent: AgentId)
    requires created == []
    ensures ToAdopt(created, agent) == []
  {}

  lemma CreateIs(s: Sys, agent: AgentId, batch: seq<NewTask>, agents: set<AgentId>, clock: int)
    requires s.requests == map[] && Acceptable(s.tasks, batch, agents)
    ensures var created := StoredAll(batch, clock);
            Next(s, CreateTasks(agent, batch, agents, clock))
            == s.(tasks := s.tasks + created, requests := map[agent := Adopting(ToAdopt(created, agent))])
  {
    hide Acceptable;
  }

  lemma StartIs(s: Sys, idle: set<AgentId>)
    requires s.tick.NoTick?
    ensures var plan := Plan(s.tasks, idle);
            Next(s, StartTick(idle)) == s.(tick := Applying(plan.markUnassigned, plan.dispatch))
  {
    hide Plan;
  }

  lemma EndIs(s: Sys)
    requires s.tick == Applying([], [])
    ensures Next(s, EndTick) == s.(tick := NoTick)
  {}

  /** The four stretches of a tick, put end to end. */
  lemma TickRun(s: Sys, idle: set<AgentId>, push: TaskId -> bool)
    ensures var plan := Plan(s.tasks, idle);
            var planned := Next(s, StartTick(idle));
            var marked := Run(planned, Repeat(MarkNext, |plan.markUnassigned|));
            var dispatched := Run(marked, DispatchSteps(plan.dispatch, push));
            Run(s, TickSteps(s.tasks, idle, push)) == Next(dispatched, EndTick)
  {
    hide Plan, Next;
    var plan := Plan(s.tasks, idle);
    var first, second := Repeat(MarkNext, |plan.markUnassigned|), DispatchSteps(plan.dispatch, push);
    FirstOf(s, StartTick(idle), first);
    hide Run;
    RunAppend(s, [StartTick(idle)] + first, second);
    RunOne(s, [StartTick(idle)] + first + second, EndTick);
  }

  /** A create request is its creation, then its adoptions. */
  lemma CreateRunIs(s: Sys, agent: AgentId, batch: seq<NewTask>, agents: set<AgentId>, clock: int)
    requires s.requests == map[] && Acceptable(s.tasks, batch, agents)
    ensures var created := StoredAll(batch, clock);
            var todo := ToAdopt(created, agent);
            var s1 := s.(tasks := s.tasks + created, requests := map[agent := Adopting(todo)]);
            var s2 := Run(s1, Repeat(AdoptNext(agent), |todo|));
            Run(s, CreateSteps(agent, batch, agents, clock)) == Next(s2, AdoptNext(agent))
  {
    var first, n := CreateTasks(agent, batch, agents, clock), |ToAdopt(StoredAll(batch, clock), agent)|;
    hide Next, Run, Acceptable, ToAdopt, StoredAll, Repeat;
    CreateIs(s, agent, batch, agents, clock);
    FirstOf(s, first, Repeat(AdoptNext(agent), n + 1));
    RepeatOne(Next(s, first), AdoptNext(agent), n);
  }

  lemma BatchKeepsUnique(tasks: seq<Task>, batch: seq<NewTask>, agents: set<AgentId>, clock: int)
    requires UniqueIds(tasks) && Acceptable(tasks, batch, agents)
    ensures UniqueIds(tasks + StoredAll(batch, clock))
  {
    BatchView(batch, clock, IdsOf(tasks));
    hide View, IdsOf, GoodBatch, StoredAll, UniqueIds;
    ViewAppend(tasks, StoredAll(batch, clock));
  }

  /** A whole create request, on a list with unique ids. */
  lemma CreateStates(s: Sys, agent: AgentId, batch: seq<NewTask>, agents: set<AgentId>, clock: int)
    requires UniqueIds(s.tasks) && s.requests == map[] && Acceptable(s.tasks, batch, agents)
    ensures CreatedAs(s.tasks, Run(s, CreateSteps(agent, batch, agents, clock)).tasks, batch, agent, clock)
  {
    var created := StoredAll(batch, clock);
    var todo := ToAdopt(created, agent);
    var s1 := s.(tasks := s.tasks + created, requests := map[agent := Adopting(todo)]);
    hide Next, Run, Acceptable, UniqueIds, CreateSteps, ToAdopt, StoredAll, CreatedAs;
    CreateRunIs(s, agent, batch, agents, clock);
    BatchKeepsUnique(s.tasks, batch, agents, clock);
    AdoptionsDone(s1, agent, todo, |todo|);
    assert todo[|todo|..] == [] && todo[..|todo|] == todo;
    var s2 := Run(s1, Repeat(AdoptNext(agent), |todo|));
    AdoptIs(s2, agent, []);
    AdoptedAmong(s.tasks, batch, agent, clock, s2.tasks);
  }

  lemma NewIdsDiffer(before: seq<Task>, created: seq<Task>)
    requires UniqueIds(before + created)
    ensures forall i, t | 0 <= i < |before| && t in created :: before[i].id != t.id
  {
    var all := before + created;
    forall i, j | 0 <= i < |before| && 0 <= j < |created| ensures before[i].id != created[j].id {
      assert all[i].id != all[|before| + j].id;
    }
  }

  lemma AdoptedAmong(before: seq<Task>, batch: seq<NewTask>, agent: AgentId, clock: int, after: seq<Task>)
    requires UniqueIds(before + StoredAll(batch, clock))
    requires var all := before + StoredAll(batch, clock);
             |after| == |all| && forall i | 0 <= i < |all| ::
               after[i] == all[i].(state := if all[i].id in ToAdopt(StoredAll(batch, clock), agent) then Assigned else all[i].state)
    ensures CreatedAs(before, after, batch, agent, clock)
  {
    var created := StoredAll(batch, clock);
    var all := before + created;
    assert forall i | 0 <= i < |created| :: all[|before| + i] == created[i];
    NewIdsDiffer(before, created);
    forall id | id in ToAdopt(created, agent) ensures exists t | t in created :: t.id == id { ToAdoptFrom(created, agent, id); }
    forall i | 0 <= i < |batch| ensures created[i].id in ToAdopt(created, agent) <==> Adopts(created[i], agent) {
      ToAdoptIff(created, agent, i);
    }
    hide ToAdopt, UniqueIds;
  }

  lemma MarkIs(s: Sys, marks: seq<TaskId>, dispatch: seq<Decision>)
    requires s.tick == Applying(marks, dispatch) && marks != []
    ensures Next(s, MarkNext)
            == s.(tasks := SetState(s.tasks, marks[0], Unassigned), tick := Applying(marks[1..], dispatch))
  {}

  lemma DispatchIs(s: Sys, dispatch: seq<Decision>, pushed: bool)
    requires s.tick == Applying([], dispatch) && dispatch != []
    ensures var id := dispatch[0].taskId;
            var taken := SetState(s.tasks, id, Assigned);
            Next(s, DispatchNext(pushed))
            == s.(tick := Applying([], dispatch[1..]),
                  tasks := if Has(s.tasks, id) && Get(s.tasks, id).state == Unassigned
                           then if pushed then taken else SetState(taken, id, Unassigned)
                           else s.tasks)
  {}

  // ------------------------------------------------------------------- the class

  class TaskServer {
    const taskStore: TaskStore
    const fileStore: FileStore
    ghost var run: Sys

    /** Between handlers: the stores hold what the machine holds, and no request or tick is half done. */
    ghost predicate Valid()
      reads this, taskStore, fileStore
    {
      && taskStore.tasks == run.tasks && fileStore.Contents() == run.tables
      && run.requests == map[] && run.tick == NoTick
    }

    constructor (taskStore: TaskStore, fileStore: FileStore)
      requires taskStore.tasks == []
      ensures Valid() && this.taskStore == taskStore && this.fileStore == fileStore
      ensures run == Boot(fileStore.Contents())
    {
      this.taskStore, this.fileStore := taskStore, fileStore;
      run := Boot(fileStore.Contents());
    }

    /** Everything the batch is checked for, before it is stored. */
    method Validate(batch: seq<NewTask>, agents: set<AgentId>) returns (fault: Option<Refusal>)
      ensures BatchAnswer(taskStore.tasks, batch, agents, fault)
      ensures fault.Some? && fault.value.UnknownOwner? ==>
                exists k: nat :: k < |batch| && fault.value.taskId == batch[k].id
                                 && batch[k].owner == Some(fault.value.owner) && fault.value.owner !in agents
                                 && forall j | 0 <= j < k && batch[j].owner.Some? :: batch[j].owner.value in agents
    {
      var tasks := taskStore.List();
      hide GoodBatch, GraphErrors, KahnOrder;
      var ok, errors, order := ValidateDag(Nodes(batch), IdsOf(tasks));
      if !ok { return Some(BadDag(errors)); }
      var i := 0;
      while i < |batch|
        invariant 0 <= i <= |batch|
        invariant forall j | 0 <= j < i && batch[j].owner.Some? :: batch[j].owner.value in agents
      {
        if batch[i].owner.Some? && batch[i].owner.value !in agents {
          assert FirstUnknownOwner(batch, agents, i);
          return Some(UnknownOwner(batch[i].id, batch[i].owner.value));
        }
        i := i + 1;
      }
      return None;
    }

    method SubmitTasks(batch: seq<NewTask>, agents: set<AgentId>, clock: int) returns (r: Result<seq<Task>, Refusal>)
      requires Valid()
      modifies this, taskStore
      ensures Valid() && run == Next(old(run), Submit(batch, agents, clock))
      ensures BatchAnswer(old(taskStore.tasks), batch, agents, if r.Success? then None else Some(r.error))
      ensures r.Success? ==> r.value == StoredAll(batch, clock)
      ensures taskStore.tasks == old(taskStore.tasks) + if r.Success? then StoredAll(batch, clock) else []
    {
      hide Acceptable, GraphErrors, KahnOrder, GoodBatch;
      run := Next(run, Submit(batch, agents, clock));
      var fault := Validate(batch, agents);
      FaultIffUnacceptable(taskStore.tasks, batch, agents, fault);
      if fault.Some? { return Failure(fault.value); }
      var created := taskStore.CreateMany(batch, clock);
      return Success(created);
    }

    /** The guards shared by commits and done reports. */
    method CheckReport(agent: AgentId, taskId: TaskId) returns (fault: Option<Refusal>)
      ensures fault == ReportFault(taskStore.tasks, agent, taskId)
    {
      var task := taskStore.Lookup(taskId);
      if task.None? { return Some(UnknownTask(taskId)); }
      if task.value.state != Assigned { return Some(NotAssigned(taskId, task.value.state)); }
      if task.value.owner != Some(agent) { return Some(NotOwner(agent, taskId)); }
      return None;
    }

    /** Commits on the task's behalf and decides what a stale answer costs it. */
    method EvaluateCommit(task: Task, agent: AgentId, rawWrites: seq<FileWrite>, rawRefs: seq<FileRef>)
      returns (r: Result<Outcome, HttpError>)
      modifies fileStore
      ensures var (tables, answer) := StoreAnswer(old(fileStore.Contents()), agent, task.id, rawWrites, rawRefs);
              fileStore.Contents() == tables && r == OutcomeOf(answer, task.strikes)
    {
      hide CommitStep, Prepare, WellFormed;
      var result := fileStore.Commit(agent, task.id, rawWrites, rawRefs);
      if result.Failure? { return Failure(result.error); }
      if result.value.Committed? { return Success(Landed(result.value.versions)); }
      var strikes := task.strikes + 1;
      if strikes >= MAX_STRIKES { return Success(Exhausted(result.value.moved, strikes)); }
      return Success(Retry(result.value.moved, strikes));
    }

    method OnDone(agent: AgentId, taskId: TaskId) returns (r: Result<(), Refusal>)
      requires Valid()
      modifies this, taskStore
      ensures Valid() && run == Run(old(run), DoneSteps(agent, taskId))
      ensures match ReportFault(old(taskStore.tasks), agent, taskId)
              case Some(fault) => r == Failure(fault) && run == old(run) && taskStore.tasks == old(taskStore.tasks)
              case None =>
                && r.Success?
                && exists k: nat | FirstWith(old(taskStore.tasks), taskId, k) ::
                     taskStore.tasks == old(taskStore.tasks)[k := old(taskStore.tasks)[k].(state := Done)]
    {
      DoneRun(run, agent, taskId);
      run := Run(run, DoneSteps(agent, taskId));
      hide Run, DoneSteps, Find, Update;
      var fault := CheckReport(agent, taskId);
      if fault.Some? { return Failure(fault.value); }
      var updated := taskStore.Overwrite(taskId, Patch(Some(Done), None));
      return Success(());
    }

    /** The machine's steps on the normalised request; refused requests come out of them unchanged. */
    method OnCommit(agent: AgentId, taskId: TaskId, rawWrites: seq<FileWrite>, rawRefs: seq<FileRef>)
      returns (r: Result<CommitResult, Refusal>)
      requires Valid()
      modifies this, taskStore, fileStore
      ensures Valid() && run == Run(old(run), CommitSteps(agent, taskId, rawWrites, rawRefs))
      ensures match ReportFault(old(taskStore.tasks), agent, taskId)
              case Some(fault) => r == Failure(fault) && run == old(run)
              case None =>
                match StoreAnswer(old(fileStore.Contents()), agent, taskId, rawWrites, rawRefs).1
                case Failure(e) => r == Failure(BadRequest(e))
                case Success(result) => r == Success(result)
      ensures r.Success? ==>
                && Prepare(rawWrites, rawRefs).Success?
                && var (writes, refs) := Prepare(rawWrites, rawRefs).value;
                   && WellFormed(writes)
                   && (fileStore.Contents(), r.value) == CommitStep(old(fileStore.Contents()), agent, taskId, writes, refs)
      ensures r.Failure? ==> fileStore.Contents() == old(fileStore.Contents())
      ensures if r.Success? && r.value.Stale?
              then exists k: nat | FirstWith(old(taskStore.tasks), taskId, k) ::
                     StruckAt(old(taskStore.tasks), taskStore.tasks, k)
              else taskStore.tasks == old(taskStore.tasks)
    {
      hide Next, Run, CommitSteps, StoreAnswer, Struck, Find;
      NoFaultIff(run.tasks, agent, taskId);
      var fault := CheckReport(agent, taskId);
      if fault.Some? {
        RefusedRun(run, agent, taskId, rawWrites, rawRefs);
        return Failure(fault.value);
      }
      CommitRun(run, agent, taskId, rawWrites, rawRefs);
      run := Run(run, CommitSteps(agent, taskId, rawWrites, rawRefs));
      var task := taskStore.Lookup(taskId);
      StoreAnswerExact(fileStore.Contents(), agent, taskId, rawWrites, rawRefs);
      ghost var was := taskStore.tasks;
      var answer := CommitFor(task.value, agent, rawWrites, rawRefs);
      StruckExact(was, taskId, answer);
      return match answer case Success(result) => Success(result) case Failure(e) => Failure(BadRequest(e));
    }

    /** The part of a commit after the guards: evaluate, then write the strike. */
    method CommitFor(task: Task, agent: AgentId, rawWrites: seq<FileWrite>, rawRefs: seq<FileRef>)
      returns (r: Result<CommitResult, HttpError>)
      modifies taskStore, fileStore
      ensures (fileStore.Contents(), r) == StoreAnswer(old(fileStore.Contents()), agent, task.id, rawWrites, rawRefs)
      ensures taskStore.tasks == Struck(old(taskStore.tasks), task.id, task.strikes, r)
    {
      hide Update, StoreAnswer;
      ghost var answer := StoreAnswer(fileStore.Contents(), agent, task.id, rawWrites, rawRefs).1;
      var outcome := EvaluateCommit(task, agent, rawWrites, rawRefs);
      match outcome {
        case Failure(e) =>
          return Failure(e);
        case Success(Landed(versions)) =>
          return Success(Committed(versions));
        case Success(Retry(moved, strikes)) =>
          var struck := taskStore.Overwrite(task.id, Patch(None, Some(strikes)));
          r := Success(Stale(moved));
        case Success(Exhausted(moved, strikes)) =>
          var dropped := taskStore.Overwrite(task.id, Patch(Some(Dropped), Some(strikes)));
          r := Success(Stale(moved));
      }
    }

    /** Fetches one path after the other; the first bad path ends the request. */
    method FetchAll(agent: AgentId, rawPaths: seq<string>)
      returns (found: seq<FetchResult>, fault: Option<HttpError>, ghost paths: seq<Path>)
      modifies fileStore
      ensures |paths| <= |rawPaths| && NormalizeAll(rawPaths[..|paths|]) == Success(paths)
      ensures fileStore.Contents() == Exec(old(fileStore.Contents()), Refetches(agent, paths))
      ensures found == FilesAt(old(fileStore.files), paths) && FilesOf(old(fileStore.files), paths, found)
      ensures if fault.Some? then |paths| < |rawPaths| && NormalizePath(rawPaths[|paths|]) == Failure(fault.value)
              else |paths| == |rawPaths|
    {
      hide NormalizePath, FileHistory.Step, Refetches, Exec, Lookup;
      ghost var was := fileStore.Contents();
      forall paths ensures FilesOf(was.files, paths, FilesAt(was.files, paths)) { FilesAtExact(was.files, paths); }
      hide FilesOf;
      NoFetch(was, agent);
      found, fault, paths := [], None, [];
      var i := 0;
      while i < |rawPaths|
        invariant 0 <= i <= |rawPaths| && i == |paths|
        invariant NormalizeAll(rawPaths[..i]) == Success(paths)
        invariant found == FilesAt(was.files, paths)
        invariant fileStore.Contents() == Exec(was, Refetches(agent, paths))
        invariant fileStore.files == was.files
      {
        assert rawPaths[..i + 1][..i] == rawPaths[..i];
        var one := fileStore.Fetch(agent, rawPaths[i]);
        if one.Failure? { return found, Some(one.error), paths; }
        ghost var path := NormalizePath(rawPaths[i]).value;
        OneMoreFetch(was, agent, paths, path);
        assert (paths + [path])[..i] == paths;
        if one.value.Found? { found := found + [one.value]; }
        paths := paths + [path];
        i := i + 1;
      }
      assert rawPaths[..i] == rawPaths;
    }

    method OnFetch(agent: AgentId, rawPaths: seq<string>)
      returns (r: Result<seq<FetchResult>, Refusal>, ghost paths: seq<Path>)
      requires Valid()
      modifies this, fileStore
      ensures Valid() && run == Run(old(run), FetchSteps(agent, paths))
      ensures |paths| <= |rawPaths| && NormalizeAll(rawPaths[..|paths|]) == Success(paths)
      ensures fileStore.files == old(fileStore.files) && taskStore.tasks == old(taskStore.tasks)
      ensures RecordCovers(Recorded(old(fileStore.Contents()), agent), Recorded(fileStore.Contents(), agent),
                           old(fileStore.files), paths)
      ensures match r
              case Success(found) =>
                |paths| == |rawPaths| && found == FilesAt(old(fileStore.files), paths)
                && FilesOf(old(fileStore.files), paths, found)
              case Failure(fault) =>
                |paths| < |rawPaths| && fault.BadRequest? && NormalizePath(rawPaths[|paths|]) == Failure(fault.error)
    {
      hide NormalizePath, Run, Refetches, Exec, FetchSteps, FilesAt, FilesOf, RecordCovers;
      ghost var was := fileStore.Contents();
      var found, fault;
      found, fault, paths := FetchAll(agent, rawPaths);
      FetchesRecord(was, agent, paths);
      FetchRun(run, agent, paths);
      run := Run(run, FetchSteps(agent, paths));
      r := if fault.Some? then Failure(BadRequest(fault.value)) else Success(found);
    }

    /** Creates the tasks and takes over, one by one, those their creator can start at once. */
    method OnCreateTasks(agent: AgentId, batch: seq<NewTask>, agents: set<AgentId>, clock: int)
      returns (r: Result<seq<TaskId>, Refusal>)
      requires Valid()
      modifies this, taskStore
      ensures Valid()
      ensures BatchAnswer(old(taskStore.tasks), batch, agents, if r.Success? then None else Some(r.error))
      ensures match r
              case Failure(_) => run == old(run) && taskStore.tasks == old(taskStore.tasks)
              case Success(ids) =>
                && |ids| == |batch| && (forall i | 0 <= i < |ids| :: ids[i] == batch[i].id)
                && run == Run(old(run), CreateSteps(agent, batch, agents, clock))
                && (UniqueIds(old(taskStore.tasks)) ==>
                      CreatedAs(old(taskStore.tasks), taskStore.tasks, batch, agent, clock))
    {
      hide Acceptable, Next, Run, Find;
      ghost var was := run;
      var fault := Validate(batch, agents);
      FaultIffUnacceptable(taskStore.tasks, batch, agents, fault);
      if fault.Some? { return Failure(fault.value); }
      var created := taskStore.CreateMany(batch, clock);
      ghost var first := CreateTasks(agent, batch, agents, clock);
      ghost var todo := ToAdopt(created, agent);
      CreateIs(was, agent, batch, agents, clock);
      run := Next(was, first);
      AdoptAll(agent, created);
      FirstOf(was, first, Repeat(AdoptNext(agent), |todo| + 1));
      if UniqueIds(was.tasks) { CreateStates(was, agent, batch, agents, clock); }
      return Success(seq(|created|, i requires 0 <= i < |created| => created[i].id));
    }

    /** In the middle of `onCreateTasks`, with these adoptions still to make. */
    ghost predicate StillAdopting(agent: AgentId, todo: seq<TaskId>)
      reads this, taskStore, fileStore
    {
      && taskStore.tasks == run.tasks && fileStore.Contents() == run.tables
      && run.requests == map[agent := Adopting(todo)] && run.tick == NoTick
    }

    method Adopt(agent: AgentId, id: TaskId, ghost todo: seq<TaskId>)
      requires todo != [] && todo[0] == id && StillAdopting(agent, todo)
      modifies this, taskStore
      ensures StillAdopting(agent, todo[1..]) && run == Next(old(run), AdoptNext(agent))
    {
      hide Next, Update;
      AdoptIs(run, agent, todo);
      run := Next(run, AdoptNext(agent));
      var updated := taskStore.Overwrite(id, Patch(Some(Assigned), None));
    }

    ghost method NoneLeft(agent: AgentId)
      requires StillAdopting(agent, [])
      modifies this
      ensures Valid() && run == Next(old(run), AdoptNext(agent))
    {
      AdoptIs(run, agent, []);
      run := Next(run, AdoptNext(agent));
    }

    method AdoptAll(agent: AgentId, created: seq<Task>)
      requires StillAdopting(agent, ToAdopt(created, agent))
      modifies this, taskStore
      ensures Valid() && run == Run(old(run), Repeat(AdoptNext(agent), |ToAdopt(created, agent)| + 1))
    {
      ghost var was, k: nat := run, 0;
      ghost var step := AdoptNext(agent);
      RepeatOne(was, step, 0);
      hide Next, Run, Repeat, StillAdopting, Valid, ToAdopt;
      var i := 0;
      assert created[i..] == created;
      while i < |created|
        invariant 0 <= i <= |created|
        invariant k + |ToAdopt(created[i..], agent)| == |ToAdopt(created, agent)|
        invariant StillAdopting(agent, ToAdopt(created[i..], agent))
        invariant run == Run(was, Repeat(step, k))
      {
        var task := created[i];
        ghost var todo := ToAdopt(created[i..], agent);
        ToAdoptNext(created, agent, i);
        i := i + 1;
        if task.owner == Some(agent) && |task.dependsOn| == 0 && task.state == Unassigned {
          RepeatOne(was, step, k);
          Adopt(agent, task.id, todo);
          assert todo[1..] == ToAdopt(created[i..], agent);
          k := k + 1;
        } else {
          assert todo == ToAdopt(created[i..], agent);
        }
      }
      NothingToAdopt(created[i..], agent);
      RepeatOne(was, step, k);
      NoneLeft(agent);
    }

    /** One scheduling round: plan, then apply every mark, then every dispatch the state still allows. */
    method TickOnce(idle: set<AgentId>, push: TaskId -> bool)
      requires Valid()
      modifies this, taskStore
      ensures Valid() && run == Run(old(run), TickSteps(old(taskStore.tasks), idle, push))
      ensures UniqueIds(old(taskStore.tasks)) ==>
                TickedAs(old(taskStore.tasks), taskStore.tasks, Plan(old(taskStore.tasks), idle), push)
    {
      hide Next, Run, Plan;
      ghost var was := run;
      var tasks := taskStore.List();
      var plan := ComputePlan(tasks, idle);
      StartIs(run, idle);
      run := Next(run, StartTick(idle));
      ApplyMarks(plan.markUnassigned, plan.dispatch);
      ghost var marked := taskStore.tasks;
      ApplyDispatch(plan.dispatch, push);
      if UniqueIds(tasks) { TickStates(tasks, idle, push, marked, taskStore.tasks); }
      EndIs(run);
      run := Next(run, EndTick);
      TickRun(was, idle, push);
    }

    method ApplyMarks(marks: seq<TaskId>, ghost dispatch: seq<Decision>)
      requires taskStore.tasks == run.tasks && run.tick == Applying(marks, dispatch)
      modifies this, taskStore
      ensures taskStore.tasks == run.tasks && run.tables == old(run).tables && run.requests == old(run).requests
      ensures run.tick == Applying([], dispatch)
      ensures run == Run(old(run), Repeat(MarkNext, |marks|))
      ensures UniqueIds(old(taskStore.tasks)) ==>
                UniqueIds(taskStore.tasks) && MarkedAs(old(taskStore.tasks), taskStore.tasks, marks)
    {
      hide Next, Run, Update;
      ghost var was := run;
      RepeatOne(was, MarkNext, 0);
      hide Repeat;
      var k := 0;
      while k < |marks|
        invariant 0 <= k <= |marks|
        invariant taskStore.tasks == run.tasks && run.tables == was.tables && run.requests == was.requests
        invariant run.tick == Applying(marks[k..], dispatch)
        invariant run == Run(was, Repeat(MarkNext, k))
      {
        MarkIs(run, marks[k..], dispatch);
        RepeatOne(was, MarkNext, k);
        run := Next(run, MarkNext);
        var updated := taskStore.Overwrite(marks[k], Patch(Some(Unassigned), None));
        k := k + 1;
      }
      assert marks[..k] == marks;
      hide UniqueIds, MarkedAs;
      if UniqueIds(was.tasks) { MarksDone(was, marks, dispatch, k); }
    }

    method ApplyDispatch(dispatch: seq<Decision>, push: TaskId -> bool)
      requires taskStore.tasks == run.tasks && run.tick == Applying([], dispatch)
      modifies this, taskStore
      ensures taskStore.tasks == run.tasks && run.tables == old(run).tables && run.requests == old(run).requests
      ensures run.tick == Applying([], [])
      ensures run == Run(old(run), DispatchSteps(dispatch, push))
      ensures UniqueIds(old(taskStore.tasks)) ==>
                DispatchedAs(old(taskStore.tasks), taskStore.tasks, dispatch, push)
    {
      hide Next, Run, Update, Has, Get, Find, UniqueIds, DispatchedAs;
      ghost var was := run;
      RunNone(was);
      var k := 0;
      assert DispatchSteps(dispatch[..0], push) == [];
      while k < |dispatch|
        invariant 0 <= k <= |dispatch|
        invariant taskStore.tasks == run.tasks && run.tables == was.tables && run.requests == was.requests
        invariant run.tick == Applying([], dispatch[k..])
        invariant run == Run(was, DispatchSteps(dispatch[..k], push))
      {
        var id := dispatch[k].taskId;
        ghost var step := DispatchNext(push(id));
        DispatchIs(run, dispatch[k..], push(id));
        RunOne(was, DispatchSteps(dispatch[..k], push), step);
        assert DispatchSteps(dispatch[..k], push) + [step] == DispatchSteps(dispatch[..k + 1], push);
        run := Next(run, step);
        k := k + 1;
        var task := taskStore.Lookup(id);
        if task.None? || task.value.state != Unassigned { continue; }
        var taken := taskStore.Overwrite(id, Patch(Some(Assigned), None));
        if !push(id) {
          var reverted := taskStore.Overwrite(id, Patch(Some(Unassigned), None));
        }
      }
      assert dispatch[..k] == dispatch;
      hide DispatchSteps;
      if UniqueIds(was.tasks) { DispatchesDone(was, dispatch, push, k); }
    }
  }
}
