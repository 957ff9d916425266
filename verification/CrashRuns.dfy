/**
 * The coordinator on the transactional store. Each step of the coordinator's machine is one `mutate`
 * block, or none, or two for a failed push; so a server that crashes at any point, loses whatever was
 * queued and starts again on what is on disk goes on with a run of the same machine.
 */
module CrashRuns {
  import opened Common
  import opened FileStore
  import opened FileHistory
  import opened Tasks
  import opened Coordinator
  import Safety = CoordinatorSafety
  import Store = JsonStore
  import opened Durability

  ghost function DatabaseOf(s: Sys): Store.Database {
    Store.Database(s.tables, s.tasks)
  }

  function StatePatch(state: TaskState): Patch {
    Patch(Some(state), None)
  }

  /** The mutations a step hands to the store, in order. */
  ghost function Calls(s: Sys, step: Coordinator.Step): seq<Store.Mutation> {
    match step
    case Submit(batch, agents, clock) =>
      if Acceptable(s.tasks, batch, agents) then [CreateMutation(batch, clock)] else []
    case CreateTasks(agent, batch, agents, clock) =>
      if agent !in s.requests && Acceptable(s.tasks, batch, agents) then [CreateMutation(batch, clock)] else []
    case AdoptNext(agent) =>
      if agent in s.requests && s.requests[agent].Adopting? && s.requests[agent].todo != []
      then [UpdateMutation(s.requests[agent].todo[0], StatePatch(Assigned))] else []
    case MarkNext =>
      if s.tick.Applying? && s.tick.marks != [] then [UpdateMutation(s.tick.marks[0], StatePatch(Unassigned))] else []
    case DispatchNext(pushed) =>
      if s.tick.Applying? && s.tick.marks == [] && s.tick.dispatch != []
         && Has(s.tasks, s.tick.dispatch[0].taskId) && Get(s.tasks, s.tick.dispatch[0].taskId).state == Unassigned
      then
        var id := s.tick.dispatch[0].taskId;
        [UpdateMutation(id, StatePatch(Assigned))] + if pushed then [] else [UpdateMutation(id, StatePatch(Unassigned))]
      else []
    case StoreCommit(agent) =>
      if agent in s.requests && s.requests[agent].CommitReady? && WellFormed(s.requests[agent].writes) then
        var r := s.requests[agent];
        [FileMutation(Commit(agent, r.taskId, r.writes, r.refs))]
      else []
    case RecordStrike(agent) =>
      if agent in s.requests && s.requests[agent].StrikeReady?
      then [UpdateMutation(s.requests[agent].taskId, StrikePatch(s.requests[agent].strikes))] else []
    case FinishDone(agent) =>
      if agent in s.requests && s.requests[agent].DoneReady?
      then [UpdateMutation(s.requests[agent].taskId, StatePatch(Done))] else []
    case FetchNext(agent) =>
      if agent in s.requests && s.requests[agent].Fetching? && s.requests[agent].todo != []
      then [FileMutation(Fetch(agent, s.requests[agent].todo[0]))] else []
    case _ => []
  }

  ghost function ApplyAll(db: Store.Database, mutations: seq<Store.Mutation>): Store.Database {
    if mutations == [] then db
    else Store.Applied(ApplyAll(db, mutations[..|mutations| - 1]), mutations[|mutations| - 1])
  }

  lemma ApplyOne(db: Store.Database, m: Store.Mutation)
    ensures ApplyAll(db, [m]) == Store.Applied(db, m)
  {
    assert [m][..0] == [] && ApplyAll(db, []) == db;
  }

  lemma ApplyTwo(db: Store.Database, m: Store.Mutation, n: Store.Mutation)
    ensures ApplyAll(db, [m] + [n]) == Store.Applied(Store.Applied(db, m), n)
  {
    assert ([m] + [n])[..1] == [m];
    ApplyOne(db, m);
  }

  lemma {:induction false} ApplyMore(db: Store.Database, a: seq<Store.Mutation>, b: seq<Store.Mutation>)
    ensures ApplyAll(db, a + b) == ApplyAll(ApplyAll(db, a), b)
  {
    if b == [] {
      assert a + b == a;
    } else {
      var n := |b| - 1;
      ApplyMore(db, a, b[..n]);
      assert (a + b)[..|a + b| - 1] == a + b[..n];
    }
  }

  lemma ApplyNone(db: Store.Database)
    ensures ApplyAll(db, []) == db
  {}

  lemma UpdateApplies(tables: Tables, tasks: seq<Task>, id: TaskId, patch: Patch)
    ensures Store.Applied(Store.Database(tables, tasks), UpdateMutation(id, patch))
            == Store.Database(tables, Update(tasks, id, patch))
  {}

  lemma OneUpdate(s: Sys, id: TaskId, patch: Patch)
    ensures ApplyAll(DatabaseOf(s), [UpdateMutation(id, patch)]) == Store.Database(s.tables, Update(s.tasks, id, patch))
  {
    ApplyOne(DatabaseOf(s), UpdateMutation(id, patch));
    UpdateApplies(s.tables, s.tasks, id, patch);
  }

  lemma OneFileStep(s: Sys, op: Op)
    ensures ApplyAll(DatabaseOf(s), [FileMutation(op)]) == Store.Database(FileHistory.Step(s.tables, op), s.tasks)
  {
    hide FileHistory.Step;
    ApplyOne(DatabaseOf(s), FileMutation(op));
  }

  lemma OneCreation(s: Sys, batch: seq<NewTask>, clock: int)
    ensures ApplyAll(DatabaseOf(s), [CreateMutation(batch, clock)])
            == Store.Database(s.tables, s.tasks + StoredAll(batch, clock))
  {
    ApplyOne(DatabaseOf(s), CreateMutation(batch, clock));
  }

  lemma DispatchIsItsCalls(s: Sys, pushed: bool)
    ensures DatabaseOf(Next(s, DispatchNext(pushed))) == ApplyAll(DatabaseOf(s), Calls(s, DispatchNext(pushed)))
  {
    hide ApplyAll, Update, Find;
    ApplyNone(DatabaseOf(s));
    if Calls(s, DispatchNext(pushed)) != [] {
      var id := s.tick.dispatch[0].taskId;
      OneUpdate(s, id, StatePatch(Assigned));
      assert [UpdateMutation(id, StatePatch(Assigned))] + [] == [UpdateMutation(id, StatePatch(Assigned))];
      if !pushed {
        ApplyTwo(DatabaseOf(s), UpdateMutation(id, StatePatch(Assigned)), UpdateMutation(id, StatePatch(Unassigned)));
        ApplyOne(DatabaseOf(s), UpdateMutation(id, StatePatch(Assigned)));
        UpdateApplies(s.tables, Update(s.tasks, id, StatePatch(Assigned)), id, StatePatch(Unassigned));
      }
    }
  }

  lemma CreationIsItsCalls(s: Sys, step: Coordinator.Step)
    requires step.Submit? || step.CreateTasks?
    ensures DatabaseOf(Next(s, step)) == ApplyAll(DatabaseOf(s), Calls(s, step))
  {
    hide ApplyAll, Acceptable, StoredAll;
    ApplyNone(DatabaseOf(s));
    OneCreation(s, step.batch, step.clock);
  }

  lemma FileStepIsItsCalls(s: Sys, step: Coordinator.Step)
    requires step.StoreCommit? || step.FetchNext?
    ensures DatabaseOf(Next(s, step)) == ApplyAll(DatabaseOf(s), Calls(s, step))
  {
    var a := step.agent;
    ApplyNone(DatabaseOf(s));
    if step.StoreCommit? && a in s.requests && s.requests[a].CommitReady? {
      var r := s.requests[a];
      var op := Commit(a, r.taskId, r.writes, r.refs);
      assert !WellFormed(r.writes) ==> FileHistory.Step(s.tables, op) == s.tables;
      OneFileStep(s, op);
    } else if step.FetchNext? && a in s.requests && s.requests[a].Fetching? && s.requests[a].todo != [] {
      OneFileStep(s, Fetch(a, s.requests[a].todo[0]));
    }
    hide ApplyAll, FileHistory.Step, WellFormed, Rejects;
  }

  lemma TaskStepIsItsCalls(s: Sys, step: Coordinator.Step)
    requires step.AdoptNext? || step.RecordStrike? || step.FinishDone? || step.MarkNext?
    ensures DatabaseOf(Next(s, step)) == ApplyAll(DatabaseOf(s), Calls(s, step))
  {
    hide ApplyAll, Update;
    ApplyNone(DatabaseOf(s));
    if step.MarkNext? {
      if s.tick.Applying? && s.tick.marks != [] { OneUpdate(s, s.tick.marks[0], StatePatch(Unassigned)); }
    } else if step.agent in s.requests {
      match s.requests[step.agent] {
        case Adopting(todo) => if todo != [] { OneUpdate(s, todo[0], StatePatch(Assigned)); }
        case StrikeReady(id, strikes) => OneUpdate(s, id, StrikePatch(strikes));
        case DoneReady(id) => OneUpdate(s, id, StatePatch(Done));
        case _ =>
      }
    }
  }

  /** A step does to tasks and tables exactly what its mutations do to the database. */
  lemma StepIsItsCalls(s: Sys, step: Coordinator.Step)
    ensures DatabaseOf(Next(s, step)) == ApplyAll(DatabaseOf(s), Calls(s, step))
  {
    hide ApplyAll, Acceptable, Update;
    if step.Submit? || step.CreateTasks? {
      CreationIsItsCalls(s, step);
    } else if step.DispatchNext? {
      DispatchIsItsCalls(s, step.pushed);
    } else if step.StoreCommit? || step.FetchNext? {
      FileStepIsItsCalls(s, step);
    } else if step.AdoptNext? || step.RecordStrike? || step.FinishDone? || step.MarkNext? {
      TaskStepIsItsCalls(s, step);
    } else {
      ApplyNone(DatabaseOf(s));
    }
  }

  // -------------------------------------------------------------------------- runs

  /** The mutations of a whole run, in order. */
  ghost function CallsOf(s: Sys, steps: seq<Coordinator.Step>): seq<Store.Mutation> {
    if steps == [] then []
    else
      var before := steps[..|steps| - 1];
      CallsOf(s, before) + Calls(Run(s, before), steps[|steps| - 1])
  }

  lemma {:induction false} RunIsItsCalls(s: Sys, steps: seq<Coordinator.Step>)
    ensures DatabaseOf(Run(s, steps)) == ApplyAll(DatabaseOf(s), CallsOf(s, steps))
  {
    if steps == [] {
      ApplyNone(DatabaseOf(s));
    } else {
      hide Next, Calls, ApplyAll;
      var before, last := steps[..|steps| - 1], steps[|steps| - 1];
      RunIsItsCalls(s, before);
      StepIsItsCalls(Run(s, before), last);
      ApplyMore(DatabaseOf(s), CallsOf(s, before), Calls(Run(s, before), last));
    }
  }

  lemma RunOn(s: Sys, steps: seq<Coordinator.Step>, step: Coordinator.Step)
    ensures Run(s, steps + [step]) == Next(Run(s, steps), step)
    ensures CallsOf(s, steps + [step]) == CallsOf(s, steps) + Calls(Run(s, steps), step)
  {
    assert (steps + [step])[..|steps|] == steps;
  }

  lemma NoSteps(s: Sys)
    ensures Run(s, []) == s && CallsOf(s, []) == []
  {}

  lemma Associates<T>(a: seq<T>, b: seq<T>, c: seq<T>)
    ensures (a + b) + c == a + (b + c)
  {}

  lemma {:induction false} CallsAppend(s: Sys, a: seq<Coordinator.Step>, b: seq<Coordinator.Step>)
    ensures CallsOf(s, a + b) == CallsOf(s, a) + CallsOf(Run(s, a), b)
  {
    hide Next, Calls, Run, CallsOf;
    if b == [] {
      NoSteps(Run(s, a));
      assert a + b == a && CallsOf(s, a) + [] == CallsOf(s, a);
    } else {
      var n := |b| - 1;
      CallsAppend(s, a, b[..n]);
      RunAppend(s, a, b[..n]);
      assert a + b == (a + b[..n]) + [b[n]] && b == b[..n] + [b[n]];
      RunOn(s, a + b[..n], b[n]);
      RunOn(Run(s, a), b[..n], b[n]);
      Associates(CallsOf(s, a), CallsOf(Run(s, a), b[..n]), Calls(Run(s, a + b[..n]), b[n]));
    }
  }

  // ----------------------------------------------------------------------- crashes

  /** No request and no tick is under way. */
  predicate Down(s: Sys) {
    s.requests == map[] && s.tick.NoTick?
  }

  ghost function OneOf(agents: set<AgentId>): (a: AgentId)
    requires agents != {}
    ensures a in agents
  {
    var a :| a in agents;
    a
  }

  ghost function GiveUps(agents: set<AgentId>): seq<Coordinator.Step> {
    if agents == {} then [] else GiveUps(agents - {OneOf(agents)}) + [GiveUp(OneOf(agents))]
  }

  /** What a crash is to the machine: the tick and every outstanding request are broken off. */
  ghost function CrashSteps(s: Sys): seq<Coordinator.Step> {
    [AbortTick] + GiveUps(s.requests.Keys)
  }

  lemma GiveUpIs(s: Sys, a: AgentId)
    ensures var s' := Next(s, GiveUp(a));
            && s'.requests == s.requests - {a} && s'.tick == s.tick && DatabaseOf(s') == DatabaseOf(s)
            && Calls(s, GiveUp(a)) == []
  {
    assert a !in s.requests ==> s.requests - {a} == s.requests;
  }

  lemma {:induction false} GivesUp(s: Sys, agents: set<AgentId>)
    ensures var s' := Run(s, GiveUps(agents));
            && s'.requests == s.requests - agents && s'.tick == s.tick && DatabaseOf(s') == DatabaseOf(s)
            && CallsOf(s, GiveUps(agents)) == []
    decreases agents
  {
    hide Next, Calls, DatabaseOf, Run, CallsOf;
    if agents == {} {
      NoSteps(s);
      assert s.requests - {} == s.requests;
    } else {
      var a := OneOf(agents);
      var before := GiveUps(agents - {a});
      GivesUp(s, agents - {a});
      GiveUpIs(Run(s, before), a);
      RunOn(s, before, GiveUp(a));
      assert s.requests - (agents - {a}) - {a} == s.requests - agents;
    }
  }

  lemma CrashIs(s: Sys)
    ensures var s' := Run(s, CrashSteps(s));
            Down(s') && DatabaseOf(s') == DatabaseOf(s) && CallsOf(s, CrashSteps(s)) == []
  {
    var s1 := Next(s, AbortTick);
    RunOn(s, [], AbortTick);
    assert [] + [AbortTick] == [AbortTick] && Run(s, []) == s && CallsOf(s, []) == [];
    GivesUp(s1, s.requests.Keys);
    RunAppend(s, [AbortTick], GiveUps(s.requests.Keys));
    CallsAppend(s, [AbortTick], GiveUps(s.requests.Keys));
  }

  /** The run as far as its first `n` mutations go; a failed push may be cut before its revert. */
  ghost function Cut(s: Sys, steps: seq<Coordinator.Step>, n: nat): seq<Coordinator.Step>
    requires n <= |CallsOf(s, steps)|
  {
    if steps == [] then []
    else
      var before := steps[..|steps| - 1];
      if n <= |CallsOf(s, before)| then Cut(s, before, n)
      else if n == |CallsOf(s, steps)| then steps
      else before + [DispatchNext(true)]
  }

  lemma {:induction false} CutExact(s: Sys, steps: seq<Coordinator.Step>, n: nat)
    requires n <= |CallsOf(s, steps)|
    ensures CallsOf(s, Cut(s, steps, n)) == CallsOf(s, steps)[..n]
  {
    hide Next, Run, Calls, CallsOf;
    if steps == [] {
      NoSteps(s);
    } else {
      var before, last := steps[..|steps| - 1], steps[|steps| - 1];
      var now, m := Run(s, before), |CallsOf(s, before)|;
      assert before + [last] == steps;
      RunOn(s, before, last);
      if n <= m {
        CutExact(s, before, n);
      } else if n < |CallsOf(s, steps)| {
        CutDispatch(now, last);
        RunOn(s, before, DispatchNext(true));
        PrefixOfTwo(CallsOf(s, before), Calls(now, last), n);
      } else {
        assert CallsOf(s, steps)[..n] == CallsOf(s, steps);
      }
    }
  }

  lemma PrefixOfTwo<T>(a: seq<T>, b: seq<T>, n: nat)
    requires |a| < n < |a| + |b| && |b| <= 2
    ensures (a + b)[..n] == a + b[..1] && |b| == 2
  {}

  /** Only a failed push makes two calls, and its first is that of a push that succeeds. */
  lemma CutDispatch(s: Sys, step: Coordinator.Step)
    ensures |Calls(s, step)| <= 2
    ensures |Calls(s, step)| == 2 ==> Calls(s, DispatchNext(true)) == Calls(s, step)[..1]
  {}

  // ------------------------------------------------------------------------- lives

  /** A run of the coordinator up to a crash, by which time `landed` of its mutations had taken effect. */
  datatype Life = Life(steps: seq<Coordinator.Step>, landed: nat)

  /** The machine's run through all lives: each as far as its mutations went, then the crash. */
  ghost function Lived(s: Sys, lives: seq<Life>): seq<Coordinator.Step> {
    if lives == [] then []
    else
      var before, life := Lived(s, lives[..|lives| - 1]), lives[|lives| - 1];
      var up := Run(s, before);
      var n := if life.landed <= |CallsOf(up, life.steps)| then life.landed else |CallsOf(up, life.steps)|;
      var cut := Cut(up, life.steps, n);
      before + cut + CrashSteps(Run(up, cut))
  }

  /** The mutations that took effect, life by life: of each life a prefix of what its run handed to the store. */
  ghost function Landed(s: Sys, lives: seq<Life>): seq<Store.Mutation> {
    if lives == [] then []
    else
      var before, life := lives[..|lives| - 1], lives[|lives| - 1];
      var calls := CallsOf(Run(s, Lived(s, before)), life.steps);
      Landed(s, before) + if life.landed <= |calls| then calls[..life.landed] else calls
  }

  /** One life: its run as far as `n` of its mutations go, then the crash. */
  lemma LifeExact(up: Sys, steps: seq<Coordinator.Step>, n: nat)
    requires n <= |CallsOf(up, steps)|
    ensures var cut := Cut(up, steps, n);
            var all := cut + CrashSteps(Run(up, cut));
            Down(Run(up, all)) && CallsOf(up, all) == CallsOf(up, steps)[..n]
  {
    hide Run, Calls, Cut, CrashSteps, CallsOf;
    var cut := Cut(up, steps, n);
    CutExact(up, steps, n);
    CrashIs(Run(up, cut));
    RunAppend(up, cut, CrashSteps(Run(up, cut)));
    CallsAppend(up, cut, CrashSteps(Run(up, cut)));
  }

  /** Crashes and restarts are steps of the machine: what took effect in all lives is what one run does. */
  lemma {:induction false} LivedExact(s: Sys, lives: seq<Life>)
    requires Down(s)
    ensures Down(Run(s, Lived(s, lives))) && CallsOf(s, Lived(s, lives)) == Landed(s, lives)
  {
    hide Run, Calls, Cut, CrashSteps, CallsOf, Down;
    if lives == [] {
      NoSteps(s);
    } else {
      var before, life := Lived(s, lives[..|lives| - 1]), lives[|lives| - 1];
      LivedExact(s, lives[..|lives| - 1]);
      var up := Run(s, before);
      var calls := CallsOf(up, life.steps);
      var n := if life.landed <= |calls| then life.landed else |calls|;
      LifeExact(up, life.steps, n);
      var cut := Cut(up, life.steps, n);
      var crash := CrashSteps(Run(up, cut));
      Associates(before, cut, crash);
      RunAppend(s, before, cut + crash);
      CallsAppend(s, before, cut + crash);
      assert calls[..|calls|] == calls;
    }
  }

  /** The mutations of the calls that took effect, in the order in which they were made. */
  ghost function Effects(calls: seq<Store.Call>): seq<Store.Mutation> {
    if calls == [] then []
    else
      var last := calls[|calls| - 1];
      Effects(calls[..|calls| - 1]) + if Store.InEffect(last) then [last.mutation] else []
  }

  lemma {:induction false} ReplayIsEffects(calls: seq<Store.Call>)
    ensures Store.Replay(calls) == ApplyAll(Store.EmptyDatabase(), Effects(calls))
  {
    if calls == [] {
      ApplyNone(Store.EmptyDatabase());
    } else {
      hide Store.EmptyDatabase, ApplyAll;
      var n := |calls| - 1;
      var db := Store.EmptyDatabase();
      ReplayIsEffects(calls[..n]);
      ApplyMore(db, Effects(calls[..n]), if Store.InEffect(calls[n]) then [calls[n].mutation] else []);
      ApplyOne(ApplyAll(db, Effects(calls[..n])), calls[n].mutation);
      ApplyNone(ApplyAll(db, Effects(calls[..n])));
    }
  }

  /** The coordinator as it starts on the empty database. */
  function Start(): Sys {
    Boot(Store.EmptyDatabase().tables)
  }

  /**
   * Any run of the store, crashes, refusals and restarts included, whose calls took effect as some lives
   * of the coordinator handed them in: what is on disk, and so what the next life starts on, is the
   * state of one run of the machine with an AbortTick and GiveUps for each crash, and all that holds of
   * reachable states holds of it.
   */
  lemma DiskIsReachable(es: seq<Store.Event>, lives: seq<Life>)
    requires Coordinated(es) && Effects(Store.Play(Store.Installed(), es).calls) == Landed(Start(), lives)
    ensures var disk, s := Store.Play(Store.Installed(), es).disk.main, Run(Start(), Lived(Start(), lives));
            disk.Some? ==> disk.value == DatabaseOf(s) && Down(s) && Safety.Inv(Start().tables, s)
  {
    var calls := Store.Play(Store.Installed(), es).calls;
    CoordinatedIsHarmless(es);
    Store.PlayKeeps(es);
    EmptyIsFresh();
    assert DatabaseOf(Start()) == Store.EmptyDatabase() && Down(Start());
    hide Store.Play, Store.Replay, Run, Lived, Landed, Effects, ApplyAll, CallsOf, Safety.Inv, Store.EmptyDatabase,
         Store.Harmless, Store.FewLost;
    ReplayIsEffects(calls);
    LivedExact(Start(), lives);
    RunIsItsCalls(Start(), Lived(Start(), lives));
    Safety.Reachable(Start().tables, Lived(Start(), lives));
  }
}
