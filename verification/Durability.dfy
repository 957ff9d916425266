/**
 * What the store's crash consistency means for the coordination tables. Fetches and commits share
 * one queue with the task store's mutations; what is on disk is always a run of the file store.
 */
module Durability {
  import opened Common
  import opened FileStore
  import opened FileHistory
  import opened Serializability
  import opened Tasks
  import opened JsonStore
  import Machine = JsonStore

  // ------------------------------------------------------- the mutations there are

  /** A fetch or a commit of the file store. */
  ghost function FileMutation(op: Op): Mutation {
    (db: Database) => Some(db.(tables := FileHistory.Step(db.tables, op)))
  }

  /** `createMany`. */
  function CreateMutation(batch: seq<NewTask>, clock: int): Mutation {
    (db: Database) => Some(db.(tasks := db.tasks + StoredAll(batch, clock)))
  }

  /** `update` and `setState`; throws when there is no such task. */
  function UpdateMutation(id: TaskId, patch: Patch): Mutation {
    (db: Database) => if Has(db.tasks, id) then Some(db.(tasks := Update(db.tasks, id, patch))) else None
  }

  /** The mutation does not touch the file store's tables. */
  ghost predicate KeepsTables(m: Mutation) {
    forall db | m(db).Some? :: m(db).value.tables == db.tables
  }

  ghost predicate IsFileMutation(m: Mutation) {
    exists op :: m == FileMutation(op)
  }

  /** Every call made is one of the file store's or leaves its tables alone, as the task store's all do. */
  ghost predicate Coordinated(es: seq<Event>) {
    forall i | 0 <= i < |es| && es[i].Enqueue? :: IsFileMutation(es[i].mutation) || KeepsTables(es[i].mutation)
  }

  lemma TaskMutationsKeepTables(batch: seq<NewTask>, clock: int, id: TaskId, patch: Patch)
    ensures KeepsTables(CreateMutation(batch, clock)) && KeepsTables(UpdateMutation(id, patch))
  {
    hide Update, Has;
  }

  /** Fetches and commits keep every path in the table, since a delete leaves a tombstone. */
  lemma FileOperationsKeepFiles(op: Op)
    ensures KeepsFiles(FileMutation(op))
  {
    forall db: Database
      ensures var after := FileHistory.Step(db.tables, op); db.tables.files.Keys <= after.files.Keys
    {
      StepKeepsPaths(db.tables, op);
    }
  }

  lemma StepKeepsPaths(t: Tables, op: Op)
    ensures t.files.Keys <= FileHistory.Step(t, op).files.Keys
  {
    if Accepts(t, op) {
      ApplyExact(t.files, op.agent, op.writes);
      hide Moved, WellFormed, Apply;
      forall p | p in t.files ensures p in Apply(t.files, op.agent, op.writes) {
        if p in PathsOf(op.writes) {
          var i :| 0 <= i < |op.writes| && PathsOf(op.writes)[i] == p;
          assert op.writes[i] in op.writes;
        }
      }
    }
  }

  /** So the runs of the coordination server are of the kind whose databases reload unchanged. */
  lemma CoordinatedIsHarmless(es: seq<Event>)
    requires Coordinated(es)
    ensures HarmlessRun(es)
  {
    hide FileMutation;
    forall i | 0 <= i < |es| && es[i].Enqueue? ensures KeepsFiles(es[i].mutation) {
      if IsFileMutation(es[i].mutation) {
        var op :| es[i].mutation == FileMutation(op);
        FileOperationsKeepFiles(op);
      }
    }
  }

  // --------------------------------------------------------------- what is on disk

  /** The file operation a call carries, if it is one. */
  ghost function OpOf(m: Mutation): Option<Op> {
    if IsFileMutation(m) then (var op :| m == FileMutation(op); Some(op)) else None
  }

  /** The file operations that took effect, in the order they were made. */
  ghost function Survivors(calls: seq<Call>): seq<Op> {
    if calls == [] then []
    else
      var last := calls[|calls| - 1];
      Survivors(calls[..|calls| - 1])
      + match OpOf(last.mutation) case Some(op) => (if InEffect(last) then [op] else []) case None => []
  }

  ghost predicate AllCoordinated(calls: seq<Call>) {
    forall i | 0 <= i < |calls| :: IsFileMutation(calls[i].mutation) || KeepsTables(calls[i].mutation)
  }

  /** Replaying the calls that took effect is, for the tables, an uninterrupted run of the surviving operations. */
  lemma {:induction false} ReplayIsARun(calls: seq<Call>)
    requires AllCoordinated(calls)
    ensures Replay(calls).tables == Exec(EmptyDatabase().tables, Survivors(calls))
  {
    hide FileHistory.Step, EmptyDatabase;
    if calls != [] {
      var n := |calls| - 1;
      var before := Survivors(calls[..n]);
      ReplayIsARun(calls[..n]);
      assert before + [] == before;
      match OpOf(calls[n].mutation) {
        case Some(op) => assert (before + [op])[..|before|] == before;
        case None =>
      }
    }
  }

  /** Every call of a run was enqueued in it. */
  lemma {:induction false} CallsWereMade(es: seq<Event>)
    requires Coordinated(es)
    ensures AllCoordinated(Play(Installed(), es).calls)
  {
    if es != [] {
      hide IsFileMutation, KeepsTables;
      CallsWereMade(es[..|es| - 1]);
      StepMakesCalls(Play(Installed(), es[..|es| - 1]), es[|es| - 1]);
    }
  }

  lemma StepMakesCalls(s: Store, e: Event)
    requires AllCoordinated(s.calls)
    requires e.Enqueue? ==> IsFileMutation(e.mutation) || KeepsTables(e.mutation)
    ensures AllCoordinated(Machine.Step(s, e).calls)
  {
    hide IsFileMutation, KeepsTables, EmptyDatabase, WithDefaults;
  }

  /**
   * Whatever fetches, commits and task updates are queued, and whatever crashes, refusals and restarts
   * there are, the file tables on disk are those of one uninterrupted run of the operations that took
   * effect; that run is serializable, transaction by transaction.
   */
  lemma DiskIsSerializable(es: seq<Event>)
    requires Coordinated(es)
    ensures var s, t0 := Play(Installed(), es), EmptyDatabase().tables;
            var run := Survivors(s.calls);
            s.disk.main.Some? ==>
              && s.disk.main.value.tables == Exec(t0, run)
              && Exec(t0, SerialOps(t0, run)).files == s.disk.main.value.tables.files
              && forall i | 0 <= i < |run| && Accepts(At(t0, run, i), run[i]) :: SerialStepMatches(t0, run, i)
  {
    CoordinatedIsHarmless(es);
    PlayKeeps(es);
    CallsWereMade(es);
    var s := Play(Installed(), es);
    ReplayIsARun(s.calls);
    EmptyIsFresh();
    hide Play, Replay, Accepts, SerialStepMatches, SerialOps, EmptyDatabase, Survivors, Harmless;
    Serializable(EmptyDatabase().tables, Survivors(s.calls));
  }

  lemma EmptyIsFresh()
    ensures Fresh(EmptyDatabase().tables)
  {}

  /** After a crash and a restart the server goes on from such a state. */
  lemma RestartIsSerializable(es: seq<Event>, torn: bool, ok: bool)
    requires Coordinated(es) && Play(Installed(), es).data.Some?
    ensures var s, t0 := Play(Installed(), es), EmptyDatabase().tables;
            var up := Machine.Step(Machine.Step(s, Crash(torn)), Restart(ok));
            && up.data.Some?
            && up.data.value.tables == Exec(t0, Survivors(s.calls))
            && Exec(t0, SerialOps(t0, Survivors(s.calls))).files == up.data.value.tables.files
  {
    CoordinatedIsHarmless(es);
    CrashConsistency(es, torn, ok);
    CallsWereMade(es);
    var s := Play(Installed(), es);
    ReplayIsARun(s.calls);
    EmptyIsFresh();
    hide Play, Replay, EmptyDatabase, Survivors, Machine.Step, SerialOps, InOrder;
    Serializable(EmptyDatabase().tables, Survivors(s.calls));
  }
}
