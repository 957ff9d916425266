/**
 * Whole runs of the file store: any number of agents, their fetches and commits interleaved in any
 * order, each operation one atomic step. A fetch of several paths is several steps of the run.
 */
module FileHistory {
  import opened Common
  import opened FileStore

  datatype Op =
    | Fetch(agent: AgentId, path: Path)
    | Commit(agent: AgentId, taskId: TaskId, writes: seq<FileWrite>, refs: seq<FileRef>)

  /** The commit reaches the store and passes the version check. */
  ghost predicate Accepts(t: Tables, op: Op) {
    op.Commit? && WellFormed(op.writes) && CommitStep(t, op.agent, op.taskId, op.writes, op.refs).1.Committed?
  }

  /** The commit reaches the store and is refused as stale. */
  ghost predicate Rejects(t: Tables, op: Op) {
    op.Commit? && WellFormed(op.writes) && CommitStep(t, op.agent, op.taskId, op.writes, op.refs).1.Stale?
  }

  ghost predicate Writes(op: Op, p: Path) {
    op.Commit? && p in PathsOf(op.writes)
  }

  /** One operation. A malformed commit is turned away before it reaches the store. */
  ghost function Step(t: Tables, op: Op): Tables {
    match op
    case Fetch(agent, path) => FetchStep(t, agent, path).0
    case Commit(agent, taskId, writes, refs) =>
      if WellFormed(writes) then CommitStep(t, agent, taskId, writes, refs).0 else t
  }

  ghost function Exec(t: Tables, ops: seq<Op>): Tables {
    if ops == [] then t else Step(Exec(t, ops[..|ops| - 1]), ops[|ops| - 1])
  }

  /** The tables just before operation `i` of the run. */
  ghost function At(t: Tables, ops: seq<Op>, i: nat): Tables
    requires i <= |ops|
  {
    Exec(t, ops[..i])
  }

  /** Every stored file sits under its own path and has been written at least once. */
  ghost predicate ValidFiles(files: Files) {
    forall p | p in files :: files[p].path == p && files[p].version >= 1
  }

  /** A store nobody has used yet. */
  ghost predicate Fresh(t: Tables) {
    ValidFiles(t.files) && t.readSets == map[] && t.events == [] && t.eventSeq == 0
  }

  lemma AtNext(t: Tables, ops: seq<Op>, i: nat)
    requires i < |ops|
    ensures At(t, ops, i + 1) == Step(At(t, ops, i), ops[i])
  {
    assert ops[..i + 1][..i] == ops[..i];
  }

  lemma AtEnd(t: Tables, ops: seq<Op>)
    ensures At(t, ops, |ops|) == Exec(t, ops)
  {
    assert ops[..|ops|] == ops;
  }

  lemma {:induction false} ExecAppend(t: Tables, a: seq<Op>, b: seq<Op>)
    ensures Exec(t, a + b) == Exec(Exec(t, a), b)
  {
    hide Step;
    if b == [] {
      assert a + b == a;
    } else {
      var n := |b| - 1;
      ExecAppend(t, a, b[..n]);
      assert (a + b)[..|a + b| - 1] == a + b[..n];
    }
  }

  // ------------------------------------------------------------- one operation

  /** A fetch answers with the live file's text and version, or NOT_FOUND, and puts what it saw on record. */
  lemma FetchAnswers(t: Tables, agent: AgentId, p: Path)
    ensures var (after, r) := FetchStep(t, agent, p);
            && after.files == t.files && after.events == t.events && after.eventSeq == t.eventSeq
            && (if p in t.files && !t.files[p].deleted
                then r == Found(p, t.files[p].version, t.files[p].content)
                     && Recorded(after, agent) == Recorded(t, agent)[p := t.files[p].version]
                else r == NotFound(p) && Recorded(after, agent) == Recorded(t, agent)[p := 0])
            && forall b | b != agent :: Recorded(after, b) == Recorded(t, b)
  {}

  /** An accepted commit leaves each written path with its new text, or as an empty tombstone, one raw version up. */
  lemma LandedExact(t: Tables, op: Op, w: FileWrite)
    requires Accepts(t, op) && w in op.writes
    ensures var files := Step(t, op).files;
            && w.path in files
            && files[w.path].path == w.path
            && files[w.path].version == RawVersion(t.files, w.path) + 1
            && files[w.path].content == (if w.delete then "" else w.content)
            && files[w.path].updatedBy == op.agent
            && files[w.path].deleted == w.delete
  {
    ApplyExact(t.files, op.agent, op.writes);
    hide Apply, Moved;
  }

  /** What a fetch by anybody answers next: the text that was committed, or NOT_FOUND after a delete. */
  lemma WriteThenFetch(t: Tables, op: Op, w: FileWrite, reader: AgentId)
    requires Accepts(t, op) && w in op.writes
    ensures FetchStep(Step(t, op), reader, w.path).1
            == if w.delete then NotFound(w.path) else Found(w.path, RawVersion(t.files, w.path) + 1, w.content)
  {
    LandedExact(t, op, w);
    FetchAnswers(Step(t, op), reader, w.path);
    hide Step, FetchStep, Accepts;
  }

  /** The answer to an accepted commit names exactly its paths, with the versions they now have. */
  lemma AnswerNamesVersions(t: Tables, op: Op)
    requires Accepts(t, op)
    ensures var answer := CommitStep(t, op.agent, op.taskId, op.writes, op.refs).1;
            && answer.Committed?
            && (forall p :: p in answer.versions <==> Writes(op, p))
            && forall w | w in op.writes ::
                 && w.path in answer.versions && w.path in Step(t, op).files
                 && answer.versions[w.path] == Step(t, op).files[w.path].version
  {
    VersionsAnswered(t.files, op.agent, op.writes);
    forall w | w in op.writes ensures w.path in PathsOf(op.writes) {
      var k :| 0 <= k < |op.writes| && op.writes[k] == w;
      assert PathsOf(op.writes)[k] == w.path;
    }
    hide Apply, NewVersions, Moved;
  }

  /** Every commit that reaches the store adds one event, of its outcome, agent and task; nothing else adds any. */
  lemma StepEvents(t: Tables, op: Op)
    ensures var events := Step(t, op).events;
            if Rejects(t, op) then events == t.events + [StoredEvent(t.eventSeq + 1, CommitRejected, op.agent, op.taskId)]
            else if Accepts(t, op) then events == t.events + [StoredEvent(t.eventSeq + 1, CommitOk, op.agent, op.taskId)]
            else events == t.events
    ensures Step(t, op).eventSeq == if Rejects(t, op) || Accepts(t, op) then t.eventSeq + 1 else t.eventSeq
  {
    hide Moved, Apply, NewVersions, WellFormed;
  }

  /** Only an accepted commit touches the files, and only the files it writes, each one version up. */
  lemma StepFiles(t: Tables, op: Op, p: Path)
    requires ValidFiles(t.files)
    ensures ValidFiles(Step(t, op).files)
    ensures Accepts(t, op) && Writes(op, p) ==>
              && p in Step(t, op).files
              && RawVersion(Step(t, op).files, p) == RawVersion(t.files, p) + 1
    ensures !(Accepts(t, op) && Writes(op, p)) ==>
              && (p in Step(t, op).files <==> p in t.files)
              && (p in t.files ==> Step(t, op).files[p] == t.files[p])
  {
    if Accepts(t, op) {
      ApplyExact(t.files, op.agent, op.writes);
      var after := Step(t, op).files;
      assert after == Apply(t.files, op.agent, op.writes);
      hide Step, Accepts, Apply;
      forall q | q in after
        ensures after[q].path == q && after[q].version >= 1
        ensures Writes(op, q) ==> after[q].version == RawVersion(t.files, q) + 1
      {
        if q in PathsOf(op.writes) {
          var i :| 0 <= i < |op.writes| && PathsOf(op.writes)[i] == q;
          assert op.writes[i] in op.writes;
        }
      }
      if Writes(op, p) {
        var i :| 0 <= i < |op.writes| && PathsOf(op.writes)[i] == p;
        assert op.writes[i] in op.writes;
      }
    }
  }

  lemma {:induction false} RunKeepsFilesValid(t: Tables, ops: seq<Op>)
    requires ValidFiles(t.files)
    ensures ValidFiles(Exec(t, ops).files)
  {
    if ops != [] {
      var n := |ops| - 1;
      RunKeepsFilesValid(t, ops[..n]);
      StepFiles(Exec(t, ops[..n]), ops[n], "");
    }
  }

  // ----------------------------------------------------- version conservation

  /** How many accepted commits of the run wrote `p`. */
  ghost function WriteCount(t: Tables, ops: seq<Op>, p: Path): nat {
    if ops == [] then 0
    else
      var n := |ops| - 1;
      WriteCount(t, ops[..n], p)
      + if Accepts(Exec(t, ops[..n]), ops[n]) && Writes(ops[n], p) then 1 else 0
  }

  /** How many commit attempts of the run reached the store. */
  function Attempts(ops: seq<Op>): nat {
    if ops == [] then 0
    else
      var op := ops[|ops| - 1];
      Attempts(ops[..|ops| - 1]) + if op.Commit? && WellFormed(op.writes) then 1 else 0
  }

  /** The version counter of a path counts its accepted writes, deletes included; it never restarts. */
  lemma {:induction false} VersionConservation(t: Tables, ops: seq<Op>, p: Path)
    requires ValidFiles(t.files)
    ensures RawVersion(Exec(t, ops).files, p) == RawVersion(t.files, p) + WriteCount(t, ops, p)
  {
    if ops != [] {
      var n := |ops| - 1;
      VersionConservation(t, ops[..n], p);
      RunKeepsFilesValid(t, ops[..n]);
      StepFiles(Exec(t, ops[..n]), ops[n], p);
    }
  }

  /** One event per commit attempt, numbered consecutively from 1. */
  lemma {:induction false} EventsNumberAttempts(t: Tables, ops: seq<Op>)
    requires Fresh(t)
    ensures Exec(t, ops).eventSeq == |Exec(t, ops).events| == Attempts(ops)
    ensures forall k | 0 <= k < |Exec(t, ops).events| :: Exec(t, ops).events[k].seqNo == k + 1
  {
    if ops != [] {
      var n := |ops| - 1;
      EventsNumberAttempts(t, ops[..n]);
      StepEvents(Exec(t, ops[..n]), ops[n]);
      assert Rejects(Exec(t, ops[..n]), ops[n]) || Accepts(Exec(t, ops[..n]), ops[n]) <==> Attempts(ops) > Attempts(ops[..n]);
      hide Step, Accepts, Rejects;
    }
  }

  // --------------------------------------------------------------------- no ABA

  /** While the counter of a path stands still, so does its entry; otherwise it has grown. */
  lemma {:induction false} CounterFreezesEntry(t: Tables, ops: seq<Op>, i: nat, j: nat, p: Path)
    requires ValidFiles(t.files) && i <= j <= |ops|
    ensures RawVersion(At(t, ops, i).files, p) <= RawVersion(At(t, ops, j).files, p)
    ensures RawVersion(At(t, ops, i).files, p) == RawVersion(At(t, ops, j).files, p) ==>
              && (p in At(t, ops, i).files <==> p in At(t, ops, j).files)
              && (p in At(t, ops, i).files ==> At(t, ops, j).files[p] == At(t, ops, i).files[p])
    decreases j
  {
    hide Accepts, Step;
    if i < j {
      CounterFreezesEntry(t, ops, i, j - 1, p);
      RunKeepsFilesValid(t, ops[..j - 1]);
      AtNext(t, ops, j - 1);
      StepFiles(At(t, ops, j - 1), ops[j - 1], p);
    }
  }

  /**
   * A version read at one moment of a run and current at a later one stands for the same content at
   * both, or for absence at both: a version never comes back with other content.
   */
  lemma VersionNamesContent(t: Tables, ops: seq<Op>, i: nat, j: nat, p: Path)
    requires ValidFiles(t.files) && i <= j <= |ops|
    requires EffectiveVersion(At(t, ops, i).files, p) == EffectiveVersion(At(t, ops, j).files, p)
    ensures Lookup(At(t, ops, i).files, p) == Lookup(At(t, ops, j).files, p)
  {
    CounterFreezesEntry(t, ops, i, j, p);
    RunKeepsFilesValid(t, ops[..i]);
    RunKeepsFilesValid(t, ops[..j]);
  }

  // -------------------------------------------------------------- no lost update

  /** An accepted write was based on the version that was current when it landed. */
  lemma AcceptedBase(t: Tables, op: Op, w: FileWrite)
    requires Accepts(t, op) && w in op.writes
    ensures Base(w) == EffectiveVersion(t.files, w.path)
    ensures Writes(op, w.path)
    ensures EffectiveVersion(Step(t, op).files, w.path) == if w.delete then 0 else RawVersion(t.files, w.path) + 1
  {
    AcceptedIffCurrent(t, op.agent, op.writes, op.refs);
    ApplyExact(t.files, op.agent, op.writes);
    var i :| 0 <= i < |op.writes| && op.writes[i] == w;
    assert PathsOf(op.writes)[i] == w.path;
  }

  /** Over a whole run, at most one accepted commit writes a path on a given live version. */
  lemma NoLostUpdate(t: Tables, ops: seq<Op>, i: nat, j: nat, wi: FileWrite, wj: FileWrite)
    requires ValidFiles(t.files) && i < j < |ops|
    requires Accepts(At(t, ops, i), ops[i]) && wi in ops[i].writes
    requires Accepts(At(t, ops, j), ops[j]) && wj in ops[j].writes
    requires wi.path == wj.path && Base(wi) > 0
    ensures Base(wj) != Base(wi)
  {
    var p := wi.path;
    AcceptedBase(At(t, ops, i), ops[i], wi);
    AcceptedBase(At(t, ops, j), ops[j], wj);
    RunKeepsFilesValid(t, ops[..i]);
    AtNext(t, ops, i);
    StepFiles(At(t, ops, i), ops[i], p);
    CounterFreezesEntry(t, ops, i + 1, j, p);
  }

  ghost predicate Deletes(op: Op, p: Path) {
    op.Commit? && exists w | w in op.writes :: w.path == p && w.delete
  }

  /** A path goes from present to absent only by an accepted delete. */
  lemma {:induction false} AbsenceNeedsDelete(t: Tables, ops: seq<Op>, i: nat, j: nat, p: Path)
    requires ValidFiles(t.files) && i <= j <= |ops|
    requires EffectiveVersion(At(t, ops, i).files, p) > 0 && EffectiveVersion(At(t, ops, j).files, p) == 0
    ensures exists k | i <= k < j :: Accepts(At(t, ops, k), ops[k]) && Deletes(ops[k], p)
    decreases j
  {
    hide Accepts, Step;
    RunKeepsFilesValid(t, ops[..j - 1]);
    AtNext(t, ops, j - 1);
    StepFiles(At(t, ops, j - 1), ops[j - 1], p);
    if EffectiveVersion(At(t, ops, j - 1).files, p) == 0 {
      AbsenceNeedsDelete(t, ops, i, j - 1, p);
    } else {
      var op := ops[j - 1];
      assert Accepts(At(t, ops, j - 1), op) && Writes(op, p);
      var n :| 0 <= n < |op.writes| && PathsOf(op.writes)[n] == p;
      assert op.writes[n] in op.writes;
      AcceptedBase(At(t, ops, j - 1), op, op.writes[n]);
      assert Deletes(op, p);
    }
  }

  /** An accepted write that is no delete leaves its path live. */
  lemma WrittenIsLive(t: Tables, ops: seq<Op>, k: nat, w: FileWrite)
    requires k < |ops| && Accepts(At(t, ops, k), ops[k]) && w in ops[k].writes && !w.delete
    ensures EffectiveVersion(At(t, ops, k + 1).files, w.path) > 0
  {
    AcceptedBase(At(t, ops, k), ops[k], w);
    AtNext(t, ops, k);
  }

  lemma WriteOf(op: Op, p: Path) returns (w: FileWrite)
    requires Writes(op, p)
    ensures op.Commit? && w in op.writes && w.path == p
  {
    var n :| 0 <= n < |op.writes| && PathsOf(op.writes)[n] == p;
    w := op.writes[n];
  }

  lemma DeletesWrites(op: Op, p: Path)
    requires Deletes(op, p)
    ensures Writes(op, p)
  {
    var w :| w in op.writes && w.path == p && w.delete;
    var n :| 0 <= n < |op.writes| && op.writes[n] == w;
    assert PathsOf(op.writes)[n] == p;
  }

  /** An accepted commit strictly between the two operations writes the path. */
  ghost predicate WrittenBetween(t: Tables, ops: seq<Op>, i: nat, j: nat, p: Path)
    requires j <= |ops|
  {
    exists k | i < k < j :: Accepts(At(t, ops, k), ops[k]) && Writes(ops[k], p)
  }

  ghost predicate DeletedBetween(t: Tables, ops: seq<Op>, i: nat, j: nat, p: Path)
    requires j <= |ops|
  {
    exists k | i < k < j :: Accepts(At(t, ops, k), ops[k]) && Deletes(ops[k], p)
  }

  lemma GoneMeansDeleted(t: Tables, ops: seq<Op>, i: nat, k: nat, j: nat, p: Path)
    requires ValidFiles(t.files) && i <= k < j <= |ops|
    requires EffectiveVersion(At(t, ops, k + 1).files, p) > 0 && EffectiveVersion(At(t, ops, j).files, p) == 0
    ensures DeletedBetween(t, ops, i, j, p)
  {
    AbsenceNeedsDelete(t, ops, k + 1, j, p);
    hide Accepts, Deletes, EffectiveVersion, At, Writes;
  }

  lemma WriteBetweenDeletes(t: Tables, ops: seq<Op>, i: nat, j: nat, p: Path)
    requires ValidFiles(t.files) && i < j <= |ops| && WrittenBetween(t, ops, i, j, p)
    requires EffectiveVersion(At(t, ops, j).files, p) == 0
    ensures DeletedBetween(t, ops, i, j, p)
  {
    hide Accepts, Deletes, Writes, EffectiveVersion, At;
    var k :| i < k < j && Accepts(At(t, ops, k), ops[k]) && Writes(ops[k], p);
    var w := WriteOf(ops[k], p);
    if w.delete {
      DeleteIs(ops[k], w);
    } else {
      WrittenIsLive(t, ops, k, w);
      GoneMeansDeleted(t, ops, i, k, j, p);
    }
  }

  /**
   * Two accepted writes that both expected the path to be absent have an accepted delete of it
   * between them if and only if the first was no delete itself or some accepted commit wrote the
   * path in between.
   */
  lemma NoLostCreation(t: Tables, ops: seq<Op>, i: nat, j: nat, wi: FileWrite, wj: FileWrite)
    requires ValidFiles(t.files) && i < j < |ops|
    requires Accepts(At(t, ops, i), ops[i]) && wi in ops[i].writes
    requires Accepts(At(t, ops, j), ops[j]) && wj in ops[j].writes
    requires wi.path == wj.path && Base(wi) == 0 && Base(wj) == 0
    ensures DeletedBetween(t, ops, i, j, wi.path) <==> !wi.delete || WrittenBetween(t, ops, i, j, wi.path)
  {
    var p := wi.path;
    AcceptedBase(At(t, ops, j), ops[j], wj);
    if !wi.delete {
      WrittenIsLive(t, ops, i, wi);
      GoneMeansDeleted(t, ops, i, i, j, p);
    }
    if WrittenBetween(t, ops, i, j, p) { WriteBetweenDeletes(t, ops, i, j, p); }
    hide Accepts, Deletes, Writes, EffectiveVersion, At;
    if DeletedBetween(t, ops, i, j, p) {
      var k :| i < k < j && Accepts(At(t, ops, k), ops[k]) && Deletes(ops[k], p);
      DeletesWrites(ops[k], p);
    }
  }

  lemma DeleteIs(op: Op, w: FileWrite)
    requires op.Commit? && w in op.writes && w.delete
    ensures Deletes(op, w.path)
  {}

  /**
   * After an accepted write that expected its path to be absent, another write of the path that
   * expects absence, by an agent with nothing on record, is accepted at once if and only if the first
   * was a delete: exactly then two such writes land with no delete in between.
   */
  lemma CreatedAgainIff(t: Tables, first: Op, w: FileWrite, agent: AgentId, taskId: TaskId, again: FileWrite)
    requires Accepts(t, first) && w in first.writes && Base(w) == 0
    requires agent !in Step(t, first).readSets
    requires again.path == w.path && Base(again) == 0 && !(again.delete && again.basedOn.None?)
    ensures Accepts(Step(t, first), Commit(agent, taskId, [again], [])) <==> w.delete
  {
    AcceptedBase(t, first, w);
    SingleWriteIff(Step(t, first), agent, taskId, again);
  }

  /** One write by an agent with nothing on record is accepted exactly when its base is current. */
  lemma SingleWriteIff(t: Tables, agent: AgentId, taskId: TaskId, w: FileWrite)
    requires agent !in t.readSets
    ensures Accepts(t, Commit(agent, taskId, [w], []))
            <==> !(w.delete && w.basedOn.None?) && Base(w) == EffectiveVersion(t.files, w.path)
  {
    AcceptedIffCurrent(t, agent, [w], []);
    assert PathsOf([w]) == [w.path] && w in [w];
    assert Expected(t, agent, []) == map[];
    hide Moved;
  }

  /** The check for a null base lets one delete of an absent path through: the one on base 0. */
  lemma DeleteOfAbsentIff(t: Tables, agent: AgentId, taskId: TaskId, w: FileWrite)
    requires agent !in t.readSets && w.delete && EffectiveVersion(t.files, w.path) == 0
    ensures Accepts(t, Commit(agent, taskId, [w], [])) <==> w.basedOn == Some(0)
  {
    SingleWriteIff(t, agent, taskId, w);
  }

  /** In any accepted commit, a delete of an absent path is on base 0. */
  lemma AcceptedDeleteOfAbsent(t: Tables, op: Op, w: FileWrite)
    requires Accepts(t, op) && w in op.writes && w.delete && EffectiveVersion(t.files, w.path) == 0
    ensures w.basedOn == Some(0)
  {
    AcceptedBase(t, op, w);
  }

  // ------------------------------------------------------------ recovery from STALE

  /** A refused commit changes no file and no read set. */
  lemma RejectionChangesNothing(t: Tables, op: Op)
    requires Rejects(t, op)
    ensures Step(t, op).files == t.files && Step(t, op).readSets == t.readSets
  {}

  lemma {:induction false} FetchesOnlyRecord(t: Tables, fetches: seq<Op>, agent: AgentId, p: Path)
    requires forall op | op in fetches :: op.Fetch?
    ensures Exec(t, fetches).files == t.files
    ensures var seen := Recorded(Exec(t, fetches), agent);
            if Fetch(agent, p) in fetches then p in seen && seen[p] == EffectiveVersion(t.files, p)
            else (p in seen <==> p in Recorded(t, agent)) && (p in seen ==> seen[p] == Recorded(t, agent)[p])
  {
    if fetches != [] {
      var n := |fetches| - 1;
      forall op | op in fetches[..n] ensures op.Fetch? { assert op in fetches; }
      assert fetches[n] in fetches;
      FetchesOnlyRecord(t, fetches[..n], agent, p);
      assert Fetch(agent, p) in fetches <==> Fetch(agent, p) in fetches[..n] || fetches[n] == Fetch(agent, p);
    }
  }

  /** The write moved onto the version the rejection reported for its path. */
  ghost function Rebase(w: FileWrite, moved: seq<MovedFile>): FileWrite {
    if exists m | m in moved :: m.path == w.path then
      var m :| m in moved && m.path == w.path;
      w.(basedOn := if m.now == 0 then None else Some(m.now))
    else w
  }

  ghost function RebaseAll(writes: seq<FileWrite>, moved: seq<MovedFile>): seq<FileWrite> {
    seq(|writes|, i requires 0 <= i < |writes| => Rebase(writes[i], moved))
  }

  /**
   * STALE tells the agent everything it needs: after fetching every moved path and rebasing its
   * writes on the reported versions, with no other commit in between, the resubmission is accepted if
   * and only if it deletes no path that is gone. Other agents may fetch meanwhile.
   */
  lemma StaleIsEnoughToRecover(t: Tables, op: Op, fetches: seq<Op>, moved: seq<MovedFile>)
    requires Rejects(t, op)
    requires moved == Moved(t, op.agent, op.writes, op.refs)
    requires forall f | f in fetches :: f.Fetch?
    requires forall m | m in moved :: Fetch(op.agent, m.path) in fetches
    ensures Accepts(Exec(Step(t, op), fetches), op.(writes := RebaseAll(op.writes, moved)))
            <==> forall w, m | w in op.writes && m in moved && m.path == w.path && w.delete :: m.now != 0
  {
    if forall w, m | w in op.writes && m in moved && m.path == w.path && w.delete :: m.now != 0 {
      ResubmissionLands(t, op, fetches, moved);
    } else {
      var w, m :| w in op.writes && m in moved && m.path == w.path && w.delete && m.now == 0;
      var i :| 0 <= i < |op.writes| && op.writes[i] == w;
      hide Moved, Step, Exec;
      RebaseOntoNow(t, op, moved, w, m);
      assert RebaseAll(op.writes, moved)[i] in RebaseAll(op.writes, moved);
    }
  }

  lemma RebaseOntoNow(t: Tables, op: Op, moved: seq<MovedFile>, w: FileWrite, m: MovedFile)
    requires op.Commit? && moved == Moved(t, op.agent, op.writes, op.refs)
    requires m in moved && m.path == w.path
    ensures Rebase(w, moved) == w.(basedOn := if m.now == 0 then None else Some(m.now))
  {
    forall x | x in moved && x.path == w.path ensures x.now == m.now {
      MovedExact(t, op.agent, op.writes, op.refs, x);
      MovedExact(t, op.agent, op.writes, op.refs, m);
    }
  }

  lemma ResubmissionLands(t: Tables, op: Op, fetches: seq<Op>, moved: seq<MovedFile>)
    requires Rejects(t, op)
    requires moved == Moved(t, op.agent, op.writes, op.refs)
    requires forall f | f in fetches :: f.Fetch?
    requires forall m | m in moved :: Fetch(op.agent, m.path) in fetches
    requires forall w, m | w in op.writes && m in moved && m.path == w.path && w.delete :: m.now != 0
    ensures Accepts(Exec(Step(t, op), fetches), op.(writes := RebaseAll(op.writes, moved)))
  {
    var t1 := Step(t, op);
    var t2 := Exec(t1, fetches);
    var rebased := RebaseAll(op.writes, moved);
    FetchesOnlyRecord(t1, fetches, op.agent, "");
    assert PathsOf(rebased) == PathsOf(op.writes);
    forall w | w in rebased
      ensures Base(w) == EffectiveVersion(t.files, w.path) && !(w.delete && w.basedOn.None?)
    {
      var i :| 0 <= i < |rebased| && rebased[i] == w;
      var v := op.writes[i];
      assert v in op.writes;
      if exists m | m in moved :: m.path == v.path {
        var m :| m in moved && m.path == v.path && w == v.(basedOn := if m.now == 0 then None else Some(m.now));
        MovedExact(t, op.agent, op.writes, op.refs, m);
      } else {
        MovedExact(t, op.agent, op.writes, op.refs, MovedFile(v.path, Base(v), EffectiveVersion(t.files, v.path)));
      }
    }
    var expected := Expected(t2, op.agent, op.refs);
    forall p | p in expected ensures expected[p] == EffectiveVersion(t2.files, p) {
      FetchesOnlyRecord(t1, fetches, op.agent, p);
      if Fetch(op.agent, p) !in fetches {
        var before := Expected(t, op.agent, op.refs);
        assert p in before && before[p] == expected[p];
        MovedExact(t, op.agent, op.writes, op.refs, MovedFile(p, before[p], EffectiveVersion(t.files, p)));
      }
    }
    AcceptedIffCurrent(t2, op.agent, rebased, op.refs);
  }
}
