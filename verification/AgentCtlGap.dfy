/**
 * Where the end-to-end guarantee has gaps: a fetch that is answered NOT_FOUND, or not answered at
 * all, brings the server's record of an agent's reads up to date without bringing the agent's copies
 * up to date.
 */
module AgentCtlGap {
  import opened Common
  import opened FileStore
  import opened FileHistory
  import opened Serializability
  import opened AgentCtl
  import opened ClientRuns
  import opened ClientRecovery

  /** The server has these paths on record, and the client is as it was. */
  ghost predicate OnlyRecorded(w: World, w1: World, a: AgentId, paths: seq<Path>) {
    HasRecorded(w, w1, a, paths) && Of(w1, a) == Of(w, a).(clean := false)
  }

  /** One path that is not there turns a fetch into a NOT_FOUND: the client learns nothing, the record everything. */
  lemma FailedFetchOnlyRecords(w: World, a: AgentId, asked: seq<Path>, q: Path)
    requires Of(w, a).command.Idle? && Distinct(asked) && q in asked && !Live(w.tables.files, q)
    ensures OnlyRecorded(w, Play(w, FetchRun(a, asked)), a, asked)
  {
    hide Play, FetchRun, RecordCovers;
    FetchRunIs(w, a, asked);
    var results := Results(w.tables.files, asked);
    var i :| 0 <= i < |asked| && asked[i] == q;
    assert results[i] in results && results[i].NotFound?;
    hide Recorded;
  }

  /** So does a lost answer, whatever was found. */
  lemma LostAnswerOnlyRecords(w: World, a: AgentId, asked: seq<Path>, k: nat)
    requires Of(w, a).command.Idle? && asked != [] && Distinct(asked) && k <= |asked|
    ensures OnlyRecorded(w, Play(w, LostRun(a, asked, k)), a, asked[..k])
  {
    hide Play, LostRun, RecordCovers, Recorded;
    LostRunIs(w, a, asked, k);
  }

  lemma RejectedIsWellFormed(t: Tables, op: Op)
    requires Rejects(t, op)
    ensures WellFormed(op.writes)
  {}

  /**
   * An agent's commit was refused, and a fetch puts the moved paths on record without telling the
   * client: the very commit that was refused is now accepted if and only if no file it writes moved.
   */
  lemma UnheardFetchUnlocksCommitIff(t: Tables, w: World, w1: World, a: AgentId, taskId: TaskId,
                                     workspace: map<Path, string>, op: Op, paths: seq<Path>)
    requires Refused(t, w, a, taskId, workspace, op) && OnlyRecorded(w, w1, a, paths)
    requires forall p | p in MovedPaths(Moved(w.tables, a, op.writes, op.refs)) :: p in paths
    ensures CommitLands(w1, a, taskId, workspace)
            <==> forall p | p in Of(w, a).client.edited :: BaseOf(Of(w, a).client, p) == EffectiveVersion(w.tables.files, p)
  {
    var c, files := Of(w, a).client, w.tables.files;
    hide Inv, CommitOp, Rejects, Moved, MovedPaths, CommitLands, EffectiveVersion, Recorded, BaseOf;
    forall p
      ensures p !in paths && p in Recorded(w.tables, a) ==> Recorded(w.tables, a)[p] == EffectiveVersion(files, p)
      ensures p !in paths && p in c.versions && p !in c.edited && p !in Recorded(w.tables, a) ==>
                c.versions[p] == EffectiveVersion(files, p)
    {
      if p !in paths { UnmovedIsCurrent(w, a, taskId, workspace, op, p); }
    }
    RecoveredRecord(Recorded(w.tables, a), Recorded(w1.tables, a), c, c, files, paths);
    if forall p | p in c.edited :: BaseOf(c, p) == EffectiveVersion(files, p) {
      RejectedIsWellFormed(w.tables, op);
      AcceptedOnRecord(w1, a, taskId, workspace, op);
    } else {
      var p :| p in c.edited && BaseOf(c, p) != EffectiveVersion(files, p);
      MovedEditCannotLand(w1, a, taskId, workspace, p);
    }
  }

  lemma MovedEditCannotLand(w: World, a: AgentId, taskId: TaskId, workspace: map<Path, string>, p: Path)
    requires p in Of(w, a).client.edited && BaseOf(Of(w, a).client, p) != EffectiveVersion(w.tables.files, p)
    ensures !CommitLands(w, a, taskId, workspace)
  {
    hide CommitLands, EffectiveVersion;
    if CommitLands(w, a, taskId, workspace) { LandedBases(w, a, taskId, workspace, p); }
  }

  /** The moved paths fetched together with one that does not exist: the answer is NOT_FOUND. */
  lemma FailedFetchUnlocksCommitIff(t: Tables, w: World, a: AgentId, taskId: TaskId, workspace: map<Path, string>, op: Op,
                                    asked: seq<Path>, q: Path)
    requires Refused(t, w, a, taskId, workspace, op)
    requires Distinct(asked) && q in asked && !Live(w.tables.files, q)
    requires forall p | p in MovedPaths(Moved(w.tables, a, op.writes, op.refs)) :: p in asked
    ensures var c, w1 := Of(w, a).client, Play(w, FetchRun(a, asked));
            && Of(w1, a).client == c && w1.tables.files == w.tables.files
            && (CommitLands(w1, a, taskId, workspace)
                <==> forall p | p in c.edited :: BaseOf(c, p) == EffectiveVersion(w.tables.files, p))
  {
    FailedFetchOnlyRecords(w, a, asked, q);
    hide Play, Inv, CommitOp, Rejects, Moved, MovedPaths, CommitLands, EffectiveVersion, Recorded, RecordCovers, BaseOf;
    UnheardFetchUnlocksCommitIff(t, w, Play(w, FetchRun(a, asked)), a, taskId, workspace, op, asked);
  }

  /** The moved paths looked up by a fetch that is never answered, all of them found or not. */
  lemma LostAnswerUnlocksCommitIff(t: Tables, w: World, a: AgentId, taskId: TaskId, workspace: map<Path, string>, op: Op,
                                   asked: seq<Path>, k: nat)
    requires Refused(t, w, a, taskId, workspace, op)
    requires asked != [] && Distinct(asked) && k <= |asked|
    requires forall p | p in MovedPaths(Moved(w.tables, a, op.writes, op.refs)) :: p in asked[..k]
    ensures var c, w1 := Of(w, a).client, Play(w, LostRun(a, asked, k));
            && Of(w1, a).client == c && w1.tables.files == w.tables.files
            && (CommitLands(w1, a, taskId, workspace)
                <==> forall p | p in c.edited :: BaseOf(c, p) == EffectiveVersion(w.tables.files, p))
  {
    LostAnswerOnlyRecords(w, a, asked, k);
    hide Play, Inv, CommitOp, Rejects, Moved, MovedPaths, CommitLands, EffectiveVersion, Recorded, RecordCovers, BaseOf;
    UnheardFetchUnlocksCommitIff(t, w, Play(w, LostRun(a, asked, k)), a, taskId, workspace, op, asked[..k]);
  }
}
