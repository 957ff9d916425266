/**
 * Runs that reach the states in which a client is let down: from any store, for any agents, paths
 * and contents.
 */
module ClientWitness {
  import opened Common
  import opened Ordering
  import opened FileStore
  import opened FileHistory
  import opened AgentCtl
  import opened ClientRuns
  import opened ClientRecovery
  import opened AgentCtlGap

  function Holding(f: FetchResult, edited: seq<Path>): Client
    requires f.Found?
  {
    Client(map[f.path := f.version], edited, map[f.path := f])
  }

  /** A new client fetches one existing file. */
  lemma PullsOne(w: World, a: AgentId, p: Path)
    requires Of(w, a) == NEW_SESSION && Recorded(w.tables, a) == map[] && Live(w.tables.files, p)
    ensures var f, w1 := Lookup(w.tables.files, p), Play(w, FetchRun(a, [p]));
            && HasFetched(w, w1, a, [p])
            && Of(w1, a) == Session(Holding(f, []), Idle, true)
            && Recorded(w1.tables, a) == map[p := f.version]
  {
    var f, w1 := Lookup(w.tables.files, p), Play(w, FetchRun(a, [p]));
    hide Play, FetchRun;
    FetchRunIs(w, a, [p]);
    assert Results(w.tables.files, [p]) == [f];
    assert [f][..0] == [] && Without([], p) == [];
    assert AfterFetch(EMPTY_CLIENT, [f]) == Holding(f, []);
    assert forall q :: q in [p] <==> q == p;
    assert Recorded(w1.tables, a) == map[p := f.version];
  }

  lemma MarksOne(w: World, a: AgentId, c: Client, p: Path)
    requires Of(w, a) == Session(c, Idle, true) && c.edited == []
    ensures Act(w, MarkEdited(a, [p])) == w.(sessions := w.sessions[a := Session(c.(edited := [p]), Idle, true)])
  {
    var marked := (set q | q in c.edited) + (set q | q in [p]);
    assert marked == {p};
    SortedUnique(SortedElements(marked), [p]);
  }

  /** The request for one edited file: a delete if the client tracks it and it is gone from the workspace. */
  lemma OneEdit(c: Client, a: AgentId, taskId: TaskId, p: Path, workspace: map<Path, string>)
    requires c.edited == [p] && (p in workspace || p in c.versions)
    ensures var op := CommitOp(c, a, taskId, workspace);
            && op.Some? && op.value == Commit(a, taskId, op.value.writes, ReadRefs(c))
            && WellFormed(op.value.writes) && PathsOf(op.value.writes) == [p]
            && |op.value.writes| == 1 && op.value.writes[0].path == p && op.value.writes[0].delete == (p !in workspace)
            && Base(op.value.writes[0]) == BaseOf(c, p)
  {
    AllReadable(c, workspace, c.edited);
    BuildWritesExact(c, workspace, c.edited);
    hide BuildWrites, ReadRefs;
  }

  lemma OneWriteTables(t: Tables, op: Op, b: AgentId, p: Path)
    requires Accepts(t, op) && op.agent == b && ValidFiles(t.files) && PathsOf(op.writes) == [p]
    requires |op.writes| == 1 && op.writes[0].path == p && EffectiveVersion(t.files, p) > 0
    ensures var after := Step(t, op);
            && EffectiveVersion(after.files, p) == (if op.writes[0].delete then 0 else EffectiveVersion(t.files, p) + 1)
            && (forall q | q != p :: Lookup(after.files, q) == Lookup(t.files, q))
            && forall a | a != b :: Recorded(after, a) == Recorded(t, a)
  {
    AcceptedBase(t, op, op.writes[0]);
    assert Step(t, op).readSets == t.readSets - {b};
    forall q | q != p ensures Lookup(Step(t, op).files, q) == Lookup(t.files, q) {
      StepFiles(t, op, q);
      hide Step, Accepts, PathsOf;
    }
    hide Step, Accepts, PathsOf, Lookup;
  }

  /** An agent that holds the current version of one file commits an edit of it, or deletes it. */
  lemma CommitsOne(w: World, b: AgentId, f: FetchResult, taskId: TaskId, workspace: map<Path, string>)
    requires f.Found? && Of(w, b) == Session(Holding(f, [f.path]), Idle, true) && ValidFiles(w.tables.files)
    requires Lookup(w.tables.files, f.path) == f && Recorded(w.tables, b) == map[f.path := f.version]
    ensures var w1 := Act(w, CommitEdits(b, taskId, workspace));
            && EffectiveVersion(w1.tables.files, f.path) == (if f.path in workspace then f.version + 1 else 0)
            && (forall q | q != f.path :: Lookup(w1.tables.files, q) == Lookup(w.tables.files, q))
            && w1.sessions == w.sessions[b := NEW_SESSION]
            && forall a | a != b :: Recorded(w1.tables, a) == Recorded(w.tables, a)
  {
    var c := Of(w, b).client;
    assert EffectiveVersion(w.tables.files, f.path) == f.version > 0;
    CurrentCommitLands(w, b, taskId, workspace);
    OneEdit(c, b, taskId, f.path, workspace);
    var op := CommitOp(c, b, taskId, workspace).value;
    assert Accepts(w.tables, op);
    hide Step, Accepts, CommitOp, CommitLands, Act, WellFormed, EffectiveVersion, Lookup, Recorded;
    CommitActs(w, CommitEdits(b, taskId, workspace), op);
    OneWriteTables(w.tables, op, b, f.path);
  }

  /** Agents a and b pull p, b commits it as its workspace has it, and a marks an edit of q. */
  ghost function Overtaken(a: AgentId, b: AgentId, p: Path, q: Path, taskId: TaskId, workspace: map<Path, string>): seq<Action> {
    FetchRun(a, [p]) + FetchRun(b, [p]) + [MarkEdited(b, [p])] + [CommitEdits(b, taskId, workspace)] + [MarkEdited(a, [q])]
  }

  lemma OvertakenPlays(w: World, a: AgentId, b: AgentId, p: Path, q: Path, taskId: TaskId, workspace: map<Path, string>)
    ensures Play(w, Overtaken(a, b, p, q, taskId, workspace))
            == Act(Act(Act(Play(Play(w, FetchRun(a, [p])), FetchRun(b, [p])),
                           MarkEdited(b, [p])), CommitEdits(b, taskId, workspace)), MarkEdited(a, [q]))
  {
    var first, second := FetchRun(a, [p]), FetchRun(b, [p]);
    hide Act, Play, FetchRun;
    PlayAppend(w, first, second);
    PlayOne(w, first + second, MarkEdited(b, [p]));
    PlayOne(w, first + second + [MarkEdited(b, [p])], CommitEdits(b, taskId, workspace));
    PlayOne(w, first + second + [MarkEdited(b, [p])] + [CommitEdits(b, taskId, workspace)], MarkEdited(a, [q]));
  }

  /** Whatever store they start from, a is left holding an old copy of p, with an edit of q. */
  lemma OvertakenHolds(t: Tables, a: AgentId, b: AgentId, p: Path, q: Path, taskId: TaskId, workspace: map<Path, string>)
    requires Fresh(t) && a != b && Live(t.files, p)
    ensures var f, w := Lookup(t.files, p), Play(Opening(t), Overtaken(a, b, p, q, taskId, workspace));
            && f.path == p && f.version > 0
            && Inv(t, w) && Of(w, a) == Session(Holding(f, [q]), Idle, true)
            && Recorded(w.tables, a) == map[p := f.version]
            && EffectiveVersion(w.tables.files, p) == (if p in workspace then f.version + 1 else 0)
            && forall x | x != p :: Lookup(w.tables.files, x) == Lookup(t.files, x)
  {
    var f, w0 := Lookup(t.files, p), Opening(t);
    InvAlways(t, Overtaken(a, b, p, q, taskId, workspace));
    assert Recorded(w0.tables, a) == Recorded(w0.tables, b) == map[];
    assert f.path == p && f.version > 0;
    hide Act, Play, FetchRun, Recorded, Inv, Lookup, Overtaken, EffectiveVersion;
    OvertakenPlays(w0, a, b, p, q, taskId, workspace);
    PullsOne(w0, a, p);
    var w1 := Play(w0, FetchRun(a, [p]));
    PullsOne(w1, b, p);
    var w2 := Play(w1, FetchRun(b, [p]));
    MarksOne(w2, b, Holding(f, []), p);
    var w3 := Act(w2, MarkEdited(b, [p]));
    CommitsOne(w3, b, f, taskId, workspace);
    MarksOne(Act(w3, CommitEdits(b, taskId, workspace)), a, Holding(f, []), q);
  }

  // ------------------------------------------------------------- stale, and accepted

  /** Only the read of p has moved, so only p is reported. */
  lemma StaleMoved(t: Tables, a: AgentId, c: Client, op: Op, p: Path)
    requires op.Commit? && op.agent == a && op.refs == ReadRefs(c) && c.versions.Keys == {p} == Recorded(t, a).Keys
    requires Recorded(t, a)[p] != EffectiveVersion(t.files, p)
    requires forall v | v in op.writes :: Base(v) == EffectiveVersion(t.files, v.path)
    ensures var moved := Moved(t, a, op.writes, op.refs);
            moved != [] && forall x | x in MovedPaths(moved) :: x == p
  {
    var expected := Expected(t, a, op.refs);
    assert p in expected && expected[p] == Recorded(t, a)[p];
    MovedExact(t, a, op.writes, op.refs, MovedFile(p, expected[p], EffectiveVersion(t.files, p)));
    var moved := Moved(t, a, op.writes, op.refs);
    hide Moved, ReadRefs, EffectiveVersion, Recorded;
    forall x | x in MovedPaths(moved) ensures x == p {
      MovedPathsExact(moved, x);
      var m :| m in moved && m.path == x;
      MovedExact(t, a, op.writes, op.refs, m);
      ReadsReported(c, x);
    }
  }

  lemma MovedMeansRejected(t: Tables, op: Op)
    requires op.Commit? && WellFormed(op.writes) && Moved(t, op.agent, op.writes, op.refs) != []
    ensures Rejects(t, op) && !Accepts(t, op)
  {
    hide Moved;
  }

  /** Holding an old version of one file and editing one that does not exist yet, the agent is refused. */
  lemma StaleIsRefused(t: Tables, w: World, a: AgentId, f: FetchResult, q: Path, taskId: TaskId, text: string)
    requires Fresh(t) && Inv(t, w) && f.Found? && Of(w, a) == Session(Holding(f, [q]), Idle, true) && q != f.path
    requires Recorded(w.tables, a) == map[f.path := f.version] && EffectiveVersion(w.tables.files, f.path) != f.version
    requires EffectiveVersion(w.tables.files, q) == 0
    ensures var op := CommitOp(Of(w, a).client, a, taskId, map[q := text]);
            && op.Some? && Refused(t, w, a, taskId, map[q := text], op.value)
            && !CommitLands(w, a, taskId, map[q := text])
            && forall x | x in MovedPaths(Moved(w.tables, a, op.value.writes, op.value.refs)) :: x == f.path
  {
    var c := Of(w, a).client;
    OneEdit(c, a, taskId, q, map[q := text]);
    var op := CommitOp(c, a, taskId, map[q := text]).value;
    hide CommitOp, Moved, EffectiveVersion, Inv, WellFormed, Recorded, PathsOf, Accepts, Rejects;
    StaleMoved(w.tables, a, c, op, f.path);
    MovedMeansRejected(w.tables, op);
  }

  lemma LiveVersion(files: Files, p: Path)
    requires EffectiveVersion(files, p) > 0
    ensures Lookup(files, p).Found? && Lookup(files, p).version == EffectiveVersion(files, p)
  {}

  /** The agent of the run above, before its commit of q. */
  lemma OvertakenIsRefused(t: Tables, a: AgentId, b: AgentId, p: Path, q: Path, taskId: TaskId, text: string,
                           taskId': TaskId, text': string)
    requires Fresh(t) && a != b && p != q && Live(t.files, p) && !Live(t.files, q)
    ensures var w := Play(Opening(t), Overtaken(a, b, p, q, taskId, map[p := text]));
            var op := CommitOp(Of(w, a).client, a, taskId', map[q := text']);
            && op.Some? && Refused(t, w, a, taskId', map[q := text'], op.value)
            && !CommitLands(w, a, taskId', map[q := text'])
            && (forall x | x in MovedPaths(Moved(w.tables, a, op.value.writes, op.value.refs)) :: x == p)
            && Of(w, a).client == Holding(Lookup(t.files, p), [q]) && Lookup(t.files, p).path == p
            && BaseOf(Of(w, a).client, q) == EffectiveVersion(w.tables.files, q)
            && !Live(w.tables.files, q)
            && Lookup(w.tables.files, p).Found? && Lookup(w.tables.files, p) != Lookup(t.files, p)
  {
    var f, w := Lookup(t.files, p), Play(Opening(t), Overtaken(a, b, p, q, taskId, map[p := text]));
    OvertakenHolds(t, a, b, p, q, taskId, map[p := text]);
    assert EffectiveVersion(w.tables.files, q) == 0;
    LiveVersion(w.tables.files, p);
    hide Play, CommitOp, CommitLands, Inv, EffectiveVersion, Lookup, Recorded, Overtaken, Moved;
    StaleIsRefused(t, w, a, f, q, taskId', text');
  }

  /**
   * From any store with a file p and a path q that does not exist, for any two agents: after the run
   * above a's commit of q is refused because p has moved; after a failed fetch of p and q the same
   * commit is accepted, and a's copy of p is still the old one.
   */
  lemma StaleCopySlipsThrough(t: Tables, a: AgentId, b: AgentId, p: Path, q: Path, taskId: TaskId, text: string,
                              taskId': TaskId, text': string)
    requires Fresh(t) && a != b && p != q && Live(t.files, p) && !Live(t.files, q)
    ensures var w := Play(Opening(t), Overtaken(a, b, p, q, taskId, map[p := text]));
            var w1 := Play(w, FetchRun(a, [p, q]));
            && !CommitLands(w, a, taskId', map[q := text'])
            && CommitLands(w1, a, taskId', map[q := text'])
            && Of(w1, a).client.pulled == map[p := Lookup(t.files, p)]
            && Lookup(w1.tables.files, p).Found? && Lookup(w1.tables.files, p) != Lookup(t.files, p)
  {
    var w := Play(Opening(t), Overtaken(a, b, p, q, taskId, map[p := text]));
    hide Play, Act, Inv, CommitOp, Rejects, Moved, MovedPaths, EffectiveVersion, Recorded, Lookup, FetchRun, Overtaken,
         CommitLands, BaseOf;
    OvertakenIsRefused(t, a, b, p, q, taskId, text, taskId', text');
    var op := CommitOp(Of(w, a).client, a, taskId', map[q := text']).value;
    FailedFetchUnlocksCommitIff(t, w, a, taskId', map[q := text'], op, [p, q], q);
  }

  /** The same with a fetch of p alone, which finds it, and whose answer is lost: no NOT_FOUND is needed. */
  lemma StaleCopySlipsThroughSilence(t: Tables, a: AgentId, b: AgentId, p: Path, q: Path, taskId: TaskId, text: string,
                                     taskId': TaskId, text': string)
    requires Fresh(t) && a != b && p != q && Live(t.files, p) && !Live(t.files, q)
    ensures var w := Play(Opening(t), Overtaken(a, b, p, q, taskId, map[p := text]));
            var w1 := Play(w, LostRun(a, [p], 1));
            && !CommitLands(w, a, taskId', map[q := text'])
            && CommitLands(w1, a, taskId', map[q := text'])
            && Of(w1, a).client.pulled == map[p := Lookup(t.files, p)]
            && Lookup(w1.tables.files, p).Found? && Lookup(w1.tables.files, p) != Lookup(t.files, p)
  {
    var w := Play(Opening(t), Overtaken(a, b, p, q, taskId, map[p := text]));
    hide Play, Act, Inv, CommitOp, Rejects, Moved, MovedPaths, EffectiveVersion, Recorded, Lookup, LostRun, Overtaken,
         CommitLands, BaseOf;
    OvertakenIsRefused(t, a, b, p, q, taskId, text, taskId', text');
    var op := CommitOp(Of(w, a).client, a, taskId', map[q := text']).value;
    assert [p][..1] == [p];
    LostAnswerUnlocksCommitIff(t, w, a, taskId', map[q := text'], op, [p], 1);
  }

  // ------------------------------------------------------------ gone, and stuck for good

  /**
   * From any store with a file p, for any two agents: both pull p, b deletes it and a edits it. Then a
   * is stuck, its commit is refused whatever its workspace says, and it can never commit by its own
   * doing.
   */
  lemma StuckIsReached(t: Tables, a: AgentId, b: AgentId, p: Path, taskId: TaskId, workspace: map<Path, string>,
                       taskId': TaskId, workspace': map<Path, string>)
    requires Fresh(t) && a != b && Live(t.files, p) && p !in workspace
    ensures var w := Play(Opening(t), Overtaken(a, b, p, p, taskId, workspace));
            var op := CommitOp(Of(w, a).client, a, taskId', workspace');
            && Stuck(w, a, p)
            && op.Some? && Refused(t, w, a, taskId', workspace', op.value)
            && !EditsLive(Of(w, a).client, w.tables.files)
            && forall actions, id, ws :: !LandsAfter(w, a, actions, id, ws)
  {
    var f, w := Lookup(t.files, p), Play(Opening(t), Overtaken(a, b, p, p, taskId, workspace));
    OvertakenHolds(t, a, b, p, p, taskId, workspace);
    hide Play, Overtaken, Inv, Recorded;
    assert Stuck(w, a, p);
    OneEdit(Of(w, a).client, a, taskId', p, workspace');
    GoneIsNotLive(t, w, p);
    hide Stuck, CommitOp, Lookup, Live, EffectiveVersion;
    StuckCannotLand(w, a, p, taskId', workspace');
    var op := CommitOp(Of(w, a).client, a, taskId', workspace').value;
    NotAcceptedIsRejected(w.tables, op);
    hide Accepts, Rejects, CommitLands, AllBy;
    forall actions, id, ws ensures !LandsAfter(w, a, actions, id, ws) {
      if AllBy(actions, a) { GoneEditsAreFinal(t, w, a, actions, id, ws); }
    }
  }

  lemma GoneIsNotLive(t: Tables, w: World, p: Path)
    requires Fresh(t) && Inv(t, w) && EffectiveVersion(w.tables.files, p) == 0
    ensures !Live(w.tables.files, p)
  {
    FilesValid(t, w);
  }

  lemma NotAcceptedIsRejected(t: Tables, op: Op)
    requires op.Commit? && WellFormed(op.writes) && !Accepts(t, op)
    ensures Rejects(t, op)
  {}
}
