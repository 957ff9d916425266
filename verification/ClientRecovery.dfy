/**
 * What a client can do after a STALE answer. The commit is retried from the client's own versions,
 * and those change only when a fetch finds its files: so a tracked file that has been deleted by
 * somebody else can neither be refetched nor let go, and decides whether the agent can ever commit.
 */
module ClientRecovery {
  import opened Common
  import opened FileStore
  import opened FileHistory
  import opened Serializability
  import opened AgentCtl
  import opened ClientRuns

  // ------------------------------------------------------------------- being stuck

  /** The agent has edited a file it tracks and somebody else has deleted. */
  ghost predicate Stuck(w: World, a: AgentId, p: Path) {
    var s := Of(w, a);
    && p in s.client.edited && p in s.client.versions && s.client.versions[p] > 0
    && EffectiveVersion(w.tables.files, p) == 0
    && forall f | f in PartOf(s.command) && f.path == p :: f.NotFound?
  }

  /** The action is no accepted commit by another agent that writes the path. */
  ghost predicate LeavesAlone(w: World, action: Action, a: AgentId, p: Path) {
    IsCommit(action) && action.agent != a ==>
      var op := CommitOp(Of(w, action.agent).client, action.agent, action.taskId, action.workspace);
      op.Some? && Accepts(w.tables, op.value) ==> !Writes(op.value, p)
  }

  ghost predicate AllLeaveAlone(w: World, actions: seq<Action>, a: AgentId, p: Path) {
    actions != [] ==>
      var before := actions[..|actions| - 1];
      AllLeaveAlone(w, before, a, p) && LeavesAlone(Play(w, before), actions[|actions| - 1], a, p)
  }

  lemma StuckCannotLand(w: World, a: AgentId, p: Path, taskId: TaskId, workspace: map<Path, string>)
    requires Stuck(w, a, p)
    ensures !CommitLands(w, a, taskId, workspace)
  {
    if CommitLands(w, a, taskId, workspace) { LandedBases(w, a, taskId, workspace, p); }
  }

  lemma StuckThroughFetch(w: World, a: AgentId, p: Path, action: Action)
    requires Stuck(w, a, p) && action.agent == a && (action.BeginFetch? || action.FetchOne?)
    requires ValidFiles(w.tables.files)
    ensures Stuck(Act(w, action), a, p)
  {
    var s := Of(w, a);
    if action.FetchOne? && s.command.Fetching? && |s.command.results| < |s.command.asked| {
      var asked, results := s.command.asked, s.command.results;
      FetchesNext(w, a, asked, results);
      FetchTouchesNoFile(w.tables, a, asked[|results|]);
      assert forall f :: f in results + [Lookup(w.tables.files, asked[|results|])] <==>
                         f in results || f == Lookup(w.tables.files, asked[|results|]);
      hide Act, FileHistory.Step;
    }
  }

  lemma StuckThroughReply(t: Tables, w: World, a: AgentId, p: Path)
    requires Inv(t, w) && Stuck(w, a, p)
    ensures Stuck(Act(w, EndFetch(a)), a, p)
  {
    var s := Of(w, a);
    if s.command.Fetching? && |s.command.results| == |s.command.asked| {
      var results := s.command.results;
      assert forall f | f in results && f.path == p :: f.NotFound?;
      hide Act, Answers, EffectiveVersion, Inv, Told;
      AllAnswered(t, w, a);
      Ends(w, a, s.command.asked, results);
      StuckThroughTold(s, results, p);
    }
  }

  lemma StuckThroughTold(s: Session, results: seq<FetchResult>, p: Path)
    requires forall f | f in results && f.path == p :: f.NotFound?
    ensures var c, c' := s.client, Told(s, results).client;
            && (p in c'.edited <==> p in c.edited) && (p in c'.versions <==> p in c.versions)
            && (p in c.versions ==> c'.versions[p] == c.versions[p])
  {
    if forall f | f in results :: f.Found? { StuckThroughFiles(s.client, results, p); }
  }

  lemma AllAnswered(t: Tables, w: World, a: AgentId)
    requires Inv(t, w)
    requires var c := Of(w, a).command; c.Fetching? && |c.results| == |c.asked|
    ensures Answers(Of(w, a).command.asked, Of(w, a).command.results)
  {
    InvOf(t, w, a);
    hide Inv, PulledOk, RecordOk, WasThere;
  }

  lemma StuckThroughFiles(c: Client, files: seq<FetchResult>, p: Path)
    requires forall f | f in files :: f.Found? && f.path != p
    ensures p in AfterFetch(c, files).edited <==> p in c.edited
    ensures p in AfterFetch(c, files).versions <==> p in c.versions
    ensures p in c.versions ==> AfterFetch(c, files).versions[p] == c.versions[p]
  {
    EditedAfterFetch(c, files, p);
    AfterFetchExact(c, files, p);
    SeenPaths(files, p);
  }

  lemma {:induction false} SeenPaths(results: seq<FetchResult>, p: Path)
    ensures p in Seen(results) <==> exists f | f in results :: f.path == p
  {
    if results != [] {
      var n := |results| - 1;
      SeenPaths(results[..n], p);
      assert forall f :: f in results <==> f in results[..n] || f == results[n];
    }
  }

  lemma StuckThroughSilence(w: World, a: AgentId, p: Path)
    requires Stuck(w, a, p)
    ensures Stuck(Act(w, LoseAnswer(a)), a, p)
  {}

  lemma StuckThroughMark(w: World, a: AgentId, p: Path, paths: seq<Path>)
    requires Stuck(w, a, p)
    ensures Stuck(Act(w, MarkEdited(a, paths)), a, p)
  {
    hide EffectiveVersion;
    assert p in (set q | q in Of(w, a).client.edited);
  }

  /** A commit by the agent itself is refused, and one by another agent writes something else. */
  lemma StuckThroughCommit(w: World, a: AgentId, p: Path, action: Action)
    requires Stuck(w, a, p) && IsCommit(action) && LeavesAlone(w, action, a, p)
    requires ValidFiles(w.tables.files)
    ensures Stuck(Act(w, action), a, p)
  {
    var s := Of(w, action.agent);
    var op := CommitOp(s.client, action.agent, action.taskId, action.workspace);
    if s.command.Idle? && op.Some? {
      CommitActs(w, action, op.value);
      if action.agent == a { StuckCannotLand(w, a, p, action.taskId, action.workspace); }
      CommitLeavesAbsent(w.tables, op.value, p);
      assert action.agent == a ==> !Accepts(w.tables, op.value);
      hide FileHistory.Step, Accepts, CommitOp, Writes, Act, EffectiveVersion;
    }
  }

  lemma CommitLeavesAbsent(t: Tables, op: Op, p: Path)
    requires ValidFiles(t.files) && EffectiveVersion(t.files, p) == 0 && !(Accepts(t, op) && Writes(op, p))
    ensures EffectiveVersion(FileHistory.Step(t, op).files, p) == 0
  {
    StepFiles(t, op, p);
    hide FileHistory.Step, Accepts, Writes;
  }

  lemma StuckThroughOthers(w: World, a: AgentId, p: Path, action: Action)
    requires Stuck(w, a, p) && action.agent != a && !IsCommit(action)
    ensures Stuck(Act(w, action), a, p)
  {
    var b := action.agent;
    assert forall q :: FileHistory.Step(w.tables, Fetch(b, q)).files == w.tables.files;
  }

  lemma StuckStays(t: Tables, w: World, a: AgentId, p: Path, action: Action)
    requires Inv(t, w) && Stuck(w, a, p) && LeavesAlone(w, action, a, p) && ValidFiles(w.tables.files)
    ensures Stuck(Act(w, action), a, p)
  {
    hide Inv, Stuck, Act, LeavesAlone;
    if IsCommit(action) {
      StuckThroughCommit(w, a, p, action);
    } else if action.agent != a {
      StuckThroughOthers(w, a, p, action);
    } else {
      match action
      case BeginFetch(_, _) => StuckThroughFetch(w, a, p, action);
      case FetchOne(_) => StuckThroughFetch(w, a, p, action);
      case EndFetch(_) => StuckThroughReply(t, w, a, p);
      case MarkEdited(_, paths) => StuckThroughMark(w, a, p, paths);
      case LoseAnswer(_) => StuckThroughSilence(w, a, p);
    }
  }

  /**
   * Once stuck, the agent stays stuck, whatever it fetches, marks and retries, until another agent
   * brings the file back: no commit of its own lands.
   */
  lemma {:induction false} StuckForever(t: Tables, w: World, a: AgentId, p: Path, actions: seq<Action>)
    requires Fresh(t) && Inv(t, w) && Stuck(w, a, p) && AllLeaveAlone(w, actions, a, p)
    ensures Stuck(Play(w, actions), a, p)
    ensures forall taskId, workspace :: !CommitLands(Play(w, actions), a, taskId, workspace)
  {
    if actions != [] {
      hide Inv, Stuck, Act, LeavesAlone, CommitLands;
      var before := actions[..|actions| - 1];
      var w1 := Play(w, before);
      StuckForever(t, w, a, p, before);
      PlayKeepsInv(t, w, before);
      InvTables(t, w1);
      RunKeepsFilesValid(t, w1.ops);
      StuckStays(t, w1, a, p, actions[|actions| - 1]);
      assert Play(w, actions) == Act(w1, actions[|actions| - 1]);
    }
    hide Stuck, CommitLands;
    forall taskId, workspace ensures !CommitLands(Play(w, actions), a, taskId, workspace) {
      StuckCannotLand(Play(w, actions), a, p, taskId, workspace);
    }
  }

  // -------------------------------------------------------------------- recovering

  predicate Live(files: Files, p: Path) {
    Lookup(files, p).Found?
  }

  /** The paths fetched one after the other, each by a command of its own. */
  ghost function FetchEach(a: AgentId, paths: seq<Path>): seq<Action> {
    if paths == [] then [] else FetchEach(a, paths[..|paths| - 1]) + FetchRun(a, [paths[|paths| - 1]])
  }

  /** The client has taken in the live ones and knows nothing new of the others. */
  ghost predicate ClientTook(c: Client, c': Client, files: Files, paths: seq<Path>) {
    && (forall q :: q in c'.versions <==> q in c.versions || (q in paths && Live(files, q)))
    && (forall q | q in c'.versions ::
          c'.versions[q] == if q in paths && Live(files, q) then EffectiveVersion(files, q) else c.versions[q])
    && (forall q :: q in c'.edited <==> q in c.edited && !(q in paths && Live(files, q)))
  }

  ghost predicate Refetched(w: World, w': World, a: AgentId, paths: seq<Path>) {
    && w'.tables.files == w.tables.files && Of(w', a).command.Idle?
    && RecordCovers(Recorded(w.tables, a), Recorded(w'.tables, a), w.tables.files, paths)
    && ClientTook(Of(w, a).client, Of(w', a).client, w.tables.files, paths)
  }

  lemma ToldOne(s: Session, f: FetchResult, q: Path)
    requires s.command.Idle?
    ensures var s' := Told(s, [f]);
            var took := f.Found? && q == f.path;
            && s'.command.Idle?
            && (q in s'.client.versions <==> q in s.client.versions || took)
            && (q in s'.client.versions ==> s'.client.versions[q] == if took then f.version else s.client.versions[q])
            && (q in s'.client.edited <==> q in s.client.edited && !took)
  {
    assert f in [f];
    if f.Found? {
      EditedAfterFetch(s.client, [f], q);
      AfterFetchExact(s.client, [f], q);
      assert [f][..0] == [] && Seen([]) == map[];
      assert Seen([f]) == map[f.path := f.version];
    }
  }

  lemma CoversMore(before: ReadSet, r1: ReadSet, r2: ReadSet, files: Files, paths: seq<Path>, p: Path)
    requires RecordCovers(before, r1, files, paths) && RecordCovers(r1, r2, files, [p])
    ensures RecordCovers(before, r2, files, paths + [p])
  {
    assert forall q :: (q in paths + [p] <==> q in paths || q == p) && (q in [p] <==> q == p);
    hide EffectiveVersion;
  }

  lemma TookMore(c: Client, c1: Client, c2: Client, files: Files, paths: seq<Path>, p: Path)
    requires ClientTook(c, c1, files, paths) && ClientTook(c1, c2, files, [p])
    ensures ClientTook(c, c2, files, paths + [p])
  {
    assert forall q :: (q in paths + [p] <==> q in paths || q == p) && (q in [p] <==> q == p);
    hide EffectiveVersion, Live;
  }

  lemma TookOne(s: Session, files: Files, p: Path)
    requires s.command.Idle?
    ensures Told(s, [Lookup(files, p)]).command.Idle?
    ensures ClientTook(s.client, Told(s, [Lookup(files, p)]).client, files, [p])
  {
    var f := Lookup(files, p);
    assert f.Found? ==> f.version == EffectiveVersion(files, p);
    assert f.path == p && (f.Found? <==> Live(files, p));
    assert forall q :: q in [p] <==> q == p;
    ToldOne(s, f, p);
    forall q
      ensures var s', took := Told(s, [f]), f.Found? && q == p;
              && (q in s'.client.versions <==> q in s.client.versions || took)
              && (q in s'.client.versions ==> s'.client.versions[q] == if took then f.version else s.client.versions[q])
              && (q in s'.client.edited <==> q in s.client.edited && !took)
    {
      ToldOne(s, f, q);
    }
    hide Told, Lookup, EffectiveVersion, Live;
  }

  lemma RefetchedMore(w: World, w1: World, w2: World, a: AgentId, paths: seq<Path>, p: Path)
    requires Refetched(w, w1, a, paths) && HasFetched(w1, w2, a, [p])
    ensures Refetched(w, w2, a, paths + [p])
  {
    var files := w.tables.files;
    assert Results(files, [p]) == [Lookup(files, p)];
    assert RecordCovers(Recorded(w1.tables, a), Recorded(w2.tables, a), files, [p]);
    hide Told, EffectiveVersion, Recorded, ClientTook, RecordCovers, Lookup;
    TookOne(Of(w1, a), files, p);
    CoversMore(Recorded(w.tables, a), Recorded(w1.tables, a), Recorded(w2.tables, a), files, paths, p);
    TookMore(Of(w, a).client, Of(w1, a).client, Of(w2, a).client, files, paths, p);
  }

  lemma {:induction false} RefetchEach(w: World, a: AgentId, paths: seq<Path>)
    requires Of(w, a).command.Idle?
    ensures Refetched(w, Play(w, FetchEach(a, paths)), a, paths)
  {
    if paths != [] {
      hide Act, Refetched, HasFetched, FetchRun;
      var n := |paths| - 1;
      var w1 := Play(w, FetchEach(a, paths[..n]));
      RefetchEach(w, a, paths[..n]);
      RefetchedIdle(w, w1, a, paths[..n]);
      FetchRunIs(w1, a, [paths[n]]);
      PlayAppend(w, FetchEach(a, paths[..n]), FetchRun(a, [paths[n]]));
      RefetchedMore(w, w1, Play(w1, FetchRun(a, [paths[n]])), a, paths[..n], paths[n]);
      assert paths[..n] + [paths[n]] == paths;
    }
  }

  lemma RefetchedIdle(w: World, w1: World, a: AgentId, paths: seq<Path>)
    requires Refetched(w, w1, a, paths)
    ensures Of(w1, a).command.Idle?
  {}

  lemma MovedPathsExact(moved: seq<MovedFile>, p: Path)
    ensures p in MovedPaths(moved) <==> exists m | m in moved :: m.path == p
  {
    if m :| m in moved && m.path == p {
      var i :| 0 <= i < |moved| && moved[i] == m;
      assert MovedPaths(moved)[i] == p;
    }
  }

  ghost function BaseOf(c: Client, p: Path): nat {
    if p in c.versions then c.versions[p] else 0
  }

  /** What a refused commit expected and did not report as moved is current. */
  lemma UnmovedRead(w: World, a: AgentId, op: Op, p: Path)
    requires op.Commit? && p !in MovedPaths(Moved(w.tables, a, op.writes, op.refs))
    requires p in Expected(w.tables, a, op.refs)
    ensures Expected(w.tables, a, op.refs)[p] == EffectiveVersion(w.tables.files, p)
  {
    var moved, had := Moved(w.tables, a, op.writes, op.refs), Expected(w.tables, a, op.refs)[p];
    MovedPathsExact(moved, p);
    MovedExact(w.tables, a, op.writes, op.refs, MovedFile(p, had, EffectiveVersion(w.tables.files, p)));
    hide Moved, Expected, EffectiveVersion;
  }

  lemma UnmovedEdit(w: World, a: AgentId, taskId: TaskId, workspace: map<Path, string>, op: Op, p: Path)
    requires CommitOp(Of(w, a).client, a, taskId, workspace) == Some(op)
    requires p !in MovedPaths(Moved(w.tables, a, op.writes, op.refs)) && p in Of(w, a).client.edited
    ensures BaseOf(Of(w, a).client, p) == EffectiveVersion(w.tables.files, p)
  {
    var c, moved := Of(w, a).client, Moved(w.tables, a, op.writes, op.refs);
    CommitOpIs(c, a, taskId, workspace, op);
    MovedPathsExact(moved, p);
    WriteOfEdit(c, workspace, op.writes, p);
    MovedExact(w.tables, a, op.writes, op.refs, MovedFile(p, BaseOf(c, p), EffectiveVersion(w.tables.files, p)));
    hide Moved, CommitOp, EffectiveVersion, BuildWrites;
  }

  lemma UnmovedIsCurrent(w: World, a: AgentId, taskId: TaskId, workspace: map<Path, string>, op: Op, p: Path)
    requires CommitOp(Of(w, a).client, a, taskId, workspace) == Some(op)
    requires p !in MovedPaths(Moved(w.tables, a, op.writes, op.refs))
    ensures p in Recorded(w.tables, a) ==> Recorded(w.tables, a)[p] == EffectiveVersion(w.tables.files, p)
    ensures p in Of(w, a).client.edited ==> BaseOf(Of(w, a).client, p) == EffectiveVersion(w.tables.files, p)
    ensures p in Of(w, a).client.versions && p !in Of(w, a).client.edited && p !in Recorded(w.tables, a) ==>
              Of(w, a).client.versions[p] == EffectiveVersion(w.tables.files, p)
  {
    var c := Of(w, a).client;
    CommitOpIs(c, a, taskId, workspace, op);
    ReadsReported(c, p);
    if p in c.edited { UnmovedEdit(w, a, taskId, workspace, op, p); }
    hide Moved, CommitOp, EffectiveVersion, BuildWrites, ReadRefs, BaseOf, Recorded;
    if p in Expected(w.tables, a, op.refs) { UnmovedRead(w, a, op, p); }
  }

  lemma {:induction false} AllReadable(c: Client, workspace: map<Path, string>, paths: seq<Path>)
    requires forall p | p in paths :: p in workspace || p in c.versions
    ensures BuildWrites(c, workspace, paths).Some?
  {
    if paths != [] {
      assert paths[|paths| - 1] in paths;
      AllReadable(c, workspace, paths[..|paths| - 1]);
    }
  }

  /** Every edit can be written and is based on the version there is. */
  ghost predicate EditsCurrent(c: Client, files: Files, workspace: map<Path, string>) {
    && c.edited != [] && Distinct(c.edited)
    && (forall p | p in c.edited :: p in workspace || p in c.versions)
    && (forall p | p in c.edited :: BaseOf(c, p) == EffectiveVersion(files, p))
  }

  lemma EditsBuild(c: Client, files: Files, workspace: map<Path, string>)
    requires EditsCurrent(c, files, workspace)
    ensures BuildWrites(c, workspace, c.edited).Some?
    ensures var writes := BuildWrites(c, workspace, c.edited).value;
            && writes != [] && WellFormed(writes)
            && forall v | v in writes :: Base(v) == EffectiveVersion(files, v.path)
  {
    AllReadable(c, workspace, c.edited);
    BuildWritesExact(c, workspace, c.edited);
    var writes := BuildWrites(c, workspace, c.edited).value;
    assert PathsOf(writes) == c.edited;
    hide EffectiveVersion, BuildWrites;
    forall v | v in writes
      ensures Base(v) == EffectiveVersion(files, v.path) && !(v.delete && v.basedOn.None?)
    {
      var k :| 0 <= k < |writes| && writes[k] == v;
      assert c.edited[k] in c.edited;
    }
  }

  /** All reads the commit rests on are current: those on record, and those the client reports beside them. */
  ghost predicate RecordCurrent(c: Client, recorded: ReadSet, files: Files) {
    && (forall p | p in recorded :: recorded[p] == EffectiveVersion(files, p))
    && (forall p | p in c.versions && p !in c.edited && p !in recorded :: c.versions[p] == EffectiveVersion(files, p))
  }

  lemma ExpectedCurrent(t: Tables, a: AgentId, c: Client)
    requires RecordCurrent(c, Recorded(t, a), t.files)
    ensures forall p | p in Expected(t, a, ReadRefs(c)) :: Expected(t, a, ReadRefs(c))[p] == EffectiveVersion(t.files, p)
  {
    hide EffectiveVersion, ReadRefs, Recorded;
    forall p | p in Expected(t, a, ReadRefs(c)) ensures Expected(t, a, ReadRefs(c))[p] == EffectiveVersion(t.files, p) {
      ReadsReported(c, p);
    }
  }

  lemma BasesCurrent(c: Client, files: Files, workspace: map<Path, string>, writes: seq<FileWrite>)
    requires BuildWrites(c, workspace, c.edited) == Some(writes)
    requires forall p | p in c.edited :: BaseOf(c, p) == EffectiveVersion(files, p)
    ensures forall v | v in writes :: Base(v) == EffectiveVersion(files, v.path)
  {
    BuildWritesExact(c, workspace, c.edited);
    hide BuildWrites, EffectiveVersion;
    forall v | v in writes ensures Base(v) == EffectiveVersion(files, v.path) {
      var k :| 0 <= k < |writes| && writes[k] == v;
      assert c.edited[k] in c.edited;
    }
  }

  lemma CommitOpIs(c: Client, a: AgentId, taskId: TaskId, workspace: map<Path, string>, op: Op)
    requires CommitOp(c, a, taskId, workspace) == Some(op)
    ensures op == Commit(a, taskId, op.writes, ReadRefs(c)) && BuildWrites(c, workspace, c.edited) == Some(op.writes)
  {}

  /** A well-formed request of current edits, by an agent whose whole record is current, lands. */
  lemma AcceptedOnRecord(w: World, a: AgentId, taskId: TaskId, workspace: map<Path, string>, op: Op)
    requires CommitOp(Of(w, a).client, a, taskId, workspace) == Some(op) && WellFormed(op.writes)
    requires RecordCurrent(Of(w, a).client, Recorded(w.tables, a), w.tables.files)
    requires forall p | p in Of(w, a).client.edited :: BaseOf(Of(w, a).client, p) == EffectiveVersion(w.tables.files, p)
    ensures CommitLands(w, a, taskId, workspace)
  {
    var c := Of(w, a).client;
    CommitOpIs(c, a, taskId, workspace, op);
    hide CommitOp, RecordCurrent, EffectiveVersion, Moved, WellFormed, Expected, ReadRefs, BuildWrites, Recorded;
    ExpectedCurrent(w.tables, a, c);
    BasesCurrent(c, w.tables.files, workspace, op.writes);
    AcceptedIffCurrent(w.tables, a, op.writes, op.refs);
  }

  lemma CurrentCommitLands(w: World, a: AgentId, taskId: TaskId, workspace: map<Path, string>)
    requires EditsCurrent(Of(w, a).client, w.tables.files, workspace)
    requires RecordCurrent(Of(w, a).client, Recorded(w.tables, a), w.tables.files)
    ensures CommitLands(w, a, taskId, workspace)
  {
    var c := Of(w, a).client;
    hide RecordCurrent, WellFormed, BuildWrites, ReadRefs, CommitLands, Recorded, EffectiveVersion, BaseOf;
    EditsBuild(c, w.tables.files, workspace);
    AcceptedOnRecord(w, a, taskId, workspace, CommitOp(c, a, taskId, workspace).value);
  }

  /** The client after it has refetched what moved and marked its edits again. */
  lemma MarkedAgain(w: World, w1: World, a: AgentId, paths: seq<Path>)
    requires Refetched(w, w1, a, paths)
    ensures var w2, edited := Act(w1, MarkEdited(a, Of(w, a).client.edited)), Of(w, a).client.edited;
            && w2.tables == w1.tables && Of(w2, a).command.Idle?
            && Of(w2, a).client.versions == Of(w1, a).client.versions
            && Distinct(Of(w2, a).client.edited)
            && forall p :: p in Of(w2, a).client.edited <==> p in edited
  {
    var before, edited := Of(w1, a).client.edited, Of(w, a).client.edited;
    var all := (set p | p in before) + (set p | p in edited);
    assert all == set p | p in edited;
    hide RecordCovers;
  }

  lemma RecoveredEdits(c: Client, c1: Client, c2: Client, files: Files, paths: seq<Path>, workspace: map<Path, string>)
    requires ValidFiles(files) && ClientTook(c, c1, files, paths) && c.edited != []
    requires c2.versions == c1.versions && Distinct(c2.edited) && forall p :: p in c2.edited <==> p in c.edited
    requires forall p | p in c.edited && p !in paths :: BaseOf(c, p) == EffectiveVersion(files, p)
    requires forall p | p in c.edited :: p in workspace || p in c.versions || Live(files, p)
    requires forall p | p in c.edited && p in c.versions :: Live(files, p)
    ensures EditsCurrent(c2, files, workspace)
  {
    assert c.edited[0] in c2.edited;
    assert forall p :: Live(files, p) <==> EffectiveVersion(files, p) > 0;
    hide Live, EffectiveVersion;
  }

  /** Once the moved paths are on record, what the client reports beside the record did not move. */
  lemma RecoveredRecord(before: ReadSet, after: ReadSet, c: Client, c2: Client, files: Files, paths: seq<Path>)
    requires RecordCovers(before, after, files, paths)
    requires forall p :: p in c2.edited <==> p in c.edited
    requires forall p | p in c2.versions && p !in paths :: p in c.versions && c2.versions[p] == c.versions[p]
    requires forall p | p in before && p !in paths :: before[p] == EffectiveVersion(files, p)
    requires forall p | p in c.versions && p !in c.edited && p !in before && p !in paths ::
               c.versions[p] == EffectiveVersion(files, p)
    ensures RecordCurrent(c2, after, files)
  {
    hide EffectiveVersion;
  }

  lemma TookNothingElse(c: Client, c1: Client, files: Files, paths: seq<Path>)
    requires ClientTook(c, c1, files, paths)
    ensures forall p | p in c1.versions && p !in paths :: p in c.versions && c1.versions[p] == c.versions[p]
  {}

  lemma FilesValid(t: Tables, w: World)
    requires Fresh(t) && Inv(t, w)
    ensures ValidFiles(w.tables.files)
  {
    InvTables(t, w);
    RunKeepsFilesValid(t, w.ops);
  }

  lemma EditsExist(c: Client, a: AgentId, taskId: TaskId, workspace: map<Path, string>)
    requires CommitOp(c, a, taskId, workspace).Some?
    ensures c.edited != []
  {}

  /** If no tracked edit is gone, refetching what moved makes the next commit land. */
  lemma RecoveryLands(t: Tables, w: World, w1: World, a: AgentId, taskId: TaskId, workspace: map<Path, string>,
                      op: Op, taskId': TaskId, workspace': map<Path, string>)
    requires Fresh(t) && Inv(t, w1) && CommitOp(Of(w, a).client, a, taskId, workspace) == Some(op)
    requires Refetched(w, w1, a, MovedPaths(Moved(w.tables, a, op.writes, op.refs)))
    requires var c := Of(w, a).client;
             && (forall p | p in c.edited :: p in workspace' || p in c.versions || Live(w.tables.files, p))
             && (forall p | p in c.edited && p in c.versions :: Live(w.tables.files, p))
    ensures CommitLands(Act(w1, MarkEdited(a, Of(w, a).client.edited)), a, taskId', workspace')
  {
    var c, files := Of(w, a).client, w.tables.files;
    var paths := MovedPaths(Moved(w.tables, a, op.writes, op.refs));
    var w2 := Act(w1, MarkEdited(a, c.edited));
    hide Act, Inv, CommitOp, Moved, MovedPaths, Live, EffectiveVersion, CommitLands, Recorded, RecordCovers, ClientTook;
    MarkedAgain(w, w1, a, paths);
    TookNothingElse(c, Of(w1, a).client, files, paths);
    FilesValid(t, w1);
    EditsExist(c, a, taskId, workspace);
    forall p
      ensures p !in paths && p in Recorded(w.tables, a) ==> Recorded(w.tables, a)[p] == EffectiveVersion(files, p)
      ensures p !in paths && p in c.edited ==> BaseOf(c, p) == EffectiveVersion(files, p)
      ensures p !in paths && p in c.versions && p !in c.edited && p !in Recorded(w.tables, a) ==>
                c.versions[p] == EffectiveVersion(files, p)
    {
      if p !in paths { UnmovedIsCurrent(w, a, taskId, workspace, op, p); }
    }
    hide BaseOf;
    RecoveredEdits(c, Of(w1, a).client, Of(w2, a).client, files, paths, workspace');
    RecoveredRecord(Recorded(w.tables, a), Recorded(w1.tables, a), c, Of(w2, a).client, files, paths);
    CurrentCommitLands(w2, a, taskId', workspace');
  }

  ghost predicate AllBy(actions: seq<Action>, a: AgentId) {
    forall i | 0 <= i < |actions| :: actions[i].agent == a
  }

  lemma {:induction false} OwnActionsLeaveAlone(w: World, actions: seq<Action>, a: AgentId, p: Path)
    requires AllBy(actions, a)
    ensures AllLeaveAlone(w, actions, a, p)
  {
    if actions != [] { OwnActionsLeaveAlone(w, actions[..|actions| - 1], a, p); }
  }

  lemma {:induction false} FetchEachBy(a: AgentId, paths: seq<Path>)
    ensures AllBy(FetchEach(a, paths), a)
  {
    if paths != [] { FetchEachBy(a, paths[..|paths| - 1]); }
  }

  /** No edit the client tracks has been deleted under it. */
  ghost predicate EditsLive(c: Client, files: Files) {
    forall p | p in c.edited && p in c.versions :: Live(files, p)
  }

  /**
   * The client can read this off the answer: its tracked edits are all there if and only if no moved
   * path that it edited and tracks is reported as gone.
   */
  lemma AnswerTellsIff(t: Tables, w: World, a: AgentId, taskId: TaskId, workspace: map<Path, string>, op: Op)
    requires Refused(t, w, a, taskId, workspace, op)
    ensures var c := Of(w, a).client;
            EditsLive(c, w.tables.files)
            <==> forall m | m in Moved(w.tables, a, op.writes, op.refs) && m.now == 0 ::
                   !(m.path in c.edited && m.path in c.versions)
  {
    var c, files, moved := Of(w, a).client, w.tables.files, Moved(w.tables, a, op.writes, op.refs);
    FilesValid(t, w);
    CommitOpIs(c, a, taskId, workspace, op);
    hide Inv, CommitOp, Rejects, Moved, BuildWrites, ReadRefs;
    assert forall p :: Live(files, p) <==> EffectiveVersion(files, p) > 0;
    hide Live, EffectiveVersion;
    forall m | m in moved ensures m.now == EffectiveVersion(files, m.path) { MovedExact(w.tables, a, op.writes, op.refs, m); }
    forall p | p in c.edited && p in c.versions && !Live(files, p) ensures MovedFile(p, c.versions[p], 0) in moved {
      PulledIsLive(t, w, a, p);
      WriteOfEdit(c, workspace, op.writes, p);
      MovedExact(w.tables, a, op.writes, op.refs, MovedFile(p, c.versions[p], 0));
    }
  }

  lemma GoneEditSticks(t: Tables, w: World, a: AgentId) returns (p: Path)
    requires Fresh(t) && Inv(t, w) && Of(w, a).command.Idle?
    requires !EditsLive(Of(w, a).client, w.tables.files)
    ensures Stuck(w, a, p)
  {
    hide Inv;
    p :| p in Of(w, a).client.edited && p in Of(w, a).client.versions && !Live(w.tables.files, p);
    PulledIsLive(t, w, a, p);
  }

  /** An idle agent some of whose tracked edits are gone can do nothing on its own to make a commit land. */
  lemma GoneEditsAreFinal(t: Tables, w: World, a: AgentId, actions: seq<Action>, taskId: TaskId, workspace: map<Path, string>)
    requires Fresh(t) && Inv(t, w) && Of(w, a).command.Idle? && AllBy(actions, a)
    requires !EditsLive(Of(w, a).client, w.tables.files)
    ensures !CommitLands(Play(w, actions), a, taskId, workspace)
  {
    hide Inv, Play, CommitLands, Stuck, EditsLive, AllLeaveAlone;
    var p := GoneEditSticks(t, w, a);
    OwnActionsLeaveAlone(w, actions, a, p);
    StuckForever(t, w, a, p, actions);
  }

  lemma RefusalActs(w: World, a: AgentId, taskId: TaskId, workspace: map<Path, string>, op: Op)
    requires Of(w, a).command.Idle? && CommitOp(Of(w, a).client, a, taskId, workspace) == Some(op)
    requires Rejects(w.tables, op)
    ensures var w0 := Act(w, CommitEdits(a, taskId, workspace));
            && w0.tables.files == w.tables.files && Recorded(w0.tables, a) == Recorded(w.tables, a)
            && w0.sessions == w.sessions
  {
    RejectionChangesNothing(w.tables, op);
    CommitActs(w, CommitEdits(a, taskId, workspace), op);
    assert !Accepts(w.tables, op);
    hide FileHistory.Step, CommitOp, Act, Rejects, Accepts;
  }

  /** The refused commit, and the commands of an agent that follows the answer: refetch what moved, mark the edits again. */
  ghost function Recovery(w: World, a: AgentId, taskId: TaskId, workspace: map<Path, string>, op: Op): seq<Action>
    requires op.Commit?
  {
    [CommitEdits(a, taskId, workspace)]
    + FetchEach(a, MovedPaths(Moved(w.tables, a, op.writes, op.refs)))
    + [MarkEdited(a, Of(w, a).client.edited)]
  }

  lemma RecoveryPlays(w: World, a: AgentId, taskId: TaskId, workspace: map<Path, string>, op: Op)
    requires op.Commit?
    ensures var w0 := Act(w, CommitEdits(a, taskId, workspace));
            var w1 := Play(w0, FetchEach(a, MovedPaths(Moved(w.tables, a, op.writes, op.refs))));
            Play(w, Recovery(w, a, taskId, workspace, op)) == Act(w1, MarkEdited(a, Of(w, a).client.edited))
  {
    var each := FetchEach(a, MovedPaths(Moved(w.tables, a, op.writes, op.refs)));
    var first := CommitEdits(a, taskId, workspace);
    hide Act, FetchEach, Moved, Play;
    PlayOne(w, [], first);
    PlayAppend(w, [first], each);
    PlayOne(w, [first] + each, MarkEdited(a, Of(w, a).client.edited));
  }

  lemma RecoveryBy(w: World, a: AgentId, taskId: TaskId, workspace: map<Path, string>, op: Op)
    requires op.Commit?
    ensures AllBy(Recovery(w, a, taskId, workspace, op), a)
  {
    hide Moved;
    FetchEachBy(a, MovedPaths(Moved(w.tables, a, op.writes, op.refs)));
  }

  /** An idle agent whose commit of its edits has just been refused. */
  ghost predicate Refused(t: Tables, w: World, a: AgentId, taskId: TaskId, workspace: map<Path, string>, op: Op) {
    && Fresh(t) && Inv(t, w) && Of(w, a).command.Idle? && op.Commit?
    && CommitOp(Of(w, a).client, a, taskId, workspace) == Some(op) && Rejects(w.tables, op)
  }

  /** Every edited file the agent can still make out is in its workspace, tracked, or there to be fetched. */
  ghost predicate CanRewrite(c: Client, files: Files, workspace: map<Path, string>) {
    forall p | p in c.edited :: p in workspace || p in c.versions || Live(files, p)
  }

  lemma RefusedRefetched(t: Tables, w: World, a: AgentId, taskId: TaskId, workspace: map<Path, string>, op: Op)
    requires Refused(t, w, a, taskId, workspace, op)
    ensures var paths := MovedPaths(Moved(w.tables, a, op.writes, op.refs));
            var w1 := Play(Act(w, CommitEdits(a, taskId, workspace)), FetchEach(a, paths));
            Refetched(w, w1, a, paths) && Inv(t, w1)
  {
    var commit := CommitEdits(a, taskId, workspace);
    var paths := MovedPaths(Moved(w.tables, a, op.writes, op.refs));
    RefusalActs(w, a, taskId, workspace, op);
    hide Act, Play, Inv, CommitOp, Rejects, Moved, MovedPaths, FetchEach, Recorded, RecordCovers, ClientTook;
    RefetchEach(Act(w, commit), a, paths);
    ActKeepsInv(t, w, commit);
    PlayKeepsInv(t, Act(w, commit), FetchEach(a, paths));
  }

  lemma RecoverySucceeds(t: Tables, w: World, a: AgentId, taskId: TaskId, workspace: map<Path, string>, op: Op,
                         taskId': TaskId, workspace': map<Path, string>)
    requires Refused(t, w, a, taskId, workspace, op) && EditsLive(Of(w, a).client, w.tables.files)
    requires CanRewrite(Of(w, a).client, w.tables.files, workspace')
    ensures CommitLands(Play(w, Recovery(w, a, taskId, workspace, op)), a, taskId', workspace')
  {
    var w0 := Act(w, CommitEdits(a, taskId, workspace));
    var w1 := Play(w0, FetchEach(a, MovedPaths(Moved(w.tables, a, op.writes, op.refs))));
    hide Act, Play, Inv, CommitOp, Rejects, Moved, MovedPaths, FetchEach, Refetched, Recovery, CommitLands, Live;
    RefusedRefetched(t, w, a, taskId, workspace, op);
    RecoveryPlays(w, a, taskId, workspace, op);
    RecoveryLands(t, w, w1, a, taskId, workspace, op, taskId', workspace');
  }

  /**
   * After a STALE answer the agent refetches the moved paths one by one and marks its edits again.
   * Its next commit lands if and only if no file that it edited and tracks has been deleted.
   */
  lemma RecoveryIff(t: Tables, w: World, a: AgentId, taskId: TaskId, workspace: map<Path, string>, op: Op,
                    taskId': TaskId, workspace': map<Path, string>)
    requires Refused(t, w, a, taskId, workspace, op)
    requires CanRewrite(Of(w, a).client, w.tables.files, workspace')
    ensures CommitLands(Play(w, Recovery(w, a, taskId, workspace, op)), a, taskId', workspace')
            <==> EditsLive(Of(w, a).client, w.tables.files)
  {
    hide Play, Inv, CommitOp, Rejects, Recovery, CommitLands, EditsLive, CanRewrite;
    RecoveryBy(w, a, taskId, workspace, op);
    if EditsLive(Of(w, a).client, w.tables.files) {
      RecoverySucceeds(t, w, a, taskId, workspace, op, taskId', workspace');
    } else {
      GoneEditsAreFinal(t, w, a, Recovery(w, a, taskId, workspace, op), taskId', workspace');
    }
  }

  ghost predicate LandsAfter(w: World, a: AgentId, actions: seq<Action>, taskId: TaskId, workspace: map<Path, string>) {
    AllBy(actions, a) && CommitLands(Play(w, actions), a, taskId, workspace)
  }

  /** So a refused agent can commit by its own doing, sooner or later, exactly when no tracked edit of its is gone. */
  lemma RecoverableIff(t: Tables, w: World, a: AgentId, taskId: TaskId, workspace: map<Path, string>, op: Op)
    requires Refused(t, w, a, taskId, workspace, op)
    ensures (exists actions, taskId', workspace' :: LandsAfter(w, a, actions, taskId', workspace'))
            <==> EditsLive(Of(w, a).client, w.tables.files)
  {
    var c := Of(w, a).client;
    var written := map p | p in c.edited :: "";
    assert CanRewrite(c, w.tables.files, written);
    hide Play, Inv, CommitOp, Rejects, Recovery, CommitLands, EditsLive, CanRewrite, AllBy;
    if EditsLive(c, w.tables.files) {
      RecoveryBy(w, a, taskId, workspace, op);
      RecoverySucceeds(t, w, a, taskId, workspace, op, taskId, written);
      assert LandsAfter(w, a, Recovery(w, a, taskId, workspace, op), taskId, written);
    } else {
      forall actions, taskId', workspace' ensures !LandsAfter(w, a, actions, taskId', workspace') {
        if AllBy(actions, a) { GoneEditsAreFinal(t, w, a, actions, taskId', workspace'); }
      }
    }
  }
}
