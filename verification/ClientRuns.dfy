/** Stretches of a client's run, each summed up in one statement: a whole fetch, a mark, a commit. */
module ClientRuns {
  import opened Common
  import opened FileStore
  import opened FileHistory
  import opened Serializability
  import opened AgentCtl

  lemma {:induction false} PlayAppend(w: World, a: seq<Action>, b: seq<Action>)
    ensures Play(w, a + b) == Play(Play(w, a), b)
  {
    if b == [] {
      assert a + b == a;
    } else {
      hide Act;
      var n := |b| - 1;
      PlayAppend(w, a, b[..n]);
      assert (a + b)[..|a + b| - 1] == a + b[..n];
    }
  }

  lemma PlayOne(w: World, actions: seq<Action>, action: Action)
    ensures Play(w, actions + [action]) == Act(Play(w, actions), action)
    ensures Play(w, [action]) == Act(w, action)
  {
    assert (actions + [action])[..|actions|] == actions;
    assert [action][..0] == [] && Play(w, []) == w;
  }

  lemma {:induction false} PlayKeepsInv(t: Tables, w: World, actions: seq<Action>)
    requires Inv(t, w)
    ensures Inv(t, Play(w, actions))
  {
    if actions != [] {
      hide Inv, Act;
      PlayKeepsInv(t, w, actions[..|actions| - 1]);
      ActKeepsInv(t, Play(w, actions[..|actions| - 1]), actions[|actions| - 1]);
    }
  }

  // ----------------------------------------------------------------------- fetch

  /** A fetch of these paths with no step of anybody else in between. */
  ghost function FetchRun(a: AgentId, asked: seq<Path>): seq<Action> {
    [BeginFetch(a, asked)] + seq(|asked|, _ => FetchOne(a)) + [EndFetch(a)]
  }

  function Results(files: Files, asked: seq<Path>): seq<FetchResult> {
    seq(|asked|, i requires 0 <= i < |asked| => Lookup(files, asked[i]))
  }

  /** What the reply to a fetch makes of the client. */
  ghost function Told(s: Session, results: seq<FetchResult>): Session {
    if forall f | f in results :: f.Found? then s.(client := AfterFetch(s.client, results)) else s.(clean := false)
  }

  /** From `w` to `w'` the server has looked up these paths for agent `a` and changed nothing else. */
  ghost predicate HasRecorded(w: World, w': World, a: AgentId, paths: seq<Path>) {
    && w'.tables.files == w.tables.files
    && (forall b | b != a :: Recorded(w'.tables, b) == Recorded(w.tables, b))
    && RecordCovers(Recorded(w.tables, a), Recorded(w'.tables, a), w.tables.files, paths)
  }

  /** From `w` to `w'` agent `a` has fetched these paths and nothing else has happened. */
  ghost predicate HasFetched(w: World, w': World, a: AgentId, asked: seq<Path>) {
    && HasRecorded(w, w', a, asked)
    && w'.sessions == w.sessions[a := Told(Of(w, a), Results(w.tables.files, asked))]
  }

  /** The same, except that no answer has come back for the paths looked up. */
  ghost predicate HasFetchedUnheard(w: World, w': World, a: AgentId, paths: seq<Path>) {
    && HasRecorded(w, w', a, paths)
    && w'.sessions == w.sessions[a := Of(w, a).(clean := false)]
  }

  /** A fetch whose answer is lost when the server has looked up the first `k` paths. */
  ghost function LostRun(a: AgentId, asked: seq<Path>, k: nat): seq<Action> {
    [BeginFetch(a, asked)] + seq(k, _ => FetchOne(a)) + [LoseAnswer(a)]
  }

  lemma Begins(w: World, a: AgentId, asked: seq<Path>)
    requires Of(w, a).command.Idle? && asked != [] && Distinct(asked)
    ensures Act(w, BeginFetch(a, asked)) == w.(sessions := w.sessions[a := Of(w, a).(command := Fetching(asked, []))])
  {}

  lemma FetchesNext(w: World, a: AgentId, asked: seq<Path>, results: seq<FetchResult>)
    requires Of(w, a).command == Fetching(asked, results) && |results| < |asked|
    ensures var p := asked[|results|];
            Act(w, FetchOne(a))
            == World(FileHistory.Step(w.tables, Fetch(a, p)),
                     w.sessions[a := Of(w, a).(command := Fetching(asked, results + [Lookup(w.tables.files, p)]))],
                     w.ops + [Fetch(a, p)])
  {}

  lemma Ends(w: World, a: AgentId, asked: seq<Path>, results: seq<FetchResult>)
    requires Of(w, a).command == Fetching(asked, results) && Answers(asked, results)
    ensures Act(w, EndFetch(a)) == w.(sessions := w.sessions[a := Told(Of(w, a), results).(command := Idle)])
  {
    ReplyExact(asked, results);
  }

  /** The fetch command after its first `k` paths. */
  ghost predicate Asking(w: World, w': World, a: AgentId, asked: seq<Path>, k: nat)
    requires k <= |asked|
  {
    && w'.tables == Exec(w.tables, Refetches(a, asked[..k]))
    && w'.tables.files == w.tables.files
    && w'.sessions == w.sessions[a := Of(w, a).(command := Fetching(asked, Results(w.tables.files, asked[..k])))]
  }

  lemma AsksOneMore(w: World, w': World, a: AgentId, asked: seq<Path>, k: nat)
    requires k < |asked| && Asking(w, w', a, asked, k)
    ensures Asking(w, Act(w', FetchOne(a)), a, asked, k + 1)
  {
    var results, p := Results(w.tables.files, asked[..k]), asked[k];
    hide Act, Lookup, FileHistory.Step;
    FetchesNext(w', a, asked, results);
    assert Results(w.tables.files, asked[..k + 1]) == results + [Lookup(w.tables.files, p)];
    var before := Refetches(a, asked[..k]);
    assert Refetches(a, asked[..k + 1]) == before + [Fetch(a, p)];
    assert (before + [Fetch(a, p)])[..|before|] == before;
    FetchTouchesNoFile(w'.tables, a, p);
  }

  lemma FetchTouchesNoFile(t: Tables, a: AgentId, p: Path)
    ensures FileHistory.Step(t, Fetch(a, p)).files == t.files
  {}

  lemma {:induction false} AsksAll(w: World, a: AgentId, asked: seq<Path>, k: nat)
    requires Of(w, a).command.Idle? && asked != [] && Distinct(asked) && k <= |asked|
    ensures Asking(w, Play(w, [BeginFetch(a, asked)] + seq(k, _ => FetchOne(a))), a, asked, k)
  {
    var begin := [BeginFetch(a, asked)];
    hide Act, Asking;
    if k == 0 {
      PlayOne(w, [], BeginFetch(a, asked));
      assert begin + seq(0, _ => FetchOne(a)) == begin;
      Begins(w, a, asked);
      NothingAsked(w, a, asked);
    } else {
      AsksAll(w, a, asked, k - 1);
      var before := begin + seq(k - 1, _ => FetchOne(a));
      assert begin + seq(k, _ => FetchOne(a)) == before + [FetchOne(a)];
      PlayOne(w, before, FetchOne(a));
      AsksOneMore(w, Play(w, before), a, asked, k - 1);
    }
  }

  lemma NothingAsked(w: World, a: AgentId, asked: seq<Path>)
    ensures Asking(w, w.(sessions := w.sessions[a := Of(w, a).(command := Fetching(asked, []))]), a, asked, 0)
  {
    assert Refetches(a, asked[..0]) == [] && Results(w.tables.files, asked[..0]) == [];
  }

  lemma FetchRunIs(w: World, a: AgentId, asked: seq<Path>)
    requires Of(w, a).command.Idle? && asked != [] && Distinct(asked)
    ensures HasFetched(w, Play(w, FetchRun(a, asked)), a, asked)
  {
    var n := |asked|;
    var before := [BeginFetch(a, asked)] + seq(n, _ => FetchOne(a));
    var w1 := Play(w, before);
    AsksAll(w, a, asked, n);
    assert asked[..n] == asked;
    assert FetchRun(a, asked) == before + [EndFetch(a)];
    PlayOne(w, before, EndFetch(a));
    hide Play, Act;
    FetchEnds(w, w1, a, asked);
  }

  lemma FetchEnds(w: World, w1: World, a: AgentId, asked: seq<Path>)
    requires Of(w, a).command.Idle? && Distinct(asked) && Asking(w, w1, a, asked, |asked|)
    ensures HasFetched(w, Act(w1, EndFetch(a)), a, asked)
  {
    var results := Results(w.tables.files, asked);
    assert asked[..|asked|] == asked;
    assert Answers(asked, results);
    hide Act, Told, Lookup, Answers;
    Ends(w1, a, asked, results);
    AskingRecords(w, w1, a, asked, |asked|);
    ToldStaysIdle(Of(w, a), Of(w1, a), results);
  }

  lemma AskingRecords(w: World, w1: World, a: AgentId, asked: seq<Path>, k: nat)
    requires k <= |asked| && Asking(w, w1, a, asked, k)
    ensures HasRecorded(w, w1, a, asked[..k])
  {
    var paths := asked[..k];
    hide Exec, FileHistory.Step, EffectiveVersion;
    FetchesRecord(w.tables, a, paths);
    forall b | b != a ensures Recorded(w1.tables, b) == Recorded(w.tables, b) {
      OthersUntouched(w.tables, a, paths, b);
    }
  }

  lemma LostRunIs(w: World, a: AgentId, asked: seq<Path>, k: nat)
    requires Of(w, a).command.Idle? && asked != [] && Distinct(asked) && k <= |asked|
    ensures HasFetchedUnheard(w, Play(w, LostRun(a, asked, k)), a, asked[..k])
  {
    var before := [BeginFetch(a, asked)] + seq(k, _ => FetchOne(a));
    hide Act, Asking, HasFetchedUnheard;
    AsksAll(w, a, asked, k);
    PlayOne(w, before, LoseAnswer(a));
    LostEnds(w, Play(w, before), a, asked, k);
  }

  lemma LostEnds(w: World, w1: World, a: AgentId, asked: seq<Path>, k: nat)
    requires Of(w, a).command.Idle? && k <= |asked| && Asking(w, w1, a, asked, k)
    ensures HasFetchedUnheard(w, Act(w1, LoseAnswer(a)), a, asked[..k])
  {
    AskingRecords(w, w1, a, asked, k);
    LosesAnswer(w1, a);
    hide Act, RecordCovers, Recorded, Results, Exec;
  }

  lemma LosesAnswer(w: World, a: AgentId)
    requires Of(w, a).command.Fetching?
    ensures Act(w, LoseAnswer(a)) == w.(sessions := w.sessions[a := Of(w, a).(command := Idle, clean := false)])
  {}

  lemma {:induction false} OthersUntouched(t: Tables, a: AgentId, asked: seq<Path>, b: AgentId)
    requires b != a
    ensures Recorded(Exec(t, Refetches(a, asked)), b) == Recorded(t, b)
  {
    if asked != [] {
      var n := |asked| - 1;
      OthersUntouched(t, a, asked[..n], b);
      assert Refetches(a, asked)[..n] == Refetches(a, asked[..n]);
    }
  }

  lemma ToldStaysIdle(s: Session, s1: Session, results: seq<FetchResult>)
    requires s.command.Idle? && s1 == s.(command := s1.command)
    ensures Told(s1, results).(command := Idle) == Told(s, results)
  {}

  /** A found file's path leaves the edited list; every other path keeps its mark. */
  lemma {:induction false} EditedAfterFetch(c: Client, files: seq<FetchResult>, p: Path)
    requires forall f | f in files :: f.Found?
    ensures p in AfterFetch(c, files).edited <==> p in c.edited && !(exists f | f in files :: f.path == p)
  {
    if files != [] {
      var n := |files| - 1;
      assert files[n] in files;
      EditedAfterFetch(c, files[..n], p);
      WithoutExact(AfterFetch(c, files[..n]).edited, files[n].path, p);
      assert forall f :: f in files <==> f in files[..n] || f == files[n];
    }
  }
}
