/**
 * The agents' command-line client (agent-harness/agentctl.mjs) running against the file store:
 * what it keeps in its state file between commands, and how that relates to the read set the
 * server keeps for the same agent. Each agent runs one command at a time; a fetch command is one
 * store step per path, and other agents' steps fall in between.
 */
module AgentCtl {
  import opened Common
  import opened Ordering
  import opened FileStore
  import opened FileHistory

  // ---------------------------------------------------------------- the client

  /** `versions` and `edited` are the client's state file; `pulled` is what it wrote to its workspace. */
  datatype Client = Client(versions: map<Path, nat>, edited: seq<Path>, pulled: map<Path, FetchResult>)

  const EMPTY_CLIENT := Client(map[], [], map[])

  function Without(paths: seq<Path>, p: Path): seq<Path> {
    if paths == [] then []
    else
      var last := paths[|paths| - 1];
      Without(paths[..|paths| - 1], p) + if last == p then [] else [last]
  }

  /** Taking in the files of a successful fetch, in order. */
  function AfterFetch(c: Client, files: seq<FetchResult>): Client
    requires forall f | f in files :: f.Found?
  {
    if files == [] then c
    else
      var n := |files| - 1;
      assert files[n] in files;
      var before := AfterFetch(c, files[..n]);
      Client(before.versions[files[n].path := files[n].version],
             Without(before.edited, files[n].path),
             before.pulled[files[n].path := files[n]])
  }

  /** The workspace once the files have been written to it, one after the other. */
  function Written(workspace: map<Path, string>, files: seq<FetchResult>): map<Path, string>
    requires forall f | f in files :: f.Found?
  {
    if files == [] then workspace
    else
      var n := |files| - 1;
      assert files[n] in files;
      Written(workspace, files[..n])[files[n].path := files[n].content]
  }

  /** Every fetched path holds the content of the copy the client now goes by; nothing else has changed. */
  lemma {:induction false} WrittenExact(c: Client, workspace: map<Path, string>, files: seq<FetchResult>, p: Path)
    requires forall f | f in files :: f.Found?
    ensures var pulled, after := AfterFetch(c, files).pulled, Written(workspace, files);
            if exists f | f in files :: f.path == p
            then p in after && p in pulled && pulled[p] in files && after[p] == pulled[p].content
            else (p in after <==> p in workspace) && (p in workspace ==> after[p] == workspace[p])
  {
    if files != [] {
      var n := |files| - 1;
      assert files[n] in files;
      WrittenExact(c, workspace, files[..n], p);
      assert forall f :: f in files <==> f in files[..n] || f == files[n];
    }
  }

  ghost function AfterMark(c: Client, paths: seq<Path>): Client {
    c.(edited := SortedElements((set p | p in c.edited) + (set p | p in paths)))
  }

  /** One write per edited path: its workspace content, or a delete when the file is gone from the workspace. */
  function WriteFor(c: Client, workspace: map<Path, string>, p: Path): Option<FileWrite> {
    var basedOn := if p in c.versions then Some(c.versions[p]) else None;
    if p in workspace then Some(FileWrite(p, workspace[p], basedOn, false))
    else if p in c.versions then Some(FileWrite(p, "", basedOn, true))
    else None
  }

  function BuildWrites(c: Client, workspace: map<Path, string>, paths: seq<Path>): Option<seq<FileWrite>> {
    if paths == [] then Some([])
    else
      var n := |paths| - 1;
      match BuildWrites(c, workspace, paths[..n])
      case None => None
      case Some(writes) =>
        match WriteFor(c, workspace, paths[n])
        case None => None
        case Some(w) => Some(writes + [w])
  }

  /** The write the client owes for a path: its workspace text on the tracked version, or a delete when it is gone. */
  ghost predicate WriteIs(w: FileWrite, c: Client, workspace: map<Path, string>, p: Path) {
    && w.path == p
    && w.delete == (p !in workspace)
    && w.content == (if p in workspace then workspace[p] else "")
    && (if p in c.versions then w.basedOn == Some(c.versions[p]) else w.basedOn == None)
  }

  /** One write for each path, in order; no request at all if some path is neither in the workspace nor tracked. */
  lemma {:induction false} BuildWritesExact(c: Client, workspace: map<Path, string>, paths: seq<Path>)
    ensures BuildWrites(c, workspace, paths).None? <==> exists p | p in paths :: p !in workspace && p !in c.versions
    ensures BuildWrites(c, workspace, paths).Some? ==>
              var writes := BuildWrites(c, workspace, paths).value;
              && |writes| == |paths|
              && forall k | 0 <= k < |paths| :: WriteIs(writes[k], c, workspace, paths[k])
  {
    if paths != [] {
      var n := |paths| - 1;
      BuildWritesExact(c, workspace, paths[..n]);
      assert forall p :: p in paths <==> p in paths[..n] || p == paths[n];
    }
  }

  /** The versions of fetched files that are not being written. */
  ghost function ReadRefs(c: Client): seq<FileRef> {
    var paths := SortedElements(c.versions.Keys - (set p | p in c.edited));
    assert forall p | p in paths :: p in c.versions;
    seq(|paths|, i requires 0 <= i < |paths| => FileRef(paths[i], c.versions[paths[i]]))
  }

  /** The reads: every tracked path that is not written, with its tracked version. */
  lemma ReadRefsExact(c: Client)
    ensures forall r :: r in ReadRefs(c) <==> r.path in c.versions && r.path !in c.edited && r.version == c.versions[r.path]
  {
    var refs, paths := ReadRefs(c), SortedElements(c.versions.Keys - set q | q in c.edited);
    forall r | r in refs ensures r.path in c.versions && r.path !in c.edited && r.version == c.versions[r.path] {
      var i :| 0 <= i < |refs| && refs[i] == r;
      assert paths[i] in paths;
    }
    forall r: FileRef | r.path in c.versions && r.path !in c.edited && r.version == c.versions[r.path] ensures r in refs {
      assert r.path in paths;
      var i :| 0 <= i < |paths| && paths[i] == r.path;
      assert refs[i] == r;
    }
  }

  /** The client itself: the state file of one agent and its workspace. */
  class AgentCtl {
    var versions: map<Path, nat>
    var edited: seq<Path>
    var workspace: map<Path, string>
    ghost var pulled: map<Path, FetchResult>

    ghost function Value(): Client
      reads this
    {
      Client(versions, edited, pulled)
    }

    constructor ()
      ensures Value() == EMPTY_CLIENT && workspace == map[]
    {
      versions, edited, workspace, pulled := map[], [], map[], map[];
    }

    /** The tail of a fetch command, once every file has come back. */
    method TakeFiles(files: seq<FetchResult>)
      requires forall f | f in files :: f.Found?
      modifies this
      ensures Value() == AfterFetch(old(Value()), files)
      ensures workspace == Written(old(workspace), files)
    {
      var i := 0;
      while i < |files|
        invariant 0 <= i <= |files|
        invariant forall f | f in files[..i] :: f in files
        invariant Value() == AfterFetch(old(Value()), files[..i])
        invariant workspace == Written(old(workspace), files[..i])
      {
        var file := files[i];
        assert file in files;
        assert files[..i + 1][..i] == files[..i];
        assert forall f :: f in files[..i + 1] <==> f in files[..i] || f == file;
        workspace := workspace[file.path := file.content];
        versions := versions[file.path := file.version];
        edited := Dropping(edited, file.path);
        pulled := pulled[file.path := file];
        i := i + 1;
      }
      assert files[..i] == files;
    }

    method MarkEdited(paths: seq<Path>)
      modifies this`edited
      ensures Value() == AfterMark(old(Value()), paths)
      ensures Sorted(edited) && Distinct(edited) && forall p :: p in edited <==> p in old(edited) || p in paths
    {
      edited := SortedUnion(edited, paths);
    }

    /** The commit request for everything marked; None when a marked file cannot be read. */
    method BuildCommit() returns (request: Option<(seq<FileWrite>, seq<FileRef>)>)
      ensures request == match BuildWrites(Value(), workspace, edited)
                         case None => None
                         case Some(writes) => Some((writes, ReadRefs(Value())))
      ensures request.None? <==> exists p | p in edited :: p !in workspace && p !in versions
      ensures request.Some? ==>
                && |request.value.0| == |edited|
                && (forall k | 0 <= k < |edited| :: WriteIs(request.value.0[k], Value(), workspace, edited[k]))
                && forall r :: r in request.value.1 <==>
                     r.path in versions && r.path !in edited && r.version == versions[r.path]
    {
      BuildWritesExact(Value(), workspace, edited);
      ReadRefsExact(Value());
      hide WriteIs, ReadRefs;
      var writes := [];
      var i := 0;
      while i < |edited|
        invariant 0 <= i <= |edited|
        invariant BuildWrites(Value(), workspace, edited[..i]) == Some(writes)
      {
        assert edited[..i + 1][..i] == edited[..i];
        var p := edited[i];
        if p in workspace {
          writes := writes + [FileWrite(p, workspace[p], if p in versions then Some(versions[p]) else None, false)];
        } else if p in versions {
          writes := writes + [FileWrite(p, "", Some(versions[p]), true)];
        } else {
          UnreadableStays(Value(), workspace, edited, i + 1);
          return None;
        }
        i := i + 1;
      }
      assert edited[..i] == edited;
      var refs := ReadsToReport();
      return Some((writes, refs));
    }

    /** The tracked files that are not written, in path order. */
    method ReadsToReport() returns (refs: seq<FileRef>)
      ensures refs == ReadRefs(Value())
    {
      var written := set p | p in edited;
      var unwritten := map p | p in versions && p !in written :: versions[p];
      var keys := SortedKeys(unwritten);
      assert unwritten.Keys == versions.Keys - (set p | p in Value().edited);
      assert forall p | p in keys :: p in unwritten;
      refs := seq(|keys|, k requires 0 <= k < |keys| => FileRef(keys[k], unwritten[keys[k]]));
    }

    /** An accepted commit wipes the tracking state. */
    method Forget()
      modifies this`versions, this`edited, this`pulled
      ensures Value() == EMPTY_CLIENT
    {
      versions, edited, pulled := map[], [], map[];
    }
  }

  lemma {:induction false} UnreadableStays(c: Client, workspace: map<Path, string>, paths: seq<Path>, n: nat)
    requires n <= |paths| && BuildWrites(c, workspace, paths[..n]).None?
    ensures BuildWrites(c, workspace, paths).None?
  {
    if n < |paths| {
      assert paths[..|paths| - 1][..n] == paths[..n];
      UnreadableStays(c, workspace, paths[..|paths| - 1], n);
    } else {
      assert paths[..n] == paths;
    }
  }

  lemma {:induction false} WithoutExact(paths: seq<Path>, q: Path, p: Path)
    ensures p in Without(paths, q) <==> p in paths && p != q
  {
    if paths != [] {
      var n := |paths| - 1;
      WithoutExact(paths[..n], q, p);
      assert p in paths <==> p in paths[..n] || p == paths[n];
    }
  }
  lemma {:induction false} WithoutOrder(paths: seq<Path>, p: Path)
    ensures Subsequence(Without(paths, p), paths)
  {
    if paths != [] {
      var n := |paths| - 1;
      WithoutOrder(paths[..n], p);
      SubsequenceKeep(Without(paths[..n], p), paths[..n], paths[n]);
      assert Without(paths[..n], p) + [] == Without(paths[..n], p) && paths[..n] + [paths[n]] == paths;
    }
  }

  /** `paths.filter((path) => path !== p)`. */
  method Dropping(paths: seq<Path>, p: Path) returns (kept: seq<Path>)
    ensures kept == Without(paths, p)
    ensures Subsequence(kept, paths) && forall q :: q in kept <==> q in paths && q != p
  {
    WithoutOrder(paths, p);
    forall q ensures q in Without(paths, p) <==> q in paths && q != p { WithoutExact(paths, p, q); }
    hide Subsequence;
    kept := [];
    var i := 0;
    while i < |paths|
      invariant 0 <= i <= |paths|
      invariant kept == Without(paths[..i], p)
    {
      assert paths[..i + 1][..i] == paths[..i];
      if paths[i] != p { kept := kept + [paths[i]]; }
      i := i + 1;
    }
    assert paths[..i] == paths;
  }

  /** `[...new Set([...a, ...b])].sort()`. */
  method SortedUnion(a: seq<Path>, b: seq<Path>) returns (r: seq<Path>)
    ensures r == SortedElements((set p | p in a) + (set p | p in b))
  {
    var all := a + b;
    var unique: seq<Path> := [];
    var i := 0;
    while i < |all|
      invariant 0 <= i <= |all|
      invariant Distinct(unique)
      invariant forall p :: p in unique <==> p in all[..i]
    {
      assert forall p :: p in all[..i + 1] <==> p in all[..i] || p == all[i];
      if all[i] !in unique { unique := unique + [all[i]]; }
      i := i + 1;
    }
    assert all[..i] == all;
    assert forall p :: p in all <==> p in a || p in b;
    SortListing(unique, (set p | p in a) + (set p | p in b));
    r := Sort(unique);
  }

  // ---------------------------------------------------------------- the router

  datatype FetchReply = Files(files: seq<FetchResult>) | Missing(paths: seq<Path>)

  function FoundIn(results: seq<FetchResult>): seq<FetchResult> {
    if results == [] then []
    else
      var last := results[|results| - 1];
      FoundIn(results[..|results| - 1]) + if last.Found? then [last] else []
  }

  function NotReturned(asked: seq<Path>, returned: set<Path>): seq<Path> {
    if asked == [] then []
    else
      var last := asked[|asked| - 1];
      NotReturned(asked[..|asked| - 1], returned) + if last in returned then [] else [last]
  }

  /** All or nothing: one missing path turns the whole reply into NOT_FOUND. */
  function Reply(asked: seq<Path>, results: seq<FetchResult>): FetchReply {
    var found := FoundIn(results);
    var missing := NotReturned(asked, set f | f in found :: f.path);
    if missing != [] then Missing(missing) else Files(found)
  }

  /** Each result answers the path asked for in its place. */
  predicate Answers(asked: seq<Path>, results: seq<FetchResult>) {
    && |results| == |asked|
    && Distinct(asked)
    && forall k | 0 <= k < |asked| :: results[k].path == asked[k]
  }

  lemma {:induction false} FoundInExact(results: seq<FetchResult>, f: FetchResult)
    ensures f in FoundIn(results) <==> f in results && f.Found?
  {
    if results != [] {
      var n := |results| - 1;
      FoundInExact(results[..n], f);
      assert f in results <==> f in results[..n] || f == results[n];
    }
  }

  lemma {:induction false} NotReturnedExact(asked: seq<Path>, returned: set<Path>, p: Path)
    ensures p in NotReturned(asked, returned) <==> p in asked && p !in returned
  {
    if asked != [] {
      var n := |asked| - 1;
      NotReturnedExact(asked[..n], returned, p);
      assert p in asked <==> p in asked[..n] || p == asked[n];
    }
  }

  lemma {:induction false} NotReturnedOrder(asked: seq<Path>, returned: set<Path>)
    ensures Subsequence(NotReturned(asked, returned), asked)
  {
    if asked != [] {
      var n := |asked| - 1;
      NotReturnedOrder(asked[..n], returned);
      SubsequenceKeep(NotReturned(asked[..n], returned), asked[..n], asked[n]);
      assert NotReturned(asked[..n], returned) + [] == NotReturned(asked[..n], returned) && asked[..n] + [asked[n]] == asked;
    }
  }

  lemma {:induction false} AllFoundIsEverything(results: seq<FetchResult>)
    requires forall k | 0 <= k < |results| :: results[k].Found?
    ensures FoundIn(results) == results
  {
    if results != [] {
      AllFoundIsEverything(results[..|results| - 1]);
    }
  }

  lemma FoundInFound(results: seq<FetchResult>)
    ensures forall f | f in FoundIn(results) :: f.Found?
  {
    forall f | f in FoundIn(results) ensures f.Found? { FoundInExact(results, f); }
  }

  lemma NotReturnedIff(asked: seq<Path>, results: seq<FetchResult>, p: Path)
    requires Answers(asked, results)
    ensures p in NotReturned(asked, set f | f in FoundIn(results) :: f.path) <==> NotFound(p) in results
  {
    var returned := set f | f in FoundIn(results) :: f.path;
    NotReturnedExact(asked, returned, p);
    hide NotReturned, FoundIn;
    if p in asked {
      var k :| 0 <= k < |asked| && asked[k] == p;
      FoundInExact(results, results[k]);
      if p in returned {
        var f :| f in FoundIn(results) && f.path == p;
        FoundInExact(results, f);
        var m :| 0 <= m < |results| && results[m] == f;
        assert asked[m] == asked[k];
        assert m == k;
      }
      if NotFound(p) in results {
        var m :| 0 <= m < |results| && results[m] == NotFound(p);
        assert asked[m] == asked[k];
      }
    }
  }

  /** NOT_FOUND names exactly the absent paths; otherwise every file comes back, in the order asked. */
  lemma ReplyExact(asked: seq<Path>, results: seq<FetchResult>)
    requires Answers(asked, results)
    ensures Reply(asked, results).Files? <==> forall f | f in results :: f.Found?
    ensures Reply(asked, results).Files? ==> Reply(asked, results).files == results
    ensures Reply(asked, results).Missing? ==>
              forall p :: p in Reply(asked, results).paths <==> NotFound(p) in results
    ensures Reply(asked, results).Missing? ==> Subsequence(Reply(asked, results).paths, asked)
  {
    var returned := set f | f in FoundIn(results) :: f.path;
    NotReturnedOrder(asked, returned);
    forall p ensures p in NotReturned(asked, returned) <==> NotFound(p) in results {
      NotReturnedIff(asked, results, p);
    }
    hide Subsequence, NotReturned;
    if NotReturned(asked, returned) == [] {
      forall f | f in results ensures f.Found? {
        assert f.NotFound? ==> f == NotFound(f.path);
      }
      AllFoundIsEverything(results);
    } else {
      var p := NotReturned(asked, returned)[0];
      assert NotFound(p) in results;
    }
  }

  // ------------------------------------------------------------ clients and store

  /** A command in progress: `results` answers the first paths of `asked`. */
  datatype Command = Idle | Fetching(asked: seq<Path>, results: seq<FetchResult>)

  /**
   * `clean` remembers whether, since the last commit the client knows to be accepted, every fetch was
   * answered with all its paths and no accepted commit went unanswered.
   */
  datatype Session = Session(client: Client, command: Command, clean: bool)

  const NEW_SESSION := Session(EMPTY_CLIENT, Idle, true)

  /** `ops` is the run of the store so far. */
  datatype World = World(tables: Tables, sessions: map<AgentId, Session>, ops: seq<Op>)

  function Of(w: World, a: AgentId): Session {
    if a in w.sessions then w.sessions[a] else NEW_SESSION
  }

  datatype Action =
    | BeginFetch(agent: AgentId, paths: seq<Path>)
    | FetchOne(agent: AgentId)
    | EndFetch(agent: AgentId)
    | MarkEdited(agent: AgentId, paths: seq<Path>)
    | CommitEdits(agent: AgentId, taskId: TaskId, workspace: map<Path, string>)
    | LoseAnswer(agent: AgentId)                                                     // a fetch ends without an answer
    | CommitUnanswered(agent: AgentId, taskId: TaskId, workspace: map<Path, string>) // a commit does

  predicate IsCommit(action: Action) {
    action.CommitEdits? || action.CommitUnanswered?
  }

  ghost function CommitOp(c: Client, agent: AgentId, taskId: TaskId, workspace: map<Path, string>): Option<Op> {
    match BuildWrites(c, workspace, c.edited)
    case None => None
    case Some(writes) => if writes == [] then None else Some(Commit(agent, taskId, writes, ReadRefs(c)))
  }

  /** One action; an action that is not possible now changes nothing. */
  ghost function Act(w: World, action: Action): World {
    var a := action.agent;
    var s := Of(w, a);
    match action
    case BeginFetch(_, paths) =>
      if s.command.Idle? && paths != [] && Distinct(paths)
      then w.(sessions := w.sessions[a := s.(command := Fetching(paths, []))]) else w
    case FetchOne(_) =>
      if s.command.Fetching? && |s.command.results| < |s.command.asked| then
        var p := s.command.asked[|s.command.results|];
        var (tables, result) := FetchStep(w.tables, a, p);
        World(tables, w.sessions[a := s.(command := s.command.(results := s.command.results + [result]))],
              w.ops + [Fetch(a, p)])
      else w
    case EndFetch(_) =>
      if s.command.Fetching? && |s.command.results| == |s.command.asked| then
        FoundInFound(s.command.results);
        match Reply(s.command.asked, s.command.results)
        case Missing(_) => w.(sessions := w.sessions[a := s.(command := Idle, clean := false)])
        case Files(files) =>
          w.(sessions := w.sessions[a := s.(command := Idle, client := AfterFetch(s.client, files))])
      else w
    case MarkEdited(_, paths) =>
      if s.command.Idle? then w.(sessions := w.sessions[a := s.(client := AfterMark(s.client, paths))]) else w
    case CommitEdits(_, taskId, workspace) =>
      var op := CommitOp(s.client, a, taskId, workspace);
      if s.command.Idle? && op.Some? then
        World(Step(w.tables, op.value),
              if Accepts(w.tables, op.value) then w.sessions[a := NEW_SESSION] else w.sessions,
              w.ops + [op.value])
      else w
    case LoseAnswer(_) =>
      if s.command.Fetching? then w.(sessions := w.sessions[a := s.(command := Idle, clean := false)]) else w
    case CommitUnanswered(_, taskId, workspace) =>
      var op := CommitOp(s.client, a, taskId, workspace);
      if s.command.Idle? && op.Some? then
        World(Step(w.tables, op.value),
              if Accepts(w.tables, op.value) then w.sessions[a := s.(clean := false)] else w.sessions,
              w.ops + [op.value])
      else w
  }

  ghost function Play(w: World, actions: seq<Action>): World {
    if actions == [] then w else Act(Play(w, actions[..|actions| - 1]), actions[|actions| - 1])
  }

  function Opening(t: Tables): World {
    World(t, map[], [])
  }

  // ------------------------------------------------------------------ invariants

  /** The versions recorded by the fetches of a command so far. */
  function Seen(results: seq<FetchResult>): map<Path, nat> {
    if results == [] then map[]
    else
      var last := results[|results| - 1];
      Seen(results[..|results| - 1])[last.path := if last.Found? then last.version else ABSENT]
  }

  function PartOf(c: Command): seq<FetchResult> {
    if c.Idle? then [] else c.results
  }

  /** The result was returned by the store at some moment of the run. */
  ghost predicate WasThere(t: Tables, ops: seq<Op>, f: FetchResult) {
    exists i: nat :: i <= |ops| && Lookup(At(t, ops, i).files, f.path) == f
  }

  /** The server's record is the client's versions, brought up to date by what the current fetch has seen. */
  ghost predicate Agrees(recorded: ReadSet, versions: map<Path, nat>, seen: map<Path, nat>) {
    forall p ::
      && (p in recorded <==> p in versions || p in seen)
      && (p in recorded ==> recorded[p] == if p in seen then seen[p] else versions[p])
  }

  /** Everything pulled was really in the store at some moment, under the version the client holds. */
  ghost predicate PulledOk(t: Tables, ops: seq<Op>, c: Client) {
    && (forall p :: p in c.pulled <==> p in c.versions)
    && (forall p | p in c.pulled ::
          && c.pulled[p].Found? && c.pulled[p].path == p && c.pulled[p].version == c.versions[p]
          && WasThere(t, ops, c.pulled[p]))
  }

  ghost predicate CommandOk(t: Tables, ops: seq<Op>, c: Command) {
    c.Fetching? ==>
      && Distinct(c.asked) && |c.results| <= |c.asked|
      && (forall k | 0 <= k < |c.results| :: c.results[k].path == c.asked[k] && WasThere(t, ops, c.results[k]))
  }

  /** How the client's versions and the fetch in progress relate to the server's record. */
  ghost predicate RecordOk(recorded: ReadSet, versions: map<Path, nat>, seen: map<Path, nat>, clean: bool) {
    && (forall p | p in seen :: p in recorded && recorded[p] == seen[p])
    && (clean ==> Agrees(recorded, versions, seen))
  }

  /** What holds of every agent at every moment. */
  ghost predicate SessionOk(t: Tables, ops: seq<Op>, recorded: ReadSet, s: Session) {
    && PulledOk(t, ops, s.client)
    && CommandOk(t, ops, s.command)
    && RecordOk(recorded, s.client.versions, Seen(PartOf(s.command)), s.clean)
  }

  ghost predicate Inv(t: Tables, w: World) {
    && w.tables == Exec(t, w.ops)
    && forall a :: SessionOk(t, w.ops, Recorded(w.tables, a), Of(w, a))
  }

  lemma OpeningInv(t: Tables)
    requires Fresh(t)
    ensures Inv(t, Opening(t))
  {}

  lemma WasThereLater(t: Tables, ops: seq<Op>, op: Op, f: FetchResult)
    requires WasThere(t, ops, f)
    ensures WasThere(t, ops + [op], f)
  {
    var i: nat :| i <= |ops| && Lookup(At(t, ops, i).files, f.path) == f;
    assert (ops + [op])[..i] == ops[..i];
    assert Lookup(At(t, ops + [op], i).files, f.path) == f;
  }

  lemma WasThereNow(t: Tables, ops: seq<Op>, op: Op, p: Path)
    ensures WasThere(t, ops + [op], Lookup(Exec(t, ops).files, p))
  {
    assert (ops + [op])[..|ops|] == ops;
    assert Lookup(At(t, ops + [op], |ops|).files, p) == Lookup(Exec(t, ops).files, p);
  }

  /** A session is untouched by a longer run in which its read set stays the same. */
  lemma SessionStays(t: Tables, ops: seq<Op>, op: Op, recorded: ReadSet, s: Session)
    requires SessionOk(t, ops, recorded, s)
    ensures SessionOk(t, ops + [op], recorded, s)
  {
    hide WasThere, Seen, RecordOk;
    forall f | WasThere(t, ops, f) ensures WasThere(t, ops + [op], f) { WasThereLater(t, ops, op, f); }
  }

  /** A store step of one agent leaves every other agent's read set alone. */
  lemma OthersKeepReads(t: Tables, op: Op, b: AgentId)
    requires b != op.agent
    ensures Recorded(Step(t, op), b) == Recorded(t, b)
  {}

  lemma StoreStep(t: Tables, w: World, op: Op, s: Session, tables: Tables)
    requires Inv(t, w) && tables == Step(w.tables, op)
    requires SessionOk(t, w.ops + [op], Recorded(tables, op.agent), s)
    ensures Inv(t, World(tables, w.sessions[op.agent := s], w.ops + [op]))
  {
    hide SessionOk, Step;
    var w' := World(tables, w.sessions[op.agent := s], w.ops + [op]);
    assert (w.ops + [op])[..|w.ops|] == w.ops;
    forall a ensures SessionOk(t, w'.ops, Recorded(w'.tables, a), Of(w', a)) {
      if a != op.agent {
        OthersKeepReads(w.tables, op, a);
        SessionStays(t, w.ops, op, Recorded(w.tables, a), Of(w, a));
      }
    }
  }

  lemma InvOf(t: Tables, w: World, a: AgentId)
    requires Inv(t, w)
    ensures SessionOk(t, w.ops, Recorded(w.tables, a), Of(w, a))
  {}

  /** A step that only replaces one agent's session by a sound one. */
  lemma SessionReplaced(t: Tables, w: World, a: AgentId, s: Session)
    requires Inv(t, w) && SessionOk(t, w.ops, Recorded(w.tables, a), s)
    ensures Inv(t, w.(sessions := w.sessions[a := s]))
  {
    hide SessionOk;
  }

  lemma FetchOneKeeps(t: Tables, w: World, a: AgentId)
    requires Inv(t, w)
    ensures Inv(t, Act(w, FetchOne(a)))
  {
    var s := Of(w, a);
    if s.command.Fetching? && |s.command.results| < |s.command.asked| {
      var c := s.command;
      var p := c.asked[|c.results|];
      var op := Fetch(a, p);
      var result := Lookup(w.tables.files, p);
      var s' := s.(command := c.(results := c.results + [result]));
      var before, after := Recorded(w.tables, a), Recorded(Step(w.tables, op), a);
      assert after == before[p := EffectiveVersion(w.tables.files, p)];
      SeenMore(c.results, result);
      SessionStays(t, w.ops, op, before, s);
      WasThereNow(t, w.ops, op, p);
      SessionFetched(t, w.ops + [op], before, after, s, result);
      StoreStep(t, w, op, s', Step(w.tables, op));
    }
  }

  lemma SeenMore(results: seq<FetchResult>, result: FetchResult)
    ensures Seen(results + [result])
            == Seen(results)[result.path := if result.Found? then result.version else ABSENT]
  {
    assert (results + [result])[..|results|] == results;
  }

  lemma SessionFetched(t: Tables, ops: seq<Op>, before: ReadSet, after: ReadSet, s: Session, result: FetchResult)
    requires SessionOk(t, ops, before, s)
    requires s.command.Fetching? && |s.command.results| < |s.command.asked|
    requires result.path == s.command.asked[|s.command.results|]
    requires WasThere(t, ops, result)
    requires after == before[result.path := if result.Found? then result.version else ABSENT]
    ensures SessionOk(t, ops, after, s.(command := s.command.(results := s.command.results + [result])))
  {
    hide WasThere, PulledOk, Seen;
    SeenMore(s.command.results, result);
    var seen := Seen(s.command.results);
    var v := if result.Found? then result.version else ABSENT;
    RecordGrows(before, s.client.versions, seen, s.clean, result.path, v);
    hide RecordOk;
  }

  lemma RecordGrows(recorded: ReadSet, versions: map<Path, nat>, seen: map<Path, nat>, clean: bool, p: Path, v: nat)
    requires RecordOk(recorded, versions, seen, clean)
    ensures RecordOk(recorded[p := v], versions, seen[p := v], clean)
  {}

  lemma {:induction false} AfterFetchExact(c: Client, files: seq<FetchResult>, p: Path)
    requires forall f | f in files :: f.Found?
    ensures var after := AfterFetch(c, files);
            && (p in after.versions <==> p in c.versions || p in Seen(files))
            && (p in Seen(files) ==> after.versions[p] == Seen(files)[p])
            && (p in c.versions && p !in Seen(files) ==> after.versions[p] == c.versions[p])
            && (p in after.pulled <==> p in c.pulled || p in Seen(files))
            && (p in Seen(files) ==>
                  after.pulled[p] in files && after.pulled[p].path == p && after.pulled[p].version == Seen(files)[p])
            && (p in c.pulled && p !in Seen(files) ==> after.pulled[p] == c.pulled[p])
  {
    if files != [] {
      var n := |files| - 1;
      assert files[n] in files;
      assert forall f | f in files[..n] :: f in files;
      AfterFetchExact(c, files[..n], p);
    }
  }

  lemma SessionGivesUp(t: Tables, ops: seq<Op>, recorded: ReadSet, s: Session)
    requires SessionOk(t, ops, recorded, s)
    ensures SessionOk(t, ops, recorded, s.(command := Idle, clean := false))
  {
    assert Seen([]) == map[];
    hide WasThere, Seen, PulledOk;
  }

  lemma SessionTakesFiles(t: Tables, ops: seq<Op>, recorded: ReadSet, s: Session)
    requires SessionOk(t, ops, recorded, s)
    requires s.command.Fetching? && forall f | f in s.command.results :: f.Found?
    ensures SessionOk(t, ops, recorded, s.(command := Idle, client := AfterFetch(s.client, s.command.results)))
  {
    assert Seen([]) == map[];
    PulledAfter(t, ops, s.client, s.command.results);
    RecordAfter(recorded, s.client, s.command.results, s.clean);
    hide WasThere, Seen, AfterFetch, PulledOk, RecordOk;
  }

  lemma PulledAfter(t: Tables, ops: seq<Op>, c: Client, files: seq<FetchResult>)
    requires PulledOk(t, ops, c)
    requires forall f | f in files :: f.Found? && WasThere(t, ops, f)
    ensures PulledOk(t, ops, AfterFetch(c, files))
  {
    hide WasThere, Seen, AfterFetch;
    var after := AfterFetch(c, files);
    forall p
      ensures p in after.pulled <==> p in after.versions
      ensures p in after.pulled ==>
                && after.pulled[p].Found? && after.pulled[p].path == p && after.pulled[p].version == after.versions[p]
                && WasThere(t, ops, after.pulled[p])
    {
      AfterFetchExact(c, files, p);
    }
  }

  lemma RecordAfter(recorded: ReadSet, c: Client, files: seq<FetchResult>, clean: bool)
    requires forall f | f in files :: f.Found?
    requires RecordOk(recorded, c.versions, Seen(files), clean)
    ensures RecordOk(recorded, AfterFetch(c, files).versions, map[], clean)
  {
    hide Seen, AfterFetch;
    forall p
      ensures p in AfterFetch(c, files).versions <==> p in c.versions || p in Seen(files)
      ensures p in AfterFetch(c, files).versions ==>
                AfterFetch(c, files).versions[p] == if p in Seen(files) then Seen(files)[p] else c.versions[p]
    {
      AfterFetchExact(c, files, p);
    }
  }

  lemma EndFetchKeeps(t: Tables, w: World, a: AgentId)
    requires Inv(t, w)
    ensures Inv(t, Act(w, EndFetch(a)))
  {
    var s := Of(w, a);
    if s.command.Fetching? && |s.command.results| == |s.command.asked| {
      ReplyExact(s.command.asked, s.command.results);
      FoundInFound(s.command.results);
      hide Inv, SessionOk;
      assert SessionOk(t, w.ops, Recorded(w.tables, a), s) by { InvOf(t, w, a); }
      SessionGivesUp(t, w.ops, Recorded(w.tables, a), s);
      if forall f | f in s.command.results :: f.Found? {
        SessionTakesFiles(t, w.ops, Recorded(w.tables, a), s);
      }
      SessionReplaced(t, w, a, Of(Act(w, EndFetch(a)), a));
    }
  }

  lemma CommitReads(t: Tables, op: Op)
    requires op.Commit?
    ensures Recorded(Step(t, op), op.agent) == if Accepts(t, op) then map[] else Recorded(t, op.agent)
  {}

  /** An accepted commit nobody hears of clears the record and leaves the client as it was. */
  lemma SessionForgotten(t: Tables, ops: seq<Op>, recorded: ReadSet, s: Session)
    requires SessionOk(t, ops, recorded, s) && s.command.Idle?
    ensures SessionOk(t, ops, map[], s.(clean := false))
  {
    assert Seen([]) == map[];
    hide WasThere, Seen, PulledOk, CommandOk;
  }

  lemma CommitActs(w: World, action: Action, op: Op)
    requires IsCommit(action) && Of(w, action.agent).command.Idle?
    requires CommitOp(Of(w, action.agent).client, action.agent, action.taskId, action.workspace) == Some(op)
    ensures var s := if action.CommitEdits? then NEW_SESSION else Of(w, action.agent).(clean := false);
            Act(w, action)
            == World(Step(w.tables, op),
                     if Accepts(w.tables, op) then w.sessions[action.agent := s] else w.sessions,
                     w.ops + [op])
  {}

  lemma CommitKeeps(t: Tables, w: World, action: Action)
    requires Inv(t, w) && IsCommit(action)
    ensures Inv(t, Act(w, action))
  {
    var s := Of(w, action.agent);
    var op := CommitOp(s.client, action.agent, action.taskId, action.workspace);
    if s.command.Idle? && op.Some? {
      CommitActs(w, action, op.value);
      assert op.value.Commit? && op.value.agent == action.agent;
      hide Act, CommitOp, Accepts, Inv, Step;
      if Accepts(w.tables, op.value) { AcceptedKeeps(t, w, op.value, action.CommitEdits?); } else { RefusedKeeps(t, w, op.value); }
    }
  }

  lemma AcceptedKeeps(t: Tables, w: World, op: Op, answered: bool)
    requires Inv(t, w) && op.Commit? && Accepts(w.tables, op) && Of(w, op.agent).command.Idle?
    ensures var s := if answered then NEW_SESSION else Of(w, op.agent).(clean := false);
            Inv(t, World(Step(w.tables, op), w.sessions[op.agent := s], w.ops + [op]))
  {
    var s := Of(w, op.agent);
    hide Step, Accepts, SessionOk;
    CommitReads(w.tables, op);
    InvOf(t, w, op.agent);
    SessionStays(t, w.ops, op, Recorded(w.tables, op.agent), s);
    NewSessionOk(t, w.ops + [op]);
    SessionForgotten(t, w.ops + [op], Recorded(w.tables, op.agent), s);
    hide Inv, Recorded;
    StoreStep(t, w, op, if answered then NEW_SESSION else s.(clean := false), Step(w.tables, op));
  }

  lemma RefusedKeeps(t: Tables, w: World, op: Op)
    requires Inv(t, w) && op.Commit? && !Accepts(w.tables, op)
    ensures Inv(t, World(Step(w.tables, op), w.sessions, w.ops + [op]))
  {
    var s := Of(w, op.agent);
    hide Step, Accepts, SessionOk;
    CommitReads(w.tables, op);
    InvOf(t, w, op.agent);
    SessionStays(t, w.ops, op, Recorded(w.tables, op.agent), s);
    hide Inv, Recorded;
    StoreStep(t, w, op, s, Step(w.tables, op));
    SameSessions(t, World(Step(w.tables, op), w.sessions[op.agent := s], w.ops + [op]),
                 World(Step(w.tables, op), w.sessions, w.ops + [op]), op.agent);
  }

  /** Writing down the session of an agent that has none of its own yet changes nothing. */
  lemma SameSessions(t: Tables, w: World, w': World, a: AgentId)
    requires Inv(t, w) && w'.tables == w.tables && w'.ops == w.ops && forall b :: Of(w', b) == Of(w, b)
    ensures Inv(t, w')
  {
    hide SessionOk;
  }

  lemma NewSessionOk(t: Tables, ops: seq<Op>)
    ensures SessionOk(t, ops, map[], NEW_SESSION)
  {}

  lemma SessionBegins(t: Tables, ops: seq<Op>, recorded: ReadSet, s: Session, paths: seq<Path>)
    requires SessionOk(t, ops, recorded, s) && s.command.Idle? && Distinct(paths)
    ensures SessionOk(t, ops, recorded, s.(command := Fetching(paths, [])))
  {
    assert Seen([]) == map[];
    hide Seen, WasThere, PulledOk, RecordOk;
  }

  lemma BeginKeeps(t: Tables, w: World, action: Action)
    requires Inv(t, w) && action.BeginFetch?
    ensures Inv(t, Act(w, action))
  {
    var s := Of(w, action.agent);
    InvOf(t, w, action.agent);
    hide Inv, SessionOk;
    if s.command.Idle? && action.paths != [] && Distinct(action.paths) {
      SessionBegins(t, w.ops, Recorded(w.tables, action.agent), s, action.paths);
      SessionReplaced(t, w, action.agent, s.(command := Fetching(action.paths, [])));
    }
  }

  lemma SessionMarks(t: Tables, ops: seq<Op>, recorded: ReadSet, s: Session, paths: seq<Path>)
    requires SessionOk(t, ops, recorded, s)
    ensures SessionOk(t, ops, recorded, s.(client := AfterMark(s.client, paths)))
  {
    hide WasThere, Seen, RecordOk, CommandOk, SortedElements;
  }

  lemma MarkKeeps(t: Tables, w: World, action: Action)
    requires Inv(t, w) && action.MarkEdited?
    ensures Inv(t, Act(w, action))
  {
    var s := Of(w, action.agent);
    InvOf(t, w, action.agent);
    hide Inv, SessionOk, AfterMark;
    if s.command.Idle? {
      SessionMarks(t, w.ops, Recorded(w.tables, action.agent), s, action.paths);
      SessionReplaced(t, w, action.agent, s.(client := AfterMark(s.client, action.paths)));
    }
  }

  lemma LoseKeeps(t: Tables, w: World, a: AgentId)
    requires Inv(t, w)
    ensures Inv(t, Act(w, LoseAnswer(a)))
  {
    var s := Of(w, a);
    InvOf(t, w, a);
    hide Inv, SessionOk;
    if s.command.Fetching? {
      SessionGivesUp(t, w.ops, Recorded(w.tables, a), s);
      SessionReplaced(t, w, a, s.(command := Idle, clean := false));
    }
  }

  lemma ActKeepsInv(t: Tables, w: World, action: Action)
    requires Inv(t, w)
    ensures Inv(t, Act(w, action))
  {
    hide Inv, Act;
    match action
    case BeginFetch(_, _) => BeginKeeps(t, w, action);
    case FetchOne(a) => FetchOneKeeps(t, w, a);
    case EndFetch(a) => EndFetchKeeps(t, w, a);
    case MarkEdited(_, _) => MarkKeeps(t, w, action);
    case CommitEdits(_, _, _) => CommitKeeps(t, w, action);
    case LoseAnswer(a) => LoseKeeps(t, w, a);
    case CommitUnanswered(_, _, _) => CommitKeeps(t, w, action);
  }

  lemma {:induction false} InvAlways(t: Tables, actions: seq<Action>)
    requires Fresh(t)
    ensures Inv(t, Play(Opening(t), actions))
  {
    if actions == [] {
      OpeningInv(t);
    } else {
      InvAlways(t, actions[..|actions| - 1]);
      ActKeepsInv(t, Play(Opening(t), actions[..|actions| - 1]), actions[|actions| - 1]);
    }
  }

  // -------------------------------------------------------------- what it buys

  /**
   * Agreement: in every run, an agent between commands has exactly the versions the server recorded
   * for it, if since the last commit it knows to be accepted all its fetches were answered with every
   * path and it missed no answer to an accepted commit.
   */
  lemma ClientAgreesWithServer(t: Tables, actions: seq<Action>, a: AgentId)
    requires Fresh(t)
    ensures var w := Play(Opening(t), actions);
            Of(w, a).clean && Of(w, a).command.Idle? ==> Of(w, a).client.versions == Recorded(w.tables, a)
  {
    InvAlways(t, actions);
    var w := Play(Opening(t), actions);
    if Of(w, a).clean && Of(w, a).command.Idle? {
      IdleCleanAgrees(t, w, a);
    }
  }

  lemma {:induction false} SeenAt(results: seq<FetchResult>, k: nat)
    requires k < |results|
    requires forall i, j | 0 <= i < j < |results| :: results[i].path != results[j].path
    ensures results[k].path in Seen(results)
    ensures Seen(results)[results[k].path] == if results[k].Found? then results[k].version else ABSENT
  {
    var n := |results| - 1;
    if k < n {
      SeenAt(results[..n], k);
      assert results[k].path != results[n].path;
    }
  }

  lemma MissingBreaksAgreement(t: Tables, w: World, a: AgentId)
    requires Fresh(t) && Inv(t, w)
    requires Of(w, a).command.Fetching?
    requires exists f | f in Of(w, a).command.results :: f.NotFound?
    ensures Of(w, a).client.versions != Recorded(w.tables, a)
  {
    var s := Of(w, a);
    var c := s.command;
    assert SessionOk(t, w.ops, Recorded(w.tables, a), s);
    var k :| 0 <= k < |c.results| && c.results[k].NotFound?;
    SeenAt(c.results, k);
    var p := c.asked[k];
    assert Recorded(w.tables, a)[p] == ABSENT;
    if p in s.client.versions {
      PulledIsLive(t, w, a, p);
    }
  }

  lemma AgreesFully(recorded: ReadSet, versions: map<Path, nat>)
    requires Agrees(recorded, versions, map[])
    ensures versions == recorded
  {}

  lemma IdleCleanAgrees(t: Tables, w: World, a: AgentId)
    requires Inv(t, w) && Of(w, a).clean && Of(w, a).command.Idle?
    ensures Of(w, a).client.versions == Recorded(w.tables, a)
  {
    InvOf(t, w, a);
    assert Seen([]) == map[];
    hide Inv, PulledOk, CommandOk, Seen, Recorded, Agrees;
    AgreesFully(Recorded(w.tables, a), Of(w, a).client.versions);
  }

  /**
   * Agreement survives an answered fetch if and only if the reply was not NOT_FOUND: the server
   * records every path it looked at, the client none of them unless all were there.
   */
  lemma FetchKeepsAgreementIff(t: Tables, actions: seq<Action>, a: AgentId)
    requires Fresh(t)
    requires var s := Of(Play(Opening(t), actions), a);
             s.clean && s.command.Fetching? && |s.command.results| == |s.command.asked|
    ensures var w := Play(Opening(t), actions);
            var after := Act(w, EndFetch(a));
            Of(after, a).client.versions == Recorded(after.tables, a)
            <==> Reply(Of(w, a).command.asked, Of(w, a).command.results).Files?
  {
    var w := Play(Opening(t), actions);
    InvAlways(t, actions);
    ActKeepsInv(t, w, EndFetch(a));
    var c := Of(w, a).command;
    assert Answers(c.asked, c.results) by {
      assert SessionOk(t, w.ops, Recorded(w.tables, a), Of(w, a));
    }
    ReplyExact(c.asked, c.results);
    hide Inv, SessionOk, Play, Answers;
    if Reply(c.asked, c.results).Files? {
      IdleCleanAgrees(t, Act(w, EndFetch(a)), a);
    } else {
      MissingBreaksAgreement(t, w, a);
    }
  }

  /** A fetch that ends without an answer keeps agreement exactly when what it saw was no news to the client. */
  lemma LostAnswerKeepsAgreementIff(t: Tables, actions: seq<Action>, a: AgentId)
    requires Fresh(t)
    requires var s := Of(Play(Opening(t), actions), a); s.clean && s.command.Fetching?
    ensures var w := Play(Opening(t), actions);
            var after := Act(w, LoseAnswer(a));
            var versions, seen := Of(w, a).client.versions, Seen(Of(w, a).command.results);
            Of(after, a).client.versions == Recorded(after.tables, a)
            <==> forall p | p in seen :: p in versions && versions[p] == seen[p]
  {
    var w := Play(Opening(t), actions);
    InvAlways(t, actions);
    InvOf(t, w, a);
    hide Inv, Play, PulledOk, CommandOk, Seen, WasThere;
    var after := Act(w, LoseAnswer(a));
    assert Of(after, a).client == Of(w, a).client && after.tables == w.tables;
    hide Act, Recorded;
    NoNewsIff(Recorded(w.tables, a), Of(w, a).client.versions, Seen(Of(w, a).command.results));
  }

  lemma NoNewsIff(recorded: ReadSet, versions: map<Path, nat>, seen: map<Path, nat>)
    requires Agrees(recorded, versions, seen)
    ensures versions == recorded <==> forall p | p in seen :: p in versions && versions[p] == seen[p]
  {
    assert (forall p | p in seen :: p in versions && versions[p] == seen[p]) ==> versions == recorded;
  }

  /** A commit without an answer keeps agreement exactly when it was refused or the client tracked nothing. */
  lemma UnansweredCommitKeepsAgreementIff(t: Tables, actions: seq<Action>, a: AgentId, taskId: TaskId,
                                          workspace: map<Path, string>)
    requires Fresh(t)
    requires var s := Of(Play(Opening(t), actions), a); s.clean && s.command.Idle?
    ensures var w := Play(Opening(t), actions);
            var after := Act(w, CommitUnanswered(a, taskId, workspace));
            Of(after, a).client.versions == Recorded(after.tables, a)
            <==> !CommitLands(w, a, taskId, workspace) || Of(w, a).client.versions == map[]
  {
    var w := Play(Opening(t), actions);
    ClientAgreesWithServer(t, actions, a);
    var op := CommitOp(Of(w, a).client, a, taskId, workspace);
    if op.Some? {
      CommitReads(w.tables, op.value);
      CommitActs(w, CommitUnanswered(a, taskId, workspace), op.value);
      hide Play, Step, Accepts, CommitOp, Recorded, Act;
    } else {
      hide Play, Step, Accepts, CommitOp, Recorded;
    }
  }

  lemma PulledIsLive(t: Tables, w: World, a: AgentId, p: Path)
    requires Fresh(t) && Inv(t, w)
    requires p in Of(w, a).client.versions
    ensures Of(w, a).client.versions[p] > 0
  {
    InvOf(t, w, a);
    hide Inv, RecordOk, CommandOk, WasThere;
    var f := Of(w, a).client.pulled[p];
    assert WasThere(t, w.ops, f);
    ThereMeansLive(t, w.ops, f);
  }

  lemma ThereMeansLive(t: Tables, ops: seq<Op>, f: FetchResult)
    requires Fresh(t) && WasThere(t, ops, f) && f.Found?
    ensures f.version > 0
  {
    var i: nat :| i <= |ops| && Lookup(At(t, ops, i).files, f.path) == f;
    RunKeepsFilesValid(t, ops[..i]);
    hide Exec;
  }

  /** What was pulled is what a fetch would return now, if and only if its version is still current. */
  lemma PulledMatches(t: Tables, w: World, a: AgentId, p: Path)
    requires Fresh(t) && Inv(t, w)
    requires p in Of(w, a).client.versions
    ensures Lookup(w.tables.files, p) == Of(w, a).client.pulled[p]
            <==> EffectiveVersion(w.tables.files, p) == Of(w, a).client.versions[p]
  {
    PulledIsLive(t, w, a, p);
    InvOf(t, w, a);
    InvTables(t, w);
    hide Inv, RecordOk, CommandOk, WasThere, Lookup, EffectiveVersion;
    CopyMatches(t, w.ops, Of(w, a).client.pulled[p]);
  }

  lemma CopyMatches(t: Tables, ops: seq<Op>, f: FetchResult)
    requires Fresh(t) && WasThere(t, ops, f) && f.Found? && f.version > 0
    ensures Lookup(Exec(t, ops).files, f.path) == f <==> EffectiveVersion(Exec(t, ops).files, f.path) == f.version
  {
    var i: nat :| i <= |ops| && Lookup(At(t, ops, i).files, f.path) == f;
    AtEnd(t, ops);
    hide Exec;
    if EffectiveVersion(Exec(t, ops).files, f.path) == f.version { VersionNamesContent(t, ops, i, |ops|, f.path); }
  }

  /** In every run, what a client holds is current if and only if its version is the effective one. */
  lemma PulledIsCurrentIff(t: Tables, actions: seq<Action>, a: AgentId, p: Path)
    requires Fresh(t)
    ensures var w := Play(Opening(t), actions);
            var c := Of(w, a).client;
            p in c.versions ==>
              && p in c.pulled
              && (Lookup(w.tables.files, p) == c.pulled[p]
                  <==> EffectiveVersion(w.tables.files, p) == c.versions[p])
  {
    InvAlways(t, actions);
    hide Play, Inv, Lookup, EffectiveVersion;
    var w := Play(Opening(t), actions);
    if p in Of(w, a).client.versions {
      PulledIsLive(t, w, a, p);
      PulledMatches(t, w, a, p);
    }
  }

  /** The agent's commit as sent now is accepted. */
  ghost predicate CommitLands(w: World, a: AgentId, taskId: TaskId, workspace: map<Path, string>) {
    var op := CommitOp(Of(w, a).client, a, taskId, workspace);
    op.Some? && Accepts(w.tables, op.value)
  }

  lemma LandedReads(w: World, a: AgentId, taskId: TaskId, workspace: map<Path, string>, p: Path)
    requires CommitLands(w, a, taskId, workspace)
    requires p in Expected(w.tables, a, ReadRefs(Of(w, a).client))
    ensures Expected(w.tables, a, ReadRefs(Of(w, a).client))[p] == EffectiveVersion(w.tables.files, p)
  {
    var op := CommitOp(Of(w, a).client, a, taskId, workspace).value;
    AcceptedIffCurrent(w.tables, a, op.writes, op.refs);
    hide Moved, EffectiveVersion, CommitOp, Expected, ReadRefs;
  }

  /** The client reports exactly the versions of what it tracks and does not write. */
  lemma ReadsReported(c: Client, p: Path)
    ensures p in Reported(ReadRefs(c)) <==> p in c.versions && p !in c.edited
    ensures p in Reported(ReadRefs(c)) ==> Reported(ReadRefs(c))[p] == c.versions[p]
  {
    ReportedExact(ReadRefs(c), p);
    ReadRefsExact(c);
    hide ReadRefs;
    if p in c.versions && p !in c.edited { assert FileRef(p, c.versions[p]) in ReadRefs(c); }
  }

  lemma LandedBases(w: World, a: AgentId, taskId: TaskId, workspace: map<Path, string>, p: Path)
    requires CommitLands(w, a, taskId, workspace) && p in Of(w, a).client.edited
    ensures var c := Of(w, a).client;
            EffectiveVersion(w.tables.files, p) == if p in c.versions then c.versions[p] else 0
  {
    var c := Of(w, a).client;
    var op := CommitOp(c, a, taskId, workspace).value;
    assert BuildWrites(c, workspace, c.edited) == Some(op.writes) && Accepts(w.tables, op);
    hide CommitLands, CommitOp, Accepts, BuildWrites, EffectiveVersion;
    WriteOfEdit(c, workspace, op.writes, p);
    var v :| v in op.writes && v.path == p && Base(v) == if p in c.versions then c.versions[p] else 0;
    AcceptedBase(w.tables, op, v);
  }

  lemma WriteOfEdit(c: Client, workspace: map<Path, string>, writes: seq<FileWrite>, p: Path)
    requires BuildWrites(c, workspace, c.edited) == Some(writes) && p in c.edited
    ensures exists v | v in writes :: v.path == p && Base(v) == if p in c.versions then c.versions[p] else 0
  {
    BuildWritesExact(c, workspace, c.edited);
    hide BuildWrites;
    var k :| 0 <= k < |c.edited| && c.edited[k] == p;
    assert writes[k] in writes;
  }

  /** Everything the client pulled since its last accepted commit is still what a fetch would return. */
  ghost predicate AllPulledCurrent(w: World, a: AgentId) {
    forall p | p in Of(w, a).client.pulled :: Lookup(w.tables.files, p) == Of(w, a).client.pulled[p]
  }

  /** No version the client reports for what it read is overridden by a different one on the server's record. */
  ghost predicate NothingOverridden(w: World, a: AgentId) {
    var c := Of(w, a).client;
    forall p | p in c.versions && p !in c.edited && p in Recorded(w.tables, a) :: Recorded(w.tables, a)[p] == c.versions[p]
  }

  lemma InvTables(t: Tables, w: World)
    requires Inv(t, w)
    ensures w.tables == Exec(t, w.ops)
  {}

  lemma AbsentIsNotFound(files: Files, p: Path)
    requires ValidFiles(files) && EffectiveVersion(files, p) == 0
    ensures Lookup(files, p) == NotFound(p)
  {}

  /** What a landed commit says about one file the client holds. */
  lemma LandedCopyIff(t: Tables, w: World, a: AgentId, taskId: TaskId, workspace: map<Path, string>, p: Path)
    requires Fresh(t) && Inv(t, w) && CommitLands(w, a, taskId, workspace) && p in Of(w, a).client.versions
    ensures var c := Of(w, a).client;
            && p in c.pulled
            && (Lookup(w.tables.files, p) == c.pulled[p]
                <==> p in c.edited || (p in Recorded(w.tables, a) ==> Recorded(w.tables, a)[p] == c.versions[p]))
  {
    var c := Of(w, a).client;
    PulledMatches(t, w, a, p);
    InvOf(t, w, a);
    hide Inv, CommitLands, Lookup, EffectiveVersion, CommandOk, RecordOk, WasThere, ReadRefs, Recorded;
    if p in c.edited {
      LandedBases(w, a, taskId, workspace, p);
    } else {
      ReadsReported(c, p);
      LandedReads(w, a, taskId, workspace, p);
    }
  }

  /**
   * End to end: when a commit lands, every written path the client never fetched was absent, and
   * everything the client holds is current if and only if the server's record overrides none of the
   * versions it reports for what it read. After answered commands alone, each fetch among them with
   * all its paths, nothing is overridden.
   */
  lemma LandedCommitIsCurrentIff(t: Tables, actions: seq<Action>, a: AgentId, taskId: TaskId, workspace: map<Path, string>)
    requires Fresh(t)
    ensures var w := Play(Opening(t), actions);
            var c := Of(w, a).client;
            Of(w, a).command.Idle? && CommitLands(w, a, taskId, workspace) ==>
              && (forall p | p in c.edited && p !in c.versions :: Lookup(w.tables.files, p) == NotFound(p))
              && (AllPulledCurrent(w, a) <==> NothingOverridden(w, a))
              && (Of(w, a).clean ==> NothingOverridden(w, a))
  {
    var w := Play(Opening(t), actions);
    var s := Of(w, a);
    InvAlways(t, actions);
    ClientAgreesWithServer(t, actions, a);
    if s.command.Idle? && CommitLands(w, a, taskId, workspace) {
      InvOf(t, w, a);
      InvTables(t, w);
      RunKeepsFilesValid(t, w.ops);
      hide CommitLands, Play, Inv, WasThere, Lookup, Recorded, RecordOk, CommandOk;
      forall p | p in s.client.edited && p !in s.client.versions
        ensures Lookup(w.tables.files, p) == NotFound(p)
      {
        LandedBases(w, a, taskId, workspace, p);
        AbsentIsNotFound(w.tables.files, p);
      }
      forall p | p in s.client.versions
        ensures p in s.client.pulled
        ensures Lookup(w.tables.files, p) == s.client.pulled[p] <==>
                p in s.client.edited || (p in Recorded(w.tables, a) ==> Recorded(w.tables, a)[p] == s.client.versions[p])
      {
        LandedCopyIff(t, w, a, taskId, workspace, p);
      }
      assert forall p | p in s.client.pulled :: p in s.client.versions;
    }
  }
}
