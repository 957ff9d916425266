/**
 * The versioned file table with optimistic concurrency control (storage/file-store.ts).
 *
 * The functions say what one atomic `fetch` or `commit` does to the coordination tables of the
 * database; class FileStore carries out the same operations step by step, and its methods are
 * proved to land exactly where the functions say.
 */
module FileStore {
  import opened Common
  import opened Ordering
  import opened Paths

  const ABSENT: nat := 0

  datatype StoredFile =
    StoredFile(path: Path, version: nat, content: string, updatedBy: AgentId, deleted: bool)

  datatype FileRef = FileRef(path: Path, version: nat)
  datatype FileWrite = FileWrite(path: Path, content: string, basedOn: Option<nat>, delete: bool)
  datatype MovedFile = MovedFile(path: Path, had: nat, now: nat)

  datatype EventType = CommitOk | CommitRejected
  datatype StoredEvent = StoredEvent(seqNo: nat, kind: EventType, agent: AgentId, taskId: TaskId)

  type Files = map<Path, StoredFile>
  type ReadSet = map<Path, nat>

  /** The part of the database the file store works on. */
  datatype Tables =
    Tables(files: Files, readSets: map<AgentId, ReadSet>, events: seq<StoredEvent>, eventSeq: nat)

  datatype FetchResult = Found(path: Path, version: nat, content: string) | NotFound(path: Path)
  datatype CommitResult = Committed(versions: map<Path, nat>) | Stale(moved: seq<MovedFile>)

  // ---------------------------------------------------------------- versions

  function RawVersion(files: Files, path: Path): nat {
    if path in files then files[path].version else ABSENT
  }

  /** A tombstone counts as absent. */
  function EffectiveVersion(files: Files, path: Path): nat {
    if path !in files || files[path].deleted then ABSENT else files[path].version
  }

  // ------------------------------------------------------------------- fetch

  function Lookup(files: Files, path: Path): FetchResult {
    if path !in files || files[path].deleted then NotFound(path)
    else Found(path, files[path].version, files[path].content)
  }

  function Recorded(t: Tables, agent: AgentId): ReadSet {
    if agent in t.readSets then t.readSets[agent] else map[]
  }

  function FetchStep(t: Tables, agent: AgentId, path: Path): (Tables, FetchResult) {
    var seen := Recorded(t, agent)[path := EffectiveVersion(t.files, path)];
    (t.(readSets := t.readSets[agent := seen]), Lookup(t.files, path))
  }

  // ------------------------------------------------------------------ commit

  function Base(w: FileWrite): nat {
    match w.basedOn case None => ABSENT case Some(v) => v
  }

  function PathsOf(writes: seq<FileWrite>): seq<Path> {
    seq(|writes|, i requires 0 <= i < |writes| => writes[i].path)
  }

  /** What `commit` demands of its writes before it touches the store. */
  predicate WellFormed(writes: seq<FileWrite>) {
    && Distinct(PathsOf(writes))
    && forall w | w in writes :: !(w.delete && w.basedOn.None?)
  }

  function Reported(refs: seq<FileRef>): ReadSet {
    if refs == [] then map[]
    else
      var last := refs[|refs| - 1];
      Reported(refs[..|refs| - 1])[last.path := last.version]
  }

  /** Reads the agent reports, overridden by the reads the server recorded for it. */
  function Expected(t: Tables, agent: AgentId, refs: seq<FileRef>): ReadSet {
    Reported(refs) + Recorded(t, agent)
  }

  function MovedAt(files: Files, path: Path, had: nat): seq<MovedFile> {
    var current := EffectiveVersion(files, path);
    if had != current then [MovedFile(path, had, current)] else []
  }

  function MovedReads(files: Files, expected: ReadSet, paths: seq<Path>): seq<MovedFile>
    requires forall p | p in paths :: p in expected
  {
    if paths == [] then []
    else
      var p := paths[|paths| - 1];
      assert p in paths;
      MovedReads(files, expected, paths[..|paths| - 1]) + MovedAt(files, p, expected[p])
  }

  function MovedWrites(files: Files, writes: seq<FileWrite>): seq<MovedFile> {
    if writes == [] then []
    else
      var w := writes[|writes| - 1];
      MovedWrites(files, writes[..|writes| - 1]) + MovedAt(files, w.path, Base(w))
  }

  ghost function Moved(t: Tables, agent: AgentId, writes: seq<FileWrite>, refs: seq<FileRef>): seq<MovedFile> {
    var expected := Expected(t, agent, refs);
    MovedReads(t.files, expected, SortedElements(expected.Keys)) + MovedWrites(t.files, writes)
  }

  function NextFile(files: Files, agent: AgentId, w: FileWrite): StoredFile {
    StoredFile(w.path, RawVersion(files, w.path) + 1, if w.delete then "" else w.content, agent, w.delete)
  }

  function Apply(files: Files, agent: AgentId, writes: seq<FileWrite>): Files {
    if writes == [] then files
    else
      var w := writes[|writes| - 1];
      var before := Apply(files, agent, writes[..|writes| - 1]);
      before[w.path := NextFile(before, agent, w)]
  }

  function AppendEvent(t: Tables, kind: EventType, agent: AgentId, taskId: TaskId): Tables {
    t.(eventSeq := t.eventSeq + 1,
       events := t.events + [StoredEvent(t.eventSeq + 1, kind, agent, taskId)])
  }

  /** The new version of every written path. */
  function NewVersions(files: Files, writes: seq<FileWrite>): map<Path, nat> {
    map p | p in PathsOf(writes) :: RawVersion(files, p) + 1
  }

  ghost function CommitStep(t: Tables, agent: AgentId, taskId: TaskId,
                            writes: seq<FileWrite>, refs: seq<FileRef>): (Tables, CommitResult)
    requires WellFormed(writes)
  {
    var moved := Moved(t, agent, writes, refs);
    if moved != [] then (AppendEvent(t, CommitRejected, agent, taskId), Stale(moved))
    else
      var landed := t.(files := Apply(t.files, agent, writes), readSets := t.readSets - {agent});
      (AppendEvent(landed, CommitOk, agent, taskId), Committed(NewVersions(t.files, writes)))
  }

  // ------------------------------------------------- what the pieces amount to

  /** The last report of the path. */
  ghost predicate LastReport(refs: seq<FileRef>, p: Path, k: nat) {
    k < |refs| && refs[k].path == p && forall j | k < j < |refs| :: refs[j].path != p
  }

  lemma {:induction false} ReportedExact(refs: seq<FileRef>, p: Path)
    ensures p in Reported(refs) <==> exists r | r in refs :: r.path == p
    ensures p in Reported(refs) ==> FileRef(p, Reported(refs)[p]) in refs
  {
    if refs != [] {
      var n := |refs| - 1;
      ReportedExact(refs[..n], p);
      assert forall r :: r in refs <==> r in refs[..n] || r == refs[n];
    }
  }

  /** Of several reports of one path the last one counts. */
  lemma {:induction false} LastReportCounts(refs: seq<FileRef>, p: Path, k: nat)
    requires LastReport(refs, p, k)
    ensures p in Reported(refs) && Reported(refs)[p] == refs[k].version
  {
    var n := |refs| - 1;
    if k < n {
      assert refs[n].path != p && LastReport(refs[..n], p, k);
      LastReportCounts(refs[..n], p, k);
    }
  }

  /** A path is expected at the version on the server's record, and otherwise at the one last reported. */
  lemma ExpectedExact(t: Tables, agent: AgentId, refs: seq<FileRef>, p: Path)
    ensures var expected := Expected(t, agent, refs);
            && (agent in t.readSets && p in t.readSets[agent] ==> p in expected && expected[p] == t.readSets[agent][p])
            && (!(agent in t.readSets && p in t.readSets[agent]) ==>
                  && (p in expected <==> exists r | r in refs :: r.path == p)
                  && forall k: nat | LastReport(refs, p, k) :: expected[p] == refs[k].version)
  {
    ReportedExact(refs, p);
    forall k: nat | LastReport(refs, p, k) ensures p in Reported(refs) && Reported(refs)[p] == refs[k].version {
      LastReportCounts(refs, p, k);
    }
    hide LastReport, Reported;
  }

  lemma {:induction false} MovedReadsExact(files: Files, expected: ReadSet, paths: seq<Path>, m: MovedFile)
    requires forall p | p in paths :: p in expected
    ensures m in MovedReads(files, expected, paths) <==>
            && m.path in paths && m.had == expected[m.path]
            && m.now == EffectiveVersion(files, m.path) && m.had != m.now
  {
    if paths != [] {
      var p := paths[|paths| - 1];
      assert p in paths;
      MovedReadsExact(files, expected, paths[..|paths| - 1], m);
      assert forall q :: q in paths <==> q in paths[..|paths| - 1] || q == p;
    }
  }

  lemma {:induction false} MovedWritesExact(files: Files, writes: seq<FileWrite>, m: MovedFile)
    ensures m in MovedWrites(files, writes) <==>
            && m.now == EffectiveVersion(files, m.path) && m.had != m.now
            && exists w | w in writes :: w.path == m.path && Base(w) == m.had
  {
    if writes != [] {
      var w := writes[|writes| - 1];
      MovedWritesExact(files, writes[..|writes| - 1], m);
      assert forall v :: v in writes <==> v in writes[..|writes| - 1] || v == w;
    }
  }

  /**
   * `moved` lists exactly the expected reads and the write bases that no longer match the table,
   * each with the version the agent had and the version there is now.
   */
  lemma MovedExact(t: Tables, agent: AgentId, writes: seq<FileWrite>, refs: seq<FileRef>, m: MovedFile)
    ensures m in Moved(t, agent, writes, refs) <==>
            && m.now == EffectiveVersion(t.files, m.path) && m.had != m.now
            && (|| (m.path in Expected(t, agent, refs) && Expected(t, agent, refs)[m.path] == m.had)
                || exists w | w in writes :: w.path == m.path && Base(w) == m.had)
  {
    var expected := Expected(t, agent, refs);
    MovedReadsExact(t.files, expected, SortedElements(expected.Keys), m);
    MovedWritesExact(t.files, writes, m);
  }

  /** Every version the commit relies on still stands. */
  ghost predicate Current(t: Tables, agent: AgentId, writes: seq<FileWrite>, refs: seq<FileRef>) {
    && (forall p | p in Expected(t, agent, refs) :: Expected(t, agent, refs)[p] == EffectiveVersion(t.files, p))
    && (forall w | w in writes :: Base(w) == EffectiveVersion(t.files, w.path))
  }

  /** A commit is accepted if and only if everything it relies on is current. */
  lemma AcceptedIffCurrent(t: Tables, agent: AgentId, writes: seq<FileWrite>, refs: seq<FileRef>)
    ensures Moved(t, agent, writes, refs) == [] <==> Current(t, agent, writes, refs)
  {
    var moved := Moved(t, agent, writes, refs);
    if moved != [] {
      MovedExact(t, agent, writes, refs, moved[0]);
    } else if !Current(t, agent, writes, refs) {
      var expected := Expected(t, agent, refs);
      if p :| p in expected && expected[p] != EffectiveVersion(t.files, p) {
        MovedExact(t, agent, writes, refs, MovedFile(p, expected[p], EffectiveVersion(t.files, p)));
      } else {
        var w :| w in writes && Base(w) != EffectiveVersion(t.files, w.path);
        MovedExact(t, agent, writes, refs, MovedFile(w.path, Base(w), EffectiveVersion(t.files, w.path)));
      }
    }
  }

  function MovedPaths(moved: seq<MovedFile>): seq<Path> {
    seq(|moved|, i requires 0 <= i < |moved| => moved[i].path)
  }

  lemma {:induction false} MovedReadsOrder(files: Files, expected: ReadSet, paths: seq<Path>)
    requires forall p | p in paths :: p in expected
    ensures Subsequence(MovedPaths(MovedReads(files, expected, paths)), paths)
  {
    if paths != [] {
      var n := |paths| - 1;
      assert paths[n] in paths;
      var before := MovedReads(files, expected, paths[..n]);
      MovedReadsOrder(files, expected, paths[..n]);
      OneMoreMoved(before, MovedAt(files, paths[n], expected[paths[n]]), paths[..n], paths[n]);
      assert paths[..n] + [paths[n]] == paths;
    }
  }

  lemma {:induction false} MovedWritesOrder(files: Files, writes: seq<FileWrite>)
    ensures Subsequence(MovedPaths(MovedWrites(files, writes)), PathsOf(writes))
  {
    if writes != [] {
      var n := |writes| - 1;
      MovedWritesOrder(files, writes[..n]);
      OneMoreMoved(MovedWrites(files, writes[..n]), MovedAt(files, writes[n].path, Base(writes[n])),
                   PathsOf(writes[..n]), writes[n].path);
      assert PathsOf(writes[..n]) + [writes[n].path] == PathsOf(writes);
    }
  }

  lemma OneMoreMoved(before: seq<MovedFile>, more: seq<MovedFile>, paths: seq<Path>, p: Path)
    requires Subsequence(MovedPaths(before), paths) && |more| <= 1 && forall m | m in more :: m.path == p
    ensures Subsequence(MovedPaths(before + more), paths + [p])
  {
    SubsequenceKeep(MovedPaths(before), paths, p);
    if more == [] {
      assert before + more == before;
    } else {
      assert more[0] in more;
      assert MovedPaths(before + more) == MovedPaths(before) + [p];
    }
  }

  lemma MovedPathsConcat(first: seq<MovedFile>, later: seq<MovedFile>)
    ensures MovedPaths(first + later) == MovedPaths(first) + MovedPaths(later)
  {}

  /** `moved` names the expected reads first, in path order, then the writes, in the order of the request. */
  lemma MovedOrder(t: Tables, agent: AgentId, writes: seq<FileWrite>, refs: seq<FileRef>)
    ensures Subsequence(MovedPaths(Moved(t, agent, writes, refs)),
                        SortedElements(Expected(t, agent, refs).Keys) + PathsOf(writes))
  {
    var expected := Expected(t, agent, refs);
    var paths := SortedElements(expected.Keys);
    var first, later := MovedReads(t.files, expected, paths), MovedWrites(t.files, writes);
    MovedReadsOrder(t.files, expected, paths);
    MovedWritesOrder(t.files, writes);
    assert Moved(t, agent, writes, refs) == first + later;
    hide MovedReads, MovedWrites, Moved, MovedPaths, SortedElements, Expected, PathsOf, Subsequence;
    SubsequenceConcat(MovedPaths(first), paths, MovedPaths(later), PathsOf(writes));
    MovedPathsConcat(first, later);
  }

  lemma PathsOfPrefix(writes: seq<FileWrite>, n: nat)
    requires n <= |writes|
    ensures PathsOf(writes[..n]) == PathsOf(writes)[..n]
    ensures Distinct(PathsOf(writes)) ==> Distinct(PathsOf(writes[..n]))
  {
  }

  lemma {:induction false} ApplyKeeps(files: Files, agent: AgentId, writes: seq<FileWrite>, p: Path)
    requires p !in PathsOf(writes)
    ensures p in Apply(files, agent, writes) <==> p in files
    ensures p in files ==> Apply(files, agent, writes)[p] == files[p]
  {
    if writes != [] {
      var n := |writes| - 1;
      PathsOfPrefix(writes, n);
      assert PathsOf(writes)[n] == writes[n].path;
      ApplyKeeps(files, agent, writes[..n], p);
    }
  }

  lemma {:induction false} ApplyWrites(files: Files, agent: AgentId, writes: seq<FileWrite>, i: nat)
    requires Distinct(PathsOf(writes)) && i < |writes|
    ensures var after := Apply(files, agent, writes);
            writes[i].path in after && after[writes[i].path] == NextFile(files, agent, writes[i])
  {
    var n := |writes| - 1;
    PathsOfPrefix(writes, n);
    var p := writes[i].path;
    assert PathsOf(writes)[i] == p;
    if i == n {
      forall k | 0 <= k < n ensures PathsOf(writes[..n])[k] != p {
        assert PathsOf(writes)[k] != PathsOf(writes)[n];
      }
      ApplyKeeps(files, agent, writes[..n], p);
    } else {
      assert PathsOf(writes)[i] != PathsOf(writes)[n];
      ApplyWrites(files, agent, writes[..n], i);
    }
  }

  /**
   * Applying a well-formed batch gives every written path its new text, one raw version up - a deleted
   * one an empty tombstone - and leaves every other path as it was.
   */
  lemma ApplyExact(files: Files, agent: AgentId, writes: seq<FileWrite>)
    requires Distinct(PathsOf(writes))
    ensures var after := Apply(files, agent, writes);
            && (forall w | w in writes ::
                  && w.path in after
                  && after[w.path] == StoredFile(w.path, RawVersion(files, w.path) + 1, if w.delete then "" else w.content,
                                                 agent, w.delete))
            && (forall p | p !in PathsOf(writes) :: (p in after <==> p in files) && (p in files ==> after[p] == files[p]))
  {
    forall i | 0 <= i < |writes|
      ensures var after := Apply(files, agent, writes);
              writes[i].path in after && after[writes[i].path] == NextFile(files, agent, writes[i])
    {
      ApplyWrites(files, agent, writes, i);
    }
    forall p | p !in PathsOf(writes)
      ensures var after := Apply(files, agent, writes);
              (p in after <==> p in files) && (p in files ==> after[p] == files[p])
    {
      ApplyKeeps(files, agent, writes, p);
    }
  }

  // ------------------------------------------------------ the operations, imperatively

  /** The normalised paths, or the error of the first path that has no normal form. */
  function NormalizeAll(raw: seq<string>): Result<seq<Path>, HttpError> {
    if raw == [] then Success([])
    else match NormalizeAll(raw[..|raw| - 1])
      case Failure(e) => Failure(e)
      case Success(done) =>
        match NormalizePath(raw[|raw| - 1])
          case Failure(e) => Failure(e)
          case Success(p) => Success(done + [p])
  }

  lemma {:induction false} NormalizeAllLength(raw: seq<string>)
    ensures NormalizeAll(raw).Success? ==> |NormalizeAll(raw).value| == |raw|
  {
    if raw != [] { NormalizeAllLength(raw[..|raw| - 1]); }
  }

  lemma {:induction false} NormalizeAllFails(raw: seq<string>, n: nat)
    requires n <= |raw| && NormalizeAll(raw[..n]).Failure?
    ensures NormalizeAll(raw) == NormalizeAll(raw[..n])
  {
    if n < |raw| {
      assert raw[..|raw| - 1][..n] == raw[..n];
      NormalizeAllFails(raw[..|raw| - 1], n);
    } else {
      assert raw[..n] == raw;
    }
  }

  ghost predicate FirstBad(raw: seq<string>, k: nat, e: HttpError) {
    k < |raw| && NormalizePath(raw[k]) == Failure(e) && forall i | 0 <= i < k :: NormalizePath(raw[i]).Success?
  }

  /** All paths are normalised, each in its place, or the first that has no normal form is reported. */
  lemma {:induction false} NormalizeAllExact(raw: seq<string>)
    ensures NormalizeAll(raw).Success? ==>
              var paths := NormalizeAll(raw).value;
              |paths| == |raw| && forall i | 0 <= i < |raw| :: NormalizePath(raw[i]) == Success(paths[i])
    ensures NormalizeAll(raw).Failure? ==> exists k: nat :: FirstBad(raw, k, NormalizeAll(raw).error)
  {
    hide NormalizePath;
    if raw != [] {
      var n := |raw| - 1;
      NormalizeAllExact(raw[..n]);
      if NormalizeAll(raw[..n]).Failure? {
        var k: nat :| FirstBad(raw[..n], k, NormalizeAll(raw[..n]).error);
        assert FirstBad(raw, k, NormalizeAll(raw).error);
      } else if NormalizeAll(raw).Failure? {
        assert FirstBad(raw, n, NormalizeAll(raw).error);
      }
    }
  }

  function RawWritePaths(raw: seq<FileWrite>): seq<string> {
    seq(|raw|, i requires 0 <= i < |raw| => raw[i].path)
  }

  function RawRefPaths(raw: seq<FileRef>): seq<string> {
    seq(|raw|, i requires 0 <= i < |raw| => raw[i].path)
  }

  function Normalized(raw: seq<FileWrite>): Result<seq<FileWrite>, HttpError> {
    NormalizeAllLength(RawWritePaths(raw));
    match NormalizeAll(RawWritePaths(raw))
    case Failure(e) => Failure(e)
    case Success(paths) =>
      Success(seq(|raw|, i requires 0 <= i < |raw| => raw[i].(path := paths[i])))
  }

  function NormalizedRefs(raw: seq<FileRef>): Result<seq<FileRef>, HttpError> {
    NormalizeAllLength(RawRefPaths(raw));
    match NormalizeAll(RawRefPaths(raw))
    case Failure(e) => Failure(e)
    case Success(paths) =>
      Success(seq(|raw|, i requires 0 <= i < |raw| => raw[i].(path := paths[i])))
  }

  /** The request with its paths in normal form and nothing else changed. */
  ghost predicate NormalFormOf(raw: seq<FileWrite>, writes: seq<FileWrite>) {
    |writes| == |raw| &&
    forall i | 0 <= i < |raw| ::
      && NormalizePath(raw[i].path) == Success(writes[i].path)
      && writes[i].content == raw[i].content && writes[i].basedOn == raw[i].basedOn && writes[i].delete == raw[i].delete
  }

  /** Normalising a request changes its paths and nothing else. */
  lemma NormalizedExact(raw: seq<FileWrite>)
    ensures match Normalized(raw)
            case Failure(e) => NormalizeAll(RawWritePaths(raw)) == Failure(e)
            case Success(writes) => NormalFormOf(raw, writes)
  {
    hide NormalizePath;
    var paths := RawWritePaths(raw);
    NormalizeAllExact(paths);
    assert forall i | 0 <= i < |raw| :: paths[i] == raw[i].path;
  }

  lemma NormalizedRefsExact(raw: seq<FileRef>)
    ensures match NormalizedRefs(raw)
            case Failure(e) => NormalizeAll(RawRefPaths(raw)) == Failure(e)
            case Success(refs) =>
              && |refs| == |raw|
              && forall i | 0 <= i < |raw| :: NormalizePath(raw[i].path) == Success(refs[i].path) && refs[i].version == raw[i].version
  {
    hide NormalizePath;
    var paths := RawRefPaths(raw);
    NormalizeAllExact(paths);
    assert forall i | 0 <= i < |raw| :: paths[i] == raw[i].path;
  }

  /** The first write that repeats a path or deletes a file it expects to be absent. */
  function BatchFault(writes: seq<FileWrite>): Option<HttpError> {
    if writes == [] then None
    else
      var before := writes[..|writes| - 1];
      var w := writes[|writes| - 1];
      if BatchFault(before).Some? then BatchFault(before)
      else if w.path in PathsOf(before) then Some(DuplicatePath(w.path))
      else if w.delete && w.basedOn.None? then Some(DeleteOfAbsent(w.path))
      else None
  }

  lemma {:induction false} NoFaultMeansWellFormed(writes: seq<FileWrite>)
    ensures BatchFault(writes).None? <==> WellFormed(writes)
  {
    if writes != [] {
      var n := |writes| - 1;
      NoFaultMeansWellFormed(writes[..n]);
      PathsOfPrefix(writes, n);
      var paths := PathsOf(writes);
      assert paths == PathsOf(writes[..n]) + [writes[n].path];
      if writes[n].path in PathsOf(writes[..n]) {
        var i :| 0 <= i < n && paths[i] == writes[n].path;
        assert paths[i] == paths[n];
      }
      assert writes[n] in writes;
      assert forall w | w in writes :: w in writes[..n] || w == writes[n];
    }
  }

  /** Write `k` is the first that is wrong, and this is what is wrong with it; a repeated path is reported first. */
  ghost predicate FaultAt(writes: seq<FileWrite>, k: nat, e: HttpError) {
    && k < |writes| && WellFormed(writes[..k])
    && (if exists j | 0 <= j < k :: writes[j].path == writes[k].path then e == DuplicatePath(writes[k].path)
        else writes[k].delete && writes[k].basedOn.None? && e == DeleteOfAbsent(writes[k].path))
  }

  lemma {:induction false} BatchFaultExact(writes: seq<FileWrite>)
    requires BatchFault(writes).Some?
    ensures exists k: nat :: FaultAt(writes, k, BatchFault(writes).value)
  {
    var n := |writes| - 1;
    var before := writes[..n];
    if BatchFault(before).Some? {
      BatchFaultExact(before);
      var k: nat :| FaultAt(before, k, BatchFault(before).value);
      assert before[..k] == writes[..k];
      assert FaultAt(writes, k, BatchFault(writes).value);
    } else {
      NoFaultMeansWellFormed(before);
      hide WellFormed;
      assert writes[n].path in PathsOf(before) <==> exists j | 0 <= j < n :: writes[j].path == writes[n].path by {
        forall j | 0 <= j < n ensures PathsOf(before)[j] == writes[j].path {}
      }
      assert FaultAt(writes, n, BatchFault(writes).value);
    }
  }

  /** Everything `commit` checks before it enters the store. */
  function Prepare(rawWrites: seq<FileWrite>, rawRefs: seq<FileRef>)
    : Result<(seq<FileWrite>, seq<FileRef>), HttpError>
  {
    match Normalized(rawWrites)
    case Failure(e) => Failure(e)
    case Success(writes) =>
      match BatchFault(writes)
      case Some(e) => Failure(e)
      case None =>
        match NormalizedRefs(rawRefs)
        case Failure(e) => Failure(e)
        case Success(refs) => Success((writes, refs))
  }

  /** What is wrong with the request: a write path first, then the batch, then a path among the reported reads. */
  ghost predicate RequestFault(rawWrites: seq<FileWrite>, rawRefs: seq<FileRef>, e: HttpError) {
    || (exists k: nat :: FirstBad(RawWritePaths(rawWrites), k, e))
    || (exists writes, k: nat :: NormalFormOf(rawWrites, writes) && FaultAt(writes, k, e))
    || (exists writes, k: nat ::
          NormalFormOf(rawWrites, writes) && WellFormed(writes) && FirstBad(RawRefPaths(rawRefs), k, e))
  }

  /** A request reaches the store in normal form and well formed, or is refused for the first thing wrong with it. */
  lemma PrepareExact(rawWrites: seq<FileWrite>, rawRefs: seq<FileRef>)
    ensures match Prepare(rawWrites, rawRefs)
            case Failure(e) => RequestFault(rawWrites, rawRefs, e)
            case Success((writes, refs)) =>
              && NormalFormOf(rawWrites, writes) && WellFormed(writes)
              && |refs| == |rawRefs|
              && forall i | 0 <= i < |rawRefs| ::
                   NormalizePath(rawRefs[i].path) == Success(refs[i].path) && refs[i].version == rawRefs[i].version
  {
    NormalizedExact(rawWrites);
    NormalizedRefsExact(rawRefs);
    NormalizeAllExact(RawWritePaths(rawWrites));
    NormalizeAllExact(RawRefPaths(rawRefs));
    hide NormalizePath, NormalizeAll, Normalized, NormalizedRefs, RawWritePaths, RawRefPaths, BatchFault, WellFormed,
         FirstBad, FaultAt;
    if Normalized(rawWrites).Success? {
      var writes := Normalized(rawWrites).value;
      NoFaultMeansWellFormed(writes);
      if BatchFault(writes).Some? { BatchFaultExact(writes); }
      assert NormalFormOf(rawWrites, writes);
    }
  }

  lemma PreparedIsWellFormed(rawWrites: seq<FileWrite>, rawRefs: seq<FileRef>)
    requires Prepare(rawWrites, rawRefs).Success?
    ensures WellFormed(Prepare(rawWrites, rawRefs).value.0)
  {
    NoFaultMeansWellFormed(Normalized(rawWrites).value);
  }

  method NormalizePaths(raw: seq<string>) returns (r: Result<seq<Path>, HttpError>)
    ensures r == NormalizeAll(raw)
  {
    var paths := [];
    var i := 0;
    while i < |raw|
      invariant 0 <= i <= |raw|
      invariant NormalizeAll(raw[..i]) == Success(paths)
    {
      assert raw[..i + 1][..i] == raw[..i];
      match NormalizePath(raw[i])
      case Failure(e) =>
        NormalizeAllFails(raw, i + 1);
        return Failure(e);
      case Success(p) =>
        paths := paths + [p];
      i := i + 1;
    }
    assert raw[..i] == raw;
    return Success(paths);
  }

  method CheckBatch(writes: seq<FileWrite>) returns (fault: Option<HttpError>)
    ensures fault == BatchFault(writes)
  {
    var seen: set<Path> := {};
    var i := 0;
    while i < |writes|
      invariant 0 <= i <= |writes|
      invariant BatchFault(writes[..i]).None?
      invariant forall p :: p in seen <==> p in PathsOf(writes[..i])
    {
      var w := writes[i];
      assert writes[..i + 1][..i] == writes[..i];
      assert PathsOf(writes[..i + 1]) == PathsOf(writes[..i]) + [w.path];
      if w.path in seen || (w.delete && w.basedOn.None?) {
        FaultStays(writes, i + 1);
        return if w.path in seen then Some(DuplicatePath(w.path)) else Some(DeleteOfAbsent(w.path));
      }
      seen := seen + {w.path};
      i := i + 1;
    }
    assert writes[..i] == writes;
    return None;
  }

  lemma {:induction false} FaultStays(writes: seq<FileWrite>, n: nat)
    requires n <= |writes| && BatchFault(writes[..n]).Some?
    ensures BatchFault(writes) == BatchFault(writes[..n])
  {
    if n < |writes| {
      assert writes[..|writes| - 1][..n] == writes[..n];
      FaultStays(writes[..|writes| - 1], n);
    } else {
      assert writes[..n] == writes;
    }
  }

  /** `Object.keys(m).sort()`. */
  method SortedKeys(m: ReadSet) returns (keys: seq<Path>)
    ensures keys == SortedElements(m.Keys)
  {
    keys := [];
    var rest := m.Keys;
    while rest != {}
      invariant rest <= m.Keys
      invariant Distinct(keys)
      invariant forall p :: p in keys <==> p in m.Keys - rest
      decreases rest
    {
      var p :| p in rest;
      assert p !in keys;
      keys := keys + [p];
      rest := rest - {p};
    }
    SortListing(keys, m.Keys);
    keys := Sort(keys);
  }

  lemma ApplyOneMore(files: Files, agent: AgentId, writes: seq<FileWrite>, i: nat)
    requires WellFormed(writes) && i < |writes|
    ensures Apply(files, agent, writes[..i + 1])
            == Apply(files, agent, writes[..i])[writes[i].path := NextFile(files, agent, writes[i])]
    ensures RawVersion(Apply(files, agent, writes[..i]), writes[i].path) == RawVersion(files, writes[i].path)
  {
    assert writes[..i + 1][..i] == writes[..i];
    var w := writes[i];
    assert w.path !in PathsOf(writes[..i]) by {
      forall k | 0 <= k < i ensures PathsOf(writes[..i])[k] != w.path {
        assert PathsOf(writes)[k] != PathsOf(writes)[i];
      }
    }
    ApplyKeeps(files, agent, writes[..i], w.path);
  }

  lemma NewVersionsOneMore(files: Files, writes: seq<FileWrite>, i: nat)
    requires i < |writes|
    ensures NewVersions(files, writes[..i + 1])
            == NewVersions(files, writes[..i])[writes[i].path := RawVersion(files, writes[i].path) + 1]
  {
    assert PathsOf(writes[..i + 1]) == PathsOf(writes[..i]) + [writes[i].path];
  }

  method ReportedReads(refs: seq<FileRef>) returns (expected: ReadSet)
    ensures expected == Reported(refs)
  {
    expected := map[];
    var i := 0;
    while i < |refs|
      invariant 0 <= i <= |refs|
      invariant expected == Reported(refs[..i])
    {
      assert refs[..i + 1][..i] == refs[..i];
      expected := expected[refs[i].path := refs[i].version];
      i := i + 1;
    }
    assert refs[..i] == refs;
  }

  /** What a landed commit leaves: each written path with its new text or an empty tombstone, one raw version up. */
  ghost predicate Landed(before: Files, after: Files, agent: AgentId, writes: seq<FileWrite>) {
    && (forall w | w in writes ::
          && w.path in after
          && after[w.path] == StoredFile(w.path, RawVersion(before, w.path) + 1, if w.delete then "" else w.content, agent, w.delete))
    && (forall p | p !in PathsOf(writes) :: (p in after <==> p in before) && (p in before ==> after[p] == before[p]))
  }

  /** The answer names exactly the written paths, with the versions they now have. */
  ghost predicate AnswersVersions(result: CommitResult, after: Files, writes: seq<FileWrite>) {
    && result.Committed?
    && (forall p :: p in result.versions <==> p in PathsOf(writes))
    && forall p | p in result.versions :: p in after && result.versions[p] == after[p].version
  }

  lemma VersionsAnswered(files: Files, agent: AgentId, writes: seq<FileWrite>)
    requires Distinct(PathsOf(writes))
    ensures AnswersVersions(Committed(NewVersions(files, writes)), Apply(files, agent, writes), writes)
  {
    ApplyExact(files, agent, writes);
    hide Apply;
    forall p | p in PathsOf(writes) ensures exists w | w in writes :: w.path == p {
      var k :| 0 <= k < |writes| && PathsOf(writes)[k] == p;
      assert writes[k] in writes;
    }
  }

  /** The store: the coordination tables, updated in place by one `mutate` block per operation. */
  class FileStore {
    var files: Files
    var readSets: map<AgentId, ReadSet>
    var events: seq<StoredEvent>
    var eventSeq: nat

    function Contents(): Tables
      reads this
    {
      Tables(files, readSets, events, eventSeq)
    }

    constructor (initial: Files)
      ensures Contents() == Tables(initial, map[], [], 0)
    {
      files, readSets, events, eventSeq := initial, map[], [], 0;
    }

    method Append(kind: EventType, agent: AgentId, taskId: TaskId)
      modifies this`events, this`eventSeq
      ensures Contents() == AppendEvent(old(Contents()), kind, agent, taskId)
    {
      eventSeq := eventSeq + 1;
      events := events + [StoredEvent(eventSeq, kind, agent, taskId)];
    }

    method Fetch(agent: AgentId, rawPath: string) returns (r: Result<FetchResult, HttpError>)
      modifies this
      ensures match NormalizePath(rawPath)
              case Failure(e) => r == Failure(e) && Contents() == old(Contents())
              case Success(path) =>
                r.Success? && (Contents(), r.value) == FetchStep(old(Contents()), agent, path)
      ensures NormalizePath(rawPath).Success? ==>
                var path := NormalizePath(rawPath).value;
                && files == old(files)
                && r == Success(if path in files && !files[path].deleted
                                then Found(path, files[path].version, files[path].content)
                                else NotFound(path))
    {
      match NormalizePath(rawPath)
      case Failure(e) => return Failure(e);
      case Success(path) =>
        var version := EffectiveVersion(files, path);
        var seen := if agent in readSets then readSets[agent] else map[];
        seen := seen[path := version];
        readSets := readSets[agent := seen];
        if path !in files || files[path].deleted {
          return Success(NotFound(path));
        }
        return Success(Found(path, version, files[path].content));
    }

    /** A refused request leaves the tables alone; any other is one CommitStep on the normalised request. */
    method Commit(agent: AgentId, taskId: TaskId, rawWrites: seq<FileWrite>, rawRefs: seq<FileRef>)
      returns (r: Result<CommitResult, HttpError>)
      modifies this
      ensures match Prepare(rawWrites, rawRefs)
              case Failure(e) => r == Failure(e) && Contents() == old(Contents())
              case Success((writes, refs)) =>
                && WellFormed(writes) && r.Success?
                && (Contents(), r.value) == CommitStep(old(Contents()), agent, taskId, writes, refs)
                && (if r.value.Committed?
                    then Landed(old(files), files, agent, writes) && AnswersVersions(r.value, files, writes)
                    else files == old(files) && readSets == old(readSets))
    {
      var paths := NormalizePaths(RawWritePaths(rawWrites));
      if paths.Failure? { return Failure(paths.error); }
      NormalizeAllLength(RawWritePaths(rawWrites));
      var writes := seq(|rawWrites|, i requires 0 <= i < |rawWrites| => rawWrites[i].(path := paths.value[i]));
      assert Normalized(rawWrites) == Success(writes);
      var fault := CheckBatch(writes);
      if fault.Some? { return Failure(fault.value); }
      var refPaths := NormalizePaths(RawRefPaths(rawRefs));
      if refPaths.Failure? { return Failure(refPaths.error); }
      NormalizeAllLength(RawRefPaths(rawRefs));
      var refs := seq(|rawRefs|, i requires 0 <= i < |rawRefs| => rawRefs[i].(path := refPaths.value[i]));
      assert NormalizedRefs(rawRefs) == Success(refs);
      PreparedIsWellFormed(rawWrites, rawRefs);
      var result := Submit(agent, taskId, writes, refs);
      return Success(result);
    }

    method Submit(agent: AgentId, taskId: TaskId, writes: seq<FileWrite>, refs: seq<FileRef>)
      returns (result: CommitResult)
      requires WellFormed(writes)
      modifies this
      ensures (Contents(), result) == CommitStep(old(Contents()), agent, taskId, writes, refs)
      ensures result.Committed? ==> Landed(old(files), files, agent, writes) && AnswersVersions(result, files, writes)
      ensures result.Stale? ==> files == old(files) && readSets == old(readSets)
    {
      ApplyExact(files, agent, writes);
      VersionsAnswered(files, agent, writes);
      hide Apply, NewVersions, Moved, RawVersion;
      var moved := FindMoved(agent, writes, refs);
      if moved != [] {
        Append(CommitRejected, agent, taskId);
        return Stale(moved);
      }
      var versions := ApplyWrites(agent, writes);
      readSets := readSets - {agent};
      Append(CommitOk, agent, taskId);
      return Committed(versions);
    }

    method FindMoved(agent: AgentId, writes: seq<FileWrite>, refs: seq<FileRef>) returns (moved: seq<MovedFile>)
      ensures moved == Moved(Contents(), agent, writes, refs)
    {
      var expected := ReportedReads(refs);
      expected := expected + (if agent in readSets then readSets[agent] else map[]);
      assert expected == Expected(Contents(), agent, refs);
      moved := FindMovedReads(expected);
      var movedWrites := FindMovedWrites(writes);
      moved := moved + movedWrites;
    }

    method FindMovedReads(expected: ReadSet) returns (moved: seq<MovedFile>)
      ensures moved == MovedReads(files, expected, SortedElements(expected.Keys))
    {
      hide SortedElements;
      moved := [];
      var keys := SortedKeys(expected);
      var i := 0;
      while i < |keys|
        invariant 0 <= i <= |keys|
        invariant moved == MovedReads(files, expected, keys[..i])
      {
        assert keys[..i + 1][..i] == keys[..i];
        assert keys[i] in keys;
        var had := expected[keys[i]];
        var current := EffectiveVersion(files, keys[i]);
        if had != current {
          moved := moved + [MovedFile(keys[i], had, current)];
        }
        i := i + 1;
      }
      assert keys[..i] == keys;
    }

    method FindMovedWrites(writes: seq<FileWrite>) returns (moved: seq<MovedFile>)
      ensures moved == MovedWrites(files, writes)
    {
      moved := [];
      var i := 0;
      while i < |writes|
        invariant 0 <= i <= |writes|
        invariant moved == MovedWrites(files, writes[..i])
      {
        assert writes[..i + 1][..i] == writes[..i];
        var had := Base(writes[i]);
        var current := EffectiveVersion(files, writes[i].path);
        if had != current {
          moved := moved + [MovedFile(writes[i].path, had, current)];
        }
        i := i + 1;
      }
      assert writes[..i] == writes;
    }

    method ApplyWrites(agent: AgentId, writes: seq<FileWrite>) returns (versions: map<Path, nat>)
      requires WellFormed(writes)
      modifies this`files
      ensures files == Apply(old(files), agent, writes)
      ensures versions == NewVersions(old(files), writes)
    {
      versions := map[];
      assert versions == NewVersions(files, []);
      assert files == Apply(files, agent, []);
      hide PathsOf, Apply, NewVersions;
      var i := 0;
      while i < |writes|
        invariant 0 <= i <= |writes|
        invariant files == Apply(old(files), agent, writes[..i])
        invariant versions == NewVersions(old(files), writes[..i])
      {
        var w := writes[i];
        ApplyOneMore(old(files), agent, writes, i);
        NewVersionsOneMore(old(files), writes, i);
        var version := (if w.path in files then files[w.path].version else ABSENT) + 1;
        files := files[w.path := StoredFile(w.path, version, if w.delete then "" else w.content, agent, w.delete)];
        versions := versions[w.path := version];
        i := i + 1;
      }
      assert writes[..i] == writes;
    }
  }
}
