/**
 * The single-writer store (store.ts): mutations queue up, each works on a clone, the clone is written
 * to a temporary file and renamed over the database file, and only then published in memory.
 */
module JsonStore {
  import opened Common
  import opened FileStore
  import opened Tasks

  datatype Database = Database(tables: Tables, tasks: seq<Task>)

  // ------------------------------------------------------------------- defaults

  const APP := "repoA/src/App.tsx"
  const ORDERS := "repoB/src/api/orders.ts"
  const CONTRACT := "shared/order-api.contract.md"

  /** What the demo files say; only their paths matter to the store. */
  const DemoTexts: map<Path, string>

  function DemoText(path: Path): string {
    if path in DemoTexts then DemoTexts[path] else ""
  }

  function DemoFiles(): Files {
    map p | p in {APP, ORDERS, CONTRACT} :: StoredFile(p, 1, DemoText(p), "system", false)
  }

  function EmptyDatabase(): Database {
    Database(Tables(DemoFiles(), map[], [], 0), [])
  }

  /** A database file as parsed: the coordination tables may be missing from an old one. */
  datatype Parsed =
    Parsed(files: Option<Files>, readSets: Option<map<AgentId, ReadSet>>, events: Option<seq<StoredEvent>>,
           eventSeq: Option<nat>, tasks: Option<seq<Task>>)

  function Or<T>(x: Option<T>, default: T): T {
    match x case Some(v) => v case None => default
  }

  function WithDefaults(p: Parsed): Database {
    Database(Tables(DemoFiles() + Or(p.files, map[]), Or(p.readSets, map[]), Or(p.events, []), Or(p.eventSeq, 0)),
             Or(p.tasks, []))
  }

  /** What `JSON.parse(JSON.stringify(db))` yields. */
  function Saved(db: Database): Parsed {
    Parsed(Some(db.tables.files), Some(db.tables.readSets), Some(db.tables.events), Some(db.tables.eventSeq), Some(db.tasks))
  }

  /** Only what is missing is filled in: a stored entry, deleted or not, is never replaced by a demo file. */
  lemma DefaultsOnlyFill(p: Parsed)
    ensures var r, stored := WithDefaults(p), Or(p.files, map[]);
            && r.tables.files.Keys == stored.Keys + {APP, ORDERS, CONTRACT}
            && (forall q | q in stored :: r.tables.files[q] == stored[q])
            && (forall q | q in {APP, ORDERS, CONTRACT} - stored.Keys ::
                  r.tables.files[q].path == q && r.tables.files[q].version == 1 && !r.tables.files[q].deleted)
    ensures p.readSets == Some(WithDefaults(p).tables.readSets) || (p.readSets.None? && WithDefaults(p).tables.readSets == map[])
    ensures p.events == Some(WithDefaults(p).tables.events) || (p.events.None? && WithDefaults(p).tables.events == [])
    ensures p.eventSeq == Some(WithDefaults(p).tables.eventSeq) || (p.eventSeq.None? && WithDefaults(p).tables.eventSeq == 0)
    ensures p.tasks == Some(WithDefaults(p).tasks) || (p.tasks.None? && WithDefaults(p).tasks == [])
    ensures p == Parsed(None, None, None, None, None) ==> WithDefaults(p) == EmptyDatabase()
  {
    assert DemoFiles().Keys == {APP, ORDERS, CONTRACT};
    assert DemoFiles() + map[] == DemoFiles();
  }

  ghost predicate KeepsDemo(db: Database) {
    DemoFiles().Keys <= db.tables.files.Keys
  }

  /** Reading a database back gives the same database if and only if it still has every demo path. */
  lemma ReloadIsIdentityIff(db: Database)
    ensures WithDefaults(Saved(db)) == db <==> KeepsDemo(db)
  {
    var merged := DemoFiles() + db.tables.files;
    assert merged == db.tables.files ==> merged.Keys == DemoFiles().Keys + db.tables.files.Keys;
    assert KeepsDemo(db) ==> merged == db.tables.files;
  }

  // ------------------------------------------------------------------ mutations

  /** A mutation of the clone; None when it throws. */
  type Mutation = Database -> Option<Database>

  ghost predicate KeepsFiles(m: Mutation) {
    forall db | m(db).Some? :: db.tables.files.Keys <= m(db).value.tables.files.Keys
  }

  function Applied(db: Database, m: Mutation): Database {
    Or(m(db), db)
  }

  // ---------------------------------------------------------- the store in steps

  /** What became of a call of `mutate`: waiting or running, refused, renamed into place, answered, or cut off by a crash. */
  datatype Fate = Open | Refused | Landed | Answered | Lost

  datatype Call = Call(mutation: Mutation, fate: Fate)

  datatype Temp = NoTemp | Torn | Written(db: Database)

  datatype Disk = Disk(main: Option<Database>, temp: Temp)

  /** How far the running call, `calls[next]`, has got. */
  datatype Phase = Waiting | Mutated(db: Database) | Saving(db: Database) | Renamed(db: Database)

  /** `data` is None while the process is down; the queue is `calls[next..]`; `crashes` only records history. */
  datatype Store =
    Store(data: Option<Database>, disk: Disk, calls: seq<Call>, next: nat, phase: Phase, crashes: nat)

  datatype Event =
    | Enqueue(mutation: Mutation)
    | Begin
    | WriteTemp(ok: bool)
    | Rename(ok: bool)
    | Publish
    | Crash(torn: bool)
    | Restart(ok: bool)

  function Settle(calls: seq<Call>, k: nat, fate: Fate): seq<Call>
    requires k < |calls|
  {
    calls[k := calls[k].(fate := fate)]
  }

  /** The running call is refused; the queue moves on. */
  function Refuse(s: Store): Store
    requires s.next < |s.calls|
  {
    s.(calls := Settle(s.calls, s.next, Refused), next := s.next + 1, phase := Waiting)
  }

  function Abandon(calls: seq<Call>): seq<Call> {
    seq(|calls|, i requires 0 <= i < |calls| => if calls[i].fate.Open? then calls[i].(fate := Lost) else calls[i])
  }

  /** One step; a step that is not possible now changes nothing. */
  function Step(s: Store, e: Event): Store {
    match e
    case Enqueue(m) =>
      if s.data.Some? then s.(calls := s.calls + [Call(m, Open)]) else s
    case Begin =>
      if s.data.Some? && s.phase.Waiting? && s.next < |s.calls| then
        match s.calls[s.next].mutation(s.data.value)
        case None => Refuse(s)
        case Some(db) => s.(phase := Mutated(db))
      else s
    case WriteTemp(ok) =>
      if s.phase.Mutated? && s.next < |s.calls| then
        if ok then s.(disk := s.disk.(temp := Written(s.phase.db)), phase := Saving(s.phase.db))
        else Refuse(s).(disk := s.disk.(temp := Torn))
      else s
    case Rename(ok) =>
      if s.phase.Saving? && s.next < |s.calls| then
        if ok then s.(disk := Disk(Some(s.phase.db), NoTemp), phase := Renamed(s.phase.db),
                      calls := Settle(s.calls, s.next, Landed))
        else Refuse(s)
      else s
    case Publish =>
      if s.phase.Renamed? && s.next < |s.calls| then
        s.(data := Some(s.phase.db), calls := Settle(s.calls, s.next, Answered), next := s.next + 1, phase := Waiting)
      else s
    case Crash(torn) =>
      if s.data.Some? then
        s.(data := None, calls := Abandon(s.calls), next := |s.calls|, phase := Waiting, crashes := s.crashes + 1,
           disk := if torn && s.phase.Mutated? then s.disk.(temp := Torn) else s.disk)
      else s
    case Restart(ok) =>
      if s.data.None? then
        match s.disk.main
        case Some(db) => s.(data := Some(WithDefaults(Saved(db))))
        case None =>
          if ok then s.(data := Some(EmptyDatabase()), disk := Disk(Some(EmptyDatabase()), NoTemp))
          else s.(disk := s.disk.(temp := Torn))
      else s
  }

  function Play(s: Store, es: seq<Event>): Store {
    if es == [] then s else Step(Play(s, es[..|es| - 1]), es[|es| - 1])
  }

  function Installed(): Store {
    Store(None, Disk(None, NoTemp), [], 0, Waiting, 0)
  }

  predicate InEffect(c: Call) {
    c.fate.Landed? || c.fate.Answered?
  }

  /** The empty database with the calls that took effect applied one at a time, in the order they were made. */
  function Replay(calls: seq<Call>): Database {
    if calls == [] then EmptyDatabase()
    else
      var last := calls[|calls| - 1];
      var before := Replay(calls[..|calls| - 1]);
      if InEffect(last) then Applied(before, last.mutation) else before
  }

  /** Calls that took effect although their callers were never told. */
  function Unacknowledged(calls: seq<Call>): nat {
    if calls == [] then 0
    else Unacknowledged(calls[..|calls| - 1]) + if calls[|calls| - 1].fate.Landed? then 1 else 0
  }

  // ------------------------------------------------------------------- invariant

  /** Calls are settled strictly in the order in which they were made. */
  ghost predicate InOrder(s: Store) {
    && s.next <= |s.calls|
    && (forall i | 0 <= i < s.next :: !s.calls[i].fate.Open?)
    && (forall i | s.next < i < |s.calls| :: s.calls[i].fate.Open?)
    && (s.next < |s.calls| ==> s.calls[s.next].fate == if s.phase.Renamed? then Landed else Open)
    && (!s.phase.Waiting? ==> s.next < |s.calls| && s.data.Some?)
    && (s.data.None? ==> s.next == |s.calls|)
  }

  /** Main file and memory: both are replays, and memory lags by the call renamed but not yet published. */
  ghost predicate InStep(s: Store)
    requires InOrder(s)
  {
    && (s.disk.main == Some(Replay(s.calls)) || (s.disk.main == None && s.calls == [] && s.data.None?))
    && (s.data.Some? ==> s.data.value == Replay(s.calls[..s.next]))
    && match s.phase
       case Waiting => true
       case Mutated(db) => s.calls[s.next].mutation(s.data.value) == Some(db)
       case Saving(db) => s.calls[s.next].mutation(s.data.value) == Some(db)
       case Renamed(db) => db == Replay(s.calls) && s.calls[s.next].mutation(s.data.value) == Some(db)
  }

  ghost predicate Harmless(s: Store) {
    && (forall i | 0 <= i < |s.calls| :: KeepsFiles(s.calls[i].mutation))
    && KeepsDemo(Replay(s.calls))
  }

  ghost predicate FewLost(s: Store) {
    Unacknowledged(s.calls) <= s.crashes + if s.phase.Renamed? then 1 else 0
  }

  ghost predicate Inv(s: Store) {
    InOrder(s) && InStep(s) && Harmless(s) && FewLost(s)
  }

  lemma {:induction false} IdleCallsChangeNothing(calls: seq<Call>, n: nat)
    requires n <= |calls| && forall i | n <= i < |calls| :: !InEffect(calls[i])
    ensures Replay(calls) == Replay(calls[..n]) && Unacknowledged(calls) == Unacknowledged(calls[..n])
  {
    if n < |calls| {
      IdleCallsChangeNothing(calls[..|calls| - 1], n);
      assert calls[..|calls| - 1][..n] == calls[..n];
    } else {
      assert calls[..n] == calls;
    }
  }

  lemma {:induction false} AbandonChangesNothing(calls: seq<Call>)
    ensures Replay(Abandon(calls)) == Replay(calls) && Unacknowledged(Abandon(calls)) == Unacknowledged(calls)
  {
    if calls != [] {
      var n := |calls| - 1;
      AbandonChangesNothing(calls[..n]);
      assert Abandon(calls)[..n] == Abandon(calls[..n]);
    }
  }

  /** Settling the first unsettled call adds that call's effect, if it has one. */
  lemma SettleExact(s: Store, fate: Fate)
    requires InOrder(s) && s.next < |s.calls|
    ensures var after := Settle(s.calls, s.next, fate);
            && (InEffect(Call(s.calls[s.next].mutation, fate)) ==>
                  Replay(after) == Applied(Replay(s.calls[..s.next]), s.calls[s.next].mutation))
            && (!InEffect(Call(s.calls[s.next].mutation, fate)) ==> Replay(after) == Replay(s.calls[..s.next]))
            && Replay(after) == Replay(after[..s.next + 1])
            && Unacknowledged(after) == Unacknowledged(s.calls[..s.next]) + if fate.Landed? then 1 else 0
  {
    hide DemoFiles;
    var after, n := Settle(s.calls, s.next, fate), s.next;
    IdleCallsChangeNothing(after, n + 1);
    assert after[..n + 1][..n] == s.calls[..n];
  }

  lemma OpenChangesNothing(s: Store)
    requires InOrder(s) && !s.phase.Renamed?
    ensures Replay(s.calls) == Replay(s.calls[..s.next]) && Unacknowledged(s.calls) == Unacknowledged(s.calls[..s.next])
  {
    IdleCallsChangeNothing(s.calls, s.next);
  }

  lemma RefuseKeeps(s: Store)
    requires Inv(s) && s.next < |s.calls| && s.data.Some? && !s.phase.Renamed?
    ensures Inv(Refuse(s)) && Replay(Refuse(s).calls) == Replay(s.calls)
  {
    hide DemoFiles, Replay, Unacknowledged, KeepsFiles, KeepsDemo;
    var after := Refuse(s);
    assert InOrder(after);
    SettleExact(s, Refused);
    OpenChangesNothing(s);
    hide InOrder;
  }

  lemma EnqueueKeeps(s: Store, m: Mutation)
    requires Inv(s) && KeepsFiles(m)
    ensures Inv(Step(s, Enqueue(m)))
  {
    var after := s.calls + [Call(m, Open)];
    assert after[..|s.calls|] == s.calls;
    assert after[..s.next] == s.calls[..s.next];
    assert Replay(after) == Replay(s.calls) && Unacknowledged(after) == Unacknowledged(s.calls);
    hide DemoFiles, Replay, Unacknowledged, KeepsFiles, KeepsDemo, Applied, EmptyDatabase;
    var s' := Step(s, Enqueue(m));
    assert InOrder(s');
    hide InOrder;
    assert Harmless(s') && FewLost(s');
    hide Harmless, FewLost;
  }

  lemma AppliedKeepsDemo(db: Database, m: Mutation)
    requires KeepsDemo(db) && KeepsFiles(m)
    ensures KeepsDemo(Applied(db, m))
  {}

  lemma RenameKeeps(s: Store)
    requires Inv(s) && s.phase.Saving?
    ensures Inv(Step(s, Rename(true)))
  {
    hide DemoFiles, Replay, Unacknowledged, KeepsFiles, KeepsDemo;
    var after := Settle(s.calls, s.next, Landed);
    assert after[..s.next] == s.calls[..s.next];
    assert InOrder(Step(s, Rename(true)));
    SettleExact(s, Landed);
    OpenChangesNothing(s);
    hide InOrder;
    AppliedKeepsDemo(Replay(s.calls), s.calls[s.next].mutation);
  }

  lemma PublishKeeps(s: Store)
    requires Inv(s) && s.phase.Renamed?
    ensures Inv(Step(s, Publish))
  {
    var after := Settle(s.calls, s.next, Answered);
    hide DemoFiles, Replay, Unacknowledged, KeepsFiles, KeepsDemo, Applied, EmptyDatabase;
    var s' := Step(s, Publish);
    assert InOrder(s');
    SettleExact(s, Answered);
    SettleExact(s, Landed);
    assert Settle(s.calls, s.next, Landed) == s.calls;
    hide InOrder;
    assert Harmless(s') && FewLost(s');
    hide Harmless, FewLost;
  }

  lemma CrashKeeps(s: Store, torn: bool)
    requires Inv(s)
    ensures Inv(Step(s, Crash(torn)))
  {
    hide DemoFiles, Replay, Unacknowledged, KeepsFiles, KeepsDemo;
    assert InOrder(Step(s, Crash(torn)));
    AbandonChangesNothing(s.calls);
    assert Abandon(s.calls)[..|s.calls|] == Abandon(s.calls);
    hide InOrder;
  }

  lemma RestartKeeps(s: Store, ok: bool)
    requires Inv(s)
    ensures Inv(Step(s, Restart(ok)))
  {
    if s.data.None? {
      assert s.calls[..s.next] == s.calls;
      if s.disk.main.Some? { ReloadIsIdentityIff(s.disk.main.value); }
    }
    hide DemoFiles, KeepsFiles, KeepsDemo, WithDefaults, EmptyDatabase;
  }

  lemma StepKeeps(s: Store, e: Event)
    requires Inv(s) && (e.Enqueue? ==> KeepsFiles(e.mutation))
    ensures Inv(Step(s, e))
  {
    hide DemoFiles, Replay, Unacknowledged, KeepsFiles, KeepsDemo;
    match e {
      case Enqueue(m) => EnqueueKeeps(s, m);
      case Begin => if s.data.Some? && s.next < |s.calls| && s.phase.Waiting? { RefuseKeeps(s); }
      case WriteTemp(ok) => if s.phase.Mutated? { RefuseKeeps(s); }
      case Rename(ok) => if s.phase.Saving? { RefuseKeeps(s); RenameKeeps(s); }
      case Publish => if s.phase.Renamed? { PublishKeeps(s); }
      case Crash(torn) => CrashKeeps(s, torn);
      case Restart(ok) => RestartKeeps(s, ok);
    }
  }

  /** Every mutation handed in keeps the paths it finds, as all those of the coordination tables do. */
  ghost predicate HarmlessRun(es: seq<Event>) {
    forall i | 0 <= i < |es| && es[i].Enqueue? :: KeepsFiles(es[i].mutation)
  }

  lemma {:induction false} PlayKeeps(es: seq<Event>)
    requires HarmlessRun(es)
    ensures Inv(Play(Installed(), es))
  {
    if es == [] {
      assert Installed().calls == [];
    } else {
      hide DemoFiles, Inv, Step, KeepsFiles;
      PlayKeeps(es[..|es| - 1]);
      StepKeeps(Play(Installed(), es[..|es| - 1]), es[|es| - 1]);
    }
  }

  // --------------------------------------------------------------------- results

  /** `up` is running on what memory held in `s`, or on that plus the one call already renamed into place. */
  ghost predicate Recovered(s: Store, up: Store)
    requires InOrder(s)
  {
    && up.data == Some(Replay(s.calls)) && up.disk.main == up.data
    && up.data == (if s.phase.Renamed? then s.calls[s.next].mutation(s.data.value) else s.data)
    && up.calls == Abandon(s.calls)
    && Unacknowledged(up.calls) <= up.crashes
  }

  /**
   * A crash at any point of any run, followed by `initialize`, brings back the calls that took effect
   * applied in the order they were made. As calls are settled in that order, these are a prefix of the
   * calls made, less those refused or lost to an earlier crash; every answered call is among them, and
   * each crash leaves at most one call that took effect without its caller being told.
   */
  lemma CrashConsistency(es: seq<Event>, torn: bool, ok: bool)
    requires HarmlessRun(es) && Play(Installed(), es).data.Some?
    ensures var s := Play(Installed(), es);
            InOrder(s) && Recovered(s, Step(Step(s, Crash(torn)), Restart(ok)))
  {
    hide Play, Step, Replay, Unacknowledged, Harmless, InOrder, InStep, Recovered;
    PlayKeeps(es);
    CrashRecovers(Play(Installed(), es), torn, ok);
  }

  lemma CrashRecovers(s: Store, torn: bool, ok: bool)
    requires Inv(s) && s.data.Some?
    ensures Recovered(s, Step(Step(s, Crash(torn)), Restart(ok)))
  {
    hide DemoFiles, Replay, Unacknowledged, KeepsFiles, KeepsDemo, WithDefaults, Abandon;
    CrashKeeps(s, torn);
    ReloadIsIdentityIff(Replay(s.calls));
    if !s.phase.Renamed? { OpenChangesNothing(s); }
  }

  /** On every database such a run leaves behind, filling in the defaults changes nothing. */
  lemma ReachableReloadIsIdentity(es: seq<Event>)
    requires HarmlessRun(es)
    ensures var s := Play(Installed(), es);
            && (s.disk.main.Some? ==> WithDefaults(Saved(s.disk.main.value)) == s.disk.main.value)
            && WithDefaults(Saved(Replay(s.calls))) == Replay(s.calls)
  {
    PlayKeeps(es);
    ReloadIsIdentityIff(Replay(Play(Installed(), es).calls));
  }

  lemma {:induction false} FourSteps(s: Store, a: Event, b: Event, c: Event, d: Event)
    ensures Play(s, [a, b, c, d]) == Step(Step(Step(Step(s, a), b), c), d)
  {
    hide Step;
    var es := [a, b, c, d];
    assert es[..3][..2] == es[..2] && es[..2][..1] == es[..1] && es[..1][..0] == [];
    assert Play(s, es[..0]) == s;
    assert Play(s, es[..1]) == Step(s, a);
    assert Play(s, es[..2]) == Step(Step(s, a), b);
    assert Play(s, es[..3]) == Step(Step(Step(s, a), b), c);
  }

  function OneCall(writeOk: bool, renameOk: bool): seq<Event> {
    [Begin, WriteTemp(writeOk), Rename(renameOk), Publish]
  }

  /** The store after the steps of one call, as a single step. */
  lemma {:induction false} OneCallIs(s: Store, writeOk: bool, renameOk: bool)
    requires s.data.Some? && s.phase.Waiting? && s.next < |s.calls|
    ensures Play(s, OneCall(writeOk, renameOk)) == AfterCall(s, writeOk, renameOk)
  {
    FourSteps(s, Begin, WriteTemp(writeOk), Rename(renameOk), Publish);
    hide Play;
    if s.calls[s.next].mutation(s.data.value).Some? && writeOk && renameOk {
      assert Settle(Settle(s.calls, s.next, Landed), s.next, Answered) == Settle(s.calls, s.next, Answered);
    }
  }

  /**
   * One call from start to finish: it is answered, and memory and main file both become its result,
   * exactly when it does not throw and both file operations succeed; otherwise both stay as they
   * were and the call is refused. Either way the queue has moved on to the next call.
   */
  lemma MutateIsAtomic(s: Store, writeOk: bool, renameOk: bool)
    requires Inv(s) && s.data.Some? && s.phase.Waiting? && s.next < |s.calls|
    ensures var after := Play(s, OneCall(writeOk, renameOk));
            var result := s.calls[s.next].mutation(s.data.value);
            && after.phase.Waiting? && after.next == s.next + 1 && |after.calls| == |s.calls| && s.disk.main == s.data
            && (if result.Some? && writeOk && renameOk
                then after.calls[s.next].fate.Answered? && after.data == result && after.disk.main == result
                else after.calls[s.next].fate.Refused? && after.data == s.data && after.disk.main == s.data)
  {
    hide DemoFiles;
    OpenChangesNothing(s);
    OneCallIs(s, writeOk, renameOk);
  }

  function AfterCall(s: Store, writeOk: bool, renameOk: bool): Store
    requires s.data.Some? && s.next < |s.calls|
  {
    match s.calls[s.next].mutation(s.data.value)
    case None => Refuse(s)
    case Some(db) =>
      if !writeOk then Refuse(s).(disk := s.disk.(temp := Torn))
      else if !renameOk then Refuse(s).(disk := s.disk.(temp := Written(db)))
      else s.(data := Some(db), disk := Disk(Some(db), NoTemp),
              calls := Settle(s.calls, s.next, Answered), next := s.next + 1)
  }

  /** Why a call was settled the way it was: refused by its own error or a failed file operation, lost only by a crash. */
  lemma FatesMove(s: Store, e: Event, k: nat)
    requires InOrder(s) && k < |s.calls|
    ensures var was, call := s.calls[k].fate, Step(s, e).calls[k];
            && |Step(s, e).calls| >= |s.calls| && call.mutation == s.calls[k].mutation
            && (call.fate != was ==>
                  match call.fate
                  case Open => false
                  case Refused =>
                    && was.Open? && k == s.next && s.data.Some?
                    && ((e.Begin? && call.mutation(s.data.value).None?) || e == WriteTemp(false) || e == Rename(false))
                  case Landed => was.Open? && k == s.next && e == Rename(true)
                  case Answered => was.Landed? && k == s.next && e.Publish?
                  case Lost => was.Open? && e.Crash?)
            && (e.Crash? && s.data.Some? ==> !call.fate.Open?)
  {}

  /** Memory changes only when a call is published, and then by that call's mutation alone. */
  lemma ReadersSeeWholeMutations(s: Store, e: Event)
    requires Inv(s) && s.data.Some? && !e.Crash?
    ensures var s' := Step(s, e);
            && s'.data.Some?
            && (s'.data != s.data ==>
                  && e.Publish? && s.next < |s.calls|
                  && s'.data == s.calls[s.next].mutation(s.data.value)
                  && s'.calls[s.next].fate.Answered? && s'.next == s.next + 1)
  {
    hide DemoFiles;
  }

  // ------------------------------------------------------------------- the class

  class JsonStore {
    var data: Database
    var disk: Disk

    constructor (found: Disk)
      ensures data == EmptyDatabase() && disk == found
    {
      data, disk := EmptyDatabase(), found;
    }

    /** The store between two calls, as a state of the machine above. */
    ghost predicate Is(s: Store)
      reads this
    {
      s.data == Some(data) && s.disk == disk && s.phase.Waiting?
    }

    /** Loads the database file, or saves the empty database when there is none. */
    method Initialize(ghost s: Store, writeOk: bool, renameOk: bool) returns (ok: bool)
      requires s.data.None? && s.disk == disk && s.phase.Waiting? && data == EmptyDatabase()
      modifies this
      ensures var up := Step(s, Restart(writeOk && renameOk));
              && ok == up.data.Some? && disk.main == up.disk.main && (ok ==> Is(up))
      ensures if old(disk).main.Some?
              then ok && disk == old(disk) && data == WithDefaults(Saved(disk.main.value))
              else ok == (writeOk && renameOk) && data == old(data) && disk.main == if ok then Some(EmptyDatabase()) else None
    {
      match disk.main {
        case Some(db) =>
          data := WithDefaults(Saved(db));
          ok := true;
        case None =>
          ok := Persist(data, writeOk, renameOk);
      }
    }

    /**
     * What a reader sees at any moment, also while a call is being mutated, saved or renamed: the calls
     * published so far that took effect, one after the other, and nothing of the one under way.
     */
    method Snapshot(ghost s: Store) returns (r: Database)
      requires s.data == Some(data) && Inv(s)
      ensures r == Replay(s.calls[..s.next])
    {
      r := data;
    }

    method Persist(db: Database, writeOk: bool, renameOk: bool) returns (ok: bool)
      modifies this
      ensures data == old(data) && ok == (writeOk && renameOk)
      ensures disk == if !writeOk then old(disk).(temp := Torn)
                      else if !renameOk then old(disk).(temp := Written(db))
                      else Disk(Some(db), NoTemp)
    {
      if !writeOk {
        disk := disk.(temp := Torn);
        return false;
      }
      disk := disk.(temp := Written(db));
      if !renameOk { return false; }
      disk := Disk(Some(db), NoTemp);
      return true;
    }

    /** Runs the next queued call to its end; `ok` is whether its caller gets an answer. */
    method Mutate(mutation: Mutation, writeOk: bool, renameOk: bool, ghost s: Store) returns (ok: bool)
      requires Is(s) && s.next < |s.calls| && s.calls[s.next].mutation == mutation
      modifies this
      ensures var after := Play(s, OneCall(writeOk, renameOk));
              Is(after) && |after.calls| == |s.calls| && ok == after.calls[s.next].fate.Answered?
      ensures ok == (mutation(old(data)).Some? && writeOk && renameOk)
      ensures if ok then Some(data) == mutation(old(data)) && disk.main == Some(data)
              else data == old(data) && disk.main == old(disk).main
    {
      OneCallIs(s, writeOk, renameOk);
      match mutation(data) {
        case None => return false;
        case Some(next) =>
          ok := Persist(next, writeOk, renameOk);
          if ok { data := next; }
      }
    }
  }
}
