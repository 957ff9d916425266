/**
 * Every interleaving of fetches and commits is equivalent to a serial run of the accepted commits
 * alone, each one preceded by fetches that return exactly what its agent really saw.
 */
module Serializability {
  import opened Common
  import opened Ordering
  import opened FileStore
  import opened FileHistory

  /** Operation `j` is the agent's last fetch of `p` before `i`, with no accepted commit of the agent since. */
  ghost predicate IsLatestFetch(t: Tables, ops: seq<Op>, j: nat, i: nat, agent: AgentId, p: Path)
    requires i <= |ops|
  {
    && j < i
    && ops[j] == Fetch(agent, p)
    && forall k | j < k < i :: ops[k] != Fetch(agent, p) && !(ops[k].agent == agent && Accepts(At(t, ops, k), ops[k]))
  }

  lemma LatestFetchNext(t: Tables, ops: seq<Op>, j: nat, i: nat, agent: AgentId, p: Path)
    requires i < |ops|
    ensures IsLatestFetch(t, ops, j, i + 1, agent, p) <==>
              if ops[i] == Fetch(agent, p) then j == i
              else IsLatestFetch(t, ops, j, i, agent, p) && !(ops[i].agent == agent && Accepts(At(t, ops, i), ops[i]))
  {}

  lemma RecordedNext(t: Tables, op: Op, agent: AgentId, p: Path)
    ensures var before, after := Recorded(t, agent), Recorded(Step(t, op), agent);
            if op == Fetch(agent, p) then p in after && after[p] == EffectiveVersion(t.files, p)
            else if op.agent == agent && Accepts(t, op) then p !in after
            else (p in after <==> p in before) && (p in before ==> after[p] == before[p])
  {}

  /** The read set the server keeps is exactly what the agent has fetched since its last accepted commit. */
  lemma {:induction false} ReadSetIsLatestFetches(t: Tables, ops: seq<Op>, i: nat, agent: AgentId, p: Path)
    requires Fresh(t) && i <= |ops|
    ensures p in Recorded(At(t, ops, i), agent) <==> exists j :: IsLatestFetch(t, ops, j, i, agent, p)
    ensures forall j | IsLatestFetch(t, ops, j, i, agent, p) ::
              p in Recorded(At(t, ops, i), agent)
              && Recorded(At(t, ops, i), agent)[p] == EffectiveVersion(At(t, ops, j).files, p)
    decreases i
  {
    hide Accepts, Step;
    if i > 0 {
      ReadSetIsLatestFetches(t, ops, i - 1, agent, p);
      RecordedAtNext(t, ops, i - 1, agent, p);
      forall j: nat
        ensures IsLatestFetch(t, ops, j, i, agent, p) <==>
                  if ops[i - 1] == Fetch(agent, p) then j == i - 1
                  else IsLatestFetch(t, ops, j, i - 1, agent, p)
                       && !(ops[i - 1].agent == agent && Accepts(At(t, ops, i - 1), ops[i - 1]))
      {
        LatestFetchNext(t, ops, j, i - 1, agent, p);
      }
      if p in Recorded(At(t, ops, i), agent) {
        if ops[i - 1] == Fetch(agent, p) {
          assert IsLatestFetch(t, ops, i - 1, i, agent, p);
        } else {
          var j :| IsLatestFetch(t, ops, j, i - 1, agent, p);
          assert IsLatestFetch(t, ops, j, i, agent, p);
        }
      }
    }
  }

  lemma RecordedAtNext(t: Tables, ops: seq<Op>, i: nat, agent: AgentId, p: Path)
    requires i < |ops|
    ensures var before, after := Recorded(At(t, ops, i), agent), Recorded(At(t, ops, i + 1), agent);
            if ops[i] == Fetch(agent, p) then p in after && after[p] == EffectiveVersion(At(t, ops, i).files, p)
            else if ops[i].agent == agent && Accepts(At(t, ops, i), ops[i]) then p !in after
            else (p in after <==> p in before) && (p in before ==> after[p] == before[p])
  {
    AtNext(t, ops, i);
    RecordedNext(At(t, ops, i), ops[i], agent, p);
  }

  /** At its commit point an accepted commit would re-read just what its agent's latest fetches returned. */
  lemma CommitSeesItsReads(t: Tables, ops: seq<Op>, i: nat, j: nat, p: Path)
    requires Fresh(t) && i < |ops|
    requires Accepts(At(t, ops, i), ops[i])
    requires IsLatestFetch(t, ops, j, i, ops[i].agent, p)
    ensures Lookup(At(t, ops, j).files, p) == Lookup(At(t, ops, i).files, p)
  {
    var op := ops[i];
    var now := At(t, ops, i);
    ReadSetIsLatestFetches(t, ops, i, op.agent, p);
    AcceptedIffCurrent(now, op.agent, op.writes, op.refs);
    assert p in Expected(now, op.agent, op.refs);
    VersionNamesContent(t, ops, j, i, p);
  }

  // ------------------------------------------------------------- the serial run

  ghost function Refetches(agent: AgentId, paths: seq<Path>): seq<Op> {
    seq(|paths|, k requires 0 <= k < |paths| => Fetch(agent, paths[k]))
  }

  lemma RefetchesExact(a: AgentId, asked: seq<Path>, q: Path)
    ensures Fetch(a, q) in Refetches(a, asked) <==> q in asked
  {
    if q in asked {
      var i :| 0 <= i < |asked| && asked[i] == q;
      assert Refetches(a, asked)[i] == Fetch(a, q);
    }
  }

  /** The server's record covers all the paths fetched, whether they were found or not. */
  ghost predicate RecordCovers(before: ReadSet, after: ReadSet, files: Files, paths: seq<Path>) {
    && (forall q :: q in after <==> q in before || q in paths)
    && (forall q | q in after :: after[q] == if q in paths then EffectiveVersion(files, q) else before[q])
  }

  /** Fetching paths one after the other puts them all on record and touches no file. */
  lemma FetchesRecord(t: Tables, agent: AgentId, paths: seq<Path>)
    ensures var after := Exec(t, Refetches(agent, paths));
            && after.files == t.files
            && RecordCovers(Recorded(t, agent), Recorded(after, agent), t.files, paths)
  {
    hide Exec, EffectiveVersion;
    FetchesOnlyRecord(t, Refetches(agent, paths), agent, "");
    forall p
      ensures var seen := Recorded(Exec(t, Refetches(agent, paths)), agent);
              if p in paths then p in seen && seen[p] == EffectiveVersion(t.files, p)
              else (p in seen <==> p in Recorded(t, agent)) && (p in seen ==> seen[p] == Recorded(t, agent)[p])
    {
      FetchesOnlyRecord(t, Refetches(agent, paths), agent, p);
      RefetchesExact(agent, paths, p);
    }
    hide Recorded;
  }

  /** The fetches that rebuild the agent's read set. */
  ghost function ReadBlock(t: Tables, agent: AgentId): seq<Op> {
    Refetches(agent, SortedElements(Recorded(t, agent).Keys))
  }

  /** Only the accepted commits, in the order they landed, each right after the fetches of its read set. */
  ghost function SerialOps(t: Tables, ops: seq<Op>): seq<Op> {
    if ops == [] then []
    else
      var n := |ops| - 1;
      var now := Exec(t, ops[..n]);
      SerialOps(t, ops[..n])
      + if Accepts(now, ops[n]) then ReadBlock(now, ops[n].agent) + [ops[n]] else []
  }

  lemma ReadBlockCovers(t: Tables, agent: AgentId, p: Path)
    ensures Fetch(agent, p) in ReadBlock(t, agent) <==> p in Recorded(t, agent)
    ensures forall op | op in ReadBlock(t, agent) :: op.Fetch? && op.agent == agent
  {
    var paths := SortedElements(Recorded(t, agent).Keys);
    if p in Recorded(t, agent) {
      var k :| 0 <= k < |paths| && paths[k] == p;
      assert ReadBlock(t, agent)[k] == Fetch(agent, p);
    }
  }

  lemma {:induction false} FetchesTouchOneReadSet(t: Tables, fetches: seq<Op>, agent: AgentId)
    requires forall op | op in fetches :: op.Fetch? && op.agent == agent
    ensures Exec(t, fetches).readSets - {agent} == t.readSets - {agent}
  {
    if fetches != [] {
      var n := |fetches| - 1;
      assert fetches[n] in fetches;
      forall op | op in fetches[..n] ensures op.Fetch? && op.agent == agent { assert op in fetches; }
      FetchesTouchOneReadSet(t, fetches[..n], agent);
    }
  }

  /** Fetching the read set of an accepted commit again, on the same files, rebuilds that read set. */
  lemma BlockRebuildsReads(actual: Tables, serial: Tables, op: Op)
    requires Accepts(actual, op)
    requires serial.files == actual.files && op.agent !in serial.readSets
    ensures var ready := Exec(serial, ReadBlock(actual, op.agent));
            && ready.files == actual.files
            && Recorded(ready, op.agent) == Recorded(actual, op.agent)
            && ready.readSets - {op.agent} == serial.readSets
  {
    hide Exec, SortedElements, CommitStep, Moved, ReadBlock;
    var block := ReadBlock(actual, op.agent);
    var ready := Exec(serial, block);
    ReadBlockCovers(actual, op.agent, "");
    FetchesOnlyRecord(serial, block, op.agent, "");
    FetchesTouchOneReadSet(serial, block, op.agent);
    AcceptedCurrent(actual, op);
    forall p
      ensures p in Recorded(ready, op.agent) <==> p in Recorded(actual, op.agent)
      ensures p in Recorded(actual, op.agent) ==> Recorded(ready, op.agent)[p] == Recorded(actual, op.agent)[p]
    {
      ReadBlockCovers(actual, op.agent, p);
      FetchesOnlyRecord(serial, block, op.agent, p);
      if p in Recorded(actual, op.agent) {
        assert p in Expected(actual, op.agent, op.refs);
      }
    }
    assert Recorded(ready, op.agent) == Recorded(actual, op.agent);
    assert serial.readSets - {op.agent} == serial.readSets;
  }

  lemma AcceptedCurrent(t: Tables, op: Op)
    requires Accepts(t, op)
    ensures Current(t, op.agent, op.writes, op.refs)
  {
    AcceptedIffCurrent(t, op.agent, op.writes, op.refs);
  }

  /** A commit looks at the files and at its own agent's read set, and at nothing else. */
  lemma CommitDependsOnReads(a: Tables, b: Tables, op: Op)
    requires op.Commit? && WellFormed(op.writes)
    requires a.files == b.files && Recorded(a, op.agent) == Recorded(b, op.agent)
    ensures CommitStep(a, op.agent, op.taskId, op.writes, op.refs).1
            == CommitStep(b, op.agent, op.taskId, op.writes, op.refs).1
    ensures Step(a, op).files == Step(b, op).files
  {
    assert Expected(a, op.agent, op.refs) == Expected(b, op.agent, op.refs);
  }

  /**
   * On any store with the same files and no reads of this agent on record, the transaction rebuilds
   * its read set, gets the same answer and leaves the other agents' reads as they were.
   */
  lemma BlockReplays(actual: Tables, serial: Tables, op: Op)
    requires Accepts(actual, op)
    requires serial.files == actual.files && op.agent !in serial.readSets
    ensures var ready := Exec(serial, ReadBlock(actual, op.agent));
            && CommitStep(ready, op.agent, op.taskId, op.writes, op.refs).1
               == CommitStep(actual, op.agent, op.taskId, op.writes, op.refs).1
            && Step(ready, op).files == Step(actual, op).files
            && Step(ready, op).readSets == serial.readSets
  {
    hide Exec, ReadBlock, Moved;
    BlockRebuildsReads(actual, serial, op);
    var ready := Exec(serial, ReadBlock(actual, op.agent));
    CommitDependsOnReads(ready, actual, op);
    assert Step(ready, op).readSets == ready.readSets - {op.agent};
  }

  lemma ExecTransaction(t: Tables, before: seq<Op>, block: seq<Op>, op: Op)
    ensures Exec(t, before + block + [op]) == Step(Exec(Exec(t, before), block), op)
  {
    ExecAppend(t, before, block);
    assert (before + block + [op])[..|before + block|] == before + block;
  }

  lemma SerialOpsNext(t: Tables, ops: seq<Op>, i: nat)
    requires i < |ops|
    ensures SerialOps(t, ops[..i + 1]) ==
              if Accepts(At(t, ops, i), ops[i])
              then SerialOps(t, ops[..i]) + ReadBlock(At(t, ops, i), ops[i].agent) + [ops[i]]
              else SerialOps(t, ops[..i])
  {
    assert ops[..i + 1][..i] == ops[..i];
  }

  lemma RefusedLeavesFiles(t: Tables, op: Op)
    requires !Accepts(t, op)
    ensures Step(t, op).files == t.files
  {}

  /** One more operation of the run, and the transaction it adds to the serial run if it is accepted. */
  lemma SerialStep(t: Tables, ops: seq<Op>, i: nat)
    requires i < |ops|
    requires var serial := Exec(t, SerialOps(t, ops[..i]));
             serial.files == At(t, ops, i).files && serial.readSets == map[]
    ensures var serial := Exec(t, SerialOps(t, ops[..i + 1]));
            serial.files == Step(At(t, ops, i), ops[i]).files && serial.readSets == map[]
  {
    var now, op, before := At(t, ops, i), ops[i], SerialOps(t, ops[..i]);
    hide Accepts, Step, ReadBlock, SerialOps, Exec, At;
    SerialOpsNext(t, ops, i);
    if Accepts(now, op) {
      BlockReplays(now, Exec(t, before), op);
      ExecTransaction(t, before, ReadBlock(now, op.agent), op);
    } else {
      RefusedLeavesFiles(now, op);
    }
  }

  lemma {:induction false} SerialRunKeepsUp(t: Tables, ops: seq<Op>, i: nat)
    requires Fresh(t) && i <= |ops|
    ensures Exec(t, SerialOps(t, ops[..i])).files == At(t, ops, i).files
    ensures Exec(t, SerialOps(t, ops[..i])).readSets == map[]
  {
    if i == 0 {
      assert SerialOps(t, ops[..0]) == [] && Exec(t, []) == t;
      hide Exec, SerialOps;
    } else {
      hide Fresh, Step, SerialOps, Exec, At;
      SerialRunKeepsUp(t, ops, i - 1);
      SerialStep(t, ops, i - 1);
      AtNext(t, ops, i - 1);
    }
  }

  /** What the serial run is at an accepted commit: the earlier transactions, its fetches, then the commit. */
  ghost predicate SerialStepMatches(t: Tables, ops: seq<Op>, i: nat)
    requires i < |ops| && ops[i].Commit? && WellFormed(ops[i].writes)
  {
    var op := ops[i];
    var block := ReadBlock(At(t, ops, i), op.agent);
    var earlier := Exec(t, SerialOps(t, ops[..i]));
    // the transaction runs by itself, directly after the transactions that landed before it
    && SerialOps(t, ops[..i + 1]) == SerialOps(t, ops[..i]) + block + [op]
    // it fetches the paths its agent really fetched, and each fetch returns what the real one returned
    && (forall p :: Fetch(op.agent, p) in block <==> exists j :: IsLatestFetch(t, ops, j, i, op.agent, p))
    && (forall j, p | IsLatestFetch(t, ops, j, i, op.agent, p) ::
          Lookup(earlier.files, p) == Lookup(At(t, ops, j).files, p))
    // and its commit gets the real answer
    && CommitStep(Exec(earlier, block), op.agent, op.taskId, op.writes, op.refs).1
       == CommitStep(At(t, ops, i), op.agent, op.taskId, op.writes, op.refs).1
  }

  /**
   * Serializability: for every interleaving, the serial run of the accepted commits ends with the
   * same files, and every transaction in it reads and answers as it did in the real run.
   */
  lemma Serializable(t: Tables, ops: seq<Op>)
    requires Fresh(t)
    ensures Exec(t, SerialOps(t, ops)).files == Exec(t, ops).files
    ensures forall i | 0 <= i < |ops| && Accepts(At(t, ops, i), ops[i]) :: SerialStepMatches(t, ops, i)
  {
    SerialRunKeepsUp(t, ops, |ops|);
    assert ops[..|ops|] == ops;
    forall i | 0 <= i < |ops| && Accepts(At(t, ops, i), ops[i]) ensures SerialStepMatches(t, ops, i) {
      TransactionMatches(t, ops, i);
    }
  }

  lemma TransactionMatches(t: Tables, ops: seq<Op>, i: nat)
    requires Fresh(t) && i < |ops| && Accepts(At(t, ops, i), ops[i])
    ensures SerialStepMatches(t, ops, i)
  {
    var op, now := ops[i], At(t, ops, i);
    SerialRunKeepsUp(t, ops, i);
    SerialOpsNext(t, ops, i);
    BlockReplays(now, Exec(t, SerialOps(t, ops[..i])), op);
    forall p
      ensures Fetch(op.agent, p) in ReadBlock(now, op.agent) <==> exists j :: IsLatestFetch(t, ops, j, i, op.agent, p)
    {
      ReadBlockCovers(now, op.agent, p);
      ReadSetIsLatestFetches(t, ops, i, op.agent, p);
    }
    forall j, p | IsLatestFetch(t, ops, j, i, op.agent, p)
      ensures Lookup(Exec(t, SerialOps(t, ops[..i])).files, p) == Lookup(At(t, ops, j).files, p)
    {
      CommitSeesItsReads(t, ops, i, j, p);
    }
  }
}
