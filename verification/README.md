# Verified model of the multi-agent coordination server

This project models, in Dafny, the part of the server through which many agents edit one set of files:
the versioned file store with its optimistic concurrency check, the coordinator that owns the task
graph and hands tasks to their owners, the graph validation and the planner it relies on, the JSON
store underneath, and the command line client each agent uses. Every claim is about all inputs, all
interleavings and all runs of the modelled steps.

`dafny verify dfyconfig.toml` checks the whole project.

## How it is built

| module | models |
|---|---|
| Common, Ordering | identifiers, result types, the string order and the sort the code uses |
| Paths | path normalisation |
| FileStore | `fetch` and `commit`: specification functions, and a class that updates the tables in place |
| FileHistory, Serializability | any interleaving of fetches and commits |
| AgentCtl, ClientRuns | the client's `versions` and `edited`, its class, and the client and server together |
| ClientRecovery, AgentCtlGap | what a client can do after a refusal, and where its copies fall behind unnoticed |
| ClientWitness | runs that reach those states, from any store |
| Dag, DagTheory | `topoSort` and `validateDag`, and what a Kahn order means |
| Tasks, Scheduler, Planning | the task store and the planner, and what a plan marks, dispatches and leaves out |
| Coordinator, CoordinatorSafety, CoordinatorTheorems | the coordinator as a state machine, its invariant, what follows |
| Exclusion | exactly when assigned tasks write different files |
| Progress | why planning and finishing drains the graph |
| Handlers | the coordinator's handlers as methods over both stores, each proved to be a run of the machine |
| TickLoop | the re-entrant `tick` |
| JsonStore, Durability | the transactional store under crashes, and what that means for the files |
| CrashRuns | the coordinator's machine on that store: every crash and restart is a run of the machine |

Imperative code is modelled by classes and loops, and each method is proved to land where a
specification function lands; the properties are then proved of those functions over whole runs. The
atomic steps of the machines are single `mutate` blocks, which JsonStore justifies and CrashRuns proves
step by step. A tick is many steps (plan, each mark, each dispatch) and any other agent's steps may come
between them; a fetch of several paths is several steps; an agent has at most one request outstanding. A
write the store refuses breaks off the request or the tick it belongs to, and a process crash breaks off
all of them. In Handlers the field `run` is the machine's state, so the theorems about reachable states
hold of the stores too.

## Where the code keeps less than one might expect

* README.md:47-48 of the repository says that a task is dispatched only when its writes do not overlap
  a running task. Two routes break that: adoption by a task's creator checks no writes
  (`AdoptionIgnoresWrites`), and a plan made before an adoption is still dispatched after it
  (`StaleDispatchCollides`, reached by `CollisionIsReached`). `StepKeepsApartIff` and `RunKeepsApartIff`
  say exactly when assigned tasks stay disjoint; `WriteExclusion` says what holds in every reachable
  state.
* docs/AGENT_HARNESS.md:53-54 and docs/MESSAGE_PROTOCOL.md:127 say that the agent recovers from STALE by
  fetching the moved files and retrying. For the shipped client that holds if and only if none of the
  files it edited and tracks has been deleted (`RecoveryIff`, and `AnswerTellsIff` for what the refusal
  says about it); otherwise no command of its own can ever make a commit land (`StuckForever`,
  `RecoverableIff`), and that state is reached from any store (`StuckIsReached`). For a client that could
  rebase onto absence it holds if and only if it deletes no path that is gone (`StaleIsEnoughToRecover`).
* A fetch that is answered NOT_FOUND, or not answered at all, has already moved the server's record of
  the paths it looked up, while the client keeps its old versions and copies.
  `FetchKeepsAgreementIff`, `LostAnswerKeepsAgreementIff` and `UnansweredCommitKeepsAgreementIff` give
  the exact conditions for one command, `LandedCommitIsCurrentIff` for an accepted commit, and
  `FailedFetchUnlocksCommitIff` and `LostAnswerUnlocksCommitIff` those under which a refused commit is
  accepted after such a fetch. `StaleCopySlipsThrough` and `StaleCopySlipsThroughSilence` reach that
  from any store with one file.
* A delete with base 0 of an absent path is accepted; only a null base is refused
  (`DeleteOfAbsentIff`). So two writes based on absence can land without an accepted delete between
  them, exactly when the first is itself such a delete and nothing wrote the path in between
  (`NoLostCreation`, `CreatedAgainIff`).
* A body of the tick loop that throws while a further call waits loses that call: `WakeupLostIff`.
* Plans follow submissions, creations, done reports and drops only (coordinator.ts:105, 227, 242, 258);
  none follows an agent's becoming idle. `NothingDispatchedIff` says what a plan leaves behind: a ready
  task whose owner was busy then waits for the next such event.
* A task's `strikes` lag one behind its recorded rejections while the strike is being written, and for
  good if the store refuses that write (`StrikeAccounting`).

## Model

| member | source | states |
|---|---|---|
| Paths.NormalizeExact | apps/server/src/storage/file-store.ts:21-37 | A path comes out of normalisation exactly when it is the trimmed input and is non-empty, relative, free of backslashes and of empty, `.` and `..` segments; every other input is an error. |
| Paths.NormalizeIdempotent | apps/server/src/storage/file-store.ts:21-37 | Normalising a normal path changes nothing, so a path names the same table key however often it is normalised. |
| Paths.RefusedAs | apps/server/src/storage/file-store.ts:21-37 | Which refusal an input gets: a blank one, then one with a backslash, then one that starts with a slash once trimmed, and every other one for its segments. |
| Paths.TrimExact | apps/server/src/storage/file-store.ts:22 | Trimming takes whitespace off both ends and nothing else; `TrimmedEnds` says that none is left there. |
| Ordering.LessExact | apps/server/src/storage/file-store.ts:121 | The order by which keys and queues are sorted: a proper prefix comes first, and otherwise the string with the smaller character where the two first differ. |
| FileStore.FileStore.constructor | apps/server/src/storage/file-store.ts:57-58 | A new store holds the given files, no read sets, no events and counter 0. |
| FileStore.FileStore.Append | apps/server/src/storage/file-store.ts:39-55 | Appends one event numbered one above the counter and advances the counter to it. |
| FileStore.FileStore.Fetch | apps/server/src/storage/file-store.ts:67-86 | A bad path changes nothing; any other records the effective version for the agent, also when the answer is NOT_FOUND, leaves the files alone, and answers with the live file's version and text. |
| FileStore.FileStore.Commit | apps/server/src/storage/file-store.ts:88-179 | The imperative commit lands where the atomic specification lands, for every input including malformed ones, which leave the tables alone; an accepted one leaves each written path with its text, or as an empty tombstone, one raw version up, and answers with these versions. |
| FileStore.FileStore.Submit | apps/server/src/storage/file-store.ts:113-178 | The block inside `mutate`: a stale answer changes neither files nor read sets and adds a rejection event; an accepted one leaves exactly the written texts and tombstones, each one raw version up, and answers with these versions. |
| FileStore.FileStore.FindMoved | apps/server/src/storage/file-store.ts:114-135 | The two scanning loops collect precisely the specified list, expected reads in sorted order first, then writes in request order. |
| FileStore.FileStore.FindMovedReads | apps/server/src/storage/file-store.ts:121-127 | The scan over the sorted expected reads lists the mismatches in that order. |
| FileStore.FileStore.FindMovedWrites | apps/server/src/storage/file-store.ts:129-135 | The scan over the writes lists the mismatching bases in request order. |
| FileStore.FileStore.ApplyWrites | apps/server/src/storage/file-store.ts:148-161 | The in-place loop over the writes yields the specified table and reports one version above the old raw version for every path. |
| FileStore.CheckBatch | apps/server/src/storage/file-store.ts:98-107 | The one-pass scan with a set of seen paths finds the first write that repeats a path or deletes a file expected to be absent. |
| FileStore.BatchFaultExact | apps/server/src/storage/file-store.ts:98-107 | The fault reported is that of the first wrong write: a repeated path if it repeats one, otherwise a delete of a file expected to be absent. |
| FileStore.NoFaultMeansWellFormed | apps/server/src/storage/file-store.ts:98-107 | A batch passes the scan if and only if its paths are pairwise different and no delete has a null base. |
| FileStore.NormalizePaths | apps/server/src/storage/file-store.ts:94-97 | Normalises a list of paths, or reports the first that has no normal form. |
| FileStore.NormalizeAllExact | apps/server/src/storage/file-store.ts:94-97 | Each path comes back in its place in normal form, or else the error is that of the first path without one. |
| FileStore.PrepareExact | apps/server/src/storage/file-store.ts:94-111 | A request reaches the store with every path in normal form, text, base, delete flag and read versions as sent, no path twice and no delete on a null base; any other is refused for the first of: a bad write path, the first wrong write, a bad read path. |
| FileStore.SortedKeys | apps/server/src/storage/file-store.ts:121 | The sorted key list is the ascending duplicate-free listing of the expected reads, whatever order the map yields its keys in. |
| FileStore.ReportedReads | apps/server/src/storage/file-store.ts:116-119 | Later reports of a path override earlier ones. |
| FileStore.ExpectedExact | apps/server/src/storage/file-store.ts:116-120 | A path is expected at the version on the server's record if there is one, and otherwise at the one the request reports last; no other path is expected. |
| FileStore.MovedExact | apps/server/src/storage/file-store.ts:114-146 | `moved` holds an entry if and only if its path is an expected read or a write whose version `had` differs from the effective version, and that version is `now`. |
| FileStore.MovedOrder | apps/server/src/storage/file-store.ts:121-135 | `moved` follows the expected reads in path order, then the writes in request order. |
| FileStore.AcceptedIffCurrent | apps/server/src/storage/file-store.ts:114-137 | A commit is accepted if and only if every expected read and every write base equals the current effective version. |
| FileStore.ApplyExact | apps/server/src/storage/file-store.ts:148-161 | Landing a well-formed batch gives every written path its text (none if deleted), its author and its delete flag, one raw version up, and leaves every other path untouched. |
| FileHistory.VersionConservation | apps/server/src/storage/file-store.ts:148-161 | After any run the raw version of a path is its first version plus the number of accepted writes to it, through deletes and re-creations. |
| FileHistory.EventsNumberAttempts | apps/server/src/storage/file-store.ts:39-55 | After any run the counter equals the number of commits that reached the store, and event k carries number k. |
| FileHistory.StepEvents | apps/server/src/storage/file-store.ts:137-176 | A commit that reaches the store adds one event with its outcome, agent and task, numbered next; nothing else adds any. |
| FileHistory.FetchAnswers | apps/server/src/storage/file-store.ts:67-86 | A fetch changes nothing but its agent's record of that path, which becomes the live version or 0, and answers with the live file's version and text or NOT_FOUND. |
| FileHistory.LandedExact | apps/server/src/storage/file-store.ts:148-161 | After an accepted commit each written path holds its text (empty for a delete), author and delete flag, one raw version up. |
| FileHistory.WriteThenFetch | apps/server/src/storage/file-store.ts:67-161 | Round trip: after an accepted commit anybody's fetch of a written path answers with the committed text one raw version up, or with NOT_FOUND if it was a delete. |
| FileHistory.AnswerNamesVersions | apps/server/src/storage/file-store.ts:148-178 | The answer to an accepted commit names exactly the written paths, each with the version now stored. |
| FileHistory.CounterFreezesEntry | apps/server/src/storage/file-store.ts:150-161 | If a path has the same raw version at two moments of a run, its whole entry was the same all the way between them. |
| FileHistory.VersionNamesContent | apps/server/src/storage/file-store.ts:18-19 | No ABA: if a path has the same effective version at two moments of a run, a fetch answers the same at both, the same content or absent. |
| FileHistory.NoLostUpdate | apps/server/src/storage/file-store.ts:129-161 | Two accepted commits never write one path on the same positive base, so of any number of concurrent commits on one live version at most one lands. |
| FileHistory.AbsenceNeedsDelete | apps/server/src/storage/file-store.ts:129-161 | If a path was live at one moment of a run and absent at a later one, an accepted delete of it lies between. |
| FileHistory.NoLostCreation | apps/server/src/storage/file-store.ts:129-161 | Between two accepted writes of a path that both expected absence lies an accepted delete of it if and only if the first was no delete itself or some accepted commit wrote the path in between. |
| FileHistory.CreatedAgainIff | apps/server/src/storage/file-store.ts:98-161 | Directly after an accepted write on absence, a second one by an agent with nothing on record is accepted if and only if the first was a delete: so the exception is real in every state. |
| FileHistory.DeleteOfAbsentIff | apps/server/src/storage/file-store.ts:104-106 | On any table, a delete of an absent path by an agent with nothing on record is accepted if and only if it is on base 0; the null base is the only one the request check refuses. |
| FileHistory.AcceptedDeleteOfAbsent | apps/server/src/storage/file-store.ts:104-135 | Any accepted delete of an absent path, in any commit, was on base 0. |
| FileHistory.RejectionChangesNothing | apps/server/src/storage/file-store.ts:137-146 | A stale commit leaves every file and every read set as it was. |
| FileHistory.StaleIsEnoughToRecover | apps/server/src/storage/file-store.ts:114-146 | After a rejection, the agent fetches every moved path (in any order, among any fetches of others) and rebases its writes on `now`: the resubmission is accepted if and only if it deletes no path that is gone. |
| FileHistory.RunKeepsFilesValid | apps/server/src/storage/file-store.ts:148-161 | In every run each stored file sits under its own path with a version of at least 1. |
| Serializability.ReadSetIsLatestFetches | apps/server/src/storage/file-store.ts:67-86 | At any moment an agent's recorded read set holds, for exactly the paths it fetched since its last accepted commit, the version its latest fetch saw. |
| Serializability.FetchesRecord | apps/server/src/storage/file-store.ts:67-86 | After fetching some paths in a row the agent's record is as before but for exactly those paths, each with its effective version. |
| Serializability.CommitSeesItsReads | apps/server/src/storage/file-store.ts:114-137 | At its commit point every accepted commit would re-read, for each path it fetched since its last accepted commit, the very answer of its latest fetch. |
| Serializability.BlockReplays | apps/server/src/storage/file-store.ts:113-178 | On any store with the same files and no reads of this agent on record, whatever other agents have read, the transaction (the reads, then the commit) gets the same answer, writes the same files and leaves the other read sets alone. |
| Serializability.SerialRunKeepsUp | apps/server/src/storage/file-store.ts:113-178 | Replaying only accepted transactions one at a time has the same files as the interleaved run at every moment, not only at the end. |
| Serializability.Serializable | apps/server/src/storage/file-store.ts:67-179 | Any interleaving of fetches and commits has the files of the serial run of its accepted transactions in log order, and each of those gets, alone, the fetch answers and the commit answer it got. |
| AgentCtl.AgentCtl.constructor | apps/server/src/agent-harness/agentctl.mjs:227-229 | A session starts with nothing pulled and nothing edited. |
| AgentCtl.AgentCtl.TakeFiles | apps/server/src/agent-harness/agentctl.mjs:434-450 | Taking in a fetch answer sets the versions of exactly the returned files, takes them off the edited list and writes their contents to the workspace. |
| AgentCtl.WrittenExact | apps/server/src/agent-harness/agentctl.mjs:446-448 | Afterwards each returned path holds the content of the copy the client goes by, and every other workspace file is as it was. |
| AgentCtl.AgentCtl.MarkEdited | apps/server/src/agent-harness/agentctl.mjs:460-469 | The edited list becomes the sorted duplicate-free union with the marked paths. |
| AgentCtl.AgentCtl.BuildCommit | apps/server/src/agent-harness/agentctl.mjs:474-513 | One write per edited path, in order: the text of the workspace file, or a delete when it is gone but tracked, based on the tracked version; no request exactly when some edited file is gone and untracked. The reads are exactly the other tracked paths with their versions. |
| AgentCtl.AgentCtl.Forget | apps/server/src/agent-harness/agentctl.mjs:515-516 | An accepted commit clears versions and edits. |
| AgentCtl.Dropping | apps/server/src/agent-harness/agentctl.mjs:449 | Filtering a path out of the edited list removes every occurrence and keeps the order of the rest. |
| AgentCtl.SortedUnion | apps/server/src/agent-harness/agentctl.mjs:465 | Spread into a set and sorted: ascending, no repeats, exactly the elements of both lists. |
| AgentCtl.AfterFetchExact | apps/server/src/agent-harness/agentctl.mjs:434-450 | After a successful fetch the tracked version and the copy of a path are those of the last returned file for it, and unchanged if none was returned. |
| AgentCtl.BuildWritesExact | apps/server/src/agent-harness/agentctl.mjs:479-502 | Write k is for the k-th edited path: a delete exactly when the workspace lacks it, otherwise with the workspace's text, on the tracked version or none; no list exactly when some path is neither in the workspace nor tracked. |
| AgentCtl.ReadRefsExact | apps/server/src/agent-harness/agentctl.mjs:503-506 | The reads sent are exactly the tracked, unedited paths, each with its tracked version. |
| AgentCtl.ReplyExact | apps/server/src/router/router.ts:171-179 | The fetch reply is all or nothing: every file in request order if all were found, otherwise NOT_FOUND with exactly the missing paths, in the order asked. |
| AgentCtl.ActKeepsInv | apps/server/src/agent-harness/agentctl.mjs:321-347 | Every client or server action keeps the invariant: multi-path fetches interleaved with other agents, and commands that end without an answer at any point, included. |
| AgentCtl.InvAlways | apps/server/src/agent-harness/agentctl.mjs:415-520 | The invariant holds after every sequence of actions of any number of agents. |
| AgentCtl.ClientAgreesWithServer | apps/server/src/agent-harness/agentctl.mjs:415-520 | In any run, whenever an agent is between commands, `state.versions` equals `reads[agent]`, if since the last commit it knows to be accepted its fetches were answered with every path and it missed no answer to an accepted commit. |
| AgentCtl.FetchKeepsAgreementIff | apps/server/src/agent-harness/agentctl.mjs:434-459 | For an agent in agreement, an answered fetch keeps client and server in agreement if and only if every requested path was found. |
| AgentCtl.LostAnswerKeepsAgreementIff | apps/server/src/agent-harness/agentctl.mjs:321-347 | A fetch broken off or unanswered at any point keeps agreement if and only if everything it had looked up was known to the client in that version. |
| AgentCtl.UnansweredCommitKeepsAgreementIff | apps/server/src/agent-harness/agentctl.mjs:321-347 | A commit without an answer keeps agreement if and only if it was refused or the client tracked nothing. |
| AgentCtl.PulledIsCurrentIff | apps/server/src/storage/file-store.ts:148-161 | A pulled copy is what a fetch would return now if and only if its version is the effective version. |
| AgentCtl.LandedCopyIff | apps/server/src/agent-harness/agentctl.mjs:472-520 | When a commit lands, a copy the client holds is current if and only if it is written, or the server's record does not hold another version of it than the client reports. |
| AgentCtl.LandedCommitIsCurrentIff | apps/server/src/agent-harness/agentctl.mjs:472-520 | In every run, lost answers included, an accepted commit means that unfetched written paths were absent; it means that every copy the client holds is current if and only if the record overrides none of the versions it reports for what it read; answered commands with complete fetches are enough for that. |
| AgentCtl.ReadsReported | apps/server/src/agent-harness/agentctl.mjs:503-506 | The reads reported are exactly the tracked paths that are not written, with their tracked versions. |
| AgentCtlGap.FailedFetchUnlocksCommitIff | apps/server/src/router/router.ts:171-179 | A refused agent fetches the moved paths together with one that does not exist and is told NOT_FOUND: its versions and copies are unchanged, and the very commit that was refused is now accepted if and only if no file it writes has moved. |
| AgentCtlGap.LostAnswerUnlocksCommitIff | apps/server/src/agent-harness/agentctl.mjs:321-347 | The same for a fetch whose answer is lost after the moved paths were looked up, whether or not all were found. |
| ClientWitness.StaleCopySlipsThrough | apps/server/src/router/router.ts:171-179 | From any store with a file p and an absent path q, any two agents reach a state in which a commit is refused because p has moved and, after a failed fetch of p and q, accepted with the old copy of p in hand. |
| ClientWitness.StaleCopySlipsThroughSilence | apps/server/src/agent-harness/agentctl.mjs:321-347 | The same with a fetch of p alone that finds it and whose answer is lost. |
| ClientWitness.StuckIsReached | apps/server/src/agent-harness/agentctl.mjs:472-520 | From any store with a file p: two agents pull it, one deletes it, the other edits it; that one's commit is refused whatever its workspace holds, and no sequence of its own commands ever makes one land. |
| ClientRuns.FetchRunIs | apps/server/src/agent-harness/agentctl.mjs:415-458 | A whole fetch command, with nobody in between, puts every asked path on the server's record and gives the client all of the files or none. |
| ClientRuns.LostRunIs | apps/server/src/agent-harness/agentctl.mjs:321-347 | A fetch whose answer is lost after k paths puts those k on the server's record and changes nothing at the client. |
| ClientRuns.EditedAfterFetch | apps/server/src/agent-harness/agentctl.mjs:449 | A fetch takes exactly the returned files off the edited list. |
| ClientRecovery.RefetchEach | apps/server/src/agent-harness/agentctl.mjs:415-458 | Fetching paths one command at a time puts them all on record and brings the client up to date on exactly the live ones. |
| ClientRecovery.StuckForever | apps/server/src/agent-harness/agentctl.mjs:472-520 | An agent that edited a file it tracks and somebody else deleted stays stuck through any run of any agents in which no other agent writes the path: no commit of its own lands. |
| ClientRecovery.GoneEditsAreFinal | apps/server/src/agent-harness/agentctl.mjs:415-520 | No sequence of an agent's own commands makes a commit land once a tracked edit is gone. |
| ClientRecovery.RecoveryIff | apps/server/src/agent-harness/agentctl.mjs:415-520 | After a refusal the agent refetches each moved path and marks its edits again: its next commit lands if and only if none of the files it edited and tracks has been deleted. |
| ClientRecovery.RecoverableIff | apps/server/src/agent-harness/agentctl.mjs:415-520 | A refused agent has some sequence of its own commands after which a commit lands if and only if none of its tracked edits is gone. |
| ClientRecovery.AnswerTellsIff | apps/server/src/storage/file-store.ts:114-146 | The client can read it off the refusal: none of its tracked edits is gone if and only if no edited, tracked path is reported with `now` 0. |
| Dag.TopoSort | apps/server/src/task-server/dag.ts:64-101 | For any input, with repeated ids and edges, the in-place algorithm terminates with the Kahn order (each id the least ready one when placed, none ready left) and returns as cycle nodes the unplaced ids in first-seen order. |
| Dag.FirstSeenOrder | apps/server/src/task-server/dag.ts:64-70 | The listing behind the cycle nodes follows the batch: of two ids the one met first comes first (`UnplacedOrder`: the unplaced ones keep that order). |
| Dag.BuildGraph | apps/server/src/task-server/dag.ts:67-79 | The maps hold, for every id, the number of its in-batch edges and the list of ids waiting on it, with repetitions. |
| Dag.Release | apps/server/src/task-server/dag.ts:86-95 | Placing an id lowers exactly its successors' counts and queues those that reach zero, once each. |
| DagTheory.KahnRespectsEdges | apps/server/src/task-server/dag.ts:81-95 | In the order every id comes after all in-batch ids it depends on, and if no id is left over every in-batch edge is respected. |
| DagTheory.CycleNodesExact | apps/server/src/task-server/dag.ts:97-100 | The ids left out are exactly those on a cycle or downstream of one. |
| DagTheory.NoCycleNodesIffAcyclic | apps/server/src/task-server/dag.ts:97-100 | `cycleNodes` is empty if and only if the in-batch graph has no cycle. |
| DagTheory.KahnOrderExists | apps/server/src/task-server/dag.ts:81-95 | Every batch has such an order. |
| DagTheory.LeastTopologicalOrder | apps/server/src/task-server/dag.ts:81-95 | On an acyclic batch the order is lexicographically least among all topological orders. |
| DagTheory.InputOrderIsIrrelevant | apps/server/src/task-server/dag.ts:64-101 | Two batches of the same tasks get the same order, however the tasks are arranged or repeated. |
| DagTheory.ValidateDag | apps/server/src/task-server/dag.ts:34-62 | Accepts if and only if ids are fresh and distinct, dependencies are known and the batch is acyclic; otherwise reports exactly the duplicate ids in scan order, the unknown dependencies of each task, then the cycle. |
| DagTheory.DuplicatesExact | apps/server/src/task-server/dag.ts:39-47 | The scan lists each id already taken when its task is met, once. |
| DagTheory.DuplicatesOrder | apps/server/src/task-server/dag.ts:39-47 | The duplicates come in the order of the tasks at which they are first found taken. |
| DagTheory.UnknownErrorsExact | apps/server/src/task-server/dag.ts:49-54 | There is one unknown-dependency error for each task that has any, in the order of the tasks, with its id and what it misses. |
| DagTheory.MissingExact | apps/server/src/task-server/dag.ts:50 | What a task misses is each dependency that is in neither the store nor the batch, as often as it lists it and in that order. |
| DagTheory.GraphErrorsExact | apps/server/src/task-server/dag.ts:34-62 | The report, error by error: the duplicates can only come first and name exactly the ids already taken, the cycle can only come last and names exactly the ids on or below a cycle, and every error between is that of some task and names exactly what it misses. |
| DagTheory.MissingDeps | apps/server/src/task-server/dag.ts:50 | Filters a task's dependencies down to those in neither the store nor the batch, in order. |
| DagTheory.NoUnknownIff | apps/server/src/task-server/dag.ts:49-54 | There is no unknown-dependency error if and only if every dependency is known. |
| DagTheory.NoDuplicatesIff | apps/server/src/task-server/dag.ts:39-47 | There is no duplicate-id error if and only if all ids are new and pairwise different. |
| DagTheory.GoodIffNoErrors | apps/server/src/task-server/dag.ts:34-62 | A batch is good if and only if there is nothing to report. |
| Tasks.TaskStore.constructor | apps/server/src/task-server/task-store.ts:11-12 | A new task store is empty. |
| Tasks.TaskStore.Lookup | apps/server/src/task-server/task-store.ts:22-24 | Finds the first task with the id, or nothing. |
| Tasks.TaskStore.CreateMany | apps/server/src/task-server/task-store.ts:26-42 | Appends the batch as it is, each task blocked exactly if it has dependencies and unassigned otherwise, without strikes, at the given time. |
| Tasks.TaskStore.Overwrite | apps/server/src/task-server/task-store.ts:44-56 | Overwrites state and strikes, where given, of the first task with the id and nothing else; an unknown id changes nothing. |
| Tasks.UpdateExact | apps/server/src/task-server/task-store.ts:44-56 | With unique ids an update changes the named fields of the task with its id and no other task. |
| Tasks.FindUnique | apps/server/src/task-server/task-store.ts:22-24 | With unique ids, looking a task up by its id finds that very task. |
| Coordinator.ViewUpdate | apps/server/src/task-server/task-store.ts:44-56 | With unique ids an update changes exactly the entry of its id in the table of tasks and keeps ids unique. |
| Coordinator.ViewAppend | apps/server/src/task-server/task-store.ts:26-42 | Appending tasks with new unique ids adds exactly their entries to the table and keeps ids unique. |
| Scheduler.WritesOverlap | apps/server/src/task-server/intent-graph.ts:10-17 | A conflict is reported if and only if the lists share a path, and it is the first such path of the second list. |
| Scheduler.CheckConflicts | apps/server/src/task-server/intent-graph.ts:19-24 | True if and only if some other list shares a path with the candidate. |
| Scheduler.ByTimeExact | apps/server/src/task-server/scheduler.ts:25 | The sort yields the same tasks in creation order and keeps tasks of the same instant in their stored order. |
| Scheduler.ComputePlan | apps/server/src/task-server/scheduler.ts:20-54 | The loops compute exactly the plan that PlanMarks, PlanDispatch and PlanLeavesOut describe. |
| Planning.PlanMarks | apps/server/src/task-server/scheduler.ts:25-32 | A plan marks exactly the blocked tasks whose dependencies are all done, once each, in creation order, equal times in stored order. |
| Planning.PlanDispatch | apps/server/src/task-server/scheduler.ts:34-51 | A plan dispatches ready tasks to their idle owners, no two of one owner or with a common path, none with a path of an assigned task, and in creation order, equal times in stored order. |
| Planning.PlanLeavesOut | apps/server/src/task-server/scheduler.ts:34-51 | A ready task with an idle owner is dispatched, or it writes a path of an assigned task, or an earlier task in that order is dispatched that has its owner or one of its paths. |
| Planning.ReadyIff | apps/server/src/task-server/scheduler.ts:36-38 | Ready tasks, unassigned or blocked with every dependency done, are exactly what the planner's loops go through. |
| Scheduler.CollectMarks | apps/server/src/task-server/scheduler.ts:27-32 | The marking loop. |
| Scheduler.Dispatch | apps/server/src/task-server/scheduler.ts:40-51 | The dispatch loop with its reserved agents and projected writes makes the same choices as checking each task against everything already chosen. |
| Scheduler.MarksExact | apps/server/src/task-server/scheduler.ts:27-32 | An id is marked if and only if it belongs to a blocked task whose dependencies are all done. |
| Scheduler.CandidatesExact | apps/server/src/task-server/scheduler.ts:36-38 | A task is dispatchable if and only if it is unassigned or has just been marked, and the dispatchable tasks keep the order of the sort. |
| Scheduler.GreedyCompatible | apps/server/src/task-server/scheduler.ts:43-51 | The dispatched tasks have idle, pairwise different owners, and write disjointly from each other and from everything assigned. |
| Scheduler.GreedyMaximal | apps/server/src/task-server/scheduler.ts:43-51 | Every owned candidate with an idle owner is dispatched, or an assigned task or an earlier dispatched candidate has its owner or its paths; so nothing more could be added. |
| Scheduler.DecisionsExact | apps/server/src/task-server/scheduler.ts:48 | The decisions name the dispatched tasks and their owners, in order. |
| Scheduler.UnblockedIds | apps/server/src/task-server/dag.ts:103-113 | The ids of the blocked and unassigned tasks whose dependencies are all done. |
| CoordinatorSafety.NextKeeps | apps/server/src/task-server/coordinator.ts:95-260 | Every single step, any tick step against any state it finds, and any request or tick broken off because the store refuses a write, keeps the invariant of graph, dependencies, exclusion, pending plan, outstanding requests and strikes. |
| CoordinatorSafety.RunKeeps | apps/server/src/task-server/coordinator.ts:95-260 | So does every sequence of steps. |
| CoordinatorSafety.Reachable | apps/server/src/task-server/coordinator.ts:95-260 | The invariant holds in every state reachable from an empty task list. |
| CoordinatorSafety.PlanMarksOk | apps/server/src/task-server/scheduler.ts:27-32 | A plan marks distinct blocked tasks whose dependencies are done. |
| CoordinatorSafety.PlanDispatchOk | apps/server/src/task-server/scheduler.ts:40-51 | What a plan dispatches is pairwise write-disjoint and disjoint from every running task nobody adopted: the fact that lets it be applied late. |
| CoordinatorSafety.PushFailureRestores | apps/server/src/task-server/coordinator.ts:146-152 | A failed push puts the task back as it was. |
| CoordinatorTheorems.DependenciesBeforeStart | apps/server/src/task-server/scheduler.ts:27-38 | In every reachable state a task that is not blocked has all its dependencies done, although unassigned tasks are never rechecked and marks come from an old snapshot. |
| CoordinatorTheorems.GraphStaysSound | apps/server/src/task-server/coordinator.ts:95-107 | In every reachable state ids are unique, every dependency is stored, and no task depends on itself through others, although only each new batch is sorted. |
| CoordinatorTheorems.StepFollows | apps/server/src/task-server/coordinator.ts:126-260 | No step removes a task, changes its owner, dependencies or writes, or leaves done or dropped. |
| CoordinatorTheorems.RunFollows | apps/server/src/task-server/coordinator.ts:126-260 | Nor does any run. |
| CoordinatorTheorems.DroppedPoisonsDescendants | apps/server/src/task-server/coordinator.ts:221-229 | Once a task is dropped, everything that transitively depends on it is blocked then and in every later state. |
| CoordinatorTheorems.WriteExclusion | apps/server/src/task-server/coordinator.ts:126-154 | In every reachable state, plans applied late and in pieces, two assigned tasks with overlapping writes include one adopted by its creator. |
| CoordinatorTheorems.WriteExclusionWithoutAdoption | apps/server/src/task-server/scheduler.ts:40-51 | In runs without adoption assigned tasks always write pairwise disjointly. |
| CoordinatorTheorems.AdoptionIgnoresWrites | apps/server/src/task-server/coordinator.ts:245-260 | In any reachable state with a running task that writes something, a create request by any agent that has none outstanding leaves two assigned tasks with overlapping writes. |
| Exclusion.StepKeepsApartIff | apps/server/src/task-server/coordinator.ts:126-260 | The exact condition: from any state in which assigned tasks write pairwise disjointly, a step keeps them so if and only if it does not adopt, or dispatch, a task beside a running one that shares a file with it. |
| Exclusion.RunKeepsApartIff | apps/server/src/task-server/coordinator.ts:126-260 | Assigned tasks write pairwise disjointly throughout a run if and only if no step of it is such a collision. |
| Exclusion.CollidingDispatchMeetsAdopted | apps/server/src/task-server/coordinator.ts:135-144 | A dispatch that collides always meets a running task its creator adopted. |
| Exclusion.StaleDispatchCollides | apps/server/src/task-server/coordinator.ts:126-144 | Whatever clear dispatch a tick still has to apply, any agent without an outstanding request can adopt a task with the same writes first: nothing overlaps then, and the late dispatch puts its task beside the running one. |
| Exclusion.CollisionIsReached | apps/server/src/task-server/coordinator.ts:95-154 | From any store, for any task, owner and adopting agent: submit, plan, create, adopt, dispatch reaches such a collision, and nothing overlaps before the dispatch. |
| CoordinatorTheorems.StrikeAccounting | apps/server/src/task-server/coordinator.ts:196-229 | In every reachable state a task's refused commits number its strikes, plus those the store refused to write, plus one exactly while its owner's strike is still to be written; strikes never exceed 3, and are 3 if and only if the task is dropped. |
| CoordinatorTheorems.RejectionsAreBounded | apps/server/src/task-server/occ.ts:38-46 | Over a whole run refused commits never exceed three per stored task and one per strike the store refused to write. |
| CoordinatorTheorems.NothingLost | apps/server/src/task-server/coordinator.ts:209-224 | Strikes go unwritten only when a request is broken off: otherwise three per stored task is the bound. |
| CoordinatorTheorems.ReadinessAgrees | apps/server/src/task-server/dag.ts:103-113 | In every reachable state `unblockedIds` lists exactly what a plan treats as dispatchable. |
| CoordinatorTheorems.CoordinatedFilesAreSerializable | apps/server/src/task-server/coordinator.ts:165-229 | Whatever the coordinator interleaves, the file operations it issued form a serializable run with these tables. |
| Progress.PlanFindsWork | apps/server/src/task-server/scheduler.ts:20-54 | With nothing assigned, a task neither done, dropped nor behind a dropped one, and idle owners, the plan dispatches something. |
| Progress.NothingDispatchedIff | apps/server/src/task-server/scheduler.ts:43-51 | A plan dispatches nothing if and only if every ready task is unowned, has a busy owner or meets an assigned task; these wait for the next event that starts a plan. |
| Progress.PlannerNeverStalls | apps/server/src/task-server/scheduler.ts:20-54 | The same in every reachable state. |
| Progress.RoundEnds | apps/server/src/task-server/coordinator.ts:126-154 | A tick followed by the completion of what it dispatched turns exactly the dispatched tasks to done and the other marked ones to unassigned, and ends quiet. |
| Progress.RoundShrinks | apps/server/src/task-server/scheduler.ts:20-54 | Each round lowers the number of live tasks. |
| Progress.RoundsDrain | apps/server/src/task-server/scheduler.ts:20-54 | After any number of rounds the live tasks left are at most those at the start less the number of rounds. |
| Progress.TasksDrain | apps/server/src/task-server/coordinator.ts:110-154 | From any reachable quiet state with idle owners, at most as many rounds as stored tasks leave every task done, dropped, or blocked behind a dropped one. |
| TickLoop.BodiesNeverOverlap | apps/server/src/task-server/coordinator.ts:110-124 | In every run of calls, returns and throws one body is running while `ticking` is set and none otherwise. |
| TickLoop.PendingIffUnserved | apps/server/src/task-server/coordinator.ts:110-124 | `pendingTick` is set if and only if some call has had no body start at it or after it. |
| TickLoop.NoLostWakeup | apps/server/src/task-server/coordinator.ts:110-124 | If no body throws, an unserved call implies both flags, and whenever the loop is idle every call has been served. |
| TickLoop.WakeupLostIff | apps/server/src/task-server/coordinator.ts:116-123 | With throwing bodies, an idle loop has an unserved call if and only if its last body threw with the flag set and nobody called since. |
| TickLoop.BodiesStartForCalls | apps/server/src/task-server/coordinator.ts:110-124 | A body starts at a call that finds the loop idle, or when a body returns while some call is unserved, and at no other moment. |
| TickLoop.Ticker.constructor | apps/server/src/task-server/coordinator.ts:62-63 | Both flags start clear. |
| TickLoop.Ticker.Tick | apps/server/src/task-server/coordinator.ts:110-118 | A call starts a body unless one is running, and otherwise leaves the flag. |
| TickLoop.Ticker.Returned | apps/server/src/task-server/coordinator.ts:117-123 | A returning body is followed by another if and only if the flag is set, which is cleared. |
| TickLoop.Ticker.Threw | apps/server/src/task-server/coordinator.ts:121-123 | A throwing body clears `ticking` and leaves the flag as it is. |
| JsonStore.ReloadIsIdentityIff | apps/server/src/store.ts:56-64 | Filling in defaults gives a saved database back unchanged if and only if it still has every demo path. |
| JsonStore.DefaultsOnlyFill | apps/server/src/store.ts:56-64 | Defaults fill in missing demo paths and missing tables and nothing else: every stored entry, deleted or not, and every stored table stays as it is. |
| JsonStore.ReachableReloadIsIdentity | apps/server/src/store.ts:56-64 | So it is the identity on every database that runs from the empty one leave on disk. |
| JsonStore.StepKeeps | apps/server/src/store.ts:93-113 | Every step of the queue, the file operations, a crash or a restart keeps the store's invariant. |
| JsonStore.PlayKeeps | apps/server/src/store.ts:72-113 | It holds after every sequence of steps. |
| JsonStore.CrashConsistency | apps/server/src/store.ts:72-113 | A crash at any point followed by `initialize` restores the calls that took effect, applied in order: what memory held, or that plus the one call already renamed; each crash leaves at most one unacknowledged call in effect. |
| JsonStore.MutateIsAtomic | apps/server/src/store.ts:93-104 | A call is answered, with memory and file both its result, exactly when it does not throw and both file operations succeed; otherwise memory and file are unchanged; the queue moves on either way. |
| JsonStore.ReadersSeeWholeMutations | apps/server/src/store.ts:89-104 | Memory changes only by publishing one whole mutation, so each `mutate` block is one atomic step to every reader. |
| JsonStore.FatesMove | apps/server/src/store.ts:93-113 | A queued call is settled in one way only: refused by its own error or a failed write or rename, landed by its rename, answered once landed, or cut off by a crash, which leaves no call open. |
| JsonStore.OneCallIs | apps/server/src/store.ts:93-113 | The four small steps of a call compose to the store's one-step effect in each of the four outcomes. |
| JsonStore.JsonStore.constructor | apps/server/src/store.ts:66-70 | A new store holds the empty database whatever is on disk. |
| JsonStore.JsonStore.Initialize | apps/server/src/store.ts:72-87 | Loads the file there is, with defaults filled in and nothing written; with none it saves the empty database, if write and rename succeed. It is the machine's restart step. |
| JsonStore.JsonStore.Snapshot | apps/server/src/store.ts:89-91 | A reader at any moment, also while a call is mutated, saved or renamed, sees the empty database with exactly the published calls that took effect applied in order. |
| JsonStore.JsonStore.Persist | apps/server/src/store.ts:106-113 | Touches the main file only by a successful rename after a successful write, and never memory. |
| JsonStore.JsonStore.Mutate | apps/server/src/store.ts:93-104 | The caller is answered exactly when the mutation does not throw and write and rename succeed, with memory and main file both its result; otherwise both stay as they were. It ends where the machine's four steps end. |
| Durability.FileOperationsKeepFiles | apps/server/src/storage/file-store.ts:150-161 | Fetches and commits never remove a key of the file table, since deletes leave tombstones. |
| Durability.TaskMutationsKeepTables | apps/server/src/task-server/task-store.ts:38-51 | `createMany`, `update` and `setState` never touch the file store's tables. |
| Durability.CoordinatedIsHarmless | apps/server/src/store.ts:56-64 | Runs of file operations and task updates are of the kind whose databases reload unchanged. |
| Durability.ReplayIsARun | apps/server/src/store.ts:93-104 | Replaying the surviving calls, file operations and task updates mixed, is for the tables an uninterrupted run of the surviving file operations. |
| Durability.DiskIsSerializable | apps/server/src/store.ts:72-113 | With fetches, commits and task updates on one queue, and crashes, refusals and restarts at any point, the file tables on disk are those of one uninterrupted run of the operations that took effect; that run is serializable, transaction by transaction. |
| Durability.RestartIsSerializable | apps/server/src/store.ts:72-113 | After a crash and a restart the server goes on from such tables. |
| CrashRuns.StepIsItsCalls | apps/server/src/task-server/coordinator.ts:95-260 | A step of the coordinator's machine does to tasks and tables exactly what the mutations it hands to the store do to the database: one, none, or two for a failed push. |
| CrashRuns.RunIsItsCalls | apps/server/src/task-server/coordinator.ts:95-260 | So does a whole run. |
| CrashRuns.CutExact | apps/server/src/task-server/coordinator.ts:126-154 | Any prefix of a run's mutations is all of those of another run of the machine. |
| CrashRuns.CrashIs | apps/server/src/store.ts:93-104 | Breaking off the tick and every request leaves tasks and tables alone and nothing under way. |
| CrashRuns.LivedExact | apps/server/src/store.ts:72-113 | Lives of the server, each cut by a crash after some prefix of its mutations took effect, are together one run of the machine. |
| CrashRuns.DiskIsReachable | apps/server/src/store.ts:72-113 | For any run of the store whose calls took effect as some lives of the coordinator handed them in, crashes, refusals and restarts included, what is on disk is the state of one run of the machine and satisfies its invariant. |
| Handlers.TaskServer.constructor | apps/server/src/task-server/coordinator.ts:66-72 | A server over an empty task store starts in the machine's boot state. |
| Handlers.TaskServer.Validate | apps/server/src/task-server/coordinator.ts:96-103 | Finds no fault if and only if the batch is a good extension of the stored graph and every named owner exists; otherwise the graph faults, or failing those the first unknown owner. |
| Handlers.OneBatchAnswer | apps/server/src/task-server/coordinator.ts:96-103 | That description leaves only one answer for every batch. |
| Handlers.FaultIffUnacceptable | apps/server/src/task-server/coordinator.ts:96-103 | A fault is reported exactly for the batches the machine does not accept. |
| Handlers.TaskServer.SubmitTasks | apps/server/src/task-server/coordinator.ts:95-107 | Stores exactly the acceptable batches, as the machine's submit step; any other changes nothing and is refused with its one fault. |
| Handlers.TaskServer.CheckReport | apps/server/src/task-server/coordinator.ts:187-194 | Refuses an unknown task, then one not assigned, then one of another owner, in that order. |
| Handlers.ReportFaultExact | apps/server/src/task-server/coordinator.ts:187-194 | An unknown id gets one refusal, a task that is not assigned the second, with its state, and another agent's task the third; only the owner of an assigned task gets none. |
| Handlers.TaskServer.EvaluateCommit | apps/server/src/task-server/occ.ts:31-48 | One store commit, then committed, retry with one more strike, or exhausted at the third. |
| Handlers.TaskServer.CommitFor | apps/server/src/task-server/coordinator.ts:196-228 | A stale answer writes the strike, dropping the task at the third; any other answer leaves the tasks alone. |
| Handlers.TaskServer.OnCommit | apps/server/src/task-server/coordinator.ts:186-229 | For every request both stores end where the machine's commit steps end; a stale answer costs exactly the named task one strike and drops it at the third, and any other answer leaves every task alone. |
| Handlers.StruckExact | apps/server/src/task-server/coordinator.ts:196-228 | A stale answer adds one strike to the named task, dropping it at the third, and touches nothing else; any other answer touches nothing. |
| Handlers.StoreAnswerExact | apps/server/src/storage/file-store.ts:88-179 | A request that can be prepared gets the store's atomic commit of its prepared form; any other gets its error and changes nothing. |
| Handlers.CommitRun | apps/server/src/task-server/coordinator.ts:186-229 | The machine's three commit steps, taken without interruption, amount to the store's answer and the strike it costs. |
| Handlers.TaskServer.OnDone | apps/server/src/task-server/coordinator.ts:231-243 | If the named task is assigned to the reporting agent, exactly that task becomes done, with all else unchanged; otherwise the report gets its refusal and the list stays as it was. |
| Handlers.TaskServer.FetchAll | apps/server/src/task-server/coordinator.ts:165-176 | Fetches path after path, stops at the first bad one, and collects exactly the files found. |
| Handlers.TaskServer.OnFetch | apps/server/src/task-server/coordinator.ts:165-176 | Both stores end where the machine's fetch steps end, over the paths before the first bad one: files and tasks unchanged, exactly those paths on the agent's record, and the answer exactly the live files among them, each with its version and text, in the order asked. |
| Handlers.FilesAtExact | apps/server/src/task-server/coordinator.ts:165-176 | The files answered with are exactly the live ones among the paths, each as stored, in the order asked and as often. |
| Handlers.FetchRun | apps/server/src/task-server/coordinator.ts:165-176 | The machine's fetch steps, taken without interruption, amount to the fetches of the paths in order. |
| Handlers.TaskServer.OnCreateTasks | apps/server/src/task-server/coordinator.ts:245-260 | Appends the batch, with exactly the creator's own dependency-free tasks assigned, the other dependency-free ones unassigned and the rest blocked, and no older task touched; an unacceptable batch changes nothing and is refused with its one fault. |
| Handlers.CreateStates | apps/server/src/task-server/coordinator.ts:245-260 | So does the machine's uninterrupted create request. |
| Handlers.TaskServer.TickOnce | apps/server/src/task-server/coordinator.ts:126-154 | After a whole tick, with any combination of push failures: each dispatched task is assigned if its push succeeded and unassigned if not, each other marked task is unassigned, and every other task is unchanged. |
| Handlers.TaskServer.ApplyMarks | apps/server/src/task-server/coordinator.ts:130-133 | The marking loop leaves exactly the marked tasks unassigned and every other task as it was, and takes the machine's mark steps. |
| Handlers.TaskServer.ApplyDispatch | apps/server/src/task-server/coordinator.ts:135-153 | The dispatch loop rechecks each task: one that is unassigned in its turn ends assigned if its push succeeds and unassigned if not, and every other task is as it was; it takes the machine's dispatch steps. |
| Handlers.TickStates | apps/server/src/task-server/coordinator.ts:126-154 | Applying a plan's marks and then its dispatches amounts to what is said of a whole tick, since what a plan dispatches is unassigned by then. |

## Left out

- HTTP, server-sent events, authentication, the Fastify wiring, the React dashboard, runners, containers, configuration and workspace files: transport and process I/O.
- Zod schemas: requests reach the model as already validated values; an empty owner string is taken as no owner.
- The router's agent registration and its bounded event log (`emit`, `getEvents`), `list_files`, `list_agents`, and `FileStore.list`: easy members that no theorem needs.
- `AgentService`: whether an agent is idle is an input of every plan.
- Timestamps, `detail` and `last_error` texts, coordinator event listeners, UUIDs; `created_at` is an integer, and the sort by it is stable.
- Strings are ordered by Dafny characters; JavaScript compares UTF-16 code units. File names that collide with object prototype members are not modelled.
- More than one outstanding request of an agent: `onCommit` reads `strikes` before an await and writes it after, so two overlapping commits for one task are outside what the code keeps.
- Other handlers touching a task between assign, push and revert, and submissions interleaving between validation and `createMany`: each is one step of the machine.
- The agents, messages and runs tables of the database, and a database file that is unreadable or of another version, on which `initialize` throws.
- The texts of the demo files: any texts will do, only the paths matter.
- JSON encoding and the durability and atomicity of `rename`: reading back what was written is taken to give the same value.
- The client's `activeTaskId` and `doneTaskId` markers, and the order in which `Object.entries` lists its versions (the model sends them sorted; no answer depends on it but the last report of a repeated path, and there are none).
- The client's session and the coordinator are two machines over the same file operations: the client's does not check task ownership, so its commits are a superset of those the coordinator lets through.
- A request the server still works on after its client has given up on it: by then it counts as over, as an agent has at most one request outstanding. A client that stops between writing fetched files to its workspace and saving its state keeps its old versions beside newer files.
- CrashRuns: the check a handler makes on a snapshot and the mutation that follows are one step where the machine makes them one (submissions, dispatches).
- Handlers.TaskServer: its methods are handlers that run to their end one at a time; their interleavings are those of the Coordinator machine, and the re-entrant loop around `tickOnce` is TickLoop.
- Progress.TasksDrain: plans are started at will, with the owners of live tasks idle each time, while the code starts one only after a submission, a creation, a done report or a drop; a round finishes what it dispatched before the next is planned, and every push succeeds; it says nothing about agents that never report.
- The fields `ops`, `adopted`, `lost`, `pulled`, `clean`, `calls`, `crashes` and `run` only record history; no modelled decision depends on them, except that the queue of the store is the unsettled tail of `calls`.
