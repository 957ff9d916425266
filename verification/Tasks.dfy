/** Task records and the store that keeps them (task-server/task-store.ts, task.types.ts). */
module Tasks {
  import opened Common

  datatype TaskState = Unassigned | Blocked | Assigned | Done | Dropped

  datatype NewTask = NewTask(id: TaskId, owner: Option<AgentId>, dependsOn: seq<TaskId>, writes: seq<Path>)

  datatype Task =
    Task(id: TaskId, owner: Option<AgentId>, dependsOn: seq<TaskId>, writes: seq<Path>,
         state: TaskState, strikes: nat, createdAt: int)

  /** The fields an update may overwrite. */
  datatype Patch = Patch(state: Option<TaskState>, strikes: Option<nat>)

  function Stored(t: NewTask, clock: int): Task {
    Task(t.id, t.owner, t.dependsOn, t.writes, if |t.dependsOn| > 0 then Blocked else Unassigned, 0, clock)
  }

  function StoredAll(batch: seq<NewTask>, clock: int): seq<Task> {
    seq(|batch|, i requires 0 <= i < |batch| => Stored(batch[i], clock))
  }

  /** Position of the first task with this id; the length of the list when there is none. */
  function Find(tasks: seq<Task>, id: TaskId): (k: nat)
    ensures k <= |tasks|
    ensures k < |tasks| ==> tasks[k].id == id
    ensures forall j | 0 <= j < k :: tasks[j].id != id
  {
    if tasks == [] then 0
    else if tasks[0].id == id then 0
    else
      var k := Find(tasks[1..], id);
      assert forall j | 1 <= j < k + 1 :: tasks[j] == tasks[1..][j - 1];
      k + 1
  }

  predicate Has(tasks: seq<Task>, id: TaskId) {
    Find(tasks, id) < |tasks|
  }

  function Get(tasks: seq<Task>, id: TaskId): Task
    requires Has(tasks, id)
  {
    tasks[Find(tasks, id)]
  }

  function Patched(t: Task, patch: Patch): Task {
    t.(state := match patch.state case Some(s) => s case None => t.state,
       strikes := match patch.strikes case Some(n) => n case None => t.strikes)
  }

  /** Overwrites fields of the first task with this id; throws, changing nothing, when there is none. */
  function Update(tasks: seq<Task>, id: TaskId, patch: Patch): seq<Task> {
    if Has(tasks, id) then tasks[Find(tasks, id) := Patched(Get(tasks, id), patch)] else tasks
  }

  function SetState(tasks: seq<Task>, id: TaskId, state: TaskState): seq<Task> {
    Update(tasks, id, Patch(Some(state), None))
  }

  predicate UniqueIds(tasks: seq<Task>) {
    forall i, j | 0 <= i < j < |tasks| :: tasks[i].id != tasks[j].id
  }

  function IdsOf(tasks: seq<Task>): set<TaskId> {
    set t | t in tasks :: t.id
  }

  lemma HasIff(tasks: seq<Task>, id: TaskId)
    ensures Has(tasks, id) <==> id in IdsOf(tasks)
  {
    assert Has(tasks, id) ==> tasks[Find(tasks, id)] in tasks;
    if id in IdsOf(tasks) {
      var t :| t in tasks && t.id == id;
      var k :| 0 <= k < |tasks| && tasks[k] == t;
    }
  }

  lemma FindUnique(tasks: seq<Task>, k: nat)
    requires UniqueIds(tasks) && k < |tasks|
    ensures Find(tasks, tasks[k].id) == k && Has(tasks, tasks[k].id) && Get(tasks, tasks[k].id) == tasks[k]
  {}

  /** With unique ids an update overwrites the named fields of the task with its id and nothing else. */
  lemma UpdateExact(tasks: seq<Task>, id: TaskId, patch: Patch)
    requires UniqueIds(tasks)
    ensures var after := Update(tasks, id, patch);
            && |after| == |tasks| && UniqueIds(after)
            && forall i | 0 <= i < |tasks| ::
                 after[i] == if tasks[i].id == id
                             then tasks[i].(state := if patch.state.Some? then patch.state.value else tasks[i].state,
                                            strikes := if patch.strikes.Some? then patch.strikes.value else tasks[i].strikes)
                             else tasks[i]
  {
    var k := Find(tasks, id);
    assert forall i | 0 <= i < |tasks| && tasks[i].id == id :: i == k;
  }

  /** Position `k` holds the first task with this id. */
  ghost predicate FirstWith(tasks: seq<Task>, id: TaskId, k: nat) {
    k < |tasks| && tasks[k].id == id && forall j | 0 <= j < k :: tasks[j].id != id
  }

  class TaskStore {
    var tasks: seq<Task>

    constructor ()
      ensures tasks == []
    {
      tasks := [];
    }

    method List() returns (r: seq<Task>)
      ensures r == tasks
    {
      r := tasks;
    }

    method Lookup(id: TaskId) returns (r: Option<Task>)
      ensures r == if Has(tasks, id) then Some(Get(tasks, id)) else None
    {
      var i := 0;
      while i < |tasks| && tasks[i].id != id
        invariant 0 <= i <= |tasks|
        invariant forall j | 0 <= j < i :: tasks[j].id != id
      {
        i := i + 1;
      }
      assert i == Find(tasks, id);
      r := if i < |tasks| then Some(tasks[i]) else None;
    }

    method CreateMany(batch: seq<NewTask>, clock: int) returns (created: seq<Task>)
      modifies this
      ensures created == StoredAll(batch, clock)
      ensures tasks == old(tasks) + created
      ensures |created| == |batch| && forall i | 0 <= i < |batch| ::
                created[i] == Task(batch[i].id, batch[i].owner, batch[i].dependsOn, batch[i].writes,
                                   if batch[i].dependsOn == [] then Unassigned else Blocked, 0, clock)
    {
      created := seq(|batch|, i requires 0 <= i < |batch| => Stored(batch[i], clock));
      tasks := tasks + created;
    }

    method Overwrite(id: TaskId, patch: Patch) returns (r: Option<Task>)
      modifies this
      ensures tasks == Update(old(tasks), id, patch)
      ensures r == if Has(old(tasks), id) then Some(Patched(Get(old(tasks), id), patch)) else None
      ensures if forall t | t in old(tasks) :: t.id != id then tasks == old(tasks)
              else exists k: nat | FirstWith(old(tasks), id, k) ::
                     tasks == old(tasks)[k := old(tasks)[k].(
                       state := if patch.state.Some? then patch.state.value else old(tasks)[k].state,
                       strikes := if patch.strikes.Some? then patch.strikes.value else old(tasks)[k].strikes)]
    {
      var i := 0;
      while i < |tasks| && tasks[i].id != id
        invariant 0 <= i <= |tasks|
        invariant forall j | 0 <= j < i :: tasks[j].id != id
      {
        i := i + 1;
      }
      assert i == Find(tasks, id);
      assert i < |tasks| ==> FirstWith(tasks, id, i);
      if i == |tasks| { return None; }
      var task := tasks[i];
      if patch.state.Some? { task := task.(state := patch.state.value); }
      if patch.strikes.Some? { task := task.(strikes := patch.strikes.value); }
      tasks := tasks[i := task];
      return Some(task);
    }
  }
}
