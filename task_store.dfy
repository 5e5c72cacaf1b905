/** The task store (src/store/useTaskStore.js): one mutable state container
    with a setter per field, and the two legacy list helpers `moveTask` and
    `reorderTask`, which rewrite `tasks` by the `status` field. */
module TaskStore {
  import opened Domain
  import opened Seqs

  /** The argument of `setLoadedItems`: a function of the old counts, or the new
      counts themselves. */
  datatype CountsUpdate = Apply(f: Counts -> Counts) | Replace(value: Counts)

  class Store {
    var tasks: seq<Task>
    var searchTerm: string
    var loadedItems: Counts
    var taskOrder: Order
    var editingTask: Option<Task>
    var modalOpen: bool

    /** The initial state: no tasks, no search, five cards per column, an empty
        order for every column, no task being edited and the modal closed. */
    constructor ()
      ensures tasks == [] && searchTerm == []
      ensures loadedItems == Counts(5, 5, 5, 5)
      ensures taskOrder == map[Backlog := [], InProgress := [], Review := [], Done := []]
      ensures editingTask == None && !modalOpen
    {
      tasks := [];
      searchTerm := [];
      loadedItems := Counts(5, 5, 5, 5);
      taskOrder := map[Backlog := [], InProgress := [], Review := [], Done := []];
      editingTask := None;
      modalOpen := false;
    }

    method SetTasks(ts: seq<Task>)
      modifies this
      ensures tasks == ts
      ensures searchTerm == old(searchTerm) && loadedItems == old(loadedItems) && taskOrder == old(taskOrder)
      ensures editingTask == old(editingTask) && modalOpen == old(modalOpen)
    {
      tasks := ts;
    }

    method SetSearchTerm(t: string)
      modifies this
      ensures searchTerm == t
      ensures tasks == old(tasks) && loadedItems == old(loadedItems) && taskOrder == old(taskOrder)
      ensures editingTask == old(editingTask) && modalOpen == old(modalOpen)
    {
      searchTerm := t;
    }

    /** A function is applied to the current counts; anything else replaces them. */
    method SetLoadedItems(u: CountsUpdate)
      modifies this
      ensures loadedItems == match u case Apply(f) => f(old(loadedItems)) case Replace(v) => v
      ensures tasks == old(tasks) && searchTerm == old(searchTerm) && taskOrder == old(taskOrder)
      ensures editingTask == old(editingTask) && modalOpen == old(modalOpen)
    {
      match u
      case Apply(f) => loadedItems := f(loadedItems);
      case Replace(v) => loadedItems := v;
    }

    method SetTaskOrder(order: Order)
      modifies this
      ensures taskOrder == order
      ensures tasks == old(tasks) && searchTerm == old(searchTerm) && loadedItems == old(loadedItems)
      ensures editingTask == old(editingTask) && modalOpen == old(modalOpen)
    {
      taskOrder := order;
    }

    method SetEditingTask(task: Option<Task>)
      modifies this
      ensures editingTask == task
      ensures tasks == old(tasks) && searchTerm == old(searchTerm) && loadedItems == old(loadedItems)
      ensures taskOrder == old(taskOrder) && modalOpen == old(modalOpen)
    {
      editingTask := task;
    }

    method SetModalOpen(open: bool)
      modifies this
      ensures modalOpen == open
      ensures tasks == old(tasks) && searchTerm == old(searchTerm) && loadedItems == old(loadedItems)
      ensures taskOrder == old(taskOrder) && editingTask == old(editingTask)
    {
      modalOpen := open;
    }

    method MoveTask(taskId: int, newStatus: string, targetTaskId: Option<int>)
      modifies this
      ensures tasks == MoveTasks(old(tasks), taskId, newStatus, targetTaskId)
      ensures searchTerm == old(searchTerm) && loadedItems == old(loadedItems) && taskOrder == old(taskOrder)
      ensures editingTask == old(editingTask) && modalOpen == old(modalOpen)
    {
      tasks := MoveTasks(tasks, taskId, newStatus, targetTaskId);
    }

    method ReorderTask(status: string, draggedId: int, targetId: int)
      modifies this
      ensures tasks == ReorderTasks(old(tasks), status, draggedId, targetId)
      ensures searchTerm == old(searchTerm) && loadedItems == old(loadedItems) && taskOrder == old(taskOrder)
      ensures editingTask == old(editingTask) && modalOpen == old(modalOpen)
    {
      tasks := ReorderTasks(tasks, status, draggedId, targetId);
    }
  }

  // ---------------------------------------------------------------------------
  // The legacy helpers, as functions from the old task list to the new one.

  function IdIsNot(id: int): Task -> bool
  {
    (t: Task) => t.id != id
  }

  function StatusIs(s: string): Task -> bool
  {
    (t: Task) => t.status == Some(s)
  }

  function StatusIsNot(s: string): Task -> bool
  {
    (t: Task) => t.status != Some(s)
  }

  /** `ts.filter((t) => t.id !== id)` */
  function WithoutId(ts: seq<Task>, id: int): (r: seq<Task>)
    ensures forall t :: t in r <==> t in ts && t.id != id
  {
    Filter(ts, IdIsNot(id))
  }

  /** `ts.filter((t) => t.status === s)` */
  function InStatus(ts: seq<Task>, s: string): (r: seq<Task>)
    ensures forall t :: t in r <==> t in ts && t.status == Some(s)
  {
    Filter(ts, StatusIs(s))
  }

  /** `ts.filter((t) => t.status !== s)` */
  function OutOfStatus(ts: seq<Task>, s: string): (r: seq<Task>)
    ensures forall t :: t in r <==> t in ts && t.status != Some(s)
  {
    Filter(ts, StatusIsNot(s))
  }

  /** A `targetTaskId` that JavaScript treats as true: present and not 0. */
  predicate Truthy(id: Option<int>)
  {
    id.Some? && id.value != 0
  }

  /** Where `moveTask` inserts: before the target when it is given and found in
      the group, else at the end of the group. */
  function MoveIndex(group: seq<Task>, target: Option<int>): (k: nat)
    ensures k <= |group|
    ensures k < |group| <==> Truthy(target) && exists i :: 0 <= i < |group| && group[i].id == target.value
    ensures k < |group| ==> group[k].id == target.value
    ensures k < |group| ==> k == IndexById(group, target.value)
  {
    if Truthy(target) && IndexById(group, target.value) != -1 then IndexById(group, target.value) else |group|
  }

  /** `moveTask(taskId, newStatus, targetTaskId)`: every other task keeps its
      place among the tasks of other statuses, which come first; then the
      `newStatus` group with the moved task, now of that status, inserted. An
      unknown id leaves the list as it is. */
  function MoveTasks(ts: seq<Task>, taskId: int, newStatus: string, target: Option<int>): (r: seq<Task>)
    ensures FindById(ts, taskId).None? ==> r == ts
    ensures FindById(ts, taskId).Some? ==> |r| == |WithoutId(ts, taskId)| + 1
  {
    match FindById(ts, taskId)
    case None => ts
    case Some(task) =>
      var others := WithoutId(ts, taskId);
      var group := InStatus(others, newStatus);
      StatusPartition(others, newStatus);
      assert |group| + |OutOfStatus(others, newStatus)| == |others| by {
        assert |multiset(group)| + |multiset(OutOfStatus(others, newStatus))| == |multiset(others)|;
      }
      OutOfStatus(others, newStatus) + InsertAt(group, MoveIndex(group, target), task.(status := Some(newStatus)))
  }

  /** `reorderTask(status, draggedId, targetId)`: within the `status` group the
      dragged task is taken out and put back at the target's index; the group
      follows the tasks of other statuses. When either id is not in the group
      the list is left as it is. */
  function ReorderTasks(ts: seq<Task>, status: string, draggedId: int, targetId: int): (r: seq<Task>)
    ensures IndexById(InStatus(ts, status), draggedId) == -1 ==> r == ts
    ensures IndexById(InStatus(ts, status), targetId) == -1 ==> r == ts
  {
    var group := InStatus(ts, status);
    var di := IndexById(group, draggedId);
    var ti := IndexById(group, targetId);
    if di == -1 || ti == -1 then ts
    else OutOfStatus(ts, status) + InsertAt(RemoveAt(group, di), ti, group[di])
  }

  // ---------------------------------------------------------------------------
  // Properties of the helpers.

  /** Splitting by status loses and duplicates nothing. */
  lemma StatusPartition(ts: seq<Task>, s: string)
    ensures multiset(InStatus(ts, s)) + multiset(OutOfStatus(ts, s)) == multiset(ts)
  {
    forall x ensures (multiset(InStatus(ts, s)) + multiset(OutOfStatus(ts, s)))[x] == multiset(ts)[x] {
      FilterCount(ts, StatusIs(s), x);
      FilterCount(ts, StatusIsNot(s), x);
    }
  }

  /** With distinct ids a task occurs once. */
  lemma {:induction false} UniqueOnce(ts: seq<Task>, t: Task)
    requires UniqueIds(ts) && t in ts
    ensures multiset(ts)[t] == 1
  {
    assert ts == [ts[0]] + ts[1..];
    assert UniqueIds(ts[1..]) by {
      forall i, j | 0 <= i < j < |ts[1..]| ensures ts[1..][i].id != ts[1..][j].id {
        assert ts[1..][i] == ts[i + 1] && ts[1..][j] == ts[j + 1];
      }
    }
    if ts[0] == t {
      forall i | 0 <= i < |ts[1..]| ensures ts[1..][i] != t {
        assert ts[1..][i] == ts[i + 1];
      }
      assert t !in ts[1..];
    } else {
      UniqueOnce(ts[1..], t);
    }
  }

  /** With distinct ids, removing the id removes exactly the task found for it. */
  lemma WithoutFoundTask(ts: seq<Task>, id: int)
    requires UniqueIds(ts) && FindById(ts, id).Some?
    ensures multiset(WithoutId(ts, id)) + multiset{FindById(ts, id).value} == multiset(ts)
    ensures |WithoutId(ts, id)| + 1 == |ts|
  {
    var task := FindById(ts, id).value;
    UniqueOnce(ts, task);
    forall x ensures (multiset(WithoutId(ts, id)) + multiset{task})[x] == multiset(ts)[x] {
      FilterCount(ts, IdIsNot(id), x);
      if x.id == id && x in ts {
        SameIdSameTask(ts, x, task);
      }
    }
    LengthFromMultiset(WithoutId(ts, id), ts, task);
  }

  /** With distinct ids, two tasks of the list with the same id are the same task. */
  lemma SameIdSameTask(ts: seq<Task>, x: Task, y: Task)
    requires UniqueIds(ts) && x in ts && y in ts && x.id == y.id
    ensures x == y
  {
    var i :| 0 <= i < |ts| && ts[i] == x;
    var j :| 0 <= j < |ts| && ts[j] == y;
    assert !(i < j) && !(j < i);
  }

  /** The shape of `moveTask`'s result when the task is found. */
  lemma MoveTasksFound(ts: seq<Task>, taskId: int, newStatus: string, target: Option<int>)
    requires FindById(ts, taskId).Some?
    ensures var moved := FindById(ts, taskId).value.(status := Some(newStatus));
            var group := InStatus(WithoutId(ts, taskId), newStatus);
            MoveTasks(ts, taskId, newStatus, target)
              == OutOfStatus(WithoutId(ts, taskId), newStatus) + InsertAt(group, MoveIndex(group, target), moved)
  {
  }

  /** `moveTask`'s result holds the other tasks once each, and the moved task. */
  lemma MoveTasksCount(ts: seq<Task>, taskId: int, newStatus: string, target: Option<int>)
    requires FindById(ts, taskId).Some?
    ensures var moved := FindById(ts, taskId).value.(status := Some(newStatus));
            multiset(MoveTasks(ts, taskId, newStatus, target)) == multiset(WithoutId(ts, taskId)) + multiset{moved}
  {
    var moved := FindById(ts, taskId).value.(status := Some(newStatus));
    var others := WithoutId(ts, taskId);
    var group := InStatus(others, newStatus);
    var rest := OutOfStatus(others, newStatus);
    var tail := InsertAt(group, MoveIndex(group, target), moved);
    MoveTasksFound(ts, taskId, newStatus, target);
    StatusPartition(others, newStatus);
    InsertAtCount(group, MoveIndex(group, target), moved);
    assert multiset(rest + tail) == multiset(rest) + multiset(tail);
  }

  /** `moveTask` keeps the number of tasks and changes only the moved task's status. */
  lemma MoveTaskKeepsTasks(ts: seq<Task>, taskId: int, newStatus: string, target: Option<int>)
    requires UniqueIds(ts) && FindById(ts, taskId).Some?
    ensures var task := FindById(ts, taskId).value;
            var r := MoveTasks(ts, taskId, newStatus, target);
            |r| == |ts| && multiset(r) + multiset{task} == multiset(ts) + multiset{task.(status := Some(newStatus))}
  {
    var task := FindById(ts, taskId).value;
    var r := MoveTasks(ts, taskId, newStatus, target);
    MoveTasksCount(ts, taskId, newStatus, target);
    WithoutFoundTask(ts, taskId);
    assert |r| == |multiset(r)|;
  }

  /** After `moveTask` the tasks of other statuses come first, in their original
      relative order. */
  lemma MoveTaskOthersFirst(ts: seq<Task>, taskId: int, newStatus: string, target: Option<int>)
    requires FindById(ts, taskId).Some?
    ensures var r := MoveTasks(ts, taskId, newStatus, target);
            var k := |OutOfStatus(WithoutId(ts, taskId), newStatus)|;
            && k < |r|
            && Subseq(r[..k], ts)
            && (forall t :: t in r[..k] <==> t in ts && t.id != taskId && t.status != Some(newStatus))
  {
    var others := WithoutId(ts, taskId);
    var rest := OutOfStatus(others, newStatus);
    var r := MoveTasks(ts, taskId, newStatus, target);
    MoveTasksFound(ts, taskId, newStatus, target);
    assert r[..|rest|] == rest;
    FilterSubseq(ts, IdIsNot(taskId));
    FilterSubseq(others, StatusIsNot(newStatus));
    SubseqTrans(rest, others, ts);
  }

  /** After `moveTask` every task after the other-status tasks has the new status. */
  lemma MoveTaskGroupStatus(ts: seq<Task>, taskId: int, newStatus: string, target: Option<int>)
    requires FindById(ts, taskId).Some?
    ensures var r := MoveTasks(ts, taskId, newStatus, target);
            var k := |OutOfStatus(WithoutId(ts, taskId), newStatus)|;
            forall i :: k <= i < |r| ==> r[i].status == Some(newStatus)
  {
    var moved := FindById(ts, taskId).value.(status := Some(newStatus));
    var others := WithoutId(ts, taskId);
    var group := InStatus(others, newStatus);
    var rest := OutOfStatus(others, newStatus);
    var tail := InsertAt(group, MoveIndex(group, target), moved);
    var r := MoveTasks(ts, taskId, newStatus, target);
    MoveTasksFound(ts, taskId, newStatus, target);
    assert r == rest + tail;
    InsertAtMembers(group, MoveIndex(group, target), moved);
    forall i | |rest| <= i < |r| ensures r[i].status == Some(newStatus) {
      assert r[i] == tail[i - |rest|];
    }
  }

  /** `moveTask` puts the moved task right before the target when the target is
      given and found among the other tasks of the new status, and otherwise
      last. */
  lemma MoveTaskPlacement(ts: seq<Task>, taskId: int, newStatus: string, target: Option<int>)
    requires FindById(ts, taskId).Some?
    ensures var r := MoveTasks(ts, taskId, newStatus, target);
            var moved := FindById(ts, taskId).value.(status := Some(newStatus));
            var group := InStatus(WithoutId(ts, taskId), newStatus);
            var k := |OutOfStatus(WithoutId(ts, taskId), newStatus)|;
            var p := if Truthy(target) then IndexById(group, target.value) else -1;
            && (p != -1 ==> k + p + 1 < |r| && r[k + p] == moved && r[k + p + 1] == group[p] && group[p].id == target.value)
            && (p == -1 ==> r[|r| - 1] == moved)
  {
    var moved := FindById(ts, taskId).value.(status := Some(newStatus));
    var others := WithoutId(ts, taskId);
    var group := InStatus(others, newStatus);
    var rest := OutOfStatus(others, newStatus);
    var m := MoveIndex(group, target);
    var tail := InsertAt(group, m, moved);
    var r := MoveTasks(ts, taskId, newStatus, target);
    assert r == rest + tail;
    if m < |group| {
      assert tail[m + 1..] == group[m..];
      assert tail[m + 1] == group[m];
    }
  }

  /** The shape of `reorderTask`'s result when both ids are in the group. */
  lemma ReorderTasksFound(ts: seq<Task>, status: string, draggedId: int, targetId: int)
    requires IndexById(InStatus(ts, status), draggedId) != -1
    requires IndexById(InStatus(ts, status), targetId) != -1
    ensures var group := InStatus(ts, status);
            var di := IndexById(group, draggedId);
            var ti := IndexById(group, targetId);
            ReorderTasks(ts, status, draggedId, targetId)
              == OutOfStatus(ts, status) + InsertAt(RemoveAt(group, di), ti, group[di])
  {
  }

  /** `reorderTask` never loses or duplicates a task. */
  lemma ReorderTaskPermutes(ts: seq<Task>, status: string, draggedId: int, targetId: int)
    ensures multiset(ReorderTasks(ts, status, draggedId, targetId)) == multiset(ts)
  {
    var group := InStatus(ts, status);
    var di := IndexById(group, draggedId);
    var ti := IndexById(group, targetId);
    if di != -1 && ti != -1 {
      var rest := OutOfStatus(ts, status);
      var tail := InsertAt(RemoveAt(group, di), ti, group[di]);
      ReorderTasksFound(ts, status, draggedId, targetId);
      MoveWithin(group, di, ti);
      StatusPartition(ts, status);
      assert multiset(rest + tail) == multiset(rest) + multiset(group);
    }
  }

  /** `reorderTask`, when both ids are in the group, puts the tasks of other
      statuses first, in their original relative order. */
  lemma ReorderTaskOthersFirst(ts: seq<Task>, status: string, draggedId: int, targetId: int)
    requires IndexById(InStatus(ts, status), draggedId) != -1
    requires IndexById(InStatus(ts, status), targetId) != -1
    ensures var r := ReorderTasks(ts, status, draggedId, targetId);
            var k := |OutOfStatus(ts, status)|;
            && k <= |r|
            && Subseq(r[..k], ts)
            && (forall t :: t in r[..k] <==> t in ts && t.status != Some(status))
  {
    var rest := OutOfStatus(ts, status);
    var r := ReorderTasks(ts, status, draggedId, targetId);
    ReorderTasksFound(ts, status, draggedId, targetId);
    assert r[..|rest|] == rest;
    FilterSubseq(ts, StatusIsNot(status));
  }

  /** `reorderTask`, when both ids are in the group, lands the dragged task at the
      target's original index within the group, and the group keeps its status. */
  lemma ReorderTaskPlacement(ts: seq<Task>, status: string, draggedId: int, targetId: int)
    requires IndexById(InStatus(ts, status), draggedId) != -1
    requires IndexById(InStatus(ts, status), targetId) != -1
    ensures var r := ReorderTasks(ts, status, draggedId, targetId);
            var k := |OutOfStatus(ts, status)|;
            var ti := IndexById(InStatus(ts, status), targetId);
            && k + ti < |r| && r[k + ti].id == draggedId
            && (forall i :: k <= i < |r| ==> r[i].status == Some(status))
  {
    var group := InStatus(ts, status);
    var rest := OutOfStatus(ts, status);
    var di := IndexById(group, draggedId);
    var ti := IndexById(group, targetId);
    var tail := InsertAt(RemoveAt(group, di), ti, group[di]);
    var r := ReorderTasks(ts, status, draggedId, targetId);
    ReorderTasksFound(ts, status, draggedId, targetId);
    assert r == rest + tail;
    assert tail[ti] == group[di];
    MoveWithin(group, di, ti);
    forall i | |rest| <= i < |r| ensures r[i].status == Some(status) {
      assert r[i] == tail[i - |rest|];
      assert r[i] in group;
    }
  }
}
