/** The records the board, the store and the modal share: columns, tasks,
    the per-column order and counts, and the requests sent to the task server. */
module Domain {

  datatype Option<T> = None | Some(value: T)

  /** The four fixed workflow columns (`backlog`, `inprogress`, `review`, `done`). */
  datatype Column = Backlog | InProgress | Review | Done

  /** A task as the server returns it. `status` is the field the legacy store
      helpers `moveTask` and `reorderTask` read and write; fetched tasks do not
      carry it, which is `None`. */
  datatype Task = Task(id: int, title: string, description: string, column: Column, status: Option<string>)

  /** `taskOrder`: per column, the ordered ids the board displays first.
      A column missing from the map reads as empty (`taskOrder[col] || []`). */
  type Order = map<Column, seq<int>>

  function Get(order: Order, c: Column): seq<int>
  {
    if c in order then order[c] else []
  }

  /** `loadedItems`: per column, how many cards are rendered before "Load More". */
  datatype Counts = Counts(backlog: int, inProgress: int, review: int, done: int)
  {
    function At(c: Column): int
    {
      match c
      case Backlog => backlog
      case InProgress => inProgress
      case Review => review
      case Done => done
    }

    /** `{ ...counts, [c]: n }` */
    function With(c: Column, n: int): (r: Counts)
      ensures r.At(c) == n
      ensures forall d :: d != c ==> r.At(d) == At(d)
    {
      match c
      case Backlog => this.(backlog := n)
      case InProgress => this.(inProgress := n)
      case Review => this.(review := n)
      case Done => this.(done := n)
    }
  }

  /** The `updates` object of a PATCH: the board sends only the column, the modal
      sends all three editable fields. */
  datatype TaskPatch = ColumnOnly(column: Column) | Fields(title: string, description: string, column: Column)

  /** A request to the task server, or the invalidation of the cached task list
      that makes the board fetch it again. */
  datatype Request =
    | Update(id: int, patch: TaskPatch)
    | Create(title: string, description: string, column: Column)
    | Delete(id: int)
    | InvalidateTasks

  /** `ts.findIndex((t) => t.id === id)` */
  function IndexById(ts: seq<Task>, id: int): (k: int)
    ensures -1 <= k < |ts|
    ensures k == -1 <==> forall i :: 0 <= i < |ts| ==> ts[i].id != id
    ensures 0 <= k ==> ts[k].id == id && forall i :: 0 <= i < k ==> ts[i].id != id
  {
    if ts == [] then -1
    else if ts[0].id == id then 0
    else
      var k := IndexById(ts[1..], id);
      if k == -1 then -1 else k + 1
  }

  /** `ts.find((t) => t.id === id)`: the first task with that id. */
  function FindById(ts: seq<Task>, id: int): (r: Option<Task>)
    ensures r.None? <==> forall t :: t in ts ==> t.id != id
    ensures r.Some? ==> r.value in ts && r.value.id == id
    ensures r.Some? ==> r.value == ts[IndexById(ts, id)]
  {
    var k := IndexById(ts, id);
    if k == -1 then None else Some(ts[k])
  }

  /** `ts.map((t) => t.id)` */
  function Ids(ts: seq<Task>): (r: seq<int>)
    ensures |r| == |ts|
    ensures forall i :: 0 <= i < |ts| ==> r[i] == ts[i].id
  {
    if ts == [] then [] else [ts[0].id] + Ids(ts[1..])
  }

  lemma {:induction false} IdsConcat(a: seq<Task>, b: seq<Task>)
    ensures Ids(a + b) == Ids(a) + Ids(b)
  {
    if a != [] {
      assert (a + b)[1..] == a[1..] + b;
      IdsConcat(a[1..], b);
    } else {
      assert a + b == b;
    }
  }

  /** The server assigns every task a distinct id. */
  ghost predicate UniqueIds(ts: seq<Task>)
  {
    forall i, j :: 0 <= i < j < |ts| ==> ts[i].id != ts[j].id
  }
}
