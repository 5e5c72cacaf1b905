/** The board component (src/components/KanbanBoard.jsx): its local drag state,
    its handlers, which write to the shared store, and the requests it sends to
    the task server. Each handler runs as one step; the server's answer to a
    request is a parameter where the handler's behaviour depends on it. */
module KanbanBoard {
  import opened Domain
  import opened Seqs
  import opened TaskStore
  import opened BoardOrder
  import opened BoardView

  class Board {
    const store: Store
    /** `draggedTask`, `dragOverIndex`, `dragOverColumn` (`null` is `None`). */
    var draggedTask: Option<Task>
    var dragOverIndex: Option<nat>
    var dragOverColumn: Option<Column>
    /** Every request sent so far, oldest first. */
    var requests: seq<Request>

    constructor (store: Store)
      ensures this.store == store
      ensures draggedTask == None && dragOverIndex == None && dragOverColumn == None
      ensures requests == []
    {
      this.store := store;
      draggedTask := None;
      dragOverIndex := None;
      dragOverColumn := None;
      requests := [];
    }

    /** The effect run when the fetched task list changes (`None` while no data
        has arrived). The tasks are stored; only the `done` column is merged, and
        the order is written only when that merge changed something. */
    method OnTasksFetched(data: Option<seq<Task>>)
      modifies store
      ensures data.None? ==> unchanged(store)
      ensures data.Some? ==> store.tasks == data.value
      ensures data.Some? ==> Reconciled(old(store.taskOrder), data.value, EffectColumns, store.taskOrder)
      ensures data.Some? ==> forall c :: c != Done ==> Get(store.taskOrder, c) == Get(old(store.taskOrder), c)
      ensures data.Some? && !Changes(old(store.taskOrder), data.value, Done) ==> store.taskOrder == old(store.taskOrder)
      ensures store.searchTerm == old(store.searchTerm) && store.loadedItems == old(store.loadedItems)
      ensures store.editingTask == old(store.editingTask) && store.modalOpen == old(store.modalOpen)
    {
      if data.Some? {
        store.SetTasks(data.value);
        var current := store.taskOrder;
        var newOrder, hasChanges := ReconcileColumns(current, data.value, EffectColumns);
        forall c | c != Done ensures Get(newOrder, c) == Get(current, c) {
          assert ColumnReconciled(current, data.value, EffectColumns, newOrder, c);
        }
        if hasChanges {
          store.SetTaskOrder(newOrder);
        }
      }
    }

    /** `handleDragStart`: remember the dragged task. */
    method DragStart(task: Task)
      modifies this
      ensures draggedTask == Some(task)
      ensures dragOverIndex == old(dragOverIndex) && dragOverColumn == old(dragOverColumn) && requests == old(requests)
    {
      draggedTask := Some(task);
    }

    /** The `dragover` handler of the card at `idx` in column `col`. */
    method DragOverCard(col: Column, idx: nat)
      modifies this
      ensures dragOverIndex == Some(idx) && dragOverColumn == Some(col)
      ensures draggedTask == old(draggedTask) && requests == old(requests)
    {
      dragOverIndex := Some(idx);
      dragOverColumn := Some(col);
    }

    /** `handleDragEnd`: the drag state is cleared. */
    method DragEnd()
      modifies this
      ensures draggedTask == None && dragOverIndex == None && dragOverColumn == None
      ensures requests == old(requests)
    {
      draggedTask := None;
      dragOverIndex := None;
      dragOverColumn := None;
    }

    /** `handleDrop(column, index)`. `transfer` is the id parsed from the drag
        data (`None` when it is not a number). An unresolvable id changes
        nothing. Otherwise the new order is committed, a column change is sent
        to the server when the card left its column, and the task list is
        refetched whether that request succeeds (its `onSuccess`) or fails (the
        `catch`). The hover marker is cleared; `draggedTask` is kept. */
    method Drop(column: Column, index: Option<nat>, transfer: Option<int>)
      modifies this, store
      ensures DraggedId(old(draggedTask), transfer).None? ==> unchanged(this) && unchanged(store)
      ensures DraggedId(old(draggedTask), transfer).Some? ==>
                var id := DraggedId(old(draggedTask), transfer).value;
                var src := SourceColumn(old(draggedTask), old(store.tasks), id);
                && store.taskOrder == DropOrder(old(store.taskOrder), id, src, column, index)
                && requests == old(requests) + (if src != Some(column) then [Update(id, ColumnOnly(column)), InvalidateTasks] else [])
                && dragOverIndex == None && dragOverColumn == None
                && draggedTask == old(draggedTask)
      ensures store.tasks == old(store.tasks) && store.searchTerm == old(store.searchTerm) && store.loadedItems == old(store.loadedItems)
      ensures store.editingTask == old(store.editingTask) && store.modalOpen == old(store.modalOpen)
    {
      var resolved := DraggedId(draggedTask, transfer);
      if resolved.None? {
        return;
      }
      var draggedId := resolved.value;
      var sourceColumn := SourceColumn(draggedTask, store.tasks, draggedId);
      var currentOrder := DropRewrite(store.taskOrder, draggedId, sourceColumn, column, index);
      store.SetTaskOrder(currentOrder);
      if sourceColumn != Some(column) {
        requests := requests + [Update(draggedId, ColumnOnly(column)), InvalidateTasks];
      }
      dragOverIndex := None;
      dragOverColumn := None;
    }

    /** `handleDelete(id)`. The delete is sent; when it succeeds the task list
        is refetched and the id is removed from every column of the order, key
        by key. When it fails the handler stops and the order is untouched. */
    method Delete(id: int, succeeds: bool)
      modifies this, store
      ensures requests == old(requests) + (if succeeds then [Request.Delete(id), InvalidateTasks] else [Request.Delete(id)])
      ensures succeeds ==> store.taskOrder == DeleteFromAll(old(store.taskOrder), id)
      ensures !succeeds ==> store.taskOrder == old(store.taskOrder)
      ensures store.tasks == old(store.tasks) && store.searchTerm == old(store.searchTerm) && store.loadedItems == old(store.loadedItems)
      ensures store.editingTask == old(store.editingTask) && store.modalOpen == old(store.modalOpen)
      ensures draggedTask == old(draggedTask) && dragOverIndex == old(dragOverIndex) && dragOverColumn == old(dragOverColumn)
    {
      requests := requests + [Request.Delete(id)];
      if !succeeds {
        return;
      }
      requests := requests + [InvalidateTasks];
      var original := store.taskOrder;
      var current := original;
      var keys := original.Keys;
      while keys != {}
        invariant keys <= original.Keys
        invariant current.Keys == original.Keys
        invariant forall c :: c in original ==> current[c] == if c in keys then original[c] else Without(original[c], id)
        decreases keys
      {
        var c :| c in keys;
        current := current[c := Without(current[c], id)];
        keys := keys - {c};
      }
      store.SetTaskOrder(current);
    }

    /** `handleEdit(task)`: open the modal on that task. */
    method Edit(task: Task)
      modifies store
      ensures store.editingTask == Some(task) && store.modalOpen
      ensures store.tasks == old(store.tasks) && store.searchTerm == old(store.searchTerm)
      ensures store.loadedItems == old(store.loadedItems) && store.taskOrder == old(store.taskOrder)
    {
      store.SetEditingTask(Some(task));
      store.SetModalOpen(true);
    }

    /** The "Add Task" button: open the modal on no task. */
    method AddTask()
      modifies store
      ensures store.editingTask == None && store.modalOpen
      ensures store.tasks == old(store.tasks) && store.searchTerm == old(store.searchTerm)
      ensures store.loadedItems == old(store.loadedItems) && store.taskOrder == old(store.taskOrder)
    {
      store.SetEditingTask(None);
      store.SetModalOpen(true);
    }

    /** `handleSearch`: the search box's value becomes the search term. */
    method Search(term: string)
      modifies store
      ensures store.searchTerm == term
      ensures store.tasks == old(store.tasks) && store.loadedItems == old(store.loadedItems) && store.taskOrder == old(store.taskOrder)
      ensures store.editingTask == old(store.editingTask) && store.modalOpen == old(store.modalOpen)
    {
      store.SetSearchTerm(term);
    }

    /** `loadMore(col)`: five more cards in that column. */
    method LoadMore(col: Column)
      modifies store
      ensures store.loadedItems == Bump(old(store.loadedItems), col)
      ensures store.tasks == old(store.tasks) && store.searchTerm == old(store.searchTerm) && store.taskOrder == old(store.taskOrder)
      ensures store.editingTask == old(store.editingTask) && store.modalOpen == old(store.modalOpen)
    {
      store.SetLoadedItems(Apply((prev: Counts) => Bump(prev, col)));
    }

    /** `getOrderedTasks(col)`: the order's tasks first, then the others, both
        loops accumulating into `ordered`. */
    method GetOrderedTasks(col: Column) returns (ordered: seq<Task>)
      ensures ordered == OrderedView(store.tasks, Get(store.taskOrder, col), store.searchTerm, col)
    {
      var order := Get(store.taskOrder, col);
      var colTasks := ColumnTasks(store.tasks, store.searchTerm, col);
      ordered := CollectListed(order, colTasks);
      ordered := AppendUnlisted(ordered, colTasks, order);
    }

    /** One rendered column: the cards shown, the count in the header, and the
        "Load More" control with its number of remaining tasks when some are
        hidden. */
    method RenderColumn(col: Column) returns (visible: seq<Task>, count: nat, loadMore: Option<nat>)
      ensures var view := OrderedView(store.tasks, Get(store.taskOrder, col), store.searchTerm, col);
              && count == |view|
              && visible == Visible(view, store.loadedItems.At(col))
              && (loadMore.Some? <==> |view| > |visible|)
              && (loadMore.Some? ==> loadMore.value == |view| - |visible|)
    {
      var columnTasks := GetOrderedTasks(col);
      visible := Visible(columnTasks, store.loadedItems.At(col));
      count := |columnTasks|;
      loadMore := if |columnTasks| > |visible| then Some(|columnTasks| - |visible|) else None;
    }
  }

  /** The first loop of `getOrderedTasks`: for each id of the order, the task of
      `colTasks` with that id is pushed when there is one. */
  method CollectListed(order: seq<int>, colTasks: seq<Task>) returns (ordered: seq<Task>)
    ensures ordered == Listed(order, colTasks)
  {
    ordered := [];
    var i := 0;
    while i < |order|
      invariant 0 <= i <= |order|
      invariant ordered == Listed(order[..i], colTasks)
    {
      ListedSnoc(order, colTasks, i);
      var t := FindById(colTasks, order[i]);
      if t.Some? {
        ordered := ordered + [t.value];
      }
      i := i + 1;
    }
    assert order[..i] == order;
  }

  /** The second loop of `getOrderedTasks`: every task of `colTasks` whose id the
      order does not name is pushed, in turn. */
  method AppendUnlisted(prefix: seq<Task>, colTasks: seq<Task>, order: seq<int>) returns (ordered: seq<Task>)
    ensures ordered == prefix + Unlisted(colTasks, order)
  {
    ordered := prefix;
    var j := 0;
    while j < |colTasks|
      invariant 0 <= j <= |colTasks|
      invariant ordered == prefix + Unlisted(colTasks[..j], order)
    {
      UnlistedSnoc(colTasks, order, j);
      if colTasks[j].id !in order {
        ordered := ordered + [colTasks[j]];
      }
      j := j + 1;
    }
    assert colTasks[..j] == colTasks;
  }
}
