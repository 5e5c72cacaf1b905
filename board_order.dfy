/** The per-column id sequences of the board (`taskOrder`) and the three ways
    src/components/KanbanBoard.jsx rewrites them: the merge after a fetch, the
    drop of a dragged card and the removal of a deleted id. */
module BoardOrder {
  import opened Domain
  import opened Seqs

  function InRef(ref: seq<int>): int -> bool
  {
    (x: int) => x in ref
  }

  function NotInRef(ref: seq<int>): int -> bool
  {
    (x: int) => x !in ref
  }

  function IsNot(id: int): int -> bool
  {
    (x: int) => x != id
  }

  /** `s.filter((id) => ref.includes(id))` */
  function KeepIn(s: seq<int>, ref: seq<int>): (r: seq<int>)
    ensures forall x :: x in r <==> x in s && x in ref
  {
    Filter(s, InRef(ref))
  }

  /** `s.filter((id) => !ref.includes(id))` */
  function KeepOut(s: seq<int>, ref: seq<int>): (r: seq<int>)
    ensures forall x :: x in r <==> x in s && x !in ref
  {
    Filter(s, NotInRef(ref))
  }

  /** `s.filter((x) => x !== id)` */
  function Without(s: seq<int>, id: int): (r: seq<int>)
    ensures forall x :: x in r <==> x in s && x != id
  {
    Filter(s, IsNot(id))
  }

  /** Removing an id keeps every other id with its multiplicity, and the
      survivors keep their relative order. */
  lemma WithoutKeepsOthers(s: seq<int>, id: int)
    ensures Subseq(Without(s, id), s)
    ensures forall x :: multiset(Without(s, id))[x] == if x == id then 0 else multiset(s)[x]
  {
    FilterSubseq(s, IsNot(id));
    forall x ensures multiset(Without(s, id))[x] == if x == id then 0 else multiset(s)[x] {
      FilterCount(s, IsNot(id), x);
    }
  }

  function ColumnIs(col: Column): Task -> bool
  {
    (t: Task) => t.column == col
  }

  /** The ids of the column's fetched tasks, one task at a time. */
  function ColumnIds(data: seq<Task>, col: Column): seq<int>
  {
    if data == [] then []
    else (if data[0].column == col then [data[0].id] else []) + ColumnIds(data[1..], col)
  }

  /** `ColumnIds` is `data.filter((t) => t.column === col).map((t) => t.id)`. */
  lemma {:induction false} ColumnIdsFilterMap(data: seq<Task>, col: Column)
    ensures ColumnIds(data, col) == Ids(Filter(data, ColumnIs(col)))
  {
    if data != [] {
      var head := if data[0].column == col then [data[0]] else [];
      ColumnIdsFilterMap(data[1..], col);
      IdsConcat(head, Filter(data[1..], ColumnIs(col)));
      assert Ids(head) == if data[0].column == col then [data[0].id] else [];
    }
  }

  // ---------------------------------------------------------------------------
  // The merge after a fetch (src/components/KanbanBoard.jsx:45-54).

  /** The column's new sequence and whether it differs from the old one. */
  datatype Merge = Merge(ids: seq<int>, changed: bool)

  /** Ids still fetched for the column keep their place; ids not tracked yet
      follow in fetch order. A column whose ids are all still there and which
      gained none is reported unchanged and keeps its old sequence. */
  function MergeColumn(existing: seq<int>, colIds: seq<int>): (m: Merge)
    ensures forall x :: x in m.ids <==> x in colIds
    ensures m.changed <==> m.ids != existing
  {
    var filtered := KeepIn(existing, colIds);
    var newIds := KeepOut(colIds, existing);
    if |filtered| != |existing| || |newIds| > 0 then
      assert |newIds| > 0 ==> newIds[0] in filtered + newIds && newIds[0] !in existing;
      Merge(filtered + newIds, true)
    else
      FilterKeepsLength(existing, InRef(colIds));
      Merge(existing, false)
  }

  /** The ids that were tracked before keep their relative order: they are
      exactly the surviving old ids, in the old order. */
  lemma MergeSurvivorsInOrder(existing: seq<int>, colIds: seq<int>)
    ensures KeepIn(MergeColumn(existing, colIds).ids, existing) == KeepIn(existing, colIds)
  {
    var filtered := KeepIn(existing, colIds);
    var newIds := KeepOut(colIds, existing);
    var m := MergeColumn(existing, colIds);
    if m.changed {
      FilterConcat(filtered, newIds, InRef(existing));
      FilterAll(filtered, InRef(existing));
      FilterNone(newIds, InRef(existing));
      assert KeepIn(newIds, existing) == [];
    } else {
      FilterKeepsLength(existing, InRef(colIds));
      FilterAll(existing, InRef(existing));
    }
  }

  /** The newly tracked ids follow in the order the server returned them. */
  lemma MergeNewInFetchOrder(existing: seq<int>, colIds: seq<int>)
    ensures KeepOut(MergeColumn(existing, colIds).ids, existing) == KeepOut(colIds, existing)
  {
    var filtered := KeepIn(existing, colIds);
    var newIds := KeepOut(colIds, existing);
    var m := MergeColumn(existing, colIds);
    if m.changed {
      FilterConcat(filtered, newIds, NotInRef(existing));
      FilterNone(filtered, NotInRef(existing));
      FilterAll(newIds, NotInRef(existing));
      assert KeepOut(filtered, existing) == [];
    } else {
      FilterNone(existing, NotInRef(existing));
    }
  }

  /** Old ids come before new ones. */
  lemma MergeOldBeforeNew(existing: seq<int>, colIds: seq<int>)
    ensures var s := MergeColumn(existing, colIds).ids;
            forall i, j :: 0 <= i < j < |s| && s[j] in existing ==> s[i] in existing
  {
    var filtered := KeepIn(existing, colIds);
    var newIds := KeepOut(colIds, existing);
    var s := MergeColumn(existing, colIds).ids;
    if s != existing {
      assert s == filtered + newIds;
      forall i, j | 0 <= i < j < |s| && s[j] in existing ensures s[i] in existing {
        if j >= |filtered| {
          assert false;
        }
        assert s[i] == filtered[i];
      }
    }
  }

  /** Merging the same fetched ids again changes nothing, so the store is not
      written a second time. */
  lemma MergeIdempotent(existing: seq<int>, colIds: seq<int>)
    ensures var m := MergeColumn(existing, colIds);
            MergeColumn(m.ids, colIds) == Merge(m.ids, false)
  {
    var m := MergeColumn(existing, colIds);
    FilterAll(m.ids, InRef(colIds));
    FilterNone(colIds, NotInRef(m.ids));
  }

  /** The list literal at src/components/KanbanBoard.jsx:44 is
      `[('backlog', 'inprogress', 'review', 'done')]`: the parentheses make a
      comma expression, so the effect walks the one-element list `['done']`. */
  const EffectColumns: seq<Column> := [Done]

  predicate Changes(current: Order, data: seq<Task>, c: Column)
  {
    MergeColumn(Get(current, c), ColumnIds(data, c)).changed
  }

  /** Column `c` after the effect has walked `cols`: when it is listed and its
      merge changed it holds the merged ids, otherwise it is as before. */
  ghost predicate ColumnReconciled(current: Order, data: seq<Task>, cols: seq<Column>, newOrder: Order, c: Column)
  {
    && (c in newOrder <==> c in current || (c in cols && Changes(current, data, c)))
    && Get(newOrder, c) ==
         if c in cols && Changes(current, data, c)
         then MergeColumn(Get(current, c), ColumnIds(data, c)).ids
         else Get(current, c)
  }

  /** The order after the effect has walked `cols`, column by column. */
  ghost predicate Reconciled(current: Order, data: seq<Task>, cols: seq<Column>, newOrder: Order)
  {
    forall c :: ColumnReconciled(current, data, cols, newOrder, c)
  }

  /** Because of the comma expression, the fetch effect merges the fetched ids
      into the done column only: every other column keeps its order, and a
      column the order did not have is not added. */
  lemma EffectOnlyDone(current: Order, data: seq<Task>, newOrder: Order)
    requires Reconciled(current, data, EffectColumns, newOrder)
    ensures Get(newOrder, Done) == MergeColumn(Get(current, Done), ColumnIds(data, Done)).ids
    ensures forall c :: c != Done ==> (c in newOrder <==> c in current) && Get(newOrder, c) == Get(current, c)
  {
    assert ColumnReconciled(current, data, EffectColumns, newOrder, Done);
    forall c | c != Done
      ensures (c in newOrder <==> c in current) && Get(newOrder, c) == Get(current, c)
    {
      assert ColumnReconciled(current, data, EffectColumns, newOrder, c);
      assert c !in EffectColumns;
    }
  }

  /** One turn of the effect's loop keeps `Reconciled` for one more column. */
  lemma ReconcileStep(current: Order, data: seq<Task>, cols: seq<Column>, n: nat, newOrder: Order)
    requires n < |cols| && Reconciled(current, data, cols[..n], newOrder)
    ensures var c := cols[n];
            var next := if Changes(current, data, c) then newOrder[c := MergeColumn(Get(current, c), ColumnIds(data, c)).ids] else newOrder;
            Reconciled(current, data, cols[..n + 1], next)
  {
    var c0 := cols[n];
    var next := if Changes(current, data, c0) then newOrder[c0 := MergeColumn(Get(current, c0), ColumnIds(data, c0)).ids] else newOrder;
    var walked := cols[..n + 1];
    assert walked == cols[..n] + [c0];
    forall c ensures ColumnReconciled(current, data, walked, next, c) {
      assert ColumnReconciled(current, data, cols[..n], newOrder, c);
      assert c in walked <==> c in cols[..n] || c == c0;
    }
  }

  /** The effect's `forEach` over `cols`, reading every column from `current`
      and writing merged columns into the copy `newOrder`. */
  method ReconcileColumns(current: Order, data: seq<Task>, cols: seq<Column>) returns (newOrder: Order, hasChanges: bool)
    ensures Reconciled(current, data, cols, newOrder)
    ensures hasChanges <==> exists c :: c in cols && Changes(current, data, c)
    ensures !hasChanges ==> newOrder == current
  {
    newOrder := current;
    hasChanges := false;
    var n := 0;
    while n < |cols|
      invariant 0 <= n <= |cols|
      invariant Reconciled(current, data, cols[..n], newOrder)
      invariant hasChanges <==> exists c :: c in cols[..n] && Changes(current, data, c)
      invariant !hasChanges ==> newOrder == current
    {
      var col := cols[n];
      var colTasks := ColumnIds(data, col);
      var existing := if col in current then current[col] else [];
      var m := MergeColumn(existing, colTasks);
      ReconcileStep(current, data, cols, n, newOrder);
      assert cols[..n + 1] == cols[..n] + [col];
      if m.changed {
        newOrder := newOrder[col := m.ids];
        hasChanges := true;
      }
      n := n + 1;
    }
    assert cols[..n] == cols;
  }

  /** Reconciling an order that is already reconciled against the same data
      reports no change. */
  lemma ReconcileStable(current: Order, data: seq<Task>, cols: seq<Column>, newOrder: Order)
    requires Reconciled(current, data, cols, newOrder)
    ensures forall c :: c in cols ==> !Changes(newOrder, data, c)
  {
    forall c | c in cols ensures !Changes(newOrder, data, c) {
      assert ColumnReconciled(current, data, cols, newOrder, c);
      MergeIdempotent(Get(current, c), ColumnIds(data, c));
    }
  }

  // ---------------------------------------------------------------------------
  // A drop (src/components/KanbanBoard.jsx:89-127).

  /** `draggedTask?.id ?? parseInt(transfer, 10)`, with `!draggedId` aborting:
      `None` for an id of 0 or an unparsable transfer (`NaN`, here `None`). */
  function DraggedId(dragged: Option<Task>, transfer: Option<int>): (r: Option<int>)
    ensures r.Some? ==> r.value != 0
    ensures dragged.Some? ==> r == (if dragged.value.id != 0 then Some(dragged.value.id) else None)
    ensures dragged.None? ==> (r.Some? <==> transfer.Some? && transfer.value != 0) && (r.Some? ==> r == transfer)
  {
    var id := if dragged.Some? then Some(dragged.value.id) else transfer;
    if id.Some? && id.value != 0 then id else None
  }

  /** `draggedTask?.column ?? tasks.find((x) => x.id === draggedId)?.column`:
      `None` is the `undefined` column of a dragged id no task has. */
  function SourceColumn(dragged: Option<Task>, tasks: seq<Task>, id: int): (r: Option<Column>)
    ensures dragged.Some? ==> r == Some(dragged.value.column)
    ensures dragged.None? ==> (r.None? <==> forall t :: t in tasks ==> t.id != id)
    ensures dragged.None? && r.Some? ==> r.value == tasks[IndexById(tasks, id)].column
  {
    if dragged.Some? then Some(dragged.value.column)
    else match FindById(tasks, id)
      case None => None
      case Some(t) => Some(t.column)
  }

  /** The splice index: the drop index, one less when the card moves down within
      its own column, because removing it first shifted the later cards up. */
  function InsertIndex(order: Order, id: int, src: Option<Column>, target: Column, index: nat): (r: nat)
    ensures r <= index <= r + 1
    ensures r < index <==> src == Some(target) && 0 <= IndexOf(Get(order, target), id) < index
  {
    if src == Some(target) then
      var si := IndexOf(Get(order, target), id);
      if si != -1 && index > si then index - 1 else index
    else index
  }

  /** The order after the dragged id left its source column. With no source
      column (`undefined`) nothing is removed. */
  function DropBase(order: Order, id: int, src: Option<Column>): Order
  {
    if src.Some? then order[src.value := Without(Get(order, src.value), id)] else order
  }

  /** Where the id enters the target column: the adjusted index, or the end. */
  function DropAt(order: Order, id: int, src: Option<Column>, target: Column, index: Option<nat>): nat
  {
    if index.Some? then InsertIndex(order, id, src, target, index.value) else |Get(DropBase(order, id, src), target)|
  }

  /** The order the drop commits: the dragged id leaves its source column and
      enters the target column at the (adjusted) index, or at its end when no
      index was given. */
  function DropOrder(order: Order, id: int, src: Option<Column>, target: Column, index: Option<nat>): (r: Order)
    ensures target in r && id in Get(r, target)
    ensures src.Some? && src.value != target ==> id !in Get(r, src.value)
    ensures forall c :: c != target && src != Some(c) ==> (c in r <==> c in order) && Get(r, c) == Get(order, c)
  {
    var base := DropBase(order, id, src);
    base[target := InsertAt(Get(base, target), DropAt(order, id, src, target, index), id)]
  }

  /** The steps of `handleDrop` on its copy `currentOrder` of the order: filter
      the source column, then splice into the target column, or push onto it
      when no index was given. */
  method DropRewrite(taskOrder: Order, draggedId: int, sourceColumn: Option<Column>, column: Column, index: Option<nat>)
    returns (currentOrder: Order)
    ensures currentOrder == DropOrder(taskOrder, draggedId, sourceColumn, column, index)
  {
    currentOrder := taskOrder;
    if sourceColumn.Some? {
      currentOrder := currentOrder[sourceColumn.value := Without(Get(currentOrder, sourceColumn.value), draggedId)];
    }
    ghost var base := currentOrder;
    assert base == DropBase(taskOrder, draggedId, sourceColumn);
    var target := Get(currentOrder, column);
    ghost var at := DropAt(taskOrder, draggedId, sourceColumn, column, index);
    if index.Some? {
      var insertIndex := index.value;
      if sourceColumn == Some(column) {
        var sourceIndex := IndexOf(Get(taskOrder, column), draggedId);
        if sourceIndex != -1 && insertIndex > sourceIndex {
          insertIndex := insertIndex - 1;
        }
      }
      assert insertIndex == at;
      currentOrder := currentOrder[column := InsertAt(target, insertIndex, draggedId)];
    } else {
      assert at == |target|;
      PushIsInsertAtEnd(target, draggedId);
      currentOrder := currentOrder[column := target + [draggedId]];
    }
    assert currentOrder == base[column := InsertAt(target, at, draggedId)];
  }

  lemma {:induction false} WithoutLength(s: seq<int>, id: int)
    ensures |Without(s, id)| == |s| - multiset(s)[id]
  {
    if s != [] {
      WithoutLength(s[1..], id);
      assert s == [s[0]] + s[1..];
      assert Filter(s, IsNot(id)) == (if s[0] != id then [s[0]] else []) + Filter(s[1..], IsNot(id));
    }
  }

  /** A drop onto another column, or with no known source column: the source
      column, if any, loses every occurrence of the id and keeps everything
      else in order; the target column gains the id once, at the drop index or
      at the end, with its other ids before and after it as they were. */
  lemma DropAcrossColumns(order: Order, id: int, src: Option<Column>, target: Column, index: Option<nat>)
    requires src != Some(target)
    ensures var r := DropOrder(order, id, src, target, index);
            var t := Get(order, target);
            var k := Min(if index.Some? then index.value else |t|, |t|);
            && (src.Some? ==> Get(r, src.value) == Without(Get(order, src.value), id))
            && |Get(r, target)| == |t| + 1
            && multiset(Get(r, target)) == multiset(t) + multiset{id}
            && Get(r, target)[k] == id
            && Get(r, target)[..k] == t[..k]
            && Get(r, target)[k + 1..] == t[k..]
  {
    var base := DropBase(order, id, src);
    assert Get(base, target) == Get(order, target);
    InsertAtCount(Get(order, target), DropAt(order, id, src, target, index), id);
  }

  /** A drop inside one column: afterwards the id occurs exactly once there, at
      the adjusted index or last, the column has lost only the surplus copies,
      and the other ids keep their relative order. */
  lemma DropWithinColumn(order: Order, id: int, col: Column, index: Option<nat>)
    ensures var r := DropOrder(order, id, Some(col), col, index);
            var s := Get(order, col);
            && multiset(Get(r, col))[id] == 1
            && (forall x :: x != id ==> multiset(Get(r, col))[x] == multiset(s)[x])
            && |Get(r, col)| == |s| + 1 - multiset(s)[id]
            && Without(Get(r, col), id) == Without(s, id)
            && (index.Some? ==> Get(r, col)[Min(InsertIndex(order, id, Some(col), col, index.value), |Without(s, id)|)] == id)
            && (index.None? ==> Get(r, col)[|Get(r, col)| - 1] == id)
  {
    var w := Without(Get(order, col), id);
    var k := DropAt(order, id, Some(col), col, index);
    WithoutLength(Get(order, col), id);
    WithoutKeepsOthers(Get(order, col), id);
    InsertAtCount(w, k, id);
    DropWithinShape(order, id, col, index);
    WithoutInserted(w, k, id);
  }

  /** Filtering out an id that was inserted into a sequence without it undoes
      the insertion. */
  lemma WithoutInserted(w: seq<int>, k: nat, id: int)
    requires id !in w
    ensures Without(InsertAt(w, k, id), id) == w
  {
    var m := Min(k, |w|);
    assert InsertAt(w, k, id) == w[..m] + [id] + w[m..];
    assert w == w[..m] + w[m..];
    WithoutSingle(w[..m], w[m..], id);
  }

  /** The target column after a drop inside one column. */
  lemma DropWithinShape(order: Order, id: int, col: Column, index: Option<nat>)
    ensures Get(DropOrder(order, id, Some(col), col, index), col)
              == InsertAt(Without(Get(order, col), id), DropAt(order, id, Some(col), col, index), id)
  {
    assert Get(DropBase(order, id, Some(col)), col) == Without(Get(order, col), id);
  }

  /** With the id once in its column at `si`, dropping it at order index `i`
      (another id's index) places it immediately before the id at order index
      `i`. */
  lemma DropLandsBeforeTarget(order: Order, id: int, col: Column, si: nat, i: nat)
    requires var s := Get(order, col); si < |s| && s[si] == id && id !in s[..si] && id !in s[si + 1..]
    requires i < |Get(order, col)| && i != si
    ensures var r := Get(DropOrder(order, id, Some(col), col, Some(i)), col);
            var s := Get(order, col);
            exists k :: 0 <= k < |r| - 1 && r[k] == id && r[k + 1] == s[i]
  {
    var s := Get(order, col);
    WithoutIsRemoveAt(s, id, si);
    DropWithinShape(order, id, col, Some(i));
    assert IndexOf(s, id) == si;
    assert DropAt(order, id, Some(col), col, Some(i)) == if i > si then i - 1 else i;
    MoveLandsBefore(s, si, i);
  }

  /** Taking out the element at `si` and putting it back at `i`, one less when
      `i` lay after `si`, places it immediately before the element that was at
      `i`. */
  lemma MoveLandsBefore(s: seq<int>, si: nat, i: nat)
    requires si < |s| && i < |s| && i != si
    ensures var r := InsertAt(RemoveAt(s, si), if i > si then i - 1 else i, s[si]);
            exists k :: 0 <= k < |r| - 1 && r[k] == s[si] && r[k + 1] == s[i]
  {
    var rm := RemoveAt(s, si);
    if i > si {
      var r := InsertAt(rm, i - 1, s[si]);
      assert r[i] == rm[i - 1] by {
        assert r[i..] == rm[i - 1..];
      }
      assert rm[i - 1] == s[i] by {
        assert rm[si..] == s[si + 1..];
      }
      assert r[i - 1] == s[si];
    } else {
      var r := InsertAt(rm, i, s[si]);
      assert r[i + 1] == rm[i] by {
        assert r[i + 1..] == rm[i..];
      }
      assert rm[i] == s[i] by {
        assert rm[..si] == s[..si];
      }
    }
  }

  /** Removing the only occurrence of an id is removing its index. */
  lemma WithoutIsRemoveAt(s: seq<int>, id: int, k: nat)
    requires k < |s| && s[k] == id && id !in s[..k] && id !in s[k + 1..]
    ensures Without(s, id) == RemoveAt(s, k)
  {
    assert s == s[..k] + [id] + s[k + 1..];
    WithoutSingle(s[..k], s[k + 1..], id);
  }

  lemma WithoutSingle(a: seq<int>, b: seq<int>, id: int)
    requires id !in a && id !in b
    ensures Without(a + [id] + b, id) == a + b
  {
    var p := IsNot(id);
    FilterAll(a, p);
    FilterAll(b, p);
    assert Filter([id], p) == [] by {
      assert [id][1..] == [];
    }
    FilterConcat(a, [id], p);
    assert Filter(a + [id], p) == a;
    FilterConcat(a + [id], b, p);
  }

  /** The worked example: `[1, 2, 3]` with 1 dropped at index 2 becomes `[2, 1, 3]`. */
  lemma DropSameColumnExample()
    ensures Get(DropOrder(map[Backlog := [1, 2, 3]], 1, Some(Backlog), Backlog, Some(2)), Backlog) == [2, 1, 3]
  {
    var order := map[Backlog := [1, 2, 3]];
    assert Get(order, Backlog) == [1, 2, 3];
    ExampleWithout();
    ExampleIndex();
    ExampleInsert();
    assert DropAt(order, 1, Some(Backlog), Backlog, Some(2)) == 1;
    DropWithinShape(order, 1, Backlog, Some(2));
  }

  /** A column the fetch never recorded: dropping the first of its cards on the
      third writes just that id, so the other cards stay unnamed. */
  lemma DropOnUnnamedExample()
    ensures Get(DropOrder(map[Backlog := []], 1, Some(Backlog), Backlog, Some(2)), Backlog) == [1]
  {
  }

  lemma ExampleWithout()
    ensures Without([1, 2, 3], 1) == [2, 3]
  {
    var s := [1, 2, 3];
    assert s[1..] == [2, 3] && s[..0] == [];
    WithoutIsRemoveAt(s, 1, 0);
  }

  lemma ExampleIndex()
    ensures IndexOf([1, 2, 3], 1) == 0
  {
    var s := [1, 2, 3];
    assert s[0] == 1;
  }

  lemma ExampleInsert()
    ensures InsertAt([2, 3], 1, 1) == [2, 1, 3]
  {
    var s := [2, 3];
    assert s[..1] == [2] && s[1..] == [3];
  }

  // ---------------------------------------------------------------------------
  // A delete (src/components/KanbanBoard.jsx:153-156).

  /** Every column of the order with every occurrence of `id` removed: no
      column names the id any more, and every other id keeps its multiplicity
      and relative order in every column. */
  function DeleteFromAll(order: Order, id: int): (r: Order)
    ensures r.Keys == order.Keys
    ensures forall c :: id !in Get(r, c)
    ensures forall c :: Subseq(Get(r, c), Get(order, c))
    ensures forall c, x :: x != id ==> multiset(Get(r, c))[x] == multiset(Get(order, c))[x]
  {
    var r := map c | c in order :: Without(order[c], id);
    WithoutInEveryColumn(order, id, r);
    r
  }

  /** Filtering the id out of every column keeps, in each, the other ids in
      order and with their multiplicities. */
  lemma WithoutInEveryColumn(order: Order, id: int, r: Order)
    requires r.Keys == order.Keys
    requires forall c :: c in order ==> r[c] == Without(order[c], id)
    ensures forall c :: Subseq(Get(r, c), Get(order, c))
    ensures forall c, x :: x != id ==> multiset(Get(r, c))[x] == multiset(Get(order, c))[x]
  {
    forall c ensures Subseq(Get(r, c), Get(order, c))
      ensures forall x :: x != id ==> multiset(Get(r, c))[x] == multiset(Get(order, c))[x]
    {
      if c in order {
        WithoutKeepsOthers(order[c], id);
      } else {
        SubseqRefl(Get(order, c));
      }
    }
  }
}
