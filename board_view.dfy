/** What one board column shows (src/components/KanbanBoard.jsx:169-189,
    226-313): the search filter, the tasks in the tracked order followed by the
    untracked ones, the first `loadedItems[col]` of them, the "Load More"
    control and the drop marker. */
module BoardView {
  import opened Domain
  import opened Seqs
  import opened Text

  /** The filter of `getOrderedTasks`: an empty search term keeps every task of
      the column; otherwise the lower-cased title or description must contain
      the lower-cased term. */
  function Matches(t: Task, term: string, col: Column): (b: bool)
    ensures b ==> t.column == col
    ensures term == [] ==> (b <==> t.column == col)
    ensures term != [] ==>
              (b <==> t.column == col && (Occurs(Lower(t.title), Lower(term)) || Occurs(Lower(t.description), Lower(term))))
  {
    if term == [] then t.column == col
    else
      var s := Lower(term);
      t.column == col && (Contains(Lower(t.title), s) || Contains(Lower(t.description), s))
  }

  function MatchesIn(term: string, col: Column): Task -> bool
  {
    (t: Task) => Matches(t, term, col)
  }

  /** `tasks.filter(...)` with the search filter. */
  function ColumnTasks(tasks: seq<Task>, term: string, col: Column): (r: seq<Task>)
    ensures forall t :: t in r <==> t in tasks && Matches(t, term, col)
  {
    Filter(tasks, MatchesIn(term, col))
  }

  /** `colTasks.find((x) => x.id === id)`, pushed when found. */
  function Found(colTasks: seq<Task>, id: int): (r: seq<Task>)
    ensures |r| <= 1
    ensures forall t :: t in r ==> t in colTasks && t.id == id
  {
    match FindById(colTasks, id)
    case None => []
    case Some(t) => [t]
  }

  /** The first loop of `getOrderedTasks`: for each id of the order, in order,
      the task of `colTasks` with that id, if any. */
  function Listed(order: seq<int>, colTasks: seq<Task>): (r: seq<Task>)
    ensures forall t :: t in r ==> t in colTasks && t.id in order
  {
    if order == [] then []
    else
      var prev := order[..|order| - 1];
      var r := Listed(prev, colTasks) + Found(colTasks, order[|order| - 1]);
      assert forall t :: t in Listed(prev, colTasks) ==> t.id in order by {
        forall t | t in Listed(prev, colTasks) ensures t.id in order {
          var k :| 0 <= k < |prev| && prev[k] == t.id;
          assert order[k] == t.id;
        }
      }
      r
  }

  /** One more id of the order adds the task found for it, if any. */
  lemma ListedSnoc(order: seq<int>, colTasks: seq<Task>, i: nat)
    requires i < |order|
    ensures Listed(order[..i + 1], colTasks) == Listed(order[..i], colTasks) + Found(colTasks, order[i])
  {
    assert order[..i + 1][..i] == order[..i];
  }

  function IdNotIn(order: seq<int>): Task -> bool
  {
    (t: Task) => t.id !in order
  }

  /** The second loop: the tasks whose id the order does not name, in fetch order. */
  function Unlisted(colTasks: seq<Task>, order: seq<int>): (r: seq<Task>)
    ensures forall t :: t in r <==> t in colTasks && t.id !in order
  {
    Filter(colTasks, IdNotIn(order))
  }

  /** One more task of the column is added when the order does not name it. */
  lemma UnlistedSnoc(colTasks: seq<Task>, order: seq<int>, j: nat)
    requires j < |colTasks|
    ensures Unlisted(colTasks[..j + 1], order)
              == Unlisted(colTasks[..j], order) + (if colTasks[j].id !in order then [colTasks[j]] else [])
  {
    assert colTasks[..j + 1] == colTasks[..j] + [colTasks[j]];
    FilterConcat(colTasks[..j], [colTasks[j]], IdNotIn(order));
    assert [colTasks[j]][1..] == [];
  }

  /** `getOrderedTasks(col)` as a value. */
  function OrderedView(tasks: seq<Task>, order: seq<int>, term: string, col: Column): (r: seq<Task>)
    ensures forall t :: t in r ==> t in tasks && Matches(t, term, col)
    ensures forall t :: t in tasks && Matches(t, term, col) && t.id !in order ==> t in r
  {
    var colTasks := ColumnTasks(tasks, term, col);
    Listed(order, colTasks) + Unlisted(colTasks, order)
  }

  /** Every task shown is a task of the column that passes the search. */
  lemma ViewSound(tasks: seq<Task>, order: seq<int>, term: string, col: Column)
    ensures forall t :: t in OrderedView(tasks, order, term, col) ==>
              && t in tasks && t.column == col
              && (term != [] ==> Contains(Lower(t.title), Lower(term)) || Contains(Lower(t.description), Lower(term)))
  {
  }

  /** A listed id whose task is in `colTasks` brings that task into the view. */
  lemma {:induction false} ListedHas(order: seq<int>, colTasks: seq<Task>, id: int)
    requires id in order && FindById(colTasks, id).Some?
    ensures FindById(colTasks, id).value in Listed(order, colTasks)
  {
    var last := order[|order| - 1];
    var prev := order[..|order| - 1];
    assert order == prev + [last];
    if last != id {
      assert id in prev;
      ListedHas(prev, colTasks, id);
    }
  }

  /** With distinct ids every task of the column that passes the search is shown. */
  lemma ViewComplete(tasks: seq<Task>, order: seq<int>, term: string, col: Column)
    requires UniqueIds(tasks)
    ensures forall t :: t in tasks && Matches(t, term, col) ==> t in OrderedView(tasks, order, term, col)
  {
    var colTasks := ColumnTasks(tasks, term, col);
    forall t | t in tasks && Matches(t, term, col) ensures t in OrderedView(tasks, order, term, col) {
      if t.id in order {
        var f := FindById(colTasks, t.id);
        ListedHas(order, colTasks, t.id);
        var i :| 0 <= i < |tasks| && tasks[i] == t;
        var j :| 0 <= j < |tasks| && tasks[j] == f.value;
        assert i == j;
      }
    }
  }

  /** Tasks the order names come before the tasks it does not name. */
  lemma ViewListedFirst(tasks: seq<Task>, order: seq<int>, term: string, col: Column)
    ensures var v := OrderedView(tasks, order, term, col);
            forall i, j :: 0 <= i < j < |v| && v[j].id in order ==> v[i].id in order
  {
    var colTasks := ColumnTasks(tasks, term, col);
    var l := Listed(order, colTasks);
    var u := Unlisted(colTasks, order);
    var v := l + u;
    forall i, j | 0 <= i < j < |v| && v[j].id in order ensures v[i].id in order {
      if j >= |l| {
        assert false;
      }
      assert v[i] in l;
    }
  }

  function HasTaskIn(colTasks: seq<Task>): int -> bool
  {
    (id: int) => FindById(colTasks, id).Some?
  }

  /** The named tasks appear in the order's sequence: their ids are the order's
      ids that have a task in the column, in the order's order (repeats
      included). */
  lemma {:induction false} ListedFollowsOrder(order: seq<int>, colTasks: seq<Task>)
    ensures Ids(Listed(order, colTasks)) == Filter(order, HasTaskIn(colTasks))
  {
    if order != [] {
      var last := order[|order| - 1];
      var prev := order[..|order| - 1];
      assert order == prev + [last];
      ListedFollowsOrder(prev, colTasks);
      FilterConcat(prev, [last], HasTaskIn(colTasks));
      assert [last][1..] == [];
      IdsConcat(Listed(prev, colTasks), Found(colTasks, last));
    }
  }

  /** The untracked tasks keep the order in which the server returned them. */
  lemma UnlistedInFetchOrder(tasks: seq<Task>, order: seq<int>, term: string, col: Column)
    ensures var colTasks := ColumnTasks(tasks, term, col);
            Subseq(Unlisted(colTasks, order), tasks)
  {
    var colTasks := ColumnTasks(tasks, term, col);
    FilterSubseq(tasks, MatchesIn(term, col));
    FilterSubseq(colTasks, IdNotIn(order));
    SubseqTrans(Unlisted(colTasks, order), colTasks, tasks);
  }

  /** Searching for the lower-cased term finds the same tasks. */
  lemma SearchIgnoresCase(t: Task, term: string, col: Column)
    ensures Matches(t, Lower(term), col) == Matches(t, term, col)
  {
    LowerIdempotent(term);
  }

  // ---------------------------------------------------------------------------
  // Pagination (src/components/KanbanBoard.jsx:228, 304-311).

  /** The end index `list.slice(0, limit)` uses on a list of length `n`: a
      negative limit counts from the end. */
  function SliceEnd(n: nat, limit: int): (k: nat)
    ensures k <= n
    ensures limit >= 0 ==> k == Min(limit, n)
    ensures limit < 0 ==> k == if n + limit > 0 then n + limit else 0
  {
    if limit < 0 then (if n + limit > 0 then n + limit else 0)
    else if limit < n then limit else n
  }

  /** The rendered cards: a prefix of the column's ordered tasks. */
  function Visible(view: seq<Task>, limit: int): (r: seq<Task>)
    ensures |r| <= |view| && r == view[..|r|]
    ensures limit >= 0 ==> |r| == Min(limit, |view|)
  {
    view[..SliceEnd(|view|, limit)]
  }

  /** The count "Load More" shows: the tasks beyond a non-negative limit, or,
      for a negative limit, the last `-limit` tasks (at most all of them). */
  function Remaining(view: seq<Task>, limit: int): (k: nat)
    ensures limit >= 0 ==> k == if |view| > limit then |view| - limit else 0
    ensures limit < 0 ==> k == Min(-limit, |view|)
  {
    |view| - |Visible(view, limit)|
  }

  /** The control is shown exactly when some tasks are hidden, that is when a
      non-negative limit is below the number of tasks. */
  lemma LoadMoreShownIff(view: seq<Task>, limit: int)
    requires limit >= 0
    ensures Remaining(view, limit) > 0 <==> |view| > limit
  {
  }

  /** `loadMore(col)`: five more cards for that column, the others unchanged. */
  function Bump(c: Counts, col: Column): (r: Counts)
    ensures r.At(col) == c.At(col) + 5
    ensures forall d :: d != col ==> r.At(d) == c.At(d)
  {
    c.With(col, c.At(col) + 5)
  }

  /** Loading more keeps the cards already shown and shows up to five more,
      one fewer hidden task for each new card. */
  lemma LoadMoreExtends(view: seq<Task>, limit: int)
    requires limit >= 0
    ensures var before := Visible(view, limit);
            var after := Visible(view, limit + 5);
            && before == after[..|before|]
            && |after| == Min(|before| + 5, |view|)
            && Remaining(view, limit + 5) == Remaining(view, limit) - (|after| - |before|)
  {
  }

  // ---------------------------------------------------------------------------
  // The drop marker (src/components/KanbanBoard.jsx:254-263, 293-302).

  /** Whether the marker line is drawn before card `idx` of column `col`
      (`idx == visibleCount` is the line after the last card). */
  predicate ShowsMarker(overColumn: Option<Column>, overIndex: Option<nat>, col: Column, idx: nat, visibleCount: nat)
  {
    idx <= visibleCount && overColumn == Some(col) && overIndex == Some(idx)
  }

  /** The whole board draws at most one marker, and none once the hover state
      is cleared. */
  lemma AtMostOneMarker(overColumn: Option<Column>, overIndex: Option<nat>, c1: Column, i1: nat, n1: nat, c2: Column, i2: nat, n2: nat)
    ensures ShowsMarker(overColumn, overIndex, c1, i1, n1) && ShowsMarker(overColumn, overIndex, c2, i2, n2) ==> c1 == c2 && i1 == i2
    ensures overColumn == None || overIndex == None ==> !ShowsMarker(overColumn, overIndex, c1, i1, n1)
  {
  }
}
