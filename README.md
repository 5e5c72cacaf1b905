# Kanban board: a verified model of the board, its store and the task form

This project models the core of a single-page Kanban board, which has four fixed
columns: `backlog`, `inprogress`, `review` and `done`.

- **The shared store** (`src/store/useTaskStore.js`, module `TaskStore`). It holds:
  - the fetched tasks;
  - the search term;
  - the number of cards shown per column (`loadedItems`);
  - the per-column display order (`taskOrder`);
  - the task being edited and whether the form is open.

  Each field has a setter. The store also offers the two helpers `moveTask` and
  `reorderTask`, which rewrite the task list by a `status` field.
- **The board** (`src/components/KanbanBoard.jsx`, modules `BoardOrder`, `BoardView`
  and `KanbanBoard`):
  - the effect that merges freshly fetched tasks into the display order;
  - drag and drop between and within columns;
  - delete, edit, search and "Add Task";
  - "Load More";
  - the ordering and search filter of a column (`getOrderedTasks`);
  - the visible slice, the remaining count and the drop marker.
- **The task form** (`src/components/TaskModal.jsx`, module `TaskModal`):
  - the fields are filled when the form opens;
  - `close`;
  - `save`, which refuses a blank title and otherwise sends an update or a create.

The store, the board and the form change state step by step, so each is a class.
`Store` owns the six store fields. `Board` owns the drag state and the requests it
has sent. `Modal` owns the three form fields and its requests. Each handler is a
method whose `ensures` clauses give the whole new state. The logic is modelled as
functions, with lemmas about them:

- the merge;
- the drop's rewrite of the order;
- the ordered view;
- the store helpers.

The two loops of `getOrderedTasks`, the column loop of the fetch effect and the
key loop of `handleDelete` are methods with loop invariants. The loops of
`getOrderedTasks` and of `handleDelete` are proved equal to their specification
functions (`Listed`, `Unlisted`, `DeleteFromAll`). The fetch effect's loop is proved
to satisfy the relation `Reconciled`: each listed column that changed holds its
merged ids, and every other column is untouched.

The server is represented by requests. A handler appends what it sends to its
log: `Update`, `Create`, `Delete`, and `InvalidateTasks` for a refetch of the task
list. The server's answer is a boolean parameter wherever it changes what the
handler does next.

The fetch effect is modelled as the code runs. The column list at
`src/components/KanbanBoard.jsx:44` is written `[('backlog', 'inprogress', 'review',
'done')]`. The inner parentheses form a JavaScript comma expression, so the list has
the single element `'done'`. As a result only the `done` column is merged after a
fetch. A task that arrives in another column is still shown, because
`getOrderedTasks` appends tasks the order does not name. The fetch never records
its position; only a drop writes its id into that column's order. One consequence:
with three unnamed cards A, B, C in `backlog`, dropping A on C changes the backlog
order from `[]` to `[A]`, so the column still reads A, B, C
(`BoardOrder.DropOnUnnamedExample`).

- `ReconcileColumns` is the general loop over any list of columns, with its
  invariant.
- `EffectColumns` is the one-element list the code actually walks.
- `KanbanBoard.Board.OnTasksFetched` proves that no column other than `done` is
  ever touched.

## Model

| member | source | states |
|---|---|---|
| TaskStore.Store.constructor | src/store/useTaskStore.js:4-9 | The initial state: no tasks, an empty search, 5 cards per column, an empty order for each of the four columns, no task being edited, the form closed |
| TaskStore.Store.SetTasks | src/store/useTaskStore.js:11 | Replaces the task list and leaves the other five fields unchanged |
| TaskStore.Store.SetSearchTerm | src/store/useTaskStore.js:12 | Replaces the search term and leaves the other fields unchanged |
| TaskStore.Store.SetLoadedItems | src/store/useTaskStore.js:13-16 | A function argument is applied to the current counts; any other argument replaces them; other fields unchanged |
| TaskStore.Store.SetTaskOrder | src/store/useTaskStore.js:17 | Replaces the order and leaves the other fields unchanged |
| TaskStore.Store.SetEditingTask | src/store/useTaskStore.js:18 | Replaces the edited task and leaves the other fields unchanged |
| TaskStore.Store.SetModalOpen | src/store/useTaskStore.js:19 | Sets the open flag and leaves the other fields unchanged |
| TaskStore.Store.MoveTask | src/store/useTaskStore.js:20-43 | The task list becomes `MoveTasks` of the old list; nothing else changes |
| TaskStore.Store.ReorderTask | src/store/useTaskStore.js:45-62 | The task list becomes `ReorderTasks` of the old list; nothing else changes |
| TaskStore.MoveIndex | src/store/useTaskStore.js:31-37 | The insertion index lies inside the group exactly when a truthy target id is in the group, and then it is the index of the first task with that id; otherwise it is the end of the group |
| TaskStore.MoveTasks | src/store/useTaskStore.js:22-23 | An id no task has leaves the list as it is |
| TaskStore.MoveTaskKeepsTasks | src/store/useTaskStore.js:22-42 | With distinct ids the list keeps its length, and the only change to its contents is that the moved task now carries the new status |
| TaskStore.MoveTaskOthersFirst | src/store/useTaskStore.js:25-42 | The tasks of other statuses come first, in their original relative order; exactly the other tasks whose status differs appear there |
| TaskStore.MoveTaskGroupStatus | src/store/useTaskStore.js:26-42 | Every task after that prefix has the new status |
| TaskStore.MoveTaskPlacement | src/store/useTaskStore.js:31-40 | When a truthy target is found in the group, the moved task sits immediately before it; otherwise the moved task is last |
| TaskStore.ReorderTasks | src/store/useTaskStore.js:50-55 | When either id is not in the status group, the list is left as it is |
| TaskStore.ReorderTaskPermutes | src/store/useTaskStore.js:45-62 | The result is a permutation of the input in every case |
| TaskStore.ReorderTaskOthersFirst | src/store/useTaskStore.js:48-61 | The tasks of other statuses come first, in their original relative order |
| TaskStore.ReorderTaskPlacement | src/store/useTaskStore.js:53-61 | The dragged task lands at the target's original index within the group, and the whole group keeps its status |
| TaskStore.StatusPartition | src/store/useTaskStore.js:47-48 | The two status filters together keep every task exactly once |
| TaskStore.MoveTasksCount | src/store/useTaskStore.js:25-42 | The result holds every other task once and the moved task with its new status |
| TaskStore.WithoutFoundTask | src/store/useTaskStore.js:22-25 | With distinct ids, filtering the id out removes exactly the task `find` returned |
| BoardOrder.MergeColumn | src/components/KanbanBoard.jsx:48-54 | The merged column holds exactly the fetched ids of the column; it is reported changed exactly when it differs from the old sequence |
| BoardOrder.MergeSurvivorsInOrder | src/components/KanbanBoard.jsx:50-52 | Ids that were tracked before and are still fetched keep their old relative order |
| BoardOrder.MergeNewInFetchOrder | src/components/KanbanBoard.jsx:49-52 | Newly tracked ids appear in the order the server returned them |
| BoardOrder.MergeOldBeforeNew | src/components/KanbanBoard.jsx:52 | Every previously tracked id comes before every new one |
| BoardOrder.MergeIdempotent | src/components/KanbanBoard.jsx:51-54 | Merging the same fetch again reports no change and yields the same sequence |
| BoardOrder.ReconcileColumns | src/components/KanbanBoard.jsx:41-55 | Each listed column whose merge changed holds its merged ids, and every other column keeps its old sequence; the change flag is set exactly when some listed column changed; with no change the order is returned untouched |
| BoardOrder.ReconcileStep | src/components/KanbanBoard.jsx:44-54 | One iteration of the `forEach` extends the reconciliation to one more column |
| BoardOrder.ReconcileStable | src/components/KanbanBoard.jsx:37-58 | A second run of the effect on the same data reports no change, so it writes nothing |
| BoardOrder.EffectOnlyDone | src/components/KanbanBoard.jsx:44-55 | The comma expression makes the effect walk only `[Done]`. The done column gets the merged ids, and every other column keeps its order and its presence |
| BoardOrder.ColumnIdsFilterMap | src/components/KanbanBoard.jsx:45-47 | The fetched ids of a column are the column filter followed by the id map, in fetch order |
| BoardOrder.DraggedId | src/components/KanbanBoard.jsx:89-92 | The dragged task's id when there is a dragged task, otherwise the parsed transfer id; an id of 0 or an unparsable transfer aborts the drop |
| BoardOrder.SourceColumn | src/components/KanbanBoard.jsx:95-101 | The dragged task's column; without a dragged task, the column of the first task with the id, or none when no task has it |
| BoardOrder.InsertIndex | src/components/KanbanBoard.jsx:114-123 | The splice index is the drop index, one less exactly when the card moves down within its own column (its old position lies before the drop index) |
| BoardOrder.DropOrder | src/components/KanbanBoard.jsx:104-127 | After a drop the target column exists and holds the id; a different source column no longer holds it; every other column keeps its sequence and whether it exists |
| BoardOrder.DropRewrite | src/components/KanbanBoard.jsx:94-127 | The filter of the source column followed by the splice or push into the target column yields `DropOrder` |
| BoardOrder.DropAcrossColumns | src/components/KanbanBoard.jsx:109-126 | A drop onto another column, or one whose source column is unknown, removes every occurrence of the id from the source, if there is one. The target gains exactly that one id, at the drop index (clamped to the end), or at the end when no index is given. The target's other ids stay before and after it as they were |
| BoardOrder.DropWithinColumn | src/components/KanbanBoard.jsx:109-126 | A drop inside one column leaves exactly one occurrence of the id, at the adjusted index (clamped) or last when no index is given. Every other id keeps its multiplicity and its relative order |
| BoardOrder.DropLandsBeforeTarget | src/components/KanbanBoard.jsx:114-124 | With the id once in its column at order index si, a drop at index i (not si) places it immediately before the id that was at order index i, whether it moves up or down |
| BoardOrder.WithoutIsRemoveAt | src/components/KanbanBoard.jsx:109-111 | Filtering out an id that occurs once is removal at its index |
| BoardOrder.DropSameColumnExample | src/components/KanbanBoard.jsx:114-124 | `[1, 2, 3]`, with 1 dropped on index 2, becomes `[2, 1, 3]` |
| BoardOrder.DropOnUnnamedExample | src/components/KanbanBoard.jsx:109-124 | With an empty column order, dropping a card on the card at index 2 yields the order holding just that id |
| BoardOrder.WithoutKeepsOthers | src/components/KanbanBoard.jsx:109-111 | Filtering out an id keeps the remaining ids in order and with their multiplicities |
| BoardOrder.DeleteFromAll | src/components/KanbanBoard.jsx:153-156 | After a delete no column names the id; every other id keeps its multiplicity and relative order in every column; the same columns exist |
| BoardView.Matches | src/components/KanbanBoard.jsx:171-179 | A task matches only in its own column; an empty term matches every task of the column; a non-empty term matches exactly when its lower-cased form occurs in the lower-cased title or description |
| BoardView.ColumnTasks | src/components/KanbanBoard.jsx:171-179 | Exactly the tasks of the column that pass the search filter |
| BoardView.Listed | src/components/KanbanBoard.jsx:181-184 | The first loop yields only tasks of the filtered column whose ids the order names |
| BoardView.Unlisted | src/components/KanbanBoard.jsx:185-187 | The second loop yields exactly the filtered tasks whose ids the order does not name |
| BoardView.OrderedView | src/components/KanbanBoard.jsx:169-189 | Every task in the view is a fetched task that passes the filter, and every such task whose id the order does not name is in it |
| BoardView.ViewSound | src/components/KanbanBoard.jsx:169-189 | Every shown task belongs to the column, comes from the fetched list, and matches the search term, case-insensitively, in its title or description |
| BoardView.ViewComplete | src/components/KanbanBoard.jsx:169-189 | With distinct ids, every fetched task of the column that passes the search is shown |
| BoardView.ViewListedFirst | src/components/KanbanBoard.jsx:180-187 | Tasks the order names come before tasks it does not name |
| BoardView.ListedFollowsOrder | src/components/KanbanBoard.jsx:181-184 | The ids of the named tasks are the order's ids that have a task in the column, in the order's sequence |
| BoardView.ListedHas | src/components/KanbanBoard.jsx:181-184 | A named id whose task passes the filter brings that task into the view |
| BoardView.UnlistedInFetchOrder | src/components/KanbanBoard.jsx:185-187 | The unnamed tasks keep the server's order |
| BoardView.SearchIgnoresCase | src/components/KanbanBoard.jsx:172-177 | Searching for the lower-cased term selects the same tasks |
| BoardView.SliceEnd | src/components/KanbanBoard.jsx:228 | The end index of `slice(0, limit)`: a non-negative limit is capped at the length, and a negative limit counts from the end |
| BoardView.Visible | src/components/KanbanBoard.jsx:228 | The visible cards are a prefix of the column's ordered tasks, of length min(limit, count) for a non-negative limit |
| BoardView.Remaining | src/components/KanbanBoard.jsx:310 | The "remaining" count: for a non-negative limit, the tasks beyond it (0 when none); for a negative limit, the last -limit tasks, at most all |
| BoardView.LoadMoreShownIff | src/components/KanbanBoard.jsx:304 | "Load More" is shown exactly when the column has more tasks than the limit |
| BoardView.Bump | src/components/KanbanBoard.jsx:166-167 | The column's count grows by 5 and every other count is unchanged |
| BoardView.LoadMoreExtends | src/components/KanbanBoard.jsx:304-311 | Loading more keeps the cards already shown and adds up to 5; the remaining count drops by the number added |
| BoardView.AtMostOneMarker | src/components/KanbanBoard.jsx:252-302 | At most one drop marker is drawn on the whole board, and none once the hover state is cleared |
| KanbanBoard.Board.constructor | src/components/KanbanBoard.jsx:60-62 | No dragged task and no hover marker; no requests sent |
| KanbanBoard.Board.OnTasksFetched | src/components/KanbanBoard.jsx:37-58 | Without data nothing changes. With data, the tasks are stored; only `done` is reconciled; every other column keeps its sequence; the order is left as it was when the `done` merge changes nothing |
| KanbanBoard.Board.DragStart | src/components/KanbanBoard.jsx:64-65 | The dragged task is remembered; nothing else changes |
| KanbanBoard.Board.DragOverCard | src/components/KanbanBoard.jsx:265-269 | The hover marker is set to the card's column and index |
| KanbanBoard.Board.DragEnd | src/components/KanbanBoard.jsx:74-79 | The dragged task and the hover marker are cleared |
| KanbanBoard.Board.Drop | src/components/KanbanBoard.jsx:81-148 | An id that is unresolved or 0 changes nothing. Otherwise: the order becomes `DropOrder`; when the column changed, one column-only update and one refetch are sent (on success and on failure alike); the hover marker is cleared; the dragged task is kept |
| KanbanBoard.Board.Delete | src/components/KanbanBoard.jsx:150-158 | The delete is always sent. On success a refetch follows and the order becomes `DeleteFromAll`. On failure the order is untouched |
| KanbanBoard.Board.Edit | src/components/KanbanBoard.jsx:160-163 | The form opens on the given task |
| KanbanBoard.Board.AddTask | src/components/KanbanBoard.jsx:216-219 | The form opens on no task |
| KanbanBoard.Board.Search | src/components/KanbanBoard.jsx:165 | The typed value becomes the search term |
| KanbanBoard.Board.LoadMore | src/components/KanbanBoard.jsx:166-167 | The column's count grows by 5 through the function form of the setter |
| KanbanBoard.Board.GetOrderedTasks | src/components/KanbanBoard.jsx:169-189 | The two loops build exactly `OrderedView`: the named tasks in the order's sequence, then the others in fetch order |
| KanbanBoard.CollectListed | src/components/KanbanBoard.jsx:180-184 | The first loop pushes, for each id of the order in turn, the column task with that id, giving `Listed` |
| KanbanBoard.AppendUnlisted | src/components/KanbanBoard.jsx:185-187 | The second loop appends exactly the column tasks the order does not name, in fetch order |
| KanbanBoard.Board.RenderColumn | src/components/KanbanBoard.jsx:226-313 | The header count is the number of ordered tasks; the cards are the visible slice; "Load More" appears exactly when tasks are hidden, showing how many |
| TaskModal.FormFields | src/components/TaskModal.jsx:24-30 | The fields of the edited task, or an empty title, an empty description and `backlog` |
| TaskModal.SaveRequest | src/components/TaskModal.jsx:37-49 | No request exactly when the title is blank after trimming; otherwise an update of title, description and column for the edited task, or a create. The title is sent untrimmed |
| TaskModal.SaveUntouchedEdit | src/components/TaskModal.jsx:24-46 | Saving an opened task unchanged sends back its own three fields |
| TaskModal.SaveFreshFormRejected | src/components/TaskModal.jsx:19-41 | The untouched new-task form cannot be saved |
| TaskModal.Modal.constructor | src/components/TaskModal.jsx:19-21 | The fields start as `''`, `''` and `backlog` |
| TaskModal.Modal.OnOpenOrEditingChange | src/components/TaskModal.jsx:23-30 | An open form takes its fields from `FormFields`; a closed form keeps them |
| TaskModal.Modal.SetTitle | src/components/TaskModal.jsx:19 | Only the title changes |
| TaskModal.Modal.SetDescription | src/components/TaskModal.jsx:20 | Only the description changes |
| TaskModal.Modal.SetColumn | src/components/TaskModal.jsx:21 | Only the column changes |
| TaskModal.Modal.Close | src/components/TaskModal.jsx:32-35 | The form is closed and no task is being edited; the rest of the store is unchanged |
| TaskModal.Modal.Send | src/components/TaskModal.jsx:42-50 | The request is appended to those sent. On success a refetch follows and the form closes. On failure nothing else changes. The form fields and the store's tasks, search, page size and order are untouched |
| TaskModal.Modal.Save | src/components/TaskModal.jsx:37-51 | A blank title is refused and nothing is sent. Otherwise `SaveRequest` is sent. On success a refetch follows and the form closes. On failure the form stays as it was |
| Text.Trim | src/components/TaskModal.jsx:38 | `trim()` cuts only whitespace, from both ends, and leaves a string that neither starts nor ends with whitespace |
| Text.TrimBothEnds | src/components/TaskModal.jsx:38 | Cutting the leading and then the trailing whitespace leaves a slice of the input, with only whitespace removed at either end |
| Text.Lower | src/components/KanbanBoard.jsx:173-177 | `toLowerCase()` keeps the length and maps each character through `LowerChar`, which lowers the ASCII capitals A-Z and keeps every other character |
| Text.TrimEmptyIffBlank | src/components/TaskModal.jsx:38 | `trim()` yields the empty string exactly when every character is whitespace |
| Text.Contains | src/components/KanbanBoard.jsx:176-177 | `includes` holds exactly when the term occurs at some position of the string |
| Domain.IndexById | src/store/useTaskStore.js:33-36 | `findIndex` by id: -1 exactly when no task has the id, otherwise the first such index |
| Domain.FindById | src/components/KanbanBoard.jsx:182 | `find` by id: nothing exactly when no task has the id, otherwise the first task of the list with that id |
| Seqs.IndexOf | src/components/KanbanBoard.jsx:117 | `indexOf`: -1 exactly when absent, otherwise the first occurrence |
| Seqs.InsertAt | src/components/KanbanBoard.jsx:124 | `splice(i, 0, x)`: one longer, `x` at `i` (clamped to the end), everything before and after in place |
| Seqs.InsertAtCount | src/store/useTaskStore.js:40 | A splice insertion adds exactly the inserted element |
| Seqs.PushIsInsertAtEnd | src/components/KanbanBoard.jsx:126 | `push` is a splice at the end |
| Seqs.RemoveAt | src/store/useTaskStore.js:58 | `splice(k, 1)`: one shorter, with the elements after `k` shifted down |
| Seqs.MoveWithin | src/store/useTaskStore.js:57-59 | Removing an element and re-inserting it anywhere permutes the sequence |
| Seqs.RemoveThenInsert | src/store/useTaskStore.js:58-59 | Re-inserting at the index it was removed from restores the sequence |

## Left out

- HTTP, React Query's cache and the API client (`src/api/api.js` is not part of this model). A request is an entry in the handler's log. Invalidating the `tasks` query is the `InvalidateTasks` entry. The fetched data reaches the board as the argument of `OnTasksFetched`.
- Asynchronous interleaving. Each handler runs as one atomic step. The effect of an `await` that fails is a boolean parameter: `succeeds` for delete and save. A drop sends the same requests on success and on failure, so it takes no such parameter.
- `alert`, the DOM, CSS classes, `preventDefault`, `stopPropagation`, JSX markup and the loading spinner are not modelled. A refused save is the `Rejected` outcome.
- `dataTransfer`: `Drop` receives the parsed id as `Option<int>`. `None` stands for `NaN`.
- Text.Lower: lowers ASCII letters only. Unicode case mapping is not modelled.
- KanbanBoard.Board.Drop: when the dragged id has no task and no `draggedTask`, the code writes an empty array under the key `"undefined"`. The model has no such key and removes nothing, because nothing shown depends on that key: `handleDelete` visits it and filters it, and the fetch effect copies it.
- KanbanBoard.Board.Drop: `{ ...taskOrder }` is a shallow copy. On a cross-column drop, the code's `push` and `splice` therefore mutate the target column's array that the store still shares. The model computes a fresh sequence. The committed order is the same.
- KanbanBoard.Board.Drop: the drop index counts rendered cards of the filtered, paginated view, while the splice uses positions in the order. The model carries the index through unchanged, as the code does. It does not relate it to the view.
- BoardView.ViewComplete requires distinct task ids: with a duplicated id, `find` returns the first task only.
- `TaskModal.Modal.OnOpenOrEditingChange`: React runs this effect after the render in which `editingTask` or `modalOpen` changed. Here it is a method to call after those changes.
- The title of the form ("Edit Task" or "Add New Task"), the backdrop click and the close button are not modelled beyond `Close`.
- `src/components/TaskCard.jsx`, `src/App.jsx` and `src/components/JqueryList.jsx` are not part of this model.
