# Kanban drag reconciliation in Dafny

This project models the drag-and-drop core of a Kanban board written in
React: the code that, when a task card is released, works out which column
loses the card, which column gains it and at which position, and renumbers
the `order` field of the tasks it touched. Two versions of the board exist in
the repository and both are modelled:

- the current board, `src/components/board/Board.jsx`. Columns are an
  ordered array, each holding an ordered array of tasks. A drop on another
  task inserts before or after that task, depending on where the pointer is
  relative to the task's vertical midpoint. Both touched columns are then
  renumbered. This is modelled in module `Kanban` (`kanban.dfy`), with the
  proofs in `KanbanLemmas` (`kanban_lemmas.dfy`);
- the first prototype, the root `Board.jsx`. Columns are the properties of a
  plain object keyed by column id, and a drop always appends the card to the
  end of its destination. This is modelled in module `Prototype`
  (`prototype.dfy`), with the proofs in `PrototypeLemmas`
  (`prototype_lemmas.dfy`).

`Base` (`base.dfy`) holds the shared vocabulary:

- identifiers, and JavaScript truthiness of a possibly-`undefined` id;
- the array built-ins the handlers rely on (`findIndex`, and `splice` with
  JavaScript's clamping of its start index);
- a few multiset facts.

`Scenarios` (`scenarios.dfy`) works a few concrete drops out from the
general lemmas.

Modelling decisions:

- **Handler to function.** Each drag-end handler is a pure function from the
  board before the drop to the board after it. React's
  `setColumns(prev => ...)` is read with `prev` equal to the `columns` the
  handler closed over, because every drag ends before the next one starts.
- **Task fields.** A task's fields other than `id` and `order` are an opaque
  payload, since the code never inspects them.
- **Geometry.** Pointer geometry enters as one boolean, `aboveMid`: whether
  the pointer is above the midpoint of the task dropped on.
  `PointerAboveMidpoint` computes it from integer pixel coordinates and is
  proved equal to the source's real-valued comparison.
- **`over`.** It is `Option<Id>`, where `None` stands for a missing `over`.
- **The prototype's `TypeError`.** In the prototype, spreading a missing
  property throws a `TypeError`. This is an outcome of the model
  (`Outcome.TypeError`), not a precondition.

Behaviour of the code worth knowing, which the model keeps:

- **Drag session.** `handleDragEnd` never resets `activeId`, so the session
  does not return to idle after a drop (`Kanban.HandleDragEnd`). Neither
  version has a drag-cancel handler.
- **Pointer position.** The pointer position the current board compares
  against the midpoint is `event.activatorEvent.clientY`. That is where the
  pointer was when the drag *started*, not where it was released. The model
  takes the resulting boolean as given, so it is faithful either way.
- **Missing geometry.** There is no fallback when the task dropped on has no
  element: `document.getElementById` returns `null` and the handler throws.
  The model always receives `aboveMid`.
- **Falsy ids.** A column id equal to the empty string is falsy, and so is
  an `over.id` of `""` that names no task (it then stands for the
  destination column id). Either one makes
  `if (!sourceColumnId || !destinationColumnId) return` reject the drop, and
  the model does the same (`Base.Truthy`). A task whose own id is `""` is
  moved like any other.
- **Duplicate column ids.** `findIndex` can then return -1 for the task
  dropped on, because that task is not in the first column carrying the id.
  With the pointer above the midpoint the insert index is -1, and
  `splice(-1, 0, x)` inserts before the last element of a non-empty
  destination and at position 0 of an empty one. With the pointer below the
  midpoint the index is `-1 + 1 = 0`, and the task goes to the front.
  `Kanban.InsertIndex` states these indices, `Base.SpliceStart` models the
  clamping, and `Kanban.Reconcile` keeps the behaviour on boards that are
  not well formed.
- **Contiguous `order`.** Only the columns a drop touches are renumbered,
  and the initial tasks carry no `order` at all. So contiguous numbering is
  proved as an invariant that each drop preserves
  (`KanbanLemmas.ReconcileKeepsInvariants`), not as a property of every
  board.

## Model

| member | source | states |
|---|---|---|
| `Base.FindIndex` | src/components/board/Board.jsx:105 | `findIndex` returns -1 exactly when no element matches, and otherwise the first matching position |
| `Base.RemoveAt` | src/components/board/Board.jsx:96 | `splice(k, 1)` keeps every element before `k`, shifts every element after it down by one, and loses exactly the removed element from the multiset |
| `Base.Truthy` | src/components/board/Board.jsx:84 | JavaScript truthiness of a possibly-`undefined` id, as the falsy guard on the two column ids reads it: `undefined` is falsy, and a string is falsy exactly when it is empty |
| `Base.SpliceStart` | src/components/board/Board.jsx:113 | JavaScript's clamping of a `splice` start: a start in range is used as is; a negative start counts back from the end and stops at 0; a start past the end is the end |
| `Base.SpliceInsert` | src/components/board/Board.jsx:113 | `splice(start, 0, x)` puts `x` at the clamped position, with the prefix before it and the suffix after it unchanged, and adds exactly `x` to the multiset |
| `Kanban.TaskIndex` | src/components/board/Board.jsx:93 | the task's position in a column is -1 exactly when the column has no task with that id, and otherwise the first position with that id |
| `Kanban.TaskFind` | src/components/board/Board.jsx:148 | `tasks.find(t => t.id === id)` gives nothing exactly when no task has the id, and otherwise the first task with that id |
| `Kanban.FindTaskFlat` | src/components/board/Board.jsx:74-76 | the `overTask` lookup gives nothing exactly when no task on the board, read column by column, has the id, and otherwise the first such task in that order |
| `Kanban.ColumnIndexById` | src/components/board/Board.jsx:88-89 | looking a column up by id gives -1 exactly when no column has that id, and otherwise the first column with it |
| `Kanban.FindColumnByTaskId` | src/components/board/Board.jsx:139-143 | the result is `undefined` exactly when no column holds the task; otherwise it is the id of a column that holds it, with no earlier column holding it |
| `Kanban.GetTaskContentById` | src/components/board/Board.jsx:146-153 | the lookup returns nothing exactly when no column holds the task; otherwise it returns a task with that id, taken from one of the columns |
| `Kanban.Renumber` | src/components/board/Board.jsx:116-117 | after renumbering, the task at position `i` has `order == i`, the length is the same, and every task is otherwise unchanged |
| `Kanban.PointerAboveMidpoint` | src/components/board/Board.jsx:106 | the integer test holds exactly when the pointer is above `top + height / 2` computed over the reals |
| `Kanban.InsertIndex` | src/components/board/Board.jsx:99-111 | a drop on a column gives the end of the column; a drop on a task present in the destination gives the position of the first task with that id when the pointer is above its midpoint, and the position right after it otherwise; when no task in the destination has that id, `findIndex`'s -1 gives -1 or 0 |
| `Kanban.MoveTask` | src/components/board/Board.jsx:96-117 | the list surgery keeps the number of columns and every column's id, name and color, leaves all other columns untouched, and leaves both touched columns contiguously numbered |
| `Kanban.ApplyMove` | src/components/board/Board.jsx:86-120 | the updater returns `prev` itself when either column id is unknown or the task is not in the source column; otherwise only the tasks of columns change, and every changed column is contiguously numbered |
| `Kanban.Reconcile` | src/components/board/Board.jsx:66-121 | the handler leaves the board unchanged with no `over`, on a self-drop, or when the dragged task is in no column; in every case the column count and column attributes are kept, and every changed column is contiguously numbered |
| `Kanban.HandleDragStart` | src/components/board/Board.jsx:61-63 | starting a drag records the picked task id and leaves the board as it is |
| `Kanban.HandleDragEnd` | src/components/board/Board.jsx:66-121 | ending a drag keeps the remembered `activeId` (it is never cleared) and the number of columns; with no `over` nothing changes |
| `KanbanLemmas.GetTaskIsFlatFind` | src/components/board/Board.jsx:74-76 | the handler's `flatMap(...).find(...)` lookup and `getTaskContentById` return the same task for every board and id |
| `KanbanLemmas.LocatorsAgree` | src/components/board/Board.jsx:139-153 | `getTaskContentById` finds a task exactly when `findColumnByTaskId` finds a column; the task is then the first match inside the first column that holds one |
| `KanbanLemmas.Resolve` | src/components/board/Board.jsx:70-93 | on a board with unique column and task ids, every lookup of the handler resolves a task to its one column and one position, and no other column holds that id |
| `KanbanLemmas.OverIndexAfterRemoval` | src/components/board/Board.jsx:96-105 | in a same-column drop, the task dropped on is looked up after the moved task has left, so its index is one lower when the moved task was above it and the same otherwise |
| `KanbanLemmas.ReconcileResolvesTaskDrop` | src/components/board/Board.jsx:70-96 | on a well-formed board, a drop of one task on another reaches the list surgery with the two tasks' own columns and the dragged task's own position |
| `KanbanLemmas.ReconcileTaskDrop` | src/components/board/Board.jsx:96-117 | dropping a task on another task puts it right before that task when the pointer is above the midpoint and right after it otherwise; the destination keeps all its other tasks in order, the source loses only the moved task, both are renumbered, and no other column changes |
| `KanbanLemmas.ReconcileColumnDrop` | src/components/board/Board.jsx:78-113 | dropping a task on the open area of a column makes it the last task of that column; the rest keep their order, both columns are renumbered, and no other column changes |
| `KanbanLemmas.ReconcileUnknownTarget` | src/components/board/Board.jsx:78-91 | a drop on an id that names neither a task nor a column leaves the board unchanged |
| `KanbanLemmas.ReconcileConserves` | src/components/board/Board.jsx:86-120 | any view of the tasks that ignores `order` sees the same multiset of tasks before and after every drop |
| `KanbanLemmas.ReconcileConservesIds` | src/components/board/Board.jsx:96-113 | the multiset of task ids on the board is the same after every drop: no task is lost or duplicated |
| `KanbanLemmas.ReconcileConservesRecords` | src/components/board/Board.jsx:87-117 | the task records, with `order` set aside, are the same multiset after every drop: the handler only relocates and renumbers |
| `KanbanLemmas.ReconcileKeepsInvariants` | src/components/board/Board.jsx:86-119 | a drop keeps column ids and task ids unique when they were, and keeps every column contiguously numbered when all were |
| `Prototype.CardIndex` | Board.jsx:89 | the card's position in its list is -1 exactly when no card has that id, and otherwise the first position with that id |
| `Prototype.FindColumnByTaskId` | Board.jsx:138-142 | the result is `undefined` exactly when no own key's list holds the card; otherwise it is a key whose list holds it, with no earlier key (in key order) whose list does |
| `Prototype.GetTaskContentById` | Board.jsx:145-149 | content is returned exactly when the found column id is truthy, and it is the content of the first card with that id in that column |
| `Prototype.Destination` | Board.jsx:80 | the destination is the first key, in key order, whose list holds the card dropped on, when that key is truthy; otherwise it is the dropped-on id itself |
| `Prototype.Reconcile` | Board.jsx:74-100 | the handler leaves the object unchanged with no `over` or when the card is in no column; a completed drop keeps the same keys in the same order; a thrown `TypeError` means the destination is not a property |
| `PrototypeLemmas.RemoveAtIsWithout` | Board.jsx:88-92 | in a list with unique card ids, splicing out the card at its position leaves exactly the other cards, in order |
| `PrototypeLemmas.ReconcileMovesAcross` | Board.jsx:84-98 | a drop into another existing column takes exactly the moved card out of the source (others kept in order), appends it to the destination, and changes no other column |
| `PrototypeLemmas.ReconcileMovesWithin` | Board.jsx:95-96 | a drop whose destination is the card's own column moves the card to the end of that column, because line 96 reads the list line 95 just wrote |
| `PrototypeLemmas.SelfDropMovesToEnd` | Board.jsx:77-96 | with no self-drop guard, dropping a card on itself moves it to the end of its own column |
| `PrototypeLemmas.ReconcileThrowsIff` | Board.jsx:96 | the handler throws exactly when `over` is present, the card's column id is truthy, and the truthy destination id is not a property of the object |
| `PrototypeLemmas.ReconcileConservesCards` | Board.jsx:84-98 | every completed drop keeps the object's multiset of cards |
| `Scenarios.CrossColumnMove` | src/components/board/Board.jsx:86-117 | with A = [t1, t2] and B empty, dropping t1 on B gives A = [t2] and B = [t1], each numbered from 0 |
| `Scenarios.InsertBeforeOrAfter` | src/components/board/Board.jsx:99-113 | with t2 spanning rows 100 to 140, dropping t3 on t2 at y = 105 gives [t1, t3, t2], and at y = 135 gives [t1, t2, t3] |
| `Scenarios.SameColumnReorder` | src/components/board/Board.jsx:96-117 | with A = [t1, t2, t3], dropping t1 below t3's midpoint gives [t2, t3, t1], numbered 0, 1, 2 |
| `Scenarios.PrototypeMoveToDone` | Board.jsx:58-98 | on the prototype's starting object, dropping the first to-do card on the empty done column moves it there |
| `Scenarios.PrototypeSelfDrop` | Board.jsx:58-98 | on the prototype's starting object, dropping the first to-do card on itself sends it to the end of to-do |
| `Scenarios.PrototypeUnknownTargetThrows` | Board.jsx:80-96 | on the prototype's starting object, dropping a card on an id that is neither a card nor a column throws |

## Left out

- Rendering is not modelled: the JSX of both components, `BoardUI`, `DndContext`, `DragOverlay`, `DraggableItem`, and `DroppableColumn` (src/components/board/DroppableColumn.jsx). It displays data and decides nothing about it.
- DOM geometry (`document.getElementById`, `getBoundingClientRect`, the event's `clientY`) becomes the boolean parameter `aboveMid`. The throw when the element is missing is not modelled.
- `console.log` calls are not modelled: they have no effect on the result.
- The current board's hard-coded initial columns (src/components/board/Board.jsx:8-55) are not modelled. Only the prototype's starting object appears, in `Scenarios.Initial`, with its column ids and cards as parameters (the shape kept: two cards, one card, none).
- The prototype's `handleDragStart` (Board.jsx:71-73) has no member of its own. It is the same as the current board's, which `Kanban.HandleDragStart` models.
- The own-key order of the prototype's object is taken as given (`Columns.keys`). JavaScript's rule that integer-like keys come first is not modelled.
- Ids are strings only. Integer ids, which `===` would never equate with strings, are not modelled.
- `null` and `undefined` are both `None`. A missing `over.id` is not modelled separately from a missing `over`.
- React's batching of state updates and concurrent rendering are not modelled: each drop is one atomic step.
- Kanban.HandleDragEnd: only states the board's column count and that `activeId` is kept; what happens to the columns is stated on `Kanban.Reconcile` and its lemmas rather than repeated here.
- Kanban.GetTaskContentById: does not say which column the task comes from; `KanbanLemmas.LocatorsAgree` adds that it is the first column holding it.
- Kanban.FindColumnByTaskId: its contract is existential; `KanbanLemmas.LocatorsAgree` and `KanbanLemmas.Resolve` pin down the column exactly.
