/** The current board (`KanbanBoard` in src/components/board/Board.jsx):
    an ordered sequence of columns, each an ordered sequence of tasks, and
    the drag-end handler that moves one task to a new position. */
module Kanban {
  import opened Base

  /** A task record. Only `id` and `order` are ever inspected; everything
      else the card shows (title, description, tags, assignee, ...) is the
      opaque `payload`. */
  datatype Task<P> = Task(id: Id, order: Option<int>, payload: P)

  datatype Column<P> = Column(id: Id, name: string, color: Option<string>, tasks: seq<Task<P>>)

  type Board<P> = seq<Column<P>>

  function IdOf<P>(t: Task<P>): Id
  {
    t.id
  }

  /** The task with its `order` field forgotten: two tasks with equal
      erasures differ at most in `order`. */
  function Erase<P>(t: Task<P>): Task<P>
  {
    t.(order := None)
  }

  function Ids<P>(s: seq<Task<P>>): seq<Id>
  {
    MapSeq(s, IdOf)
  }

  function Stripped<P>(s: seq<Task<P>>): seq<Task<P>>
  {
    MapSeq(s, Erase)
  }

  /** `tasks.some(t => t.id === id)` */
  predicate HasTask<P>(tasks: seq<Task<P>>, id: Id)
  {
    exists i :: 0 <= i < |tasks| && tasks[i].id == id
  }

  /** `columns.flatMap(col => col.tasks)`: every task, column by column. */
  function Flat<P>(b: Board<P>): seq<Task<P>>
  {
    if |b| == 0 then [] else b[0].tasks + Flat(b[1..])
  }

  // ---------------------------------------------------------------------
  // Invariants a board is expected to keep; the handler itself does not
  // check them
  // ---------------------------------------------------------------------

  predicate UniqueColumnIds<P>(b: Board<P>)
  {
    forall c, d :: 0 <= c < d < |b| ==> b[c].id != b[d].id
  }

  /** No task id occurs twice anywhere on the board. */
  ghost predicate UniqueTaskIds<P>(b: Board<P>)
  {
    forall id :: multiset(Ids(Flat(b)))[id] <= 1
  }

  ghost predicate WellFormed<P>(b: Board<P>)
  {
    UniqueColumnIds(b) && UniqueTaskIds(b)
  }

  /** The task at position `i` carries `order == i`. */
  predicate Numbered<P>(s: seq<Task<P>>)
  {
    forall i :: 0 <= i < |s| ==> s[i].order == Some(i)
  }

  predicate AllNumbered<P>(b: Board<P>)
  {
    forall c :: 0 <= c < |b| ==> Numbered(b[c].tasks)
  }

  // ---------------------------------------------------------------------
  // Locators
  // ---------------------------------------------------------------------

  /** `tasks.findIndex(t => t.id === id)` */
  function TaskIndex<P>(tasks: seq<Task<P>>, id: Id): (r: int)
    ensures -1 <= r < |tasks|
    ensures r < 0 <==> !HasTask(tasks, id)
    ensures 0 <= r ==> tasks[r].id == id && forall i :: 0 <= i < r ==> tasks[i].id != id
  {
    FindIndex(tasks, (t: Task<P>) => t.id == id)
  }

  /** `tasks.find(t => t.id === id)`: the first task with that id. */
  function TaskFind<P>(tasks: seq<Task<P>>, id: Id): (r: Option<Task<P>>)
    ensures r.None? <==> !HasTask(tasks, id)
    ensures r.Some? ==> r.value.id == id && r.value in tasks
    ensures r.Some? ==> exists i :: 0 <= i < |tasks| && tasks[i] == r.value &&
                                    forall j :: 0 <= j < i ==> tasks[j].id != id
  {
    var i := TaskIndex(tasks, id);
    if i < 0 then None else Some(tasks[i])
  }

  /** Position of the first column holding a task with this id, or -1. */
  function ColumnIndexOfTask<P>(b: Board<P>, id: Id): (r: int)
    ensures -1 <= r < |b|
    ensures r < 0 <==> forall c :: 0 <= c < |b| ==> !HasTask(b[c].tasks, id)
    ensures 0 <= r ==> HasTask(b[r].tasks, id) && forall c :: 0 <= c < r ==> !HasTask(b[c].tasks, id)
  {
    FindIndex(b, (col: Column<P>) => HasTask(col.tasks, id))
  }

  /** `columns.find(c => c.id === id)`, as a position, or -1. */
  function ColumnIndexById<P>(b: Board<P>, id: Id): (r: int)
    ensures -1 <= r < |b|
    ensures r < 0 <==> forall c :: 0 <= c < |b| ==> b[c].id != id
    ensures 0 <= r ==> b[r].id == id && forall c :: 0 <= c < r ==> b[c].id != id
  {
    FindIndex(b, (col: Column<P>) => col.id == id)
  }

  /** `findColumnByTaskId`: the id of the first column, in board order,
      that holds a task with id `taskId`. */
  function FindColumnByTaskId<P>(b: Board<P>, taskId: Id): (r: Option<Id>)
    ensures r.None? <==> forall c :: 0 <= c < |b| ==> !HasTask(b[c].tasks, taskId)
    ensures r.Some? ==> exists c :: 0 <= c < |b| && b[c].id == r.value && HasTask(b[c].tasks, taskId) &&
                                    forall d :: 0 <= d < c ==> !HasTask(b[d].tasks, taskId)
  {
    var c := ColumnIndexOfTask(b, taskId);
    if c < 0 then None else Some(b[c].id)
  }

  /** `getTaskContentById`: scan the columns in order and return the first
      task with id `taskId` found in the first column that has one. */
  function GetTaskContentById<P>(b: Board<P>, taskId: Id): (r: Option<Task<P>>)
    ensures r.None? <==> forall c :: 0 <= c < |b| ==> !HasTask(b[c].tasks, taskId)
    ensures r.Some? ==> r.value.id == taskId && exists c :: 0 <= c < |b| && r.value in b[c].tasks
  {
    if |b| == 0 then None
    else
      match TaskFind(b[0].tasks, taskId)
      case Some(t) => Some(t)
      case None =>
        var r := GetTaskContentById(b[1..], taskId);
        assert forall c :: 1 <= c < |b| ==> b[1..][c - 1] == b[c];
        r
  }

  /** The `overTask` lookup of the drag-end handler:
      `columns.flatMap(col => col.tasks).find(t => t.id === over.id)`, the
      first task with that id in board order. */
  function FindTaskFlat<P>(b: Board<P>, id: Id): (r: Option<Task<P>>)
    ensures r.None? <==> !HasTask(Flat(b), id)
    ensures r.Some? ==> r.value.id == id &&
                        exists i :: 0 <= i < |Flat(b)| && Flat(b)[i] == r.value &&
                                    forall j :: 0 <= j < i ==> Flat(b)[j].id != id
  {
    TaskFind(Flat(b), id)
  }

  // ---------------------------------------------------------------------
  // Reconciliation
  // ---------------------------------------------------------------------

  /** `tasks.map((t, i) => ({ ...t, order: i }))` */
  function Renumber<P>(s: seq<Task<P>>): (r: seq<Task<P>>)
    ensures Numbered(r)
    ensures |r| == |s| && forall i :: 0 <= i < |s| ==> Erase(r[i]) == Erase(s[i])
  {
    seq(|s|, i requires 0 <= i < |s| => s[i].(order := Some(i)))
  }

  /** The pointer test of the drag-end handler,
      `pointerY < top + height / 2`, on integer pixel coordinates and without
      the division. */
  function PointerAboveMidpoint(pointerY: int, top: int, height: int): (r: bool)
    ensures r <==> (pointerY as real) < (top as real) + (height as real) / 2.0
  {
    2 * pointerY < 2 * top + height
  }

  /** The insertion index into the destination (already without the moved
      task when it is the source too): before or after the first task with
      the id dropped on, or the end of the column for a drop on the column
      itself. When no task in the destination has that id (possible only
      with duplicate column ids), `findIndex` yields -1, so the index is -1
      or 0, which `splice` then clamps. */
  function InsertIndex<P>(dest: seq<Task<P>>, overTask: Option<Task<P>>, aboveMid: bool): (r: int)
    ensures overTask.None? ==> r == |dest|
    ensures overTask.Some? && HasTask(dest, overTask.value.id) ==>
              && 0 <= r <= |dest|
              && (aboveMid ==> r < |dest| && dest[r].id == overTask.value.id &&
                               forall i :: 0 <= i < r ==> dest[i].id != overTask.value.id)
              && (!aboveMid ==> 0 < r && dest[r - 1].id == overTask.value.id &&
                                forall i :: 0 <= i < r - 1 ==> dest[i].id != overTask.value.id)
    ensures overTask.Some? && !HasTask(dest, overTask.value.id) ==>
              r == (if aboveMid then -1 else 0)
  {
    if overTask.Some? then
      var overIndex := TaskIndex(dest, overTask.value.id);
      if aboveMid then overIndex else overIndex + 1
    else |dest|
  }

  /** The list surgery of the drag-end handler once both columns and the
      task's position are known: splice the task at `taskIndex` out of column
      `si`, splice it into column `di`, and renumber both columns. When the
      two columns coincide the second splice sees the first one's result. */
  function MoveTask<P>(prev: Board<P>, si: nat, taskIndex: nat, di: nat,
                       overTask: Option<Task<P>>, aboveMid: bool): (r: Board<P>)
    requires si < |prev| && di < |prev| && taskIndex < |prev[si].tasks|
    ensures |r| == |prev|
    ensures forall c :: 0 <= c < |r| ==> r[c].(tasks := prev[c].tasks) == prev[c]
    ensures forall c :: 0 <= c < |r| && c != si && c != di ==> r[c] == prev[c]
    ensures Numbered(r[si].tasks) && Numbered(r[di].tasks)
  {
    var movedTask := prev[si].tasks[taskIndex];
    var sourceTasks := RemoveAt(prev[si].tasks, taskIndex);
    var destTasks := if si == di then sourceTasks else prev[di].tasks;
    var insertIndex := InsertIndex(destTasks, overTask, aboveMid);
    var destFinal := Renumber(SpliceInsert(destTasks, insertIndex, movedTask));
    if si == di then
      prev[si := prev[si].(tasks := Renumber(destFinal))]
    else
      prev[si := prev[si].(tasks := Renumber(sourceTasks))][di := prev[di].(tasks := destFinal)]
  }

  /** The state updater passed to `setColumns`: resolve both columns by id
      and the task's position in the source, then move it. Any lookup that
      fails leaves the board as it was. */
  function ApplyMove<P>(prev: Board<P>, activeId: Id, sourceColumnId: Id, destinationColumnId: Id,
                        overTask: Option<Task<P>>, aboveMid: bool): (r: Board<P>)
    ensures |r| == |prev|
    ensures forall c :: 0 <= c < |r| ==> r[c].(tasks := prev[c].tasks) == prev[c]
    ensures forall c :: 0 <= c < |r| ==> r[c] == prev[c] || Numbered(r[c].tasks)
    ensures ColumnIndexById(prev, sourceColumnId) < 0 ==> r == prev
    ensures ColumnIndexById(prev, destinationColumnId) < 0 ==> r == prev
    ensures var si := ColumnIndexById(prev, sourceColumnId);
            0 <= si && !HasTask(prev[si].tasks, activeId) ==> r == prev
  {
    var si := ColumnIndexById(prev, sourceColumnId);
    var di := ColumnIndexById(prev, destinationColumnId);
    if si < 0 || di < 0 then prev
    else
      var taskIndex := TaskIndex(prev[si].tasks, activeId);
      if taskIndex < 0 then prev
      else MoveTask(prev, si, taskIndex, di, overTask, aboveMid)
  }

  /** `handleDragEnd`: the next board after `activeId` is dropped on `over`
      (a task id, a column id, or nothing). `aboveMid` says whether the
      pointer was above the vertical midpoint of the task dropped on. */
  function Reconcile<P>(b: Board<P>, activeId: Id, over: Option<Id>, aboveMid: bool): (r: Board<P>)
    ensures over.None? ==> r == b
    ensures over == Some(activeId) ==> r == b
    ensures (forall c :: 0 <= c < |b| ==> !HasTask(b[c].tasks, activeId)) ==> r == b
    ensures |r| == |b|
    ensures forall c :: 0 <= c < |r| ==> r[c].(tasks := b[c].tasks) == b[c]
    ensures forall c :: 0 <= c < |r| ==> r[c] == b[c] || Numbered(r[c].tasks)
  {
    if over.None? || activeId == over.value then b
    else
      var sourceColumnId := FindColumnByTaskId(b, activeId);
      var overTask := FindTaskFlat(b, over.value);
      var destinationColumnId := if overTask.Some? then FindColumnByTaskId(b, overTask.value.id) else over;
      if !Truthy(sourceColumnId) || !Truthy(destinationColumnId) then b
      else ApplyMove(b, activeId, sourceColumnId.value, destinationColumnId.value, overTask, aboveMid)
  }

  // ---------------------------------------------------------------------
  // Drag session
  // ---------------------------------------------------------------------

  /** The component's state: the board and the id of the task last picked
      up (`null` until the first drag starts). */
  datatype KanbanState<P> = KanbanState(columns: Board<P>, activeId: Option<Id>)

  /** `handleDragStart`: remember the picked task; the board is untouched. */
  function HandleDragStart<P>(st: KanbanState<P>, taskId: Id): (r: KanbanState<P>)
    ensures r.activeId == Some(taskId) && r.columns == st.columns
  {
    st.(activeId := Some(taskId))
  }

  /** `handleDragEnd` on the component state: only the board changes; the
      remembered active id is not cleared. */
  function HandleDragEnd<P>(st: KanbanState<P>, activeId: Id, over: Option<Id>, aboveMid: bool): (r: KanbanState<P>)
    ensures r.activeId == st.activeId
    ensures |r.columns| == |st.columns|
    ensures over.None? ==> r == st
  {
    st.(columns := Reconcile(st.columns, activeId, over, aboveMid))
  }
}
