/** Properties of the current board's locators and drag-end handler. */
module KanbanLemmas {
  import opened Base
  import opened Kanban

  // ---------------------------------------------------------------------
  // Flattening the board
  // ---------------------------------------------------------------------

  lemma {:induction false} FlatConcat<P>(x: Board<P>, y: Board<P>)
    ensures Flat(x + y) == Flat(x) + Flat(y)
  {
    if |x| == 0 {
      assert x + y == y;
    } else {
      assert (x + y)[1..] == x[1..] + y;
      FlatConcat(x[1..], y);
    }
  }

  /** The tasks of column `i` sit, as one block, between those of the
      columns before it and those after it. */
  lemma FlatSplit<P>(b: Board<P>, i: nat)
    requires i < |b|
    ensures Flat(b) == Flat(b[..i]) + b[i].tasks + Flat(b[i+1..])
  {
    var x, y := b[..i], b[i..];
    assert b == x + y;
    FlatConcat(x, y);
    assert y[0] == b[i] && y[1..] == b[i+1..];
  }

  /** The same split, seen through any projection `f` of the tasks. */
  lemma MappedFlatSplit<P, T>(b: Board<P>, i: nat, f: Task<P> -> T)
    requires i < |b|
    ensures multiset(MapSeq(Flat(b), f)) ==
            multiset(MapSeq(Flat(b[..i]), f)) + multiset(MapSeq(b[i].tasks, f)) + multiset(MapSeq(Flat(b[i+1..]), f))
  {
    FlatSplit(b, i);
    MapConcat(Flat(b[..i]) + b[i].tasks, Flat(b[i+1..]), f);
    MapConcat(Flat(b[..i]), b[i].tasks, f);
  }

  /** Replacing one column's tasks swaps that column's contribution to the
      board's multiset and nothing else. */
  lemma MappedFlatUpdate<P, T>(b: Board<P>, i: nat, col: Column<P>, f: Task<P> -> T)
    requires i < |b|
    ensures multiset(MapSeq(Flat(b[i := col]), f)) + multiset(MapSeq(b[i].tasks, f)) ==
            multiset(MapSeq(Flat(b), f)) + multiset(MapSeq(col.tasks, f))
  {
    var b' := b[i := col];
    assert b'[..i] == b[..i];
    assert b'[i+1..] == b[i+1..];
    MappedFlatSplit(b, i, f);
    MappedFlatSplit(b', i, f);
  }

  /** Two different columns contribute disjoint parts of the board. */
  lemma TwoColumnsInFlat<P>(b: Board<P>, c: nat, d: nat)
    requires c < d < |b|
    ensures multiset(Ids(b[c].tasks)) + multiset(Ids(b[d].tasks)) <= multiset(Ids(Flat(b)))
  {
    MappedFlatSplit(b, d, IdOf);
    MappedFlatSplit(b[..d], c, IdOf);
    assert b[..d][c] == b[c];
  }

  lemma OneColumnInFlat<P>(b: Board<P>, c: nat)
    requires c < |b|
    ensures multiset(Ids(b[c].tasks)) <= multiset(Ids(Flat(b)))
  {
    MappedFlatSplit(b, c, IdOf);
  }

  // ---------------------------------------------------------------------
  // Locators
  // ---------------------------------------------------------------------

  /** `find` on a concatenation looks in the second part only when the first
      has no match. */
  lemma TaskFindConcat<P>(x: seq<Task<P>>, y: seq<Task<P>>, id: Id)
    ensures TaskFind(x + y, id) == if HasTask(x, id) then TaskFind(x, id) else TaskFind(y, id)
  {
    var i := TaskIndex(x + y, id);
    if HasTask(x, id) {
      var j := TaskIndex(x, id);
      assert (x + y)[j] == x[j];
      assert i == j;
    } else if HasTask(y, id) {
      var j := TaskIndex(y, id);
      assert (x + y)[|x| + j] == y[j];
      assert HasTask(x + y, id);
      assert i == |x| + j;
    } else {
      assert !HasTask(x + y, id) by {
        forall i | 0 <= i < |x + y|
          ensures (x + y)[i].id != id
        {
          if i < |x| { assert (x + y)[i] == x[i]; } else { assert (x + y)[i] == y[i - |x|]; }
        }
      }
    }
  }

  /** The handler's `flatMap(...).find(...)` lookup and `getTaskContentById`
      return the same task: the first one, in column order, with that id. */
  lemma {:induction false} GetTaskIsFlatFind<P>(b: Board<P>, id: Id)
    ensures GetTaskContentById(b, id) == FindTaskFlat(b, id)
  {
    if |b| == 0 {
      assert Flat(b) == [];
    } else {
      assert Flat(b) == b[0].tasks + Flat(b[1..]);
      TaskFindConcat(b[0].tasks, Flat(b[1..]), id);
      GetTaskIsFlatFind(b[1..], id);
    }
  }

  /** Both locators agree on the column: `getTaskContentById` finds a task
      exactly when `findColumnByTaskId` finds a column, and the task it
      returns is the first match inside that first column. */
  lemma {:induction false} LocatorsAgree<P>(b: Board<P>, id: Id)
    ensures GetTaskContentById(b, id).Some? <==> FindColumnByTaskId(b, id).Some?
    ensures var c := ColumnIndexOfTask(b, id);
            0 <= c ==> FindColumnByTaskId(b, id) == Some(b[c].id) &&
                       GetTaskContentById(b, id) == TaskFind(b[c].tasks, id)
  {
    if |b| > 0 {
      var c := ColumnIndexOfTask(b, id);
      if c > 0 {
        assert !HasTask(b[0].tasks, id);
        var c' := ColumnIndexOfTask(b[1..], id);
        assert b[1..][c - 1] == b[c];
        assert c' == c - 1 by {
          forall d | 0 <= d < c - 1
            ensures !HasTask(b[1..][d].tasks, id)
          {
            assert b[1..][d] == b[d + 1];
          }
        }
        LocatorsAgree(b[1..], id);
      }
    }
  }

  // ---------------------------------------------------------------------
  // Uniqueness
  // ---------------------------------------------------------------------

  /** On a board with unique task ids, a task id names one position. */
  lemma UniqueLocation<P>(b: Board<P>, c1: nat, k1: nat, c2: nat, k2: nat)
    requires UniqueTaskIds(b)
    requires c1 < |b| && k1 < |b[c1].tasks| && c2 < |b| && k2 < |b[c2].tasks|
    requires b[c1].tasks[k1].id == b[c2].tasks[k2].id
    ensures c1 == c2 && k1 == k2
  {
    var x := b[c1].tasks[k1].id;
    assert multiset(Ids(Flat(b)))[x] <= 1;
    assert Ids(b[c1].tasks)[k1] == x;
    assert Ids(b[c2].tasks)[k2] == x;
    if c1 == c2 {
      if k1 != k2 {
        OneColumnInFlat(b, c1);
        if k1 < k2 {
          DuplicateCount(Ids(b[c1].tasks), k1, k2);
        } else {
          DuplicateCount(Ids(b[c1].tasks), k2, k1);
        }
        assert false;
      }
    } else {
      assert x in multiset(Ids(b[c1].tasks)) && x in multiset(Ids(b[c2].tasks));
      if c1 < c2 {
        TwoColumnsInFlat(b, c1, c2);
      } else {
        TwoColumnsInFlat(b, c2, c1);
      }
      assert false;
    }
  }

  /** On a well-formed board every lookup of the handler resolves the task
      at (`c`, `k`) to exactly that column and that position. */
  lemma Resolve<P>(b: Board<P>, c: nat, k: nat)
    requires WellFormed(b)
    requires c < |b| && k < |b[c].tasks|
    ensures var id := b[c].tasks[k].id;
            && (forall d :: 0 <= d < |b| && d != c ==> !HasTask(b[d].tasks, id))
            && (forall i :: 0 <= i < |b[c].tasks| && i != k ==> b[c].tasks[i].id != id)
            && ColumnIndexOfTask(b, id) == c
            && FindColumnByTaskId(b, id) == Some(b[c].id)
            && TaskIndex(b[c].tasks, id) == k
            && FindTaskFlat(b, id) == Some(b[c].tasks[k])
            && ColumnIndexById(b, b[c].id) == c
  {
    var id := b[c].tasks[k].id;
    forall d | 0 <= d < |b| && d != c
      ensures !HasTask(b[d].tasks, id)
    {
      if HasTask(b[d].tasks, id) {
        var i :| 0 <= i < |b[d].tasks| && b[d].tasks[i].id == id;
        UniqueLocation(b, d, i, c, k);
      }
    }
    forall i | 0 <= i < |b[c].tasks| && i != k
      ensures b[c].tasks[i].id != id
    {
      if b[c].tasks[i].id == id {
        UniqueLocation(b, c, i, c, k);
      }
    }
    assert HasTask(b[c].tasks, id);
    LocatorsAgree(b, id);
    GetTaskIsFlatFind(b, id);
  }

  // ---------------------------------------------------------------------
  // Reconciliation: where the task lands
  // ---------------------------------------------------------------------

  lemma StrippedRenumber<P>(s: seq<Task<P>>)
    ensures Stripped(Renumber(s)) == Stripped(s)
  {
  }

  /** What `MoveTask` leaves in the two touched columns, up to `order`. */
  lemma MoveTaskColumns<P>(prev: Board<P>, si: nat, taskIndex: nat, di: nat,
                           overTask: Option<Task<P>>, aboveMid: bool)
    requires si < |prev| && di < |prev| && taskIndex < |prev[si].tasks|
    ensures var r := MoveTask(prev, si, taskIndex, di, overTask, aboveMid);
            var sourceTasks := RemoveAt(prev[si].tasks, taskIndex);
            var destTasks := if si == di then sourceTasks else prev[di].tasks;
            var ins := SpliceInsert(destTasks, InsertIndex(destTasks, overTask, aboveMid), prev[si].tasks[taskIndex]);
            && Stripped(r[di].tasks) == Stripped(ins)
            && (si != di ==> Stripped(r[si].tasks) == Stripped(sourceTasks))
  {
    var sourceTasks := RemoveAt(prev[si].tasks, taskIndex);
    var destTasks := if si == di then sourceTasks else prev[di].tasks;
    var ins := SpliceInsert(destTasks, InsertIndex(destTasks, overTask, aboveMid), prev[si].tasks[taskIndex]);
    StrippedRenumber(ins);
    if si == di {
      StrippedRenumber(Renumber(ins));
    } else {
      StrippedRenumber(sourceTasks);
    }
  }

  /** `MoveTask` puts the moved task at the position `InsertIndex` chose in
      the destination list `rest` (the destination once the task has left),
      with the other tasks of `rest` around it in order. */
  lemma MoveTaskLands<P>(prev: Board<P>, si: nat, k: nat, di: nat,
                         overTask: Option<Task<P>>, aboveMid: bool, rest: seq<Task<P>>, pos: nat)
    requires si < |prev| && di < |prev| && k < |prev[si].tasks|
    requires rest == if si == di then RemoveAt(prev[si].tasks, k) else prev[di].tasks
    requires InsertIndex(rest, overTask, aboveMid) == pos && pos <= |rest|
    ensures var r := MoveTask(prev, si, k, di, overTask, aboveMid);
            && |r[di].tasks| == |rest| + 1
            && Stripped(r[di].tasks) == Stripped(rest[..pos] + [prev[si].tasks[k]] + rest[pos..])
            && r[di].tasks[pos].id == prev[si].tasks[k].id
            && (si != di ==> Stripped(r[si].tasks) == Stripped(RemoveAt(prev[si].tasks, k)))
  {
    var moved := prev[si].tasks[k];
    var r := MoveTask(prev, si, k, di, overTask, aboveMid);
    MoveTaskColumns(prev, si, k, di, overTask, aboveMid);
    var ins := SpliceInsert(rest, pos, moved);
    assert ins == rest[..pos] + [moved] + rest[pos..];
    assert Erase(r[di].tasks[pos]) == Stripped(r[di].tasks)[pos] == Stripped(ins)[pos] == Erase(moved);
  }

  /** Dropping task `activeId` (at column `si`, position `k`) onto another
      task `overId` (at column `di`, position `j`) of a well-formed board.
      The index of `overId` is taken in the destination once the moved task
      has left it, and the moved task lands right before it when the pointer
      is above its midpoint and right after it otherwise. Every other task
      keeps its record up to `order`, both touched columns are renumbered,
      and no other column changes. */
  lemma ReconcileTaskDrop<P>(b: Board<P>, activeId: Id, overId: Id, aboveMid: bool,
                             si: nat, k: nat, di: nat, j: nat)
    requires WellFormed(b)
    requires si < |b| && k < |b[si].tasks| && b[si].tasks[k].id == activeId && b[si].id != ""
    requires di < |b| && j < |b[di].tasks| && b[di].tasks[j].id == overId && b[di].id != ""
    requires activeId != overId
    ensures var r := Reconcile(b, activeId, Some(overId), aboveMid);
            var rest := if si == di then RemoveAt(b[si].tasks, k) else b[di].tasks;
            var at := if si == di && k < j then j - 1 else j;
            var pos := if aboveMid then at else at + 1;
            && at < |rest| && rest[at].id == overId
            && pos <= |rest|
            && |r[di].tasks| == |rest| + 1
            && Stripped(r[di].tasks) == Stripped(rest[..pos] + [b[si].tasks[k]] + rest[pos..])
            && r[di].tasks[pos].id == activeId
            && Numbered(r[di].tasks)
            && (si != di ==> Stripped(r[si].tasks) == Stripped(RemoveAt(b[si].tasks, k)) && Numbered(r[si].tasks))
            && (forall c :: 0 <= c < |b| && c != si && c != di ==> r[c] == b[c])
  {
    var rest := if si == di then RemoveAt(b[si].tasks, k) else b[di].tasks;
    var at := if si == di && k < j then j - 1 else j;
    var pos := if aboveMid then at else at + 1;
    assert at < |rest| && rest[at] == b[di].tasks[j] && TaskIndex(rest, rest[at].id) == at by {
      OverIndexAfterRemoval(b, si, k, di, j);
    }
    var m := MoveTask(b, si, k, di, Some(rest[at]), aboveMid);
    assert Reconcile(b, activeId, Some(overId), aboveMid) == m by {
      ReconcileResolvesTaskDrop(b, activeId, overId, aboveMid, si, k, di, j);
    }
    MoveTaskOnto(b, si, k, di, aboveMid, rest, at, pos);
    assert m[di].tasks[pos].id == activeId && Numbered(m[di].tasks);
  }

  /** The list surgery for a drop onto the task found at `at` in the
      destination list `rest`, stated on `MoveTask` itself. */
  lemma MoveTaskOnto<P>(b: Board<P>, si: nat, k: nat, di: nat, aboveMid: bool,
                        rest: seq<Task<P>>, at: nat, pos: nat)
    requires si < |b| && k < |b[si].tasks| && di < |b|
    requires rest == if si == di then RemoveAt(b[si].tasks, k) else b[di].tasks
    requires at < |rest| && TaskIndex(rest, rest[at].id) == at
    requires pos == if aboveMid then at else at + 1
    ensures var r := MoveTask(b, si, k, di, Some(rest[at]), aboveMid);
            && |r[di].tasks| == |rest| + 1
            && Stripped(r[di].tasks) == Stripped(rest[..pos] + [b[si].tasks[k]] + rest[pos..])
            && r[di].tasks[pos].id == b[si].tasks[k].id
            && (si != di ==> Stripped(r[si].tasks) == Stripped(RemoveAt(b[si].tasks, k)))
  {
    InsertBesideOver(rest, at, rest[at], aboveMid);
    MoveTaskLands(b, si, k, di, Some(rest[at]), aboveMid, rest, pos);
  }

  /** With the task dropped on first found at `at`, the insertion point is
      `at` above its midpoint and `at + 1` below it. */
  lemma InsertBesideOver<P>(rest: seq<Task<P>>, at: nat, overTask: Task<P>, aboveMid: bool)
    requires at < |rest| && TaskIndex(rest, overTask.id) == at
    ensures InsertIndex(rest, Some(overTask), aboveMid) == if aboveMid then at else at + 1
  {
  }

  /** Where the task dropped on sits once the moved task has left its
      column: one place earlier when both share a column and the moved task
      was above it, the same place otherwise. */
  lemma OverIndexAfterRemoval<P>(b: Board<P>, si: nat, k: nat, di: nat, j: nat)
    requires WellFormed(b)
    requires si < |b| && k < |b[si].tasks| && di < |b| && j < |b[di].tasks|
    requires b[si].tasks[k].id != b[di].tasks[j].id
    ensures var rest := if si == di then RemoveAt(b[si].tasks, k) else b[di].tasks;
            var at := if si == di && k < j then j - 1 else j;
            at < |rest| && rest[at] == b[di].tasks[j] && TaskIndex(rest, b[di].tasks[j].id) == at
  {
    var overId := b[di].tasks[j].id;
    assert forall i :: 0 <= i < |b[di].tasks| && i != j ==> b[di].tasks[i].id != overId by {
      Resolve(b, di, j);
    }
    var rest := if si == di then RemoveAt(b[si].tasks, k) else b[di].tasks;
    var at := if si == di && k < j then j - 1 else j;
    assert rest[at] == b[di].tasks[j];
    assert HasTask(rest, overId);
    if si == di {
      forall i | 0 <= i < at
        ensures rest[i].id != overId
      {
        if i < k {
          assert rest[i] == b[si].tasks[i];
        } else {
          assert rest[i] == b[si].tasks[i + 1];
        }
      }
    }
  }

  /** On a well-formed board, a drop of one task on another reaches the list
      surgery with the two tasks' own columns and position. */
  lemma ReconcileResolvesTaskDrop<P>(b: Board<P>, activeId: Id, overId: Id, aboveMid: bool,
                                     si: nat, k: nat, di: nat, j: nat)
    requires WellFormed(b)
    requires si < |b| && k < |b[si].tasks| && b[si].tasks[k].id == activeId && b[si].id != ""
    requires di < |b| && j < |b[di].tasks| && b[di].tasks[j].id == overId && b[di].id != ""
    requires activeId != overId
    ensures Reconcile(b, activeId, Some(overId), aboveMid) == MoveTask(b, si, k, di, Some(b[di].tasks[j]), aboveMid)
  {
    assert FindColumnByTaskId(b, activeId) == Some(b[si].id) && ColumnIndexById(b, b[si].id) == si
        && TaskIndex(b[si].tasks, activeId) == k by {
      Resolve(b, si, k);
    }
    assert FindTaskFlat(b, overId) == Some(b[di].tasks[j]) && FindColumnByTaskId(b, overId) == Some(b[di].id)
        && ColumnIndexById(b, b[di].id) == di by {
      Resolve(b, di, j);
    }
    ReconcileReachesApplyMove(b, activeId, Some(overId), aboveMid, b[si].id, b[di].id);
    ApplyMoveReachesMoveTask(b, activeId, b[si].id, b[di].id, Some(b[di].tasks[j]), aboveMid, si, k, di);
  }

  /** Once both column ids resolve to truthy ids, the handler hands over to
      the state updater. */
  lemma ReconcileReachesApplyMove<P>(b: Board<P>, activeId: Id, over: Option<Id>, aboveMid: bool, src: Id, dst: Id)
    requires over.Some? && activeId != over.value
    requires FindColumnByTaskId(b, activeId) == Some(src) && src != ""
    requires var overTask := FindTaskFlat(b, over.value);
             (if overTask.Some? then FindColumnByTaskId(b, overTask.value.id) else over) == Some(dst)
    requires dst != ""
    ensures Reconcile(b, activeId, over, aboveMid) == ApplyMove(b, activeId, src, dst, FindTaskFlat(b, over.value), aboveMid)
  {
  }

  /** Once the updater finds both columns and the task, it does the list
      surgery at those positions. */
  lemma ApplyMoveReachesMoveTask<P>(prev: Board<P>, activeId: Id, src: Id, dst: Id,
                                    overTask: Option<Task<P>>, aboveMid: bool, si: nat, k: nat, di: nat)
    requires si < |prev| && k < |prev[si].tasks| && di < |prev|
    requires ColumnIndexById(prev, src) == si && ColumnIndexById(prev, dst) == di
    requires TaskIndex(prev[si].tasks, activeId) == k
    ensures ApplyMove(prev, activeId, src, dst, overTask, aboveMid) == MoveTask(prev, si, k, di, overTask, aboveMid)
  {
  }

  /** Dropping task `activeId` (at column `si`, position `k`) on the open
      area of column `di`, whose id names no task: the task becomes the last
      one of that column. */
  lemma ReconcileColumnDrop<P>(b: Board<P>, activeId: Id, colId: Id, aboveMid: bool,
                               si: nat, k: nat, di: nat)
    requires WellFormed(b)
    requires si < |b| && k < |b[si].tasks| && b[si].tasks[k].id == activeId && b[si].id != ""
    requires di < |b| && b[di].id == colId && colId != ""
    requires forall c :: 0 <= c < |b| ==> !HasTask(b[c].tasks, colId)
    ensures var r := Reconcile(b, activeId, Some(colId), aboveMid);
            var rest := if si == di then RemoveAt(b[si].tasks, k) else b[di].tasks;
            && |r[di].tasks| == |rest| + 1
            && Stripped(r[di].tasks) == Stripped(rest + [b[si].tasks[k]])
            && r[di].tasks[|rest|].id == activeId
            && Numbered(r[di].tasks)
            && (si != di ==> Stripped(r[si].tasks) == Stripped(RemoveAt(b[si].tasks, k)) && Numbered(r[si].tasks))
            && (forall c :: 0 <= c < |b| && c != si && c != di ==> r[c] == b[c])
  {
    var rest := if si == di then RemoveAt(b[si].tasks, k) else b[di].tasks;
    ReconcileResolvesColumnDrop(b, activeId, colId, aboveMid, si, k, di);
    MoveTaskLands(b, si, k, di, None, aboveMid, rest, |rest|);
    SplitAtEnd(rest, b[si].tasks[k]);
  }

  lemma SplitAtEnd<T>(s: seq<T>, x: T)
    ensures s[..|s|] + [x] + s[|s|..] == s + [x]
  {
    assert s[..|s|] == s;
  }

  /** On a well-formed board, a drop on the open area of a column reaches
      the list surgery with the task's own column and position, and no task
      to insert next to. */
  lemma ReconcileResolvesColumnDrop<P>(b: Board<P>, activeId: Id, colId: Id, aboveMid: bool,
                                       si: nat, k: nat, di: nat)
    requires WellFormed(b)
    requires si < |b| && k < |b[si].tasks| && b[si].tasks[k].id == activeId && b[si].id != ""
    requires di < |b| && b[di].id == colId && colId != ""
    requires forall c :: 0 <= c < |b| ==> !HasTask(b[c].tasks, colId)
    ensures Reconcile(b, activeId, Some(colId), aboveMid) == MoveTask(b, si, k, di, None, aboveMid)
  {
    assert FindColumnByTaskId(b, activeId) == Some(b[si].id) && ColumnIndexById(b, b[si].id) == si
        && TaskIndex(b[si].tasks, activeId) == k by {
      Resolve(b, si, k);
    }
    assert ColumnIndexById(b, colId) == di by {
      Resolve(b, si, k);
    }
    assert FindTaskFlat(b, colId).None? by {
      GetTaskIsFlatFind(b, colId);
    }
    ReconcileReachesApplyMove(b, activeId, Some(colId), aboveMid, b[si].id, colId);
    ApplyMoveReachesMoveTask(b, activeId, b[si].id, colId, None, aboveMid, si, k, di);
  }

  /** A drop whose target names neither a task nor a column changes nothing. */
  lemma ReconcileUnknownTarget<P>(b: Board<P>, activeId: Id, overId: Id, aboveMid: bool)
    requires forall c :: 0 <= c < |b| ==> !HasTask(b[c].tasks, overId)
    requires forall c :: 0 <= c < |b| ==> b[c].id != overId
    ensures Reconcile(b, activeId, Some(overId), aboveMid) == b
  {
    GetTaskIsFlatFind(b, overId);
  }

  // ---------------------------------------------------------------------
  // Reconciliation: conservation and invariants
  // ---------------------------------------------------------------------

  /** A projection that ignores `order` cannot tell apart two columns with
      equal erasures. */
  lemma MappedViaStripped<P, T>(x: seq<Task<P>>, y: seq<Task<P>>, f: Task<P> -> T)
    requires forall t: Task<P> :: f(Erase(t)) == f(t)
    requires Stripped(x) == Stripped(y)
    ensures MapSeq(x, f) == MapSeq(y, f)
  {
    forall i | 0 <= i < |x|
      ensures f(x[i]) == f(y[i])
    {
      assert f(x[i]) == f(Erase(x[i])) == f(Stripped(x)[i]) == f(Stripped(y)[i]) == f(Erase(y[i])) == f(y[i]);
    }
  }

  lemma MoveTaskConserves<P, T>(prev: Board<P>, si: nat, taskIndex: nat, di: nat,
                                overTask: Option<Task<P>>, aboveMid: bool, f: Task<P> -> T)
    requires si < |prev| && di < |prev| && taskIndex < |prev[si].tasks|
    requires forall t: Task<P> :: f(Erase(t)) == f(t)
    ensures multiset(MapSeq(Flat(MoveTask(prev, si, taskIndex, di, overTask, aboveMid)), f)) ==
            multiset(MapSeq(Flat(prev), f))
  {
    var r := MoveTask(prev, si, taskIndex, di, overTask, aboveMid);
    var movedTask := prev[si].tasks[taskIndex];
    var sourceTasks := RemoveAt(prev[si].tasks, taskIndex);
    var destTasks := if si == di then sourceTasks else prev[di].tasks;
    var ins := SpliceInsert(destTasks, InsertIndex(destTasks, overTask, aboveMid), movedTask);
    MoveTaskColumns(prev, si, taskIndex, di, overTask, aboveMid);
    MapRemoveAt(prev[si].tasks, taskIndex, f);
    MapSpliceInsert(destTasks, InsertIndex(destTasks, overTask, aboveMid), movedTask, f);
    MappedViaStripped(r[di].tasks, ins, f);
    var m := multiset(MapSeq(prev[si].tasks, f));
    assert multiset(MapSeq(r[di].tasks, f)) == multiset(MapSeq(destTasks, f)) + multiset{f(movedTask)};
    if si == di {
      assert multiset(MapSeq(r[si].tasks, f)) == m;
      SameColumnConserves(prev, si, r, f);
    } else {
      MappedViaStripped(r[si].tasks, sourceTasks, f);
      assert multiset(MapSeq(r[si].tasks, f)) + multiset{f(movedTask)} == m;
      TwoColumnsConserve(prev, si, di, r, multiset{f(movedTask)}, f);
    }
  }

  lemma SameColumnConserves<P, T>(prev: Board<P>, si: nat, r: Board<P>, f: Task<P> -> T)
    requires si < |prev| && |r| == |prev|
    requires forall c :: 0 <= c < |r| && c != si ==> r[c] == prev[c]
    requires multiset(MapSeq(r[si].tasks, f)) == multiset(MapSeq(prev[si].tasks, f))
    ensures multiset(MapSeq(Flat(r), f)) == multiset(MapSeq(Flat(prev), f))
  {
    assert r == prev[si := r[si]];
    MappedFlatUpdate(prev, si, r[si], f);
    var A, B := multiset(MapSeq(Flat(r), f)), multiset(MapSeq(Flat(prev), f));
    var X := multiset(MapSeq(prev[si].tasks, f));
    assert A + X == B + X;
    MultisetCancel(A, B, X);
  }

  lemma TwoColumnsConserve<P, T>(prev: Board<P>, si: nat, di: nat, r: Board<P>, moved: multiset<T>, f: Task<P> -> T)
    requires si < |prev| && di < |prev| && si != di && |r| == |prev|
    requires forall c :: 0 <= c < |r| && c != si && c != di ==> r[c] == prev[c]
    requires multiset(MapSeq(r[si].tasks, f)) + moved == multiset(MapSeq(prev[si].tasks, f))
    requires multiset(MapSeq(r[di].tasks, f)) == multiset(MapSeq(prev[di].tasks, f)) + moved
    ensures multiset(MapSeq(Flat(r), f)) == multiset(MapSeq(Flat(prev), f))
  {
    var b1 := prev[si := r[si]];
    assert r == b1[di := r[di]];
    MappedFlatUpdate(prev, si, r[si], f);
    MappedFlatUpdate(b1, di, r[di], f);
    assert b1[di] == prev[di];
    var A, B := multiset(MapSeq(Flat(r), f)), multiset(MapSeq(Flat(prev), f));
    var A1 := multiset(MapSeq(Flat(b1), f));
    var S, S', D, D' := multiset(MapSeq(prev[si].tasks, f)), multiset(MapSeq(r[si].tasks, f)),
                        multiset(MapSeq(prev[di].tasks, f)), multiset(MapSeq(r[di].tasks, f));
    MultisetSwap(A, A1, B, S, S', D, D', moved);
  }

  lemma ApplyMoveConserves<P, T>(prev: Board<P>, activeId: Id, sourceColumnId: Id, destinationColumnId: Id,
                                 overTask: Option<Task<P>>, aboveMid: bool, f: Task<P> -> T)
    requires forall t: Task<P> :: f(Erase(t)) == f(t)
    ensures var r := ApplyMove(prev, activeId, sourceColumnId, destinationColumnId, overTask, aboveMid);
            multiset(MapSeq(Flat(r), f)) == multiset(MapSeq(Flat(prev), f))
  {
    var si := ColumnIndexById(prev, sourceColumnId);
    var di := ColumnIndexById(prev, destinationColumnId);
    if 0 <= si && 0 <= di {
      var taskIndex := TaskIndex(prev[si].tasks, activeId);
      if 0 <= taskIndex {
        MoveTaskConserves(prev, si, taskIndex, di, overTask, aboveMid, f);
      }
    }
  }

  /** Reconciliation only relocates tasks: whatever a projection that
      ignores `order` sees of the board's tasks is the same multiset after. */
  lemma ReconcileConserves<P, T>(b: Board<P>, activeId: Id, over: Option<Id>, aboveMid: bool, f: Task<P> -> T)
    requires forall t: Task<P> :: f(Erase(t)) == f(t)
    ensures multiset(MapSeq(Flat(Reconcile(b, activeId, over, aboveMid)), f)) == multiset(MapSeq(Flat(b), f))
  {
    if over.Some? && activeId != over.value {
      var sourceColumnId := FindColumnByTaskId(b, activeId);
      var overTask := FindTaskFlat(b, over.value);
      var destinationColumnId := if overTask.Some? then FindColumnByTaskId(b, overTask.value.id) else over;
      if Truthy(sourceColumnId) && Truthy(destinationColumnId) {
        ApplyMoveConserves(b, activeId, sourceColumnId.value, destinationColumnId.value, overTask, aboveMid, f);
      }
    }
  }

  /** The multiset of task ids on the board is unchanged by any drop. */
  lemma ReconcileConservesIds<P>(b: Board<P>, activeId: Id, over: Option<Id>, aboveMid: bool)
    ensures multiset(Ids(Flat(Reconcile(b, activeId, over, aboveMid)))) == multiset(Ids(Flat(b)))
  {
    ReconcileConserves(b, activeId, over, aboveMid, IdOf);
  }

  /** The task records, with `order` forgotten, are the same multiset after
      any drop: no task is lost, duplicated or altered beyond its `order`. */
  lemma ReconcileConservesRecords<P>(b: Board<P>, activeId: Id, over: Option<Id>, aboveMid: bool)
    ensures multiset(Stripped(Flat(Reconcile(b, activeId, over, aboveMid)))) == multiset(Stripped(Flat(b)))
  {
    ReconcileConserves(b, activeId, over, aboveMid, Erase);
  }

  /** Every drop keeps a well-formed board well-formed and a contiguously
      numbered board contiguously numbered. */
  lemma ReconcileKeepsInvariants<P>(b: Board<P>, activeId: Id, over: Option<Id>, aboveMid: bool)
    ensures var r := Reconcile(b, activeId, over, aboveMid);
            (WellFormed(b) ==> WellFormed(r)) && (AllNumbered(b) ==> AllNumbered(r))
  {
    var r := Reconcile(b, activeId, over, aboveMid);
    ReconcileConservesIds(b, activeId, over, aboveMid);
    forall c | 0 <= c < |r|
      ensures r[c].id == b[c].id
    {
      assert r[c].(tasks := b[c].tasks).id == r[c].id;
    }
  }
}
