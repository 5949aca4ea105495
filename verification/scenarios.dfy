/** Concrete drops on small boards, each worked out from the general lemmas. */
module Scenarios {
  import opened Base
  import opened Kanban
  import opened KanbanLemmas
  import opened Prototype
  import opened PrototypeLemmas

  lemma StrippedIds<P>(x: seq<Task<P>>, y: seq<Task<P>>)
    requires Stripped(x) == Stripped(y)
    ensures Ids(x) == Ids(y)
  {
    assert |x| == |Stripped(x)|;
    forall i | 0 <= i < |x|
      ensures Ids(x)[i] == Ids(y)[i]
    {
      assert Stripped(x)[i].id == Stripped(y)[i].id;
    }
  }

  /** A board whose column ids differ and whose task ids, read column by
      column, differ is well formed. */
  lemma DistinctBoard<P>(b: Board<P>)
    requires forall c, d :: 0 <= c < d < |b| ==> b[c].id != b[d].id
    requires NoRepeats(Ids(Flat(b)))
    ensures WellFormed(b)
  {
    DistinctCount(Ids(Flat(b)));
  }

  lemma FlatOfOne<P>(a: Column<P>)
    ensures Flat([a]) == a.tasks
  {
    assert Flat([a]) == a.tasks + Flat([a][1..]);
  }

  lemma FlatOfTwo<P>(a: Column<P>, b: Column<P>)
    ensures Flat([a, b]) == a.tasks + b.tasks
  {
    assert Flat([a, b]) == a.tasks + Flat([a, b][1..]);
    assert [a, b][1..] == [b];
    FlatOfOne(b);
  }

  lemma IdsOfTwo<P>(x: Task<P>, y: Task<P>)
    ensures Ids([x, y]) == [x.id, y.id]
  {
    var s := Ids([x, y]);
    assert s[0] == x.id && s[1] == y.id;
  }

  lemma IdsOfThree<P>(x: Task<P>, y: Task<P>, z: Task<P>)
    ensures Ids([x, y, z]) == [x.id, y.id, z.id]
  {
    var s := Ids([x, y, z]);
    assert s[0] == x.id && s[1] == y.id && s[2] == z.id;
  }

  /** Column A = [t1, t2], column B empty: dropping t1 on B's open area
      leaves A = [t2] and B = [t1], each numbered from 0. */
  lemma CrossColumnMove<P>(a: Column<P>, b: Column<P>, t1: Task<P>, t2: Task<P>)
    requires a.tasks == [t1, t2] && b.tasks == []
    requires a.id != "" && b.id != "" && a.id != b.id && t1.id != t2.id
    requires t1.id != b.id && t2.id != b.id
    ensures var r := Kanban.Reconcile([a, b], t1.id, Some(b.id), true);
            && Ids(r[0].tasks) == [t2.id] && Numbered(r[0].tasks)
            && Ids(r[1].tasks) == [t1.id] && Numbered(r[1].tasks)
  {
    FlatOfTwo(a, b);
    IdsOfTwo(t1, t2);
    DistinctBoard([a, b]);
    CrossColumnMoveStripped(a, b, t1, t2);
    var r := Kanban.Reconcile([a, b], t1.id, Some(b.id), true);
    StrippedIds(r[0].tasks, [t2]);
    StrippedIds(r[1].tasks, [t1]);
  }

  lemma CrossColumnMoveStripped<P>(a: Column<P>, b: Column<P>, t1: Task<P>, t2: Task<P>)
    requires a.tasks == [t1, t2] && b.tasks == [] && WellFormed([a, b])
    requires a.id != "" && b.id != "" && t1.id != b.id && t2.id != b.id
    ensures var r := Kanban.Reconcile([a, b], t1.id, Some(b.id), true);
            && Stripped(r[0].tasks) == Stripped([t2]) && Numbered(r[0].tasks)
            && Stripped(r[1].tasks) == Stripped([t1]) && Numbered(r[1].tasks)
  {
    assert forall c :: 0 <= c < 2 ==> !HasTask([a, b][c].tasks, b.id);
    ReconcileColumnDrop([a, b], t1.id, b.id, true, 0, 0, 1);
    assert RemoveAt(a.tasks, 0) == [t2];
    assert [] + [t1] == [t1];
  }

  /** Column A = [t1, t2] and t3 in column B. Releasing t3 on t2 above its
      midpoint (y = 105 on a card spanning rows 100 to 140) puts it before
      t2; below it (y = 135) it goes after t2. */
  lemma InsertBeforeOrAfter<P>(a: Column<P>, b: Column<P>, t1: Task<P>, t2: Task<P>, t3: Task<P>)
    requires a.tasks == [t1, t2] && b.tasks == [t3]
    requires a.id != "" && b.id != "" && a.id != b.id
    requires t1.id != t2.id && t1.id != t3.id && t2.id != t3.id
    ensures PointerAboveMidpoint(105, 100, 40) && !PointerAboveMidpoint(135, 100, 40)
    ensures Ids(Kanban.Reconcile([a, b], t3.id, Some(t2.id), PointerAboveMidpoint(105, 100, 40))[0].tasks) == [t1.id, t3.id, t2.id]
    ensures Ids(Kanban.Reconcile([a, b], t3.id, Some(t2.id), PointerAboveMidpoint(135, 100, 40))[0].tasks) == [t1.id, t2.id, t3.id]
  {
    FlatOfTwo(a, b);
    assert a.tasks + b.tasks == [t1, t2, t3];
    IdsOfThree(t1, t2, t3);
    DistinctBoard([a, b]);
    InsertBeforeOrAfterStripped(a, b, t1, t2, t3);
    StrippedIds(Kanban.Reconcile([a, b], t3.id, Some(t2.id), true)[0].tasks, [t1, t3, t2]);
    IdsOfThree(t1, t3, t2);
    StrippedIds(Kanban.Reconcile([a, b], t3.id, Some(t2.id), false)[0].tasks, [t1, t2, t3]);
  }

  lemma InsertBeforeOrAfterStripped<P>(a: Column<P>, b: Column<P>, t1: Task<P>, t2: Task<P>, t3: Task<P>)
    requires a.tasks == [t1, t2] && b.tasks == [t3] && WellFormed([a, b])
    requires a.id != "" && b.id != "" && t2.id != t3.id
    ensures Stripped(Kanban.Reconcile([a, b], t3.id, Some(t2.id), true)[0].tasks) == Stripped([t1, t3, t2])
    ensures Stripped(Kanban.Reconcile([a, b], t3.id, Some(t2.id), false)[0].tasks) == Stripped([t1, t2, t3])
  {
    var before := a.tasks[..1] + [t3] + a.tasks[1..];
    assert Stripped(Kanban.Reconcile([a, b], t3.id, Some(t2.id), true)[0].tasks) == Stripped(before) by {
      ReconcileTaskDrop([a, b], t3.id, t2.id, true, 1, 0, 0, 1);
    }
    var after := a.tasks[..2] + [t3] + a.tasks[2..];
    assert Stripped(Kanban.Reconcile([a, b], t3.id, Some(t2.id), false)[0].tasks) == Stripped(after) by {
      ReconcileTaskDrop([a, b], t3.id, t2.id, false, 1, 0, 0, 1);
    }
    InsertIntoPair(t1, t2, t3);
  }

  lemma InsertIntoPair<T>(x: T, y: T, z: T)
    ensures [x, y][..1] + [z] + [x, y][1..] == [x, z, y]
    ensures [x, y][..2] + [z] + [x, y][2..] == [x, y, z]
  {
  }

  /** Column A = [t1, t2, t3]: dropping t1 below t3's midpoint gives
      [t2, t3, t1], numbered 0, 1, 2. */
  lemma SameColumnReorder<P>(a: Column<P>, t1: Task<P>, t2: Task<P>, t3: Task<P>)
    requires a.tasks == [t1, t2, t3] && a.id != ""
    requires t1.id != t2.id && t1.id != t3.id && t2.id != t3.id
    ensures var r := Kanban.Reconcile([a], t1.id, Some(t3.id), false);
            Ids(r[0].tasks) == [t2.id, t3.id, t1.id] && Numbered(r[0].tasks)
  {
    FlatOfOne(a);
    IdsOfThree(t1, t2, t3);
    DistinctBoard([a]);
    SameColumnReorderStripped(a, t1, t2, t3);
    StrippedIds(Kanban.Reconcile([a], t1.id, Some(t3.id), false)[0].tasks, [t2, t3, t1]);
    IdsOfThree(t2, t3, t1);
  }

  lemma SameColumnReorderStripped<P>(a: Column<P>, t1: Task<P>, t2: Task<P>, t3: Task<P>)
    requires a.tasks == [t1, t2, t3] && a.id != "" && WellFormed([a]) && t1.id != t3.id
    ensures var r := Kanban.Reconcile([a], t1.id, Some(t3.id), false);
            Stripped(r[0].tasks) == Stripped([t2, t3, t1]) && Numbered(r[0].tasks)
  {
    var r := Kanban.Reconcile([a], t1.id, Some(t3.id), false);
    var rest := RemoveAt(a.tasks, 0);
    var expected := rest[..2] + [t1] + rest[2..];
    assert Stripped(r[0].tasks) == Stripped(expected) && Numbered(r[0].tasks) by {
      ReconcileTaskDrop([a], t1.id, t3.id, false, 0, 0, 0, 2);
    }
    MoveFirstToEnd(t1, t2, t3);
  }

  lemma MoveFirstToEnd<T>(x: T, y: T, z: T)
    ensures var rest := RemoveAt([x, y, z], 0); rest[..2] + [x] + rest[2..] == [y, z, x]
  {
    assert RemoveAt([x, y, z], 0) == [y, z];
  }

  /** The prototype's starting object: to-do holds c1 and c2, in-progress
      holds c3, done is empty. */
  function Initial<C>(todo: Id, doing: Id, done: Id, c1: Card<C>, c2: Card<C>, c3: Card<C>): Columns<C>
  {
    Columns([todo, doing, done], map[todo := [c1, c2], doing := [c3], done := []])
  }

  /** Three distinct non-empty column ids and three distinct card ids. */
  predicate Distinct<C>(todo: Id, doing: Id, done: Id, c1: Card<C>, c2: Card<C>, c3: Card<C>)
  {
    && todo != "" && doing != "" && done != ""
    && todo != doing && todo != done && doing != done
    && c1.id != c2.id && c1.id != c3.id && c2.id != c3.id
  }

  /** An id that is no card's id. */
  predicate NotACard<C>(x: Id, c1: Card<C>, c2: Card<C>, c3: Card<C>)
  {
    x != c1.id && x != c2.id && x != c3.id
  }

  lemma InitialLists<C>(todo: Id, doing: Id, done: Id, c1: Card<C>, c2: Card<C>, c3: Card<C>)
    requires Distinct(todo, doing, done, c1, c2, c3)
    ensures var b := Initial(todo, doing, done, c1, c2, c3);
            && b.lists.Keys == {todo, doing, done}
            && b.lists[todo] == [c1, c2] && b.lists[doing] == [c3] && b.lists[done] == []
  {
  }

  lemma InitialSource<C>(todo: Id, doing: Id, done: Id, c1: Card<C>, c2: Card<C>, c3: Card<C>)
    requires Distinct(todo, doing, done, c1, c2, c3)
    ensures var b := Initial(todo, doing, done, c1, c2, c3);
            Prototype.FindColumnByTaskId(b, c1.id) == Some(todo) && UniqueCardIds(b.lists[todo])
  {
    var b := Initial(todo, doing, done, c1, c2, c3);
    InitialLists(todo, doing, done, c1, c2, c3);
    assert KeyHolds(b, todo, c1.id) by { assert b.lists[todo][0].id == c1.id; }
    assert KeyIndexOfTask(b, c1.id) == 0;
  }

  /** An id carried by no card is its own destination. */
  lemma InitialDestination<C>(todo: Id, doing: Id, done: Id, c1: Card<C>, c2: Card<C>, c3: Card<C>, x: Id)
    requires Distinct(todo, doing, done, c1, c2, c3) && NotACard(x, c1, c2, c3)
    ensures Destination(Initial(todo, doing, done, c1, c2, c3), x) == x
  {
    var b := Initial(todo, doing, done, c1, c2, c3);
    InitialLists(todo, doing, done, c1, c2, c3);
    assert !HasCard([c1, c2], x) && !HasCard([c3], x) && !HasCard<C>([], x);
    assert !KeyHolds(b, todo, x) && !KeyHolds(b, doing, x) && !KeyHolds(b, done, x);
    assert KeyIndexOfTask(b, x) < 0;
  }

  /** In the prototype, dropping c1 on the empty done column moves it there
      and leaves c2 alone in to-do. */
  lemma PrototypeMoveToDone<C>(todo: Id, doing: Id, done: Id, c1: Card<C>, c2: Card<C>, c3: Card<C>)
    requires Distinct(todo, doing, done, c1, c2, c3) && NotACard(done, c1, c2, c3)
    ensures var r := Prototype.Reconcile(Initial(todo, doing, done, c1, c2, c3), c1.id, Some(done));
            r.Next? && r.columns.lists[done] == [c1] && r.columns.lists[todo] == [c2]
  {
    var b := Initial(todo, doing, done, c1, c2, c3);
    InitialLists(todo, doing, done, c1, c2, c3);
    InitialSource(todo, doing, done, c1, c2, c3);
    InitialDestination(todo, doing, done, c1, c2, c3, done);
    ReconcileMovesAcross(b, c1.id, done, todo, done);
    assert Without([c2], c1.id) == [c2];
  }

  /** In the prototype, dropping c1 on itself sends it to the end of to-do. */
  lemma PrototypeSelfDrop<C>(todo: Id, doing: Id, done: Id, c1: Card<C>, c2: Card<C>, c3: Card<C>)
    requires Distinct(todo, doing, done, c1, c2, c3)
    ensures var r := Prototype.Reconcile(Initial(todo, doing, done, c1, c2, c3), c1.id, Some(c1.id));
            r.Next? && r.columns.lists[todo] == [c2, c1]
  {
    var b := Initial(todo, doing, done, c1, c2, c3);
    InitialLists(todo, doing, done, c1, c2, c3);
    InitialSource(todo, doing, done, c1, c2, c3);
    SelfDropMovesToEnd(b, c1.id, todo);
    assert Without([c1, c2], c1.id) == [c2];
  }

  /** In the prototype, dropping c1 on an id that names neither a card nor
      a column throws. */
  lemma PrototypeUnknownTargetThrows<C>(todo: Id, doing: Id, done: Id, c1: Card<C>, c2: Card<C>, c3: Card<C>, other: Id)
    requires Distinct(todo, doing, done, c1, c2, c3) && NotACard(other, c1, c2, c3)
    requires other != "" && other != todo && other != doing && other != done
    ensures Prototype.Reconcile(Initial(todo, doing, done, c1, c2, c3), c1.id, Some(other)).TypeError?
  {
    var b := Initial(todo, doing, done, c1, c2, c3);
    InitialLists(todo, doing, done, c1, c2, c3);
    InitialSource(todo, doing, done, c1, c2, c3);
    InitialDestination(todo, doing, done, c1, c2, c3, other);
    ReconcileThrowsIff(b, c1.id, Some(other));
  }
}
