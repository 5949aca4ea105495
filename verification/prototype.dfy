/** The first prototype of the board (`KanbanBoard` in the root Board.jsx):
    columns are the properties of a plain object keyed by column id, and
    the drag-end handler always appends the moved card to its destination. */
module Prototype {
  import opened Base

  datatype Card<C> = Card(id: Id, content: C)

  /** A JavaScript object from column id to its cards: `keys` is the
      object's own-key order (`Object.keys`), `lists` its properties. */
  datatype Columns<C> = Columns(keys: seq<Id>, lists: map<Id, seq<Card<C>>>)

  /** What every JavaScript object satisfies: each own key is listed once,
      and exactly the listed keys have properties. */
  predicate Valid<C>(b: Columns<C>)
  {
    && NoRepeats(b.keys)
    && (forall k :: k in b.keys ==> k in b.lists)
    && (forall k :: k in b.lists ==> k in b.keys)
  }

  /** `cards.some(task => task.id === id)` */
  predicate HasCard<C>(cards: seq<Card<C>>, id: Id)
  {
    exists i :: 0 <= i < |cards| && cards[i].id == id
  }

  /** No card id occurs twice in this list. */
  predicate UniqueCardIds<C>(cards: seq<Card<C>>)
  {
    forall i, j :: 0 <= i < j < |cards| ==> cards[i].id != cards[j].id
  }

  /** `columns[key]` exists and holds a card with this id. */
  predicate KeyHolds<C>(b: Columns<C>, key: Id, id: Id)
  {
    key in b.lists && HasCard(b.lists[key], id)
  }

  /** `cards.findIndex(t => t.id === id)` */
  function CardIndex<C>(cards: seq<Card<C>>, id: Id): (r: int)
    ensures -1 <= r < |cards|
    ensures r < 0 <==> !HasCard(cards, id)
    ensures 0 <= r ==> cards[r].id == id && forall i :: 0 <= i < r ==> cards[i].id != id
  {
    FindIndex(cards, (t: Card<C>) => t.id == id)
  }

  /** Position, in key order, of the first key whose list holds the card. */
  function KeyIndexOfTask<C>(b: Columns<C>, id: Id): (r: int)
    ensures -1 <= r < |b.keys|
    ensures r < 0 <==> forall i :: 0 <= i < |b.keys| ==> !KeyHolds(b, b.keys[i], id)
    ensures 0 <= r ==> KeyHolds(b, b.keys[r], id) && forall i :: 0 <= i < r ==> !KeyHolds(b, b.keys[i], id)
  {
    FindIndex(b.keys, (k: Id) => KeyHolds(b, k, id))
  }

  /** `findColumnByTaskId`: the first key, in key order, whose list holds a
      card with id `taskId`. */
  function FindColumnByTaskId<C>(b: Columns<C>, taskId: Id): (r: Option<Id>)
    ensures r.None? <==> forall i :: 0 <= i < |b.keys| ==> !KeyHolds(b, b.keys[i], taskId)
    ensures r.Some? ==> KeyHolds(b, r.value, taskId) &&
                        exists i :: 0 <= i < |b.keys| && b.keys[i] == r.value &&
                                    forall j :: 0 <= j < i ==> !KeyHolds(b, b.keys[j], taskId)
  {
    var i := KeyIndexOfTask(b, taskId);
    if i < 0 then None else Some(b.keys[i])
  }

  /** `getTaskContentById`: the content of the card, looked up in the column
      `findColumnByTaskId` names; nothing when that column is missing or its
      id is falsy. */
  function GetTaskContentById<C>(b: Columns<C>, taskId: Id): (r: Option<C>)
    ensures r.Some? <==> Truthy(FindColumnByTaskId(b, taskId))
    ensures r.Some? ==> var cards := b.lists[FindColumnByTaskId(b, taskId).value];
                        exists i :: 0 <= i < |cards| && cards[i].id == taskId && cards[i].content == r.value &&
                                    forall j :: 0 <= j < i ==> cards[j].id != taskId
  {
    var columnId := FindColumnByTaskId(b, taskId);
    if !Truthy(columnId) then None
    else
      var i := CardIndex(b.lists[columnId.value], taskId);
      if i < 0 then None else Some(b.lists[columnId.value][i].content)
  }

  /** The destination of a drop, `findColumnByTaskId(columns, over.id) || over.id`:
      the first column, in key order, holding the card dropped on, or else
      the target id itself. */
  function Destination<C>(b: Columns<C>, overId: Id): (r: Id)
    ensures Truthy(FindColumnByTaskId(b, overId)) ==>
              && KeyHolds(b, r, overId)
              && exists i :: 0 <= i < |b.keys| && b.keys[i] == r &&
                             forall j :: 0 <= j < i ==> !KeyHolds(b, b.keys[j], overId)
    ensures !Truthy(FindColumnByTaskId(b, overId)) ==> r == overId
  {
    var found := FindColumnByTaskId(b, overId);
    if Truthy(found) then found.value else overId
  }

  /** Result of the handler: the next object, or the `TypeError` thrown by
      spreading `newColumns[destinationColumnId]` when that property is
      missing. */
  datatype Outcome<C> = Next(columns: Columns<C>) | TypeError

  /** `handleDragEnd`: move card `activeId`, dropped on `over` (a card id, a
      column id or nothing), to the end of its destination column. */
  function Reconcile<C>(b: Columns<C>, activeId: Id, over: Option<Id>): (r: Outcome<C>)
    ensures over.None? ==> r == Next(b)
    ensures FindColumnByTaskId(b, activeId).None? ==> r == Next(b)
    ensures r.Next? ==> r.columns.keys == b.keys && r.columns.lists.Keys == b.lists.Keys
    ensures r.TypeError? ==> over.Some? && Destination(b, over.value) !in b.lists
  {
    if over.None? then Next(b)
    else
      var sourceColumnId := FindColumnByTaskId(b, activeId);
      var destinationColumnId := Destination(b, over.value);
      if !Truthy(sourceColumnId) || destinationColumnId == "" then Next(b)
      else
        var sourceTasks := b.lists[sourceColumnId.value];
        var taskIndex := CardIndex(sourceTasks, activeId);
        if taskIndex < 0 then Next(b)
        else
          var movedTask := sourceTasks[taskIndex];
          var newColumns := b.lists[sourceColumnId.value := RemoveAt(sourceTasks, taskIndex)];
          if destinationColumnId !in newColumns then TypeError
          else
            Next(Columns(b.keys, newColumns[destinationColumnId := newColumns[destinationColumnId] + [movedTask]]))
  }

  /** Every card of the object, key by key. */
  function AllCards<C>(keys: seq<Id>, lists: map<Id, seq<Card<C>>>): seq<Card<C>>
  {
    if |keys| == 0 then []
    else (if keys[0] in lists then lists[keys[0]] else []) + AllCards(keys[1..], lists)
  }

  /** The cards of a list other than those with id `id`, in order. */
  function Without<C>(cards: seq<Card<C>>, id: Id): (r: seq<Card<C>>)
    ensures forall i :: 0 <= i < |r| ==> r[i].id != id
    ensures multiset(r) <= multiset(cards)
  {
    if |cards| == 0 then []
    else
      assert cards == [cards[0]] + cards[1..];
      if cards[0].id == id then Without(cards[1..], id)
      else [cards[0]] + Without(cards[1..], id)
  }
}
