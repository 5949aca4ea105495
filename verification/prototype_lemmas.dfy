/** Properties of the prototype board's drag-end handler. */
module PrototypeLemmas {
  import opened Base
  import opened Prototype

  lemma {:induction false} WithoutAbsent<C>(cards: seq<Card<C>>, id: Id)
    requires !HasCard(cards, id)
    ensures Without(cards, id) == cards
  {
    if |cards| > 0 {
      assert !HasCard(cards[1..], id) by {
        forall i | 0 <= i < |cards[1..]|
          ensures cards[1..][i].id != id
        {
          assert cards[1..][i] == cards[i + 1];
        }
      }
      WithoutAbsent(cards[1..], id);
    }
  }

  /** In a list with unique ids, splicing out the card at its position is
      the same as keeping every other card in order. */
  lemma {:induction false} RemoveAtIsWithout<C>(cards: seq<Card<C>>, i: nat, id: Id)
    requires UniqueCardIds(cards)
    requires i < |cards| && cards[i].id == id
    ensures RemoveAt(cards, i) == Without(cards, id)
  {
    if i == 0 {
      assert !HasCard(cards[1..], id) by {
        forall j | 0 <= j < |cards[1..]|
          ensures cards[1..][j].id != id
        {
          assert cards[1..][j] == cards[j + 1];
        }
      }
      WithoutAbsent(cards[1..], id);
      assert RemoveAt(cards, 0) == cards[1..];
    } else {
      var tail := cards[1..];
      assert UniqueCardIds(tail) by {
        forall p, q | 0 <= p < q < |tail|
          ensures tail[p].id != tail[q].id
        {
          assert tail[p] == cards[p + 1] && tail[q] == cards[q + 1];
        }
      }
      assert tail[i - 1] == cards[i];
      RemoveAtIsWithout(tail, i - 1, id);
      assert RemoveAt(cards, i) == [cards[0]] + RemoveAt(tail, i - 1);
    }
  }

  /** A drop whose destination (`Destination`) is another existing column: the
      source loses exactly the moved card and keeps the rest in order, the
      card is appended to the destination, and no other column changes. */
  lemma ReconcileMovesAcross<C>(b: Columns<C>, activeId: Id, overId: Id, src: Id, dst: Id)
    requires FindColumnByTaskId(b, activeId) == Some(src) && src != ""
    requires UniqueCardIds(b.lists[src])
    requires Destination(b, overId) == dst && dst != "" && dst in b.lists && dst != src
    ensures var r := Reconcile(b, activeId, Some(overId));
            && r.Next?
            && r.columns.lists[src] == Without(b.lists[src], activeId)
            && |r.columns.lists[src]| + 1 == |b.lists[src]|
            && (var d, d' := b.lists[dst], r.columns.lists[dst];
                && |d'| == |d| + 1 && d'[..|d|] == d
                && d'[|d|].id == activeId && d'[|d|] in b.lists[src])
            && (forall k :: k in b.lists && k != src && k != dst ==> r.columns.lists[k] == b.lists[k])
  {
    var i := CardIndex(b.lists[src], activeId);
    RemoveAtIsWithout(b.lists[src], i, activeId);
    var d' := b.lists[dst] + [b.lists[src][i]];
    assert d'[..|b.lists[dst]|] == b.lists[dst];
  }

  /** A drop whose destination is the card's own column: the destination
      spread reads back the source list just written without the card, so
      the card goes to the end of its own column, which keeps its length. */
  lemma ReconcileMovesWithin<C>(b: Columns<C>, activeId: Id, overId: Id, src: Id)
    requires FindColumnByTaskId(b, activeId) == Some(src) && src != ""
    requires UniqueCardIds(b.lists[src])
    requires Destination(b, overId) == src
    ensures var r := Reconcile(b, activeId, Some(overId));
            && r.Next?
            && (var s, s' := b.lists[src], r.columns.lists[src];
                && |s'| == |s|
                && s'[..|s| - 1] == Without(s, activeId)
                && s'[|s| - 1].id == activeId && s'[|s| - 1] in s)
            && (forall k :: k in b.lists && k != src ==> r.columns.lists[k] == b.lists[k])
  {
    var i := CardIndex(b.lists[src], activeId);
    RemoveAtIsWithout(b.lists[src], i, activeId);
    var s' := RemoveAt(b.lists[src], i) + [b.lists[src][i]];
    assert s'[..|b.lists[src]| - 1] == RemoveAt(b.lists[src], i);
  }

  /** With no self-drop guard, dropping a card on itself is a same-column
      drop: the card moves to the end of its column. */
  lemma SelfDropMovesToEnd<C>(b: Columns<C>, activeId: Id, src: Id)
    requires FindColumnByTaskId(b, activeId) == Some(src) && src != ""
    requires UniqueCardIds(b.lists[src])
    ensures var r := Reconcile(b, activeId, Some(activeId));
            && r.Next?
            && (var s, s' := b.lists[src], r.columns.lists[src];
                && |s'| == |s|
                && s'[..|s| - 1] == Without(s, activeId)
                && s'[|s| - 1].id == activeId)
  {
    assert Destination(b, activeId) == src;
    ReconcileMovesWithin(b, activeId, activeId, src);
  }

  /** The handler throws exactly when the card is found and the destination
      it settles on is a truthy id that is not a property of the object. */
  lemma ReconcileThrowsIff<C>(b: Columns<C>, activeId: Id, over: Option<Id>)
    ensures Reconcile(b, activeId, over).TypeError? <==>
            && over.Some?
            && Truthy(FindColumnByTaskId(b, activeId))
            && Destination(b, over.value) != ""
            && Destination(b, over.value) !in b.lists
  {
    if over.Some? && Truthy(FindColumnByTaskId(b, activeId)) {
      var src := FindColumnByTaskId(b, activeId).value;
      assert CardIndex(b.lists[src], activeId) >= 0;
    }
  }

  lemma {:induction false} AllCardsAbsent<C>(keys: seq<Id>, lists: map<Id, seq<Card<C>>>, k: Id, v: seq<Card<C>>)
    requires k !in keys
    ensures AllCards(keys, lists[k := v]) == AllCards(keys, lists)
  {
    if |keys| > 0 {
      AllCardsAbsent(keys[1..], lists, k, v);
    }
  }

  /** Replacing one listed property swaps its cards in the object's
      multiset of cards and nothing else. */
  lemma {:induction false} AllCardsUpdate<C>(keys: seq<Id>, lists: map<Id, seq<Card<C>>>, k: Id, v: seq<Card<C>>)
    requires NoRepeats(keys) && k in keys && k in lists
    ensures multiset(AllCards(keys, lists[k := v])) + multiset(lists[k]) ==
            multiset(AllCards(keys, lists)) + multiset(v)
  {
    assert NoRepeats(keys[1..]) by {
      forall p, q | 0 <= p < q < |keys[1..]|
        ensures keys[1..][p] != keys[1..][q]
      {
        assert keys[1..][p] == keys[p + 1] && keys[1..][q] == keys[q + 1];
      }
    }
    if keys[0] == k {
      assert k !in keys[1..] by {
        forall p | 0 <= p < |keys[1..]|
          ensures keys[1..][p] != k
        {
          assert keys[1..][p] == keys[p + 1];
        }
      }
      AllCardsAbsent(keys[1..], lists, k, v);
    } else {
      assert k in keys[1..] by {
        var p :| 0 <= p < |keys| && keys[p] == k;
        assert keys[1..][p - 1] == k;
      }
      AllCardsUpdate(keys[1..], lists, k, v);
      var head := if keys[0] in lists then lists[keys[0]] else [];
      assert AllCards(keys, lists) == head + AllCards(keys[1..], lists);
      assert AllCards(keys, lists[k := v]) == head + AllCards(keys[1..], lists[k := v]);
      MultisetPrefix(multiset(head), multiset(AllCards(keys[1..], lists[k := v])),
                     multiset(AllCards(keys[1..], lists)), multiset(lists[k]), multiset(v));
    }
  }

  /** Splicing card `i` out of `src` and appending it to `dst` keeps the
      object's multiset of cards. */
  lemma MoveConserves<C>(keys: seq<Id>, lists: map<Id, seq<Card<C>>>, src: Id, i: nat, dst: Id)
    requires NoRepeats(keys) && src in keys && src in lists && dst in keys && dst in lists
    requires i < |lists[src]|
    ensures var lists1 := lists[src := RemoveAt(lists[src], i)];
            multiset(AllCards(keys, lists1[dst := lists1[dst] + [lists[src][i]]])) ==
            multiset(AllCards(keys, lists))
  {
    var lists1 := lists[src := RemoveAt(lists[src], i)];
    if dst == src {
      assert lists1[dst := lists1[dst] + [lists[src][i]]] == lists[src := RemoveAt(lists[src], i) + [lists[src][i]]];
      MoveWithinConserves(keys, lists, src, i);
    } else {
      MoveAcrossConserves(keys, lists, src, i, dst);
    }
  }

  lemma MoveWithinConserves<C>(keys: seq<Id>, lists: map<Id, seq<Card<C>>>, src: Id, i: nat)
    requires NoRepeats(keys) && src in keys && src in lists
    requires i < |lists[src]|
    ensures multiset(AllCards(keys, lists[src := RemoveAt(lists[src], i) + [lists[src][i]]])) ==
            multiset(AllCards(keys, lists))
  {
    var v := RemoveAt(lists[src], i) + [lists[src][i]];
    assert multiset(v) == multiset(lists[src]);
    AllCardsUpdate(keys, lists, src, v);
    MultisetCancel(multiset(AllCards(keys, lists[src := v])), multiset(AllCards(keys, lists)), multiset(v));
  }

  lemma MoveAcrossConserves<C>(keys: seq<Id>, lists: map<Id, seq<Card<C>>>, src: Id, i: nat, dst: Id)
    requires NoRepeats(keys) && src in keys && src in lists && dst in keys && dst in lists && src != dst
    requires i < |lists[src]|
    ensures var lists1 := lists[src := RemoveAt(lists[src], i)];
            multiset(AllCards(keys, lists1[dst := lists[dst] + [lists[src][i]]])) ==
            multiset(AllCards(keys, lists))
  {
    var s := lists[src];
    var moved := s[i];
    var rest := RemoveAt(s, i);
    var lists1 := lists[src := rest];
    var d' := lists[dst] + [moved];
    AllCardsUpdate(keys, lists, src, rest);
    AllCardsUpdate(keys, lists1, dst, d');
    assert lists1[dst] == lists[dst];
    MultisetSwap(multiset(AllCards(keys, lists1[dst := d'])), multiset(AllCards(keys, lists1)),
                 multiset(AllCards(keys, lists)), multiset(s), multiset(rest),
                 multiset(lists[dst]), multiset(d'), multiset{moved});
  }

  /** A completed drop neither loses nor duplicates a card. */
  lemma ReconcileConservesCards<C>(b: Columns<C>, activeId: Id, over: Option<Id>)
    requires Valid(b)
    ensures var r := Reconcile(b, activeId, over);
            r.Next? ==> multiset(AllCards(r.columns.keys, r.columns.lists)) == multiset(AllCards(b.keys, b.lists))
  {
    if over.Some? && Truthy(FindColumnByTaskId(b, activeId)) {
      var src := FindColumnByTaskId(b, activeId).value;
      var dst := Destination(b, over.value);
      var i := CardIndex(b.lists[src], activeId);
      if dst != "" && dst in b.lists {
        MoveConserves(b.keys, b.lists, src, i, dst);
      }
    }
  }
}
