/**
 * The drop handler of the board: a card dragged from one list onto another
 * is removed from the source list and appended at the end of the
 * destination list. Drops without a destination, and drops back onto the
 * source list, change nothing. The drop indices are never read.
 */
module DragDrop {
  import opened Kanban
  import opened ListHandlers

  /** Where a drag starts or ends: the list's id and a position in it. */
  datatype DraggableLocation = DraggableLocation(droppableId: int, index: int)

  /** What the drag-and-drop library reports when a drag ends. */
  datatype DropResult = DropResult(destination: Option<DraggableLocation>, source: DraggableLocation, draggableId: int)

  /** `lists.find(list => list.id === listId)`: the first list with the id. */
  function FindList(lists: seq<List>, listId: int): (r: Option<List>)
    ensures r.Some? ==> r.value in lists && r.value.id == listId
    ensures r.None? <==> FreshListId(lists, listId)
    ensures r.Some? ==> exists k :: 0 <= k < |lists| && lists[k] == r.value && FreshListId(lists[..k], listId)
  {
    if lists == [] then None
    else if lists[0].id == listId then Some(lists[0])
    else
      var r := FindList(lists[1..], listId);
      assert forall i :: 0 < i < |lists| ==> lists[i] == lists[1..][i - 1];
      if r.Some? then
        ghost var k :| 0 <= k < |lists[1..]| && lists[1..][k] == r.value && FreshListId(lists[1..][..k], listId);
        assert lists[..k + 1] == [lists[0]] + lists[1..][..k];
        assert lists[k + 1] == r.value && FreshListId(lists[..k + 1], listId);
        r
      else r
  }

  /** `cards.find(card => card.id === cardId)`: the first card with the id. */
  function FindCard(cards: seq<Card>, cardId: int): (r: Option<Card>)
    ensures r.Some? ==> r.value in cards && r.value.id == cardId
    ensures r.None? <==> cardId !in Ids(cards)
    ensures r.Some? ==> exists k :: 0 <= k < |cards| && cards[k] == r.value &&
                          forall j :: 0 <= j < k ==> cards[j].id != cardId
  {
    if cards == [] then None
    else if cards[0].id == cardId then Some(cards[0])
    else
      var r := FindCard(cards[1..], cardId);
      assert forall c :: c in cards[1..] ==> c in cards;
      assert forall c :: c in cards && c != cards[0] ==> c in cards[1..];
      if r.Some? then
        ghost var k :| 0 <= k < |cards[1..]| && cards[1..][k] == r.value &&
                       forall j :: 0 <= j < k ==> cards[1..][j].id != cardId;
        assert cards[k + 1] == r.value && forall j :: 0 <= j < k + 1 ==> cards[j].id != cardId;
        r
      else r
  }

  /** The drop is cancelled: no destination, or the destination is the source list. */
  predicate IsCancelled(result: DropResult) {
    result.destination.None? || result.destination.value.droppableId == result.source.droppableId
  }

  /** The source list exists and holds the dragged card, as the handler takes for granted. */
  predicate SourceHoldsCard(lists: seq<List>, result: DropResult) {
    var source := FindList(lists, result.source.droppableId);
    source.Some? && FindCard(source.value.cards, result.draggableId).Some?
  }

  /** The card the handler moves: the first with the dragged id in the source list. */
  function DraggedCard(lists: seq<List>, result: DropResult): (c: Card)
    requires SourceHoldsCard(lists, result)
    ensures c.id == result.draggableId
    ensures exists i :: 0 <= i < |lists| && lists[i].id == result.source.droppableId && c in lists[i].cards
    ensures exists i :: 0 <= i < |lists| && lists[i].id == result.source.droppableId &&
              FreshListId(lists[..i], result.source.droppableId) &&
              exists k :: 0 <= k < |lists[i].cards| && lists[i].cards[k] == c &&
                forall j :: 0 <= j < k ==> lists[i].cards[j].id != result.draggableId
  {
    var source := FindList(lists, result.source.droppableId).value;
    var c := FindCard(source.cards, result.draggableId).value;
    ghost var i :| 0 <= i < |lists| && lists[i] == source && FreshListId(lists[..i], result.source.droppableId);
    c
  }

  /** What the handler's `map` does to one list. */
  function MoveStep(l: List, sourceId: int, destId: int, cardId: int, card: Card): (r: List)
    ensures r.id == l.id && r.title == l.title
    ensures l.id == sourceId ==> r.cards == WithoutCard(l.cards, cardId)
    ensures l.id != sourceId && l.id == destId ==> r.cards == l.cards + [card]
    ensures l.id != sourceId && l.id != destId ==> r == l
  {
    if l.id == sourceId then l.(cards := WithoutCard(l.cards, cardId))
    else if l.id == destId then l.(cards := l.cards + [card])
    else l
  }

  /**
   * The handler's `lists.map`: every list goes through the move step, so the
   * lists keep their number, order and ids, and only the source and
   * destination lists can change.
   */
  function MoveAll(lists: seq<List>, sourceId: int, destId: int, cardId: int, card: Card): (r: seq<List>)
    ensures |r| == |lists|
    ensures forall i :: 0 <= i < |lists| ==> r[i].id == lists[i].id && r[i].title == lists[i].title
    ensures forall i :: 0 <= i < |lists| && lists[i].id == sourceId ==>
              r[i].cards == WithoutCard(lists[i].cards, cardId)
    ensures forall i :: 0 <= i < |lists| && lists[i].id != sourceId && lists[i].id == destId ==>
              r[i].cards == lists[i].cards + [card]
    ensures forall i :: 0 <= i < |lists| && lists[i].id != sourceId && lists[i].id != destId ==> r[i] == lists[i]
  {
    seq(|lists|, i requires 0 <= i < |lists| => MoveStep(lists[i], sourceId, destId, cardId, card))
  }

  /**
   * `onDragEnd`. A cancelled drop leaves the lists unchanged. Otherwise
   * every list with the source id loses every card with the dragged id,
   * every other list with the destination id gets the dragged card
   * appended at its end, and every other list is unchanged; lists keep
   * their number, order, ids and titles.
   */
  function OnDragEnd(lists: seq<List>, result: DropResult): (r: seq<List>)
    requires !IsCancelled(result) ==> SourceHoldsCard(lists, result)
    ensures IsCancelled(result) ==> r == lists
    ensures |r| == |lists|
    ensures forall i :: 0 <= i < |lists| ==> r[i].id == lists[i].id && r[i].title == lists[i].title
    ensures !IsCancelled(result) ==>
              forall i :: 0 <= i < |lists| ==>
                if lists[i].id == result.source.droppableId then
                  r[i].cards == WithoutCard(lists[i].cards, result.draggableId)
                else if lists[i].id == result.destination.value.droppableId then
                  r[i].cards == lists[i].cards + [DraggedCard(lists, result)]
                else r[i] == lists[i]
  {
    if IsCancelled(result) then lists
    else
      MoveAll(lists, result.source.droppableId, result.destination.value.droppableId,
              result.draggableId, DraggedCard(lists, result))
  }

  /**
   * The guard of the handler decides everything: a drop changes the lists
   * exactly when it has a destination other than the source list.
   */
  lemma DropChangesListsIffNotCancelled(lists: seq<List>, result: DropResult)
    requires !IsCancelled(result) ==> SourceHoldsCard(lists, result)
    ensures OnDragEnd(lists, result) != lists <==> !IsCancelled(result)
  {
    if !IsCancelled(result) {
      var r := OnDragEnd(lists, result);
      var card := DraggedCard(lists, result);
      var i :| 0 <= i < |lists| && lists[i].id == result.source.droppableId && card in lists[i].cards;
      assert card !in r[i].cards;
    }
  }

  /** The drop positions play no part: only the list ids and the card id matter. */
  lemma DropIndexIgnored(lists: seq<List>, result: DropResult, destIndex: int, sourceIndex: int)
    requires result.destination.Some?
    requires !IsCancelled(result) ==> SourceHoldsCard(lists, result)
    ensures var moved := result.(destination := Some(result.destination.value.(index := destIndex)),
                                 source := result.source.(index := sourceIndex));
            OnDragEnd(lists, moved) == OnDragEnd(lists, result)
  {
  }

  /** A run of lists lacks an id exactly when its first list and its tail both do. */
  lemma FreshListIdCons(lists: seq<List>, listId: int)
    requires lists != []
    ensures FreshListId(lists, listId) <==> lists[0].id != listId && FreshListId(lists[1..], listId)
  {
    assert forall i :: 0 < i < |lists| ==> lists[i] == lists[1..][i - 1];
  }

  /** The cards of the lists after a move, one list at a time. */
  lemma MoveAllCons(lists: seq<List>, sourceId: int, destId: int, card: Card)
    requires lists != []
    ensures AllCards(MoveAll(lists, sourceId, destId, card.id, card)) ==
            MoveStep(lists[0], sourceId, destId, card.id, card).cards +
            AllCards(MoveAll(lists[1..], sourceId, destId, card.id, card))
  {
    var r := MoveAll(lists, sourceId, destId, card.id, card);
    assert r[1..] == MoveAll(lists[1..], sourceId, destId, card.id, card);
  }

  /** The one list whose cards the move shrinks loses exactly the moved card. */
  lemma SourceStepBag(l: List, destId: int, card: Card)
    requires card in l.cards && DistinctIds(l.cards)
    ensures multiset(MoveStep(l, l.id, destId, card.id, card).cards) + multiset{card} == multiset(l.cards)
  {
    var k :| 0 <= k < |l.cards| && l.cards[k] == card;
    WithoutCardBag(l.cards, k);
  }

  /** The bag equation of one list: the source gives up the card, the destination takes it. */
  lemma StepBag(l: List, sourceId: int, destId: int, card: Card)
    requires sourceId != destId
    requires l.id == sourceId ==> card in l.cards && DistinctIds(l.cards)
    ensures multiset(MoveStep(l, sourceId, destId, card.id, card).cards) + CardIf(l.id == sourceId, card) ==
            multiset(l.cards) + CardIf(l.id == destId, card)
  {
    if l.id == sourceId {
      SourceStepBag(l, destId, card);
    }
  }

  /** The bag equation of a run of lists from that of its first list and that of the rest. */
  lemma BagsAdd(head: multiset<Card>, headAfter: multiset<Card>, rest: multiset<Card>, restAfter: multiset<Card>,
                outHead: multiset<Card>, outRest: multiset<Card>, inHead: multiset<Card>, inRest: multiset<Card>)
    requires headAfter + outHead == head + inHead
    requires restAfter + outRest == rest + inRest
    ensures (headAfter + restAfter) + (outHead + outRest) == (head + rest) + (inHead + inRest)
  {
    forall x ensures ((headAfter + restAfter) + (outHead + outRest))[x] == ((head + rest) + (inHead + inRest))[x] {
      assert (headAfter + outHead)[x] == (head + inHead)[x];
      assert (restAfter + outRest)[x] == (rest + inRest)[x];
    }
  }

  /** Whether the run holds a list with the id, as a bag holding the card once or not at all. */
  function CardIf(present: bool, card: Card): multiset<Card> {
    if present then multiset{card} else multiset{}
  }

  /** The requirements of the move's accounting pass from a run of lists to its tail. */
  lemma BalanceTail(lists: seq<List>, sourceId: int, destId: int, card: Card)
    requires lists != []
    requires ListIdsDistinct(lists)
    requires forall i :: 0 <= i < |lists| && lists[i].id == sourceId ==>
               card in lists[i].cards && DistinctIds(lists[i].cards)
    ensures ListIdsDistinct(lists[1..])
    ensures forall i :: 0 <= i < |lists[1..]| && lists[1..][i].id == sourceId ==>
              card in lists[1..][i].cards && DistinctIds(lists[1..][i].cards)
    ensures CardIf(!FreshListId(lists, sourceId), card) ==
            CardIf(lists[0].id == sourceId, card) + CardIf(!FreshListId(lists[1..], sourceId), card)
    ensures CardIf(!FreshListId(lists, destId), card) ==
            CardIf(lists[0].id == destId, card) + CardIf(!FreshListId(lists[1..], destId), card)
  {
    var tail := lists[1..];
    assert forall i :: 0 <= i < |tail| ==> tail[i] == lists[i + 1];
    FreshListIdCons(lists, sourceId);
    FreshListIdCons(lists, destId);
  }

  /**
   * Card accounting of the move over any run of lists: the cards after the
   * move plus the card (if the source list is in the run) are the cards
   * before plus the card (if the destination list is in the run).
   */
  lemma {:induction false} MoveAllBalance(lists: seq<List>, sourceId: int, destId: int, card: Card)
    requires sourceId != destId
    requires ListIdsDistinct(lists)
    requires forall i :: 0 <= i < |lists| && lists[i].id == sourceId ==>
               card in lists[i].cards && DistinctIds(lists[i].cards)
    ensures multiset(AllCards(MoveAll(lists, sourceId, destId, card.id, card))) + CardIf(!FreshListId(lists, sourceId), card) ==
            multiset(AllCards(lists)) + CardIf(!FreshListId(lists, destId), card)
  {
    if lists != [] {
      var tail := lists[1..];
      var step := MoveStep(lists[0], sourceId, destId, card.id, card);
      BalanceTail(lists, sourceId, destId, card);
      MoveAllBalance(tail, sourceId, destId, card);
      MoveAllCons(lists, sourceId, destId, card);
      assert AllCards(lists) == lists[0].cards + AllCards(tail);
      StepBag(lists[0], sourceId, destId, card);
      BagsAdd(multiset(lists[0].cards), multiset(step.cards),
              multiset(AllCards(tail)), multiset(AllCards(MoveAll(tail, sourceId, destId, card.id, card))),
              CardIf(lists[0].id == sourceId, card), CardIf(!FreshListId(tail, sourceId), card),
              CardIf(lists[0].id == destId, card), CardIf(!FreshListId(tail, destId), card));
    }
  }

  /**
   * Card accounting of a drop on a well-formed board: the cards after it
   * plus the dragged card are the cards before, plus the dragged card again
   * if a list carries the destination id.
   */
  lemma {:induction false} DropBalance(lists: seq<List>, result: DropResult)
    requires WellFormed(lists)
    requires !IsCancelled(result) && SourceHoldsCard(lists, result)
    ensures multiset(AllCards(OnDragEnd(lists, result))) + multiset{DraggedCard(lists, result)} ==
            multiset(AllCards(lists)) + CardIf(!FreshListId(lists, result.destination.value.droppableId), DraggedCard(lists, result))
  {
    var card := DraggedCard(lists, result);
    var sourceId, destId := result.source.droppableId, result.destination.value.droppableId;
    var k :| 0 <= k < |lists| && lists[k].id == sourceId && card in lists[k].cards;
    forall i | 0 <= i < |lists| && lists[i].id == sourceId
      ensures card in lists[i].cards && DistinctIds(lists[i].cards)
    {
      assert i == k;
    }
    MoveAllBalance(lists, sourceId, destId, card);
    assert OnDragEnd(lists, result) == MoveAll(lists, sourceId, destId, card.id, card);
  }

  /**
   * On a well-formed board, a drop onto an existing other list keeps the
   * board's cards: the same cards, hence the same count.
   */
  lemma MoveConservesCards(lists: seq<List>, result: DropResult)
    requires WellFormed(lists)
    requires !IsCancelled(result) && SourceHoldsCard(lists, result)
    requires FindList(lists, result.destination.value.droppableId).Some?
    ensures multiset(AllCards(OnDragEnd(lists, result))) == multiset(AllCards(lists))
    ensures |AllCards(OnDragEnd(lists, result))| == |AllCards(lists)|
  {
    var after, before := multiset(AllCards(OnDragEnd(lists, result))), multiset(AllCards(lists));
    var card := DraggedCard(lists, result);
    DropBalance(lists, result);
    BagCancel(after, before, card);
    assert |after| == |before|;
  }

  /** One more copy of the same card on both sides cancels. */
  lemma BagCancel(a: multiset<Card>, b: multiset<Card>, card: Card)
    requires a + multiset{card} == b + multiset{card}
    ensures a == b
  {
    forall x ensures a[x] == b[x] {
      assert (a + multiset{card})[x] == (b + multiset{card})[x];
    }
  }

  /**
   * A drop onto a list id that no list carries removes the card from the
   * source and puts it nowhere: the board loses exactly that card.
   */
  lemma MoveToMissingListLosesCard(lists: seq<List>, result: DropResult)
    requires WellFormed(lists)
    requires !IsCancelled(result) && SourceHoldsCard(lists, result)
    requires FindList(lists, result.destination.value.droppableId).None?
    ensures multiset(AllCards(OnDragEnd(lists, result))) + multiset{DraggedCard(lists, result)} ==
            multiset(AllCards(lists))
  {
    DropBalance(lists, result);
  }

  /** Appending a card whose id a list lacks keeps the list's ids distinct. */
  lemma AppendFreshCard(cards: seq<Card>, card: Card)
    requires DistinctIds(cards) && card.id !in Ids(cards)
    ensures DistinctIds(cards + [card])
    ensures Ids(cards + [card]) == Ids(cards) + {card.id}
  {
    var r := cards + [card];
    assert forall x :: x in r <==> x in cards || x == card;
    forall p, q | 0 <= p < q < |r| ensures r[p].id != r[q].id {
      if q == |cards| {
        assert r[p] in cards;
      }
    }
  }

  /** What a drop does to the card ids of list `i` of a well-formed board. */
  lemma {:induction false} DropListIds(lists: seq<List>, result: DropResult, i: nat)
    requires WellFormed(lists)
    requires !IsCancelled(result) && SourceHoldsCard(lists, result)
    requires i < |lists|
    ensures var r := OnDragEnd(lists, result);
            var d := result.draggableId;
            && DistinctIds(r[i].cards)
            && Ids(r[i].cards) - {d} <= Ids(lists[i].cards)
            && (d in Ids(r[i].cards) <==> lists[i].id == result.destination.value.droppableId)
  {
    var r := OnDragEnd(lists, result);
    var card := DraggedCard(lists, result);
    var d := result.draggableId;
    var sourceId, destId := result.source.droppableId, result.destination.value.droppableId;
    var s :| 0 <= s < |lists| && lists[s].id == sourceId && card in lists[s].cards;
    assert d in Ids(lists[s].cards);
    if lists[i].id == sourceId {
      WithoutCardKeepsDistinct(lists[i].cards, d);
    } else if lists[i].id == destId {
      assert i != s;
      AppendFreshCard(lists[i].cards, card);
    } else {
      assert i != s;
    }
  }

  /**
   * On a well-formed board, a drop onto another list keeps the board well
   * formed, and afterwards the dragged id is held by exactly the lists with
   * the destination id (one list, when that list exists).
   */
  lemma {:induction false} MoveKeepsWellFormed(lists: seq<List>, result: DropResult)
    requires WellFormed(lists)
    requires !IsCancelled(result) && SourceHoldsCard(lists, result)
    ensures WellFormed(OnDragEnd(lists, result))
    ensures forall i :: 0 <= i < |lists| ==>
              (result.draggableId in Ids(OnDragEnd(lists, result)[i].cards) <==>
               lists[i].id == result.destination.value.droppableId)
  {
    var r := OnDragEnd(lists, result);
    var d := result.draggableId;
    forall i | 0 <= i < |lists|
      ensures DistinctIds(r[i].cards)
      ensures Ids(r[i].cards) - {d} <= Ids(lists[i].cards)
      ensures d in Ids(r[i].cards) <==> lists[i].id == result.destination.value.droppableId
    {
      DropListIds(lists, result, i);
    }
    forall i, j | 0 <= i < |r| && 0 <= j < |r| && i != j
      ensures Ids(r[i].cards) !! Ids(r[j].cards)
    {
      assert lists[i].id != lists[j].id;
      IdsStayApart(Ids(lists[i].cards), Ids(lists[j].cards), Ids(r[i].cards), Ids(r[j].cards), d);
    }
  }

  /** Two disjoint id sets stay disjoint when each loses ids and at most one gains `d`. */
  lemma IdsStayApart(a: set<int>, b: set<int>, a': set<int>, b': set<int>, d: int)
    requires a !! b
    requires a' - {d} <= a && b' - {d} <= b
    requires !(d in a' && d in b')
    ensures a' !! b'
  {
    forall x | x in a' ensures x !in b' {
      assert x != d ==> x in a - b;
    }
  }

  /**
   * The source list keeps its other cards in their order: with the dragged
   * card at position `p`, the cards before it are followed by those after it.
   */
  lemma {:induction false} MoveKeepsSourceOrder(lists: seq<List>, result: DropResult, k: nat, p: nat)
    requires WellFormed(lists)
    requires !IsCancelled(result) && SourceHoldsCard(lists, result)
    requires k < |lists| && lists[k].id == result.source.droppableId
    requires p < |lists[k].cards| && lists[k].cards[p].id == result.draggableId
    ensures OnDragEnd(lists, result)[k].cards == lists[k].cards[..p] + lists[k].cards[p + 1..]
  {
    WithoutCardAt(lists[k].cards, p);
  }

  /**
   * On a well-formed board, the card at position `p` of list `k` is the one
   * a drag of its id out of list `k` picks up.
   */
  lemma PickedUpCard(lists: seq<List>, result: DropResult, k: nat, p: nat)
    requires WellFormed(lists)
    requires k < |lists| && result.source.droppableId == lists[k].id
    requires p < |lists[k].cards| && result.draggableId == lists[k].cards[p].id
    ensures SourceHoldsCard(lists, result) && DraggedCard(lists, result) == lists[k].cards[p]
  {
    var cards := lists[k].cards;
    var found := FindList(lists, lists[k].id).value;
    assert found == lists[k] by {
      var j :| 0 <= j < |lists| && lists[j] == found;
      assert j == k;
    }
    assert cards[p] in cards;
    var card := DraggedCard(lists, result);
    var i :| 0 <= i < |lists| && lists[i].id == lists[k].id && card in lists[i].cards;
    assert i == k;
    var q :| 0 <= q < |cards| && cards[q] == card;
    assert q == p;
  }

  /**
   * On a well-formed board, dragging card `p` of list `k` onto list `d`
   * removes it from list `k`, the other cards keeping their order, appends
   * it at the end of list `d`, and leaves every other list as it was.
   */
  lemma MoveCardBetweenLists(lists: seq<List>, result: DropResult, k: nat, p: nat, d: nat)
    requires WellFormed(lists)
    requires k < |lists| && d < |lists| && k != d
    requires result.destination.Some? && result.destination.value.droppableId == lists[d].id
    requires result.source.droppableId == lists[k].id
    requires p < |lists[k].cards| && result.draggableId == lists[k].cards[p].id
    ensures !IsCancelled(result) && SourceHoldsCard(lists, result)
    ensures var r := OnDragEnd(lists, result);
            && r[k].cards == lists[k].cards[..p] + lists[k].cards[p + 1..]
            && r[d].cards == lists[d].cards + [lists[k].cards[p]]
            && forall i :: 0 <= i < |lists| && i != k && i != d ==> r[i] == lists[i]
  {
    PickedUpCard(lists, result, k, p);
    MoveKeepsSourceOrder(lists, result, k, p);
  }

  /**
   * The sample board's card 101, dragged from "To Do" onto "Done", leaves
   * "To Do" holding card 102 alone and becomes the last card of "Done".
   */
  lemma SampleMove()
    ensures var result := DropResult(Some(DraggableLocation(3, 0)), DraggableLocation(1, 0), 101);
            var r := OnDragEnd(SampleLists, result);
            && r[0].cards == [SampleLists[0].cards[1]]
            && r[1] == SampleLists[1]
            && r[2].cards == [SampleLists[2].cards[0], SampleLists[0].cards[0]]
  {
    SampleListsWellFormed();
    MoveFirstOfTwo(SampleLists, DropResult(Some(DraggableLocation(3, 0)), DraggableLocation(1, 0), 101));
  }

  /** The sample drag on any well-formed board of the sample's shape. */
  lemma MoveFirstOfTwo(l: seq<List>, result: DropResult)
    requires WellFormed(l) && |l| == 3 && |l[0].cards| == 2 && |l[2].cards| == 1
    requires result.destination.Some? && result.destination.value.droppableId == l[2].id
    requires result.source.droppableId == l[0].id && result.draggableId == l[0].cards[0].id
    ensures var r := OnDragEnd(l, result);
            && r[0].cards == [l[0].cards[1]]
            && r[1] == l[1]
            && r[2].cards == [l[2].cards[0], l[0].cards[0]]
  {
    MoveCardBetweenLists(l, result, 0, 0, 2);
    assert l[0].cards[..0] + l[0].cards[1..] == [l[0].cards[1]];
  }
}
