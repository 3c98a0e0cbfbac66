/**
 * The handlers of the board component that build a new `lists` array:
 * adding a list, adding, updating and deleting a card, and toggling a
 * label in the open card form. Each is a function from the old lists to
 * the new ones; the id the component reads from the clock is a parameter.
 */
module ListHandlers {
  import opened Kanban
  import opened LabelCatalog

  /**
   * The card forms' state: the card being edited, if any, and the data of
   * the new-card form.
   */
  datatype CardForm = CardForm(editing: Option<Card>, draft: CardDraft)

  /** `cards.filter(card => card.id !== cardId)`. */
  function WithoutCard(cards: seq<Card>, cardId: int): (r: seq<Card>)
    ensures forall c :: c in r <==> c in cards && c.id != cardId
    ensures |r| <= |cards|
  {
    if cards == [] then []
    else
      var rest := WithoutCard(cards[1..], cardId);
      assert cards == [cards[0]] + cards[1..];
      if cards[0].id == cardId then rest else [cards[0]] + rest
  }

  /** Filtering out an id no card has changes nothing. */
  lemma {:induction false} WithoutCardAbsent(cards: seq<Card>, cardId: int)
    requires cardId !in Ids(cards)
    ensures WithoutCard(cards, cardId) == cards
  {
    if cards != [] {
      assert cards[0] in cards;
      assert cards == [cards[0]] + cards[1..];
      assert cardId !in Ids(cards[1..]) by {
        forall c | c in cards[1..] ensures c.id != cardId {
          assert c in cards;
        }
      }
      WithoutCardAbsent(cards[1..], cardId);
    }
  }

  /** The filtered cards' ids are the old ids less the removed one. */
  lemma WithoutCardIds(cards: seq<Card>, cardId: int)
    ensures Ids(WithoutCard(cards, cardId)) == Ids(cards) - {cardId}
  {
    var r := WithoutCard(cards, cardId);
    forall x | x in Ids(cards) - {cardId} ensures x in Ids(r) {
      var c :| c in cards && c.id == x;
      assert c in r;
    }
  }

  /** Filtering distributes over concatenation, so the kept cards stay in their order. */
  lemma {:induction false} WithoutCardAppend(a: seq<Card>, b: seq<Card>, cardId: int)
    ensures WithoutCard(a + b, cardId) == WithoutCard(a, cardId) + WithoutCard(b, cardId)
  {
    if a == [] {
      assert a + b == b;
    } else {
      assert (a + b)[0] == a[0] && (a + b)[1..] == a[1..] + b;
      WithoutCardAppend(a[1..], b, cardId);
    }
  }

  /** Removing the one card with an id from `pre + [c] + post` leaves `pre + post`. */
  lemma {:induction false} WithoutCardAt(cards: seq<Card>, k: nat)
    requires k < |cards|
    requires DistinctIds(cards)
    ensures WithoutCard(cards, cards[k].id) == cards[..k] + cards[k + 1..]
  {
    var id := cards[k].id;
    var pre, rest := cards[..k], cards[k..];
    assert cards == pre + rest;
    assert id !in Ids(pre) by {
      forall c | c in pre ensures c.id != id {
        var j :| 0 <= j < k && pre[j] == c;
      }
    }
    assert id !in Ids(rest[1..]) by {
      forall c | c in rest[1..] ensures c.id != id {
        var j :| 0 <= j < |rest[1..]| && rest[1..][j] == c;
        assert cards[k + 1 + j] == c;
      }
    }
    WithoutCardAppend(pre, rest, id);
    WithoutCardAbsent(pre, id);
    WithoutCardHead(rest);
    assert rest[1..] == cards[k + 1..];
  }

  /** Filtering out the first card's id, which no later card has, drops just that card. */
  lemma WithoutCardHead(cards: seq<Card>)
    requires cards != [] && cards[0].id !in Ids(cards[1..])
    ensures WithoutCard(cards, cards[0].id) == cards[1..]
  {
    WithoutCardAbsent(cards[1..], cards[0].id);
  }

  /** Filtering out the card at `k` takes exactly that card out of the bag of cards. */
  lemma {:induction false} WithoutCardBag(cards: seq<Card>, k: nat)
    requires k < |cards|
    requires DistinctIds(cards)
    ensures multiset(WithoutCard(cards, cards[k].id)) + multiset{cards[k]} == multiset(cards)
  {
    var tail := cards[1..];
    assert cards == [cards[0]] + tail;
    DistinctIdsCons(cards);
    if k == 0 {
      WithoutCardHead(cards);
    } else {
      var card := cards[k];
      assert tail[k - 1] == card;
      WithoutCardBag(tail, k - 1);
      var rest := WithoutCard(tail, card.id);
      assert WithoutCard(cards, card.id) == [cards[0]] + rest;
      BagConsSplice(multiset(rest), multiset(tail), cards[0], card);
    }
  }

  /** A card put in front of both sides of a bag equation keeps it balanced. */
  lemma BagConsSplice(rest: multiset<Card>, tail: multiset<Card>, head: Card, card: Card)
    requires rest + multiset{card} == tail
    ensures (multiset{head} + rest) + multiset{card} == multiset{head} + tail
  {
    forall x ensures ((multiset{head} + rest) + multiset{card})[x] == (multiset{head} + tail)[x] {
      assert (rest + multiset{card})[x] == tail[x];
    }
  }

  /** Filtering cards out keeps the remaining ids distinct. */
  lemma {:induction false} WithoutCardKeepsDistinct(cards: seq<Card>, cardId: int)
    requires DistinctIds(cards)
    ensures DistinctIds(WithoutCard(cards, cardId))
  {
    if cards != [] {
      DistinctIdsCons(cards);
      WithoutCardKeepsDistinct(cards[1..], cardId);
      if cards[0].id != cardId {
        var r := WithoutCard(cards, cardId);
        assert r[1..] == WithoutCard(cards[1..], cardId);
        DistinctIdsCons(r);
      }
    }
  }

  /**
   * `handleAddList`: a blank title is rejected and the lists are unchanged;
   * otherwise one list, empty and titled with the untrimmed title, is
   * appended after all existing lists.
   */
  function AddList(lists: seq<List>, title: string, id: int): (r: seq<List>)
    ensures IsBlank(title) ==> r == lists
    ensures !IsBlank(title) ==>
              && |r| == |lists| + 1
              && r[..|lists|] == lists
              && r[|lists|].id == id && r[|lists|].title == title && r[|lists|].cards == []
  {
    if IsBlank(title) then lists else lists + [List(id, title, [])]
  }

  /** A list added under a fresh id keeps the board well formed. */
  lemma AddListKeepsWellFormed(lists: seq<List>, title: string, id: int)
    requires WellFormed(lists) && FreshListId(lists, id)
    ensures WellFormed(AddList(lists, title, id))
  {
    var r := AddList(lists, title, id);
    if !IsBlank(title) {
      assert forall i :: 0 <= i < |lists| ==> r[i] == lists[i];
      assert Ids(r[|lists|].cards) == {};
    }
  }

  /** `{ id, ...newCardData }`. */
  function NewCard(draft: CardDraft, id: int): (c: Card)
    ensures c.id == id
    ensures c.title == draft.title && c.description == draft.description
    ensures c.labels == draft.labels && c.dueDate == draft.dueDate
  {
    Card(id, draft.title, draft.description, draft.labels, draft.dueDate)
  }

  /**
   * `handleAddCard`: a blank title is rejected and the lists are unchanged;
   * otherwise the new card is appended to every list whose id matches, and
   * every other list is identical. Lists keep their number, order, ids and
   * titles.
   */
  function AddCard(lists: seq<List>, listId: int, draft: CardDraft, id: int): (r: seq<List>)
    ensures |r| == |lists|
    ensures forall i :: 0 <= i < |lists| ==> r[i].id == lists[i].id && r[i].title == lists[i].title
    ensures IsBlank(draft.title) ==> r == lists
    ensures !IsBlank(draft.title) ==>
              forall i :: 0 <= i < |lists| ==>
                if lists[i].id == listId then r[i].cards == lists[i].cards + [NewCard(draft, id)]
                else r[i] == lists[i]
  {
    if IsBlank(draft.title) then lists
    else
      seq(|lists|, i requires 0 <= i < |lists| =>
        if lists[i].id == listId then lists[i].(cards := lists[i].cards + [NewCard(draft, id)])
        else lists[i])
  }

  /** Adding a card to a list id no list carries changes nothing. */
  lemma AddCardToMissingList(lists: seq<List>, listId: int, draft: CardDraft, id: int)
    requires FreshListId(lists, listId)
    ensures AddCard(lists, listId, draft, id) == lists
  {
  }

  /** A valid card added to an existing list adds exactly that card to the board. */
  lemma {:induction false} AddCardAddsOne(lists: seq<List>, k: nat, draft: CardDraft, id: int)
    requires ListIdsDistinct(lists) && k < |lists|
    requires !IsBlank(draft.title)
    ensures multiset(AllCards(AddCard(lists, lists[k].id, draft, id))) ==
            multiset(AllCards(lists)) + multiset{NewCard(draft, id)}
  {
    var r := AddCard(lists, lists[k].id, draft, id);
    assert r[..k] == lists[..k];
    assert r[k + 1..] == lists[k + 1..];
    assert r[k].cards == lists[k].cards + [NewCard(draft, id)];
    AllCardsSplit(lists, k);
    AllCardsSplit(r, k);
    assert AllCards(r) == AllCards(lists[..k]) + (lists[k].cards + [NewCard(draft, id)]) + AllCards(lists[k + 1..]);
  }

  /** A card added under a fresh id keeps the board well formed. */
  lemma AddCardKeepsWellFormed(lists: seq<List>, listId: int, draft: CardDraft, id: int)
    requires WellFormed(lists) && FreshCardId(lists, id)
    ensures WellFormed(AddCard(lists, listId, draft, id))
  {
    var r := AddCard(lists, listId, draft, id);
    var c := NewCard(draft, id);
    forall i | 0 <= i < |lists| && lists[i].id == listId && !IsBlank(draft.title)
      ensures Ids(r[i].cards) == Ids(lists[i].cards) + {id}
      ensures DistinctIds(r[i].cards)
    {
      assert forall x :: x in r[i].cards <==> x in lists[i].cards || x == c;
      forall p, q | 0 <= p < q < |r[i].cards| ensures r[i].cards[p].id != r[i].cards[q].id {
        if q == |lists[i].cards| {
          assert r[i].cards[p] in lists[i].cards;
        }
      }
    }
  }

  /**
   * `handleUpdateCard`: a blank edited title is rejected and the lists are
   * unchanged; otherwise, in every list whose id matches, each card with
   * the id is replaced by the edited card at the same position. Every
   * other card and list is unchanged.
   */
  function UpdateCard(lists: seq<List>, listId: int, cardId: int, edited: Card): (r: seq<List>)
    ensures |r| == |lists|
    ensures forall i :: 0 <= i < |lists| ==> r[i].id == lists[i].id && r[i].title == lists[i].title
    ensures IsBlank(edited.title) ==> r == lists
    ensures !IsBlank(edited.title) ==>
              forall i :: 0 <= i < |lists| ==>
                if lists[i].id == listId then
                  && |r[i].cards| == |lists[i].cards|
                  && forall p :: 0 <= p < |lists[i].cards| ==>
                       r[i].cards[p] == if lists[i].cards[p].id == cardId then edited else lists[i].cards[p]
                else r[i] == lists[i]
  {
    if IsBlank(edited.title) then lists
    else
      seq(|lists|, i requires 0 <= i < |lists| =>
        if lists[i].id == listId then
          lists[i].(cards := seq(|lists[i].cards|, p requires 0 <= p < |lists[i].cards| =>
            if lists[i].cards[p].id == cardId then edited else lists[i].cards[p]))
        else lists[i])
  }

  /** Updating a card id the named list does not hold changes nothing. */
  lemma UpdateMissingCard(lists: seq<List>, listId: int, cardId: int, edited: Card)
    requires forall i :: 0 <= i < |lists| && lists[i].id == listId ==> cardId !in Ids(lists[i].cards)
    ensures UpdateCard(lists, listId, cardId, edited) == lists
  {
    var r := UpdateCard(lists, listId, cardId, edited);
    forall i | 0 <= i < |lists| ensures r[i] == lists[i] {
      if lists[i].id == listId && !IsBlank(edited.title) {
        forall p | 0 <= p < |lists[i].cards| ensures lists[i].cards[p].id != cardId {
          assert lists[i].cards[p] in lists[i].cards;
        }
        assert r[i].cards == lists[i].cards;
      }
    }
  }

  /** An update never changes the number of cards on the board. */
  lemma UpdateKeepsCardCount(lists: seq<List>, listId: int, cardId: int, edited: Card)
    ensures |AllCards(UpdateCard(lists, listId, cardId, edited))| == |AllCards(lists)|
  {
    SameShapeSameCount(UpdateCard(lists, listId, cardId, edited), lists);
  }

  /** Replacing a card by an edit that keeps its id keeps the board well formed. */
  lemma UpdateKeepsWellFormed(lists: seq<List>, listId: int, cardId: int, edited: Card)
    requires WellFormed(lists) && edited.id == cardId
    ensures WellFormed(UpdateCard(lists, listId, cardId, edited))
  {
    var r := UpdateCard(lists, listId, cardId, edited);
    forall i | 0 <= i < |lists| ensures Ids(r[i].cards) == Ids(lists[i].cards) && DistinctIds(r[i].cards) {
      if lists[i].id == listId && !IsBlank(edited.title) {
        assert forall p :: 0 <= p < |r[i].cards| ==> r[i].cards[p].id == lists[i].cards[p].id;
        forall x | x in Ids(r[i].cards) ensures x in Ids(lists[i].cards) {
          var c :| c in r[i].cards && c.id == x;
          var p :| 0 <= p < |r[i].cards| && r[i].cards[p] == c;
          assert lists[i].cards[p] in lists[i].cards;
        }
        forall x | x in Ids(lists[i].cards) ensures x in Ids(r[i].cards) {
          var c :| c in lists[i].cards && c.id == x;
          var p :| 0 <= p < |lists[i].cards| && lists[i].cards[p] == c;
          assert r[i].cards[p] in r[i].cards;
        }
      }
    }
  }

  /**
   * `handleDeleteCard`: every card with the id is removed from every list
   * whose id matches; other lists are untouched.
   */
  function DeleteCard(lists: seq<List>, listId: int, cardId: int): (r: seq<List>)
    ensures |r| == |lists|
    ensures forall i :: 0 <= i < |lists| ==> r[i].id == lists[i].id && r[i].title == lists[i].title
    ensures forall i :: 0 <= i < |lists| ==>
              if lists[i].id == listId then
                && r[i].cards == WithoutCard(lists[i].cards, cardId)
                && cardId !in Ids(r[i].cards)
                && (forall c :: c in r[i].cards <==> c in lists[i].cards && c.id != cardId)
              else r[i] == lists[i]
  {
    seq(|lists|, i requires 0 <= i < |lists| =>
      if lists[i].id == listId then lists[i].(cards := WithoutCard(lists[i].cards, cardId))
      else lists[i])
  }

  /** Deleting an id the named list does not hold changes nothing. */
  lemma DeleteMissingCard(lists: seq<List>, listId: int, cardId: int)
    requires forall i :: 0 <= i < |lists| && lists[i].id == listId ==> cardId !in Ids(lists[i].cards)
    ensures DeleteCard(lists, listId, cardId) == lists
  {
    forall i | 0 <= i < |lists| && lists[i].id == listId {
      WithoutCardAbsent(lists[i].cards, cardId);
    }
  }

  /** Deleting twice is deleting once. */
  lemma DeleteIdempotent(lists: seq<List>, listId: int, cardId: int)
    ensures DeleteCard(DeleteCard(lists, listId, cardId), listId, cardId) == DeleteCard(lists, listId, cardId)
  {
    DeleteMissingCard(DeleteCard(lists, listId, cardId), listId, cardId);
  }

  /** Deleting a card keeps the board well formed. */
  lemma DeleteKeepsWellFormed(lists: seq<List>, listId: int, cardId: int)
    requires WellFormed(lists)
    ensures WellFormed(DeleteCard(lists, listId, cardId))
  {
    var r := DeleteCard(lists, listId, cardId);
    forall i | 0 <= i < |lists| ensures Ids(r[i].cards) <= Ids(lists[i].cards) && DistinctIds(r[i].cards) {
      if lists[i].id == listId {
        WithoutCardKeepsDistinct(lists[i].cards, cardId);
      }
    }
  }

  /**
   * `handleToggleLabel`: toggles the label's id in the edited card when a
   * card is being edited, and in the new-card form otherwise; the other
   * form and every other field are unchanged.
   */
  function HandleToggleLabel(form: CardForm, entry: Label): (r: CardForm)
    ensures form.editing.Some? ==>
              && r.draft == form.draft
              && r.editing.Some?
              && r.editing.value == form.editing.value.(labels := r.editing.value.labels)
              && r.editing.value.labels == Toggle(form.editing.value.labels, entry.id)
              && (entry.id in r.editing.value.labels <==> entry.id !in form.editing.value.labels)
              && (forall x :: x != entry.id ==> (x in r.editing.value.labels <==> x in form.editing.value.labels))
    ensures form.editing.None? ==>
              && r.editing == None
              && r.draft == form.draft.(labels := r.draft.labels)
              && r.draft.labels == Toggle(form.draft.labels, entry.id)
              && (entry.id in r.draft.labels <==> entry.id !in form.draft.labels)
              && (forall x :: x != entry.id ==> (x in r.draft.labels <==> x in form.draft.labels))
  {
    match form.editing
    case Some(card) => form.(editing := Some(card.(labels := Toggle(card.labels, entry.id))))
    case None => form.(draft := form.draft.(labels := Toggle(form.draft.labels, entry.id)))
  }
}
