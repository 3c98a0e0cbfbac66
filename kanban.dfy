/**
 * The entity schema of the Kanban board: cards, lists and boards, the
 * whitespace test behind every title check, and the identity predicates
 * (distinct list ids, board-wide unique card ids) that the board
 * operations are proved to keep.
 */
module Kanban {

  datatype Option<+T> = None | Some(value: T)

  /**
   * The characters that JavaScript's String.prototype.trim removes: the
   * ECMAScript WhiteSpace and LineTerminator code points.
   */
  predicate IsWhitespace(ch: char) {
    ch in {
      '\t', '\n', '\U{0B}', '\U{0C}', '\r', ' ', '\U{A0}', '\U{1680}',
      '\U{2000}', '\U{2001}', '\U{2002}', '\U{2003}', '\U{2004}', '\U{2005}',
      '\U{2006}', '\U{2007}', '\U{2008}', '\U{2009}', '\U{200A}',
      '\U{2028}', '\U{2029}', '\U{202F}', '\U{205F}', '\U{3000}', '\U{FEFF}'
    }
  }

  /** `s.trimStart()`: the leading whitespace removed. */
  function TrimStart(s: string): (r: string)
    ensures |r| <= |s| && r == s[|s| - |r|..]
    ensures forall i :: 0 <= i < |s| - |r| ==> IsWhitespace(s[i])
    ensures r != [] ==> !IsWhitespace(r[0])
  {
    if s != [] && IsWhitespace(s[0]) then TrimStart(s[1..]) else s
  }

  /** `s.trimEnd()`: the trailing whitespace removed. */
  function TrimEnd(s: string): (r: string)
    ensures |r| <= |s| && r == s[..|r|]
    ensures forall i :: |r| <= i < |s| ==> IsWhitespace(s[i])
    ensures r != [] ==> !IsWhitespace(r[|r| - 1])
  {
    if s != [] && IsWhitespace(s[|s| - 1]) then TrimEnd(s[..|s| - 1]) else s
  }

  /**
   * `s.trim()`: a run of `s` with every character before and after it
   * whitespace, and starting and ending with a non-whitespace character.
   */
  function Trim(s: string): (r: string)
    ensures exists i :: 0 <= i <= |s| - |r| && r == s[i..][..|r|] &&
              (forall k :: 0 <= k < i ==> IsWhitespace(s[k])) &&
              (forall k :: i + |r| <= k < |s| ==> IsWhitespace(s[k]))
    ensures r != [] ==> !IsWhitespace(r[0]) && !IsWhitespace(r[|r| - 1])
  {
    var t := TrimStart(s);
    var r := TrimEnd(t);
    var i := |s| - |t|;
    assert t == s[i..];
    assert r == s[i..][..|r|];
    assert forall k :: i + |r| <= k < |s| ==> s[k] == t[k - i];
    r
  }

  /** `!s.trim()` holds exactly when `s` is empty or all whitespace. */
  predicate IsBlank(s: string) {
    forall i :: 0 <= i < |s| ==> IsWhitespace(s[i])
  }

  /** Blankness is the emptiness of the trimmed string. */
  lemma BlankIffTrimEmpty(s: string)
    ensures IsBlank(s) <==> Trim(s) == ""
  {
    var r := Trim(s);
    if r != "" {
      var i :| 0 <= i <= |s| - |r| && r == s[i..][..|r|];
      assert s[i] == r[0];
    }
  }

  /** A card; an absent description or due date is the empty string. */
  datatype Card = Card(id: int, title: string, description: string, labels: seq<string>, dueDate: string)

  /** The new-card form's data: a card without its id. */
  datatype CardDraft = CardDraft(title: string, description: string, dueDate: string, labels: seq<string>)

  /** A list of a board, holding its cards in display order. */
  datatype List = List(id: int, title: string, cards: seq<Card>)

  datatype Board = Board(id: int, title: string, color: string)

  /** The ids of a sequence of cards. */
  function Ids(cards: seq<Card>): set<int> {
    set c | c in cards :: c.id
  }

  /** Every card of the board, list after list, each list's cards in order. */
  function AllCards(lists: seq<List>): seq<Card> {
    if lists == [] then [] else lists[0].cards + AllCards(lists[1..])
  }

  predicate ListIdsDistinct(lists: seq<List>) {
    forall i, j :: 0 <= i < j < |lists| ==> lists[i].id != lists[j].id
  }

  predicate DistinctIds(cards: seq<Card>) {
    forall i, j :: 0 <= i < j < |cards| ==> cards[i].id != cards[j].id
  }

  /** No card id occurs twice in one list, nor in two different lists. */
  predicate UniqueCardIds(lists: seq<List>) {
    && (forall i :: 0 <= i < |lists| ==> DistinctIds(lists[i].cards))
    && (forall i, j :: 0 <= i < |lists| && 0 <= j < |lists| && i != j ==>
          Ids(lists[i].cards) !! Ids(lists[j].cards))
  }

  /** The identity invariant of a board's lists. */
  predicate WellFormed(lists: seq<List>) {
    ListIdsDistinct(lists) && UniqueCardIds(lists)
  }

  predicate FreshListId(lists: seq<List>, id: int) {
    forall i :: 0 <= i < |lists| ==> lists[i].id != id
  }

  predicate FreshCardId(lists: seq<List>, id: int) {
    forall i :: 0 <= i < |lists| ==> id !in Ids(lists[i].cards)
  }

  /** The cards of the concatenation of two boards' lists. */
  lemma {:induction false} AllCardsAppend(a: seq<List>, b: seq<List>)
    ensures AllCards(a + b) == AllCards(a) + AllCards(b)
  {
    if a == [] {
      assert a + b == b;
    } else {
      assert (a + b)[0] == a[0] && (a + b)[1..] == a[1..] + b;
      AllCardsAppend(a[1..], b);
    }
  }

  /** The cards of a board are those before list `k`, then list `k`'s, then those after it. */
  lemma {:induction false} AllCardsSplit(lists: seq<List>, k: nat)
    requires k < |lists|
    ensures AllCards(lists) == AllCards(lists[..k]) + lists[k].cards + AllCards(lists[k + 1..])
  {
    var before, after := lists[..k], lists[k + 1..];
    assert lists == before + ([lists[k]] + after);
    AllCardsAppend(before, [lists[k]] + after);
    assert AllCards([lists[k]] + after) == lists[k].cards + AllCards(after) by {
      assert ([lists[k]] + after)[0] == lists[k] && ([lists[k]] + after)[1..] == after;
    }
  }

  /** Lists of equal lengths, pairwise, hold equally many cards. */
  lemma {:induction false} SameShapeSameCount(a: seq<List>, b: seq<List>)
    requires |a| == |b|
    requires forall i :: 0 <= i < |a| ==> |a[i].cards| == |b[i].cards|
    ensures |AllCards(a)| == |AllCards(b)|
  {
    if a != [] {
      SameShapeSameCount(a[1..], b[1..]);
    }
  }

  /** Distinct card ids, one card at a time: the first id is not among the rest's. */
  lemma DistinctIdsCons(cards: seq<Card>)
    requires cards != []
    ensures DistinctIds(cards) <==> cards[0].id !in Ids(cards[1..]) && DistinctIds(cards[1..])
  {
    if cards[0].id !in Ids(cards[1..]) && DistinctIds(cards[1..]) {
      forall i, j | 0 <= i < j < |cards| ensures cards[i].id != cards[j].id {
        if i == 0 {
          assert cards[j] in cards[1..];
        } else {
          assert cards[i] == cards[1..][i - 1] && cards[j] == cards[1..][j - 1];
        }
      }
    }
  }

  /** The board's initial lists, identical in the component and in the store's board 1. */
  const SampleLists: seq<List> := [
    List(1, "To Do", [
      Card(101, "Research competitors", "Analyze top 5 competitors", ["research"], "2023-06-30"),
      Card(102, "Create wireframes", "Design initial mockups", ["design"], "2023-07-01")
    ]),
    List(2, "In Progress", [
      Card(201, "Develop MVP", "Create minimal viable product", ["development"], "2023-07-15")
    ]),
    List(3, "Done", [
      Card(301, "Project planning", "Initial project scope and timeline", ["planning"], "2023-06-15")
    ])
  ]

  /** The three boards every session starts with. */
  const SampleBoards: seq<Board> := [
    Board(1, "Project Alpha", "#3b82f6"),
    Board(2, "Marketing Tasks", "#8b5cf6"),
    Board(3, "Personal Goals", "#f97316")
  ]

  /** The card ids held by each sample list. */
  lemma SampleListCardIds()
    ensures Ids(SampleLists[0].cards) == {101, 102}
    ensures Ids(SampleLists[1].cards) == {201}
    ensures Ids(SampleLists[2].cards) == {301}
  {
    var l := SampleLists;
    assert l[0].cards[0] in l[0].cards && l[0].cards[1] in l[0].cards;
    assert l[1].cards[0] in l[1].cards;
    assert l[2].cards[0] in l[2].cards;
  }

  /** Well-formedness of a three-list board, checked list by list. */
  lemma WellFormedThree(lists: seq<List>)
    requires |lists| == 3
    requires lists[0].id != lists[1].id && lists[0].id != lists[2].id && lists[1].id != lists[2].id
    requires DistinctIds(lists[0].cards) && DistinctIds(lists[1].cards) && DistinctIds(lists[2].cards)
    requires Ids(lists[0].cards) !! Ids(lists[1].cards)
    requires Ids(lists[0].cards) !! Ids(lists[2].cards)
    requires Ids(lists[1].cards) !! Ids(lists[2].cards)
    ensures WellFormed(lists)
  {
  }

  /** The sample lists satisfy the identity invariant. */
  lemma SampleListsWellFormed()
    ensures WellFormed(SampleLists)
  {
    var l := SampleLists;
    SampleListCardIds();
    assert DistinctIds(l[0].cards) && DistinctIds(l[1].cards) && DistinctIds(l[2].cards);
    WellFormedThree(l);
  }
}
