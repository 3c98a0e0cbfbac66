/**
 * The application store's boards slice: a sequence of boards and, keyed by
 * board id, each board's lists. The reducer is a function from state and
 * action to the next state; the store object applies it in place, as the
 * slice's draft-mutating reducers do.
 */
module BoardsSlice {
  import opened Kanban

  datatype SliceState = SliceState(boards: seq<Board>, lists: map<int, seq<List>>)

  /** The two actions the slice handles. */
  datatype Action =
    | AddBoard(payload: Board)
    | UpdateLists(boardId: int, newLists: seq<List>)

  /** Board 1 starts with the sample lists; boards 2 and 3 start empty. */
  const InitialState: SliceState :=
    SliceState(SampleBoards, map[1 := SampleLists, 2 := [], 3 := []])

  /** Every board in `boards` has an entry in `lists`. */
  predicate ListsCoverBoards(s: SliceState) {
    forall i :: 0 <= i < |s.boards| ==> s.boards[i].id in s.lists
  }

  /**
   * The slice reducer. `addBoard` appends the board and sets its entry to
   * no lists, overwriting any entry already under its id; `updateLists`
   * sets one entry, known board or not, and leaves the boards alone. No
   * other entry changes.
   */
  function Reduce(s: SliceState, action: Action): (r: SliceState)
    ensures action.AddBoard? ==>
              && |r.boards| == |s.boards| + 1
              && r.boards[..|s.boards|] == s.boards
              && r.boards[|s.boards|] == action.payload
              && r.lists.Keys == s.lists.Keys + {action.payload.id}
              && r.lists[action.payload.id] == []
              && (forall k :: k in s.lists && k != action.payload.id ==> r.lists[k] == s.lists[k])
    ensures action.UpdateLists? ==>
              && r.boards == s.boards
              && r.lists.Keys == s.lists.Keys + {action.boardId}
              && r.lists[action.boardId] == action.newLists
              && (forall k :: k in s.lists && k != action.boardId ==> r.lists[k] == s.lists[k])
  {
    match action
    case AddBoard(board) => s.(boards := s.boards + [board], lists := s.lists[board.id := []])
    case UpdateLists(boardId, newLists) => s.(lists := s.lists[boardId := newLists])
  }

  /** The initial state satisfies the covering invariant. */
  lemma InitialStateCovers()
    ensures ListsCoverBoards(InitialState)
  {
  }

  /** Both actions preserve the covering invariant. */
  lemma ReducePreservesCover(s: SliceState, action: Action)
    requires ListsCoverBoards(s)
    ensures ListsCoverBoards(Reduce(s, action))
  {
    var r := Reduce(s, action);
    forall i | 0 <= i < |r.boards| ensures r.boards[i].id in r.lists {
      if action.AddBoard? && i < |s.boards| {
        assert r.boards[i] == s.boards[i];
      }
    }
  }

  /** Applying the same `updateLists` twice is applying it once. */
  lemma UpdateListsIdempotent(s: SliceState, boardId: int, newLists: seq<List>)
    ensures Reduce(Reduce(s, UpdateLists(boardId, newLists)), UpdateLists(boardId, newLists)) ==
            Reduce(s, UpdateLists(boardId, newLists))
  {
  }

  /** The store: the slice's state, updated in place by dispatched actions. */
  class BoardsStore {
    var boards: seq<Board>
    var lists: map<int, seq<List>>

    function State(): SliceState
      reads this
    {
      SliceState(boards, lists)
    }

    ghost predicate Valid()
      reads this
    {
      ListsCoverBoards(State())
    }

    constructor ()
      ensures State() == InitialState
      ensures Valid()
    {
      boards := SampleBoards;
      lists := map[1 := SampleLists, 2 := [], 3 := []];
    }

    /** `addBoard`: push the board and set its lists entry to empty. */
    method AddBoard(board: Board)
      modifies this
      ensures State() == Reduce(old(State()), Action.AddBoard(board))
      ensures old(Valid()) ==> Valid()
    {
      boards := boards + [board];
      lists := lists[board.id := []];
      if old(Valid()) {
        ReducePreservesCover(old(State()), Action.AddBoard(board));
      }
    }

    /** `updateLists`: set one board's lists entry. */
    method UpdateLists(boardId: int, newLists: seq<List>)
      modifies this
      ensures State() == Reduce(old(State()), Action.UpdateLists(boardId, newLists))
      ensures old(Valid()) ==> Valid()
    {
      lists := lists[boardId := newLists];
      if old(Valid()) {
        ReducePreservesCover(old(State()), Action.UpdateLists(boardId, newLists));
      }
    }
  }
}
