/**
 * Board creation on the home page: a title check, a colour drawn from a
 * fixed palette, and the new board appended to the page's boards. The
 * clock reading that becomes the id and the random palette position are
 * parameters.
 */
module HomeBoards {
  import opened Kanban

  /** The six colours a new board can get. */
  const Palette: seq<string> := ["#3b82f6", "#8b5cf6", "#f97316", "#ec4899", "#10b981", "#6366f1"]

  /**
   * `addNewBoard`: a blank title is rejected and the boards are unchanged;
   * otherwise one board, with the untrimmed title and a palette colour, is
   * appended after the existing boards. `colorIndex` is
   * `Math.floor(Math.random() * colors.length)`, which lies in [0, 6).
   */
  function AddNewBoard(boards: seq<Board>, title: string, id: int, colorIndex: nat): (r: seq<Board>)
    requires colorIndex < |Palette|
    ensures IsBlank(title) ==> r == boards
    ensures !IsBlank(title) ==>
              && |r| == |boards| + 1
              && r[..|boards|] == boards
              && r[|boards|].id == id
              && r[|boards|].title == title
              && r[|boards|].color in Palette
  {
    if IsBlank(title) then boards
    else boards + [Board(id, title, Palette[colorIndex])]
  }

  predicate BoardIdsDistinct(boards: seq<Board>) {
    forall i, j :: 0 <= i < j < |boards| ==> boards[i].id != boards[j].id
  }

  /** Every board's colour comes from the palette. */
  predicate PaletteColors(boards: seq<Board>) {
    forall i :: 0 <= i < |boards| ==> boards[i].color in Palette
  }

  /** The sample boards carry distinct ids and palette colours. */
  lemma SampleBoardsValid()
    ensures BoardIdsDistinct(SampleBoards) && PaletteColors(SampleBoards)
  {
  }

  /**
   * Creating a board under an id no board has keeps ids distinct and every
   * colour in the palette, whatever the random draw.
   */
  lemma AddNewBoardKeepsInvariant(boards: seq<Board>, title: string, id: int, colorIndex: nat)
    requires colorIndex < |Palette|
    requires BoardIdsDistinct(boards) && PaletteColors(boards)
    requires forall i :: 0 <= i < |boards| ==> boards[i].id != id
    ensures var r := AddNewBoard(boards, title, id, colorIndex);
            BoardIdsDistinct(r) && PaletteColors(r)
  {
    var r := AddNewBoard(boards, title, id, colorIndex);
    if !IsBlank(title) {
      assert forall i :: 0 <= i < |boards| ==> r[i] == boards[i];
    }
  }
}
