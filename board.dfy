/**
 * The board model of game.py: nine positions, numbered 1 to 9 in row-major
 * order. An empty position holds its own number; an occupied one holds the
 * mark of the player who took it.
 */
module BoardModel {

  /** The content of one position: its own number while empty, or a mark. */
  datatype Cell = Num(n: int) | X | O

  /** The two marks a player can place. */
  type Mark = c: Cell | c == X || c == O witness X

  /** A snapshot of the board; position p is held at index p - 1. */
  type Board = seq<Cell>

  function IsOnBoard(position: int): (r: bool)
    ensures r <==> 1 <= position <= 9
  {
    position >= 1 && position < 10
  }

  /** The cell at a position of the board. */
  function At(b: Board, position: int): Cell
    requires |b| == 9 && IsOnBoard(position)
  {
    b[position - 1]
  }

  /** A position is empty when it holds neither mark, that is, a number. */
  function IsEmpty(b: Board, position: int): (r: bool)
    requires |b| == 9 && IsOnBoard(position)
    ensures r <==> At(b, position).Num?
  {
    At(b, position) != X && At(b, position) != O
  }

  /**
   * The invariant every board of the game keeps: each position holds a mark
   * or its own number, so that no two empty positions hold the same thing.
   */
  ghost predicate WellFormed(b: Board) {
    |b| == 9 &&
    forall p :: 1 <= p <= 9 ==> At(b, p) == X || At(b, p) == O || At(b, p) == Num(p)
  }

  /** The positions that are still free. */
  ghost function EmptyPositions(b: Board): set<int>
    requires |b| == 9
  {
    set p | 1 <= p <= 9 && IsEmpty(b, p)
  }

  /** The board at the start of a game: every position holds its own number. */
  function InitialBoard(): (b: Board)
    ensures WellFormed(b)
    ensures forall p :: 1 <= p <= 9 ==> IsEmpty(b, p)
  {
    seq(9, k => Num(k + 1))
  }

  /** On a well-formed board, a position is empty exactly when it holds its own number. */
  lemma EmptyHoldsOwnNumber(b: Board, position: int)
    requires WellFormed(b) && IsOnBoard(position)
    ensures IsEmpty(b, position) <==> At(b, position) == Num(position)
  {
  }

  /** The board with one position overwritten. */
  function Place(b: Board, position: int, c: Cell): Board
    requires |b| == 9 && IsOnBoard(position)
  {
    b[position - 1 := c]
  }

  /**
   * Filling a free position with a mark keeps the board well-formed, takes
   * exactly that position out of the free ones, and is undone by writing the
   * position's number back.
   */
  lemma PlaceFillsOneCell(b: Board, position: int, m: Mark)
    requires WellFormed(b) && IsOnBoard(position) && IsEmpty(b, position)
    ensures WellFormed(Place(b, position, m))
    ensures EmptyPositions(Place(b, position, m)) == EmptyPositions(b) - {position}
    ensures position in EmptyPositions(b)
    ensures Place(Place(b, position, m), position, Num(position)) == b
  {
    var b' := Place(b, position, m);
    forall p | 1 <= p <= 9
      ensures p in EmptyPositions(b') <==> p in EmptyPositions(b) && p != position
    {
      assert At(b', p) == if p == position then m else At(b, p);
    }
  }

  function ToggleMarker(marker: Mark): (r: Mark)
    ensures r != marker
  {
    if marker == X then O else X
  }

  lemma ToggleMarkerInvolution(marker: Mark)
    ensures ToggleMarker(ToggleMarker(marker)) == marker
  {
  }

  /**
   * Places `piece` at `position` when the position is on the board and free;
   * otherwise leaves the board alone. The range is tested before the cell is
   * read.
   */
  method InsertPiece(board: array<Cell>, position: int, piece: Mark) returns (placed: bool)
    requires board.Length == 9
    modifies board
    ensures placed <==> IsOnBoard(position) && IsEmpty(old(board[..]), position)
    ensures board[..] == if placed then Place(old(board[..]), position, piece) else old(board[..])
  {
    if IsOnBoard(position) {
      if IsEmpty(board[..], position) {
        board[position - 1] := piece;
        placed := true;
      } else {
        placed := false;
      }
    } else {
      placed := false;
    }
  }

  /** A successful insertion keeps the board well-formed and uses up one free position. */
  lemma InsertPreservesWellFormed(b: Board, position: int, piece: Mark)
    requires WellFormed(b) && IsOnBoard(position) && IsEmpty(b, position)
    ensures WellFormed(Place(b, position, piece))
    ensures |EmptyPositions(Place(b, position, piece))| == |EmptyPositions(b)| - 1
  {
    PlaceFillsOneCell(b, position, piece);
  }
}
