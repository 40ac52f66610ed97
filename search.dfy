/**
 * The minimax search of game.py and the move selector built on it. Scores
 * are from X's point of view: 1 when X wins, -1 when O wins, 0 for a draw.
 * X maximises and O minimises. The search works on one shared board: it
 * writes a hypothetical move, recurses, and writes the position's number back.
 */
module MiniMaxSearch {
  import opened Wrappers
  import opened BoardModel
  import opened TerminalState

  /** The starting score of a scan: below every real score for X, above for O. */
  function Sentinel(marker: Mark): int {
    if marker == X then -999 else 999
  }

  /** `score` strictly improves on `than` for the player who plays `marker`. */
  predicate Better(marker: Mark, score: int, than: int) {
    if marker == X then score > than else score < than
  }

  /** The best score seen by a scan so far and the position that first gave it. */
  datatype Choice = Choice(score: int, move: Option<int>)

  function Initial(marker: Mark): Choice {
    Choice(Sentinel(marker), None)
  }

  /** Before any child is found the score is the sentinel; afterwards it is a real score. */
  predicate Settled(marker: Mark, c: Choice) {
    if c.move.None? then c.score == Sentinel(marker) else -1 <= c.score <= 1
  }

  /**
   * The minimax value of a well-formed board with `marker` to move: the
   * winner's score if some line is complete, 0 on a full board, and
   * otherwise the best score among the children.
   */
  function MiniMaxValue(b: Board, marker: Mark): (r: int)
    requires WellFormed(b)
    ensures -1 <= r <= 1
    decreases EmptyPositions(b), 1, 0
  {
    var winner := CheckWins(b);
    if winner == Some(X) then 1
    else if winner == Some(O) then -1
    else if CheckFull(b) then 0
    else
      var c := BestChild(b, marker, 1, Initial(marker));
      assert c.move.Some? by {
        var p :| p in EmptyPositions(b);
      }
      c.score
  }

  /** The value of the child obtained by putting `marker` on the free position `p`. */
  function ChildValue(b: Board, marker: Mark, p: int): (r: int)
    requires WellFormed(b) && IsOnBoard(p) && IsEmpty(b, p)
    ensures -1 <= r <= 1
    decreases EmptyPositions(b), 0, 0
  {
    PlaceFillsOneCell(b, p, marker);
    MiniMaxValue(Place(b, p, marker), ToggleMarker(marker))
  }

  /**
   * The scan over positions i..9 shared by MiniMax and AI: each free position
   * is tried in increasing order, and the running choice is replaced only
   * when a child is strictly better, so ties keep the earliest position.
   */
  function BestChild(b: Board, marker: Mark, i: int, best: Choice): (r: Choice)
    requires WellFormed(b) && 1 <= i <= 10 && Settled(marker, best)
    ensures Settled(marker, r)
    ensures r.move.Some? ==> r.move == best.move || (i <= r.move.value <= 9 && IsEmpty(b, r.move.value))
    ensures best.move.Some? ==> r.move.Some?
    ensures (exists p :: i <= p <= 9 && IsEmpty(b, p)) ==> r.move.Some?
    decreases EmptyPositions(b), 0, 10 - i
  {
    if i == 10 then best
    else if IsEmpty(b, i) then
      var score := ChildValue(b, marker, i);
      BestChild(b, marker, i + 1, if Better(marker, score, best.score) then Choice(score, Some(i)) else best)
    else
      BestChild(b, marker, i + 1, best)
  }

  /**
   * What the scan computes: its score is at least as good as every child's
   * from position i on, it improves strictly on `best` whenever it moves
   * away from it, the chosen position's child gives exactly that score, and
   * every earlier free position from i on gives a strictly worse one.
   */
  lemma {:induction false} BestChildIsFirstBest(b: Board, marker: Mark, i: int, best: Choice)
    requires WellFormed(b) && 1 <= i <= 10 && Settled(marker, best)
    requires best.move.Some? ==>
      IsOnBoard(best.move.value) && best.move.value < i && IsEmpty(b, best.move.value) &&
      best.score == ChildValue(b, marker, best.move.value)
    ensures var r := BestChild(b, marker, i, best);
      && (r.move.Some? ==> IsOnBoard(r.move.value) && IsEmpty(b, r.move.value) &&
                           r.score == ChildValue(b, marker, r.move.value))
      && (forall p :: i <= p <= 9 && IsEmpty(b, p) ==> !Better(marker, ChildValue(b, marker, p), r.score))
      && (r.move == best.move ==> r == best)
      && (r.move != best.move ==> Better(marker, r.score, best.score))
      && (r.move.Some? ==>
            forall p :: i <= p < r.move.value && IsEmpty(b, p) ==> Better(marker, r.score, ChildValue(b, marker, p)))
    decreases 10 - i
  {
    if i < 10 {
      if IsEmpty(b, i) {
        var score := ChildValue(b, marker, i);
        var next := if Better(marker, score, best.score) then Choice(score, Some(i)) else best;
        BestChildIsFirstBest(b, marker, i + 1, next);
      } else {
        BestChildIsFirstBest(b, marker, i + 1, best);
      }
    }
  }

  /**
   * On a board where nobody has won and a position is free, the minimax
   * value is the maximum of the children's values when X moves and their
   * minimum when O moves.
   */
  lemma MiniMaxIsBestChild(b: Board, marker: Mark)
    requires WellFormed(b) && CheckWins(b).None? && EmptyPositions(b) != {}
    ensures forall p :: IsOnBoard(p) && IsEmpty(b, p) ==>
      if marker == X then ChildValue(b, marker, p) <= MiniMaxValue(b, marker)
      else ChildValue(b, marker, p) >= MiniMaxValue(b, marker)
    ensures exists p :: IsOnBoard(p) && IsEmpty(b, p) && ChildValue(b, marker, p) == MiniMaxValue(b, marker)
  {
    BestChildIsFirstBest(b, marker, 1, Initial(marker));
    var c := BestChild(b, marker, 1, Initial(marker));
    assert MiniMaxValue(b, marker) == c.score;
    assert c.move.Some? by {
      var p :| p in EmptyPositions(b);
    }
  }

  /**
   * Once the game is decided the value is fixed: 1 when only X holds a line,
   * -1 when only O does, 0 when no line is held and no position is free.
   */
  lemma MiniMaxOfFinishedGame(b: Board, marker: Mark)
    requires WellFormed(b)
    ensures HasLine(b, X) && !HasLine(b, O) ==> MiniMaxValue(b, marker) == 1
    ensures HasLine(b, O) && !HasLine(b, X) ==> MiniMaxValue(b, marker) == -1
    ensures !HasLine(b, X) && !HasLine(b, O) && EmptyPositions(b) == {} ==> MiniMaxValue(b, marker) == 0
  {
    WinnerHoldsLine(b);
  }

  /** The position AI picks for `marker`, or None when no position is free. */
  function AIMove(b: Board, marker: Mark): (r: Option<int>)
    requires WellFormed(b)
    ensures r.None? <==> EmptyPositions(b) == {}
    ensures r.Some? ==> r.value in EmptyPositions(b)
  {
    var c := BestChild(b, marker, 1, Initial(marker));
    assert EmptyPositions(b) != {} ==> c.move.Some? by {
      if EmptyPositions(b) != {} {
        var p :| p in EmptyPositions(b);
      }
    }
    assert c.move.Some? ==> c.move.value in EmptyPositions(b);
    c.move
  }

  /**
   * AI's pick is a best move for its player, and the first one: no free
   * position gives a better child, and every free position before it gives
   * a strictly worse one. While the game is undecided, its child has the
   * board's minimax value.
   */
  lemma AIMoveIsFirstBest(b: Board, marker: Mark)
    requires WellFormed(b) && AIMove(b, marker).Some?
    ensures var m := AIMove(b, marker).value;
      && IsOnBoard(m) && IsEmpty(b, m)
      && (forall p :: IsOnBoard(p) && IsEmpty(b, p) ==> !Better(marker, ChildValue(b, marker, p), ChildValue(b, marker, m)))
      && (forall p :: 1 <= p < m && IsEmpty(b, p) ==> Better(marker, ChildValue(b, marker, m), ChildValue(b, marker, p)))
      && (CheckWins(b).None? ==> ChildValue(b, marker, m) == MiniMaxValue(b, marker))
  {
    BestChildIsFirstBest(b, marker, 1, Initial(marker));
    if CheckWins(b).None? {
      assert !CheckFull(b);
    }
  }

  /**
   * The minimax value of the board, computed in place: each free position in
   * turn gets `marker`, is searched with the other mark to move, and gets
   * its number back. The board is unchanged afterwards.
   */
  method MiniMax(board: array<Cell>, marker: Mark) returns (value: int)
    requires WellFormed(board[..])
    modifies board
    ensures board[..] == old(board[..])
    ensures value == MiniMaxValue(old(board[..]), marker)
    decreases EmptyPositions(board[..])
  {
    var winner := CheckWins(board[..]);
    if winner == Some(X) {
      return 1;
    } else if winner == Some(O) {
      return -1;
    } else if CheckFull(board[..]) {
      return 0;
    }
    ghost var b0 := board[..];
    ghost var move: Option<int> := None;
    value := Sentinel(marker);
    for i := 1 to 10
      invariant board[..] == b0
      invariant Settled(marker, Choice(value, move))
      invariant BestChild(b0, marker, i, Choice(value, move)) == BestChild(b0, marker, 1, Initial(marker))
    {
      if IsEmpty(board[..], i) {
        PlaceFillsOneCell(b0, i, marker);
        board[i - 1] := marker;
        assert board[..] == Place(b0, i, marker);
        var score := MiniMax(board, ToggleMarker(marker));
        board[i - 1] := Num(i);
        assert board[..] == b0;
        if Better(marker, score, value) {
          value, move := score, Some(i);
        }
      }
    }
  }

  /**
   * The move selector: scans the free positions in increasing order, scores
   * each by MiniMax with the other mark to move, and keeps the first
   * position with the best score. The board is unchanged afterwards.
   */
  method AI(board: array<Cell>, computerMarker: Mark) returns (bestMove: Option<int>)
    requires WellFormed(board[..])
    modifies board
    ensures board[..] == old(board[..])
    ensures bestMove == AIMove(old(board[..]), computerMarker)
  {
    ghost var b0 := board[..];
    var bestScore := Sentinel(computerMarker);
    bestMove := None;
    for i := 1 to 10
      invariant board[..] == b0
      invariant Settled(computerMarker, Choice(bestScore, bestMove))
      invariant BestChild(b0, computerMarker, i, Choice(bestScore, bestMove)) ==
                BestChild(b0, computerMarker, 1, Initial(computerMarker))
    {
      if IsEmpty(board[..], i) {
        PlaceFillsOneCell(b0, i, computerMarker);
        board[i - 1] := computerMarker;
        assert board[..] == Place(b0, i, computerMarker);
        var score := MiniMax(board, ToggleMarker(computerMarker));
        board[i - 1] := Num(i);
        assert board[..] == b0;
        if Better(computerMarker, score, bestScore) {
          bestMove, bestScore := Some(i), score;
        }
      }
    }
  }

  /**
   * The computer's turn: place `piece` where AI says. AI only picks free
   * positions, so the placement never fails and game.py's retry never runs.
   */
  method ComputerMove(board: array<Cell>, piece: Mark)
    requires WellFormed(board[..]) && EmptyPositions(board[..]) != {}
    modifies board
    ensures board[..] == Place(old(board[..]), AIMove(old(board[..]), piece).value, piece)
    ensures WellFormed(board[..])
  {
    ghost var b0 := board[..];
    var position := AI(board, piece);
    var placed := InsertPiece(board, position.value, piece);
    if !placed {
      assert false;
    }
    InsertPreservesWellFormed(b0, position.value, piece);
  }

  /**
   * With X on 1 and 2, O on 4 and 5 and the rest free, the selector for X
   * completes the top row: position 3 wins outright, and no later position
   * can do strictly better than a win.
   */
  lemma AIPicksWinningMove()
    ensures var b := [X, X, Num(3), O, O, Num(6), Num(7), Num(8), Num(9)];
      WellFormed(b) && AIMove(b, X) == Some(3)
  {
    var b := [X, X, Num(3), O, O, Num(6), Num(7), Num(8), Num(9)];
    assert WellFormed(b);
    assert IsEmpty(b, 3);
    var won := Place(b, 3, X);
    assert Complete(won, Row(0));
    assert CheckWins(won) == Some(X);
    assert ChildValue(b, X, 3) == 1;
    assert AIMove(b, X).Some? by {
      assert 3 in EmptyPositions(b);
    }
    AIMoveIsFirstBest(b, X);
    var m := AIMove(b, X).value;
    assert m in EmptyPositions(b);
    assert m != 1 && m != 2;
  }
}
