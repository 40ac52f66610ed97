/**
 * The terminal-state evaluator of game.py: which mark, if any, holds three in
 * a row, whether the board is full, and whether the game is over.
 */
module TerminalState {
  import opened Wrappers
  import opened BoardModel

  /** Three positions that win when they hold the same thing. */
  datatype Line = Line(first: int, second: int, third: int)

  predicate OnBoard(l: Line) {
    IsOnBoard(l.first) && IsOnBoard(l.second) && IsOnBoard(l.third)
  }

  /** Row j (j = 0, 1, 2) is positions 3j+1, 3j+2, 3j+3. */
  function Row(j: int): Line {
    Line(3 * j + 1, 3 * j + 2, 3 * j + 3)
  }

  /** Column j (j = 0, 1, 2) is positions j+1, j+4, j+7. */
  function Column(j: int): Line {
    Line(j + 1, j + 4, j + 7)
  }

  const Rows: seq<Line> := [Row(0), Row(1), Row(2)]
  const Columns: seq<Line> := [Column(0), Column(1), Column(2)]
  const Diagonals: seq<Line> := [Line(1, 5, 9), Line(3, 5, 7)]
  /** All eight lines in the order game.py examines them. */
  const AllLines: seq<Line> := Rows + Columns + Diagonals

  /** The three cells of the line are equal (whatever they hold). */
  predicate Complete(b: Board, l: Line)
    requires |b| == 9 && OnBoard(l)
  {
    At(b, l.first) == At(b, l.second) && At(b, l.second) == At(b, l.third)
  }

  /** The mark game.py reports for a complete line: X if its first cell is X, O otherwise. */
  function Claimant(b: Board, l: Line): Mark
    requires |b| == 9 && OnBoard(l)
  {
    if At(b, l.first) == X then X else O
  }

  /** Some line of AllLines holds `m` in all three of its cells. */
  ghost predicate HasLine(b: Board, m: Mark)
    requires |b| == 9
  {
    exists l :: l in AllLines && At(b, l.first) == m && At(b, l.second) == m && At(b, l.third) == m
  }

  /**
   * Scans `lines` in order and reports the claimant of the first complete
   * one, or None when none is complete.
   */
  function FirstComplete(b: Board, lines: seq<Line>): (r: Option<Mark>)
    requires |b| == 9 && forall l :: l in lines ==> OnBoard(l)
    ensures r.None? <==> forall k :: 0 <= k < |lines| ==> !Complete(b, lines[k])
    ensures r.Some? ==>
      exists k :: 0 <= k < |lines| && Complete(b, lines[k]) && r.value == Claimant(b, lines[k]) &&
          forall j :: 0 <= j < k ==> !Complete(b, lines[j])
  {
    if lines == [] then None
    else if Complete(b, lines[0]) then Some(Claimant(b, lines[0]))
    else
      var r := FirstComplete(b, lines[1..]);
      assert r.Some? ==>
        exists k :: 1 <= k < |lines| && Complete(b, lines[k]) && r.value == Claimant(b, lines[k]) &&
          forall j :: 0 <= j < k ==> !Complete(b, lines[j]) by {
        if r.Some? {
          var k :| 0 <= k < |lines[1..]| && Complete(b, lines[1..][k]) && r.value == Claimant(b, lines[1..][k]) &&
            forall j :: 0 <= j < k ==> !Complete(b, lines[1..][j]);
          assert lines[k + 1] == lines[1..][k];
          forall j | 0 <= j < k + 1 ensures !Complete(b, lines[j]) {
            if j > 0 { assert lines[j] == lines[1..][j - 1]; }
          }
        }
      }
      r
  }

  /** Scanning a concatenation scans the first part, then the second. */
  lemma {:induction false} FirstCompleteConcat(b: Board, xs: seq<Line>, ys: seq<Line>)
    requires |b| == 9 && (forall l :: l in xs ==> OnBoard(l)) && (forall l :: l in ys ==> OnBoard(l))
    ensures FirstComplete(b, xs + ys) ==
      if FirstComplete(b, xs).Some? then FirstComplete(b, xs) else FirstComplete(b, ys)
  {
    if xs == [] {
      assert xs + ys == ys;
    } else {
      assert (xs + ys)[0] == xs[0];
      assert (xs + ys)[1..] == xs[1..] + ys;
      FirstCompleteConcat(b, xs[1..], ys);
    }
  }

  /**
   * Rows are examined for j = 0, 1, 2; the result is None exactly when no
   * row has three equal cells, and otherwise the first complete row's claimant.
   */
  function CheckHorizontal(b: Board): (r: Option<Mark>)
    requires |b| == 9
    ensures r == FirstComplete(b, Rows)
    ensures r.None? <==> forall j :: 0 <= j < 3 ==> !Complete(b, Row(j))
    ensures r.Some? ==>
      exists j :: 0 <= j < 3 && Complete(b, Row(j)) && r.value == Claimant(b, Row(j)) &&
          forall i :: 0 <= i < j ==> !Complete(b, Row(i))
  {
    assert forall j :: 0 <= j < 3 ==> Rows[j] == Row(j);
    FirstComplete(b, Rows)
  }

  /**
   * Columns are examined for j = 0, 1, 2; the result is None exactly when no
   * column has three equal cells, and otherwise the first complete column's claimant.
   */
  function CheckVertical(b: Board): (r: Option<Mark>)
    requires |b| == 9
    ensures r == FirstComplete(b, Columns)
    ensures r.None? <==> forall j :: 0 <= j < 3 ==> !Complete(b, Column(j))
    ensures r.Some? ==>
      exists j :: 0 <= j < 3 && Complete(b, Column(j)) && r.value == Claimant(b, Column(j)) &&
          forall i :: 0 <= i < j ==> !Complete(b, Column(i))
  {
    assert forall j :: 0 <= j < 3 ==> Columns[j] == Column(j);
    FirstComplete(b, Columns)
  }

  /**
   * Both diagonals go through the centre, so when either is complete the
   * centre decides the claimant; this is the first complete diagonal's.
   */
  function CheckDiagonal(b: Board): (r: Option<Mark>)
    requires |b| == 9
    ensures r == FirstComplete(b, Diagonals)
  {
    if Complete(b, Line(1, 5, 9)) || Complete(b, Line(3, 5, 7)) then
      Some(if At(b, 5) == X then X else O)
    else
      None
  }

  /**
   * The winner reported by game.py: the claimant of the first complete line,
   * rows before columns before diagonals.
   */
  function CheckWins(b: Board): (r: Option<Mark>)
    requires |b| == 9
    ensures r == FirstComplete(b, AllLines)
    ensures r.None? <==> forall l :: l in AllLines ==> !Complete(b, l)
  {
    FirstCompleteConcat(b, Rows, Columns);
    FirstCompleteConcat(b, Rows + Columns, Diagonals);
    var h := CheckHorizontal(b);
    var v := CheckVertical(b);
    var d := CheckDiagonal(b);
    if h.Some? then h
    else if v.Some? then v
    else d
  }

  /** Every line of the game lies on the board and starts with two distinct positions. */
  lemma AllLinesDistinct()
    ensures forall l :: l in AllLines ==> OnBoard(l) && l.first != l.second
  {
  }

  /**
   * On a well-formed board a complete line whose first two positions differ
   * cannot be made of empty cells (they hold different numbers), so it holds
   * its claimant's mark.
   */
  lemma CompleteLineHoldsMark(b: Board, l: Line)
    requires WellFormed(b) && OnBoard(l) && l.first != l.second && Complete(b, l)
    ensures At(b, l.first) == Claimant(b, l)
  {
  }

  /**
   * On a well-formed board, the reported winner really holds a line, and
   * there is no winner exactly when neither mark holds a line.
   */
  lemma WinnerHoldsLine(b: Board)
    requires |b| == 9
    ensures WellFormed(b) && CheckWins(b).Some? ==> HasLine(b, CheckWins(b).value)
    ensures WellFormed(b) ==> (CheckWins(b).None? <==> !HasLine(b, X) && !HasLine(b, O))
  {
    if WellFormed(b) {
      AllLinesDistinct();
      var r := CheckWins(b);
      if r.Some? {
        var k :| 0 <= k < |AllLines| && Complete(b, AllLines[k]) && r.value == Claimant(b, AllLines[k]);
        CompleteLineHoldsMark(b, AllLines[k]);
        assert AllLines[k] in AllLines;
      }
      forall m: Mark | HasLine(b, m) ensures r.Some? {
        var l :| l in AllLines && At(b, l.first) == m && At(b, l.second) == m && At(b, l.third) == m;
        assert Complete(b, l);
      }
    }
  }

  /** Whether every position from `i` on holds something other than its own number. */
  function CheckFullFrom(b: Board, i: int): (r: bool)
    requires |b| == 9 && 1 <= i <= 10
    ensures r <==> forall p :: i <= p <= 9 ==> At(b, p) != Num(p)
    decreases 10 - i
  {
    if i == 10 then true
    else if At(b, i) == Num(i) then false
    else CheckFullFrom(b, i + 1)
  }

  /**
   * game.py calls a board full when no position holds its own number; on a
   * well-formed board that is exactly when no position is empty.
   */
  function CheckFull(b: Board): (r: bool)
    requires |b| == 9
    ensures WellFormed(b) ==> (r <==> EmptyPositions(b) == {})
  {
    var r := CheckFullFrom(b, 1);
    assert WellFormed(b) && !r ==> exists p :: p in EmptyPositions(b) by {
      if WellFormed(b) && !r {
        var p :| 1 <= p <= 9 && At(b, p) == Num(p);
        assert p in EmptyPositions(b);
      }
    }
    r
  }

  /**
   * The decision of game.py's CheckGameOver: the game is over when some line
   * has a winner or the board is full.
   */
  function CheckGameOver(b: Board): (over: bool)
    requires |b| == 9
    ensures WellFormed(b) ==> (over <==> HasLine(b, X) || HasLine(b, O) || EmptyPositions(b) == {})
  {
    WinnerHoldsLine(b);
    var winner := CheckWins(b);
    if winner.Some? then true
    else CheckFull(b)
  }
}
