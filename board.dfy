/** The board of a tic-tac-toe game and the detection of a winning line
    (src/BoardGame.tsx, `winner`). */
module Board {

  /** A cell of the board. The source stores `null` or `""` for an empty cell
      and tells both apart from a mark only by truthiness, so both are `Empty`. */
  datatype Cell = Empty | X | O

  datatype Option<T> = None | Some(value: T)

  /** Three cell indices that win when they hold the same mark. */
  datatype Line = Line(a: nat, b: nat, c: nat)

  /** A win: the mark that completed a line, and that line. */
  datatype Win = Win(player: Cell, winningLine: Line)

  /** The eight lines, in the order the source checks them:
      rows, then columns, then diagonals. */
  const Lines: seq<Line> := [
    Line(0, 1, 2), Line(3, 4, 5), Line(6, 7, 8),
    Line(0, 3, 6), Line(1, 4, 7), Line(2, 5, 8),
    Line(0, 4, 8), Line(2, 4, 6)
  ]

  /** The nine cells of a fresh board. */
  const EmptyBoard: seq<Cell> := [Empty, Empty, Empty, Empty, Empty, Empty, Empty, Empty, Empty]

  /** The cell at index `k`; an index past the end reads as empty, as an
      `undefined` array element is falsy in the source. */
  function CellAt(squares: seq<Cell>, k: nat): Cell {
    if k < |squares| then squares[k] else Empty
  }

  /** `line` holds three times the same mark. */
  predicate Completes(squares: seq<Cell>, line: Line) {
    CellAt(squares, line.a) != Empty &&
    CellAt(squares, line.a) == CellAt(squares, line.b) &&
    CellAt(squares, line.a) == CellAt(squares, line.c)
  }

  /** Line number `k` is completed and no earlier line in `Lines` is. */
  ghost predicate IsFirstWin(squares: seq<Cell>, k: nat) {
    k < |Lines| && Completes(squares, Lines[k]) &&
    forall j :: 0 <= j < k ==> !Completes(squares, Lines[j])
  }

  /** Scans the lines in order and reports the first completed one with its
      mark, or `None` when no line is completed. */
  method Winner(squares: seq<Cell>) returns (r: Option<Win>)
    ensures r.None? <==> forall k :: 0 <= k < |Lines| ==> !Completes(squares, Lines[k])
    ensures r.Some? ==> exists k: nat :: IsFirstWin(squares, k) && r.value.winningLine == Lines[k]
    ensures r.Some? ==>
      r.value.player != Empty && r.value.winningLine in Lines &&
      CellAt(squares, r.value.winningLine.a) == r.value.player &&
      CellAt(squares, r.value.winningLine.b) == r.value.player &&
      CellAt(squares, r.value.winningLine.c) == r.value.player
  {
    var i := 0;
    while i < |Lines|
      invariant 0 <= i <= |Lines|
      invariant forall j :: 0 <= j < i ==> !Completes(squares, Lines[j])
    {
      var line := Lines[i];
      var first, second, third := CellAt(squares, line.a), CellAt(squares, line.b), CellAt(squares, line.c);
      if first != Empty && first == second && first == third {
        assert IsFirstWin(squares, i);
        return Some(Win(first, line));
      }
      i := i + 1;
    }
    return None;
  }

  /** The number of non-empty cells. */
  function Filled(squares: seq<Cell>): (n: nat)
    ensures n <= |squares|
  {
    if squares == [] then 0
    else (if squares[0] != Empty then 1 else 0) + Filled(squares[1..])
  }

  /** A board whose every cell is empty has no filled cell. */
  lemma {:induction false} FilledNone(squares: seq<Cell>)
    requires forall k :: 0 <= k < |squares| ==> squares[k] == Empty
    ensures Filled(squares) == 0
  {
    if squares != [] {
      FilledNone(squares[1..]);
    }
  }

  /** Writing a mark into an empty cell fills exactly one more cell. */
  lemma {:induction false} FilledAfterPlace(squares: seq<Cell>, i: nat, mark: Cell)
    requires i < |squares| && squares[i] == Empty && mark != Empty
    ensures Filled(squares[i := mark]) == Filled(squares) + 1
  {
    var placed := squares[i := mark];
    if i == 0 {
      assert placed[1..] == squares[1..];
    } else {
      assert placed[1..] == squares[1..][i - 1 := mark];
      FilledAfterPlace(squares[1..], i - 1, mark);
    }
  }

  /** When every cell is counted as filled, no cell is empty. */
  lemma {:induction false} FilledAll(squares: seq<Cell>)
    requires Filled(squares) == |squares|
    ensures forall k :: 0 <= k < |squares| ==> squares[k] != Empty
  {
    if squares != [] {
      FilledAll(squares[1..]);
      assert forall k :: 1 <= k < |squares| ==> squares[k] == squares[1..][k - 1];
    }
  }
}
