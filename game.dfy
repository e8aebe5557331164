/** The state held by the `BoardGame` component (src/BoardGame.tsx): the
    mark to play, the board shown, the list of snapshots and the position in
    that list, with the two handlers that change them. */
module BoardGame {
  import opened Board

  /** One entry of the history (`GameHistory`, src/types/gameTypes.ts):
      the mark just played (`Empty` for the `""` of the start snapshot),
      the cell it was played in, the entry's own position and the board. */
  datatype Snapshot = Snapshot(move: Cell, location: nat, currentMove: nat, squares: seq<Cell>)

  /** The single entry the history starts with. */
  const InitialSnapshot: Snapshot := Snapshot(Empty, 0, 0, EmptyBoard)

  /** The mark that plays after `turn`. */
  function NextTurn(turn: Cell): (r: Cell)
    ensures r != Empty
    ensures turn != Empty ==> r != turn
  {
    if turn == X then O else X
  }

  /** The "Go To Game Start" entry: no mark played, position 0. */
  predicate IsGameStart(data: Snapshot) {
    data.move == Empty && data.currentMove == 0
  }

  /** `next` is `prev` with one more move: a mark written into a cell that
      was empty on `prev`'s board. */
  ghost predicate Follows(prev: Snapshot, next: Snapshot) {
    next.move != Empty && next.location < 9 && |prev.squares| == 9 &&
    prev.squares[next.location] == Empty &&
    next.squares == prev.squares[next.location := next.move]
  }

  /** A history as the handlers build it: it starts with the initial entry,
      every entry knows its own position and has a nine-cell board, and each
      entry after the first is one move on from the entry before it. */
  ghost predicate WellFormedHistory(history: seq<Snapshot>) {
    |history| > 0 && history[0] == InitialSnapshot &&
    (forall k :: 0 <= k < |history| ==> history[k].currentMove == k && |history[k].squares| == 9) &&
    (forall k :: 0 < k < |history| ==> Follows(history[k - 1], history[k]))
  }

  /** Cutting a well-formed history after position `m` and appending one
      move on from entry `m` gives a well-formed history. */
  lemma BranchWellFormed(history: seq<Snapshot>, m: nat, next: Snapshot)
    requires WellFormedHistory(history) && m < |history|
    requires next.currentMove == m + 1 && Follows(history[m], next)
    ensures WellFormedHistory(history[..m + 1] + [next])
  {
  }

  /** Every entry of a well-formed history has exactly as many filled cells
      as its position. */
  lemma {:induction false} FilledIsPosition(history: seq<Snapshot>, k: nat)
    requires WellFormedHistory(history) && k < |history|
    ensures Filled(history[k].squares) == k
  {
    if k == 0 {
      FilledNone(EmptyBoard);
    } else {
      FilledIsPosition(history, k - 1);
      assert Follows(history[k - 1], history[k]);
      FilledAfterPlace(history[k - 1].squares, history[k].location, history[k].move);
    }
  }

  /** A history never holds more than the start entry and nine moves. */
  lemma HistoryAtMostTen(history: seq<Snapshot>)
    requires WellFormedHistory(history)
    ensures |history| <= 10
  {
    FilledIsPosition(history, |history| - 1);
  }

  /** The entry at position 9 shows a full board. */
  lemma FullAfterNine(history: seq<Snapshot>)
    requires WellFormedHistory(history) && |history| == 10
    ensures forall c :: 0 <= c < 9 ==> history[9].squares[c] != Empty
  {
    FilledIsPosition(history, 9);
    FilledAll(history[9].squares);
  }

  /** A mark, once on the board of an entry, stays in that cell on every
      later entry of the same history. */
  lemma {:induction false} MarksPersist(history: seq<Snapshot>, j: nat, k: nat, c: nat)
    requires WellFormedHistory(history) && j <= k < |history| && c < 9
    requires history[j].squares[c] != Empty
    ensures history[k].squares[c] == history[j].squares[c]
  {
    if j < k {
      MarksPersist(history, j, k - 1, c);
      assert Follows(history[k - 1], history[k]);
    }
  }

  /** In a well-formed history, only the first entry is the game start. */
  lemma GameStartOnlyFirst(history: seq<Snapshot>, k: nat)
    requires WellFormedHistory(history) && k < |history|
    ensures IsGameStart(history[k]) <==> k == 0
  {
  }

  /** The state of the `BoardGame` component. */
  class Game {
    var turn: Cell
    var history: seq<Snapshot>
    var squares: seq<Cell>
    var currentMove: nat

    /** The board shown is always the board of the entry at `currentMove`. */
    ghost predicate Valid()
      reads this
    {
      |squares| == 9 && turn != Empty &&
      WellFormedHistory(history) && currentMove < |history| &&
      squares == history[currentMove].squares
    }

    /** X to play, on an empty board, with only the start entry. */
    constructor ()
      ensures Valid()
      ensures turn == X && history == [InitialSnapshot] && squares == EmptyBoard && currentMove == 0
    {
      turn := X;
      history := [InitialSnapshot];
      squares := EmptyBoard;
      currentMove := 0;
    }

    /** A click on cell `i`: ignored when the cell holds a mark (even after a
        win); otherwise the mark to play goes into the cell, the turn passes,
        the entries after `currentMove` are dropped and the new entry is
        appended. */
    method HandleSquareClick(i: nat)
      requires Valid() && i < 9
      modifies this
      ensures Valid()
      ensures old(squares[i]) != Empty ==>
        turn == old(turn) && squares == old(squares) &&
        history == old(history) && currentMove == old(currentMove)
      ensures old(squares[i]) == Empty ==>
        squares == old(squares)[i := old(turn)] &&
        turn == NextTurn(old(turn)) && turn != old(turn) &&
        currentMove == old(currentMove) + 1 &&
        history == old(history)[..old(currentMove) + 1] +
                   [Snapshot(old(turn), i, old(currentMove) + 1, squares)] &&
        |history| == old(currentMove) + 2 && currentMove == |history| - 1
    {
      if squares[i] == Empty {
        var move := currentMove;
        var mark := turn;
        turn := NextTurn(turn);
        var nextSquares := squares[i := mark];
        squares := nextSquares;
        var next := Snapshot(mark, i, move + 1, nextSquares);
        BranchWellFormed(history, move, next);
        history := history[..move + 1] + [next];
        currentMove := currentMove + 1;
      }
    }

    /** A click on the history entry at position `move`: shows its board and
        makes it current; the history and the mark to play stay as they are. */
    method HandleJumpTo(move: nat)
      requires Valid() && move < |history|
      modifies this
      ensures Valid()
      ensures currentMove == move && squares == old(history)[move].squares
      ensures history == old(history) && turn == old(turn)
    {
      currentMove := move;
      squares := history[move].squares;
    }
  }
}
