# Tic-tac-toe game state, in Dafny

This project models the logic of the `BoardGame` component of a browser tic-tac-toe game
(src/BoardGame.tsx). The component keeps four pieces of state: the mark to play (`turn`),
the board on screen (`squares`), the list of snapshots (`history`) and the position of the
current snapshot in that list (`currentMove`). It also has two handlers:

- a click on a cell places a mark and starts a new branch of the history;
- a click on a history entry jumps back to that snapshot.

A pure function, `winner`, finds the first complete line of a board.

- `board.dfy`, module `Board`: the cells (`Empty | X | O`; the source's `null` and `""`
  are both empty, because it only tests them for truthiness), the eight lines in the
  order the source checks them, and `Winner`. `Winner` is the source's loop with an
  early return, proved to return the first complete line or `None` when there is none.
  The module also counts the filled cells of a board (`Filled`).
- `game.dfy`, module `BoardGame`: the snapshot record (`GameHistory` in
  src/types/gameTypes.ts), `IsGameStart`, and what a well-formed history is. A
  well-formed history starts with the empty-board entry, every entry knows its own
  position, and each later entry adds one mark to an empty cell of the entry before it.
  The class `Game` holds the four fields and the two handlers. Its invariant `Valid()`
  says that the board shown is the board of the entry at `currentMove`. Lemmas about
  well-formed histories: a branch stays well formed; the entry at position k has exactly
  k filled cells, so a history never has more than ten entries; marks are never erased
  along a history; only the first entry is the game start.
- `scenarios.dfy`, module `Scenarios`: games played through the handlers, whose outcome
  follows from the contracts alone. They cover a column win, a click on an occupied
  cell, a branch that drops two entries, a move played after a win, and the jump that
  keeps the turn.

Each handler is one atomic transition. It reads the state it was called with, as the
closure does in the source. The functional updaters (`prev => …`) see that same state.

Two behaviours of the code are kept as they are:

- a move is accepted after a line is complete (src/BoardGame.tsx:91 tests only that the
  cell is empty);
- a jump does not set the turn back (src/BoardGame.tsx:114-117).

A tic-tac-toe board would be expected to hold as many X as O, or one more X. The code
does not keep that balance, and the model follows the code.
`Scenarios.JumpKeepsTurn` shows a game that breaks it: X plays at 0, the game jumps back
to the start, and the next click puts an O on a board that holds no X.

## Model

| member | source | states |
|---|---|---|
| `Board.Winner` | src/BoardGame.tsx:12-35 | Returns `None` exactly when none of the eight lines holds three equal non-empty marks. Otherwise it returns a line of `Lines` that is complete, with no complete line before it in the fixed order (rows, columns, diagonals). The mark returned is non-empty and sits in all three cells of that line. |
| `BoardGame.NextTurn` | src/BoardGame.tsx:92 | The next mark is never empty and differs from a non-empty current mark, so X and O alternate. |
| `BoardGame.GameStartOnlyFirst` | src/BoardGame.tsx:8-10 | In a well-formed history, `IsGameStart` (no mark played and position 0) holds of the entry at position k exactly when k is 0. |
| `BoardGame.BranchWellFormed` | src/BoardGame.tsx:97-108 | Keeping the entries up to and including position m, then appending one move made from entry m with position m+1, gives a well-formed history. |
| `BoardGame.FilledIsPosition` | src/BoardGame.tsx:76-112 | The board of the entry at position k holds exactly k marks. The start board holds none, and every move fills one empty cell. |
| `BoardGame.HistoryAtMostTen` | src/BoardGame.tsx:90-112 | A history built by the handlers never holds more than ten entries: the start entry and nine moves. |
| `BoardGame.FullAfterNine` | src/BoardGame.tsx:91 | The entry at position 9 shows a full board, so from there every click is ignored. |
| `BoardGame.MarksPersist` | src/BoardGame.tsx:91-95 | A mark on the board of one entry stays in the same cell on every later entry of the history. A move only writes into an empty cell. |
| `BoardGame.Game.constructor` | src/BoardGame.tsx:76-88 | The game starts with X to play, an empty nine-cell board, position 0, and a history of one entry: no mark, location 0, position 0, empty board. The invariant holds. |
| `BoardGame.Game.HandleSquareClick` | src/BoardGame.tsx:90-112 | A click on an occupied cell changes none of the four fields. A click on an empty cell i puts the old turn into cell i and leaves the other cells alone. It passes the turn to the other mark and adds one to `currentMove`. The history becomes the old entries up to and including `currentMove`, followed by the entry (old turn, i, old `currentMove` + 1, new board). Its length is then old `currentMove` + 2, and `currentMove` points at its last entry. The invariant is kept. |
| `BoardGame.Game.HandleJumpTo` | src/BoardGame.tsx:114-117 | Sets `currentMove` to the target and the board to that entry's board. It leaves the history and the turn unchanged and keeps the invariant. |

## Left out

- Rendering: `SquareButton`, `HistoryButton` and the JSX tree of `BoardGame`, with its
  class names and labels (src/BoardGame.tsx:37-73, 118-153). The winner that the render
  computes from `squares` is `Board.Winner` applied to `Game.squares`.
- The React `useState` machinery (lazy initialisers, batching, scheduling of updates).
  Each handler is one synchronous transition.
- `SquareButtonProps` and `HistoryButtonProps` (src/types/gameTypes.ts:9-20). They are
  prop types built on React event-handler types.
- The `turn as unknown as string` cast (src/BoardGame.tsx:94). It is a type-level
  artefact with no behaviour.
- Strings and numbers: `turn` and the cells are the `Cell` datatype rather than
  strings. `winningLine` is a `Line` of three indices rather than an array of numbers.
  `location` and `currentMove` are `nat`.
- `BoardGame.Game.HandleSquareClick`: requires a cell index below 9. The buttons only
  ever pass 0 to 8. An index outside the board, which would grow the JavaScript array,
  is not modelled.
- `BoardGame.Game.HandleJumpTo`: requires a position inside the history. The history
  buttons only pass positions of existing entries, and the code does not guard a bad
  index.
