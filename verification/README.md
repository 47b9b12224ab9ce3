# react-chessy move engine in Dafny

This project models the chess-move engine behind the React drag-and-drop chess board react-chessy. It does not model the rendering.

The model has four parts:

- **Move generator.** Eight ray walkers run outward from a square and stop at the edge or at the first occupied square, which is included. King and knight use offset tables whose out-of-range coordinates become `null`. `reversePositions` drops any pair holding a `null` and turns the column-first working pairs back into row-first squares. Rook, bishop and queen are built from the rays. The pawn generator combines its forward steps with `pawnKill`'s diagonals.
- **Threat scan** (`simulate`). It collects the moves of every non-king piece of one colour and looks for the other colour's king among them. The id it marks on the page is returned as data.
- **Board-state reducer.** It has one replace-a-field transition per `SET_*` action, plus `RESET` and a no-op default.
- **Pure decisions of the two components**:
  - the turn gate, the `moved` heuristic and the generator dispatch of `playPiece`;
  - the occupancy list and `setColor`;
  - the chequered pattern of `createBoard`;
  - `canReset` and the markers `determineDropLocation` puts on candidate squares;
  - the relocation done by `movePiece`;
  - the kill sweep and kill-list routing of `handleDrop`, and the per-square piece filter.

Modules follow the source files: `Types` (`src/types/index.ts`), `Movements`, `Simulate`, `BoardReducer`, `SquareView` (`Square.tsx`) and `BoardView` (`Board.tsx`).

**Conventions.**

- A square is `Square(row, col)`. Row 0 is the top edge.
- The generators' working pairs are `RawPair(x, y)`, column first, with `None` for `null`.
- Occupancy is a `seq<Square>`. The source keeps `JSON.stringify([row, col])` strings, and that encoding is injective on integer pairs, so string membership is square membership.
- `initialPosition` comes from a data file that is not part of this model. It is the parameter `initial` wherever the source reads it.

**Behaviour of the code worth knowing.**

- Each pawn forward square is filtered on its own, so a blocked first step does not remove the two-step square (`Movements.PawnSecondStepSurvivesBlockedFirst`).
- `pawnKill` takes its argument column first, unlike the other generators. `pawnMove` passes it `[x, y]` and reads its results column first, so the two transpositions cancel. The pawn's captures are the forward diagonals (`Movements.PawnMoveSquares`).
- Relocation does not remove a captured piece from the position (`SquareView.OccupantSurvivesMove`). The captured piece stays first on its square, so that square's marker follows the captured piece's colour, not the capturer's (`BoardView.MarkerAfterCapture`).
- The kill sweep of a drop takes the first piece of every square marked for a kill, not only the target's. Each record is built from the render-time kill lists, so only the last token per list survives (`SquareView.KillSweep`).
- The threat mark goes on the scanning side's own king id, the scanning colour's letter followed by "k1" (`Simulate.Scan`, `Simulate.MarkIsNotOpponentKing`).
- Both king entries of the initial state look up `'wk1'`.

## Model

| member | source | states |
|---|---|---|
| Movements.ReversePositions | src/utils/Movements.ts:127-132 | A square is in the result exactly when its column-first pair is in the input, so every pair holding a `null` is dropped and the others are swapped. The result is never longer than the input, and is as long when no `null` occurs. |
| Movements.ReverseAllPresent | src/utils/Movements.ts:127-132 | Without `null`s, entry i of the result is entry i of the input with its components swapped, so the order is kept. |
| Movements.Ray | src/utils/Movements.ts:4-125 | A walker is empty exactly when its guard refuses the first step. Its entry k is the square k+1 steps out, so entries are consecutive, start next to the origin and never include it. Every entry but the last is unoccupied. |
| Movements.RayOnBoard | src/utils/Movements.ts:4-125 | From an on-board origin every square a walker lists is on the board. |
| Movements.RayEnd | src/utils/Movements.ts:4-125 | A walker's last square is either occupied (and included) or one from which its guard refuses to go on. |
| Movements.RaySquares | src/utils/Movements.ts:4-125 | A square is on a walker's path exactly when it lies some k >= 1 steps out, on the board, with every square before it free: an independent definition of the ray. |
| Movements.RookMoveSquares | src/utils/Movements.ts:183-190 | The rook reaches a square exactly when one of the up, down, right or left rays reaches it. |
| Movements.BishopMoveSquares | src/utils/Movements.ts:158-165 | The bishop reaches a square exactly when one of the four diagonal rays reaches it. |
| Movements.QueenMoveIsUnion | src/utils/Movements.ts:151-156 | The queen's list is the bishop's list followed by the rook's list, without deduplication. Its squares are the union of the two. |
| Movements.RookFromCornerEmpty | src/utils/Movements.ts:183-190 | On an empty board the rook on (0,0) gets exactly (1,0)..(7,0) then (0,1)..(0,7): the 14 other squares of its row and column. |
| Movements.RookFromCornerBlocked | src/utils/Movements.ts:35-49 | With (0,3) occupied the rook on (0,0) gets (1,0)..(7,0) then (0,1), (0,2), (0,3). The blocker is included and (0,4)..(0,7) are cut off. |
| Movements.KingMove | src/utils/Movements.ts:134-149 | From an on-board square the king gets exactly the on-board squares at Chebyshev distance 1. That is all 8 on an interior square, and never more than 8. |
| Movements.KnightMove | src/utils/Movements.ts:167-181 | From an on-board square the knight gets exactly the on-board squares a (1,2) or (2,1) jump away. That is all 8 when row and column are in 2..5. |
| Movements.DropOccupied | src/utils/Movements.ts:209-211 | A forward candidate survives exactly when its own square is not occupied. |
| Movements.PawnKill | src/utils/Movements.ts:220-237 | For an on-board pair, `pawnKill` returns at most two pairs. In the pair's own order, the first entry is one off either way and the second is one step in the pawn's direction, all on the board. |
| Movements.Captures | src/utils/Movements.ts:212-216 | A pair from `pawnKill` is pushed exactly when the square it names, read column first, is occupied. |
| Movements.PawnForwardSquares | src/utils/Movements.ts:198-211 | The forward candidates are one step when `moved` and up to two otherwise, +row from the top and -row from the bottom. Each is kept exactly when it is on the board and its own square is free. |
| Movements.CaptureSquares | src/utils/Movements.ts:212-216 | A diagonal is offered exactly when it is one row forward, one column aside, on the board and occupied. |
| Movements.PawnMoveSquares | src/utils/Movements.ts:192-218 | The pawn's squares are exactly the free forward squares and the occupied forward diagonals. |
| Movements.PawnSecondStepSurvivesBlockedFirst | src/utils/Movements.ts:209-211 | An unmoved pawn on (6,4) with (5,4) occupied still gets (4,4), and nothing else. |
| Simulate.FirstKing | src/utils/simulate.ts:13-16 | The looked-up king square is absent exactly when no king of that colour exists. Otherwise it is the square of the first such king in board order. |
| Simulate.AllMoves | src/utils/simulate.ts:19-37 | A square is collected exactly when it is among the generator output of some non-king piece of the scanning colour. |
| Simulate.AllMovesAppend | src/utils/simulate.ts:24-37 | The collected moves of a board split in two are the first part's moves followed by the second part's. |
| Simulate.OnePieceContribution | src/utils/simulate.ts:20-37 | A piece of the scanning colour that is not a king adds exactly its generator output, with pawns using `pawnMoved` and "is black". Any other piece adds nothing. |
| Simulate.Scan | src/utils/simulate.ts:18-48 | `threatened` holds exactly when the opponent king's square is among some scanning piece's moves. An id is marked exactly when threatened, and it is the scanning colour's letter followed by "k1": the scanning side's own king. |
| Simulate.MarkIsNotOpponentKing | src/utils/simulate.ts:43-46 | The marked id is never the id of the king that is under threat. |
| BoardReducer.InitialState | src/utils/boardReducer.ts:9-21 | The initial state holds the initial position, `whiteMoved` false, `firstUpdate` true, empty occupancy and kill lists, and one blank colour entry. Its two king entries are equal, present exactly when a piece "wk1" exists, and then hold the square of the first such piece, so the black entry holds the white king's square. |
| BoardReducer.Reduce | src/utils/boardReducer.ts:38-61 | A `SET_*` action gives its named field the payload and leaves every other field as it was. `RESET` yields the initial state, and an unknown action yields the state unchanged. |
| BoardReducer.SetIdempotent | src/utils/boardReducer.ts:40-55 | Applying the same `SET_*` action twice equals applying it once. |
| BoardReducer.LastSetWins | src/utils/boardReducer.ts:40-55 | Of two successive sets of one field, the second payload wins. |
| BoardReducer.DistinctSetsCommute | src/utils/boardReducer.ts:40-55 | Sets of two different fields commute. |
| BoardReducer.ToggleTwiceRestores | src/components/Board.tsx:172 | Dispatching `SET_WHITE_MOVED` with `!whiteMoved` twice restores the original state. |
| Types.FindById | src/components/Square.tsx:35 | The lookup `find` yields nothing exactly when no piece has the id. Otherwise it yields the first piece in board order that has it. |
| SquareView.WithoutId | src/components/Square.tsx:37 | The filter keeps exactly the pieces with a different id and never grows the board. |
| SquareView.WithoutUniqueId | src/components/Square.tsx:37 | With unique ids, filtering out piece k's id leaves the board with exactly piece k cut out. |
| SquareView.MovePiece | src/components/Square.tsx:35-40 | Without a piece of that id the board is unchanged. Otherwise the mover is last, with the same id, a title taken from a piece of that id, the drop square as its value and no `moved` flag. Every other piece is kept. |
| SquareView.MovePieceUnique | src/components/Square.tsx:35-39 | With unique ids relocation keeps the board's length and the other pieces' values and relative order, and appends the mover at the drop square. |
| SquareView.PiecesAt | src/components/Square.tsx:104 | A square shows exactly the pieces whose value is that square. |
| SquareView.OccupantSurvivesMove | src/components/Square.tsx:37-38 | A piece already on the drop square is not removed. After the move the square shows both it and the mover. |
| SquareView.MoveAndScan | src/components/Square.tsx:34-43 | A drop changes only the position (relocated as above) and the turn flag (flipped), even when no piece has the id. Its scan result, both the threatened flag and the marked id, is the scan of the position, turn and occupancy from before the move. |
| SquareView.TokenRoutedByColour | src/components/Square.tsx:71-76 | A captured piece's token, its title plus 'W' or 'B', goes to the white-killed list exactly when its id contains a 'w'. |
| SquareView.KillDispatchAppends | src/components/Board.tsx:170-171 | One kill dispatch appends the token to the list its last letter picks, leaves the other list alone, and changes no position, turn or occupancy. |
| SquareView.LastRouted | src/components/Square.tsx:69-80 | The result is absent exactly when no token goes to the list. Otherwise it is a token that goes to the list with no later token going there. |
| SquareView.KillSweep | src/components/Square.tsx:66-82 | After sweeping the marked squares' tokens, each kill list is its render-time value plus the last token routed to it, if any. Every other field is unchanged, and neither list grows by more than one. |
| BoardView.LifterIsScannedKingSide | src/components/Board.tsx:229-233 | A piece may be lifted exactly when its colour letter is the one the next scan looks up as the opponent king's: 'w' while `whiteMoved` is false, 'b' while it is true. |
| BoardView.PlayPiece | src/components/Board.tsx:223-269 | No candidates are computed when the gate refuses. A name outside the six piece names gives an empty list. |
| BoardView.PlayPieceMatchesScan | src/components/Board.tsx:241-266 | A liftable piece of a known kind is offered exactly its generator output. The `moved` flag equals `pawnMoved`, the pawn direction is "id starts with 'b'", and only the sliding pieces and the pawn get the occupancy. |
| BoardView.LeapersIgnoreOccupancy | src/components/Board.tsx:246-258 | King and knight candidates do not depend on occupancy. |
| BoardView.Occupancy | src/components/Board.tsx:114-118 | The occupancy list has one entry per piece, in board order, each the piece's square. |
| BoardView.OccupancyMatchesRender | src/components/Board.tsx:117 | A square is listed as occupied exactly when it shows some piece. |
| BoardView.SetColor | src/components/Board.tsx:142-150 | The result depends only on the last colour entry. It is that entry's colour when its id matches, the given colour otherwise, and '' for an empty list. |
| BoardView.CreateBoard | src/components/Board.tsx:184-190 | There are 64 cells in row order, and cell (i,j) is brown exactly when i+j is even, white otherwise. |
| BoardView.ResetHidesButton | src/components/Board.tsx:377-379 | After `RESET` the position equals the initial one, so the reset button is hidden. |
| BoardView.MoveChangesPosition | src/components/Board.tsx:377-379 | With unique ids, moving a piece to a different square always yields a position different from before. |
| BoardView.DropMarker | src/components/Board.tsx:280-309 | Off-board squares get nothing. A square with no piece gets the plain marker. On an occupied square the first piece in board order decides: the kill marker exactly when its colour letter differs from the lifted piece's, no marker otherwise. |
| BoardView.FirstRendered | src/components/Square.tsx:103-104 | The first element a square renders is the first piece in board order standing on it. |
| BoardView.FirstAtAfterMove | src/components/Square.tsx:37-38 | With unique ids, relocating another piece onto a square keeps that square's first occupant first, shifted down by one when the mover stood before it. |
| BoardView.MarkerAfterCapture | src/components/Board.tsx:300-305 | After a capture the marker on the drop square is decided by the captured piece, not the capturer: the kill marker exactly when the captured piece's colour letter differs from the lifted piece's. |
| BoardView.OccupiedMarker | src/components/Board.tsx:300-305 | A square held only by pieces of the other colour letter gets the kill marker. One held only by the lifted piece's letter gets none. |

## Left out

- DOM work is not modelled: creating highlight elements, removing and setting classes, and `setAttribute` on the threatened king. Only the decisions behind them are modelled, as return values.
- React hooks, `useLayoutEffect`/`setTimeout` sequencing and the `async`/`await` order of `movePiece` are not modelled, nor is the handling of the first-update flag. They are event-loop plumbing.
- `flipBoard` returns at once, and board rotation and `window.location.reload` are presentation only.
- `console.log` calls are not modelled.
- `Piece.tsx` and `KilledPieces.tsx` only map icons. Only the `data-piece` token (title plus 'W'/'B') is modelled, in `SquareView.PieceToken`.
- The Redux slice and store are glue. Their `undo`/`redo` read a history nothing fills.
- `changeColor` is not modelled: it filters on a `position` prop the squares never carry, so it dispatches nothing.
- The contents of the initial layout are not part of this model. The layout is the parameter `initial`, and no 32-piece layout is assumed.
- JSON serialisation is not modelled. Occupancy strings are squares, and `canReset` compares the positions themselves. Square keys (`"[i,j]"`) are not built.
- SquareView.KillSweep: takes the tokens of the squares marked for a kill as a parameter. Which squares carry the mark is DOM state left by `determineDropLocation`, and the removal of the first element and of the class are not modelled.
- Which drops reach `movePiece` is not modelled. `handleDrop` decides that from the classes on the target square, which is DOM state. The model starts at `movePiece` and at the routing of a captured token.
- `playPiece` reads the square from the `data-position` attribute with `split`/`parseInt`. The model takes the square directly.
- A piece whose title names no icon renders no element, so `determineDropLocation` would see no child on its square. `BoardView.DropMarker` treats every piece on the square as rendered.
- BoardView.DropMarker decides each square from the position alone. It does not look at elements an earlier candidate may already have appended to that square.
- Simulate.Scan: requires the opponent king to exist and every scanning piece to name a generator. In the source either failure throws (spreading `undefined`, calling an undefined `moves` entry), and the model does not represent the exception.
- The scan writes nothing. Leaving `position` and `occupied` unmodified holds by construction, since every operation here is a pure function.
- BoardView.PlayPiece: its own contract covers only the gate and unknown names. The per-kind dispatch is stated by `BoardView.PlayPieceMatchesScan` and `BoardView.LeapersIgnoreOccupancy`.
- Action payloads are typed per action. The source's `payload: any` could put a value of the wrong type into a field, and that case is not representable.
