# Connect Four server: game engine model

This project models the game engine of a two-player Connect Four server, the class
`GamePlay` in `1_ConnectFourServer/src/code/CFServer.java`. The engine keeps a board of
48 cells (6 rows of 8 columns, cell index = row * 8 + column) and the player whose turn
it is. It resolves a move request by dropping the mover's mark into the lowest free
cell of the requested column. It tests the board for four in a row and for
exhaustion, and it sends each side its result lines.

Modules:

- `Board` (board.dfy) holds the sides RED and BLUE and the cells, where `Empty` stands
  for the server's `null`. It also holds the four families of windows that `hasWon`
  scans (`HasFour`). Beside them is an independent reference definition in grid terms
  (`FourInLine`: four consecutive cells in any of the eight compass directions). A lemma
  proves the two definitions are equivalent.
- `Rules` (rules.dfy) states what `validMove` does, as a function on values (`Attempt`),
  and what every sequence of requests preserves. Turns alternate, starting with RED.
  RED's and BLUE's mark counts stay balanced. Columns fill from the bottom. Marked
  cells are never changed. A line of four, once made, persists.
- `Protocol` (protocol.dfy) renders an index as decimal text and builds the lines sent
  to the mover (`MOVE_CORRECT<n>`, then `WIN`/`TIE`/empty, or `MSG ?`) and to the
  rival (`RIVAL_MOVED <n>`, then `LOSS`/`TIE`/empty).
- `GamePlay` (gameplay.dfy) is the server object as a class. `matrix` is an
  `array<Cell>` and `curr` is the side to move. `HasWon`, `MatrixExhausted` and
  `ValidMove` keep the server's loops and early returns. Each is proved against the
  functions above. `Move` is one request handled from start to finish: the move, then
  both sides' lines.
- `Scenarios` (scenarios.dfy) holds concrete games. The first move lands in cell 40.
  A request out of turn is refused. A column of four wins, and the next move after a
  win is still accepted.

The two players are wired to each other as rivals (CFServer.java:50-51). So "the rival"
is modelled as the other side, and `currPlayer = currPlayer.rival` becomes
`curr := Rival(curr)`.

The server has no finished state, and the model follows it:

- `validMove` keeps accepting requests after a win. `hasWon` does not say who holds the
  line, so after a win every later mover is told `WIN` and every rival `LOSS`
  (`Rules.WinPersists`, `Scenarios.ColumnOfFour`).
- After a tie the board is exhausted, so every later request is refused with `MSG ?`
  (`Rules.FullBoardRefusesEveryRequest`).
- When neither a win nor a tie occurred, the second line is empty.

## Model

| member | source | states |
|---|---|---|
| `Board.Rival` | 1_ConnectFourServer/src/code/CFServer.java:50-51 | a side's rival is the other side |
| `Board.EmptyBoard` | 1_ConnectFourServer/src/code/CFServer.java:75-81 | the initial board has 48 cells, all unmarked |
| `Board.SingleMarkHasNoFour` | 1_ConnectFourServer/src/code/CFServer.java:91-143 | a board with at most one marked cell holds no line of four in any scanned window |
| `Board.EmptyBoardHasNoFour` | 1_ConnectFourServer/src/code/CFServer.java:75-155 | the initial board holds no line of four in any scanned window and has at least one unmarked cell. |
| `Board.HasFourIffFourInLine` | 1_ConnectFourServer/src/code/CFServer.java:91-143 | the four window families (horizontal rows 0-5 and columns 0-4; vertical rows 0-2; ascending rows 3-5 and columns 0-4; descending rows 3-5 and columns 3-7) find a line exactly when four same-side cells are consecutive in some direction on the 6x8 grid, in both directions of the equivalence |
| `Board.LineHasWindow` | 1_ConnectFourServer/src/code/CFServer.java:91-143 | each of the eight directions of a line is a scanned window, read forwards or backwards |
| `Board.WinIsStable` | 1_ConnectFourServer/src/code/CFServer.java:91-143 | a board that keeps every mark of a won board is still won |
| `Rules.ScanFrom` | 1_ConnectFourServer/src/code/CFServer.java:179-187 | the upward scan answers an empty cell of the column, between the submitted cell and its start, with every scanned cell below it marked; or -1 when every scanned cell is marked |
| `Rules.Landing` | 1_ConnectFourServer/src/code/CFServer.java:175-188 | the landing cell is in the submitted column, at or below the submitted row and at or above the bottom row, was empty, and every candidate below it is marked; -1 exactly when every candidate is marked; always -1 for an index of 48 or more |
| `Rules.LandingIsLowestEmpty` | 1_ConnectFourServer/src/code/CFServer.java:179-185 | an empty candidate with every lower candidate marked is the landing cell, so the answer is unique |
| `Rules.Attempt` | 1_ConnectFourServer/src/code/CFServer.java:174-189 | a request is refused (-1, nothing changes) exactly when the requester is not the player to move or every candidate is marked; otherwise only the lowest empty candidate changes, it gets the mover's mark, and the turn passes to the rival |
| `Rules.AlternatesCons` | 1_ConnectFourServer/src/code/CFServer.java:183 | a side followed by an alternation starting with its rival is an alternation starting with that side |
| `Rules.TurnsAlternate` | 1_ConnectFourServer/src/code/CFServer.java:180-183 | over any sequence of requests, the accepted movers alternate, starting with the side to move, and the final turn follows the parity of the accepted moves |
| `Rules.RedThenBlue` | 1_ConnectFourServer/src/code/CFServer.java:47-53 | from a fresh game, RED makes the even-numbered accepted moves and BLUE the odd ones |
| `Rules.AttemptKeepsBalance` | 1_ConnectFourServer/src/code/CFServer.java:179-183 | one request keeps RED's mark count equal to BLUE's, plus one when BLUE is to move |
| `Rules.RunKeepsBalance` | 1_ConnectFourServer/src/code/CFServer.java:179-183 | any sequence of requests keeps that balance |
| `Rules.MarksStayBalanced` | 1_ConnectFourServer/src/code/CFServer.java:47-53 | every board reachable from a fresh game is balanced |
| `Rules.AttemptKeepsBottomFilled` | 1_ConnectFourServer/src/code/CFServer.java:179-182 | if every marked cell above the bottom row rests on a marked cell, one request keeps it so |
| `Rules.RunKeepsBottomFilled` | 1_ConnectFourServer/src/code/CFServer.java:179-182 | any sequence of requests keeps columns filled from the bottom |
| `Rules.ColumnsFillFromBottom` | 1_ConnectFourServer/src/code/CFServer.java:75-81 | every reachable board has its columns filled from the bottom |
| `Rules.FullBoardRefusesEveryRequest` | 1_ConnectFourServer/src/code/CFServer.java:148-189 | on an exhausted board every request is refused with -1 and the game is unchanged |
| `Rules.RunExtends` | 1_ConnectFourServer/src/code/CFServer.java:179-182 | no sequence of requests clears or overwrites a marked cell |
| `Rules.WinPersists` | 1_ConnectFourServer/src/code/CFServer.java:174-189 | once a line of four is on the board, it is there after any further requests (there is no finished state) |
| `Rules.TopOfColumnEmpty` | 1_ConnectFourServer/src/code/CFServer.java:179-182 | on a bottom-filled board, any empty cell has an empty top cell in its column |
| `Rules.MoveAvailableIffNotFull` | 1_ConnectFourServer/src/code/CFServer.java:148-189 | on a bottom-filled board, the side to move has an accepted request for some column's top cell exactly when the board is not exhausted |
| `Protocol.Digits` | 1_ConnectFourServer/src/code/CFServer.java:265 | an index is written as decimal digits with no leading zero; 0 is written as the single digit `0` |
| `Protocol.ValueOfDigits` | 1_ConnectFourServer/src/code/CFServer.java:265 | reading the decimal text back gives the index |
| `Protocol.MoverLines` | 1_ConnectFourServer/src/code/CFServer.java:264-271 | a refused request gets `MSG ?`; an accepted one gets `MOVE_CORRECT` glued to the canonical decimal of the filled cell (digits that read back as it), then `WIN` iff won, `TIE` iff exhausted and not won, the empty line otherwise |
| `Protocol.RivalLines` | 1_ConnectFourServer/src/code/CFServer.java:239-243 | the rival gets `RIVAL_MOVED ` followed by the canonical decimal of the filled cell (digits that read back as it), then `LOSS` iff won, `TIE` iff exhausted and not won, the empty line otherwise |
| `GamePlay.Game.constructor` | 1_ConnectFourServer/src/code/CFServer.java:75-81 | a new game has a fresh 48-cell matrix, all unmarked, with RED to move (RED is made current at line 52) |
| `GamePlay.Game.HasWon` | 1_ConnectFourServer/src/code/CFServer.java:91-143 | the nested scans answer true exactly when some window holds four equal marked cells; every index they read lies in 0..47 |
| `GamePlay.Game.MatrixExhausted` | 1_ConnectFourServer/src/code/CFServer.java:148-155 | true exactly when no cell is unmarked |
| `GamePlay.Game.ValidMove` | 1_ConnectFourServer/src/code/CFServer.java:174-189 | the in-place scan answers and leaves exactly the cell and the new game that `Attempt` specifies |
| `GamePlay.Game.Move` | 1_ConnectFourServer/src/code/CFServer.java:261-271 | one request: the move as `Attempt`, the mover's lines and, on acceptance only, the rival's lines, both judged on the board after the move |
| `Scenarios.FirstMoveDropsToBottom` | 1_ConnectFourServer/src/code/CFServer.java:174-189 | RED's first request for cell 0 fills cell 40; judged on the board it leaves (no line of four, not exhausted), the lines are `MOVE_CORRECT40` and `RIVAL_MOVED 40`, each followed by an empty line |
| `Scenarios.OutOfTurnRequestRefused` | 1_ConnectFourServer/src/code/CFServer.java:179-188 | BLUE requesting on RED's turn is refused with `MSG ?` and nothing changes |
| `Scenarios.BeyondBoardRefused` | 1_ConnectFourServer/src/code/CFServer.java:175-188 | in any game and from either side, a request for an index of 48 or more is refused and nothing changes |
| `Scenarios.CandidatesOfTopCell` | 1_ConnectFourServer/src/code/CFServer.java:175-179 | for a top-row cell p, a cell is a candidate of the scan exactly when it is on the board and in column p. |
| `Scenarios.DropOnColumn` | 1_ConnectFourServer/src/code/CFServer.java:179-185 | a request for a column's top cell fills the empty cell of that column whose lower cells are all marked, and passes the turn |
| `Scenarios.StackingReachesStacked` | 1_ConnectFourServer/src/code/CFServer.java:174-189 | alternating requests for cells 0 and 1 stack RED's marks in cells 40, 32, 24 and BLUE's in 41, 33, 25, with RED to move |
| `Scenarios.FourthMarkWins` | 1_ConnectFourServer/src/code/CFServer.java:108-124 | RED's fourth request for column 0 fills cell 16 and the board then holds a vertical line |
| `Scenarios.MoveAfterWinAccepted` | 1_ConnectFourServer/src/code/CFServer.java:174-189 | after that win, BLUE's request for column 1 is still accepted (cell 17) and the board is still won |
| `Scenarios.ColumnOfFour` | 1_ConnectFourServer/src/code/CFServer.java:108-124 | four RED marks stacked in column 0 win, judged on the board after the move (RED `WIN`, BLUE `LOSS`); BLUE's next move is still accepted, its board still holds a line of four, and BLUE is told `WIN` and RED `LOSS` |

## Left out

- `GamePlay.Game.ValidMove`: requires a non-negative position. The client only sends 0..47, but the server does not check. Negative positions behave in three ways that the model does not capture:
  - Java's `%` truncates toward zero, so for a negative position that is not a multiple of 8 the scan starts at `position % 8 + 40`, one of cells 33..39. That is row 4, one row above the bottom, in column `8 + position % 8`; for example -9 behaves like -1. From the player to move, `MOVE -1` on an empty board is accepted and marks cell 39 while cell 47 below it stays empty.
  - From the player to move, if every scanned cell is marked, the scan goes on to its first negative index and throws. That index is `position % 8` (-7..-1), or -8 for a negative multiple of 8 once column 0 is full. The test reads a cell only after finding the requester is the player to move (CFServer.java:180), so for the other player no cell is read: the scan ends with -1 and `MSG ?`, except below `Integer.MIN_VALUE + 8` (next bullet).
  - For a position below `Integer.MIN_VALUE + 8` from the player not to move, the check `k >= position` never fails and `k -= 8` wraps around. The loop never ends, and it holds the `synchronized` lock of `validMove`.
- `Rules.Attempt`: requires a non-negative position, for the same reasons.
- `Rules.ColumnsFillFromBottom`: holds for non-negative requests only (`Request.position` is a `nat`). A negative request such as `MOVE -1` can mark a cell above an empty one, as described for `ValidMove`. `Rules.RunKeepsBottomFilled`, `Rules.MoveAvailableIffNotFull` and `Rules.RedThenBlue` assume the same.
- Parsing the request line: `ins.startsWith("MOVE")` and `Integer.parseInt(ins.substring(5))`. The request arrives as an integer; a malformed number raises an uncaught exception in the server thread.
- `GamePlay.Game.Move`: the move and both sides' lines are one atomic step. In the server, `rivalMoved` runs inside the synchronized `validMove`. The mover's `hasWon()`/`matrixExhausted()` run again outside the lock, where the other thread could interleave. That concurrency is not modelled.
- Sockets, threads, the accept-and-pair loop in `main`, the greeting lines (`HELLO`, `MSG Waiting…`, `MSG All players have connected.`, `MSG Your move.`), `QUIT`, and the `MSG abort` path on an I/O error. These are I/O and thread mechanics, not game logic.
- The client, `1_ConnectFourClient/src/code/CFClient.java`. It is a GUI that displays the server's lines.
- Player identity is a `Side` value, not a thread object. The two `Player` objects of one game are distinct and each is the other's rival, so comparing objects by reference is comparing sides.
