# Chess page logic, modelled in Dafny

This project models the self-contained logic of the browser chess page `script.js`.
The page is a thin layer over the chess.js rules library. It draws the 8×8 board and
names and shades its squares. It shows each piece as a Unicode glyph and keeps two
ten-minute clocks that tick for the side to move. It picks the status line (checkmate,
draw, check or whose turn it is). When a dragged piece is dropped, it asks the library
to make the move, always promoting to a queen, and then updates the board, the move
list and the status.

The rules library is an oracle. `Engine.EngineView` holds its answers for the current
position: side to move, checkmate, draw, check, history length and the piece on each
square. Its `move` call is a function parameter `MoveRequest -> MoveOutcome` of the drop
handler. The outcome is a move (with its SAN text and the answers for the next
position), a falsy result, or an exception.

Modules, one per concern of `script.js`:

- `Text`: `Number.prototype.toString()` on non-negative integers (`NatToString`),
  `padStart` (`PadStart`), and the digit-string value (`DecimalValue`) that states what
  they produce.
- `Pieces`: the colours, the piece kinds and the glyph table of `getUnicodePiece`. The
  table is a nested map keyed by the library's one-letter codes, as in the source.
- `Board`: square names and shades, and `updateBoard`'s nested loops (`RenderBoard`).
  `RenderBoard` is proved equal to the reference sequence `BoardCells`.
- `Clock`: `formatTime`, and the timer tick followed by `checkTimeExpired` as a pure
  step function. `Run` is any sequence of ticks, and lemmas about it give the clock
  invariant.
- `Engine`: the view of the rules library described above.
- `Status`: `updateGameStatus`'s choice of status and the status texts.
- `Page`: the page's mutable state as the class `ChessPage`. Its methods model
  `initGame`, `updateGameStatus`, `stopTimer`, `updateClocks`, the interval callback,
  `checkTimeExpired`, `handleDragStart` and `handleDrop`. The move-number label
  (`MoveNumber`, `MoveEntry`) also lives here.

`script.js` has no move search: every move is relayed to the rules library.

## Model

| member | source | states |
|---|---|---|
| Text.NatToString | script.js:149 | the decimal text of `n`: all digits, worth exactly `n`, no leading zero except "0", one character exactly when `n < 10` |
| Text.PadStart | script.js:149 | `padStart`: the result is `width` long (or the input if longer), ends with the input and is filled with the pad character before it |
| Text.NatToStringUnique | script.js:149 | a digit string without a leading zero is exactly the `toString()` of its value |
| Text.ZeroPrefixValue | script.js:149 | leading zeros added by `padStart(2, '0')` do not change the value of the seconds field |
| Clock.FormatTime | script.js:146-150 | the text is a clock text (minutes with no leading zero, a colon, a two-digit seconds field below 60) and minutes × 60 + seconds equals the input |
| Clock.ParseTimeRoundTrip | script.js:146-150 | every clock text is exactly what `formatTime` shows for its value, so `formatTime` is a bijection onto clock texts |
| Clock.SecondsField | script.js:148-149 | the padded seconds field is exactly two digits and worth `seconds % 60` |
| Clock.FormatTimeRoundTrip | script.js:146-150 | reading a formatted clock text back gives the original second count |
| Clock.FormatTimeInjective | script.js:146-150 | two different second counts never show the same text |
| Clock.FormatTimeFull | script.js:6-7 | the starting allowance of 600 seconds shows as "10:00" |
| Clock.FormatTimeEmpty | script.js:146-150 | 0 seconds shows as "0:00" |
| Clock.FormatTimePadsSeconds | script.js:149 | a one-digit seconds field is zero-padded: 65 seconds show as "1:05" |
| Clock.StartClocks | script.js:6-7 | both counters start at 600 with the interval running, which satisfies the clock invariant |
| Clock.TimeUpWinner | script.js:152-157 | no winner while both counters are positive; otherwise the named winner's opponent is out of time, and Black wins whenever White is out |
| Clock.Tick | script.js:131-133 | a tick takes exactly one second from the side to move, leaves the other counter alone, and leaves the clock running exactly when no side has run out |
| Clock.TickKeepsInvariant | script.js:129-157 | from a valid running state a tick keeps both counters in 0..600; it stops the clock exactly when the mover had one second left, and then the mover is at 0 and its opponent wins |
| Clock.RunKeepsInvariant | script.js:129-134 | any sequence of ticks taken while running keeps the clock invariant and consumes no more seconds than ticks offered |
| Clock.RunStopsOnlyOnTime | script.js:152-157 | ticks alone stop the clock only when a side is out of time |
| Clock.RunFromStart | script.js:6-7 | from 10:00/10:00, counters stay in 0..600 and the clock runs exactly while nobody is out; once stopped, exactly one side is at 0 and the other is the winner |
| Pieces.Opponent | script.js:116 | the opponent of a side is the other side |
| Pieces.GetUnicodePiece | script.js:45-51 | every colour/type pair finds an entry, and the glyph reads back as exactly that piece |
| Pieces.UnicodePiecesTotal | script.js:46-49 | the table has exactly the colour codes `w`, `b`, each with exactly the six type codes |
| Pieces.PieceOfGlyphSound | script.js:47-48 | every glyph the reverse reading accepts is the glyph of the piece it returns |
| Pieces.GlyphInjective | script.js:47-48 | two pieces share a glyph if and only if they are the same piece |
| Pieces.WhiteAndBlackGlyphsDiffer | script.js:47-48 | no white glyph equals any black glyph |
| Board.SquareName | script.js:27 | a two-character name whose file letter is `'a' + col` and whose rank digit is `8 - row` |
| Board.SquareNameRoundTrip | script.js:27 | parsing a cell's square name gives back its row and column |
| Board.ParseSquareRoundTrip | script.js:27 | every name that parses is the square name of the cell it parses to |
| Board.SquareNameInjective | script.js:27 | two display cells share a name if and only if they are the same cell |
| Board.IsLightSquare | script.js:25 | a cell is drawn light exactly when its row and column have the same parity |
| Board.CellAt | script.js:24-35 | a cell carries its square name and shade, and shows a glyph exactly when the library has a piece there, namely the glyph of that piece |
| Board.CornerShades | script.js:25-27 | a8 and h1 are light, a1 and h8 are dark |
| Board.NeighboursDiffer | script.js:25 | orthogonally adjacent cells always have opposite shades |
| Board.ShadeFromName | script.js:25-27 | a square is light exactly when its file index plus its rank is even |
| Board.RenderBoard | script.js:19-42 | the nested row/column loops build exactly `BoardCells`: cell `8*row + col` is the square at that row and column |
| Board.BoardCellAt | script.js:24-35 | cell `i` has the name and shade of row `i / 8`, column `i % 8`, and shows a glyph exactly when the library has a piece on that square, that glyph reading back as the piece |
| Board.BoardEnds | script.js:22-27 | the first cell is a8 and the last is h1 |
| Board.BoardOrder | script.js:22-27 | any earlier cell has a higher rank, or the same rank and an earlier file |
| Board.BoardNamesDistinct | script.js:22-27 | the 64 cells carry 64 different names |
| Board.BoardCoversEverySquare | script.js:22-27 | every square name a1..h8 appears on the board, at its row-major index |
| Status.StatusText | script.js:114-126 | the two "wins!" texts name the winner after their eleven-character opening, and the turn text starts with the side to move |
| Status.SelectStatus | script.js:114-126 | checkmate before draw before check before the turn message, each if and only if the earlier ones fail; on checkmate the side not to move wins; the turn message names the side to move |
| Status.StopsClockExactly | script.js:114-126 | `StopsClock` holds of the chosen status, so `stopTimer` runs, if and only if the position is checkmate or a draw |
| Status.StatusTextInjective | script.js:114-126 | different statuses are shown with different texts |
| Status.StatusTextExamples | script.js:116 | the texts are "Checkmate! Black wins!", "White's turn" and "Time's up! White wins!" for those statuses |
| Page.MoveNumber | script.js:109 | the move number is `ceil(plies / 2)`: the least `n` with `2n >= plies` |
| Page.MovePairShareNumber | script.js:109 | a White move (odd ply count) and Black's reply share one number |
| Page.MoveNumberAdvances | script.js:109 | the number goes up by one every two half-moves |
| Page.MoveEntry | script.js:109 | a move-list line is the move number, ". " and the SAN text, in that order |
| Page.ChessPage.constructor | script.js:10-16 | both clocks start at 600 with the interval running, the board shows the start position, the move list and selection are empty, and the status is the one `SelectStatus` picks (stopping the clock if it is game over) |
| Page.ChessPage.UpdateGameStatus | script.js:114-126 | shows `SelectStatus` of the current position and stops the clock exactly on checkmate or draw |
| Page.ChessPage.StopTimer | script.js:137-139 | the interval is no longer running |
| Page.ChessPage.ClockTexts | script.js:141-144 | the two clock texts are exactly `FormatTime` of the white and black counters, and read back as those counters |
| Page.ChessPage.Tick | script.js:129-134 | the clock state becomes `Clock.Tick` of the old one for the side to move; when the clock stops, the status announces the mover's opponent as winner on time |
| Page.ChessPage.CheckTimeExpired | script.js:152-157 | once a counter is at or below zero the clock stops and the status names the winner; otherwise nothing changes |
| Page.ChessPage.HandleDragStart | script.js:54-59 | the dragged square becomes the selection |
| Page.ChessPage.HandleDrop | script.js:73-90 | the request always promotes to a queen; only an accepted move changes the position, board, move list, status and clock state; the selection is empty afterwards in every case; the clocks are untouched |

## Left out

- DOM work is not modelled: element creation, `innerHTML`, class lists, `draggable`, event listeners, and the drag-over, drag-end and highlighting handlers (script.js:20-41, 54-70, 93-105). `Board.Cell.glyph` being present is exactly where the source makes a square draggable.
- Real time is not modelled: `setInterval` and `clearInterval` become the boolean `running`, and each interval callback is one call of `Tick`.
- Page.ChessPage.Tick: requires `running`, because the callback runs only while the interval is installed.
- The chess.js library (`get`, `moves`, `move`, `history`, `in_checkmate`, `in_draw`, `in_check`, `turn`) is not part of this model. Its answers are the `EngineView` value, and `move` is a function parameter. Move legality is not modelled.
- Clock.FormatTime: takes only non-negative seconds. For negative inputs JavaScript's `Math.floor` and `%` give texts such as "-1:-1", but the clocks never go below zero (`Clock.RunFromStart`).
- The move list stores the text of each line; the HTML `<div>` wrapping is not modelled.
- The source has no check after a time-out. Moves can still be dropped, and `updateGameStatus` then replaces the "Time's up!" text. `HandleDrop` keeps this behaviour: it has no precondition on `running`.
- There is no minimax/alpha-beta move search in `script.js`, so none is modelled.
- The authentication route under `client/` is configuration, not page logic, and is not part of this model.
