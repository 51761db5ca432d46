/**
 * What the page sees of the chess rules library (chess.js). The library itself is not
 * part of this model: its answers about the current position are a value, and its
 * `move` call is a function parameter of the operations that use it.
 */
module Engine {
  import opened Pieces

  /**
   * The library's answers for one position: `turn()`, `in_checkmate()`, `in_draw()`,
   * `in_check()`, `history().length` and, per square name, `get(square)`.
   */
  datatype EngineView = EngineView(
    turn: Color,
    inCheckmate: bool,
    inDraw: bool,
    inCheck: bool,
    plies: nat,
    placement: map<string, Piece>)

  /** The argument of `chess.move({ from, to, promotion })`. */
  datatype MoveRequest = MoveRequest(from: string, to: string, promotion: PieceType)

  /**
   * The three ways `chess.move` can end: a move object (its SAN text, and the library's
   * answers for the position after it), a falsy result, or an exception.
   */
  datatype MoveOutcome = Applied(san: string, after: EngineView) | Rejected | Threw
}
