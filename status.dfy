/** The status line of `updateGameStatus` and `checkTimeExpired`. */
module Status {
  import opened Pieces
  import opened Engine

  datatype Status =
    | Checkmate(winner: Color)
    | Drawn
    | Check
    | Turn(side: Color)
    | TimeUp(winner: Color)

  /**
   * The text shown in the status element. The two "wins!" messages name the winner
   * after their eleven-character opening, and the turn message starts with the side.
   */
  function StatusText(s: Status): (t: string)
    ensures s.Checkmate? || s.TimeUp? ==>
      |t| == 22 && t[11..16] == ColorName(s.winner) && t[16..] == " wins!"
    ensures s.Turn? ==> |t| == 12 && t[..5] == ColorName(s.side) && t[5..] == "'s turn"
  {
    match s
    case Checkmate(w) => "Checkmate! " + ColorName(w) + " wins!"
    case Drawn => "Game drawn!"
    case Check => "Check!"
    case Turn(side) => ColorName(side) + "'s turn"
    case TimeUp(w) => "Time's up! " + ColorName(w) + " wins!"
  }

  /**
   * `updateGameStatus`'s choice: checkmate first, then draw, then check, then whose turn
   * it is. A checkmated side is the side to move, so the other side is named the winner.
   */
  function SelectStatus(e: EngineView): (s: Status)
    ensures s.Checkmate? <==> e.inCheckmate
    ensures s.Drawn? <==> !e.inCheckmate && e.inDraw
    ensures s.Check? <==> !e.inCheckmate && !e.inDraw && e.inCheck
    ensures s.Turn? <==> !e.inCheckmate && !e.inDraw && !e.inCheck
    ensures s.Checkmate? ==> s.winner == Opponent(e.turn)
    ensures s.Turn? ==> s.side == e.turn
  {
    if e.inCheckmate then Checkmate(Opponent(e.turn))
    else if e.inDraw then Drawn
    else if e.inCheck then Check
    else Turn(e.turn)
  }

  /** The branches of `updateGameStatus` that call `stopTimer`. */
  predicate StopsClock(s: Status) {
    s.Checkmate? || s.Drawn?
  }

  /** Only a checkmate or a draw stops the clock; a check or an ordinary turn leaves it running. */
  lemma StopsClockExactly(e: EngineView)
    ensures StopsClock(SelectStatus(e)) <==> e.inCheckmate || e.inDraw
  {
  }

  /** Different statuses are shown with different texts. */
  lemma StatusTextInjective(a: Status, b: Status)
    ensures StatusText(a) == StatusText(b) <==> a == b
  {
    if StatusText(a) == StatusText(b) {
      // The length tells the kind apart except for the two "wins!" messages, whose first
      // letters differ; the letter after the first space names the side.
      StatusTextShape(a);
      StatusTextShape(b);
    }
  }

  lemma StatusTextShape(s: Status)
    ensures var t := StatusText(s);
      |t| == (match s
              case Checkmate(_) => 22
              case Drawn => 11
              case Check => 6
              case Turn(_) => 12
              case TimeUp(_) => 22)
      && t[0] == (match s
                  case Checkmate(_) => 'C'
                  case Drawn => 'G'
                  case Check => 'C'
                  case Turn(side) => ColorName(side)[0]
                  case TimeUp(_) => 'T')
      && (s.Checkmate? || s.TimeUp? ==> t[11] == ColorName(s.winner)[0])
  {
  }

  lemma StatusTextExamples()
    ensures StatusText(Checkmate(Black)) == "Checkmate! Black wins!"
    ensures StatusText(Turn(White)) == "White's turn"
    ensures StatusText(TimeUp(White)) == "Time's up! White wins!"
  {
  }
}
