/**
 * The page's own mutable state and the handlers that change it: the two clocks and
 * the interval, the dragged square, the rendered board, the move list and the status
 * line. The rules library is reached only through `EngineView` values and a `move`
 * function parameter.
 */
module Page {
  import opened Wrappers
  import opened Text
  import opened Pieces
  import opened Board
  import opened Clock
  import opened Engine
  import opened Status

  /** The full-move number shown for a history of `plies` half-moves: `ceil(plies / 2)`. */
  function MoveNumber(plies: nat): (n: nat)
    ensures plies <= 2 * n < plies + 2
  {
    (plies + 1) / 2
  }

  /** A White move and Black's reply carry the same number. */
  lemma MovePairShareNumber(plies: nat)
    requires plies % 2 == 1
    ensures MoveNumber(plies) == MoveNumber(plies + 1)
  {
  }

  /** The number goes up by one every two half-moves. */
  lemma MoveNumberAdvances(plies: nat)
    ensures MoveNumber(plies + 2) == MoveNumber(plies) + 1
  {
  }

  /** One line of the move list: the move number, a dot, a space and the move's SAN. */
  function MoveEntry(plies: nat, san: string): (line: string)
    ensures var number := NatToString(MoveNumber(plies));
      |line| == |number| + 2 + |san| && line[..|number|] == number
      && line[|number|..|number| + 2] == ". " && line[|number| + 2..] == san
  {
    NatToString(MoveNumber(plies)) + ". " + san
  }

  /** What `handleDrop` did. */
  datatype DropResult =
    | NoSelection   // no square was being dragged: reading `selectedSquare` throws before the move
    | Moved         // the library accepted the move
    | NotMoved      // the library returned a falsy result or threw

  class ChessPage {
    /** The rules library's answers for the current position. */
    var engine: EngineView
    /** The cells `updateBoard` last drew. */
    var board: seq<Cell>
    /** The lines of the move-history element, oldest first. */
    var moveLog: seq<string>
    /** The content of the status element. */
    var status: Status
    var whiteTime: int
    var blackTime: int
    /** Whether the one-second interval is installed. */
    var running: bool
    /** The square being dragged (`selectedSquare`), by its `data-position` name. */
    var selected: Option<string>

    function ClockState(): Clocks
      reads this
    {
      Clocks(whiteTime, blackTime, running)
    }

    ghost predicate Valid()
      reads this
    {
      ClockInvariant(ClockState()) && board == BoardCells(engine.placement)
    }

    /** `initGame`: draw the board, start both clocks at 10:00 and show the status. */
    constructor (start: EngineView)
      ensures Valid()
      ensures engine == start && moveLog == [] && selected == None
      ensures whiteTime == InitialSeconds && blackTime == InitialSeconds
      ensures status == SelectStatus(start) && running == !StopsClock(status)
    {
      engine := start;
      moveLog := [];
      selected := None;
      whiteTime, blackTime := InitialSeconds, InitialSeconds;
      status := Turn(start.turn);
      running := true;
      new;
      board := RenderBoard(engine.placement);
      UpdateGameStatus();
    }

    /** `updateGameStatus`: show the selected status; stop the clock on checkmate or draw. */
    method UpdateGameStatus()
      requires Valid()
      modifies this`status, this`running
      ensures Valid()
      ensures status == SelectStatus(engine)
      ensures running == (old(running) && !StopsClock(status))
    {
      status := SelectStatus(engine);
      if StopsClock(status) {
        StopTimer();
      }
    }

    /** `stopTimer`: remove the interval. */
    method StopTimer()
      requires Valid()
      modifies this`running
      ensures Valid() && !running
    {
      running := false;
    }

    /** `updateClocks`: the two clock texts. */
    function ClockTexts(): (texts: (string, string))
      reads this
      requires Valid()
      ensures texts == (FormatTime(whiteTime), FormatTime(blackTime))
      ensures ParseTime(texts.0) == Some(whiteTime) && ParseTime(texts.1) == Some(blackTime)
    {
      FormatTimeRoundTrip(whiteTime);
      FormatTimeRoundTrip(blackTime);
      (FormatTime(whiteTime), FormatTime(blackTime))
    }

    /**
     * One run of the interval callback: the side to move loses a second, then
     * `checkTimeExpired` stops the clock and names the winner once a side is out of time.
     */
    method Tick()
      requires Valid() && running
      modifies this`whiteTime, this`blackTime, this`running, this`status
      ensures Valid()
      ensures ClockState() == Clock.Tick(old(ClockState()), engine.turn)
      ensures status == if running then old(status) else TimeUp(Opponent(engine.turn))
    {
      TickKeepsInvariant(ClockState(), engine.turn);
      if engine.turn == White {
        whiteTime := whiteTime - 1;
      } else {
        blackTime := blackTime - 1;
      }
      CheckTimeExpired();
    }

    /** `checkTimeExpired`: once a counter is at or below zero, stop and announce the winner. */
    method CheckTimeExpired()
      modifies this`running, this`status
      ensures TimeUpWinner(ClockState()).Some? ==>
        !running && status == TimeUp(TimeUpWinner(ClockState()).value)
      ensures TimeUpWinner(ClockState()).None? ==> running == old(running) && status == old(status)
    {
      var winner := TimeUpWinner(ClockState());
      if winner.Some? {
        running := false;
        status := TimeUp(winner.value);
      }
    }

    /** `handleDragStart`: remember the square being dragged. */
    method HandleDragStart(square: string)
      modifies this`selected
      ensures selected == Some(square)
    {
      selected := Some(square);
    }

    /**
     * `handleDrop`: ask the library to move from the dragged square to the drop square,
     * always promoting to a queen. Only an accepted move redraws the board, appends to the
     * move list and refreshes the status; the selection is cleared in every case that
     * reaches the end of the handler, and is already empty in the one that does not.
     */
    method HandleDrop(to: string, move: MoveRequest -> MoveOutcome) returns (result: DropResult)
      requires Valid()
      modifies this
      ensures Valid() && selected == None
      ensures whiteTime == old(whiteTime) && blackTime == old(blackTime)
      ensures old(selected).None? ==>
        result == NoSelection && engine == old(engine) && board == old(board)
        && moveLog == old(moveLog) && status == old(status) && running == old(running)
      ensures old(selected).Some? ==>
        var outcome := move(MoveRequest(old(selected).value, to, Queen));
        if outcome.Applied? then
          result == Moved && engine == outcome.after
          && moveLog == old(moveLog) + [MoveEntry(outcome.after.plies, outcome.san)]
          && status == SelectStatus(outcome.after)
          && running == (old(running) && !StopsClock(status))
        else
          result == NotMoved && engine == old(engine) && board == old(board)
          && moveLog == old(moveLog) && status == old(status) && running == old(running)
    {
      if selected.None? {
        return NoSelection;
      }
      var outcome := move(MoveRequest(selected.value, to, Queen));
      if outcome.Applied? {
        engine := outcome.after;
        board := RenderBoard(engine.placement);
        moveLog := moveLog + [MoveEntry(engine.plies, outcome.san)];
        UpdateGameStatus();
        result := Moved;
      } else {
        result := NotMoved;
      }
      selected := None;
    }
  }
}
