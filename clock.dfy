/**
 * The two chess clocks: `formatTime`'s `m:ss` text, and the per-second tick of the
 * interval installed by `startTimer` followed by `checkTimeExpired`.
 */
module Clock {
  import opened Wrappers
  import opened Text
  import opened Pieces

  /** Each side starts with ten minutes. */
  const InitialSeconds: int := 600

  /**
   * An `m:ss` clock text: the minutes as a decimal with no leading zero, a colon, then
   * exactly two digits of seconds worth less than a minute.
   */
  predicate IsClockText(t: string) {
    |t| >= 4 && t[|t| - 3] == ':' && IsCanonicalDecimal(t[..|t| - 3])
    && AllDigits(t[|t| - 2..]) && DecimalValue(t[|t| - 2..]) < 60
  }

  /** The number of seconds a clock text shows: minutes times sixty plus seconds. */
  function ClockTextValue(t: string): nat
    requires IsClockText(t)
  {
    DecimalValue(t[..|t| - 3]) * 60 + DecimalValue(t[|t| - 2..])
  }

  /**
   * `formatTime`: whole minutes, a colon, then the remaining seconds padded to two digits.
   * The result is a clock text, and the time it shows is the input.
   */
  function FormatTime(seconds: nat): (r: string)
    ensures IsClockText(r) && ClockTextValue(r) == seconds
  {
    FormatTimeFields(seconds);
    NatToString(seconds / 60) + ":" + SecondsField(seconds % 60)
  }

  /** The facts `FormatTime` promises, for the text it builds. */
  lemma FormatTimeFields(seconds: nat)
    ensures var r := NatToString(seconds / 60) + ":" + SecondsField(seconds % 60);
      IsClockText(r) && ClockTextValue(r) == seconds
  {
    var mins, secs := seconds / 60, seconds % 60;
    assert mins * 60 + secs == seconds;
    var m, f := NatToString(mins), SecondsField(secs);
    JoinFields(m + ":" + f, m, f);
  }

  /** Where the two fields sit in `m:ss`. */
  lemma JoinFields(r: string, m: string, f: string)
    requires |m| >= 1 && |f| == 2
    ensures r == m + ":" + f <==>
      |r| >= 4 && r[|r| - 3] == ':' && r[..|r| - 3] == m && r[|r| - 2..] == f
  {
    if r == m + ":" + f {
      assert r[..|r| - 3] == m;
      assert r[|r| - 2..] == f;
    }
    if |r| >= 4 && r[|r| - 3] == ':' && r[..|r| - 3] == m && r[|r| - 2..] == f {
      assert r == r[..|r| - 3] + [r[|r| - 3]] + r[|r| - 2..];
    }
  }

  /** `secs.toString().padStart(2, '0')` for a seconds count below a minute. */
  function SecondsField(secs: nat): (f: string)
    requires secs < 60
    ensures |f| == 2 && AllDigits(f) && DecimalValue(f) == secs
  {
    var s := NatToString(secs);
    NatToStringBelowHundred(secs);
    var f := PadStart(s, 2, '0');
    var zeros := f[..|f| - |s|];
    assert f == zeros + s;
    ZeroPrefixValue(zeros, s);
    f
  }

  /** Reading a clock text back into seconds; `None` for any text that is not one. */
  function ParseTime(t: string): Option<nat> {
    if IsClockText(t) then Some(ClockTextValue(t)) else None
  }

  lemma FormatTimeRoundTrip(seconds: nat)
    ensures ParseTime(FormatTime(seconds)) == Some(seconds)
  {
  }

  /** Every clock text is the one `FormatTime` shows for its value. */
  lemma ParseTimeRoundTrip(t: string)
    requires ParseTime(t).Some?
    ensures FormatTime(ParseTime(t).value) == t
  {
    var m, f := t[..|t| - 3], t[|t| - 2..];
    var v := ClockTextValue(t);
    assert v / 60 == DecimalValue(m) && v % 60 == DecimalValue(f);
    NatToStringUnique(m);
    TwoDigitsUnique(SecondsField(v % 60), f);
    JoinFields(t, m, f);
  }

  /** Two different second counts never show the same text. */
  lemma FormatTimeInjective(a: nat, b: nat)
    ensures FormatTime(a) == FormatTime(b) <==> a == b
  {
    FormatTimeRoundTrip(a);
    FormatTimeRoundTrip(b);
  }

  /** The full clock shows 10:00. */
  lemma FormatTimeFull()
    ensures FormatTime(600) == "10:00"
  {
    ShowsAs("10", "00", 600);
  }

  /** An exhausted clock shows 0:00. */
  lemma FormatTimeEmpty()
    ensures FormatTime(0) == "0:00"
  {
    ShowsAs("0", "00", 0);
  }

  /** A single-digit seconds field is padded with a zero: 65 seconds show as 1:05. */
  lemma FormatTimePadsSeconds()
    ensures FormatTime(65) == "1:05"
  {
    ShowsAs("1", "05", 65);
  }

  /** The text shown for a count, from its two fields. */
  lemma ShowsAs(m: string, f: string, seconds: nat)
    requires IsCanonicalDecimal(m) && |f| == 2 && AllDigits(f) && DecimalValue(f) < 60
    requires DecimalValue(m) * 60 + DecimalValue(f) == seconds
    ensures FormatTime(seconds) == m + ":" + f
  {
    var t := m + ":" + f;
    JoinFields(t, m, f);
    assert ParseTime(t) == Some(seconds);
    ParseTimeRoundTrip(t);
  }

  /** The two counters and whether the interval is still installed. */
  datatype Clocks = Clocks(white: int, black: int, running: bool)

  /** Both sides at the full allowance with the interval installed: a valid, running clock. */
  function StartClocks(): (c: Clocks)
    ensures c.running && ClockInvariant(c)
    ensures Remaining(c, White) == InitialSeconds && Remaining(c, Black) == InitialSeconds
  {
    Clocks(InitialSeconds, InitialSeconds, true)
  }

  function Remaining(c: Clocks, side: Color): int {
    if side == White then c.white else c.black
  }

  /**
   * What every reachable clock state satisfies: counters between 0 and the initial
   * allowance, at most one of them exhausted, and a running clock has time on both sides.
   */
  ghost predicate ClockInvariant(c: Clocks) {
    0 <= c.white <= InitialSeconds && 0 <= c.black <= InitialSeconds
    && (c.white > 0 || c.black > 0)
    && (c.running ==> c.white > 0 && c.black > 0)
  }

  /**
   * The winner `checkTimeExpired` announces: none while both sides have time; otherwise
   * Black when White is out of time, and White when only Black is.
   */
  function TimeUpWinner(c: Clocks): (w: Option<Color>)
    ensures w.None? <==> c.white > 0 && c.black > 0
    ensures w.Some? ==> Remaining(c, Opponent(w.value)) <= 0
    ensures w == Some(White) ==> c.white > 0
  {
    if c.white <= 0 || c.black <= 0 then Some(if c.white <= 0 then Black else White) else None
  }

  /**
   * One interval callback: the counter of the side to move loses a second, the other is
   * untouched, and the clock stops exactly when a counter has run out.
   */
  function Tick(c: Clocks, mover: Color): (r: Clocks)
    requires c.running
    ensures Remaining(r, mover) == Remaining(c, mover) - 1
    ensures Remaining(r, Opponent(mover)) == Remaining(c, Opponent(mover))
    ensures r.running <==> TimeUpWinner(r).None?
  {
    var d := if mover == White then c.(white := c.white - 1) else c.(black := c.black - 1);
    if TimeUpWinner(d).Some? then d.(running := false) else d
  }

  /** A tick keeps the invariant; when it stops the clock, the mover is at zero and loses. */
  lemma TickKeepsInvariant(c: Clocks, mover: Color)
    requires ClockInvariant(c) && c.running
    ensures ClockInvariant(Tick(c, mover))
    ensures !Tick(c, mover).running <==> Remaining(c, mover) == 1
    ensures !Tick(c, mover).running ==>
      Remaining(Tick(c, mover), mover) == 0 && TimeUpWinner(Tick(c, mover)) == Some(Opponent(mover))
  {
  }

  /** Ticks for the given sequence of sides to move, taken only while the clock runs. */
  function Run(c: Clocks, movers: seq<Color>): Clocks
    decreases |movers|
  {
    if movers == [] || !c.running then c else Run(Tick(c, movers[0]), movers[1..])
  }

  /**
   * Any run of ticks keeps the invariant, and no more seconds are consumed than ticks
   * were offered.
   */
  lemma {:induction false} RunKeepsInvariant(c: Clocks, movers: seq<Color>)
    requires ClockInvariant(c)
    ensures ClockInvariant(Run(c, movers))
    ensures Run(c, movers).white + Run(c, movers).black >= c.white + c.black - |movers|
    decreases |movers|
  {
    if movers != [] && c.running {
      TickKeepsInvariant(c, movers[0]);
      RunKeepsInvariant(Tick(c, movers[0]), movers[1..]);
    }
  }

  /**
   * From the opening 10:00 / 10:00, no counter ever goes below zero, and once the clock
   * has stopped on time exactly one side is out and the other is named the winner.
   */
  lemma RunFromStart(movers: seq<Color>)
    ensures var c := Run(StartClocks(), movers);
      0 <= c.white <= InitialSeconds && 0 <= c.black <= InitialSeconds
      && (c.running <==> TimeUpWinner(c).None?)
      && (TimeUpWinner(c).Some? ==> Remaining(c, Opponent(TimeUpWinner(c).value)) == 0
                                    && Remaining(c, TimeUpWinner(c).value) > 0)
  {
    RunKeepsInvariant(StartClocks(), movers);
    RunStopsOnlyOnTime(StartClocks(), movers);
  }

  /** Ticks alone stop the clock only when time runs out. */
  lemma {:induction false} RunStopsOnlyOnTime(c: Clocks, movers: seq<Color>)
    requires c.running <==> TimeUpWinner(c).None?
    ensures Run(c, movers).running <==> TimeUpWinner(Run(c, movers)).None?
    decreases |movers|
  {
    if movers != [] && c.running {
      RunStopsOnlyOnTime(Tick(c, movers[0]), movers[1..]);
    }
  }
}
