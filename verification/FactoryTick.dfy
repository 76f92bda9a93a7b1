/** The simulator's production arithmetic: fractional output carried from tick to tick. */
module FactoryTick {
  const SHIFT_SECONDS := 28800.0

  datatype LineState = Running | Down | Starved | AtTarget

  datatype Line = Line(state: LineState, good: int, remainder: real)

  /** Lines are numbered from 0; line 0 consumes alloy and line 2 steel. */
  const LINES: nat := 6
  const ALLOY_LINE: nat := 0
  const STEEL_LINE: nat := 2

  function Target(i: nat): int
    requires i < LINES
  {
    [920, 840, 1100, 960, 920, 840][i]
  }

  /** Material used by one piece. */
  function Usage(i: nat): real {
    if i == ALLOY_LINE then 1.8 else if i == STEEL_LINE then 0.42 else 0.0
  }

  function ExactOutput(i: nat, seconds: real): real
    requires i < LINES
  {
    Target(i) as real * seconds / SHIFT_SECONDS
  }

  function Min(a: int, b: int): int {
    if a <= b then a else b
  }

  function AtLeastZero(x: real): real {
    if x >= 0.0 then x else 0.0
  }

  datatype Station = Station(line: Line, stock: real)

  /** One tick of one line with the material it consumes. */
  function Advance(i: nat, s: Station, seconds: real, failing: bool): Station
    requires i < LINES
  {
    if failing && i == 0 then s.(line := s.line.(state := Down))
    else if s.line.state == Starved then s
    else
      var accumulated := s.line.remainder + ExactOutput(i, seconds);
      var increment := accumulated.Floor;
      var good := Min(s.line.good + increment, Target(i));
      var stock := AtLeastZero(s.stock - increment as real * Usage(i));
      var state := if good >= Target(i) then AtTarget
                   else if i == STEEL_LINE && stock <= 0.0 then Starved
                   else s.line.state;
      Station(Line(state, good, accumulated - increment as real), stock)
  }

  function Before(i: nat, lines: seq<Line>, alloy: real, steel: real): Station
    requires i < |lines|
  {
    Station(lines[i], if i == ALLOY_LINE then alloy else if i == STEEL_LINE then steel else 0.0)
  }

  function ScenarioSeconds(speed: real, wallSeconds: real): real {
    speed * wallSeconds
  }

  class Factory {
    var running: bool
    var outage: bool
    var failing: bool
    var speed: real
    var scenarioTime: real
    var lines: seq<Line>
    var alloy: real
    var steel: real

    /** Every line and both stocks are one tick further than the given ones. */
    ghost predicate Ticked(lines0: seq<Line>, alloy0: real, steel0: real, seconds: real)
      requires |lines0| == LINES
      reads this
    {
      && |lines| == LINES
      && (forall j | 0 <= j < LINES :: lines[j] == Advance(j, Before(j, lines0, alloy0, steel0), seconds, failing).line)
      && alloy == Advance(ALLOY_LINE, Station(lines0[ALLOY_LINE], alloy0), seconds, failing).stock
      && steel == Advance(STEEL_LINE, Station(lines0[STEEL_LINE], steel0), seconds, failing).stock
    }

    constructor (initial: seq<Line>, a: real, s: real)
      ensures lines == initial && alloy == a && steel == s
      ensures running && !outage && !failing && speed == 1.0 && scenarioTime == 0.0
    {
      running, outage, failing, speed, scenarioTime := true, false, false, 1.0, 0.0;
      lines, alloy, steel := initial, a, s;
    }

    method Tick(wallSeconds: real)
      requires |lines| == LINES
      modifies `scenarioTime, `lines, `alloy, `steel
      ensures scenarioTime == old(scenarioTime) + if running then ScenarioSeconds(speed, wallSeconds) else 0.0
      ensures if running && !outage
              then Ticked(old(lines), old(alloy), old(steel), ScenarioSeconds(speed, wallSeconds))
              else lines == old(lines) && alloy == old(alloy) && steel == old(steel)
    {
      if !running {
        return;
      }
      var seconds := ScenarioSeconds(speed, wallSeconds);
      scenarioTime := scenarioTime + seconds;
      if !outage {
        TickLines(seconds);
      }
    }

    method TickLines(seconds: real)
      requires |lines| == LINES
      modifies `lines, `alloy, `steel
      ensures Ticked(old(lines), old(alloy), old(steel), seconds)
    {
      ghost var lines0, alloy0, steel0 := lines, alloy, steel;
      for i := 0 to LINES
        invariant |lines| == LINES
        invariant forall j | i <= j < LINES :: lines[j] == lines0[j]
        invariant forall j | 0 <= j < i ::
                    lines[j] == Advance(j, Before(j, lines0, alloy0, steel0), seconds, failing).line
        invariant alloy == if i <= ALLOY_LINE then alloy0
                           else Advance(ALLOY_LINE, Station(lines0[ALLOY_LINE], alloy0), seconds, failing).stock
        invariant steel == if i <= STEEL_LINE then steel0
                           else Advance(STEEL_LINE, Station(lines0[STEEL_LINE], steel0), seconds, failing).stock
      {
        assert Before(i, lines, alloy, steel) == Before(i, lines0, alloy0, steel0);
        TickLine(i, seconds);
      }
    }

    method TickLine(i: nat, seconds: real)
      requires |lines| == LINES && i < LINES
      modifies `lines, `alloy, `steel
      ensures var after := Advance(i, Before(i, old(lines), old(alloy), old(steel)), seconds, failing);
              && lines == old(lines)[i := after.line]
              && alloy == (if i == ALLOY_LINE then after.stock else old(alloy))
              && steel == (if i == STEEL_LINE then after.stock else old(steel))
    {
      var line := lines[i];
      if failing && i == 0 {
        lines := lines[i := line.(state := Down)];
        return;
      }
      if line.state == Starved {
        return;
      }
      var accumulated := line.remainder + ExactOutput(i, seconds);
      var increment := accumulated.Floor;
      line := line.(remainder := accumulated - increment as real);
      line := line.(good := Min(line.good + increment, Target(i)));
      if i == ALLOY_LINE {
        alloy := AtLeastZero(alloy - increment as real * 1.8);
      } else if i == STEEL_LINE {
        steel := AtLeastZero(steel - increment as real * 0.42);
      }
      if i == STEEL_LINE && steel <= 0.0 {
        line := line.(state := Starved);
      }
      if line.good >= Target(i) {
        line := line.(state := AtTarget);
      }
      lines := lines[i := line];
    }
  }

  // ---------- Whole runs of one line ----------

  function Sum(ticks: seq<real>): real {
    if ticks == [] then 0.0 else Sum(ticks[..|ticks| - 1]) + ticks[|ticks| - 1]
  }

  function RunLine(i: nat, s: Station, ticks: seq<real>): Station
    requires i < LINES
  {
    if ticks == [] then s
    else Advance(i, RunLine(i, s, ticks[..|ticks| - 1]), ticks[|ticks| - 1], false)
  }

  /** A line before its first tick: a fraction carried, no more than the target made, stock not negative. */
  predicate Plausible(i: nat, s: Station)
    requires i < LINES
  {
    && s.line.state != Starved && 0.0 <= s.line.remainder < 1.0
    && 0 <= s.line.good <= Target(i) && s.stock >= 0.0
  }

  predicate Forward(ticks: seq<real>) {
    forall k | 0 <= k < |ticks| :: ticks[k] >= 0.0
  }

  /** The pieces the whole time is worth, however it is divided. */
  function Pieces(i: nat, s: Station, seconds: real): int
    requires i < LINES
  {
    (s.line.remainder + ExactOutput(i, seconds)).Floor
  }

  lemma FloorShift(n: int, x: real)
    ensures (n as real + x).Floor == n + x.Floor
  {}

  lemma ExactOutputAdds(i: nat, a: real, b: real)
    requires i < LINES
    ensures ExactOutput(i, a + b) == ExactOutput(i, a) + ExactOutput(i, b)
    ensures b >= 0.0 ==> ExactOutput(i, b) >= 0.0
  {
    var t := Target(i) as real;
    assert t * (a + b) == t * a + t * b;
    assert t > 0.0;
  }

  /** The closed form of a line that has not starved. */
  predicate Follows(i: nat, start: Station, now: Station, seconds: real)
    requires i < LINES
  {
    var n := Pieces(i, start, seconds);
    && n >= 0
    && now.line.good == Min(start.line.good + n, Target(i))
    && now.line.remainder == start.line.remainder + ExactOutput(i, seconds) - n as real
    && now.stock == AtLeastZero(start.stock - n as real * Usage(i))
  }

  lemma AdvanceFollows(i: nat, start: Station, now: Station, seconds: real, tick: real)
    requires i < LINES && Plausible(i, start) && tick >= 0.0 && seconds >= 0.0
    requires Follows(i, start, now, seconds) && now.line.state != Starved
    ensures Follows(i, start, Advance(i, now, tick, false), seconds + tick)
    ensures Pieces(i, start, seconds) <= Pieces(i, start, seconds + tick)
  {
    var n := Pieces(i, start, seconds);
    ExactOutputAdds(i, seconds, tick);
    var accumulated := now.line.remainder + ExactOutput(i, tick);
    FloorShift(n, accumulated);
    assert Pieces(i, start, seconds + tick) == n + accumulated.Floor;
    assert accumulated >= 0.0;
    var m := accumulated.Floor;
    assert (n + m) as real * Usage(i) == n as real * Usage(i) + m as real * Usage(i);
    assert m as real * Usage(i) >= 0.0;
  }

  lemma StartFollows(i: nat, s: Station)
    requires i < LINES && Plausible(i, s)
    ensures Follows(i, s, s, 0.0)
  {
    assert ExactOutput(i, 0.0) == 0.0;
    assert Pieces(i, s, 0.0) == 0;
  }

  lemma {:induction false} SumIsForward(ticks: seq<real>)
    requires Forward(ticks)
    ensures Sum(ticks) >= 0.0
  {
    if ticks != [] {
      SumIsForward(ticks[..|ticks| - 1]);
    }
  }

  /** Tick splitting: the output and the material of any line but the steel line depend only on the total time. */
  lemma {:induction false} OutputDependsOnTotalTime(i: nat, s: Station, ticks: seq<real>)
    requires i < LINES && i != STEEL_LINE && Plausible(i, s) && Forward(ticks)
    ensures Follows(i, s, RunLine(i, s, ticks), Sum(ticks)) && RunLine(i, s, ticks).line.state != Starved
    ensures 0.0 <= RunLine(i, s, ticks).line.remainder < 1.0
  {
    if ticks == [] {
      StartFollows(i, s);
    } else {
      var init := ticks[..|ticks| - 1];
      OutputDependsOnTotalTime(i, s, init);
      SumIsForward(init);
      AdvanceFollows(i, s, RunLine(i, s, init), Sum(init), ticks[|ticks| - 1]);
    }
  }

  /** The alloy used between two stations is that of the good pieces made. */
  predicate UsesWhatItMakes(start: Station, end: Station) {
    start.stock - end.stock == (end.line.good - start.line.good) as real * Usage(ALLOY_LINE)
  }

  /** The alloy covers `n` pieces and they do not exceed those missing to the target, or they do exceed them and the
      alloy is just that of the missing ones. */
  predicate AlloyIsJustEnough(start: Station, n: int) {
    var missing := Target(ALLOY_LINE) - start.line.good;
    if n <= missing then start.stock >= n as real * Usage(ALLOY_LINE)
    else start.stock == missing as real * Usage(ALLOY_LINE)
  }

  lemma FollowsTells(start: Station, now: Station, seconds: real)
    requires Follows(ALLOY_LINE, start, now, seconds) && Plausible(ALLOY_LINE, start)
    ensures UsesWhatItMakes(start, now) <==> AlloyIsJustEnough(start, Pieces(ALLOY_LINE, start, seconds))
  {
    UsedIsMade(start, now, Pieces(ALLOY_LINE, start, seconds));
  }

  lemma UsedIsMade(start: Station, now: Station, n: int)
    requires Plausible(ALLOY_LINE, start) && n >= 0
    requires now.stock == AtLeastZero(start.stock - n as real * Usage(ALLOY_LINE))
    requires now.line.good == Min(start.line.good + n, Target(ALLOY_LINE))
    ensures UsesWhatItMakes(start, now) <==> AlloyIsJustEnough(start, n)
  {}

  /** The alloy line goes on consuming after its target and goes on producing without alloy: the alloy used is that of
      the good pieces exactly when it is just enough for the pieces the whole time is worth. */
  lemma AlloyMatchesOutputIff(s: Station, ticks: seq<real>)
    requires Plausible(ALLOY_LINE, s) && Forward(ticks)
    ensures UsesWhatItMakes(s, RunLine(ALLOY_LINE, s, ticks))
            <==> AlloyIsJustEnough(s, Pieces(ALLOY_LINE, s, Sum(ticks)))
  {
    OutputDependsOnTotalTime(ALLOY_LINE, s, ticks);
    FollowsTells(s, RunLine(ALLOY_LINE, s, ticks), Sum(ticks));
  }

  // ---------- The steel line, which can starve ----------

  /** Where the steel line stands: on the closed form, or stopped after `made` pieces with no steel left. */
  predicate Stopped(s: Station, now: Station, made: int) {
    && now.line.state == Starved && now.line.good == s.line.good + made < Target(STEEL_LINE)
    && s.stock - made as real * Usage(STEEL_LINE) <= 0.0
  }

  lemma {:induction false} SteelLineOutcome(s: Station, ticks: seq<real>) returns (made: int)
    requires Plausible(STEEL_LINE, s) && Forward(ticks)
    ensures 0 <= made <= Pieces(STEEL_LINE, s, Sum(ticks))
    ensures var now := RunLine(STEEL_LINE, s, ticks);
            if now.line.state == Starved then Stopped(s, now, made)
            else made == Pieces(STEEL_LINE, s, Sum(ticks)) && Follows(STEEL_LINE, s, now, Sum(ticks))
  {
    if ticks == [] {
      StartFollows(STEEL_LINE, s);
      made := 0;
    } else {
      var init, tick := ticks[..|ticks| - 1], ticks[|ticks| - 1];
      made := SteelLineOutcome(s, init);
      SumIsForward(init);
      var now := RunLine(STEEL_LINE, s, init);
      if now.line.state == Starved {
        PiecesGrow(s, Sum(init), tick);
      } else {
        AdvanceFollows(STEEL_LINE, s, now, Sum(init), tick);
        made := Pieces(STEEL_LINE, s, Sum(ticks));
        StarvingStops(s, now, Sum(init), tick);
      }
    }
  }

  lemma StarvingStops(s: Station, now: Station, seconds: real, tick: real)
    requires now.line.state != Starved && Follows(STEEL_LINE, s, Advance(STEEL_LINE, now, tick, false), seconds + tick)
    ensures var next := Advance(STEEL_LINE, now, tick, false);
            next.line.state == Starved ==> Stopped(s, next, Pieces(STEEL_LINE, s, seconds + tick))
  {}

  lemma PiecesGrow(s: Station, seconds: real, tick: real)
    requires tick >= 0.0
    ensures Pieces(STEEL_LINE, s, seconds) <= Pieces(STEEL_LINE, s, seconds + tick)
  {
    ExactOutputAdds(STEEL_LINE, seconds, tick);
  }

  /** The steel covers all but the last of the pieces that time and target allow. */
  predicate SteelSuffices(s: Station, seconds: real) {
    var wanted := Min(Pieces(STEEL_LINE, s, seconds), Target(STEEL_LINE) - s.line.good);
    wanted <= 0 || s.stock > (wanted - 1) as real * Usage(STEEL_LINE)
  }

  ghost predicate SteelOutputIsFixed(s: Station, seconds: real) {
    forall ticks | Forward(ticks) && Sum(ticks) == seconds ::
      RunLine(STEEL_LINE, s, ticks).line.good
      == Min(s.line.good + Pieces(STEEL_LINE, s, seconds), Target(STEEL_LINE))
  }

  lemma SufficientSteelFixesOutput(s: Station, ticks: seq<real>)
    requires Plausible(STEEL_LINE, s) && Forward(ticks) && SteelSuffices(s, Sum(ticks))
    ensures RunLine(STEEL_LINE, s, ticks).line.good
            == Min(s.line.good + Pieces(STEEL_LINE, s, Sum(ticks)), Target(STEEL_LINE))
  {
    var made := SteelLineOutcome(s, ticks);
    var n := Pieces(STEEL_LINE, s, Sum(ticks));
    var wanted := Min(n, Target(STEEL_LINE) - s.line.good);
    assert RunLine(STEEL_LINE, s, ticks).line.state == Starved && made < n ==> made <= wanted - 1;
  }

  /** The piece at which the steel is used up. */
  lemma LastCoveredPiece(stock: real, bound: nat) returns (m: nat)
    requires stock <= bound as real * 0.42 && stock >= 0.0
    ensures m <= bound && stock <= m as real * 0.42
    ensures m > 0 ==> stock > (m - 1) as real * 0.42
  {
    m := bound;
    while m > 0 && stock <= (m - 1) as real * 0.42
      invariant m <= bound && stock <= m as real * 0.42
    {
      m := m - 1;
    }
  }

  /** Dividing the time where the steel runs out stops the line short of what one long tick would make. */
  lemma ScarceSteelDependsOnSplit(s: Station, seconds: real)
    requires Plausible(STEEL_LINE, s) && seconds >= 0.0 && !SteelSuffices(s, seconds)
    ensures !SteelOutputIsFixed(s, seconds)
  {
    var n := Pieces(STEEL_LINE, s, seconds);
    var wanted := Min(n, Target(STEEL_LINE) - s.line.good);
    var m := LastCoveredPiece(s.stock, wanted - 1);
    var first := if m == 0 then 0.0 else (m as real - s.line.remainder) * SHIFT_SECONDS / 1100.0;
    var ticks := [first, seconds - first];
    FirstPartMakes(s, seconds, m, first);
    SumOfTwo(first, seconds - first);
    RunOfTwo(s, first, seconds - first);
    assert RunLine(STEEL_LINE, s, ticks).line.good == s.line.good + m;
    assert Forward(ticks) && Sum(ticks) == seconds;
  }

  lemma FirstPartMakes(s: Station, seconds: real, m: nat, first: real)
    requires Plausible(STEEL_LINE, s) && seconds >= 0.0
    requires m < Pieces(STEEL_LINE, s, seconds) && s.line.good + m < Target(STEEL_LINE)
    requires s.stock <= m as real * Usage(STEEL_LINE)
    requires first == if m == 0 then 0.0 else (m as real - s.line.remainder) * SHIFT_SECONDS / 1100.0
    ensures 0.0 <= first <= seconds
    ensures var now := Advance(STEEL_LINE, s, first, false);
            now.line.state == Starved && now.line.good == s.line.good + m
  {
    assert Pieces(STEEL_LINE, s, first) == m;
    assert ExactOutput(STEEL_LINE, seconds) >= (m + 1) as real - s.line.remainder;
  }

  lemma SumOfTwo(a: real, b: real)
    ensures Sum([a, b]) == a + b
  {
    assert [a, b][..1] == [a] && [a][..0] == [];
    assert Sum([a]) == a;
  }

  lemma RunOfTwo(s: Station, a: real, b: real)
    ensures RunLine(STEEL_LINE, s, [a, b])
            == Advance(STEEL_LINE, Advance(STEEL_LINE, s, a, false), b, false)
  {
    assert [a, b][..1] == [a] && [a][..0] == [];
    assert RunLine(STEEL_LINE, s, [a]) == Advance(STEEL_LINE, s, a, false);
  }

  /** The steel line's output depends only on the total time exactly when the steel covers all but the last of the
      pieces that time and target allow: the tick that uses the steel up still counts in full. */
  lemma SteelOutputIsFixedIff(s: Station, seconds: real)
    requires Plausible(STEEL_LINE, s) && seconds >= 0.0
    ensures SteelOutputIsFixed(s, seconds) <==> SteelSuffices(s, seconds)
  {
    if SteelSuffices(s, seconds) {
      forall ticks | Forward(ticks) && Sum(ticks) == seconds
        ensures RunLine(STEEL_LINE, s, ticks).line.good
                == Min(s.line.good + Pieces(STEEL_LINE, s, seconds), Target(STEEL_LINE))
      {
        SufficientSteelFixesOutput(s, ticks);
      }
    } else {
      ScarceSteelDependsOnSplit(s, seconds);
    }
  }

  // ---------- A shift ----------

  /** The good pieces of a shift, line by line. */
  function ShiftTarget(i: nat): int
    requires i < LINES
  {
    if i == 0 then 920 else if i == 1 then 840 else if i == 2 then 1100
    else if i == 3 then 960 else if i == 4 then 920 else 840
  }

  lemma ShiftIsWorthTheTarget(i: nat, s: Station)
    requires i < LINES && s.line.remainder == 0.0
    ensures Pieces(i, s, 8.0 * 60.0 * 60.0) == ShiftTarget(i) == Target(i)
  {
    var t := Target(i) as real;
    assert t * (8.0 * 60.0 * 60.0) / SHIFT_SECONDS == t;
  }

  /** Eight hours, however divided, bring a line that starts from zero exactly to its target and no further, and half of
      that time to half of it. */
  lemma ShiftMeetsTarget(i: nat, s: Station, ticks: seq<real>)
    requires i < LINES && i != STEEL_LINE && Plausible(i, s) && Forward(ticks)
    requires s.line.good == 0 && s.line.remainder == 0.0
    ensures Sum(ticks) == 28800.0 ==> RunLine(i, s, ticks).line.good == ShiftTarget(i)
    ensures Sum(ticks) == 14400.0 ==> RunLine(i, s, ticks).line.good == ShiftTarget(i) / 2
  {
    OutputDependsOnTotalTime(i, s, ticks);
    ShiftIsWorthTheTarget(i, s);
    HalfAShift(i, s);
  }

  lemma HalfAShift(i: nat, s: Station)
    requires i < LINES && s.line.remainder == 0.0
    ensures Pieces(i, s, 14400.0) == ShiftTarget(i) / 2
  {
    var t := Target(i) as real;
    assert t * 14400.0 / SHIFT_SECONDS == t / 2.0;
  }

  /** A shift's pieces use 1.8 of alloy each on the first line, as long as there is any. */
  lemma ShiftUsesAlloy(s: Station, ticks: seq<real>)
    requires Plausible(ALLOY_LINE, s) && Forward(ticks) && Sum(ticks) == 28800.0 && s.line.remainder == 0.0
    ensures RunLine(ALLOY_LINE, s, ticks).stock == if s.stock >= 1656.0 then s.stock - 1656.0 else 0.0
  {
    OutputDependsOnTotalTime(ALLOY_LINE, s, ticks);
    ShiftIsWorthTheTarget(ALLOY_LINE, s);
  }

  /** With steel for a shift, the third line makes its 1100 pieces and uses 0.42 of steel each. */
  lemma ShiftUsesSteel(s: Station, ticks: seq<real>)
    requires Plausible(STEEL_LINE, s) && Forward(ticks) && Sum(ticks) == 28800.0
    requires s.line.good == 0 && s.line.remainder == 0.0 && s.stock > 462.0
    ensures var end := RunLine(STEEL_LINE, s, ticks); end.line.good == 1100 && end.stock == s.stock - 462.0
  {
    var made := SteelLineOutcome(s, ticks);
    ShiftIsWorthTheTarget(STEEL_LINE, s);
    SteelLasts(s, RunLine(STEEL_LINE, s, ticks), made);
  }

  lemma SteelLasts(s: Station, now: Station, made: int)
    requires s.stock > 462.0 && s.line.good == 0 && 0 <= made <= 1100
    ensures !Stopped(s, now, made)
  {}

  /** While the spindle fails, the first line stands still and is down, and every other line works as ever. */
  lemma FailureStopsTheFirstLine(i: nat, s: Station, seconds: real)
    requires i < LINES
    ensures Advance(i, s, seconds, true)
            == if i == 0 then s.(line := s.line.(state := Down)) else Advance(i, s, seconds, false)
  {}
}
