/** The state of the birthday card and the rules by which its event handlers,
    its interval timer and its confetti watcher change that state.

    Everything here is a value: the class in WishComponent keeps the same
    fields and its methods are proved to move them exactly as the functions
    below say. */
module WishState {

  const TotalCandles: int := 7
  const TotalBalloons: int := 5

  /** The component's state. `timerActive` says whether the interval that
      `celebrate` schedules is still running and `intervalsStarted` counts
      how many intervals were ever scheduled; the window size is not part
      of the model. */
  datatype State = State(
    candlesLit: int,
    balloonsPoppedCount: int,
    showConfetti: bool,
    celebrating: bool,
    timerActive: bool,
    intervalsStarted: nat)

  /** What can happen to the card: a click on a candle or a balloon (with the
      index that the rendered element passes), a click on the celebrate
      button, or one period of the interval elapsing. */
  datatype Event =
    | CandleClick(index: int)
    | BalloonClick(index: int)
    | CelebrateClick
    | IntervalElapsed

  /** The events the rendered card can produce: candle clicks carry the
      indices 0..6 of the candle row, balloon clicks 0..4 of the balloon row. */
  predicate FromCard(e: Event) {
    match e
    case CandleClick(i) => 0 <= i < TotalCandles
    case BalloonClick(i) => 0 <= i < TotalBalloons
    case _ => true
  }

  predicate AllFromCard(events: seq<Event>) {
    forall k :: 0 <= k < |events| ==> FromCard(events[k])
  }

  predicate Bounded(s: State) {
    && 0 <= s.candlesLit <= TotalCandles
    && 0 <= s.balloonsPoppedCount <= TotalBalloons
  }

  predicate AllDone(s: State) {
    s.candlesLit == TotalCandles && s.balloonsPoppedCount == TotalBalloons
  }

  /** The timer bookkeeping: exactly one interval per celebration, started
      together with the confetti, and cancelled only once the candle count
      has reached the total. */
  predicate TimerConsistent(s: State) {
    && s.intervalsStarted == (if s.celebrating then 1 else 0)
    && (s.timerActive ==> s.celebrating)
    && (s.celebrating ==> s.showConfetti)
    && (s.celebrating && !s.timerActive ==> s.candlesLit >= TotalCandles)
  }

  /** The invariant between two events: counters in range, timer consistent,
      and the confetti watcher has caught up with the counters. */
  predicate Valid(s: State) {
    && Bounded(s)
    && TimerConsistent(s)
    && (AllDone(s) ==> s.showConfetti)
  }

  /** How a later state relates to an earlier one: both counters are
      non-decreasing and the two flags, once raised, stay raised. */
  predicate Advances(s: State, t: State) {
    && s.candlesLit <= t.candlesLit
    && s.balloonsPoppedCount <= t.balloonsPoppedCount
    && (s.showConfetti ==> t.showConfetti)
    && (s.celebrating ==> t.celebrating)
  }

  /** The state at mount. */
  function Initial(): (s: State)
    ensures Valid(s) && !s.showConfetti && !s.celebrating && !s.timerActive
    ensures s.candlesLit == 0 && s.balloonsPoppedCount == 0
  {
    State(0, 0, false, false, false, 0)
  }

  /** `lightCandle(index)`: a click advances the candle count only when it is
      on the next unlit candle; any other index, an already lit one included,
      is ignored. The handler has no upper-bound check of its own. */
  function LightCandle(s: State, index: int): (r: State)
    ensures r.candlesLit == s.candlesLit + 1 <==> index == s.candlesLit
    ensures index != s.candlesLit ==> r == s
    ensures r == s.(candlesLit := r.candlesLit)
    ensures Bounded(s) && 0 <= index < TotalCandles ==> Bounded(r)
  {
    if index == s.candlesLit then s.(candlesLit := s.candlesLit + 1) else s
  }

  /** `popBalloon(index)`: the same ordered gating for the balloon count. */
  function PopBalloon(s: State, index: int): (r: State)
    ensures r.balloonsPoppedCount == s.balloonsPoppedCount + 1 <==> index == s.balloonsPoppedCount
    ensures index != s.balloonsPoppedCount ==> r == s
    ensures r == s.(balloonsPoppedCount := r.balloonsPoppedCount)
    ensures Bounded(s) && 0 <= index < TotalBalloons ==> Bounded(r)
  {
    if index == s.balloonsPoppedCount then s.(balloonsPoppedCount := s.balloonsPoppedCount + 1) else s
  }

  /** `celebrate()`: raises `celebrating` and `showConfetti` whatever the
      counters are, and schedules a new interval. The handler itself has no
      guard against a second call; the disabled button is what prevents one. */
  function Celebrate(s: State): (r: State)
    ensures r.celebrating && r.showConfetti && r.timerActive
    ensures r.intervalsStarted == s.intervalsStarted + 1
    ensures r.candlesLit == s.candlesLit && r.balloonsPoppedCount == s.balloonsPoppedCount
  {
    s.(celebrating := true, showConfetti := true, timerActive := true,
       intervalsStarted := s.intervalsStarted + 1)
  }

  /** One period of the interval. While the interval is scheduled its
      callback adds a candle if the count is below the total, and otherwise
      leaves the count alone and cancels the interval. With no interval
      scheduled nothing happens. */
  function Tick(s: State): (r: State)
    ensures s.candlesLit <= r.candlesLit <= s.candlesLit + 1
    ensures r.candlesLit == s.candlesLit + 1 <==> s.timerActive && s.candlesLit < TotalCandles
    ensures s.candlesLit <= TotalCandles ==> r.candlesLit <= TotalCandles
    ensures r.timerActive <==> s.timerActive && s.candlesLit < TotalCandles
    ensures r == s.(candlesLit := r.candlesLit, timerActive := r.timerActive)
  {
    if !s.timerActive then s
    else if s.candlesLit < TotalCandles then s.(candlesLit := s.candlesLit + 1)
    else s.(timerActive := false)
  }

  /** The confetti effect: once both counters are at their totals the
      confetti is shown. It never hides the confetti. */
  function Watch(s: State): (r: State)
    ensures r.showConfetti <==> s.showConfetti || AllDone(s)
    ensures r == s.(showConfetti := r.showConfetti)
  {
    if AllDone(s) then s.(showConfetti := true) else s
  }

  /** One event handled to completion, the confetti watcher running after
      every change of a counter. A click on the celebrate button while
      celebrating is swallowed, because the button is disabled then. */
  function Handle(s: State, e: Event): (r: State)
    ensures TimerConsistent(s) ==> TimerConsistent(r)
    ensures Valid(s) && FromCard(e) ==> Valid(r)
    ensures Advances(s, r)
  {
    match e
    case CandleClick(i) => Watch(LightCandle(s, i))
    case BalloonClick(i) => Watch(PopBalloon(s, i))
    case CelebrateClick => if s.celebrating then s else Celebrate(s)
    case IntervalElapsed => Watch(Tick(s))
  }

  /** A session: the events handled one after the other, in order. */
  function Run(s: State, events: seq<Event>): (r: State)
    ensures TimerConsistent(s) ==> TimerConsistent(r)
    ensures Valid(s) && AllFromCard(events) ==> Valid(r)
    ensures Advances(s, r)
    decreases |events|
  {
    if events == [] then s
    else
      assert AllFromCard(events) ==> FromCard(events[0]) && AllFromCard(events[1..]) by {
        if AllFromCard(events) {
          forall k | 0 <= k < |events[1..]| ensures FromCard(events[1..][k]) {
            assert events[1..][k] == events[k + 1];
          }
        }
      }
      Run(Handle(s, events[0]), events[1..])
  }

  /** Handling `a` and then `b` is handling `a + b`. */
  lemma {:induction false} RunAppend(s: State, a: seq<Event>, b: seq<Event>)
    ensures Run(s, a + b) == Run(Run(s, a), b)
    decreases |a|
  {
    if a == [] {
      assert a + b == b;
    } else {
      assert (a + b)[0] == a[0];
      assert (a + b)[1..] == a[1..] + b;
      RunAppend(Handle(s, a[0]), a[1..], b);
    }
  }

  // ---------------------------------------------------------------------
  // The handlers' rules over whole sessions

  /** The invariant holds after every session of clicks the card can produce
      and of timer periods, in any interleaving, starting from mount. */
  lemma ReachableIsValid(events: seq<Event>)
    requires AllFromCard(events)
    ensures Valid(Run(Initial(), events))
    ensures Bounded(Run(Initial(), events))
  {
  }

  /** The bound on the candle count rests on the indices the card renders:
      the handler alone would let an eighth click past the total. */
  lemma UnrenderedClickBreaksBound()
    ensures Run(Initial(), CandleClicks(0, TotalCandles + 1)).candlesLit == TotalCandles + 1
  {
    LightInOrder(Initial(), TotalCandles + 1);
  }

  /** Without the disabled button, a second `celebrate()` would schedule a
      second interval. */
  lemma CelebrateTwiceStartsTwoIntervals(s: State)
    requires Valid(s) && !s.celebrating
    ensures Celebrate(Celebrate(s)).intervalsStarted == 2
  {
  }

  /** With the button disabled while celebrating, a second click changes
      nothing, so at most one interval is ever scheduled. */
  lemma AtMostOneInterval(events: seq<Event>)
    ensures Run(Initial(), events).intervalsStarted <= 1
    ensures Run(Initial(), events).celebrating ==> Handle(Run(Initial(), events), CelebrateClick) == Run(Initial(), events)
  {
  }

  /** Once raised, the confetti and celebrating flags stay raised for the
      rest of any session, and neither counter ever goes down. */
  lemma {:induction false} FlagsStayRaised(s: State, a: seq<Event>, b: seq<Event>)
    ensures Advances(Run(s, a), Run(s, a + b))
  {
    RunAppend(s, a, b);
  }

  // ---------------------------------------------------------------------
  // Sequences of events used by the scenarios

  /** `n` periods of the interval. */
  function Ticks(n: nat): (events: seq<Event>)
    ensures |events| == n
    ensures forall k :: 0 <= k < n ==> events[k] == IntervalElapsed
  {
    if n == 0 then [] else [IntervalElapsed] + Ticks(n - 1)
  }

  /** Clicks on the candles `from`, `from + 1`, ..., `from + n - 1`. */
  function CandleClicks(from: int, n: nat): (events: seq<Event>)
    ensures |events| == n
    ensures forall k :: 0 <= k < n ==> events[k] == CandleClick(from + k)
    decreases n
  {
    if n == 0 then [] else [CandleClick(from)] + CandleClicks(from + 1, n - 1)
  }

  /** Clicks on the balloons `from`, `from + 1`, ..., `from + n - 1`. */
  function BalloonClicks(from: int, n: nat): (events: seq<Event>)
    ensures |events| == n
    ensures forall k :: 0 <= k < n ==> events[k] == BalloonClick(from + k)
    decreases n
  {
    if n == 0 then [] else [BalloonClick(from)] + BalloonClicks(from + 1, n - 1)
  }

  // ---------------------------------------------------------------------
  // The celebration timer

  /** While the count is below the total, each period adds exactly one
      candle and leaves everything else as it was. */
  lemma {:induction false} TicksAddCandles(s: State, n: nat)
    requires Valid(s) && s.timerActive
    requires s.candlesLit + n <= TotalCandles
    ensures Run(s, Ticks(n)) == s.(candlesLit := s.candlesLit + n)
    decreases n
  {
    if n > 0 {
      var t := Handle(s, IntervalElapsed);
      assert t == s.(candlesLit := s.candlesLit + 1);
      assert Ticks(n)[1..] == Ticks(n - 1);
      TicksAddCandles(t, n - 1);
    }
  }

  /** With no interval scheduled, time passing changes nothing. */
  lemma {:induction false} StoppedTimerIgnoresTicks(s: State, n: nat)
    requires Valid(s) && !s.timerActive
    ensures Run(s, Ticks(n)) == s
    decreases n
  {
    if n > 0 {
      assert Handle(s, IntervalElapsed) == s;
      assert Ticks(n)[1..] == Ticks(n - 1);
      StoppedTimerIgnoresTicks(s, n - 1);
    }
  }

  /** The celebration timer runs out: from a running timer with `c` candles
      lit, `7 - c` periods bring the count to 7, one more period cancels the
      interval, and any later periods change nothing. Nothing else changes. */
  lemma TimerRunsOut(s: State, extra: nat)
    requires Valid(s) && s.timerActive
    ensures Run(s, Ticks(TotalCandles - s.candlesLit)) == s.(candlesLit := TotalCandles)
    ensures Run(s, Ticks(TotalCandles - s.candlesLit + 1 + extra))
         == s.(candlesLit := TotalCandles, timerActive := false)
  {
    var n := TotalCandles - s.candlesLit;
    TicksAddCandles(s, n);
    var full := s.(candlesLit := TotalCandles);
    var stopped := full.(timerActive := false);
    assert Handle(full, IntervalElapsed) == stopped;
    assert Ticks(n + 1 + extra) == Ticks(n) + Ticks(1) + Ticks(extra);
    RunAppend(s, Ticks(n) + Ticks(1), Ticks(extra));
    RunAppend(s, Ticks(n), Ticks(1));
    StoppedTimerIgnoresTicks(stopped, extra);
  }

  /** The celebrate scenario: from the card at mount, one click on the
      celebrate button shows the confetti at once; seven periods later all
      candles are lit, the eighth cancels the interval, and later periods
      change nothing. */
  lemma CelebrateScenario(extra: nat)
    ensures var s := Run(Initial(), [CelebrateClick]);
      s.celebrating && s.showConfetti && s.timerActive && s.candlesLit == 0
    ensures var s := Run(Initial(), [CelebrateClick] + Ticks(TotalCandles));
      s.candlesLit == TotalCandles && s.timerActive
    ensures var s := Run(Initial(), [CelebrateClick] + Ticks(TotalCandles + 1 + extra));
      s.candlesLit == TotalCandles && !s.timerActive && s.celebrating && s.showConfetti
      && s.balloonsPoppedCount == 0
  {
    var s := Run(Initial(), [CelebrateClick]);
    assert s == Celebrate(Initial());
    TimerRunsOut(s, extra);
    RunAppend(Initial(), [CelebrateClick], Ticks(TotalCandles));
    RunAppend(Initial(), [CelebrateClick], Ticks(TotalCandles + 1 + extra));
  }

  // ---------------------------------------------------------------------
  // Clicking through the candles and balloons

  /** Clicking the candles in order from the next unlit one adds one candle
      per click; balloons, celebration and timer are untouched. */
  lemma {:induction false} LightInOrder(s: State, n: nat)
    ensures var r := Run(s, CandleClicks(s.candlesLit, n));
      r.candlesLit == s.candlesLit + n
      && r.balloonsPoppedCount == s.balloonsPoppedCount
      && r.celebrating == s.celebrating && r.timerActive == s.timerActive
    decreases n
  {
    if n > 0 {
      var t := Handle(s, CandleClick(s.candlesLit));
      assert CandleClicks(s.candlesLit, n)[1..] == CandleClicks(t.candlesLit, n - 1);
      LightInOrder(t, n - 1);
    }
  }

  /** Popping the balloons in order from the next one adds one per click. */
  lemma {:induction false} PopInOrder(s: State, n: nat)
    ensures var r := Run(s, BalloonClicks(s.balloonsPoppedCount, n));
      r.balloonsPoppedCount == s.balloonsPoppedCount + n
      && r.candlesLit == s.candlesLit
      && r.celebrating == s.celebrating && r.timerActive == s.timerActive
    decreases n
  {
    if n > 0 {
      var t := Handle(s, BalloonClick(s.balloonsPoppedCount));
      assert BalloonClicks(s.balloonsPoppedCount, n)[1..] == BalloonClicks(t.balloonsPoppedCount, n - 1);
      PopInOrder(t, n - 1);
    }
  }

  /** The completion scenario: lighting candles 0..6 and then popping
      balloons 0..4 shows the confetti, without any celebration. */
  lemma CompletionShowsConfetti()
    ensures var s := Run(Initial(), CandleClicks(0, TotalCandles) + BalloonClicks(0, TotalBalloons));
      AllDone(s) && s.showConfetti && !s.celebrating
  {
    var lit := Run(Initial(), CandleClicks(0, TotalCandles));
    LightInOrder(Initial(), TotalCandles);
    PopInOrder(lit, TotalBalloons);
    RunAppend(Initial(), CandleClicks(0, TotalCandles), BalloonClicks(0, TotalBalloons));
    ReachableIsValid(CandleClicks(0, TotalCandles) + BalloonClicks(0, TotalBalloons));
  }

  /** An out-of-order first click is ignored. */
  lemma OutOfOrderClickIgnored()
    ensures Run(Initial(), [CandleClick(3)]) == Initial()
  {
  }

  // ---------------------------------------------------------------------
  // What the card draws

  /** Candle `index` is drawn lit: while celebrating, every candle up to and
      including the count; otherwise every candle below the count. */
  predicate CandleDrawnLit(s: State, index: int)
    ensures CandleDrawnLit(s, index) <==> index < s.candlesLit || (s.celebrating && index == s.candlesLit)
  {
    (s.celebrating && index <= s.candlesLit) || (!s.celebrating && index < s.candlesLit)
  }

  /** Balloon `index` is drawn popped (grey and shrunk to nothing). A balloon
      drawn popped ignores clicks, and of those drawn whole exactly the first
      one responds to a click. */
  predicate BalloonDrawnPopped(s: State, index: int)
    ensures BalloonDrawnPopped(s, index) ==> PopBalloon(s, index) == s
    ensures !BalloonDrawnPopped(s, index) ==> (PopBalloon(s, index) != s <==> index == s.balloonsPoppedCount)
  {
    index < s.balloonsPoppedCount
  }

  function Min(a: int, b: int): int {
    if a <= b then a else b
  }

  /** The number of candles among the first `n` that are drawn lit. */
  function LitCandlesShown(s: State, n: nat): nat {
    if n == 0 then 0
    else LitCandlesShown(s, n - 1) + (if CandleDrawnLit(s, n - 1) then 1 else 0)
  }

  /** The number of balloons among the first `n` that are drawn popped. */
  function PoppedBalloonsShown(s: State, n: nat): nat {
    if n == 0 then 0
    else PoppedBalloonsShown(s, n - 1) + (if BalloonDrawnPopped(s, n - 1) then 1 else 0)
  }

  lemma {:induction false} LitCandlesShownCount(s: State, n: nat)
    requires 0 <= s.candlesLit
    ensures LitCandlesShown(s, n) == Min(n, s.candlesLit + (if s.celebrating then 1 else 0))
    decreases n
  {
    if n > 0 {
      LitCandlesShownCount(s, n - 1);
    }
  }

  lemma {:induction false} PoppedBalloonsShownCount(s: State, n: nat)
    requires 0 <= s.balloonsPoppedCount
    ensures PoppedBalloonsShown(s, n) == Min(n, s.balloonsPoppedCount)
    decreases n
  {
    if n > 0 {
      PoppedBalloonsShownCount(s, n - 1);
    }
  }

  /** The candle row shows exactly the count outside a celebration, and one
      candle ahead of it during one (all seven once six are counted); the
      balloon row always shows exactly the popped count. */
  lemma DisplayMatchesCounters(s: State)
    requires Valid(s)
    ensures !s.celebrating ==> LitCandlesShown(s, TotalCandles) == s.candlesLit
    ensures s.celebrating ==> LitCandlesShown(s, TotalCandles) == Min(TotalCandles, s.candlesLit + 1)
    ensures PoppedBalloonsShown(s, TotalBalloons) == s.balloonsPoppedCount
  {
    LitCandlesShownCount(s, TotalCandles);
    PoppedBalloonsShownCount(s, TotalBalloons);
  }

  /** The candle a click would light next is drawn unlit exactly when no
      celebration is running. */
  lemma NextCandleDrawn(s: State)
    ensures CandleDrawnLit(s, s.candlesLit) <==> s.celebrating
  {
  }

  /** A candle drawn lit, or a balloon drawn popped, stays so after any event. */
  lemma DisplayOnlyAdvances(s: State, e: Event, index: int)
    ensures CandleDrawnLit(s, index) ==> CandleDrawnLit(Handle(s, e), index)
    ensures BalloonDrawnPopped(s, index) ==> BalloonDrawnPopped(Handle(s, e), index)
  {
  }

  /** A click on a candle draws that candle lit exactly when it was drawn lit
      already or it was the next one to light; likewise for balloons. */
  lemma ClickRedraws(s: State, index: int)
    ensures CandleDrawnLit(Handle(s, CandleClick(index)), index)
        <==> CandleDrawnLit(s, index) || index == s.candlesLit
    ensures BalloonDrawnPopped(Handle(s, BalloonClick(index)), index)
        <==> BalloonDrawnPopped(s, index) || index == s.balloonsPoppedCount
  {
  }
}
