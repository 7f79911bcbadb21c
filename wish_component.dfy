/** The `BirthdayWish` component as an object: its state fields, its event
    handlers, the interval callback and the confetti watcher as methods that
    update those fields in place. Each method is proved to move the fields
    exactly as the corresponding function of WishState says. */
module WishComponent {
  import WishState

  class BirthdayWish {
    var candlesLit: int
    var balloonsPoppedCount: int
    var showConfetti: bool
    var celebrating: bool
    // the interval scheduled by Celebrate has not cancelled itself yet
    var timerActive: bool
    // how many intervals Celebrate has scheduled
    var intervalsStarted: nat

    /** The fields as a WishState value. */
    function Snapshot(): WishState.State
      reads this
    {
      WishState.State(candlesLit, balloonsPoppedCount, showConfetti, celebrating,
                      timerActive, intervalsStarted)
    }

    ghost predicate Valid()
      reads this
    {
      WishState.Valid(Snapshot())
    }

    /** Mount: every counter at zero, no confetti, no celebration, no timer. */
    constructor ()
      ensures Snapshot() == WishState.Initial()
      ensures Valid()
    {
      candlesLit, balloonsPoppedCount := 0, 0;
      showConfetti, celebrating := false, false;
      timerActive, intervalsStarted := false, 0;
    }

    method LightCandle(index: int)
      modifies this
      ensures Snapshot() == WishState.LightCandle(old(Snapshot()), index)
    {
      if index == candlesLit {
        candlesLit := candlesLit + 1;
      }
    }

    method PopBalloon(index: int)
      modifies this
      ensures Snapshot() == WishState.PopBalloon(old(Snapshot()), index)
    {
      if index == balloonsPoppedCount {
        balloonsPoppedCount := balloonsPoppedCount + 1;
      }
    }

    method Celebrate()
      modifies this
      ensures Snapshot() == WishState.Celebrate(old(Snapshot()))
    {
      celebrating := true;
      showConfetti := true;
      timerActive := true;
      intervalsStarted := intervalsStarted + 1;
    }

    /** One period of the interval: its callback runs if it is scheduled. */
    method Tick()
      modifies this
      ensures Snapshot() == WishState.Tick(old(Snapshot()))
    {
      if timerActive {
        if candlesLit < WishState.TotalCandles {
          candlesLit := candlesLit + 1;
        } else {
          timerActive := false;
        }
      }
    }

    /** The confetti effect, run after the counters change. */
    method Watch()
      modifies this
      ensures Snapshot() == WishState.Watch(old(Snapshot()))
    {
      if candlesLit == WishState.TotalCandles && balloonsPoppedCount == WishState.TotalBalloons {
        showConfetti := true;
      }
    }

    /** The event loop's step: the handler for `e`, then the watcher. A click
        on the disabled celebrate button does nothing. */
    method Dispatch(e: WishState.Event)
      modifies this
      ensures Snapshot() == WishState.Handle(old(Snapshot()), e)
      ensures old(Valid()) && WishState.FromCard(e) ==> Valid()
      ensures WishState.Advances(old(Snapshot()), Snapshot())
    {
      match e
      case CandleClick(i) =>
        LightCandle(i);
        Watch();
      case BalloonClick(i) =>
        PopBalloon(i);
        Watch();
      case CelebrateClick =>
        if !celebrating {
          Celebrate();
        }
      case IntervalElapsed =>
        Tick();
        Watch();
    }

    /** Lets time pass until the celebration's interval has cancelled itself,
        and says how many periods that took: one per missing candle, plus the
        period on which the callback finds the count full and cancels. */
    method RunTimer() returns (ticks: nat)
      requires Valid() && timerActive
      modifies this
      ensures ticks == WishState.TotalCandles - old(candlesLit) + 1
      ensures Snapshot() == WishState.Run(old(Snapshot()), WishState.Ticks(ticks))
      ensures Snapshot() == old(Snapshot()).(candlesLit := WishState.TotalCandles, timerActive := false)
      ensures Valid()
    {
      ghost var start := Snapshot();
      ticks := 0;
      while timerActive
        invariant Valid()
        invariant Snapshot() == WishState.Run(start, WishState.Ticks(ticks))
        invariant timerActive ==> Snapshot() == start.(candlesLit := start.candlesLit + ticks)
        invariant !timerActive ==> ticks == WishState.TotalCandles - start.candlesLit + 1
        invariant !timerActive ==> Snapshot() == start.(candlesLit := WishState.TotalCandles, timerActive := false)
        decreases WishState.TotalCandles - candlesLit + (if timerActive then 1 else 0)
      {
        Dispatch(WishState.IntervalElapsed);
        assert WishState.Ticks(ticks + 1) == WishState.Ticks(ticks) + [WishState.IntervalElapsed];
        WishState.RunAppend(start, WishState.Ticks(ticks), [WishState.IntervalElapsed]);
        ticks := ticks + 1;
      }
    }
  }
}
