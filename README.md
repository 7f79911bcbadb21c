# BirthdayWish: a verified model of the birthday card's state machine

The `BirthdayWish` component draws a birthday card with seven candles, five
balloons and a "Celebrate!" button. Its only logic is a small state machine:

- A click on candle `i` lights the next candle, but only when `i` is the
  number of candles already lit. Balloons work the same way.
- The celebrate button raises `celebrating` and `showConfetti` and schedules
  a 300 ms interval. Each period of the interval adds a candle until all
  seven are lit. On the period after that the interval cancels itself.
- An effect shows the confetti once seven candles are lit and five balloons
  are popped.
- The render code draws candle `i` lit when `i <= candlesLit` during a
  celebration and when `i < candlesLit` otherwise. It draws balloon `i`
  popped when `i < balloonsPoppedCount`.

The model has two modules:

- `WishState` (wish_state.dfy) holds the state as a value. It has one
  function per handler, the watcher, `Handle` (one event handled to
  completion) and `Run` (a session of events). It states the invariant
  `Valid`, the monotonicity relation `Advances`, the display predicates,
  and lemmas about timer runs, click sequences and what the card draws.
- `WishComponent` (wish_component.dfy) holds the class `BirthdayWish`.
  The class has the component's state fields. Its methods update those
  fields in place, and each method is proved to match its `WishState`
  function through `Snapshot()`. `RunTimer` is the interval as a loop that
  ends when the interval cancels itself.

The interval timer is modelled by two extra fields. `timerActive` says
whether the interval is still scheduled. `intervalsStarted` counts the
intervals ever scheduled. Each event is handled to completion before the
next one, as in the browser's event loop, so the model is sequential.

One might expect the interval to stop when the seventh candle lights; the
code stops it one period later, and the model follows the code. The count reaches 7 after `7 - c` periods, where
`c` is the count when the timer starts. The callback cancels the interval
only on the following period, so the interval fires `8 - c` times in all
(`TimerRunsOut`, `RunTimer`).

## Model

| member | source | states |
|---|---|---|
| `WishState.Initial` | src/components/birthday-wish.tsx:20-24 | At mount both counters are 0, no flag is raised and no timer runs; this state satisfies the invariant |
| `WishState.LightCandle` | src/components/birthday-wish.tsx:49-53 | The candle count goes up by exactly one iff the index is the current count; any other index, including an already lit one, leaves the whole state unchanged; no other field changes; in-range indices keep the count within 0..7 |
| `WishState.PopBalloon` | src/components/birthday-wish.tsx:56-60 | The balloon count goes up by exactly one iff the index is the current count; otherwise the state is unchanged; no other field changes; in-range indices keep the count within 0..5 |
| `WishState.Celebrate` | src/components/birthday-wish.tsx:63-73 | Raises `celebrating` and `showConfetti` whatever the counters are, schedules one more interval, and leaves both counters alone |
| `WishState.Tick` | src/components/birthday-wish.tsx:66-72 | A period adds at most one candle, and adds one iff the interval is scheduled and the count is below 7; it never takes the count past 7; afterwards the interval is scheduled iff it was scheduled and the count was below 7; nothing else changes |
| `WishState.Watch` | src/components/birthday-wish.tsx:42-46 | Afterwards the confetti is shown iff it was shown before or both counters are at their totals; it never hides the confetti and changes nothing else |
| `WishState.Handle` | src/components/birthday-wish.tsx:42-156 | Every event (with the celebrate click ignored while the button is disabled) keeps the timer bookkeeping consistent, keeps the invariant for events the rendered card can produce, never lowers a counter and never lowers a raised flag |
| `WishState.Run` | src/components/birthday-wish.tsx:49-72 | Over any sequence of events the same holds: timer consistency and, for clicks the card can produce, the bounds and the confetti rule are kept; counters never decrease; raised flags stay raised |
| `WishState.ReachableIsValid` | src/components/birthday-wish.tsx:100-144 | After any interleaving of rendered clicks and timer periods from mount, `0 <= candlesLit <= 7` and `0 <= balloonsPoppedCount <= 5` hold |
| `WishState.UnrenderedClickBreaksBound` | src/components/birthday-wish.tsx:49-53 | The handler alone does not bound the count: clicking indices 0..7 in order gives 8 lit candles, so the bound rests on the indices the card renders |
| `WishState.CelebrateTwiceStartsTwoIntervals` | src/components/birthday-wish.tsx:63-73 | The celebrate handler has no guard of its own: called twice it schedules two intervals |
| `WishState.AtMostOneInterval` | src/components/birthday-wish.tsx:153-156 | Because the button is disabled while celebrating, any session from mount schedules at most one interval, and a celebrate click during a celebration changes nothing |
| `WishState.FlagsStayRaised` | src/components/birthday-wish.tsx:42-73 | Extending a session never lowers a counter, and once `showConfetti` or `celebrating` is true it stays true |
| `WishState.TicksAddCandles` | src/components/birthday-wish.tsx:66-72 | While the count stays within 7 and the interval is scheduled, `n` periods add exactly `n` candles and change nothing else |
| `WishState.StoppedTimerIgnoresTicks` | src/components/birthday-wish.tsx:66-72 | Once the interval is cancelled, any number of periods leave the state unchanged |
| `WishState.TimerRunsOut` | src/components/birthday-wish.tsx:66-72 | From a running timer with `c` candles lit, `7 - c` periods light all seven; one more period cancels the interval; later periods change nothing; no other field changes |
| `WishState.CelebrateScenario` | src/components/birthday-wish.tsx:63-73 | From mount, one celebrate click shows the confetti at once; seven periods later all candles are lit; the eighth period cancels the interval and later ones change nothing |
| `WishState.LightInOrder` | src/components/birthday-wish.tsx:49-53 | Clicking the candles in order from the next unlit one adds one candle per click and leaves the balloons and the celebration alone |
| `WishState.PopInOrder` | src/components/birthday-wish.tsx:56-60 | Popping the balloons in order from the next one adds one per click and leaves the candles and the celebration alone |
| `WishState.CompletionShowsConfetti` | src/components/birthday-wish.tsx:42-46 | Lighting candles 0..6 and then popping balloons 0..4 shows the confetti without any celebration |
| `WishState.OutOfOrderClickIgnored` | src/components/birthday-wish.tsx:49-53 | A first click on candle 3 leaves the card as it was at mount |
| `WishState.FromCard` | src/components/birthday-wish.tsx:100-144 | The definition of the indices the rendered `onClick` closures pass: 0..6 for a candle, 0..4 for a balloon; celebrate clicks and timer periods are always possible. Its properties are stated by `WishState.Run`, `WishState.ReachableIsValid` (the bounds hold for these events) and `WishState.UnrenderedClickBreaksBound` (they fail for an index outside them) |
| `WishState.CandleDrawnLit` | src/components/birthday-wish.tsx:103 | Candle `i` is drawn lit iff `i <= candlesLit` while celebrating and `i < candlesLit` otherwise, that is, iff it is below the count or, during a celebration, it is the next candle to light |
| `WishState.BalloonDrawnPopped` | src/components/birthday-wish.tsx:137-143 | Balloon `i` is drawn popped (grey, scaled to 0) iff `i < balloonsPoppedCount`; a balloon drawn popped ignores clicks, and among those drawn whole exactly the first responds to a click. `WishState.PoppedBalloonsShownCount`, `WishState.DisplayOnlyAdvances` and `WishState.ClickRedraws` state its other properties |
| `WishState.ClickRedraws` | src/components/birthday-wish.tsx:49-143 | After a click on candle `i` it is drawn lit iff it was drawn lit before or it was the next one to light; after a click on balloon `i` it is drawn popped iff it was before or it was the next one to pop |
| `WishState.LitCandlesShownCount` | src/components/birthday-wish.tsx:103 | Of the first `n` candles, the number drawn lit is `min(n, candlesLit + 1)` during a celebration and `min(n, candlesLit)` otherwise |
| `WishState.PoppedBalloonsShownCount` | src/components/birthday-wish.tsx:137-143 | Of the first `n` balloons, the number drawn popped is `min(n, balloonsPoppedCount)` |
| `WishState.DisplayMatchesCounters` | src/components/birthday-wish.tsx:100-147 | In a valid state the candle row shows exactly the count outside a celebration and one candle more during one (capped at 7); the balloon row shows exactly the popped count |
| `WishState.NextCandleDrawn` | src/components/birthday-wish.tsx:103 | The candle a click would light next is drawn lit iff a celebration is running |
| `WishState.DisplayOnlyAdvances` | src/components/birthday-wish.tsx:103-143 | A candle drawn lit, or a balloon drawn popped, is still drawn so after any event |
| `WishComponent.BirthdayWish.constructor` | src/components/birthday-wish.tsx:20-24 | The fields start as the mount state and satisfy the invariant |
| `WishComponent.BirthdayWish.LightCandle` | src/components/birthday-wish.tsx:49-53 | Updates the fields in place exactly as `WishState.LightCandle` |
| `WishComponent.BirthdayWish.PopBalloon` | src/components/birthday-wish.tsx:56-60 | Updates the fields in place exactly as `WishState.PopBalloon` |
| `WishComponent.BirthdayWish.Celebrate` | src/components/birthday-wish.tsx:63-73 | Updates the fields in place exactly as `WishState.Celebrate` |
| `WishComponent.BirthdayWish.Tick` | src/components/birthday-wish.tsx:66-72 | Updates the fields in place exactly as `WishState.Tick` |
| `WishComponent.BirthdayWish.Watch` | src/components/birthday-wish.tsx:42-46 | Updates the fields in place exactly as `WishState.Watch` |
| `WishComponent.BirthdayWish.Dispatch` | src/components/birthday-wish.tsx:42-73 | Handles one event as `WishState.Handle`; keeps the invariant for events the card can produce; counters never go down and raised flags stay raised |
| `WishComponent.BirthdayWish.RunTimer` | src/components/birthday-wish.tsx:66-72 | The interval stops by itself after exactly `8 - c` periods; then all seven candles are lit, the timer is off, nothing else has changed and the invariant holds |

## Left out

- The window size and its resize listener (lines 31-38): browser I/O that only sizes the confetti.
- The confetti renderer and its props, the animations and their timings, icons, colour arrays and class strings: presentation only. `showConfetti` is modelled as the flag that decides whether the confetti is drawn.
- Real time: the 300 ms interval is one `IntervalElapsed` event per period, and the interval is the flag `timerActive`.
- React's stale closure: the click handlers compare the index with the rendered count and increment the updater's previous value. The model assumes each event sees freshly rendered state, so both are the same number.
- The confetti effect runs after every event that may change a counter, not only when a counter's value changed. On a state satisfying the invariant the extra runs change nothing.
- JavaScript numbers are modelled as unbounded integers. With the indices the card renders the counters stay within 0..7, and those indices are integers.
- The model follows a single interval: `timerActive` is one flag. Two raw `celebrate()` calls would schedule two intervals, each adding a candle per period, but `Tick` adds one. The disabled button makes that state unreachable (`AtMostOneInterval`), so `CelebrateTwiceStartsTwoIntervals` only records that two intervals were scheduled, not how they would run.
- Teardown of the component while the interval is still scheduled is not modelled; the component has no cleanup for it.
