/**
  What the countdown does over many loop passes and over any sequence of
  commands: it runs down to zero, raises both flags, ends its own loop one
  pass later, never goes negative, and the commands relate to each other as
  the view model's callers expect.
 */
module TimerProperties {
  import opened KotlinLong
  import opened TimerState

  /** One second of the loop: a pass of `Tick` if the loop is alive, nothing otherwise. */
  function Pass(s: State): (r: State)
    ensures r.time <= s.time
    ensures s.time >= 0 ==> r.time >= 0
    ensures Settled(s) ==> Settled(r)
    ensures !s.running ==> r == s
  {
    if s.running then Tick(s) else s
  }

  /** The state after k passes of the loop with no command in between. */
  function Ticks(s: State, k: nat): (r: State)
    decreases k
    ensures r.time <= s.time
    ensures s.time >= 0 ==> r.time >= 0
    ensures Settled(s) ==> Settled(r)
  {
    if k == 0 then s else Ticks(Pass(s), k - 1)
  }

  /** How many passes the loop makes before it cancels itself. */
  function PassesToIdle(s: State): nat {
    if !s.running then 0 else if s.time <= 0 then 1 else s.time as int + 1
  }

  /** Where the loop leaves the countdown once it has cancelled itself. */
  function Drained(s: State): State {
    if s.running && s.time > 0 then State(0, true, true, false) else s.(running := false)
  }

  lemma {:induction false} IdleTicks(s: State, k: nat)
    requires !s.running
    ensures Ticks(s, k) == s
    decreases k
  {
    if k > 0 {
      IdleTicks(s, k - 1);
    }
  }

  lemma {:induction false} TicksAdd(s: State, a: nat, b: nat)
    ensures Ticks(s, a + b) == Ticks(Ticks(s, a), b)
    decreases a
  {
    if a > 0 {
      TicksAdd(Pass(s), a - 1, b);
    }
  }

  /** j passes from a running time n >= j leave n - j, the flags agreeing with it, the loop alive. */
  lemma {:induction false} CountDown(s: State, j: nat)
    requires s.running && j <= s.time as int
    ensures Ticks(s, j).running
    ensures Ticks(s, j).time as int == s.time as int - j
    ensures j > 0 ==> FlagsAgree(Ticks(s, j))
    decreases j
  {
    if j > 0 {
      CountDown(Tick(s), j - 1);
    }
  }

  /** From a running time n > 0, n passes reach zero with both flags raised, the loop still alive. */
  lemma ReachesZero(s: State)
    requires s.running && s.time > 0
    ensures Ticks(s, s.time as int) == State(0, true, true, true)
  {
    CountDown(s, s.time as int);
  }

  /** Once the loop has made all its passes the countdown is drained, and further seconds change nothing. */
  lemma RunsToDrained(s: State, k: nat)
    requires k >= PassesToIdle(s)
    ensures Ticks(s, k) == Drained(s)
  {
    if !s.running {
      IdleTicks(s, k);
    } else if s.time <= 0 {
      IdleTicks(Tick(s), k - 1);
    } else {
      var n := s.time as int;
      TicksAdd(s, n, k - n);
      ReachesZero(s);
      IdleTicks(State(0, true, true, false), k - n - 1);
    }
  }

  /** The loop is alive after exactly the first PassesToIdle(s) - 1 passes. */
  lemma StillRunningIff(s: State, k: nat)
    requires s.running
    ensures Ticks(s, k).running <==> k < PassesToIdle(s)
  {
    if k >= PassesToIdle(s) {
      RunsToDrained(s, k);
    } else if s.time > 0 {
      CountDown(s, k);
    }
  }

  /** `startTimer()` twice in a row is `startTimer()` once: the first loop is cancelled. */
  lemma StartTimerTwice(s: State)
    ensures StartTimer(StartTimer(s)) == StartTimer(s)
  {
  }

  /** `stop(t)` with t > 0 is `stop()` followed by `setupAndInitTime(t)`. */
  lemma StopThenReset(s: State, t: Long)
    requires t > 0
    ensures Stop(s, t) == SetupAndInitTime(Stop(s), t)
  {
  }

  /** `addTime(-d)` undoes `addTime(d)`, also across a wrap-around. */
  lemma AddTimeUndo(s: State, d: Long)
    ensures AddTime(AddTime(s, d), Negate(d)) == s
  {
    PlusNegateCancels(s.time, d);
  }

  /** Two `addTime` calls are one call with the (wrapping) sum. */
  lemma AddTimeTwice(s: State, a: Long, b: Long)
    ensures AddTime(AddTime(s, a), b) == AddTime(s, Plus(a, b))
  {
    PlusAssociative(s.time, a, b);
  }

  /** Adding time before the time's-up flag is raised keeps the invariant, if the sum does not overflow. */
  lemma AddTimeKeepsSettled(s: State, d: Long)
    requires Settled(s) && !s.message
    requires 0 <= s.time as int + d as int <= MaxValue
    ensures Settled(AddTime(s, d))
  {
  }

  /** After time's up, `addTime()` leaves the flag raised over a positive time until the next pass. */
  lemma AddTimeAfterTimesUp()
    ensures var r := AddTime(Drained(StartTimer(SetupAndInitTime(Initial(), 1))));
      r.message && r.time == 10 && !Settled(r)
  {
  }

  /** Adding to the largest `Long` wraps to a negative time. */
  lemma AddTimeOverflow()
    ensures AddTime(State(MaxValue as Long, false, false, false), 1).time as int == MinValue
  {
  }

  /** The calls the presentation layer can make, and one pass of the loop. */
  datatype Event = SetupCalled(t: Long) | StartCalled | StopCalled(t: Long) | AddCalled(d: Long) | LoopPass

  function Apply(s: State, e: Event): State {
    match e
    case SetupCalled(t) => SetupAndInitTime(s, t)
    case StartCalled => StartTimer(s)
    case StopCalled(t) => Stop(s, t)
    case AddCalled(d) => AddTime(s, d)
    case LoopPass => Pass(s)
  }

  function Run(s: State, es: seq<Event>): State
    decreases |es|
  {
    if es == [] then s else Run(Apply(s, es[0]), es[1..])
  }

  /** Events that cannot break the invariant: no `addTime`, no negative initial time. */
  predicate Safe(e: Event) {
    match e
    case SetupCalled(t) => t >= 0
    case AddCalled(_) => false
    case _ => true
  }

  /** Without `addTime` and negative set-ups, every interleaving keeps the invariant. */
  lemma {:induction false} RunKeepsSettled(s: State, es: seq<Event>)
    requires Settled(s)
    requires forall i :: 0 <= i < |es| ==> Safe(es[i])
    ensures Settled(Run(s, es))
    decreases |es|
  {
    if es != [] {
      RunKeepsSettled(Apply(s, es[0]), es[1..]);
    }
  }

  /** Time's up over a non-zero time: the half of the invariant a negative set-up does not break. */
  predicate ExpiredAtZero(s: State) {
    s.message ==> s.time == 0
  }

  /** Without `addTime`, every interleaving, negative set-ups included, keeps time's up at zero. */
  lemma {:induction false} RunKeepsExpiredAtZero(s: State, es: seq<Event>)
    requires ExpiredAtZero(s)
    requires forall i :: 0 <= i < |es| ==> !es[i].AddCalled?
    ensures ExpiredAtZero(Run(s, es))
    decreases |es|
  {
    if es != [] {
      RunKeepsExpiredAtZero(Apply(s, es[0]), es[1..]);
    }
  }

  /** `setupAndInitTime(10)`, `startTimer()`: after 5 passes 5 is left and the near-end flag is up; after 10 time is up; the 11th pass ends the loop. */
  lemma TenSecondSession()
    ensures var s := StartTimer(SetupAndInitTime(Initial(), 10));
      Ticks(s, 5) == State(5, true, false, true) &&
      Ticks(s, 10) == State(0, true, true, true) &&
      Ticks(s, 11) == State(0, true, true, false)
  {
    var s := StartTimer(SetupAndInitTime(Initial(), 10));
    CountDown(s, 5);
    ReachesZero(s);
    RunsToDrained(s, 11);
  }

  /** `setupAndInitTime(3)`, `startTimer()`, `addTime(10)`: 13 passes reach zero. */
  lemma ThreePlusTenSession()
    ensures var s := AddTime(StartTimer(SetupAndInitTime(Initial(), 3)), 10);
      Ticks(s, 13) == State(0, true, true, true)
  {
    var s := AddTime(StartTimer(SetupAndInitTime(Initial(), 3)), 10);
    ReachesZero(s);
  }

  /** `stop(20)` while running: 20 seconds, both flags down, no loop. */
  lemma StopWhileRunning(s: State)
    requires s.running
    ensures Stop(s, 20) == State(20, false, false, false)
  {
  }
}
