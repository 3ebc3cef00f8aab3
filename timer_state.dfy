/**
  The countdown held by `CanvasAnimeViewModel`, as a value: the remaining
  seconds (`timeState`), the near-end flag (`alertState`), the time's-up flag
  (`alertMessage`) and whether the tick loop (`job`) is alive. Each command
  and one pass of the tick loop are functions from state to state.
 */
module TimerState {
  import opened KotlinLong

  /** The seconds below or at which a tick raises the near-end flag. */
  const AlertThreshold: Long := 5

  datatype State = State(time: Long, alert: bool, message: bool, running: bool)

  /** The invariant a countdown should keep: time is never negative, and time's up means zero. */
  predicate Settled(s: State) {
    s.time >= 0 && (s.message ==> s.time == 0)
  }

  /** Flags as a tick leaves them: both agree with the time it stored. */
  predicate FlagsAgree(s: State) {
    s.alert == (s.time <= AlertThreshold) && s.message == (s.time <= 0)
  }

  /** The values of a freshly created view model. */
  function Initial(): (r: State)
    ensures r.time == 0 && Settled(r) && !r.running
    ensures !r.alert && !r.message
  {
    State(0, false, false, false)
  }

  /** `setupAndInitTime(t)`: posts t and clears both flags; the loop is left alone. */
  function SetupAndInitTime(s: State, t: Long): (r: State)
    ensures r.time == t && r.running == s.running
    ensures Settled(r) <==> t >= 0
    ensures !r.alert && !r.message
  {
    State(t, false, false, s.running)
  }

  /**
    One pass of the `while (isActive)` loop of `startTimer`, fired only while
    the loop is alive. At zero or below it cancels the loop and posts nothing;
    otherwise it posts both flags from `time - 1` and then `max(time - 1, 0)`.
   */
  function Tick(s: State): (r: State)
    requires s.running
    ensures s.time <= 0 ==> r == s.(running := false)
    ensures s.time > 0 ==> r.running && r.time as int == s.time as int - 1 && FlagsAgree(r)
    ensures s.time >= 0 ==> r.time >= 0
    ensures Settled(s) ==> Settled(r)
  {
    if s.time <= 0 then
      s.(running := false)
    else
      var alert := s.time - 1 <= AlertThreshold;
      var message := s.time - 1 <= 0;
      var time := CoerceAtLeast(s.time - 1, 0);
      State(time, alert, message, true)
  }

  /** `stop(t)`: cancels the loop, then re-initialises when t is positive. */
  function Stop(s: State, t: Long := 0): (r: State)
    ensures !r.running
    ensures t <= 0 ==> r.time == s.time && r.alert == s.alert && r.message == s.message
    ensures t > 0 ==> r.time == t && !r.alert && !r.message
    ensures Settled(s) ==> Settled(r)
  {
    var stopped := s.(running := false);
    if t > 0 then SetupAndInitTime(stopped, t) else stopped
  }

  /** `startTimer()`: `stop()` and then a fresh loop, so only one is ever alive. */
  function StartTimer(s: State): (r: State)
    ensures r.running
    ensures r.time == s.time && r.alert == s.alert && r.message == s.message
  {
    Stop(s).(running := true)
  }

  /** `addTime(d)`: posts the old time plus d (wrapping as Kotlin's `Long` does). */
  function AddTime(s: State, d: Long := 10): (r: State)
    ensures r.alert == s.alert && r.message == s.message && r.running == s.running
    ensures SameBits(r.time as int, s.time as int + d as int)
    ensures InRange(s.time as int + d as int) ==> r.time as int == s.time as int + d as int
  {
    s.(time := Plus(s.time, d))
  }
}
