/**
  The view model itself: the three observed values and the loop handle are
  fields that its methods update in place. Each `postValue(x)` is an
  assignment made at once, in the order the code posts them, and the `job`
  handle becomes the flag `running`.
 */
module CanvasAnime {
  import opened KotlinLong
  import TimerState
  import TimerProperties

  class CanvasAnimeViewModel {
    var time: Long      // timeState
    var alert: bool     // alertState
    var message: bool   // alertMessage
    var running: bool   // job is alive

    /** The fields as a value of the countdown model. */
    function State(): TimerState.State
      reads this
    {
      TimerState.State(time, alert, message, running)
    }

    /** A new view model: zero seconds, both flags down, no loop. */
    constructor ()
      ensures time == 0 && !alert && !message && !running
      ensures State() == TimerState.Initial()
    {
      time, alert, message, running := 0, false, false, false;
    }

    method SetupAndInitTime(t: Long)
      modifies this
      ensures time == t && !alert && !message && running == old(running)
      ensures State() == TimerState.SetupAndInitTime(old(State()), t)
    {
      time := t;
      alert := false;
      message := false;
    }

    method StartTimer()
      modifies this
      ensures running
      ensures time == old(time) && alert == old(alert) && message == old(message)
      ensures State() == TimerState.StartTimer(old(State()))
    {
      Stop();
      running := true;
    }

    /** One pass of the loop body; only a live loop makes one. */
    method Tick()
      requires running
      modifies this
      ensures old(time) <= 0 ==> !running && time == old(time) && alert == old(alert) && message == old(message)
      ensures old(time) > 0 ==> running && time == old(time) - 1
      ensures old(time) > 0 ==> alert == (old(time) - 1 <= TimerState.AlertThreshold) && message == (old(time) - 1 <= 0)
      ensures State() == TimerState.Tick(old(State()))
    {
      if time <= 0 {
        running := false;
        return;
      }
      alert := time - 1 <= TimerState.AlertThreshold;
      message := time - 1 <= 0;
      time := CoerceAtLeast(time - 1, 0);
    }

    /** The `while (isActive)` loop of `startTimer`, when no other command comes in before it ends. */
    method RunTickLoop()
      modifies this
      ensures !running
      ensures State() == TimerProperties.Drained(old(State()))
    {
      ghost var s0 := State();
      while running
        invariant !s0.running ==> State() == s0
        invariant s0.running && s0.time <= 0 ==> State() == s0 || State() == s0.(running := false)
        invariant s0.running && s0.time > 0 ==> 0 <= time <= s0.time
        invariant s0.running && s0.time > 0 && time == s0.time ==> State() == s0
        invariant s0.running && s0.time > 0 && time < s0.time ==> TimerState.FlagsAgree(State())
        invariant s0.running && s0.time > 0 && !running ==> time == 0
        decreases running, time
      {
        Tick();
      }
    }

    method Stop(t: Long := 0)
      modifies this
      ensures !running
      ensures t <= 0 ==> time == old(time) && alert == old(alert) && message == old(message)
      ensures t > 0 ==> time == t && !alert && !message
      ensures State() == TimerState.Stop(old(State()), t)
    {
      running := false;
      if t > 0 {
        SetupAndInitTime(t);
      }
    }

    method AddTime(d: Long := 10)
      modifies this
      ensures time == Plus(old(time), d)
      ensures alert == old(alert) && message == old(message) && running == old(running)
      ensures State() == TimerState.AddTime(old(State()), d)
    {
      time := Plus(time, d);
    }
  }
}
