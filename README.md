# Countdown timer of CanvasCounterAnimationCompose

This models the countdown state machine behind the app's animated water-wave timer: the view
model `CanvasAnimeViewModel`. It holds the remaining seconds (`timeState`), a near-end flag
(`alertState`), a time's-up flag (`alertMessage`) and the handle of the single tick loop (`job`).
Four commands change them: `setupAndInitTime`, `startTimer`, `stop` and `addTime`. While the loop
is alive, it makes one pass per second.

Modules:

- `KotlinLong` (`kotlin_long.dfy`): Kotlin's 64-bit `Long`. It covers wrapping addition (`Plus`), negation and `coerceAtLeast`.
- `TimerState` (`timer_state.dfy`): the four observed values as a datatype `State`. It has one function per command and one for a pass of the loop (`Tick`). It also defines the invariant `Settled`: time is never negative, and time's up means zero.
- `TimerProperties` (`timer_properties.dfy`): what many passes and command sequences do. Countdown to zero, self-cancellation one pass later, three concrete sessions, and the invariant over any interleaving of commands.
- `CanvasAnime` (`canvas_anime_view_model.dfy`): the class `CanvasAnimeViewModel`. Its fields are updated in place by the commands, by `Tick` and by `RunTickLoop` (the whole `while (isActive)` loop, run with no command in between). Every method states its new fields and ties them to the matching `TimerState` function.

Behaviour of the code worth noting:

- `setupAndInitTime` does not cancel the loop. It only posts the time and clears both flags.
- The loop posts time 0 with both flags raised. It cancels itself on the *next* pass, so a countdown from n makes n + 1 passes (`PassesToIdle`, `StillRunningIff`).
- From `setupAndInitTime(10)` and `startTimer()`, five passes leave 5 seconds with the near-end flag *raised*. The pass from 6 posts `5 <= 5` (`TenSecondSession`).
- "time's up implies zero seconds" is not kept by `addTime`. After time's up, `addTime()` gives 10 seconds with the flag still raised until the next pass (`AddTimeAfterTimesUp`). The whole invariant holds across any interleaving of loop passes, starts, stops and non-negative set-ups (`RunKeepsSettled`). A negative set-up breaks only its "time is never negative" half. The "time's up implies zero" half survives every command except `addTime` (`RunKeepsExpiredAtZero`).

## Model

| member | source | states |
|---|---|---|
| `CanvasAnime.CanvasAnimeViewModel.constructor` | app/src/main/java/com/masterbit/canvasanimeapp/CanvasAnimeViewModel.kt:17-21 | a new view model has 0 seconds, both flags down and no loop |
| `TimerState.Initial` | app/src/main/java/com/masterbit/canvasanimeapp/CanvasAnimeViewModel.kt:17-21 | the initial values are 0 seconds with both flags down; they satisfy the invariant and no loop runs |
| `CanvasAnime.CanvasAnimeViewModel.SetupAndInitTime` | app/src/main/java/com/masterbit/canvasanimeapp/CanvasAnimeViewModel.kt:23-29 | time becomes t, both flags are cleared, the loop is untouched |
| `TimerState.SetupAndInitTime` | app/src/main/java/com/masterbit/canvasanimeapp/CanvasAnimeViewModel.kt:23-29 | time becomes t, flags cleared, loop state kept; the result satisfies the invariant exactly when t >= 0 |
| `CanvasAnime.CanvasAnimeViewModel.StartTimer` | app/src/main/java/com/masterbit/canvasanimeapp/CanvasAnimeViewModel.kt:31-33 | stops any loop, then one loop is alive; the values are unchanged |
| `TimerState.StartTimer` | app/src/main/java/com/masterbit/canvasanimeapp/CanvasAnimeViewModel.kt:31-33 | the loop is alive and time and flags are unchanged |
| `TimerProperties.StartTimerTwice` | app/src/main/java/com/masterbit/canvasanimeapp/CanvasAnimeViewModel.kt:31-33 | a second call changes nothing: the loop stays alive and time and flags are unchanged |
| `CanvasAnime.CanvasAnimeViewModel.Tick` | app/src/main/java/com/masterbit/canvasanimeapp/CanvasAnimeViewModel.kt:35-42 | at time <= 0 the loop ends and nothing is posted; otherwise the near-end flag is `time - 1 <= 5`, the time's-up flag is `time - 1 <= 0`, and the stored time is time - 1 |
| `TimerState.Tick` | app/src/main/java/com/masterbit/canvasanimeapp/CanvasAnimeViewModel.kt:35-42 | one pass either ends the loop with the values unchanged or decrements by one, with both flags agreeing with the new time; it never makes a time negative and keeps the invariant |
| `CanvasAnime.CanvasAnimeViewModel.RunTickLoop` | app/src/main/java/com/masterbit/canvasanimeapp/CanvasAnimeViewModel.kt:34-44 | the loop run to its end leaves the loop dead, and, from a positive time, 0 seconds with both flags raised |
| `TimerProperties.Pass` | app/src/main/java/com/masterbit/canvasanimeapp/CanvasAnimeViewModel.kt:34-44 | one second never raises the time or makes it negative, keeps the invariant, and does nothing without a live loop |
| `TimerProperties.Ticks` | app/src/main/java/com/masterbit/canvasanimeapp/CanvasAnimeViewModel.kt:34-44 | any number of seconds never raises the time or makes it negative, and keeps the invariant |
| `TimerProperties.IdleTicks` | app/src/main/java/com/masterbit/canvasanimeapp/CanvasAnimeViewModel.kt:34 | without a live loop, seconds pass with no change |
| `TimerProperties.TicksAdd` | app/src/main/java/com/masterbit/canvasanimeapp/CanvasAnimeViewModel.kt:34-44 | a + b passes are a passes followed by b passes |
| `TimerProperties.CountDown` | app/src/main/java/com/masterbit/canvasanimeapp/CanvasAnimeViewModel.kt:34-44 | j passes from a live loop at n >= j leave n - j, the loop alive, and for j > 0 both flags agreeing with n - j |
| `TimerProperties.ReachesZero` | app/src/main/java/com/masterbit/canvasanimeapp/CanvasAnimeViewModel.kt:34-44 | n passes from n > 0 reach 0 seconds with both flags raised |
| `TimerProperties.RunsToDrained` | app/src/main/java/com/masterbit/canvasanimeapp/CanvasAnimeViewModel.kt:34-44 | after the loop's passes (and any further seconds) the loop is dead; the state has 0 seconds with both flags raised when the loop started above 0, and otherwise the values from before |
| `TimerProperties.StillRunningIff` | app/src/main/java/com/masterbit/canvasanimeapp/CanvasAnimeViewModel.kt:35-38 | the loop is alive after k passes exactly when k is less than its number of passes (n + 1 from n > 0, 1 from n <= 0) |
| `TimerProperties.TenSecondSession` | app/src/main/java/com/masterbit/canvasanimeapp/CanvasAnimeViewModel.kt:23-44 | from 10, five passes give 5 with the near-end flag up, ten give 0 with time up, and the eleventh ends the loop |
| `TimerProperties.ThreePlusTenSession` | app/src/main/java/com/masterbit/canvasanimeapp/CanvasAnimeViewModel.kt:23-58 | from 3 with 10 added, 13 passes reach 0 with time up |
| `CanvasAnime.CanvasAnimeViewModel.Stop` | app/src/main/java/com/masterbit/canvasanimeapp/CanvasAnimeViewModel.kt:48-53 | the loop always ends; with t <= 0 nothing else changes, with t > 0 time is t and both flags are cleared |
| `TimerState.Stop` | app/src/main/java/com/masterbit/canvasanimeapp/CanvasAnimeViewModel.kt:48-53 | the loop ends; the values are kept for t <= 0 and reset to t for t > 0; the invariant is kept |
| `TimerProperties.StopThenReset` | app/src/main/java/com/masterbit/canvasanimeapp/CanvasAnimeViewModel.kt:48-53 | `stop(t)` with t > 0 equals `stop()` followed by `setupAndInitTime(t)` |
| `TimerProperties.StopWhileRunning` | app/src/main/java/com/masterbit/canvasanimeapp/CanvasAnimeViewModel.kt:48-53 | `stop(20)` on a live loop gives 20 seconds, flags down, no loop |
| `CanvasAnime.CanvasAnimeViewModel.AddTime` | app/src/main/java/com/masterbit/canvasanimeapp/CanvasAnimeViewModel.kt:55-58 | the time becomes the old time plus d in `Long` arithmetic; the flags and the loop are unchanged |
| `TimerState.AddTime` | app/src/main/java/com/masterbit/canvasanimeapp/CanvasAnimeViewModel.kt:55-58 | the new time has the bits of old time + d, equals it when there is no overflow; the flags and the loop are unchanged |
| `TimerProperties.AddTimeUndo` | app/src/main/java/com/masterbit/canvasanimeapp/CanvasAnimeViewModel.kt:55-58 | adding -d after d restores the state, also across a wrap-around |
| `TimerProperties.AddTimeTwice` | app/src/main/java/com/masterbit/canvasanimeapp/CanvasAnimeViewModel.kt:55-58 | adding a and then b equals adding a + b |
| `TimerProperties.AddTimeKeepsSettled` | app/src/main/java/com/masterbit/canvasanimeapp/CanvasAnimeViewModel.kt:55-58 | before time's up, adding without overflow to a non-negative result keeps the invariant |
| `TimerProperties.AddTimeAfterTimesUp` | app/src/main/java/com/masterbit/canvasanimeapp/CanvasAnimeViewModel.kt:55-58 | after time's up, `addTime()` gives 10 seconds with the time's-up flag still raised, which breaks the invariant |
| `TimerProperties.AddTimeOverflow` | app/src/main/java/com/masterbit/canvasanimeapp/CanvasAnimeViewModel.kt:57 | adding 1 to the largest `Long` wraps to the smallest |
| `TimerProperties.RunKeepsExpiredAtZero` | app/src/main/java/com/masterbit/canvasanimeapp/CanvasAnimeViewModel.kt:23-53 | any interleaving of loop passes, starts, stops and set-ups of any sign keeps the time's-up flag only at 0 seconds |
| `TimerProperties.RunKeepsSettled` | app/src/main/java/com/masterbit/canvasanimeapp/CanvasAnimeViewModel.kt:23-53 | any interleaving of loop passes, starts, stops and non-negative set-ups keeps time non-negative and time's up at zero |
| `KotlinLong.Wrap` | app/src/main/java/com/masterbit/canvasanimeapp/CanvasAnimeViewModel.kt:57 | the `Long` with the same 64-bit pattern as an integer; it is the integer itself when in range |
| `KotlinLong.Plus` | app/src/main/java/com/masterbit/canvasanimeapp/CanvasAnimeViewModel.kt:57 | `Long` addition: the result has the bits of the sum and equals it without overflow |
| `KotlinLong.Negate` | app/src/main/java/com/masterbit/canvasanimeapp/CanvasAnimeViewModel.kt:57 | Kotlin's unary minus on `Long`, which this line does not use; it is defined to state `addTime`'s inverse (`AddTimeUndo`): the result added to a is 0 modulo 2^64, and it is -a except for the smallest `Long` |
| `KotlinLong.PlusNegateCancels` | app/src/main/java/com/masterbit/canvasanimeapp/CanvasAnimeViewModel.kt:57 | (a + d) + (-d) == a in `Long` arithmetic |
| `KotlinLong.PlusAssociative` | app/src/main/java/com/masterbit/canvasanimeapp/CanvasAnimeViewModel.kt:57 | `Long` addition is associative, overflow or not |
| `KotlinLong.CoerceAtLeast` | app/src/main/java/com/masterbit/canvasanimeapp/CanvasAnimeViewModel.kt:42 | the result is the larger of the value and the bound |

## Left out

- TimerProperties.StartTimerTwice: the model holds the loop as one `running` flag, so it cannot represent two live loops. "At most one loop, no double decrement" therefore holds by construction and not by proof. The lemma would also hold if `startTimer` did not call `stop()` first (line 32).
- Coroutine machinery (`viewModelScope.launch(Dispatchers.IO)`, `Job.cancel`, `isActive`): the model replaces the job with the flag `running`. A pass of the loop and a command never run at the same time.
- `delay(1_000)`: real time is not modelled. Only loop passes are counted, and one pass stands for one second.
- `postValue` delivers asynchronously, and reads of `timeState.value` can be stale. The model makes each post an immediate assignment in the order of the code. Races between `addTime`, `setupAndInitTime` and a running loop are not modelled; interleavings of whole commands are (`Run`).
- Hilt injection (`@HiltViewModel`, `@Inject`): framework wiring with no logic.
- `HomeScreen.kt`: Compose layout, buttons and float animation tweens. It also holds the Bezier wave drawing and the time label formatted by `DateUtils.formatElapsedTime`, a platform library call that is not part of this model. It is all user interface and floating-point graphics.
- `ui/theme/Type.kt`: constant typography definitions with no logic.
