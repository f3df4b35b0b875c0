# filmdev in Dafny

A model of the logic inside filmdev, a browser app that guides film
development through its three timed baths: Develop, Stop and Fix. The user
enters a developing time, a temperature, a stop-bath time and a fixing time.
The form turns these into three stages, and the app then runs one countdown
timer per stage. While a stage runs, the timer cues Pour, Agitate and Drain.

The modules follow the source files:

- `Util` (`util.dfy`) models `formatDuration`, which prints seconds as
  zero-padded `MM:SS`. It also gives a reader for that text (`ParseClock`),
  used to state the round trip. JavaScript's truncating `%` is written out,
  because Dafny's `%` is Euclidean. `Math.floor(d / 60)` is Dafny's `/`,
  which already rounds down for the positive divisor 60.
- `Timer` (`timer.dfy`) models `computeAction`, the debounced `setAction`,
  and the Idle → Running → Finished lifecycle driven by `onStart` and
  `onTick`. It also models the drift-corrected delay before the next tick,
  teardown (as written and as intended, see Findings), the value on the
  display and which buttons are enabled. Time is
  an integer input in milliseconds. The scheduled `setTimeout` is a field
  holding its delay. Each `blip.play()` is an entry in a cue log.
- `Form` (`form.dfy`) models the constructor defaults, `onSubmit` building
  the three stages, `onReset` and `onConfirm`.
- `App` (`app.dfy`) models the view choice in `render`, `onSubmitForm`,
  `onNext` and the constructor.
- `Session` (`session.dfy`) puts the shell together with the one component
  it shows. The timer is keyed by its index, and the form is created afresh
  whenever it comes back. So every component that appears starts in its
  constructor state.
- `Wrappers` (`wrappers.dfy`) holds `Option`.

Behaviour of the code worth knowing when reading the model:

- The delay before the next tick is `1000 - drift` and is not clamped at
  zero (a browser runs a negative delay as 0).
  `Timer.NegativeDelayExample` shows a delay of -500 ms.
- "Elapsed never exceeds the duration" only holds for a duration of at
  least one second. With a duration of 0 or less, one tick already finishes
  the timer with elapsed 1. The invariant therefore uses
  `Target(d) = max(d, 1)`.
- Nothing rejects non-positive inputs. The form passes them through as
  entered.

## Model

| member | source | states |
|---|---|---|
| `Util.NatToString` | src/util.js:4-5 | `toString` of a natural number: decimal digits only, no leading zero, one character exactly when the value is below 10 |
| `Util.IntToString` | src/util.js:4-5 | `toString` of an integer: for `n >= 0` all digits, reading back as `n`; for `n < 0` a minus sign followed by digits reading back as `-n` |
| `Util.JsRemMinute` | src/util.js:4 | JavaScript `%` by 60 lies strictly between -60 and 60. It equals the Euclidean remainder for non-negative input. For negative input not divisible by 60 it is that remainder minus 60, so it takes the sign of the dividend |
| `Util.FieldsOfNonNegative` | src/util.js:4-12 | for `d >= 0`: the seconds field is exactly two digits worth `d % 60 < 60`. The minutes field is worth `floor(d / 60)`: exactly two digits below ten minutes (one `0` of padding at most), and the plain unpadded number from ten minutes on, never truncated. Together they give `m*60 + s == d` |
| `Util.MinutesFieldOfNegative` | src/util.js:5-12 | for a negative duration the minutes field keeps its minus sign |
| `Util.FormatDuration` | src/util.js:3-15 | the text is at least five characters. For `d >= 0` it is digits, a colon, then exactly two digits; for `d < 0` it starts with a minus sign |
| `Util.ClockOfNonNegative` | src/util.js:3-15 | a non-negative duration reads back from its `MM:SS` text |
| `Util.NoClockOfNegative` | src/util.js:3-15 | the text of a negative duration is not a clock reading at all |
| `Util.FormatDurationRoundTrip` | src/util.js:3-15 | reading back `formatDuration(d)` gives `d` exactly when `d >= 0`, and nothing otherwise |
| `Util.FormatDurationExamples` | src/util.js:3-15 | 125 shows as `02:05`, 59 as `00:59`, 60 as `01:00` |
| `Util.FormatDurationNegativeExample` | src/util.js:3-15 | -5 shows as `-1:-5`: the fields have mixed meanings for negative input |
| `Timer.LabelInjective` | src/Timer.js:196-221 | the four labels are distinct, so the string comparison in `setAction` compares actions |
| `Timer.ComputeAction` | src/Timer.js:195-222 | Drain exactly in the last ten seconds; otherwise Pour exactly before 10 s; otherwise Agitate exactly in the 10-20 s window or the first ten seconds of each later minute; otherwise nothing |
| `Timer.DrainIsFinal` | src/Timer.js:196-199 | once Drain shows, it shows at every later elapsed count |
| `Timer.PourIsPrefix` | src/Timer.js:196-204 | Pour shows over one unbroken run from elapsed 0: if it shows at some count, it shows at every earlier one |
| `Timer.ActionPeriodic` | src/Timer.js:216-221 | after the first minute the action repeats every 60 s until Drain takes over |
| `Timer.ThirtySecondStage` | src/Timer.js:195-222 | a 30 s stage shows Pour for 0-9, Agitate for 10-19 and Drain for 20-30 |
| `Timer.SetAction` | src/Timer.js:224-233 | setting the current action changes nothing; otherwise the action is replaced, and one blip is played exactly when the new action is non-empty; no other field changes |
| `Timer.SetActionIdempotent` | src/Timer.js:224-227 | setting the same action twice is the same as setting it once |
| `Timer.SetActionsCues` | src/Timer.js:224-233 | over any run of actions, the blips played are exactly the transitions to a different, non-empty action, and the last action stays set |
| `Timer.TransitionsShape` | src/Timer.js:229-232 | no blip is played for the empty action, and there are never more blips than updates |
| `Timer.NoTransitionsWhenSteady` | src/Timer.js:225-227 | repeating the current action any number of times plays no blip |
| `Timer.Init` | src/Timer.js:86-93 | a new timer is Idle and satisfies the lifecycle invariant. Start is enabled and Next is not. It shows the full duration, has nothing scheduled, has played nothing and holds no wake lock |
| `Timer.PressStart` | src/Timer.js:136-150 | a click raises the waiting-for-lock flag exactly when Start is enabled (or it was already raised). Nothing else changes, and a click on the disabled button changes nothing |
| `Timer.PressStartOnce` | src/Timer.js:147-150 | a second press while the wake lock is awaited does nothing, and once waiting, Start stays disabled, so the start cannot begin twice |
| `Timer.LockSettled` | src/Timer.js:152-164 | once the wake-lock request settles, the lock is remembered when granted (a refusal is ignored). The timer runs from the current time, schedules its first tick 1000 ms away and shows the action for its elapsed count |
| `Timer.Tick` | src/Timer.js:169-187 | a tick adds exactly one second and recomputes the action. The timer keeps running with a tick pending exactly while elapsed < duration, otherwise it finishes. The next tick is due at `start + (elapsed+1)*1000` ms whatever the jitter. The wake-lock flags are left as they were |
| `Timer.NegativeDelayExample` | src/Timer.js:175-180 | a tick that fires 2.5 s after the start asks for a delay of -500 ms; the delay is not clamped |
| `Timer.Teardown` | src/Timer.js:99-107 | the intended teardown releases the wake lock and cancels any pending tick, and changes nothing else |
| `Timer.TeardownIdempotent` | src/Timer.js:99-107 | the intended teardown twice equals teardown once, and leaves no tick to fire and no lock held |
| `Timer.TeardownAsWritten` | src/Timer.js:99-107 | teardown as written throws exactly when the wake lock was granted, and then changes nothing: the tick stays scheduled. Without a lock it cancels the tick like the intended teardown |
| `Timer.TeardownKeepsTickWhenLockHeld` | src/Timer.js:101-105 | a running 30 s timer that was granted the lock throws on teardown and keeps its next tick, 1000 ms out; a second teardown throws again |
| `Timer.RunTicksKeepsLock` | src/Timer.js:169-187 | any run of ticks leaves the wake lock as it was, granted or not |
| `Timer.TeardownThrowsThroughoutStage` | src/Timer.js:99-107 | at every point of a stage that was granted the lock, teardown as written throws and leaves the schedule unchanged. Before the last tick a tick is pending and survives |
| `Timer.InitInv` | src/Timer.js:86-93 | a new timer is Idle at elapsed 0 with no action and no tick pending, which satisfies the lifecycle invariant |
| `Timer.StepPreservesInv` | src/Timer.js:147-187 | every event keeps the invariant. The stage only moves Idle → Running → Finished, one step at a time. Elapsed never passes `max(duration, 1)`, and the duration never changes |
| `Timer.ButtonsFollowStage` | src/Timer.js:134-143 | `StartEnabled` and `NextEnabled`, the negated `disabled` conditions of the two buttons, under the invariant: Start is enabled only on an Idle timer that has not counted; Next is enabled exactly when Finished, with elapsed at its target and no tick pending |
| `Timer.DisplayedInRange` | src/Timer.js:109-118 | `Displayed`, the value `render` formats: with a duration of at least 1 it lies between 0 and the duration, and it is the full duration both while Idle and once Finished |
| `Timer.DisplayTextReadsBack` | src/Timer.js:109-130 | for a non-negative duration the displayed value is non-negative and the display text reads back as exactly that value |
| `Timer.RunTicksCount` | src/Timer.js:169-187 | from any running state, n ticks leave elapsed at `min(elapsed + n, max(duration, 1))`; the timer has finished exactly when that minimum is the target |
| `Timer.StartedState` | src/Timer.js:152-164 | right after Start and the wake lock, the timer runs at elapsed 0 with a tick pending, shows the first action and has played its blip only if that action is non-empty |
| `Timer.TickCue` | src/Timer.js:174-177 | one tick plays a blip exactly when the action at the new elapsed count differs from the current one and is non-empty |
| `Timer.RunTicksCues` | src/Timer.js:169-187 | over any run of ticks, the blips played are exactly the transitions to a different, non-empty action along the elapsed counts the ticks pass through |
| `Timer.StageCues` | src/Timer.js:160-187 | over a whole stage from Start, the blips are exactly the changes to a non-empty action along elapsed 0, 1, 2, ... up to where the ticks have got. A cue fires once per change and never for a repeated action |
| `Timer.FinishesAfterDurationTicks` | src/Timer.js:160-187 | with a duration of at least 1, a started timer finishes after exactly `duration` ticks, with elapsed equal to the duration, never more |
| `Form.Round` | src/Form.js:136-139 | `Math.round` returns the integer within half a unit, with halves rounded up |
| `Form.DevelopSeconds` | src/Form.js:136-139 | the Develop seconds are the integer nearest to the entered minutes times 60 times the step modifier's power, halves rounded up |
| `Form.RoundInteger` | src/Form.js:136-139 | an integer rounds to itself |
| `Form.DevelopAtBaseTemperature` | src/Form.js:136-139 | at 20 °C the exponent is 0, so Develop is exactly the minutes times 60 |
| `Form.DevelopNonIncreasing` | src/Form.js:136-139 | if the power does not rise with temperature, a warmer bath never gives a longer Develop time |
| `Form.Stages` | src/Form.js:136-146 | exactly three stages, in the order Develop, Stop, Fix. Develop is the scaled time, Stop the stop seconds unchanged, and Fix the fixing minutes times 60 |
| `Form.OnSubmit` | src/Form.js:133-147 | submitting shows those three stages for confirmation and leaves every input as entered |
| `Form.OnReset` | src/Form.js:149-153 | reset drops the confirmation and leaves the inputs as entered |
| `Form.ResetUndoesSubmit` | src/Form.js:142-153 | reset after submit gives back the form as it was before, with no confirmation |
| `Form.ConfirmEmitsSubmitted` | src/Form.js:155-160 | `OnConfirm` after a submit emits exactly the three computed stages, with Stop and Fix as stated |
| `Form.DefaultStages` | src/Form.js:68-71 | the defaults at the base temperature give Develop 1020 s, Stop 20 s and Fix 300 s |
| `Form.Init` | src/Form.js:65-73 | the form opens with nothing awaiting confirmation, at the base temperature, with Develop 17 min (1020 s), Stop 20 s and Fix 5 min (300 s) |
| `App.Render` | src/App.js:31-44 | the form shows exactly when the index is at or past the end of the stages; otherwise the timer for the indexed stage shows, keyed by the index |
| `App.Init` | src/App.js:24-29 | the app starts with no stages, so it shows the form |
| `App.InitShowsForm` | src/App.js:27-34 | the app starts with no stages and index 0, so the form is shown |
| `App.OnSubmitForm` | src/App.js:47-50 | submitting replaces the stages with the submitted list and resets the index to 0 |
| `App.OnNext` | src/App.js:52-54 | Next moves the index on by exactly one and leaves the stages unchanged |
| `App.NextNAdvances` | src/App.js:52-54 | n presses of Next move the index on by exactly n and leave the stages unchanged |
| `App.SubmitThenNext` | src/App.js:33-54 | after a submit and k Nexts, stage k is shown; after as many Nexts as there are stages, the form is back |
| `App.TimersShownIsRest` | src/App.js:31-54 | the timers still to be shown are exactly the stages from the current index to the end |
| `App.SubmitShowsEveryStage` | src/App.js:31-54 | a submitted list has each of its stages shown once, in order, and then the form returns |
| `Session.Mount` | src/App.js:33-42 | the component shown is a fresh form or a fresh timer for the indexed stage's duration, matching what the shell renders |
| `Session.InitInv` | src/App.js:24-34 | a session starts on a fresh form, consistent with the shell |
| `Session.StepPreservesInv` | src/App.js:31-54 | every event keeps the component shown consistent with the shell. Confirm loads the stages and resets the index. The index moves only on Next, by exactly one, and only once the shown timer has finished |
| `Session.ConfirmDefaultsStartsDevelop` | src/Form.js:133-160 | submitting and confirming the default form at 20 °C shows a fresh 1020 s Develop timer |

## Left out

- Rendering: Lit templates, CSS, `styleMap` and the progress bar. The bar's
  percentage is a floating-point division used only for display.
- `Math.pow(0.9, temperature - 20)`: this is floating point. It enters as a
  parameter `stepPow`. Its only assumed property is `stepPow(0) == 1`
  (`Math.pow(x, 0)` is exactly 1), or monotonicity where a lemma says so.
  Float rounding of the product `developTimeMin * 60 * pow` is not modelled.
  Reals and `floor(x + 0.5)` stand in for it.
- Form.DevelopNonIncreasing: the decrease is stated non-strictly, because
  `Math.round` can map neighbouring temperatures to the same second. The
  strict monotonicity of `0.9^x` itself is floating point and not modelled.
- Form input binding: `parseInt` and `parseFloat` on change events are left
  out, including a non-numeric entry giving `NaN`. Inputs are integers
  (temperature: a real) as entered.
- `Date.now`, `setTimeout` and `clearInterval`. Time is an integer input,
  and the scheduled tick is a field holding its delay. A browser runs a
  negative delay as 0; that scheduling is not modelled.
- The wake lock is modelled as two flags: `acquiringLock` while the request
  is awaited, and `lockHeld` once it has been granted. What the browser does
  with a held or released lock is not modelled. Whether the request succeeds
  decides what teardown does (see Findings).
- JavaScript numbers are IEEE doubles; the model's integers are unbounded.
  Integers above 2^53 lose precision in the source, and from 10^21 on
  `toString` switches to exponent notation (`formatDuration` of `6e22`
  gives `1e+21:00`). The model prints every integer as plain digits, so its
  `formatDuration` agrees with the source only below those magnitudes.
  No entry in the form is bounded, so such values are reachable.
- The `beforeunload` listener added on start and removed on finish and
  teardown: browser I/O.
- `blip.play()`: recorded as an entry in the cue log. Playback is not modelled.
- DOM events (`preventDefault`, the bubbling `next` and `submit` events)
  become direct calls between the modules.
- `vite.config.js`: build configuration.

## Findings

| source | as written | input that shows it | evidently intended | confidence | as-written member | corrected member |
|---|---|---|---|---|---|---|
| src/Timer.js:101 | `this.#wakeLock?.then(lock => lock.release())`, but line 153 stores the awaited lock object, which has no `then`. So teardown throws a `TypeError`, and lines 102-106 never run: the tick is not cancelled, the lock is not released and the `beforeunload` listener stays | Inside the app a timer is removed only by Next, which is enabled only once it has Finished with no tick pending (src/Timer.js:141, src/App.js:52-54). So each Next after a granted lock throws and never releases that lock. The surviving tick needs a timer removed while it runs, for example an element used on its own and removed mid-stage: the next tick stays scheduled and a second teardown throws again | release the lock with `this.#wakeLock?.release()` (or store the promise), then cancel the tick | high (not executed) | `Timer.TeardownAsWritten`, `Timer.TeardownKeepsTickWhenLockHeld`, `Timer.TeardownThrowsThroughoutStage` | `Timer.Teardown`, `Timer.TeardownIdempotent` |
