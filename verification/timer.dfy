/**
 * The stage timer: one countdown per process stage, moving
 * Idle -> Running -> Finished, counting one second per tick, deriving the
 * Pour/Agitate/Drain cue from the elapsed time and playing a blip only when
 * the cue changes.
 *
 * Time is an integer input (milliseconds since some epoch, what `Date.now()`
 * returns), the scheduled `setTimeout` is a field holding its delay, and each
 * played blip is appended to a log.
 */
module Timer {
  import opened Wrappers
  import opened Util

  /** Seconds of pouring at the start, and the Drain lead before the end. */
  const POUR_DURATION: int := 10
  /** Seconds of each agitation burst. */
  const AGITATE_DURATION: int := 10
  /** Nominal tick period in milliseconds. */
  const TICK_MS: int := 1000

  datatype Action = NoAction | Pour | Agitate | Drain {
    /** The label the timer shows; the empty string shows nothing. */
    function Label(): (s: string)
      ensures s == "" <==> this == NoAction
    {
      match this
      case NoAction => ""
      case Pour => "Pour"
      case Agitate => "Agitate"
      case Drain => "Drain"
    }
  }

  /** Distinct actions carry distinct labels, so comparing labels compares actions. */
  lemma LabelInjective(a: Action, b: Action)
    ensures a.Label() == b.Label() <==> a == b
  {
  }

  // ---------------------------------------------------------------------
  // computeAction
  // ---------------------------------------------------------------------

  /**
   * The agitation windows on their own: the ten seconds right after the pour,
   * then the first ten seconds of every later minute.
   */
  predicate InAgitationWindow(elapsed: nat) {
    || (POUR_DURATION <= elapsed < POUR_DURATION + AGITATE_DURATION)
    || (elapsed >= MINUTE && elapsed % MINUTE < AGITATE_DURATION)
  }

  /** Drain in the last ten seconds of the stage. */
  predicate InDrainWindow(elapsed: nat, duration: int) {
    duration - elapsed <= POUR_DURATION
  }

  /**
   * `computeAction`: rules checked in priority order, Drain first. The
   * contract gives each label as one flat window condition.
   */
  function ComputeAction(elapsed: nat, duration: int): (a: Action)
    ensures a == Drain <==> InDrainWindow(elapsed, duration)
    ensures a == Pour <==> !InDrainWindow(elapsed, duration) && elapsed < POUR_DURATION
    ensures a == Agitate <==> !InDrainWindow(elapsed, duration) && InAgitationWindow(elapsed)
    ensures a == NoAction <==>
      !InDrainWindow(elapsed, duration) && elapsed >= POUR_DURATION && !InAgitationWindow(elapsed)
  {
    if duration - elapsed <= POUR_DURATION then Drain
    else if elapsed < POUR_DURATION then Pour
    else if elapsed < MINUTE then
      (if elapsed < POUR_DURATION + AGITATE_DURATION then Agitate else NoAction)
    else if elapsed % MINUTE < AGITATE_DURATION then Agitate
    else NoAction
  }

  /** Once Drain shows, it shows until the end: the remaining time only shrinks. */
  lemma DrainIsFinal(e1: nat, e2: nat, duration: int)
    requires e1 <= e2
    requires ComputeAction(e1, duration) == Drain
    ensures ComputeAction(e2, duration) == Drain
  {
  }

  /** Pour shows over an unbroken run from the start: once it stops, it never comes back. */
  lemma PourIsPrefix(e1: nat, e2: nat, duration: int)
    requires e1 <= e2
    requires ComputeAction(e2, duration) == Pour
    ensures ComputeAction(e1, duration) == Pour
  {
  }

  /** After the first minute the cue repeats every minute until Drain takes over. */
  lemma ActionPeriodic(elapsed: nat, duration: int)
    requires elapsed >= MINUTE
    requires !InDrainWindow(elapsed + MINUTE, duration)
    ensures ComputeAction(elapsed + MINUTE, duration) == ComputeAction(elapsed, duration)
  {
    assert (elapsed + MINUTE) % MINUTE == elapsed % MINUTE;
  }

  /** A 30-second stage: Pour for 0-9, Agitate for 10-19, Drain for 20-30. */
  lemma ThirtySecondStage(elapsed: nat)
    requires elapsed <= 30
    ensures ComputeAction(elapsed, 30) ==
      if elapsed < 10 then Pour else if elapsed < 20 then Agitate else Drain
  {
  }

  // ---------------------------------------------------------------------
  // Timer state
  // ---------------------------------------------------------------------

  datatype Stage = Idle | Running | Finished

  /**
   * The timer component's state. `lockHeld` records that the wake-lock request
   * was granted, `pending` is the scheduled tick (its delay in milliseconds) and
   * `cues` the blips played so far.
   */
  datatype TimerState = TimerState(
    duration: int,
    elapsed: nat,
    stage: Stage,
    action: Action,
    acquiringLock: bool,
    lockHeld: bool,
    startTime: int,
    pending: Option<int>,
    cues: seq<Action>)

  /**
   * A freshly constructed timer for a stage of `duration` seconds: Idle with
   * Start enabled, showing the full duration, nothing scheduled or played.
   */
  function Init(duration: int): (t: TimerState)
    ensures Inv(t) && t.stage == Idle && t.duration == duration
    ensures StartEnabled(t) && !NextEnabled(t) && Displayed(t) == duration
    ensures t.pending.None? && t.cues == [] && !t.lockHeld
  {
    TimerState(duration, 0, Idle, NoAction, false, false, 0, None, [])
  }

  /**
   * `setAction`: debounced. Setting the current action changes nothing; a
   * change records the new action and plays a blip when it is non-empty.
   */
  function SetAction(t: TimerState, a: Action): (r: TimerState)
    ensures r.action == a
    ensures t.action == a ==> r == t
    ensures |r.cues| == |t.cues| + (if t.action != a && a != NoAction then 1 else 0)
    ensures r.cues[..|t.cues|] == t.cues
    ensures |r.cues| > |t.cues| ==> r.cues[|t.cues|] == a
    ensures r.(action := t.action, cues := t.cues) == t
  {
    if t.action == a then t
    else
      var r := t.(action := a);
      if a != NoAction then r.(cues := t.cues + [a]) else r
  }

  /** Setting the same action twice plays at most one blip. */
  lemma SetActionIdempotent(t: TimerState, a: Action)
    ensures SetAction(SetAction(t, a), a) == SetAction(t, a)
  {
  }

  /** Feeds a sequence of computed actions through the debounced setter. */
  function SetActions(t: TimerState, xs: seq<Action>): TimerState
    decreases |xs|
  {
    if |xs| == 0 then t else SetActions(SetAction(t, xs[0]), xs[1..])
  }

  /**
   * Reference for the cue log: each value of `xs` that differs from the one
   * before it (the first compared with `prev`) and is non-empty.
   */
  function Transitions(prev: Action, xs: seq<Action>): seq<Action>
    decreases |xs|
  {
    if |xs| == 0 then []
    else (if xs[0] != prev && xs[0] != NoAction then [xs[0]] else []) + Transitions(xs[0], xs[1..])
  }

  /** The blips played over a run of actions are exactly its transitions to non-empty values. */
  lemma {:induction false} SetActionsCues(t: TimerState, xs: seq<Action>)
    ensures SetActions(t, xs).cues == t.cues + Transitions(t.action, xs)
    ensures SetActions(t, xs).action == if |xs| == 0 then t.action else xs[|xs| - 1]
    decreases |xs|
  {
    if |xs| > 0 {
      var t1 := SetAction(t, xs[0]);
      SetActionsCues(t1, xs[1..]);
      if |xs| > 1 {
        assert xs[1..][|xs[1..]| - 1] == xs[|xs| - 1];
      }
    }
  }

  /** Every transition is to a non-empty action, and there are no more of them than inputs. */
  lemma {:induction false} TransitionsShape(prev: Action, xs: seq<Action>)
    ensures |Transitions(prev, xs)| <= |xs|
    ensures forall i :: 0 <= i < |Transitions(prev, xs)| ==> Transitions(prev, xs)[i] != NoAction
    decreases |xs|
  {
    if |xs| > 0 {
      TransitionsShape(xs[0], xs[1..]);
    }
  }

  /** Repeating the current action any number of times plays nothing. */
  lemma {:induction false} NoTransitionsWhenSteady(a: Action, xs: seq<Action>)
    requires forall i :: 0 <= i < |xs| ==> xs[i] == a
    ensures Transitions(a, xs) == []
    decreases |xs|
  {
    if |xs| > 0 {
      NoTransitionsWhenSteady(a, xs[1..]);
    }
  }

  // ---------------------------------------------------------------------
  // Lifecycle
  // ---------------------------------------------------------------------

  /** The elapsed count at which the timer finishes: `duration`, or 1 when the duration is below 1. */
  function Target(duration: int): (n: nat)
    ensures n >= 1 && n >= duration
    ensures duration >= 1 ==> n == duration
  {
    if duration >= 1 then duration else 1
  }

  /** The Start button is enabled only while Idle and not waiting for the wake lock. */
  predicate StartEnabled(t: TimerState) {
    !t.acquiringLock && t.stage == Idle
  }

  /** The Next button is enabled only once Finished. */
  predicate NextEnabled(t: TimerState) {
    t.stage == Finished
  }

  /** The value the display formats: the full duration while Idle, the elapsed count after. */
  function Displayed(t: TimerState): int {
    if t.stage == Idle then t.duration else t.elapsed
  }

  /** The text the display shows. */
  function DisplayText(t: TimerState): string {
    FormatDuration(Displayed(t))
  }

  /** For a non-negative duration the display always reads back as the value it shows. */
  lemma DisplayTextReadsBack(t: TimerState)
    requires Inv(t) && t.duration >= 0
    ensures Displayed(t) >= 0
    ensures ParseClock(DisplayText(t)) == Some(Displayed(t))
  {
    FormatDurationRoundTrip(Displayed(t));
  }

  /**
   * Start pressed: the first half of `onStart`, up to waiting for the wake
   * lock. A click on the disabled button does nothing.
   */
  function PressStart(t: TimerState): (r: TimerState)
    ensures r.acquiringLock <==> t.acquiringLock || StartEnabled(t)
    ensures r.(acquiringLock := t.acquiringLock) == t
  {
    if StartEnabled(t) then t.(acquiringLock := true) else t
  }

  /**
   * Start cannot begin twice: a second press while the wake lock is awaited
   * does nothing, and once waiting Start stays disabled.
   */
  lemma PressStartOnce(t: TimerState)
    ensures PressStart(PressStart(t)) == PressStart(t)
    ensures StartEnabled(t) ==> !StartEnabled(PressStart(t))
  {
  }

  /**
   * The second half of `onStart`, once the wake-lock request has settled:
   * remember the lock when it was `granted` (a refusal is swallowed and keeps
   * what was there), record the start time, run, schedule the first tick a
   * second away and compute the action for the elapsed count so far.
   */
  function LockSettled(t: TimerState, now: int, granted: bool): (r: TimerState)
    requires t.acquiringLock
    ensures !r.acquiringLock && r.stage == Running && r.startTime == now
    ensures r.lockHeld <==> granted || t.lockHeld
    ensures r.pending == Some(TICK_MS)
    ensures r.elapsed == t.elapsed && r.duration == t.duration
    ensures r.action == ComputeAction(t.elapsed, t.duration)
  {
    var s := t.(acquiringLock := false, lockHeld := granted || t.lockHeld,
      startTime := now, stage := Running, pending := Some(TICK_MS));
    SetAction(s, ComputeAction(s.elapsed, s.duration))
  }

  /**
   * `onTick`, fired by the scheduled tick at wall-clock time `now`: count one
   * second, recompute the action, then either schedule the next tick with the
   * drift-corrected delay or finish. The delay is not clamped at zero.
   */
  function Tick(t: TimerState, now: int): (r: TimerState)
    requires t.pending.Some?
    ensures r.elapsed == t.elapsed + 1
    ensures r.duration == t.duration && r.startTime == t.startTime
    ensures r.lockHeld == t.lockHeld && r.acquiringLock == t.acquiringLock
    ensures r.action == ComputeAction(r.elapsed, t.duration)
    ensures r.pending.Some? <==> r.elapsed < t.duration
    ensures r.stage == if r.elapsed < t.duration then t.stage else Finished
    ensures r.pending.Some? ==> now + r.pending.value == t.startTime + (r.elapsed + 1) * TICK_MS
  {
    var elapsedMs := now - t.startTime;
    var e := t.elapsed + 1;
    var drift := elapsedMs - e * TICK_MS;
    var s := SetAction(t.(pending := None, elapsed := e), ComputeAction(e, t.duration));
    if e < t.duration then s.(pending := Some(TICK_MS - drift))
    else s.(stage := Finished, pending := None)
  }

  /** The delay can go negative: a tick that fires 2.5 s after the start asks for -500 ms. */
  lemma NegativeDelayExample()
    ensures Tick(LockSettled(PressStart(Init(30)), 0, false), 2500).pending == Some(-500)
  {
  }

  /** What `disconnectedCallback` leaves behind, and whether it threw before finishing. */
  datatype TeardownOutcome = TeardownOutcome(timer: TimerState, threw: bool)

  /**
   * `disconnectedCallback` as written. The field holding the wake lock stores
   * the granted lock object itself, not a promise, so calling `then` on it
   * throws a `TypeError`. When the lock was granted, nothing after that call
   * runs: the pending tick is not cancelled and the lock is not released.
   * Without a lock the optional call is skipped and the tick is cancelled.
   */
  function TeardownAsWritten(t: TimerState): (r: TeardownOutcome)
    ensures r.threw <==> t.lockHeld
    ensures r.threw ==> r.timer == t
    ensures !r.threw ==> r.timer == Teardown(t)
  {
    if t.lockHeld then TeardownOutcome(t, true)
    else TeardownOutcome(t.(pending := None), false)
  }

  /**
   * A running timer that got its wake lock, removed from the page: teardown
   * throws, the next tick stays scheduled, and a second teardown throws again.
   */
  lemma TeardownKeepsTickWhenLockHeld()
    ensures var t := LockSettled(PressStart(Init(30)), 0, true);
      var r := TeardownAsWritten(t);
      && r.threw && r.timer.stage == Running && r.timer.pending == Some(TICK_MS)
      && TeardownAsWritten(r.timer).threw
  {
  }

  /**
   * `disconnectedCallback` as intended: release the wake lock, if held, and
   * cancel the pending tick, if any. Nothing else changes.
   */
  function Teardown(t: TimerState): (r: TimerState)
    ensures r.pending.None? && !r.lockHeld
    ensures r.(pending := t.pending, lockHeld := t.lockHeld) == t
  {
    t.(pending := None, lockHeld := false)
  }

  /** Teardown twice is teardown once, and leaves no tick to fire and no lock held. */
  lemma TeardownIdempotent(t: TimerState)
    ensures Teardown(Teardown(t)) == Teardown(t)
    ensures !Teardown(t).pending.Some? && !Teardown(t).lockHeld
  {
  }

  // ---------------------------------------------------------------------
  // Events and the lifecycle invariant
  // ---------------------------------------------------------------------

  datatype Event = ClickStart | LockDone(now: int, granted: bool) | TickFired(now: int)

  /** Which events can occur: the wake-lock continuation only after a click, a tick only when scheduled. */
  predicate Enabled(t: TimerState, ev: Event) {
    match ev
    case ClickStart => true
    case LockDone(_, _) => t.acquiringLock
    case TickFired(_) => t.pending.Some?
  }

  function Step(t: TimerState, ev: Event): TimerState
    requires Enabled(t, ev)
  {
    match ev
    case ClickStart => PressStart(t)
    case LockDone(now, granted) => LockSettled(t, now, granted)
    case TickFired(now) => Tick(t, now)
  }

  /** What holds of every reachable timer. */
  predicate Inv(t: TimerState) {
    && (t.acquiringLock ==> t.stage == Idle)
    && (t.stage == Idle ==> t.elapsed == 0 && t.pending.None? && t.action == NoAction && !t.lockHeld)
    && (t.stage == Running ==> t.elapsed < Target(t.duration) && t.pending.Some?)
    && (t.stage == Finished ==> t.elapsed == Target(t.duration) && t.pending.None?)
    && (t.stage != Idle ==> t.action == ComputeAction(t.elapsed, t.duration))
  }

  function Rank(s: Stage): nat {
    match s
    case Idle => 0
    case Running => 1
    case Finished => 2
  }

  lemma InitInv(duration: int)
    ensures Inv(Init(duration))
  {
  }

  /**
   * Every event keeps the invariant; the stage only moves forward, one step
   * at a time; the elapsed count never passes the target.
   */
  lemma StepPreservesInv(t: TimerState, ev: Event)
    requires Inv(t) && Enabled(t, ev)
    ensures Inv(Step(t, ev))
    ensures Rank(t.stage) <= Rank(Step(t, ev).stage) <= Rank(t.stage) + 1
    ensures Step(t, ev).elapsed <= Target(t.duration)
    ensures Step(t, ev).duration == t.duration
  {
  }

  /**
   * Start can only be pressed on a timer that has not begun counting; Next
   * only on one that has counted to its target and has nothing scheduled.
   */
  lemma ButtonsFollowStage(t: TimerState)
    requires Inv(t)
    ensures StartEnabled(t) ==> t.stage == Idle && t.elapsed == 0 && t.pending.None?
    ensures NextEnabled(t) <==> t.stage == Finished
    ensures NextEnabled(t) ==> t.elapsed == Target(t.duration) && t.pending.None?
  {
  }

  /** Under the invariant the display shows a value between 0 and the target. */
  lemma DisplayedInRange(t: TimerState)
    requires Inv(t) && t.duration >= 1
    ensures 0 <= Displayed(t) <= t.duration
    ensures t.stage != Running ==> Displayed(t) == t.duration
  {
  }

  /** Ticks fired at the given wall-clock times, as long as one is pending. */
  function RunTicks(t: TimerState, nows: seq<int>): TimerState
    decreases |nows|
  {
    if |nows| == 0 || t.pending.None? then t else RunTicks(Tick(t, nows[0]), nows[1..])
  }

  /**
   * A running timer counts exactly one second per tick, whatever the jitter,
   * and finishes exactly when the count reaches the target: `duration` ticks
   * after the start for a duration of at least one second, never more.
   */
  lemma {:induction false} RunTicksCount(t: TimerState, nows: seq<int>)
    requires Inv(t) && t.stage == Running
    ensures var r := RunTicks(t, nows);
      && Inv(r)
      && r.elapsed == Min(t.elapsed + |nows|, Target(t.duration))
      && (r.stage == Finished <==> t.elapsed + |nows| >= Target(t.duration))
      && (r.stage == Running <==> t.elapsed + |nows| < Target(t.duration))
    decreases |nows|
  {
    if |nows| > 0 {
      var t1 := Tick(t, nows[0]);
      StepPreservesInv(t, TickFired(nows[0]));
      if t1.stage == Running {
        RunTicksCount(t1, nows[1..]);
      } else {
        assert t1.pending.None?;
        assert RunTicks(t1, nows[1..]) == t1;
      }
    }
  }

  function Min(a: int, b: int): int {
    if a <= b then a else b
  }

  /** The actions `computeAction` gives at the elapsed counts `from`, `from + 1`, ..., `from + n - 1`. */
  function ActionsFrom(from: nat, n: nat, duration: int): seq<Action>
    decreases n
  {
    if n == 0 then [] else [ComputeAction(from, duration)] + ActionsFrom(from + 1, n - 1, duration)
  }

  /** Splitting the transitions of a run after its first element. */
  lemma TransitionsCons(prev: Action, x: Action, xs: seq<Action>)
    ensures Transitions(prev, [x] + xs) == Transitions(prev, [x]) + Transitions(x, xs)
  {
    assert ([x] + xs)[1..] == xs;
  }

  /** One tick plays the blip, if any, for the change to the action at the new elapsed count. */
  lemma TickCue(t: TimerState, now: int)
    requires t.pending.Some?
    ensures Tick(t, now).cues == t.cues + Transitions(t.action, [ComputeAction(t.elapsed + 1, t.duration)])
    ensures Tick(t, now).action == ComputeAction(t.elapsed + 1, t.duration)
  {
    assert [ComputeAction(t.elapsed + 1, t.duration)][1..] == [];
  }

  lemma RunTicksUnfold(t: TimerState, nows: seq<int>)
    requires |nows| > 0 && t.pending.Some?
    ensures RunTicks(t, nows) == RunTicks(Tick(t, nows[0]), nows[1..])
  {
  }

  lemma ActionsFromUnfold(from: nat, n: nat, duration: int)
    requires n > 0
    ensures ActionsFrom(from, n, duration) ==
      [ComputeAction(from, duration)] + ActionsFrom(from + 1, n - 1, duration)
  {
  }

  lemma AppendAssoc<T>(a: seq<T>, b: seq<T>, c: seq<T>)
    ensures (a + b) + c == a + (b + c)
  {
  }

  /** One tick of a run: the rest of the run continues from the ticked state, one second further on. */
  lemma TickStepCount(t: TimerState, nows: seq<int>)
    requires t.pending.Some? && t.elapsed < Target(t.duration) && |nows| > 0
    ensures var t1 := Tick(t, nows[0]);
      var k := Min(|nows|, Target(t.duration) - t.elapsed);
      && RunTicks(t, nows) == RunTicks(t1, nows[1..])
      && t1.elapsed == t.elapsed + 1 && t1.duration == t.duration
      && (t1.pending.Some? <==> t1.elapsed < Target(t1.duration))
      && (t1.pending.None? ==> RunTicks(t1, nows[1..]) == t1 && k == 1)
      && Min(|nows[1..]|, Target(t1.duration) - t1.elapsed) == k - 1
  {
    RunTicksUnfold(t, nows);
  }

  /** One tick of a run: its cue, if any, is the first transition along the actions still to come. */
  lemma TickStepCues(t: TimerState, now: int, k: nat)
    requires t.pending.Some? && k > 0
    ensures var t1 := Tick(t, now);
      t.cues + Transitions(t.action, ActionsFrom(t.elapsed + 1, k, t.duration)) ==
        t1.cues + Transitions(t1.action, ActionsFrom(t1.elapsed + 1, k - 1, t1.duration))
  {
    var a1 := ComputeAction(t.elapsed + 1, t.duration);
    var rest := ActionsFrom(t.elapsed + 2, k - 1, t.duration);
    ActionsFromUnfold(t.elapsed + 1, k, t.duration);
    TickCue(t, now);
    TransitionsCons(t.action, a1, rest);
    AppendAssoc(t.cues, Transitions(t.action, [a1]), Transitions(a1, rest));
  }

  /** One tick of a run, summed up without reference to how the tick is computed. */
  lemma TickStep(t: TimerState, nows: seq<int>) returns (t1: TimerState)
    requires t.pending.Some? && t.elapsed < Target(t.duration) && |nows| > 0
    ensures var k := Min(|nows|, Target(t.duration) - t.elapsed);
      && RunTicks(t, nows) == RunTicks(t1, nows[1..])
      && t1.elapsed == t.elapsed + 1 && t1.duration == t.duration
      && (t1.pending.Some? <==> t1.elapsed < Target(t.duration))
      && (t1.pending.None? ==> RunTicks(t1, nows[1..]) == t1 && k == 1)
      && Min(|nows| - 1, Target(t.duration) - t1.elapsed) == k - 1
      && t.cues + Transitions(t.action, ActionsFrom(t.elapsed + 1, k, t.duration)) ==
           t1.cues + Transitions(t1.action, ActionsFrom(t1.elapsed + 1, k - 1, t.duration))
  {
    t1 := Tick(t, nows[0]);
    TickStepCount(t, nows);
    TickStepCues(t, nows[0], Min(|nows|, Target(t.duration) - t.elapsed));
  }

  /**
   * The blips played over a run of ticks are exactly the changes to a
   * non-empty action along the elapsed counts the ticks pass through.
   */
  lemma {:induction false} RunTicksCues(t: TimerState, nows: seq<int>)
    requires t.pending.Some? && t.elapsed < Target(t.duration)
    ensures RunTicks(t, nows).cues ==
      t.cues + Transitions(t.action,
        ActionsFrom(t.elapsed + 1, Min(|nows|, Target(t.duration) - t.elapsed), t.duration))
    decreases |nows|
  {
    if |nows| > 0 {
      var t1 := TickStep(t, nows);
      if t1.pending.Some? {
        RunTicksCues(t1, nows[1..]);
      } else {
        assert ActionsFrom(t1.elapsed + 1, 0, t.duration) == [];
      }
    }
  }

  /** From Start to Finished takes exactly `duration` ticks for a duration of at least one second. */
  lemma FinishesAfterDurationTicks(duration: int, start: int, granted: bool, nows: seq<int>)
    requires duration >= 1
    ensures var t := LockSettled(PressStart(Init(duration)), start, granted);
      var r := RunTicks(t, nows);
      && (r.stage == Finished <==> |nows| >= duration)
      && r.elapsed == Min(|nows|, duration)
  {
    var t := LockSettled(PressStart(Init(duration)), start, granted);
    assert Inv(t);
    RunTicksCount(t, nows);
  }

  /** Ticks never touch the wake lock: whatever was granted at the start is still held. */
  lemma {:induction false} RunTicksKeepsLock(t: TimerState, nows: seq<int>)
    ensures RunTicks(t, nows).lockHeld == t.lockHeld
    ensures RunTicks(t, nows).acquiringLock == t.acquiringLock
    decreases |nows|
  {
    if |nows| > 0 && t.pending.Some? {
      RunTicksKeepsLock(Tick(t, nows[0]), nows[1..]);
    }
  }

  /**
   * At any point of a stage whose wake lock was granted, teardown as written
   * throws and leaves the schedule as it was; before the last tick a tick is
   * still pending, so it survives the teardown.
   */
  lemma TeardownThrowsThroughoutStage(duration: int, start: int, nows: seq<int>)
    ensures var r := RunTicks(LockSettled(PressStart(Init(duration)), start, true), nows);
      && TeardownAsWritten(r).threw
      && TeardownAsWritten(r).timer.pending == r.pending
      && (|nows| < duration ==> r.stage == Running && r.pending.Some?)
  {
    var t := LockSettled(PressStart(Init(duration)), start, true);
    StartedState(duration, start, true);
    RunTicksKeepsLock(t, nows);
    RunTicksCount(t, nows);
  }

  /** Right after Start the timer runs at elapsed 0, showing the first action, with its blip if non-empty. */
  lemma StartedState(duration: int, start: int, granted: bool)
    ensures var t := LockSettled(PressStart(Init(duration)), start, granted);
      && Inv(t) && t.stage == Running && t.elapsed == 0 && t.pending.Some?
      && t.action == ComputeAction(0, duration)
      && t.cues == Transitions(NoAction, [ComputeAction(0, duration)])
  {
    assert [ComputeAction(0, duration)][1..] == [];
  }

  /**
   * From a timer that has just started, the blips played are exactly the
   * changes to a non-empty action along elapsed 0, 1, 2, ... up to where the
   * ticks have got.
   */
  lemma StartedCues(t: TimerState, nows: seq<int>)
    requires t.pending.Some? && t.elapsed == 0 && t.action == ComputeAction(0, t.duration)
    requires t.cues == Transitions(NoAction, [t.action])
    ensures RunTicks(t, nows).cues ==
      Transitions(NoAction, ActionsFrom(0, Min(|nows|, Target(t.duration)) + 1, t.duration))
  {
    var k := Min(|nows|, Target(t.duration));
    var rest := ActionsFrom(1, k, t.duration);
    RunTicksCues(t, nows);
    assert RunTicks(t, nows).cues == t.cues + Transitions(t.action, rest);
    ActionsFromUnfold(0, k + 1, t.duration);
    TransitionsCons(NoAction, t.action, rest);
  }

  /** Over a whole stage, from Start on, the blips played are exactly the changes to a non-empty action. */
  lemma StageCues(duration: int, start: int, granted: bool, nows: seq<int>)
    requires duration >= 1
    ensures var t := LockSettled(PressStart(Init(duration)), start, granted);
      RunTicks(t, nows).cues == Transitions(NoAction, ActionsFrom(0, Min(|nows|, duration) + 1, duration))
  {
    StartedState(duration, start, granted);
    StartedCues(LockSettled(PressStart(Init(duration)), start, granted), nows);
  }
}
