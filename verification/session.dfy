/**
 * The three screens put together: the application shell plus the one
 * component it currently shows. Because the timer is keyed by its index and
 * the form is recreated whenever it reappears, every newly shown component
 * starts from its constructor's state.
 */
module Session {
  import Timer
  import Form
  import App

  datatype Screen = FormScreen(form: Form.FormState) | TimerScreen(timer: Timer.TimerState)

  datatype SessionState = SessionState(app: App.AppState, screen: Screen)

  /** The component freshly created for what the shell renders. */
  function Mount(a: App.AppState): (s: Screen)
    ensures s.FormScreen? <==> App.Render(a) == App.FormView
    ensures s.FormScreen? ==> s.form == Form.Init()
    ensures s.TimerScreen? ==> s.timer == Timer.Init(a.timers[a.timerIndex].duration)
  {
    match App.Render(a)
    case FormView => FormScreen(Form.Init())
    case TimerView(_, stage) => TimerScreen(Timer.Init(stage.duration))
  }

  function Init(): SessionState {
    SessionState(App.Init(), Mount(App.Init()))
  }

  datatype Event =
    | Submit
    | Reset
    | Confirm
    | TimerInput(ev: Timer.Event)
    | PressNext

  /** Which events the current screen can produce. */
  predicate Enabled(s: SessionState, ev: Event) {
    match ev
    case Submit => s.screen.FormScreen? && s.screen.form.confirmation.None?
    case Reset => s.screen.FormScreen? && s.screen.form.confirmation.Some?
    case Confirm => s.screen.FormScreen? && s.screen.form.confirmation.Some?
    case TimerInput(e) => s.screen.TimerScreen? && Timer.Enabled(s.screen.timer, e)
    case PressNext => s.screen.TimerScreen?
  }

  /**
   * One event. Confirming hands the stages to the shell; Next, when its button
   * is enabled, advances the shell, which drops the finished timer (it has no
   * tick pending) and mounts what comes next. A click on the disabled Next
   * button does nothing.
   */
  function Step(s: SessionState, ev: Event, stepPow: real -> real): SessionState
    requires Enabled(s, ev)
  {
    match ev
    case Submit => s.(screen := FormScreen(Form.OnSubmit(s.screen.form, stepPow)))
    case Reset => s.(screen := FormScreen(Form.OnReset(s.screen.form)))
    case Confirm =>
      var a := App.OnSubmitForm(s.app, Form.OnConfirm(s.screen.form));
      SessionState(a, Mount(a))
    case TimerInput(e) => s.(screen := TimerScreen(Timer.Step(s.screen.timer, e)))
    case PressNext =>
      if Timer.NextEnabled(s.screen.timer) then
        var a := App.OnNext(s.app);
        SessionState(a, Mount(a))
      else s
  }

  /** What holds of every reachable session. */
  predicate Inv(s: SessionState) {
    && s.app.timerIndex <= |s.app.timers|
    && (s.screen.FormScreen? <==> App.Render(s.app) == App.FormView)
    && (s.screen.TimerScreen? ==>
          && s.screen.timer.duration == s.app.timers[s.app.timerIndex].duration
          && Timer.Inv(s.screen.timer))
  }

  lemma InitInv()
    ensures Inv(Init())
    ensures Init().screen == FormScreen(Form.Init())
  {
  }

  /**
   * Every event keeps the session consistent: the component shown is the one
   * the shell renders, the timer belongs to the indexed stage, and the index
   * advances only by Next, and only once the shown timer has finished.
   */
  lemma StepPreservesInv(s: SessionState, ev: Event, stepPow: real -> real)
    requires Inv(s) && Enabled(s, ev)
    ensures Inv(Step(s, ev, stepPow))
    ensures ev.PressNext? ==>
      Step(s, ev, stepPow).app.timerIndex ==
        s.app.timerIndex + (if Timer.NextEnabled(s.screen.timer) then 1 else 0)
    ensures ev.Confirm? ==>
      Step(s, ev, stepPow).app.timerIndex == 0 && Step(s, ev, stepPow).app.timers == s.screen.form.confirmation.value
    ensures !ev.PressNext? && !ev.Confirm? ==> Step(s, ev, stepPow).app == s.app
  {
    match ev
    case TimerInput(e) =>
      Timer.StepPreservesInv(s.screen.timer, e);
    case Confirm =>
      var data := Form.OnConfirm(s.screen.form);
      if |data| > 0 {
        Timer.InitInv(data[0].duration);
      }
    case PressNext =>
      var a := App.OnNext(s.app);
      if Timer.NextEnabled(s.screen.timer) && a.timerIndex < |a.timers| {
        Timer.InitInv(a.timers[a.timerIndex].duration);
      }
    case _ =>
  }

  /** Confirming the default form at the base temperature starts a 1020-second Develop timer. */
  lemma ConfirmDefaultsStartsDevelop(stepPow: real -> real)
    requires stepPow(0.0) == 1.0
    ensures var s1 := Step(Init(), Submit, stepPow);
      var s2 := Step(s1, Confirm, stepPow);
      && s2.screen == TimerScreen(Timer.Init(1020))
      && s2.app.timers == Form.Stages(Form.Init(), stepPow)
  {
    Form.DefaultStages(stepPow);
  }
}
