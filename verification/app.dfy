/**
 * The application shell: a list of stages and an index into it. The form
 * shows while the index is past the end of the list; otherwise the timer for
 * the indexed stage shows, keyed by its index.
 */
module App {
  import opened Form

  datatype AppState = AppState(timers: seq<ProcessStage>, timerIndex: nat)

  /** What `render` shows. */
  datatype View = FormView | TimerView(key: nat, stage: ProcessStage)

  /** The constructor: no stages yet, so the form shows. */
  function Init(): (a: AppState)
    ensures a.timers == [] && Render(a) == FormView
  {
    AppState([], 0)
  }

  /** `render`: the form once the index has run past the stages, otherwise the indexed stage's timer. */
  function Render(a: AppState): (v: View)
    ensures v == FormView <==> a.timerIndex >= |a.timers|
    ensures v.TimerView? ==> v.key == a.timerIndex && v.stage == a.timers[a.timerIndex]
  {
    if a.timerIndex >= |a.timers| then FormView
    else TimerView(a.timerIndex, a.timers[a.timerIndex])
  }

  /** The application starts on the form. */
  lemma InitShowsForm()
    ensures Render(Init()) == FormView
  {
  }

  /** `onSubmitForm`: take the submitted stages and start from the first. */
  function OnSubmitForm(a: AppState, data: seq<ProcessStage>): (r: AppState)
    ensures r.timers == data && r.timerIndex == 0
  {
    AppState(data, 0)
  }

  /** `onNext`: move to the following stage; the stages are untouched. */
  function OnNext(a: AppState): (r: AppState)
    ensures r.timerIndex == a.timerIndex + 1
    ensures r.timers == a.timers
  {
    a.(timerIndex := a.timerIndex + 1)
  }

  /** `Next` pressed `n` times. */
  function NextN(a: AppState, n: nat): AppState
    decreases n
  {
    if n == 0 then a else NextN(OnNext(a), n - 1)
  }

  lemma {:induction false} NextNAdvances(a: AppState, n: nat)
    ensures NextN(a, n).timerIndex == a.timerIndex + n
    ensures NextN(a, n).timers == a.timers
    decreases n
  {
    if n > 0 {
      NextNAdvances(OnNext(a), n - 1);
    }
  }

  /**
   * After submitting, the k-th press of Next shows stage k, and after as many
   * presses as there are stages the form is back.
   */
  lemma SubmitThenNext(a: AppState, data: seq<ProcessStage>, k: nat)
    requires k <= |data|
    ensures Render(NextN(OnSubmitForm(a, data), k)) ==
      if k == |data| then FormView else TimerView(k, data[k])
  {
    NextNAdvances(OnSubmitForm(a, data), k);
  }

  /** The timers shown, in order, from this state until the form comes back. */
  function TimersShown(a: AppState): seq<ProcessStage>
    decreases |a.timers| - a.timerIndex
  {
    match Render(a)
    case FormView => []
    case TimerView(_, stage) => [stage] + TimersShown(OnNext(a))
  }

  lemma {:induction false} TimersShownIsRest(a: AppState)
    ensures TimersShown(a) == if a.timerIndex <= |a.timers| then a.timers[a.timerIndex..] else []
    decreases |a.timers| - a.timerIndex
  {
    if a.timerIndex < |a.timers| {
      TimersShownIsRest(OnNext(a));
      assert a.timers[a.timerIndex..] == [a.timers[a.timerIndex]] + a.timers[a.timerIndex + 1..];
    }
  }

  /** Submitting a list shows each of its stages exactly once, in order, then the form. */
  lemma SubmitShowsEveryStage(a: AppState, data: seq<ProcessStage>)
    ensures TimersShown(OnSubmitForm(a, data)) == data
  {
    TimersShownIsRest(OnSubmitForm(a, data));
  }
}
