/**
 * The input form: four numeric inputs turned into the three process stages,
 * shown for confirmation, then either reset or confirmed.
 *
 * `Math.pow(0.9, temperature - 20)` is floating point; it enters as the
 * parameter `stepPow`, the value of the step modifier raised to a given
 * exponent. `Math.round` is modelled on reals as `floor(x + 0.5)`.
 */
module Form {
  import opened Wrappers
  import opened Util

  /** The temperature (Celsius) at which the entered developing time applies unchanged. */
  const BASE_TEMPERATURE: real := 20.0

  /** One stage of processing: its label and its length in seconds. */
  datatype ProcessStage = ProcessStage(duration: int, process: string)

  /**
   * The form's state: the bound inputs (`parseInt` gives integers, `parseFloat`
   * the temperature), and the stages awaiting confirmation, if any.
   */
  datatype FormState = FormState(
    developTimeMin: int,
    temperature: real,
    stopTimeSec: int,
    fixTimeMin: int,
    confirmation: Option<seq<ProcessStage>>)

  /**
   * The constructor's defaults: 17 minutes at the base temperature, a 20 s
   * stop bath and 5 minutes of fixing, with nothing awaiting confirmation.
   */
  function Init(): (f: FormState)
    ensures f.confirmation.None?
    ensures f.temperature == BASE_TEMPERATURE
    ensures f.developTimeMin * MINUTE == 1020 && f.stopTimeSec == 20 && f.fixTimeMin * MINUTE == 300
  {
    FormState(17, BASE_TEMPERATURE, 20, 5, None)
  }

  /** `Math.round`: the nearest integer, halves rounded up. */
  function Round(x: real): (n: int)
    ensures x - 0.5 < n as real <= x + 0.5
  {
    (x + 0.5).Floor
  }

  /** An integer rounds to itself. */
  lemma RoundInteger(n: int)
    ensures Round(n as real) == n
  {
  }

  /**
   * Developing seconds: the entered minutes in seconds, scaled by the step
   * modifier raised to the distance from the base temperature, rounded to the
   * nearest second.
   */
  function DevelopSeconds(developTimeMin: int, temperature: real, stepPow: real -> real): (n: int)
    ensures var scaled := (developTimeMin * MINUTE) as real * stepPow(temperature - BASE_TEMPERATURE);
      scaled - 0.5 < n as real <= scaled + 0.5
  {
    Round((developTimeMin * MINUTE) as real * stepPow(temperature - BASE_TEMPERATURE))
  }

  /** At the base temperature the exponent is zero and the developing time is just converted to seconds. */
  lemma DevelopAtBaseTemperature(developTimeMin: int, stepPow: real -> real)
    requires stepPow(0.0) == 1.0
    ensures DevelopSeconds(developTimeMin, BASE_TEMPERATURE, stepPow) == developTimeMin * MINUTE
  {
    RoundInteger(developTimeMin * MINUTE);
  }

  /**
   * With a step modifier below one the power falls as the temperature rises,
   * so a warmer bath never lengthens the developing time.
   */
  lemma DevelopNonIncreasing(developTimeMin: int, t1: real, t2: real, stepPow: real -> real)
    requires developTimeMin >= 0 && t1 <= t2
    requires stepPow(t2 - BASE_TEMPERATURE) <= stepPow(t1 - BASE_TEMPERATURE)
    ensures DevelopSeconds(developTimeMin, t2, stepPow) <= DevelopSeconds(developTimeMin, t1, stepPow)
  {
    var base := (developTimeMin * MINUTE) as real;
    var p1 := stepPow(t1 - BASE_TEMPERATURE);
    var p2 := stepPow(t2 - BASE_TEMPERATURE);
    assert base >= 0.0;
    assert base * p2 <= base * p1 by {
      assert base * (p1 - p2) >= 0.0;
    }
  }

  /** The stage list `onSubmit` builds from the current inputs. */
  function Stages(f: FormState, stepPow: real -> real): (s: seq<ProcessStage>)
    ensures |s| == 3
    ensures s[0].process == "Develop" && s[1].process == "Stop" && s[2].process == "Fix"
    ensures s[0].duration == DevelopSeconds(f.developTimeMin, f.temperature, stepPow)
    ensures s[1].duration == f.stopTimeSec
    ensures s[2].duration == f.fixTimeMin * MINUTE
  {
    [ ProcessStage(DevelopSeconds(f.developTimeMin, f.temperature, stepPow), "Develop"),
      ProcessStage(f.stopTimeSec, "Stop"),
      ProcessStage(f.fixTimeMin * MINUTE, "Fix") ]
  }

  /** `onSubmit`: compute the stages and show them for confirmation; the inputs stay as entered. */
  function OnSubmit(f: FormState, stepPow: real -> real): (r: FormState)
    ensures r.confirmation == Some(Stages(f, stepPow))
    ensures r.(confirmation := f.confirmation) == f
  {
    f.(confirmation := Some(Stages(f, stepPow)))
  }

  /** `onReset`: drop the confirmation and go back to the inputs. */
  function OnReset(f: FormState): (r: FormState)
    ensures r.confirmation.None?
    ensures r.(confirmation := f.confirmation) == f
  {
    f.(confirmation := None)
  }

  /** `onConfirm`: the submit event carries the confirmed stage list as it is. */
  function OnConfirm(f: FormState): seq<ProcessStage>
    requires f.confirmation.Some?
  {
    f.confirmation.value
  }

  /** Reset undoes submit: the inputs come back untouched and nothing awaits confirmation. */
  lemma ResetUndoesSubmit(f: FormState, stepPow: real -> real)
    ensures OnReset(OnSubmit(f, stepPow)) == f.(confirmation := None)
  {
  }

  /** Confirming right after submitting emits exactly the three computed stages. */
  lemma ConfirmEmitsSubmitted(f: FormState, stepPow: real -> real)
    ensures var data := OnConfirm(OnSubmit(f, stepPow));
      && data == Stages(f, stepPow)
      && |data| == 3
      && data[1].duration == f.stopTimeSec
      && data[2].duration == f.fixTimeMin * MINUTE
  {
  }

  /** With the defaults at the base temperature the stages are 1020, 20 and 300 seconds. */
  lemma DefaultStages(stepPow: real -> real)
    requires stepPow(0.0) == 1.0
    ensures Stages(Init(), stepPow) ==
      [ProcessStage(1020, "Develop"), ProcessStage(20, "Stop"), ProcessStage(300, "Fix")]
  {
    DevelopAtBaseTemperature(17, stepPow);
  }
}
