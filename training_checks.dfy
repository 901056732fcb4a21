/** Configuration checks of `run_lora_training` that run before training:
    the gradient-accumulation conflict and the choice of the loss target. */
module TrainingChecks {
  import opened Wrappers

  /** The `ValueError` raised when the text encoder is trained with gradient
      accumulation across several processes. */
  datatype ConfigError = AccumulationWithTextEncoder

  /** Accepted exactly when only the UNet is trained, or each step
      accumulates at most one batch, or training runs in one process. */
  function CheckAccumulation(trainTextEncoder: bool, accumulationSteps: int, numProcesses: int): (r: Outcome<ConfigError>)
    ensures r.Pass? <==> !trainTextEncoder || accumulationSteps <= 1 || numProcesses <= 1
    ensures r.Fail? ==> r.error == AccumulationWithTextEncoder
  {
    if trainTextEncoder && accumulationSteps > 1 && numProcesses > 1 then Fail(AccumulationWithTextEncoder)
    else Pass
  }

  /** What the loss compares the UNet's prediction with. */
  datatype Target = NoiseTarget | VelocityTarget

  /** The scheduler's `prediction_type` after `register_to_config`: the
      configured one when set, the scheduler's own otherwise. */
  function EffectivePredictionType(configured: Option<string>, schedulerType: string): string {
    configured.GetOr(schedulerType)
  }

  /** `epsilon` trains against the noise, `v_prediction` against the
      velocity; any other type is the `ValueError` naming it. */
  function PredictionTarget(configured: Option<string>, schedulerType: string): (r: Result<Target, string>)
    ensures r == Ok(NoiseTarget) <==> EffectivePredictionType(configured, schedulerType) == "epsilon"
    ensures r == Ok(VelocityTarget) <==> EffectivePredictionType(configured, schedulerType) == "v_prediction"
    ensures r.Err? ==> r.error == EffectivePredictionType(configured, schedulerType)
  {
    var t := EffectivePredictionType(configured, schedulerType);
    if t == "epsilon" then Ok(NoiseTarget)
    else if t == "v_prediction" then Ok(VelocityTarget)
    else Err(t)
  }

  /** A configured prediction type overrides the scheduler's; without one the
      scheduler's own type decides, as if it had been configured. */
  lemma ConfiguredTypeOverridesScheduler(t: string, s1: string, s2: string)
    ensures PredictionTarget(Some(t), s1) == PredictionTarget(Some(t), s2)
    ensures PredictionTarget(None, s1) == PredictionTarget(Some(s1), s2)
  {
  }
}
