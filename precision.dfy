/** `_get_weight_type`: the dtype the frozen models are cast to, chosen by the
    accelerator's `mixed_precision` setting. */
module Precision {
  import opened Wrappers

  datatype DType = Float32 | Float16 | BFloat16

  /** The `NotImplementedError` raised for any other mode. */
  datatype PrecisionError = UnsupportedMixedPrecision(mode: string)

  function WeightType(mixedPrecision: Option<string>): (r: Result<DType, PrecisionError>)
    ensures r.Ok? <==> mixedPrecision.None? || mixedPrecision.value in {"no", "fp16", "bf16"}
    ensures r.Err? ==> r.error == UnsupportedMixedPrecision(mixedPrecision.value)
  {
    match mixedPrecision
    case None => Ok(Float32)
    case Some(mode) =>
      if mode == "no" then Ok(Float32)
      else if mode == "fp16" then Ok(Float16)
      else if mode == "bf16" then Ok(BFloat16)
      else Err(UnsupportedMixedPrecision(mode))
  }

  /** The `mixed_precision` mode that selects each dtype. */
  function ModeName(d: DType): string {
    match d
    case Float32 => "no"
    case Float16 => "fp16"
    case BFloat16 => "bf16"
  }

  /** Every dtype is reachable, by its own mode name, and float32 also by
      leaving the mode unset. */
  lemma WeightTypeOfModeName(d: DType)
    ensures WeightType(Some(ModeName(d))) == Ok(d)
    ensures WeightType(None) == Ok(Float32)
  {
  }

  /** Each accepted mode selects the dtype it names and no other: the only
      way to get a dtype is its mode name (or no mode, for float32). */
  lemma WeightTypeNamesMode(mixedPrecision: Option<string>)
    requires WeightType(mixedPrecision).Ok?
    ensures var d := WeightType(mixedPrecision).value;
      mixedPrecision == Some(ModeName(d)) || (mixedPrecision.None? && d == Float32)
  {
  }
}
