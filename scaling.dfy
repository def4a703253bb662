/** The fixed min-max scaling of the model's inputs (the scaler rebuilt from constants at
    start-up) and the affine map that turns the model's output back into kilograms of CO2. */
module Scaling {

  /** The per-column offsets `min_`: all zero. */
  const Min: seq<real> := [0.0, 0.0, 0.0, 0.0, 0.0, 0.0, 0.0, 0.0]

  /** The per-column factors `scale_`. */
  const Scale: seq<real> :=
    [1.0 / 1.0, 1.0 / 100.0, 1.0 / 70.0, 1.0 / 3000.0,
     1.0 / 10.0, 1.0 / 20000.0, 1.0 / 6.0, 1.0 / 500.0]

  /** The range each column was assumed to span during training: Scale is its reciprocal. */
  const Range: seq<real> := [1.0, 100.0, 70.0, 3000.0, 10.0, 20000.0, 6.0, 500.0]

  /** The bounds of the weekly CO2 target (`kg_co2_min`, `kg_co2_max`). */
  const TargetMin: real := 0.0
  const TargetMax: real := 100.0

  /** The scaler's forward transform, `x * scale_ + min_`, column by column. */
  function Normalize(x: seq<real>): (y: seq<real>)
    requires |x| == |Scale|
    ensures |y| == |x|
  {
    seq(|x|, i requires 0 <= i < |x| => x[i] * Scale[i] + Min[i])
  }

  /** The scaler's inverse transform, `(y - min_) / scale_`. */
  function Unnormalize(y: seq<real>): (x: seq<real>)
    requires |y| == |Scale|
    ensures |x| == |y|
  {
    seq(|y|, i requires 0 <= i < |y| => (y[i] - Min[i]) / Scale[i])
  }

  /** Maps the model's output back to kilograms of CO2. */
  function Denormalize(p: real): real
  {
    p * (TargetMax - TargetMin) + TargetMin
  }

  /** The target scaling the model was trained against (its output lives in this space). */
  function NormalizeTarget(kg: real): real
  {
    (kg - TargetMin) / (TargetMax - TargetMin)
  }

  /** Because every offset is zero, each normalised column is the raw value divided by the
      range assumed for that column. */
  lemma NormalizeDividesByRange(x: seq<real>)
    requires |x| == |Scale|
    ensures forall i :: 0 <= i < |x| ==> Normalize(x)[i] == x[i] / Range[i]
  {
    forall i | 0 <= i < |x| ensures Normalize(x)[i] == x[i] / Range[i] {
      assert Min[i] == 0.0;
      assert Scale[i] * Range[i] == 1.0;
    }
  }

  /** A value inside its column's assumed range lands in [0, 1]; a value beyond the range
      is not clipped and lands beyond 1. */
  lemma NormalizeRange(x: seq<real>, i: int)
    requires |x| == |Scale| && 0 <= i < |x|
    ensures 0.0 <= x[i] <= Range[i] ==> 0.0 <= Normalize(x)[i] <= 1.0
    ensures x[i] > Range[i] ==> Normalize(x)[i] > 1.0
    ensures x[i] < 0.0 ==> Normalize(x)[i] < 0.0
  {
    NormalizeDividesByRange(x);
    assert Range[i] > 0.0;
  }

  /** Unnormalize undoes Normalize. */
  lemma UnnormalizeNormalize(x: seq<real>)
    requires |x| == |Scale|
    ensures Unnormalize(Normalize(x)) == x
  {
    var y := Normalize(x);
    forall i | 0 <= i < |x| ensures Unnormalize(y)[i] == x[i] {
      assert Scale[i] != 0.0;
    }
  }

  /** Normalize undoes Unnormalize. */
  lemma NormalizeUnnormalize(y: seq<real>)
    requires |y| == |Scale|
    ensures Normalize(Unnormalize(y)) == y
  {
    var x := Unnormalize(y);
    forall i | 0 <= i < |y| ensures Normalize(x)[i] == y[i] {
      assert Scale[i] != 0.0;
    }
  }

  /** With the bounds (0, 100), denormalising multiplies by 100. */
  lemma DenormalizeIsTimes100(p: real)
    ensures Denormalize(p) == 100.0 * p
  {
  }

  /** Denormalize and the target scaling are inverse to each other in both directions, and
      Denormalize preserves order. */
  lemma DenormalizeInverse(p: real, kg: real)
    ensures NormalizeTarget(Denormalize(p)) == p
    ensures Denormalize(NormalizeTarget(kg)) == kg
    ensures p <= kg ==> Denormalize(p) <= Denormalize(kg)
  {
  }
}
