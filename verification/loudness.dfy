/** The final step of the equal-loudness compensation in
    `getEqualLoudnessVolume` (script.js:401-418). The A-weighting value
    itself comes from a floating-point formula with a square root and is a
    parameter here; it is never negative, because its numerator is a
    fourth power and its denominator a product of positive terms. */
module Loudness {

  /** The weight the program treats as the 1000 Hz reference. */
  const ReferenceWeight: real := 0.5
  const MinCompensation: real := 0.3
  const MaxCompensation: real := 2.0

  /** `Math.min(2.0, Math.max(0.3, 0.5 / aWeight))`. A zero weight (a
      frequency of 0 Hz) divides to +Infinity in the browser, which the
      upper clamp turns into 2.0. */
  function Compensation(aWeight: real): (c: real)
    requires aWeight >= 0.0
    ensures MinCompensation <= c <= MaxCompensation
    ensures aWeight == 0.0 ==> c == MaxCompensation
    ensures aWeight > 0.0 && MinCompensation <= ReferenceWeight / aWeight <= MaxCompensation
            ==> c == ReferenceWeight / aWeight
    ensures aWeight > 0.0 && ReferenceWeight / aWeight < MinCompensation ==> c == MinCompensation
    ensures aWeight > 0.0 && ReferenceWeight / aWeight > MaxCompensation ==> c == MaxCompensation
  {
    if aWeight == 0.0 then MaxCompensation
    else
      var ratio := ReferenceWeight / aWeight;
      var lifted := if MinCompensation < ratio then ratio else MinCompensation;
      if lifted < MaxCompensation then lifted else MaxCompensation
  }

  /** `baseVolume * compensation`. */
  function EqualLoudnessVolume(baseVolume: real, aWeight: real): (v: real)
    requires aWeight >= 0.0
    ensures baseVolume >= 0.0 ==> MinCompensation * baseVolume <= v <= MaxCompensation * baseVolume
  {
    var c := Compensation(aWeight);
    ScaleBetween(baseVolume, c);
    baseVolume * c
  }

  lemma ScaleBetween(b: real, c: real)
    requires MinCompensation <= c <= MaxCompensation
    ensures b >= 0.0 ==> MinCompensation * b <= b * c <= MaxCompensation * b
  {
    if b >= 0.0 {
      assert b * (c - MinCompensation) >= 0.0;
      assert b * (MaxCompensation - c) >= 0.0;
    }
  }

  /** Quieter-perceived frequencies (smaller weights) are never played
      softer: the compensation does not increase with the weight. */
  lemma {:induction false} CompensationMonotone(w1: real, w2: real)
    requires 0.0 <= w1 <= w2
    ensures Compensation(w2) <= Compensation(w1)
  {
    if 0.0 < w1 {
      RatioAntitone(w1, w2);
    }
  }

  /** 0.5 / w does not increase with w > 0. */
  lemma RatioAntitone(w1: real, w2: real)
    requires 0.0 < w1 <= w2
    ensures ReferenceWeight / w2 <= ReferenceWeight / w1
  {
    var a := ReferenceWeight / w1;
    var b := ReferenceWeight / w2;
    assert a * w1 == ReferenceWeight && b * w2 == ReferenceWeight;
    assert a > 0.0;
    assert a * (w2 - w1) >= 0.0;
    assert (a - b) * w2 == a * (w2 - w1);
    PositiveFactor(a - b, w2);
  }

  lemma PositiveFactor(d: real, w: real)
    requires w > 0.0 && d * w >= 0.0
    ensures d >= 0.0
  {
  }

  /** At the reference weight the volume passes through unchanged: 0.5/0.5
      is 1, inside the clamp. */
  lemma ReferenceIsUnity(baseVolume: real)
    ensures EqualLoudnessVolume(baseVolume, ReferenceWeight) == baseVolume
  {
  }
}
