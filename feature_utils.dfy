/**
 Min-max scaling of one feature value against a per-feature (min, max) table
 (feature_utils.py). The table is a parameter of every member.
 */
module FeatureUtils {

  /** Feature name to its (min, max) bounds. */
  type Ranges = map<string, (real, real)>

  /** True when the table has a proper (non-degenerate) range for `name`. */
  predicate Scales(name: string, ranges: Ranges)
  {
    name in ranges && ranges[name].1 > ranges[name].0
  }

  function Min(name: string, ranges: Ranges): real
    requires name in ranges
  {
    ranges[name].0
  }

  function Max(name: string, ranges: Ranges): real
    requires name in ranges
  {
    ranges[name].1
  }

  /**
   Scales `value` linearly so that the feature's min maps to 0 and its max to 1.
   An unknown feature, or one whose range is degenerate (max <= min), is passed
   through. The result is not clamped, and the function never divides by zero.
   */
  function NormalizeFeature(value: real, name: string, ranges: Ranges): (r: real)
    ensures !Scales(name, ranges) ==> r == value
    ensures Scales(name, ranges) ==>
              Min(name, ranges) + r * (Max(name, ranges) - Min(name, ranges)) == value
  {
    if name in ranges then
      var (lo, hi) := ranges[name];
      if hi > lo then (value - lo) / (hi - lo) else value
    else
      value
  }

  /** The inverse scaling: maps a normalised value back to the feature's units. */
  function Denormalize(r: real, name: string, ranges: Ranges): (value: real)
    ensures !Scales(name, ranges) ==> value == r
  {
    if Scales(name, ranges) then
      Min(name, ranges) + r * (Max(name, ranges) - Min(name, ranges))
    else
      r
  }

  /** With a proper range, the result is the min-max quotient. */
  lemma NormalizeIsMinMax(value: real, name: string, ranges: Ranges)
    requires Scales(name, ranges)
    ensures NormalizeFeature(value, name, ranges)
            == (value - Min(name, ranges)) / (Max(name, ranges) - Min(name, ranges))
  {
  }

  /** A positive width divided by itself is 1. */
  lemma DivSelf(d: real)
    requires d > 0.0
    ensures d / d == 1.0
  {
  }

  /** Division by a positive width preserves strict order. */
  lemma DivStrictlyMonotone(a: real, b: real, d: real)
    requires d > 0.0 && a < b
    ensures a / d < b / d
  {
  }

  /** The feature's min maps to 0 and its max to 1. */
  lemma NormalizeEndpoints(name: string, ranges: Ranges)
    requires Scales(name, ranges)
    ensures NormalizeFeature(Min(name, ranges), name, ranges) == 0.0
    ensures NormalizeFeature(Max(name, ranges), name, ranges) == 1.0
  {
    var lo, hi := Min(name, ranges), Max(name, ranges);
    NormalizeIsMinMax(hi, name, ranges);
    DivSelf(hi - lo);
  }

  /** Scaling with a proper range is strictly increasing. */
  lemma NormalizeStrictlyIncreasing(v1: real, v2: real, name: string, ranges: Ranges)
    requires Scales(name, ranges)
    requires v1 < v2
    ensures NormalizeFeature(v1, name, ranges) < NormalizeFeature(v2, name, ranges)
  {
    var lo, hi := Min(name, ranges), Max(name, ranges);
    NormalizeIsMinMax(v1, name, ranges);
    NormalizeIsMinMax(v2, name, ranges);
    DivStrictlyMonotone(v1 - lo, v2 - lo, hi - lo);
  }

  /**
   No clamping: the result lies in [0, 1] exactly when the value lies in
   [min, max]; values below min map below 0 and values above max above 1.
   */
  lemma NormalizeNotClamped(value: real, name: string, ranges: Ranges)
    requires Scales(name, ranges)
    ensures value < Min(name, ranges) ==> NormalizeFeature(value, name, ranges) < 0.0
    ensures value > Max(name, ranges) ==> NormalizeFeature(value, name, ranges) > 1.0
    ensures 0.0 <= NormalizeFeature(value, name, ranges) <= 1.0
            <==> Min(name, ranges) <= value <= Max(name, ranges)
  {
    NormalizeEndpoints(name, ranges);
    var lo, hi := Min(name, ranges), Max(name, ranges);
    if value < lo {
      NormalizeStrictlyIncreasing(value, lo, name, ranges);
    } else if value > hi {
      NormalizeStrictlyIncreasing(hi, value, name, ranges);
    } else {
      if lo < value {
        NormalizeStrictlyIncreasing(lo, value, name, ranges);
      }
      if value < hi {
        NormalizeStrictlyIncreasing(value, hi, name, ranges);
      }
    }
  }

  /** Denormalising a normalised value gives the value back. */
  lemma DenormalizeNormalize(value: real, name: string, ranges: Ranges)
    ensures Denormalize(NormalizeFeature(value, name, ranges), name, ranges) == value
  {
  }

  /** Normalising a denormalised value gives it back. */
  lemma NormalizeDenormalize(r: real, name: string, ranges: Ranges)
    ensures NormalizeFeature(Denormalize(r, name, ranges), name, ranges) == r
  {
    if Scales(name, ranges) {
      var lo, hi := Min(name, ranges), Max(name, ranges);
      var n := NormalizeFeature(Denormalize(r, name, ranges), name, ranges);
      assert (n - r) * (hi - lo) == 0.0;
    }
  }
}
