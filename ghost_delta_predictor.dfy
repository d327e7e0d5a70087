// NetCode's integer delta predictor
// (sampleproject/Assets/NetCode/Snapshot/GhostDeltaPredictor.cs): from the
// ticks of three baselines it derives two fractions (in sixteenths) and uses
// them to extrapolate an integer field from its three baseline values.
// All arithmetic is C#'s unchecked 32-bit int arithmetic: products and sums
// wrap (Words.ToI32), division truncates toward zero (Words.DivT) and throws
// on a zero divisor and on int.MinValue / -1; those throws are Fail results.

module GhostDeltaPrediction {
  import opened Words
  import opened Wrappers

  const IntMin: int32 := -0x8000_0000

  datatype GhostDeltaPredictor = GhostDeltaPredictor(predictFrac: int32, applyFrac: int32)

  /** C#'s int `/`: throws on a zero divisor and on int.MinValue / -1, else truncates. */
  function DivInt(a: int32, b: int32): (r: Result<int32>)
    ensures r.Ok? <==> b != 0 && !(a == IntMin && b == -1)
    ensures r.Ok? ==> r.value == DivT(a, b)
  {
    if b == 0 then Fail("DivideByZeroException")
    else if a == IntMin && b == -1 then Fail("OverflowException")
    else
      DivTBound(a, b);
      Ok(DivT(a, b))
  }

  /** A truncated quotient is no further from 0 than the dividend, and below 2^31 unless it is MinValue / -1. */
  lemma DivTBound(a: int32, b: int32)
    requires b != 0 && !(a == IntMin && b == -1)
    ensures -U31 <= DivT(a, b) < U31
  {
    if a >= 0 && b > 0 {
      DivNonNegBelow(a, b);
    } else if a < 0 && b > 0 {
      DivNonNegBelow(-(a as int), b);
    } else if a >= 0 && b < 0 {
      DivNonNegBelow(a, -(b as int));
    } else {
      var na, nb := -(a as int), -(b as int);
      DivNonNegBelow(na, nb);
      if nb >= 2 {
        DivBelow(na, U31 / 2 + 1, nb);
      }
    }
  }

  lemma DivNonNegBelow(a: int, b: int)
    requires a >= 0 && b >= 1
    ensures 0 <= a / b <= a
  {
    var q := a / b;
    assert a == q * b + a % b;
    if q > a {
      MulAtLeast(q, b);
    }
  }

  /** 16 * (int)(x - y) / (int)(z - w): the distance x - y in sixteenths of z - w. */
  function Sixteenths(x: uint, y: uint, z: uint, w: uint): (r: Result<int32>)
    ensures x != y && z != w ==> r.Ok? || (ToI32(16 * ToI32(x - y)) == IntMin && ToI32(z - w) == -1)
    ensures z == w ==> r.Fail?
  {
    DivInt(ToI32(16 * ToI32(x - y)), ToI32(z - w))
  }

  /**
   * The constructor: predictFrac is the distance baseline0 - baseline1 in
   * sixteenths of baseline1 - baseline2, applyFrac the distance tick - baseline0
   * in sixteenths of baseline0 - baseline1. It throws when a divisor is 0,
   * that is when two consecutive baselines are equal.
   */
  function NewPredictor(tick: uint, baseline0: uint, baseline1: uint, baseline2: uint): (r: Result<GhostDeltaPredictor>)
    ensures baseline0 == baseline1 || baseline1 == baseline2 ==> r.Fail?
    ensures r.Ok? ==>
      && Sixteenths(baseline0, baseline1, baseline1, baseline2) == Ok(r.value.predictFrac)
      && Sixteenths(tick, baseline0, baseline0, baseline1) == Ok(r.value.applyFrac)
  {
    match Sixteenths(baseline0, baseline1, baseline1, baseline2)
    case Fail(e) => Fail(e)
    case Ok(predictFrac) =>
      match Sixteenths(tick, baseline0, baseline0, baseline1)
      case Fail(e) => Fail(e)
      case Ok(applyFrac) => Ok(GhostDeltaPredictor(predictFrac, applyFrac))
  }

  /** A (int)(x - y) of two distinct ticks is never 0, so a divisor is 0 exactly when two baselines are equal. */
  lemma DistinctTicksDivisor(x: uint, y: uint)
    ensures ToI32(x - y) == 0 <==> x == y
  {
  }

  /** Unity.Mathematics math.abs(int): max(-x, x), where -int.MinValue wraps back to int.MinValue. */
  function Abs(x: int32): (r: int32)
    ensures x != IntMin ==> r >= 0 && (r == x || r == -x)
    ensures x == IntMin ==> r == IntMin
  {
    if x == IntMin then IntMin else if x < 0 then -x else x
  }

  /**
   * The value predicted for baseline0: baseline1 moved on by predictFrac
   * sixteenths of baseline1 - baseline2. A zero fraction predicts baseline1
   * itself, and a one-step fraction (16) extrapolates the last step linearly
   * when no 32-bit product or sum wraps.
   */
  function PredictBaseline(p: GhostDeltaPredictor, baseline1: int32, baseline2: int32): (r: int32)
    ensures p.predictFrac == 0 ==> r == baseline1
    ensures (p.predictFrac == 16 && -0x800_0000 <= baseline1 - baseline2 < 0x800_0000
             && IntMin <= 2 * baseline1 - baseline2 < U31) ==> r == 2 * baseline1 - baseline2
  {
    assert p.predictFrac == 0 ==> DivT(ToI32(ToI32(baseline1 - baseline2) * p.predictFrac), 16) == 0;
    assert p.predictFrac == 16 && -0x800_0000 <= baseline1 - baseline2 < 0x800_0000 ==>
      DivT(ToI32(ToI32(baseline1 - baseline2) * p.predictFrac), 16) == baseline1 - baseline2;
    var delta := ToI32(baseline1 - baseline2);
    ToI32(baseline1 + DivT(ToI32(delta * p.predictFrac), 16))
  }

  /**
   * PredictInt: when the prediction for baseline0 was off by at least the last
   * step baseline0 - baseline1, baseline0 itself; otherwise baseline0 moved on
   * by applyFrac sixteenths of that step. A value that did not move, or a
   * zero fraction, leaves baseline0 as it is.
   */
  function PredictInt(p: GhostDeltaPredictor, baseline0: int32, baseline1: int32, baseline2: int32): (r: int32)
    ensures Abs(ToI32(baseline0 - PredictBaseline(p, baseline1, baseline2))) >= Abs(ToI32(baseline0 - baseline1))
      ==> r == baseline0
    ensures baseline0 == baseline1 || p.applyFrac == 0 ==> r == baseline0
    ensures (p.applyFrac == 16 && -0x800_0000 <= baseline0 - baseline1 < 0x800_0000 && IntMin <= 2 * baseline0 - baseline1 < U31
             && Abs(ToI32(baseline0 - PredictBaseline(p, baseline1, baseline2))) < Abs(ToI32(baseline0 - baseline1)))
            ==> r == 2 * baseline0 - baseline1
  {
    assert baseline0 == baseline1 || p.applyFrac == 0 ==>
      DivT(ToI32(ToI32(baseline0 - baseline1) * p.applyFrac), 16) == 0;
    assert p.applyFrac == 16 && -0x800_0000 <= baseline0 - baseline1 < 0x800_0000 ==>
      DivT(ToI32(ToI32(baseline0 - baseline1) * p.applyFrac), 16) == baseline0 - baseline1;
    var predictBaseline := PredictBaseline(p, baseline1, baseline2);
    var delta := ToI32(baseline0 - baseline1);
    if Abs(ToI32(baseline0 - predictBaseline)) >= Abs(delta) then baseline0
    else ToI32(baseline0 + DivT(ToI32(delta * p.applyFrac), 16))
  }

  /** Two equal older baselines predict no movement: the predicted value is baseline1. */
  lemma EqualBaselinesPredictSame(p: GhostDeltaPredictor, baseline1: int32)
    ensures PredictBaseline(p, baseline1, baseline1) == baseline1
  {
    assert DivT(ToI32(0 * p.predictFrac), 16) == 0;
  }

  /** A value that has not changed stays unchanged, whatever the predictor. */
  lemma ConstantStays(p: GhostDeltaPredictor, b: int32)
    ensures PredictInt(p, b, b, b) == b
  {
    EqualBaselinesPredictSame(p, b);
  }

  /** Evenly spaced ticks (step t below 2^27, so 16 * t does not wrap) give fractions of exactly one step. */
  lemma EvenTicks(baseline0: uint, t: int)
    requires 1 <= t < 0x800_0000
    ensures NewPredictor(ToU32(baseline0 + t), baseline0, ToU32(baseline0 - t), ToU32(baseline0 - 2 * t))
      == Ok(GhostDeltaPredictor(16, 16))
  {
    var b0: int := baseline0;
    var b1: int, b2: int, tick: int := ToU32(b0 - t), ToU32(b0 - 2 * t), ToU32(b0 + t);
    CastDistance(b0, b1, t);
    CastDistance(b1, b2, t);
    CastDistance(tick, b0, t);
    OneStep(b0, b1, b1, b2, t);
    OneStep(tick, b0, b0, b1, t);
  }

  /** A distance of t in sixteenths of a distance of t is 16. */
  lemma OneStep(x: uint, y: uint, z: uint, w: uint, t: int)
    requires 1 <= t < 0x800_0000 && ToI32(x - y) == t && ToI32(z - w) == t
    ensures Sixteenths(x, y, z, w) == Ok(16)
  {
    assert ToI32(16 * t) == 16 * t;
    DivUnique(16 * t, t, 16, 0);
    assert DivInt(16 * t, t) == Ok(16);
  }

  /** The (int) cast of a difference congruent to a t of 32-bit int range is t. */
  lemma CastDistance(x: int, y: int, t: int)
    requires (x - y - t) % U32 == 0 && 1 <= t < U31
    ensures ToI32(x - y) == t
  {
    var k := (x - y - t) / U32;
    assert x - y == t + k * U32;
    assert (x - y) % U32 == t;
  }

  /**
   * With one-step fractions, a value moving by d per step (no 32-bit wrap on
   * the way) is extrapolated exactly one step further, to baseline0 + d.
   */
  lemma LinearMotion(v: int, d: int)
    requires d != 0
    requires -0x400_0000 <= v < 0x400_0000 && -0x400_0000 <= d < 0x400_0000
    ensures PredictInt(GhostDeltaPredictor(16, 16), v, v - d, v - 2 * d) == v + d
  {
    var p := GhostDeltaPredictor(16, 16);
    assert ToI32(v - d - (v - 2 * d)) == d;
    assert ToI32(d * 16) == 16 * d;
    assert DivT(16 * d, 16) == d;
    assert PredictBaseline(p, v - d, v - 2 * d) == v;
    assert ToI32(v - d * 1) == v - d;
    assert Abs(ToI32(v - v)) == 0;
    assert Abs(ToI32(v - (v - d))) > 0;
  }
}
