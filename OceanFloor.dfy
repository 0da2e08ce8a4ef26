/** Sampling of the ocean floor (GameLib/OceanFloor.h): the floor is a periodic curve stored
    as `SamplesCount` samples one `Dx` apart; the height at a position is the linear
    interpolation between the sample at or before it and the next one. The position enters
    as the fractional absolute sample index `absF` and its integral part `absI`. */
module OceanFloor {

  const SamplesCount: int := 512

  /** The x step of the samples, for a curve of period `period` (2000 pi in the game). */
  function Dx(period: real): (dx: real)
    requires period > 0.0
    ensures dx > 0.0 && dx * SamplesCount as real == period
  {
    period / SamplesCount as real
  }

  /** A stored sample: its value and the difference to the next sample's value. */
  datatype Sample = Sample(sampleValue: real, sampleValuePlusOneMinusSampleValue: real)

  /** The sample array as Update leaves it: each sample stores the step to the next one,
      the last one the step to the first (the curve is periodic). */
  ghost predicate Consistent(samples: seq<Sample>)
    requires |samples| == SamplesCount
  {
    forall i {:trigger samples[i].sampleValuePlusOneMinusSampleValue} :: 0 <= i < SamplesCount ==>
      samples[i].sampleValuePlusOneMinusSampleValue == samples[(i + 1) % SamplesCount].sampleValue - samples[i].sampleValue
  }

  /** C++ `/` on integers: the quotient truncated toward zero. */
  function CppQuot(a: int, b: int): int
    requires b > 0
  {
    if a >= 0 then a / b else -((-a) / b)
  }

  /** C++ `%` on integers: the remainder that goes with the truncated quotient, so that it
      has the sign of the dividend and a == (a / b) * b + a % b. */
  function CppRem(a: int, b: int): (r: int)
    requires b > 0
    ensures -b < r < b
    ensures (a >= 0 ==> 0 <= r) && (a < 0 ==> r <= 0)
    ensures a == b * CppQuot(a, b) + r
  {
    if a >= 0 then a % b
    else
      var q := (-a) / b;
      assert -a == b * q + (-a) % b;
      assert b * (-q) == -(b * q);
      -((-a) % b)
  }

  /** Whether `absI` is the floor of `absF`. */
  predicate IsFloor(absF: real, absI: int) {
    absI as real <= absF < absI as real + 1.0
  }

  /** The sample index and the fraction towards the next sample. */
  datatype SamplePosition = SamplePosition(index: int, fraction: real)

  /** The index and fraction as GetFloorHeightAt computes them: the integral part modulo the
      sample count when it is non-negative, and (count - 1) plus the truncated remainder,
      with one added to the fraction, when it is negative. The index always lies in
      [0, SamplesCount), as the source asserts. */
  function SamplePositionAsWritten(absF: real, absI: int): (p: SamplePosition)
    ensures 0 <= p.index < SamplesCount
  {
    if absI >= 0 then
      SamplePosition(absI % SamplesCount, absF - absI as real)
    else
      SamplePosition((SamplesCount - 1) + CppRem(absI, SamplesCount), 1.0 + absF - absI as real)
  }

  /** The intended index and fraction: the integral part wrapped into [0, SamplesCount)
      (floored modulo) and the fractional part. */
  function SamplePositionCorrected(absF: real, absI: int): (p: SamplePosition)
    ensures 0 <= p.index < SamplesCount
  {
    SamplePosition(absI % SamplesCount, absF - absI as real)
  }

  /** In both branches, index + fraction equals the absolute index plus a whole number of
      periods: the position within the periodic sample array is right. */
  lemma AsWrittenWraps(absF: real, absI: int)
    ensures var p := SamplePositionAsWritten(absF, absI);
      var k := p.index + (if absI < 0 then 1 else 0) - absI;
      k % SamplesCount == 0 && p.index as real + p.fraction == absF + k as real
  {
  }

  /** The corrected position also lands on the absolute index modulo the period, and for a
      floored integral part its fraction lies in [0, 1). */
  lemma CorrectedWraps(absF: real, absI: int)
    ensures var p := SamplePositionCorrected(absF, absI);
      var k := p.index - absI;
      k % SamplesCount == 0 && p.index as real + p.fraction == absF + k as real
    ensures IsFloor(absF, absI) ==> 0.0 <= SamplePositionCorrected(absF, absI).fraction < 1.0
  {
  }

  /** For a non-negative integral part the source computes the intended position. */
  lemma AsWrittenAgreesWhenNonNegative(absF: real, absI: int)
    requires absI >= 0
    ensures SamplePositionAsWritten(absF, absI) == SamplePositionCorrected(absF, absI)
  {
  }

  /** Finding: for a negative floored integral part the source's fraction lies in [1, 2),
      and its index is the one before the intended index, whose fraction is one less. */
  lemma AsWrittenNegativeIsOneSampleBack(absF: real, absI: int)
    requires absI < 0 && IsFloor(absF, absI)
    ensures var p := SamplePositionAsWritten(absF, absI);
      var q := SamplePositionCorrected(absF, absI);
      1.0 <= p.fraction < 2.0 && q.index == (p.index + 1) % SamplesCount && q.fraction == p.fraction - 1.0
  {
    var r := CppRem(absI, SamplesCount);
    var m := CppQuot(absI, SamplesCount);
    assert absI == m * SamplesCount + r;
    if r == 0 {
      assert absI % SamplesCount == 0;
    } else {
      assert absI == (m - 1) * SamplesCount + (SamplesCount + r);
      assert absI % SamplesCount == SamplesCount + r;
    }
  }

  /** A concrete case: halfway between the last sample and the first, at absolute index
      -0.5, the source picks sample 510 with fraction 1.5 instead of sample 511 with 0.5. */
  lemma AsWrittenNegativeExample()
    ensures SamplePositionAsWritten(-0.5, -1) == SamplePosition(510, 1.5)
    ensures SamplePositionCorrected(-0.5, -1) == SamplePosition(511, 0.5)
  {
  }

  /** Whether `absI` is `absF` truncated toward zero. */
  predicate IsTruncation(absF: real, absI: int) {
    if absF >= 0.0 then IsFloor(absF, absI) else absI as real - 1.0 < absF <= absI as real
  }

  /** Were the integral part truncated toward zero instead of floored, the negative branch
      would be right: strictly between two negative integers it gives the intended position
      for the floor, which is one below the truncation. */
  lemma AsWrittenRightUnderTruncation(absF: real, absI: int)
    requires absI < 0 && absI as real - 1.0 < absF < absI as real
    ensures IsTruncation(absF, absI) && IsFloor(absF, absI - 1)
    ensures SamplePositionAsWritten(absF, absI) == SamplePositionCorrected(absF, absI - 1)
  {
    var r := CppRem(absI, SamplesCount);
    var m := CppQuot(absI, SamplesCount);
    assert absI == m * SamplesCount + r;
    if r == 0 {
      assert absI - 1 == (m - 1) * SamplesCount + (SamplesCount - 1);
      assert (absI - 1) % SamplesCount == SamplesCount - 1;
    } else {
      assert absI - 1 == (m - 1) * SamplesCount + (SamplesCount + r - 1);
      assert (absI - 1) % SamplesCount == SamplesCount + r - 1;
    }
  }

  /** Under truncation the wrong inputs are those in (-1, 0) instead: they truncate to 0 and
      take the non-negative branch, whose fraction is then negative. */
  lemma AsWrittenTruncationBand(absF: real)
    requires -1.0 < absF < 0.0
    ensures IsTruncation(absF, 0) && IsFloor(absF, -1)
    ensures SamplePositionAsWritten(absF, 0) == SamplePosition(0, absF)
    ensures SamplePositionAsWritten(absF, 0).fraction < 0.0
    ensures SamplePositionCorrected(absF, -1) == SamplePosition(SamplesCount - 1, absF + 1.0)
  {
  }

  /** The interpolated height at a sample position. */
  function HeightAt(samples: seq<Sample>, p: SamplePosition): real
    requires |samples| == SamplesCount && 0 <= p.index < SamplesCount
  {
    samples[p.index].sampleValue + samples[p.index].sampleValuePlusOneMinusSampleValue * p.fraction
  }

  /** GetFloorHeightAt with the intended position. */
  function GetFloorHeightAtCorrected(samples: seq<Sample>, period: real, x: real, absI: int): real
    requires |samples| == SamplesCount && period > 0.0
  {
    HeightAt(samples, SamplePositionCorrected(x / Dx(period), absI))
  }

  /** GetFloorHeightAt as written; the integral part `absI` is FastFloorInt32(x / Dx). To the
      right of the origin it is the intended height. */
  function GetFloorHeightAt(samples: seq<Sample>, period: real, x: real, absI: int): (h: real)
    requires |samples| == SamplesCount && period > 0.0
    ensures absI >= 0 ==> h == GetFloorHeightAtCorrected(samples, period, x, absI)
  {
    HeightAt(samples, SamplePositionAsWritten(x / Dx(period), absI))
  }

  /** With the corrected position and a floored integral part, the height lies between the
      values of the sample and of the next one: it is an interpolation. */
  lemma CorrectedHeightInterpolates(samples: seq<Sample>, absF: real, absI: int)
    requires |samples| == SamplesCount && Consistent(samples) && IsFloor(absF, absI)
    ensures var p := SamplePositionCorrected(absF, absI);
      var a := samples[p.index].sampleValue;
      var b := samples[(p.index + 1) % SamplesCount].sampleValue;
      var h := HeightAt(samples, p);
      (a <= b ==> a <= h <= b) && (b <= a ==> b <= h <= a)
  {
    var p := SamplePositionCorrected(absF, absI);
    assert 0.0 <= p.fraction < 1.0;
    HeightInterpolates(samples, p);
  }

  /** The height at a position whose fraction lies in [0, 1) lies between the values of its
      sample and of the next one. */
  lemma HeightInterpolates(samples: seq<Sample>, p: SamplePosition)
    requires |samples| == SamplesCount && Consistent(samples)
    requires 0 <= p.index < SamplesCount && 0.0 <= p.fraction < 1.0
    ensures var a := samples[p.index].sampleValue;
      var b := samples[(p.index + 1) % SamplesCount].sampleValue;
      var h := HeightAt(samples, p);
      (a <= b ==> a <= h <= b) && (b <= a ==> b <= h <= a)
  {
    var a := samples[p.index].sampleValue;
    var b := samples[(p.index + 1) % SamplesCount].sampleValue;
    var d := samples[p.index].sampleValuePlusOneMinusSampleValue;
    var h := HeightAt(samples, p);
    assert h == a + d * p.fraction;
    assert d == b - a;
    InterpolationBetween(a, b, d, p.fraction, h);
  }

  /** a + d * f, with d the step from a to b, lies between a and b for f in [0, 1]. */
  lemma InterpolationBetween(a: real, b: real, d: real, f: real, h: real)
    requires d == b - a && 0.0 <= f <= 1.0 && h == a + d * f
    ensures a <= b ==> a <= h <= b
    ensures b <= a ==> b <= h <= a
  {
    var g := 1.0 - f;
    assert d * f + d * g == d * (f + g);
    assert d * (f + g) == d;
    if a <= b {
      ProductNonNegative(d, f);
      ProductNonNegative(d, g);
    } else {
      ProductNonNegative(-d, f);
      ProductNonNegative(-d, g);
      assert (-d) * f == -(d * f) && (-d) * g == -(d * g);
    }
  }

  /** The product of two non-negative reals is non-negative. */
  lemma ProductNonNegative(x: real, y: real)
    requires 0.0 <= x && 0.0 <= y
    ensures 0.0 <= x * y
  {
  }

  /** Finding, in heights: for a negative floored integral part the source extrapolates the
      segment before the intended one, so its height is off by the difference of the two
      segments' slopes times the fraction within the intended segment. */
  lemma AsWrittenHeightError(samples: seq<Sample>, absF: real, absI: int)
    requires |samples| == SamplesCount && Consistent(samples)
    requires absI < 0 && IsFloor(absF, absI)
    ensures var p := SamplePositionAsWritten(absF, absI);
      var q := SamplePositionCorrected(absF, absI);
      HeightAt(samples, p) - HeightAt(samples, q) ==
        (samples[p.index].sampleValuePlusOneMinusSampleValue - samples[q.index].sampleValuePlusOneMinusSampleValue) * q.fraction
  {
    AsWrittenNegativeIsOneSampleBack(absF, absI);
    var p := SamplePositionAsWritten(absF, absI);
    var q := SamplePositionCorrected(absF, absI);
    assert samples[p.index].sampleValuePlusOneMinusSampleValue == samples[q.index].sampleValue - samples[p.index].sampleValue;
  }

  /** The height does not depend on which period `absI` falls into: moving a whole period
      along gives the same height. */
  lemma CorrectedHeightPeriodic(samples: seq<Sample>, absF: real, absI: int)
    requires |samples| == SamplesCount
    ensures HeightAt(samples, SamplePositionCorrected(absF + SamplesCount as real, absI + SamplesCount))
         == HeightAt(samples, SamplePositionCorrected(absF, absI))
  {
    assert (absI + SamplesCount) % SamplesCount == absI % SamplesCount;
  }
}
