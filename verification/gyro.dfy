/** The MPU-6050 readout of `src/gyro/gyro.cpp`: decoding of the six data
    bytes, calibration by averaging, and calibrated reads. The I2C transfer
    is a parameter: a transfer either delivers all six bytes (`Some`) or
    does not (`None`). Floats are modelled as reals. */
module Gyro {
  import opened Wrappers
  import opened ArduinoMath

  type Byte = x: int | 0 <= x < 256

  /** The six bytes of one burst read, high byte first per axis. */
  datatype RawBlock = RawBlock(xh: Byte, xl: Byte, yh: Byte, yl: Byte, zh: Byte, zl: Byte)

  /** Three floats: a gyro or accel reading, or a set of offsets. */
  datatype Vector = Vector(x: real, y: real, z: real)

  datatype Axis = X | Y | Z

  /** Samples averaged by each calibration. */
  const NumSamples: nat := 100
  /** LSB per degree/second at the +-250 deg/s range. */
  const GyroScale: real := 131.0
  /** LSB per g at the +-2 g range. */
  const AccelScale: real := 16384.0
  /** One g in raw accelerometer units. */
  const OneG: int := 16384

  /** `Wire.read() << 8 | Wire.read()`: the unsigned word of two bytes, with
      the two reads taken in order. */
  function Word(hi: Byte, lo: Byte): (w: int)
    ensures 0 <= w < 0x1_0000
    ensures w / 256 == hi && w % 256 == lo
  {
    hi * 256 + lo
  }

  /** The word stored into an `int16_t`: two's complement. */
  function Signed(hi: Byte, lo: Byte): (v: int)
    ensures -0x8000 <= v < 0x8000
    ensures hi < 128 ==> v == Word(hi, lo)
    ensures hi >= 128 ==> v == Word(hi, lo) - 0x1_0000
  {
    ToInt16(Word(hi, lo))
  }

  /** The register bytes the sensor sends for a signed 16-bit value. */
  function BytesOf(v: int): (Byte, Byte)
    requires -0x8000 <= v < 0x8000
  {
    var u := v % 0x1_0000;
    (u / 256, u % 256)
  }

  /** Decoding inverts the sensor's encoding... */
  lemma DecodeUndoesEncode(v: int)
    requires -0x8000 <= v < 0x8000
    ensures Signed(BytesOf(v).0, BytesOf(v).1) == v
  {
    var u := v % 0x1_0000;
    assert Word(u / 256, u % 256) == u;
    ToInt16Congruent(u, v);
  }

  /** ...and the encoding inverts the decoding: the two are a bijection
      between byte pairs and int16 values. */
  lemma EncodeUndoesDecode(hi: Byte, lo: Byte)
    ensures BytesOf(Signed(hi, lo)) == (hi, lo)
  {
    var w := Word(hi, lo);
    assert Signed(hi, lo) % 0x1_0000 == w;
  }

  function AxisBytes(b: RawBlock, axis: Axis): (Byte, Byte) {
    match axis
    case X => (b.xh, b.xl)
    case Y => (b.yh, b.yl)
    case Z => (b.zh, b.zl)
  }

  function AxisValue(b: RawBlock, axis: Axis): int {
    Signed(AxisBytes(b, axis).0, AxisBytes(b, axis).1)
  }

  /** What one calibration sample adds to an axis sum: its signed value, or
      nothing when the transfer failed. */
  function SampleValue(sample: Option<RawBlock>, axis: Axis): int {
    match sample
    case None => 0
    case Some(b) => AxisValue(b, axis)
  }

  /** The running sum of one axis over the samples so far (exact: at most
      100 values of 16 bits). */
  function AxisSum(samples: seq<Option<RawBlock>>, axis: Axis): int
    decreases |samples|
  {
    if |samples| == 0 then 0
    else AxisSum(samples[..|samples| - 1], axis) + SampleValue(samples[|samples| - 1], axis)
  }

  /** The mean of one axis over the calibration samples. A failed transfer
      still counts in the divisor. */
  function AxisMean(samples: seq<Option<RawBlock>>, axis: Axis): real
    requires |samples| == NumSamples
  {
    AxisSum(samples, axis) as real / NumSamples as real
  }

  /** `calibrateGyro`: the per-axis means. */
  function GyroOffsets(samples: seq<Option<RawBlock>>): (o: Vector)
    requires |samples| == NumSamples
    ensures -32768.0 <= o.x <= 32767.0 && -32768.0 <= o.y <= 32767.0 && -32768.0 <= o.z <= 32767.0
  {
    MeanBounded(samples, X);
    MeanBounded(samples, Y);
    MeanBounded(samples, Z);
    Vector(AxisMean(samples, X), AxisMean(samples, Y), AxisMean(samples, Z))
  }

  /** `calibrateAccel`: the per-axis means, with one g taken off X so that
      the board lying flat (X pointing down) reads 1 g on X. */
  function AccelOffsets(samples: seq<Option<RawBlock>>): (o: Vector)
    requires |samples| == NumSamples
    ensures o.x == GyroOffsets(samples).x - OneG as real
    ensures o.y == GyroOffsets(samples).y && o.z == GyroOffsets(samples).z
  {
    Vector(AxisMean(samples, X) - OneG as real, AxisMean(samples, Y), AxisMean(samples, Z))
  }

  /** Every partial sum lies between the int16 bounds times the count. */
  lemma {:induction false} SumBounded(samples: seq<Option<RawBlock>>, axis: Axis)
    ensures -0x8000 * |samples| <= AxisSum(samples, axis) <= 0x7FFF * |samples|
    decreases |samples|
  {
    if |samples| > 0 {
      SumBounded(samples[..|samples| - 1], axis);
    }
  }

  /** So every mean lies in the int16 range. */
  lemma MeanBounded(samples: seq<Option<RawBlock>>, axis: Axis)
    requires |samples| == NumSamples
    ensures -32768.0 <= AxisMean(samples, axis) <= 32767.0
  {
    SumBounded(samples, axis);
  }

  /** Samples that all delivered the same block sum to the count times its
      value. */
  lemma {:induction false} ConstantSum(samples: seq<Option<RawBlock>>, b: RawBlock, axis: Axis)
    requires forall i :: 0 <= i < |samples| ==> samples[i] == Some(b)
    ensures AxisSum(samples, axis) == |samples| * AxisValue(b, axis)
    decreases |samples|
  {
    if |samples| > 0 {
      ConstantSum(samples[..|samples| - 1], b, axis);
    }
  }

  /** Samples whose transfers all failed sum to zero. */
  lemma {:induction false} NoDataSum(samples: seq<Option<RawBlock>>, axis: Axis)
    requires forall i :: 0 <= i < |samples| ==> samples[i] == None
    ensures AxisSum(samples, axis) == 0
    decreases |samples|
  {
    if |samples| > 0 {
      NoDataSum(samples[..|samples| - 1], axis);
    }
  }

  /** A sensor that reports the same block throughout calibration gets
      exactly that block's values as gyro offsets, and one g less on X as
      accel offsets. */
  lemma SteadyCalibration(samples: seq<Option<RawBlock>>, b: RawBlock)
    requires |samples| == NumSamples
    requires forall i :: 0 <= i < |samples| ==> samples[i] == Some(b)
    ensures GyroOffsets(samples)
            == Vector(AxisValue(b, X) as real, AxisValue(b, Y) as real, AxisValue(b, Z) as real)
    ensures AccelOffsets(samples).x == (AxisValue(b, X) - OneG) as real
  {
    ConstantSum(samples, b, X);
    ConstantSum(samples, b, Y);
    ConstantSum(samples, b, Z);
  }

  /** When no transfer succeeds the gyro offsets are zero and the accel
      offsets are (-16384, 0, 0). */
  lemma SilentCalibration(samples: seq<Option<RawBlock>>)
    requires |samples| == NumSamples
    requires forall i :: 0 <= i < |samples| ==> samples[i] == None
    ensures GyroOffsets(samples) == Vector(0.0, 0.0, 0.0)
    ensures AccelOffsets(samples) == Vector(-16384.0, 0.0, 0.0)
  {
    NoDataSum(samples, X);
    NoDataSum(samples, Y);
    NoDataSum(samples, Z);
  }

  /** The calibration loop: sums the three axes sample by sample, then
      divides by the sample count. */
  method CalibrateGyro(samples: seq<Option<RawBlock>>) returns (offsets: Vector)
    requires |samples| == NumSamples
    ensures offsets == GyroOffsets(samples)
  {
    var sumX, sumY, sumZ := 0, 0, 0;
    var i := 0;
    while i < NumSamples
      invariant 0 <= i <= NumSamples
      invariant sumX == AxisSum(samples[..i], X)
      invariant sumY == AxisSum(samples[..i], Y)
      invariant sumZ == AxisSum(samples[..i], Z)
    {
      assert samples[..i + 1][..i] == samples[..i];
      match samples[i] {
        case Some(b) =>
          sumX := sumX + AxisValue(b, X);
          sumY := sumY + AxisValue(b, Y);
          sumZ := sumZ + AxisValue(b, Z);
        case None =>
      }
      i := i + 1;
    }
    assert samples[..NumSamples] == samples;
    offsets := Vector(sumX as real / NumSamples as real, sumY as real / NumSamples as real,
                      sumZ as real / NumSamples as real);
  }

  /** One calibrated axis as the firmware computes it: the offset is taken
      off the UNSIGNED word, and the float difference is stored into an
      `int16_t` by truncating toward zero and wrapping to 16 bits. */
  function ReadAxisAsWritten(hi: Byte, lo: Byte, offset: real): (v: int)
    ensures -0x8000 <= v < 0x8000
    ensures var d := Word(hi, lo) as real - offset;
            (d >= 0.0 ==> (v - d.Floor) % 0x1_0000 == 0)
            && (d < 0.0 ==> (v + (-d).Floor) % 0x1_0000 == 0)
  {
    ToInt16(TruncToInt(Word(hi, lo) as real - offset))
  }

  /** One calibrated axis as intended: the offset is taken off the signed
      reading, truncated toward zero and stored into an `int16_t`. */
  function ReadAxis(hi: Byte, lo: Byte, offset: real): (v: int)
    ensures -0x8000 <= v < 0x8000
    ensures var d := Signed(hi, lo) as real - offset;
            -32768.0 <= d < 32768.0 ==>
              (d >= 0.0 ==> v as real <= d < v as real + 1.0)
              && (d < 0.0 ==> v as real - 1.0 < d <= v as real)
  {
    ToInt16(TruncToInt(Signed(hi, lo) as real - offset))
  }

  /** With a whole-number offset the firmware's computation is the intended
      one: the difference is an integer, so truncation is exact and the
      16-bit wrap removes the unsigned/signed discrepancy. */
  lemma WholeOffsetAgrees(hi: Byte, lo: Byte, k: int)
    ensures ReadAxisAsWritten(hi, lo, k as real) == ReadAxis(hi, lo, k as real)
  {
    var w := Word(hi, lo);
    var s := Signed(hi, lo);
    assert TruncToInt(w as real - k as real) == w - k;
    assert TruncToInt(s as real - k as real) == s - k;
    ToInt16Congruent(w - k, s - k);
  }

  lemma ToInt16Congruent(a: int, b: int)
    requires (a - b) % 0x1_0000 == 0
    ensures ToInt16(a) == ToInt16(b)
  {
    assert (a + 0x8000) % 0x1_0000 == (b + 0x8000) % 0x1_0000;
  }

  /** For a non-negative reading the two computations coincide whatever the
      offset. */
  lemma NonNegativeReadingAgrees(hi: Byte, lo: Byte, offset: real)
    requires hi < 128
    ensures ReadAxisAsWritten(hi, lo, offset) == ReadAxis(hi, lo, offset)
  {
  }

  /** The discrepancy: the reading -1 (bytes FF FF) with offset 0.5 should
      give trunc(-1.5) = -1, but the firmware truncates 65534.5 to 65534,
      which wraps to -2. */
  lemma NegativeReadingDisagrees()
    ensures ReadAxis(0xFF, 0xFF, 0.5) == -1
    ensures ReadAxisAsWritten(0xFF, 0xFF, 0.5) == -2
  {
    assert Signed(0xFF, 0xFF) == -1;
    assert TruncToInt(-1.5) == -1;
    assert TruncToInt(65534.5) == 65534;
  }

  /** Where the two computations part: exactly for a negative reading whose
      calibrated difference is negative, above -65536 and not a whole
      number. There the firmware's value is one below the intended one
      (modulo the 16-bit wrap); everywhere else the two agree. */
  lemma ReadingDiscrepancy(hi: Byte, lo: Byte, offset: real)
    ensures var d := Signed(hi, lo) as real - offset;
            ReadAxisAsWritten(hi, lo, offset)
            == if hi >= 128 && -65536.0 < d < 0.0 && d.Floor as real != d
               then ToInt16(ReadAxis(hi, lo, offset) - 1)
               else ReadAxis(hi, lo, offset)
  {
    var d := Signed(hi, lo) as real - offset;
    if hi >= 128 {
      assert Word(hi, lo) as real - offset == d + 65536.0;
      var t := TruncToInt(d);
      TruncShift(d);
      if -65536.0 < d < 0.0 && d.Floor as real != d {
        ToInt16Congruent(t - 1 + 65536, ToInt16(t) - 1);
      } else {
        ToInt16Congruent(t + 65536, t);
      }
    }
  }

  /** Truncation of a value moved up by 65536: a whole shift, except that a
      negative fraction that becomes positive is rounded down instead of
      up. */
  lemma TruncShift(d: real)
    ensures TruncToInt(d + 65536.0)
            == if -65536.0 < d < 0.0 && d.Floor as real != d
               then TruncToInt(d) - 1 + 65536
               else TruncToInt(d) + 65536
  {
    if d >= 0.0 {
      assert (d + 65536.0).Floor == d.Floor + 65536;
    } else if d >= -65536.0 {
      assert (d + 65536.0).Floor == d.Floor + 65536;
      if d.Floor as real != d {
        assert (-d).Floor == -d.Floor - 1;
      } else {
        assert (-d).Floor == -d.Floor;
      }
    } else {
      assert (-(d + 65536.0)).Floor == (-d).Floor - 65536;
    }
  }

  /** Every axis of `v` lies within plus or minus `bound`. */
  predicate InRange(v: Vector, bound: real) {
    -bound <= v.x <= bound && -bound <= v.y <= bound && -bound <= v.z <= bound
  }

  /** Each axis of `v`, times the scale, is the firmware's calibrated value
      of that axis of `b`. */
  predicate ScaledAxes(b: RawBlock, offsets: Vector, v: Vector, scale: real) {
    && v.x * scale == ReadAxisAsWritten(b.xh, b.xl, offsets.x) as real
    && v.y * scale == ReadAxisAsWritten(b.yh, b.yl, offsets.y) as real
    && v.z * scale == ReadAxisAsWritten(b.zh, b.zl, offsets.z) as real
  }

  function ReadVector(b: RawBlock, offsets: Vector, scale: real): Vector
    requires scale > 0.0
  {
    Vector(ReadAxisAsWritten(b.xh, b.xl, offsets.x) as real / scale,
           ReadAxisAsWritten(b.yh, b.yl, offsets.y) as real / scale,
           ReadAxisAsWritten(b.zh, b.zl, offsets.z) as real / scale)
  }

  /** `readGyro`: a calibrated reading in degrees per second. A failed
      transfer leaves the returned structure uninitialised, which is
      modelled as no value. */
  function ReadGyro(sample: Option<RawBlock>, offsets: Vector): (r: Option<Vector>)
    ensures r.Some? <==> sample.Some?
    ensures r.Some? ==> InRange(r.value, 32768.0 / GyroScale)
    ensures r.Some? ==> ScaledAxes(sample.value, offsets, r.value, GyroScale)
  {
    match sample
    case None => None
    case Some(b) => Some(ReadVector(b, offsets, GyroScale))
  }

  /** `readAccel`: a calibrated reading in g. */
  function ReadAccel(sample: Option<RawBlock>, offsets: Vector): (r: Option<Vector>)
    ensures r.Some? <==> sample.Some?
    ensures r.Some? ==> InRange(r.value, 2.0)
    ensures r.Some? ==> ScaledAxes(sample.value, offsets, r.value, AccelScale)
  {
    match sample
    case None => None
    case Some(b) => Some(ReadVector(b, offsets, AccelScale))
  }

  /** With zero offsets every axis of either read is the raw signed value
      over the scale. */
  lemma UncalibratedRead(b: RawBlock)
    ensures var g := ReadGyro(Some(b), Vector(0.0, 0.0, 0.0)).value;
            && g.x == AxisValue(b, X) as real / GyroScale
            && g.y == AxisValue(b, Y) as real / GyroScale
            && g.z == AxisValue(b, Z) as real / GyroScale
    ensures var a := ReadAccel(Some(b), Vector(0.0, 0.0, 0.0)).value;
            && a.x == AxisValue(b, X) as real / AccelScale
            && a.y == AxisValue(b, Y) as real / AccelScale
            && a.z == AxisValue(b, Z) as real / AccelScale
  {
    ReadZeroOffset(b.xh, b.xl);
    ReadZeroOffset(b.yh, b.yl);
    ReadZeroOffset(b.zh, b.zl);
  }

  /** The unit scales: with zero offsets a raw 131 reads 1 deg/s, a raw
      -131 reads -1 deg/s and a raw 16384 reads 1 g. */
  lemma UnitScales(b: RawBlock)
    ensures AxisValue(b, X) == 131 ==> ReadGyro(Some(b), Vector(0.0, 0.0, 0.0)).value.x == 1.0
    ensures AxisValue(b, X) == -131 ==> ReadGyro(Some(b), Vector(0.0, 0.0, 0.0)).value.x == -1.0
    ensures AxisValue(b, X) == OneG ==> ReadAccel(Some(b), Vector(0.0, 0.0, 0.0)).value.x == 1.0
  {
    ReadZeroOffset(b.xh, b.xl);
  }

  lemma ReadZeroOffset(hi: Byte, lo: Byte)
    ensures ReadAxisAsWritten(hi, lo, 0.0) == Signed(hi, lo)
  {
    assert TruncToInt(Signed(hi, lo) as real) == Signed(hi, lo);
    WholeOffsetAgrees(hi, lo, 0);
  }

  /** A sensor that keeps reporting what it reported throughout calibration
      reads zero rate on every gyro axis, and 1 g on X and nothing on Y and Z
      from the accelerometer. */
  lemma CalibratedStillRead(samples: seq<Option<RawBlock>>, b: RawBlock)
    requires |samples| == NumSamples
    requires forall i :: 0 <= i < |samples| ==> samples[i] == Some(b)
    ensures ReadGyro(Some(b), GyroOffsets(samples)) == Some(Vector(0.0, 0.0, 0.0))
    ensures ReadAccel(Some(b), AccelOffsets(samples)) == Some(Vector(1.0, 0.0, 0.0))
  {
    SteadyCalibration(samples, b);
    ReadWholeOffset(b.xh, b.xl, AxisValue(b, X));
    ReadWholeOffset(b.yh, b.yl, AxisValue(b, Y));
    ReadWholeOffset(b.zh, b.zl, AxisValue(b, Z));
    ReadWholeOffset(b.xh, b.xl, AxisValue(b, X) - OneG);
  }

  lemma ReadWholeOffset(hi: Byte, lo: Byte, k: int)
    requires -0x8000 <= Signed(hi, lo) - k < 0x8000
    ensures ReadAxisAsWritten(hi, lo, k as real) == Signed(hi, lo) - k
  {
    assert Signed(hi, lo) as real - k as real == (Signed(hi, lo) - k) as real;
    WholeOffsetAgrees(hi, lo, k);
  }
}
