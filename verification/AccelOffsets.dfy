/** Offset calibration of the accelerometer. */
module AccelOffsets {
  import opened Basics
  import opened Bits
  import opened Device
  import opened Driver
  import opened FifoFormat
  import opened Samples
  import opened Offsets

  function Pow2(n: nat): (p: nat)
    ensures p >= 1
  {
    if n == 0 then 1 else Pow2(n - 1) * 2
  }

  /** `power`, for the base 2 it is always called with. */
  method Power(resolution: nat) returns (value: nat)
    ensures value == Pow2(resolution)
  {
    value := 1;
    for loop := 0 to resolution
      invariant value == Pow2(loop)
    {
      value := value * 2;
    }
  }

  /** `map_accel_range`. */
  function RangeG(range: nat): nat {
    if range == 0 then 2 else if range == 1 then 4 else if range == 2 then 8 else if range == 3 then 16 else 8
  }

  predicate IsRange(g: nat) {
    g == 2 || g == 4 || g == 8 || g == 16
  }

  /** One g at sixteen bits, which is 65536 / (2 * g). */
  function LsbPerG(g: nat): nat
    requires IsRange(g)
  {
    if g == 2 then 16384 else if g == 4 then 8192 else if g == 8 then 4096 else 2048
  }

  /** How often the starting value of the search can be halved. */
  function Halvings(g: nat): nat
    requires IsRange(g)
  {
    if g == 2 then 7 else if g == 4 then 6 else if g == 8 then 5 else 4
  }

  lemma PowersOfTwo()
    ensures Pow2(3) == 8 && Pow2(4) == 16 && Pow2(5) == 32 && Pow2(6) == 64 && Pow2(7) == 128
    ensures Pow2(2) == 4 && Pow2(16) == 0x10000
  {
  }

  /** `get_bit_pos_3_9mg`: the search ends, at the bit worth 1/256 g. */
  method BitPosition(g: nat) returns (pos: nat)
    requires IsRange(g)
    ensures 0x100 * Pow2(pos) == LsbPerG(g) && 3 <= pos <= 6 && pos + 1 == Halvings(g)
  {
    PowersOfTwo();
    var divisor := 0x10000;
    var scaleFactor: int := -1;
    var temp := divisor / (g * 0x100);
    ghost var left := Halvings(g);
    while temp != 1
      invariant temp == Pow2(left) && scaleFactor + 1 + left == Halvings(g)
      decreases left
    {
      scaleFactor := scaleFactor + 1;
      temp := temp / 2;
      left := left - 1;
    }
    assert left == 0;
    pos := scaleFactor;
  }

  /** The quotient of `scale_accel_offset`: rounded by half a unit, then cut toward zero. */
  function Scaled(delta: int16, unit: nat): int
    requires unit > 0
  {
    Quotient(delta + unit / 2, unit)
  }

  /** The register byte: the quotient in eight bits, negated in eight bits. */
  function OffsetByte(delta: int16, unit: nat): byte
    requires unit > 0
  {
    (-(Scaled(delta, unit) % 0x100)) % 0x100
  }

  function Signed8(b: byte): int {
    if b < 0x80 then b else b - 0x100
  }

  /** What is left of the deviation once the device adds the offset, each step of it worth a unit. */
  function Left(delta: int16, unit: nat): int
    requires unit > 0
  {
    delta + Units(Signed8(OffsetByte(delta, unit)), unit)
  }

  /** The rounded deviation is not negative, so that the division cuts downward. */
  predicate CutsDown(delta: int16, unit: nat) {
    delta + unit / 2 >= 0
  }

  predicate Fits(delta: int16, unit: nat)
    requires unit > 0
  {
    -127 <= Scaled(delta, unit) <= 128
  }

  /** The byte is the negated quotient exactly when that fits in eight bits. */
  lemma OffsetIsInverseExactly(delta: int16, unit: nat)
    requires unit > 0
    ensures Signed8(OffsetByte(delta, unit)) == -Scaled(delta, unit) <==> Fits(delta, unit)
  {
  }

  predicate IsUnit(unit: nat) {
    unit == 8 || unit == 16 || unit == 32 || unit == 64
  }

  /** The offset brings the deviation within half a unit exactly when the rounded deviation is not negative
      or comes out even; for negative deviations cutting toward zero costs up to a unit more. */
  lemma WithinHalfAUnitExactly(delta: int16, unit: nat)
    requires IsUnit(unit) && Fits(delta, unit)
    ensures -(unit / 2) <= Left(delta, unit) <= unit / 2 <==> delta + unit / 2 >= 0 || (delta + unit / 2) % unit == 0
    ensures -3 * unit < 2 * Left(delta, unit) < 3 * unit
  {
    hide Units, Scaled, OffsetByte, Signed8;
    OffsetIsInverseExactly(delta, unit);
    ScaledLeaves(delta, unit);
    UnitsNegated(Scaled(delta, unit), unit);
  }

  lemma UnitsNegated(q: int, unit: nat)
    ensures Units(-q, unit) == -Units(q, unit)
  {
  }

  /** `q` units. */
  function Units(q: int, unit: nat): int {
    q * unit
  }

  lemma ScaledLeaves8(delta: int16)
    ensures var left := delta - 8 * Scaled(delta, 8);
            && (-4 <= left <= 4 <==> delta + 4 >= 0 || (delta + 4) % 8 == 0)
            && if delta + 4 >= 0 then -8 <= 2 * left < 8 else -24 < 2 * left <= -8
  {
  }

  lemma ScaledLeaves16(delta: int16)
    ensures var left := delta - 16 * Scaled(delta, 16);
            && (-8 <= left <= 8 <==> delta + 8 >= 0 || (delta + 8) % 16 == 0)
            && if delta + 8 >= 0 then -16 <= 2 * left < 16 else -48 < 2 * left <= -16
  {
  }

  lemma ScaledLeaves32(delta: int16)
    ensures var left := delta - 32 * Scaled(delta, 32);
            && (-16 <= left <= 16 <==> delta + 16 >= 0 || (delta + 16) % 32 == 0)
            && if delta + 16 >= 0 then -32 <= 2 * left < 32 else -96 < 2 * left <= -32
  {
  }

  lemma ScaledLeaves64(delta: int16)
    ensures var left := delta - 64 * Scaled(delta, 64);
            && (-32 <= left <= 32 <==> delta + 32 >= 0 || (delta + 32) % 64 == 0)
            && if delta + 32 >= 0 then -64 <= 2 * left < 64 else -192 < 2 * left <= -64
  {
  }

  lemma ScaledLeaves(delta: int16, unit: nat)
    requires IsUnit(unit)
    ensures var left := delta - Units(Scaled(delta, unit), unit);
            && (-(unit / 2) <= left <= unit / 2 <==> delta + unit / 2 >= 0 || (delta + unit / 2) % unit == 0)
            && if CutsDown(delta, unit) then -1 * unit <= 2 * left < unit else -3 * unit < 2 * left <= -1 * unit
  {
    hide Scaled;
    if unit == 8 {
      ScaledLeaves8(delta);
    } else if unit == 16 {
      ScaledLeaves16(delta);
    } else if unit == 32 {
      ScaledLeaves32(delta);
    } else {
      ScaledLeaves64(delta);
    }
  }

  // ---------- the whole calibration ----------

  /** Which axis points along gravity, 0 or 1 for each, and 1 for the sign if it points against it; the C code
      never looks at the sign. */
  datatype GValue = GValue(x: nat, y: nat, z: nat, sign: nat) {
    predicate Valid() {
      x + y + z == 1 && (sign == 0 || sign == 1)
    }

    function On(k: AxisIndex): nat {
      if k == 0 then x else if k == 1 then y else z
    }
  }

  /** What the axis reads at rest, posed as requested. */
  function Target(g: nat, v: GValue, k: AxisIndex): int
    requires IsRange(g)
  {
    if v.On(k) == 0 then 0 else if v.sign == 1 then 0 - LsbPerG(g) else LsbPerG(g)
  }

  /** What the code takes the deviation from: the same but for the sign. */
  function Assumed(g: nat, v: GValue, k: AxisIndex): int
    requires IsRange(g)
  {
    if v.On(k) == 1 then LsbPerG(g) else 0
  }

  /** The g-value in LSB. */
  function Gravity(lsbPerG: nat, on: nat): int16 {
    ToInt16(lsbPerG * on)
  }

  /** `comp_for_gravity`, in int16_t. */
  function Delta(g: nat, v: GValue, samples: seq<Axes>, k: AxisIndex): int16
    requires IsRange(g)
  {
    ToInt16(Mean(samples, k) - Gravity(LsbPerG(g), v.On(k)))
  }

  /** The deviation wraps exactly when it is below what sixteen bits hold, which takes a reading
      near full scale against gravity. */
  lemma DeltaExactly(g: nat, v: GValue, samples: seq<Axes>, k: AxisIndex)
    requires IsRange(g) && v.Valid() && |samples| == COUNT
    ensures var off := Mean(samples, k) - Assumed(g, v, k); Delta(g, v, samples, k) == off <==> off >= -0x8000
  {
    hide Mean, LsbPerG, Gravity;
    MeanIsInt16(samples, k);
    GravityIs(g, v.On(k));
  }

  lemma GravityIs(g: nat, on: nat)
    requires IsRange(g) && on <= 1
    ensures Gravity(LsbPerG(g), on) == (if on == 1 then LsbPerG(g) else 0) && 2048 <= LsbPerG(g) <= 16384
  {
  }

  lemma RangeIsRange(range: nat)
    ensures IsRange(RangeG(range))
  {
  }

  /** Half the sixteen bits hold 2 g at range code 0 and twice as much with every code after it; a code that is
      none is taken for that of 8 g. */
  lemma RangeDoubles(range: nat)
    ensures RangeG(range) * LsbPerG(RangeG(range)) == 0x8000
    ensures 2 * LsbPerG(RangeG(0)) == 0x8000
    ensures range < 3 ==> LsbPerG(RangeG(range)) == 2 * LsbPerG(RangeG(range + 1))
    ensures range < 4 ==> RangeG(range) == Pow2(range + 1)
    ensures range >= 4 ==> RangeG(range) == 8
  {
  }

  function Unit(g: nat): (u: nat)
    requires IsRange(g)
    ensures u > 0
  {
    LsbPerG(g) / 0x100
  }

  lemma UnitIs(g: nat)
    requires IsRange(g)
    ensures IsUnit(Unit(g))
  {
  }

  function AccelByte(g: nat, v: GValue, samples: seq<Axes>, k: AxisIndex): byte
    requires IsRange(g)
  {
    OffsetByte(Delta(g, v, samples, k), Unit(g))
  }

  /** `scale_accel_offset` and `invert_accel_offset`, for one axis. */
  method ScaleAndInvert(g: nat, delta: int16) returns (b: byte)
    requires IsRange(g)
    ensures b == OffsetByte(delta, Unit(g))
  {
    hide Pow2, LsbPerG, Unit, Quotient;
    var pos := BitPosition(g);
    var half := Power(pos - 1);
    var unit := Power(pos);
    HalfOfUnit(g, pos);
    var scaled := Quotient(delta + half % 0x100, unit) % 0x100;
    b := (-scaled) % 0x100;
  }

  lemma HalfOfUnit(g: nat, pos: nat)
    requires IsRange(g) && 0x100 * Pow2(pos) == LsbPerG(g) && 3 <= pos <= 6
    ensures Pow2(pos) == Unit(g) && Pow2(pos - 1) == Unit(g) / 2 && Pow2(pos - 1) < 0x100
  {
  }

  method OneG(g: nat) returns (lsbPerG: nat)
    requires IsRange(g)
    ensures lsbPerG == LsbPerG(g)
  {
    var two16 := Power(16);
    PowersOfTwo();
    LsbIs(g);
    lsbPerG := two16 / (2 * g);
  }

  /** The arithmetic of `perform_accel_foc`. */
  method OffsetBytes(samples: seq<Axes>, g: nat, v: GValue) returns (x: byte, y: byte, z: byte)
    requires |samples| == COUNT && IsRange(g)
    ensures x == AccelByte(g, v, samples, 0) && y == AccelByte(g, v, samples, 1) && z == AccelByte(g, v, samples, 2)
  {
    hide Mean, OffsetByte, LsbPerG, Unit, Gravity, ToInt16;
    var avg := Average(samples);
    var lsbPerG := OneG(g);
    x := ScaleAndInvert(g, ToInt16(avg.x - Gravity(lsbPerG, v.x)));
    y := ScaleAndInvert(g, ToInt16(avg.y - Gravity(lsbPerG, v.y)));
    z := ScaleAndInvert(g, ToInt16(avg.z - Gravity(lsbPerG, v.z)));
  }

  function AccelRegs(s: State): seq<bv8>
    requires s.Valid()
  {
    s.regs[ACC_OFF_COMP_0..ACC_OFF_COMP_0 + 3]
  }

  /** `write_accel_offset`. */
  method WriteAccelOffset(d: Dev, data: seq<bv8>) returns (rslt: Rslt)
    requires d.dev.Valid() && |data| == 3
    modifies d`dev, d`faults, d`apsStatus
    ensures d.dev.Valid() && d.apsStatus == old(d.apsStatus)
    ensures OnlyRegs(old(d.dev), d.dev, ACC_OFF_COMP_0, ACC_OFF_COMP_0 + 3)
    ensures rslt == OK ==> AccelRegs(d.dev) == data
    ensures old(d.faults) == [] ==> d.faults == [] && rslt == OK
  {
    OverlayReadsBack(d.dev.regs, ACC_OFF_COMP_0, data);
    rslt := d.SetRegs(ACC_OFF_COMP_0, data);
  }

  /** `set_accel_offset_comp`. */
  method SetAccelOffsetComp(d: Dev, enable: bool) returns (rslt: Rslt)
    requires d.dev.Valid()
    modifies d`dev, d`faults, d`apsStatus
    ensures d.dev.Valid() && d.apsStatus == old(d.apsStatus)
    ensures OnlyRegs(old(d.dev), d.dev, NV_CONF, NV_CONF + 1)
    ensures rslt == OK ==>
      d.dev.regs[NV_CONF] == SetByteBits(old(d.dev).regs[NV_CONF], 0x08, 3, if enable then 1 else 0)
    ensures old(d.faults) == [] ==> d.faults == [] && rslt == OK
  {
    hide SetByteBits;
    var nv;
    rslt, nv := d.GetRegs(NV_CONF, 1);
    if rslt == OK {
      var b := SetByteBits(nv[0], 0x08, 3, if enable then 1 else 0);
      OverlayOne(d.dev.regs, NV_CONF, b);
      rslt := d.SetRegs(NV_CONF, [b]);
    }
  }

  /** `perform_accel_foc`, from the samples to the registers. */
  method PerformAccelFoc(d: Dev, samples: seq<Axes>, range: nat, v: GValue) returns (rslt: Rslt)
    requires d.dev.Valid() && |samples| == COUNT && v.Valid()
    modifies d`dev, d`faults, d`apsStatus
    ensures d.dev.Valid() && d.apsStatus == old(d.apsStatus)
    ensures OnlyRegs(old(d.dev), d.dev, NV_CONF, ACC_OFF_COMP_0 + 3)
    ensures rslt == OK ==>
      var r := AccelRegs(d.dev);
      && r[0] as int == AccelByte(RangeG(range), v, samples, 0)
      && r[1] as int == AccelByte(RangeG(range), v, samples, 1)
      && r[2] as int == AccelByte(RangeG(range), v, samples, 2)
      && d.dev.regs[NV_CONF] == SetByteBits(old(d.dev).regs[NV_CONF], 0x08, 3, 1)
    ensures old(d.faults) == [] ==> d.faults == [] && rslt == OK
  {
    hide AccelByte, SetByteBits, RangeG;
    RangeIsRange(range);
    var x, y, z := OffsetBytes(samples, RangeG(range), v);
    ByteKept(x); ByteKept(y); ByteKept(z);
    rslt := WriteAccelOffset(d, [x as bv8, y as bv8, z as bv8]);
    if rslt == OK {
      ghost var mid := d.dev;
      rslt := SetAccelOffsetComp(d, true);
      assert AccelRegs(d.dev) == AccelRegs(mid);
    }
  }

  lemma LsbIs(g: nat)
    requires IsRange(g)
    ensures LsbPerG(g) == 0x10000 / (2 * g)
  {
  }

  lemma UnitTimes(g: nat)
    requires IsRange(g)
    ensures 0x100 * Unit(g) == LsbPerG(g)
  {
  }

  // ---------- what a calibrated axis reads ----------

  /** What the axis reads with the stored byte in force. */
  function Corrected(g: nat, v: GValue, samples: seq<Axes>, k: AxisIndex): int
    requires IsRange(g)
  {
    Mean(samples, k) + Units(Signed8(AccelByte(g, v, samples, k)), Unit(g))
  }

  /** What it is then off its target by. */
  function OffBy(g: nat, v: GValue, samples: seq<Axes>, k: AxisIndex): int
    requires IsRange(g)
  {
    Corrected(g, v, samples, k) - Target(g, v, k)
  }

  /** `d` is less than half a g, which is 128 units, or up to half a unit more or less on either side. */
  predicate InReach(d: int, unit: nat, down: bool) {
    if down then -255 * unit <= 2 * d < 257 * unit else -257 * unit < 2 * d <= 255 * unit
  }

  predicate Reached(off: int, unit: nat) {
    -3 * unit < 2 * off < 3 * unit
  }

  lemma ByteIs(delta: int16, unit: nat) returns (j: int)
    requires unit > 0
    ensures var b := Signed8(OffsetByte(delta, unit)); b == 0x100 * j - Scaled(delta, unit) && -0x80 <= b < 0x80
  {
    hide Scaled;
    j := (Signed8(OffsetByte(delta, unit)) + Scaled(delta, unit)) / 0x100;
  }

  /** What is in reach, for a rest `e` of the division, a byte `b` and `t` g too many. */
  lemma RestReaches(unit: nat, e: int, b: int, t: int, down: bool)
    requires unit > 0 && -0x80 <= b < 0x80
    requires if down then -1 * unit <= 2 * e < unit else -3 * unit < 2 * e <= -1 * unit
    ensures var off := e + Units(0x100 * t, unit);
            && (Reached(off, unit) <==> t == 0)
            && (t == 0 ==> off == e)
            && (Reached(off, unit) <==> InReach(off - Units(b, unit), unit, down))
  {
    hide Units;
    SomeUnits(unit);
    UnitsMonotone(-0x80, b, unit);
    UnitsMonotone(b, 0x7F, unit);
    if t > 0 {
      UnitsMonotone(0x100, 0x100 * t, unit);
    } else if t < 0 {
      UnitsMonotone(0x100 * t, -0x100, unit);
    }
  }

  lemma UnitsMonotone(p: int, q: int, unit: nat)
    requires p <= q
    ensures Units(p, unit) <= Units(q, unit)
  {
    assert Units(q, unit) - Units(p, unit) == (q - p) * unit;
  }

  lemma SomeUnits(unit: nat)
    ensures Units(0, unit) == 0 && Units(0x100, unit) == 0x100 * unit && Units(-0x100, unit) == -0x100 * unit
    ensures Units(-0x80, unit) == -0x80 * unit && Units(0x7F, unit) == 0x7F * unit
  {
  }

  lemma UnitsAdd(p: int, q: int, unit: nat)
    ensures Units(p + q, unit) == Units(p, unit) + Units(q, unit)
  {
  }

  /** `m` g in LSB. */
  function WholeG(g: nat, m: int): int
    requires IsRange(g)
  {
    Units(0x100 * m, Unit(g))
  }

  /** Whole multiples of one g, which is 256 units, vanish in the eight bits of the offset. */
  lemma DeviationReaches(d: int, delta: int16, n: int, unit: nat)
    requires IsUnit(unit) && d == delta + Units(0x100 * n, unit)
    ensures var off, down := d + Units(Signed8(OffsetByte(delta, unit)), unit), CutsDown(delta, unit);
            && (Reached(off, unit) <==> InReach(d, unit, down))
            && (Reached(off, unit) ==> (-(unit / 2) <= off <= unit / 2 <==> down || (delta + unit / 2) % unit == 0))
  {
    hide Units, Scaled, OffsetByte, Signed8, InReach, Reached;
    var q, b := Scaled(delta, unit), Signed8(OffsetByte(delta, unit));
    var j := ByteIs(delta, unit);
    ScaledLeaves(delta, unit);
    var e := delta - Units(q, unit);
    UnitsAdd(q, b, unit);
    UnitsAdd(0x100 * n, 0x100 * j, unit);
    assert 0x100 * n + 0x100 * j == 0x100 * (n + j);
    RestReaches(unit, e, b, n + j, CutsDown(delta, unit));
    SomeUnits(unit);
  }

  /** The same for any reading and any pose: `on` is 1 for the axis posed and 0 for the others. */
  lemma ReadingReaches(g: nat, mean: int, on: nat, m: int)
    requires IsRange(g) && on <= 1 && -0x8000 <= mean < 0x8000
    ensures var delta := ToInt16(mean - Gravity(LsbPerG(g), on));
            var d, u := mean - WholeG(g, m), Unit(g);
            var off, down := d + Units(Signed8(OffsetByte(delta, u)), u), CutsDown(delta, u);
            && (Reached(off, u) <==> InReach(d, u, down))
            && (Reached(off, u) ==> (-(u / 2) <= off <= u / 2 <==> down || (delta + u / 2) % u == 0))
  {
    hide OffsetByte, Signed8, Gravity, CutsDown, InReach, Reached, IsUnit;
    UnitIs(g);
    var n := WholeDeviation(g, mean, on, m);
    DeviationReaches(mean - WholeG(g, m), ToInt16(mean - Gravity(LsbPerG(g), on)), n, Unit(g));
  }

  /** The deviation in sixteen bits is off by a whole multiple of one g. */
  lemma WholeDeviation(g: nat, mean: int, on: nat, m: int) returns (n: int)
    requires IsRange(g) && on <= 1 && -0x8000 <= mean < 0x8000
    ensures mean - WholeG(g, m) == ToInt16(mean - Gravity(LsbPerG(g), on)) + Units(0x100 * n, Unit(g))
  {
    hide Gravity;
    GravityIs(g, on);
    var gravity := if on == 1 then LsbPerG(g) else 0;
    var wraps := if mean - gravity < -0x8000 then 1 else 0;
    assert ToInt16(mean - gravity) == mean - gravity + 0x10000 * wraps;
    n := on - m - 2 * g * wraps;
  }

  /** The same for a calibration: whatever pose is asked for, the axis ends within three halves of a unit of
      exactly those whole multiples of one g that its reading is in reach of. */
  lemma WholeGReachedExactly(g: nat, v: GValue, samples: seq<Axes>, k: AxisIndex, m: int)
    requires IsRange(g) && v.Valid() && |samples| == COUNT
    ensures var d, u := Mean(samples, k) - WholeG(g, m), Unit(g);
            var off, delta := Corrected(g, v, samples, k) - WholeG(g, m), Delta(g, v, samples, k);
            && (Reached(off, u) <==> InReach(d, u, CutsDown(delta, u)))
            && (Reached(off, u) ==>
                  (-(u / 2) <= off <= u / 2 <==> CutsDown(delta, u) || (delta + u / 2) % u == 0))
  {
    hide Mean, OffsetByte, Signed8, Gravity, CutsDown, InReach, Reached, LsbPerG, Unit, ToInt16, WholeG, Units;
    MeanIsInt16(samples, k);
    ReadingReaches(g, Mean(samples, k), v.On(k), m);
  }

  lemma TargetIsWhole(g: nat, v: GValue, k: AxisIndex) returns (m: int)
    requires IsRange(g) && v.Valid()
    ensures Target(g, v, k) == WholeG(g, m) && -1 <= m <= 1
  {
    UnitTimes(g);
    m := if v.On(k) == 0 then 0 else if v.sign == 1 then -1 else 1;
  }

  lemma NearIsInReach(d: int, unit: nat, down: bool)
    requires unit > 0 && -127 * unit <= d <= 127 * unit
    ensures InReach(d, unit, down)
  {
  }

  /** A calibration brings an axis within three halves of a unit of its target, a unit being 1/256 g, exactly
      if it read less than half a g away, sign or no sign.  Half a unit is enough exactly if the deviation
      the code rounds is not negative, or comes out even. */
  lemma CalibrationReachesExactly(g: nat, v: GValue, samples: seq<Axes>, k: AxisIndex)
    requires IsRange(g) && v.Valid() && |samples| == COUNT
    ensures var d, u, off := Mean(samples, k) - Target(g, v, k), Unit(g), OffBy(g, v, samples, k);
            var delta := Delta(g, v, samples, k);
            && (Reached(off, u) <==> InReach(d, u, CutsDown(delta, u)))
            && (-127 * u <= d <= 127 * u ==> Reached(off, u))
            && (Reached(off, u) ==>
                  (-(u / 2) <= off <= u / 2 <==> CutsDown(delta, u) || (delta + u / 2) % u == 0))
            && 0x100 * u == LsbPerG(g)
  {
    hide Mean, Corrected, CutsDown, InReach, Reached, LsbPerG, Delta, Target, Unit, WholeG;
    var m := TargetIsWhole(g, v, k);
    WholeGReachedExactly(g, v, samples, k, m);
    UnitTimes(g);
    var d, u := Mean(samples, k) - Target(g, v, k), Unit(g);
    if -127 * u <= d <= 127 * u {
      NearIsInReach(d, u, CutsDown(Delta(g, v, samples, k), u));
    }
  }

  /** So a wrong pose is not noticed: an axis that reads what pose `v` makes it read is calibrated to that,
      though pose `w` was asked for. */
  lemma WrongPoseUnnoticed(g: nat, v: GValue, w: GValue, samples: seq<Axes>, k: AxisIndex)
    requires IsRange(g) && v.Valid() && w.Valid() && |samples| == COUNT
    requires -127 * Unit(g) <= Mean(samples, k) - Target(g, v, k) <= 127 * Unit(g)
    ensures Reached(Corrected(g, w, samples, k) - Target(g, v, k), Unit(g))
  {
    hide Mean, Corrected, CutsDown, InReach, Reached, Delta, Target, Unit, WholeG;
    var m := TargetIsWhole(g, v, k);
    WholeGReachedExactly(g, w, samples, k, m);
    NearIsInReach(Mean(samples, k) - Target(g, v, k), Unit(g), CutsDown(Delta(g, w, samples, k), Unit(g)));
  }

  /** And every axis ends at some whole multiple of one g, the one nearest its reading give or take half a
      unit. */
  lemma EndsAtNearestG(g: nat, v: GValue, samples: seq<Axes>, k: AxisIndex) returns (m: int)
    requires IsRange(g) && v.Valid() && |samples| == COUNT
    ensures -257 * Unit(g) <= 2 * (Mean(samples, k) - WholeG(g, m)) <= 257 * Unit(g)
    ensures Reached(Corrected(g, v, samples, k) - WholeG(g, m), Unit(g))
  {
    hide Mean, Corrected, CutsDown, Reached, Delta, Unit;
    var down := CutsDown(Delta(g, v, samples, k), Unit(g));
    m := SomeInReach(Mean(samples, k), Unit(g), down);
    WholeGReachedExactly(g, v, samples, k, m);
  }

  lemma SomeInReach(mean: int, unit: nat, down: bool) returns (m: int)
    requires unit > 0
    ensures InReach(mean - Units(0x100 * m, unit), unit, down)
  {
    var span := 512 * unit;
    if down {
      m := (2 * mean + 255 * unit) / span;
      DividedBy(2 * mean + 255 * unit, span);
    } else {
      m := -((255 * unit - 2 * mean) / span);
      DividedBy(255 * unit - 2 * mean, span);
    }
    assert span * m == 2 * Units(0x100 * m, unit);
  }

  lemma DividedBy(n: int, d: nat)
    requires d > 0
    ensures d * (n / d) <= n < d * (n / d) + d
  {
  }

  function Steady(v: Axes): (s: seq<Axes>)
    ensures |s| == COUNT
  {
    seq(COUNT, _ => v)
  }

  lemma SteadyReading(v: Axes, k: AxisIndex)
    ensures Mean(Steady(v), k) == Component(v, k)
  {
    hide Sum;
    SumOfSame(v, COUNT, k);
  }

  lemma AtTwoG(v: GValue, samples: seq<Axes>, k: AxisIndex, delta: int16, target: int)
    requires v.On(k) <= 1 && Mean(samples, k) - 16384 * v.On(k) == delta
    requires target == if v.On(k) == 0 then 0 else if v.sign == 1 then -16384 else 16384
    ensures AccelByte(2, v, samples, k) == OffsetByte(delta, 64)
    ensures OffBy(2, v, samples, k) == Mean(samples, k) - target + 64 * Signed8(OffsetByte(delta, 64))
  {
    hide Mean, OffsetByte, Signed8;
    assert Gravity(LsbPerG(2), v.On(k)) == 16384 * v.On(k);
  }

  lemma SomeBytes()
    ensures OffsetByte(-0x8000, 64) == 255 && Signed8(255) == -1
    ensures Signed8(OffsetByte(8223, 64)) == -128 && Signed8(OffsetByte(8224, 64)) == 127
  {
  }

  /** For instance, at 2 g an axis posed against gravity that reads minus one g ends 64 off, one unit: its
      deviation of -32768 comes to the byte 255. */
  lemma AgainstGravityReached()
    ensures var v, samples := GValue(0, 0, 1, 1), Steady(Axes(0, 0, -16384));
            AccelByte(2, v, samples, 2) == 255 && OffBy(2, v, samples, 2) == -64
  {
    hide Mean, AccelByte, OffBy, OffsetByte, Signed8, Steady;
    SteadyReading(Axes(0, 0, -16384), 2);
    SomeBytes();
    AtTwoG(GValue(0, 0, 1, 1), Steady(Axes(0, 0, -16384)), 2, -0x8000, -16384);
  }

  /** And half a unit over half a g is too much: a level axis that reads 8223 ends 31 off, at 8224 it ends
      near one g. */
  lemma JustOutOfReach()
    ensures var v := GValue(0, 0, 1, 0);
            && OffBy(2, v, Steady(Axes(8223, 0, 16384)), 0) == 31
            && OffBy(2, v, Steady(Axes(8224, 0, 16384)), 0) == 16352
  {
    hide Mean, AccelByte, OffBy, OffsetByte, Signed8, Steady;
    SteadyReading(Axes(8223, 0, 16384), 0);
    SteadyReading(Axes(8224, 0, 16384), 0);
    SomeBytes();
    AtTwoG(GValue(0, 0, 1, 0), Steady(Axes(8223, 0, 16384)), 0, 8223, 0);
    AtTwoG(GValue(0, 0, 1, 0), Steady(Axes(8224, 0, 16384)), 0, 8224, 0);
  }
}
