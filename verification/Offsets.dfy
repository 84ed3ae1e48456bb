/** Offset calibration: averaging, scaling and packing into the offset registers. */
module Offsets {
  import opened Basics
  import opened Bits
  import opened Device
  import opened Driver
  import opened FifoFormat
  import opened Samples

  const COUNT: nat := 128

  // ---------- the mean of 128 samples ----------

  function Sum(s: seq<Axes>, k: AxisIndex): int {
    if s == [] then 0 else Sum(s[..|s| - 1], k) + Component(s[|s| - 1], k)
  }

  lemma {:induction false} SumWithin(s: seq<Axes>, k: AxisIndex)
    ensures -0x8000 * |s| <= Sum(s, k) <= 0x7FFF * |s|
  {
    if s != [] {
      SumWithin(s[..|s| - 1], k);
    }
  }

  /** Nothing is left out and nothing is counted twice: sums add up, and that of one sample is its component. */
  lemma {:induction false} SumAdds(s: seq<Axes>, t: seq<Axes>, k: AxisIndex)
    ensures Sum(s + t, k) == Sum(s, k) + Sum(t, k)
    ensures |t| == 1 ==> Sum(t, k) == if k == 0 then t[0].x else if k == 1 then t[0].y else t[0].z
  {
    if t == [] {
      assert s + t == s;
    } else {
      var n := |t| - 1;
      assert (s + t)[..|s + t| - 1] == s + t[..n];
      SumAdds(s, t[..n], k);
    }
  }

  /** The C division of the sum: toward zero. */
  function Mean(s: seq<Axes>, k: AxisIndex): int {
    Quotient(Sum(s, k), COUNT)
  }

  lemma MeanIsInt16(s: seq<Axes>, k: AxisIndex)
    requires |s| == COUNT
    ensures -0x8000 <= Mean(s, k) <= 0x7FFF
  {
    SumWithin(s, k);
  }

  /** The accumulation loop of both calibrations; no partial sum leaves an int32_t. */
  method Average(samples: seq<Axes>) returns (avg: Axes)
    requires |samples| == COUNT
    ensures avg.x == Mean(samples, 0) && avg.y == Mean(samples, 1) && avg.z == Mean(samples, 2)
  {
    var x, y, z := 0, 0, 0;
    for loop := 0 to COUNT
      invariant x == Sum(samples[..loop], 0) && y == Sum(samples[..loop], 1) && z == Sum(samples[..loop], 2)
    {
      assert samples[..loop + 1][..loop] == samples[..loop];
      x, y, z := x + samples[loop].x, y + samples[loop].y, z + samples[loop].z;
      SumWithin(samples[..loop + 1], 0); SumWithin(samples[..loop + 1], 1); SumWithin(samples[..loop + 1], 2);
      assert -0x8000_0000 <= x < 0x8000_0000 && -0x8000_0000 <= y < 0x8000_0000 && -0x8000_0000 <= z < 0x8000_0000;
    }
    assert samples[..COUNT] == samples;
    MeanIsInt16(samples, 0); MeanIsInt16(samples, 1); MeanIsInt16(samples, 2);
    avg := Axes(ToInt16(Quotient(x, COUNT)), ToInt16(Quotient(y, COUNT)), ToInt16(Quotient(z, COUNT)));
  }

  // ---------- the gyroscope's ten-bit offsets ----------

  /** `saturate_gyro_data`. */
  function Clamped(v: int): (r: int)
    ensures -512 <= r <= 511
  {
    if v > 511 then 511 else if v < -512 then -512 else v
  }

  function LowByte(v: int16): bv8 {
    (Pattern16(v) % 0x100) as bv8
  }

  /** Bits 8 and 9. */
  function HighBits(v: int16): bv8 {
    (Pattern16(v) / 0x100 % 4) as bv8
  }

  function PackedHigh(b: bv8, x: bv8, y: bv8, z: bv8): bv8 {
    SetByteBits(SetByteBits(SetByteBits(b, 0x03, 0, x), 0x0C, 2, y), 0x30, 4, z)
  }

  /** The four offset registers after a write. */
  function GyroBytes(was: seq<bv8>, off: Axes): (r: seq<bv8>)
    requires |was| == 4
    ensures |r| == 4
  {
    [LowByte(off.x), LowByte(off.y), LowByte(off.z),
     PackedHigh(was[3], HighBits(off.x), HighBits(off.y), HighBits(off.z))]
  }

  /** And what a read makes of them, axis by axis. */
  function GyroWord(r: seq<bv8>, k: AxisIndex): bv16
    requires |r| == 4
  {
    if k == 0 then WordX(r[3], r[0]) else if k == 1 then WordY(r[3], r[1]) else WordZ(r[3], r[2])
  }

  function WordX(high: bv8, lo: bv8): bv16 {
    (((high & 0x03) as bv16) << 8) | (lo as bv16)
  }

  function WordY(high: bv8, lo: bv8): bv16 {
    (((high & 0x0C) as bv16) << 6) | (lo as bv16)
  }

  function WordZ(high: bv8, lo: bv8): bv16 {
    (((high & 0x30) as bv16) << 4) | (lo as bv16)
  }

  function TopBits(b: bv8): bv8 {
    b & 0xC0
  }

  /** The low bytes of x, y and z, then their bits 8 and 9 from the bottom up, below two bits that stay. */
  lemma GyroBytesAre(was: seq<bv8>, off: Axes)
    requires |was| == 4
    ensures var r := GyroBytes(was, off);
            && (r[0] as int - off.x) % 256 == 0 && (r[1] as int - off.y) % 256 == 0 && (r[2] as int - off.z) % 256 == 0
            && r[3] == HighBits(off.x) + 4 * HighBits(off.y) + 16 * HighBits(off.z) + (was[3] & 0xC0)
  {
    hide LowByte, HighBits, PackedHigh;
    LowByteCongruent(off.x); LowByteCongruent(off.y); LowByteCongruent(off.z);
    HighBitsIs(off.x); HighBitsIs(off.y); HighBitsIs(off.z);
    PackedHighIs(was[3], HighBits(off.x), HighBits(off.y), HighBits(off.z));
  }

  lemma LowByteCongruent(v: int16)
    ensures (LowByte(v) as int - v) % 256 == 0
  {
    hide LowByte;
    LowByteIs(v);
  }

  lemma PackedHighIs(b: bv8, x: bv8, y: bv8, z: bv8)
    requires x < 4 && y < 4 && z < 4
    ensures PackedHigh(b, x, y, z) == x + 4 * y + 16 * z + (b & 0xC0)
  {
  }

  lemma PackedHighReadsBack(b: bv8, x: bv8, y: bv8, z: bv8, lo: bv8)
    requires x < 4 && y < 4 && z < 4
    ensures var p := PackedHigh(b, x, y, z);
            && WordX(p, lo) == Word(lo, x) && WordY(p, lo) == Word(lo, y) && WordZ(p, lo) == Word(lo, z)
            && TopBits(p) == TopBits(b)
  {
  }

  lemma WordValue(lo: bv8, hi: bv8)
    requires hi < 4
    ensures Word(lo, hi) as nat == 0x100 * hi as nat + lo as nat
  {
  }

  lemma LowByteIs(v: int16)
    ensures LowByte(v) as nat == Pattern16(v) % 0x100
  {
    ByteKept(Pattern16(v) % 0x100);
  }

  lemma HighBitsIs(v: int16)
    ensures HighBits(v) as nat == Pattern16(v) / 0x100 % 4 && HighBits(v) < 4
  {
  }

  lemma GyroWordIs(was: seq<bv8>, off: Axes, k: AxisIndex)
    requires |was| == 4
    ensures var v := Component(off, k); GyroWord(GyroBytes(was, off), k) == Word(LowByte(v), HighBits(v))
    ensures TopBits(GyroBytes(was, off)[3]) == TopBits(was[3])
  {
    hide LowByte, HighBits, PackedHigh, WordX, WordY, WordZ, TopBits, Word;
    HighBitsIs(off.x); HighBitsIs(off.y); HighBitsIs(off.z);
    PackedHighReadsBack(was[3], HighBits(off.x), HighBits(off.y), HighBits(off.z), LowByte(Component(off, k)));
  }

  /** Ten bits of two's complement. */
  function SignExtended(r: int): int {
    if r < 512 then r else r - 1024
  }

  /** A written offset reads back congruent modulo 1024; the two enable bits beside it survive. */
  lemma GyroReadsBack(was: seq<bv8>, off: Axes, k: AxisIndex)
    requires |was| == 4
    ensures var r := GyroWord(GyroBytes(was, off), k) as int;
            0 <= r < 1024 && (r - Component(off, k)) % 1024 == 0
    ensures TopBits(GyroBytes(was, off)[3]) == TopBits(was[3])
  {
    hide LowByte, HighBits, GyroWord, GyroBytes, Word;
    var v := Component(off, k);
    GyroWordIs(was, off, k);
    LowByteIs(v);
    HighBitsIs(v);
    WordValue(LowByte(v), HighBits(v));
    TenBits(Pattern16(v));
  }

  lemma TenBits(p: nat)
    ensures 0x100 * (p / 0x100 % 4) + p % 0x100 == p % 1024
  {
  }

  /** Within the range calibration produces, a ten-bit value is its own sign extension except at the top. */
  lemma SignExtendedExactly(r: int, v: int)
    requires 0 <= r < 1024 && (r - v) % 1024 == 0 && -511 <= v <= 512
    ensures SignExtended(r) == v <==> v != 512
    ensures v == 512 ==> SignExtended(r) == -512
  {
  }

  function GyroOffset(s: seq<Axes>, k: AxisIndex): (v: int)
    ensures -511 <= v <= 512
  {
    -Clamped(Mean(s, k))
  }

  function GyroRegs(s: State): seq<bv8>
    requires s.Valid()
  {
    s.regs[GYR_OFF_COMP_3..GYR_OFF_COMP_3 + 4]
  }

  /** From `a` to `b` only registers `from` to `to - 1` have changed. */
  ghost predicate OnlyRegs(a: State, b: State, from: nat, to: nat) {
    a.Valid() && b == a.(regs := b.regs) && |b.regs| == 128
    && forall i :: 0 <= i < 128 && !(from <= i < to) ==> b.regs[i] == a.regs[i]
  }

  lemma OverlayReadsBack<T>(s: seq<T>, at: nat, data: seq<T>)
    requires at + |data| <= |s|
    ensures Overlay(s, at, data)[at..at + |data|] == data
  {
  }

  /** `bmi2_write_gyro_offset_comp_axes`. */
  method WriteGyroOffset(d: Dev, off: Axes) returns (rslt: Rslt)
    requires d.dev.Valid()
    modifies d`dev, d`faults, d`apsStatus
    ensures d.dev.Valid() && d.apsStatus == old(d.apsStatus)
    ensures OnlyRegs(old(d.dev), d.dev, GYR_OFF_COMP_3, GYR_OFF_COMP_6 + 1)
    ensures rslt == OK ==> GyroRegs(d.dev) == GyroBytes(GyroRegs(old(d.dev)), off)
    ensures old(d.faults) == [] ==> d.faults == [] && rslt == OK
  {
    hide LowByte, HighBits, SetByteBits;
    var regData;
    rslt, regData := d.GetRegs(GYR_OFF_COMP_3, 4);
    if rslt == OK {
      var last := regData[3];
      last := SetByteBits(last, 0x03, 0, HighBits(off.x));
      last := SetByteBits(last, 0x0C, 2, HighBits(off.y));
      last := SetByteBits(last, 0x30, 4, HighBits(off.z));
      var data := [LowByte(off.x), LowByte(off.y), LowByte(off.z), last];
      OverlayReadsBack(d.dev.regs, GYR_OFF_COMP_3, data);
      rslt := d.SetRegs(GYR_OFF_COMP_3, data);
    }
  }

  /** `bmi2_read_gyro_offset_comp_axes`. */
  method ReadGyroOffset(d: Dev) returns (rslt: Rslt, x: bv16, y: bv16, z: bv16)
    requires d.dev.Valid()
    modifies d`dev, d`faults
    ensures d.dev == old(d.dev)
    ensures var r := GyroRegs(d.dev);
            rslt == OK ==> x == GyroWord(r, 0) && y == GyroWord(r, 1) && z == GyroWord(r, 2)
    ensures old(d.faults) == [] ==> d.faults == [] && rslt == OK
  {
    var regData;
    rslt, regData := d.GetRegs(GYR_OFF_COMP_3, 4);
    x, y, z := 0, 0, 0;
    if rslt == OK {
      x, y, z := GyroWord(regData, 0), GyroWord(regData, 1), GyroWord(regData, 2);
    }
  }

  /** What a caller stores it reads back, modulo 1024. */
  method StoreAndReadBack(d: Dev, off: Axes) returns (rslt: Rslt, x: bv16, y: bv16, z: bv16)
    requires d.dev.Valid()
    modifies d`dev, d`faults, d`apsStatus
    ensures d.dev.Valid() && OnlyRegs(old(d.dev), d.dev, GYR_OFF_COMP_3, GYR_OFF_COMP_6 + 1)
    ensures rslt == OK ==>
      (x as int - off.x) % 1024 == 0 && (y as int - off.y) % 1024 == 0 && (z as int - off.z) % 1024 == 0
    ensures old(d.faults) == [] ==> d.faults == [] && rslt == OK
  {
    hide GyroBytes, GyroWord;
    GyroReadsBack(GyroRegs(d.dev), off, 0);
    GyroReadsBack(GyroRegs(d.dev), off, 1);
    GyroReadsBack(GyroRegs(d.dev), off, 2);
    x, y, z := 0, 0, 0;
    rslt := WriteGyroOffset(d, off);
    if rslt == OK {
      rslt, x, y, z := ReadGyroOffset(d);
    }
  }

  /** `bmi2_set_gyro_offset_comp`: bit 6 of the last of the four registers. */
  method SetGyroOffsetComp(d: Dev, enable: bool) returns (rslt: Rslt)
    requires d.dev.Valid()
    modifies d`dev, d`faults, d`apsStatus
    ensures d.dev.Valid() && d.apsStatus == old(d.apsStatus)
    ensures OnlyRegs(old(d.dev), d.dev, GYR_OFF_COMP_6, GYR_OFF_COMP_6 + 1)
    ensures rslt == OK ==>
      var was := GyroRegs(old(d.dev));
      GyroRegs(d.dev) == was[3 := SetByteBits(was[3], 0x40, 6, if enable then 1 else 0)]
    ensures old(d.faults) == [] ==> d.faults == [] && rslt == OK
  {
    hide SetByteBits;
    var regData;
    rslt, regData := d.GetRegs(GYR_OFF_COMP_6, 1);
    if rslt == OK {
      var b := SetByteBits(regData[0], 0x40, 6, if enable then 1 else 0);
      OverlayOne(d.dev.regs, GYR_OFF_COMP_6, b);
      rslt := d.SetRegs(GYR_OFF_COMP_6, [b]);
    }
  }

  lemma EnablingKeepsOffsets(r: seq<bv8>, k: AxisIndex)
    requires |r| == 4
    ensures var e := SetByteBits(r[3], 0x40, 6, 1);
            GyroWord(r[3 := e], k) == GyroWord(r, k) && e & 0x80 == r[3] & 0x80 && e & 0x40 == 0x40
  {
  }

  /** The offset stored for an axis is minus the clamped mean, modulo 1024. */
  ghost predicate GyroCalibrated(r: seq<bv8>, samples: seq<Axes>, k: AxisIndex)
    requires |r| == 4
  {
    var stored := GyroWord(r, k) as int;
    && 0 <= stored < 1024 && (stored - GyroOffset(samples, k)) % 1024 == 0
  }

  /** So the offset in force is minus the clamped mean, except that a mean of -512 or below gets the
      opposite sign. */
  lemma GyroCalibratedExactly(r: seq<bv8>, samples: seq<Axes>, k: AxisIndex)
    requires |r| == 4 && GyroCalibrated(r, samples, k)
    ensures SignExtended(GyroWord(r, k) as int) == GyroOffset(samples, k) <==> Mean(samples, k) > -512
  {
    hide GyroWord, Mean;
    SignExtendedExactly(GyroWord(r, k) as int, GyroOffset(samples, k));
  }

  /** With the stored offset in force the axis reads zero exactly if its mean was one of the values that ten bits
      can cancel. */
  lemma GyroZeroedExactly(r: seq<bv8>, samples: seq<Axes>, k: AxisIndex)
    requires |r| == 4 && GyroCalibrated(r, samples, k)
    ensures Mean(samples, k) + SignExtended(GyroWord(r, k) as int) == 0 <==> -512 < Mean(samples, k) <= 511
  {
    hide GyroWord, Mean, SignExtended;
    if Mean(samples, k) > -512 {
      GyroCalibratedExactly(r, samples, k);
    } else {
      OppositeOffset(r, samples, k);
    }
  }

  lemma {:induction false} SumOfSame(v: Axes, n: nat, k: AxisIndex)
    ensures Sum(seq(n, _ => v), k) == n * Component(v, k)
  {
    if n > 0 {
      assert seq(n, _ => v)[..n - 1] == seq(n - 1, _ => v);
      SumOfSame(v, n - 1, k);
    }
  }

  /** Then the offset in force is -512 instead of 512. */
  lemma OppositeOffset(r: seq<bv8>, samples: seq<Axes>, k: AxisIndex)
    requires |r| == 4 && GyroCalibrated(r, samples, k) && Mean(samples, k) <= -512
    ensures GyroOffset(samples, k) == 512 && SignExtended(GyroWord(r, k) as int) == -512
  {
    hide GyroWord, Mean, SignExtended;
    Folded(GyroWord(r, k) as int);
  }

  lemma Folded(stored: int)
    requires 0 <= stored < 1024 && (stored - 512) % 1024 == 0
    ensures SignExtended(stored) == -512
  {
  }

  /** A steady reading of -512 is an input of that kind. */
  lemma SteadyMean(k: AxisIndex)
    ensures Mean(seq(COUNT, _ => Axes(-512, -512, -512)), k) == -512
  {
    hide Sum;
    SumOfSame(Axes(-512, -512, -512), COUNT, k);
  }

  lemma GyroFocStores(was: seq<bv8>, samples: seq<Axes>, off: Axes, k: AxisIndex)
    requires |was| == 4 && Component(off, k) == GyroOffset(samples, k)
    ensures var r := GyroBytes(was, off); GyroCalibrated(r[3 := SetByteBits(r[3], 0x40, 6, 1)], samples, k)
    ensures var r := GyroBytes(was, off); SetByteBits(r[3], 0x40, 6, 1) & 0x80 == was[3] & 0x80
  {
    hide GyroBytes, GyroWord, SetByteBits, GyroOffset;
    GyroReadsBack(was, off, k);
    EnablingKeepsOffsets(GyroBytes(was, off), k);
    TopBit(GyroBytes(was, off)[3], was[3]);
  }

  lemma TopBit(a: bv8, b: bv8)
    requires TopBits(a) == TopBits(b)
    ensures a & 0x80 == b & 0x80
  {
  }

  /** The middle of `bmi2_perform_gyro_foc`: the samples averaged, clamped to ten bits, inverted and stored,
      and the compensation switched on. */
  method PerformGyroFoc(d: Dev, samples: seq<Axes>) returns (rslt: Rslt)
    requires d.dev.Valid() && |samples| == COUNT
    modifies d`dev, d`faults, d`apsStatus
    ensures d.dev.Valid() && d.apsStatus == old(d.apsStatus)
    ensures OnlyRegs(old(d.dev), d.dev, GYR_OFF_COMP_3, GYR_OFF_COMP_6 + 1)
    ensures rslt == OK ==>
      && (forall k: AxisIndex :: GyroCalibrated(GyroRegs(d.dev), samples, k))
      && d.dev.regs[GYR_OFF_COMP_6] & 0x80 == old(d.dev).regs[GYR_OFF_COMP_6] & 0x80
    ensures old(d.faults) == [] ==> d.faults == [] && rslt == OK
  {
    hide GyroBytes, SetByteBits, GyroCalibrated, Mean;
    var gyroOffset := Average(samples);
    gyroOffset := Axes(Clamped(gyroOffset.x), Clamped(gyroOffset.y), Clamped(gyroOffset.z));
    gyroOffset := Axes(Negated(gyroOffset.x), Negated(gyroOffset.y), Negated(gyroOffset.z));
    ghost var was := GyroRegs(d.dev);
    GyroFocStores(was, samples, gyroOffset, 0);
    GyroFocStores(was, samples, gyroOffset, 1);
    GyroFocStores(was, samples, gyroOffset, 2);
    rslt := WriteGyroOffset(d, gyroOffset);
    if rslt == OK {
      rslt := SetGyroOffsetComp(d, true);
      assert rslt == OK ==> d.dev.regs[GYR_OFF_COMP_6] == GyroRegs(d.dev)[3];
    }
  }
}
