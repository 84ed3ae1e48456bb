/** What happens to a raw triple before it is handed out: cross-axis compensation of the gyroscope
    and axis re-mapping. */
module Samples {
  import opened Basics
  import opened FifoFormat

  type AxisIndex = k: int | 0 <= k < 3

  datatype Source = Source(axis: AxisIndex, negative: bool)

  /** `struct bmi2_axes_remap`: where each output axis comes from. */
  datatype AxesRemap = AxesRemap(x: Source, y: Source, z: Source)

  const IDENTITY := AxesRemap(Source(0, false), Source(1, false), Source(2, false))

  function Component(a: Axes, k: AxisIndex): int16 {
    if k == 0 then a.x else if k == 1 then a.y else a.z
  }

  /** Multiplication by -1 in int16_t: the most negative value wraps to itself. */
  function Negated(v: int16): int16 {
    ToInt16(-(v as int))
  }

  function Pick(s: Source, a: Axes): int16 {
    var v := Component(a, s.axis);
    if s.negative then Negated(v) else v
  }

  /** `get_remapped_data`. */
  function Remapped(m: AxesRemap, a: Axes): Axes {
    Axes(Pick(m.x, a), Pick(m.y, a), Pick(m.z, a))
  }

  predicate IsPermutation(m: AxesRemap) {
    m.x.axis != m.y.axis && m.x.axis != m.z.axis && m.y.axis != m.z.axis
  }

  lemma ComponentsAre(a: Axes)
    ensures Component(a, 0) == a.x && Component(a, 1) == a.y && Component(a, 2) == a.z
  {
  }

  /** Where axis `k` went. */
  function Origin(m: AxesRemap, k: AxisIndex): Source {
    if m.x.axis == k then Source(0, m.x.negative)
    else if m.y.axis == k then Source(1, m.y.negative)
    else Source(2, m.z.negative)
  }

  function Inverse(m: AxesRemap): AxesRemap {
    AxesRemap(Origin(m, 0), Origin(m, 1), Origin(m, 2))
  }

  /** Without a re-map, which is the driver's default, a triple is handed out as it is. */
  lemma IdentityKeeps(a: Axes)
    ensures Remapped(IDENTITY, a) == a
  {
  }

  /** A reading of `v` along axis `k` alone comes out along each output that names that axis, turned round
      exactly where the output is marked negative. */
  lemma RemapOfOneAxis(m: AxesRemap, k: AxisIndex, v: int16)
    requires v != -0x8000
    ensures var r := Remapped(m, Axes(if k == 0 then v else 0, if k == 1 then v else 0, if k == 2 then v else 0));
            && r.x == (if m.x.axis != k then 0 else if m.x.negative then -v else v)
            && r.y == (if m.y.axis != k then 0 else if m.y.negative then -v else v)
            && r.z == (if m.z.axis != k then 0 else if m.z.negative then -v else v)
  {
    hide Pick;
    var a := Axes(if k == 0 then v else 0, if k == 1 then v else 0, if k == 2 then v else 0);
    PickOfOneAxis(m.x, a, k, v);
    PickOfOneAxis(m.y, a, k, v);
    PickOfOneAxis(m.z, a, k, v);
  }

  lemma PickOfOneAxis(s: Source, a: Axes, k: AxisIndex, v: int16)
    requires v != -0x8000
    requires a == Axes(if k == 0 then v else 0, if k == 1 then v else 0, if k == 2 then v else 0)
    ensures Pick(s, a) == if s.axis != k then 0 else if s.negative then -v else v
  {
  }

  /** The source of an output of `m` after `n`: where m's source came from, turned round if one of the two
      turns it but not both. */
  function Through(s: Source, n: AxesRemap): Source {
    var t := if s.axis == 0 then n.x else if s.axis == 1 then n.y else n.z;
    Source(t.axis, s.negative != t.negative)
  }

  function Composite(m: AxesRemap, n: AxesRemap): AxesRemap {
    AxesRemap(Through(m.x, n), Through(m.y, n), Through(m.z, n))
  }

  /** Re-mapping twice is re-mapping by the signed composite, on every int16 triple. */
  lemma RemapComposes(m: AxesRemap, n: AxesRemap, a: Axes)
    ensures Remapped(m, Remapped(n, a)) == Remapped(Composite(m, n), a)
  {
    NegatedTwice(a.x); NegatedTwice(a.y); NegatedTwice(a.z);
  }

  lemma NegatedTwice(v: int16)
    ensures Negated(Negated(v)) == v
  {
  }

  /** A signed permutation of the axes is undone by its inverse, on every int16 triple, -32768 included. */
  lemma RemapUndone(m: AxesRemap, a: Axes)
    requires IsPermutation(m)
    ensures IsPermutation(Inverse(m))
    ensures Remapped(Inverse(m), Remapped(m, a)) == a
    ensures Remapped(m, Remapped(Inverse(m), a)) == a
  {
    NegatedTwice(a.x); NegatedTwice(a.y); NegatedTwice(a.z);
  }

  function Unit(k: AxisIndex): Axes {
    Axes(if k == 0 then 1 else 0, if k == 1 then 1 else 0, if k == 2 then 1 else 0)
  }

  /** An axis no output looks at can change without being noticed. */
  lemma UnusedAxisUnseen(m: AxesRemap, k: AxisIndex)
    requires m.x.axis != k && m.y.axis != k && m.z.axis != k
    ensures Remapped(m, Unit(k)) == Remapped(m, Axes(0, 0, 0))
  {
  }

  /** Two different triples with the same image, if the map is no permutation. */
  lemma RemapCollides(m: AxesRemap) returns (a: Axes, b: Axes)
    requires !IsPermutation(m)
    ensures a != b && Remapped(m, a) == Remapped(m, b)
  {
    hide Remapped;
    b := Axes(0, 0, 0);
    if m.x.axis != 0 && m.y.axis != 0 && m.z.axis != 0 {
      UnusedAxisUnseen(m, 0);
      a := Unit(0);
    } else if m.x.axis != 1 && m.y.axis != 1 && m.z.axis != 1 {
      UnusedAxisUnseen(m, 1);
      a := Unit(1);
    } else {
      UnusedAxisUnseen(m, 2);
      a := Unit(2);
    }
  }

  /** Re-mapping loses nothing exactly when the map is a permutation. */
  lemma RemapInjectiveExactly(m: AxesRemap)
    ensures (forall a: Axes, b: Axes :: Remapped(m, a) == Remapped(m, b) ==> a == b) <==> IsPermutation(m)
  {
    hide Remapped;
    if IsPermutation(m) {
      forall a: Axes, b: Axes | Remapped(m, a) == Remapped(m, b) ensures a == b {
        RemapUndone(m, a);
        RemapUndone(m, b);
      }
    } else {
      var a, b := RemapCollides(m);
    }
  }

  /** `saturate`. */
  function Saturated(value: int, limit: int16): int16
    requires limit >= 0
  {
    if value > limit then limit
    else if value < -limit - 1 then -limit - 1
    else ToInt16(value)
  }

  /** `comp_gyro_cross_axis_sensitivity`. */
  function Compensated(zx: int16, a: Axes): Axes {
    Axes(Saturated(a.x - ToInt16(Quotient(zx * a.z, 512)), 0x7FFF), a.y, a.z)
  }

  lemma Monotone(k: int, x: int, y: int)
    requires k >= 0 && x <= y
    ensures k * x <= k * y
  {
  }

  lemma ProductWithin(zx: int, z: int)
    requires -511 <= zx <= 511 && -0x8000 <= z <= 0x8000
    ensures -511 * 0x8000 <= zx * z <= 511 * 0x8000
  {
    if zx >= 0 {
      Monotone(zx, z, 0x8000);
      Monotone(zx, -0x8000, z);
    } else {
      Monotone(-zx, z, 0x8000);
      Monotone(-zx, -0x8000, z);
      assert (-zx) * z == -(zx * z);
    }
  }

  /** For every coefficient below 512 in size (the device's is seven bits wide) the inner conversion
      does not wrap, and the result is x minus the rounded correction, clipped to sixteen bits. */
  lemma CompensatedIsClipped(zx: int16, a: Axes)
    requires -511 <= zx <= 511
    ensures var exact := a.x as int - Quotient(zx * a.z, 512);
            Compensated(zx, a).x == (if exact > 0x7FFF then 0x7FFF else if exact < -0x8000 then -0x8000 else exact)
  {
    ProductWithin(zx, a.z);
    Clipping(a.x, zx * a.z);
  }

  /** Only x is compensated, and nothing at coefficient 0, whatever the triple. */
  lemma CompensationSparesYZ(zx: int16, a: Axes)
    ensures Compensated(zx, a).y == a.y && Compensated(zx, a).z == a.z
    ensures Compensated(0, a) == a
  {
    hide Saturated, Quotient, ToInt16;
    NothingToCorrect(a.x, a.z);
  }

  lemma NothingToCorrect(x: int16, z: int16)
    ensures 0 * z == 0 && Saturated(x - ToInt16(Quotient(0, 512)), 0x7FFF) == x
  {
  }

  lemma Clipping(x: int16, p: int)
    requires -511 * 0x8000 <= p <= 511 * 0x8000
    ensures var q := Quotient(p, 512);
            && ToInt16(q) == q
            && Saturated(x - ToInt16(q), 0x7FFF)
               == (if x - q > 0x7FFF then 0x7FFF else if x - q < -0x8000 then -0x8000 else x - q)
  {
  }

  /** What an accelerometer or gyroscope extraction writes into one caller slot. */
  datatype Sample = Sample(axes: Axes, time: nat)

  datatype AuxSample = AuxSample(data: seq<byte>, time: nat)

  /** The fields of `struct bmi2_dev` that extraction reads. */
  datatype Settings = Settings(remap: AxesRemap, crossSense: int16, s4s: bool, dummyByte: nat)

  function AccAxes(dev: Settings, raw: Axes): Axes {
    Remapped(dev.remap, raw)
  }

  function GyrAxes(dev: Settings, raw: Axes): Axes {
    Remapped(dev.remap, Compensated(dev.crossSense, raw))
  }

  /** Undoing the re-map gives the compensated triple: x corrected and clipped, y and z as they were read. */
  lemma GyroIsCompensatedFirst(dev: Settings, raw: Axes)
    requires IsPermutation(dev.remap) && -511 <= dev.crossSense <= 511
    ensures var exact := raw.x as int - Quotient(dev.crossSense * raw.z, 512);
            var x := if exact > 0x7FFF then 0x7FFF else if exact < -0x8000 then -0x8000 else exact;
            Remapped(Inverse(dev.remap), GyrAxes(dev, raw)) == Axes(x, raw.y, raw.z)
  {
    hide Remapped, Inverse;
    CompensatedIsClipped(dev.crossSense, raw);
    CompensationSparesYZ(dev.crossSense, raw);
    RemapUndone(dev.remap, Compensated(dev.crossSense, raw));
  }

  /** With the default re-map, and for the gyroscope no cross-axis coefficient, samples are the triples read. */
  lemma PlainSettingsKeep(dev: Settings, raw: Axes)
    requires dev.remap == IDENTITY
    ensures AccAxes(dev, raw) == raw && (dev.crossSense == 0 ==> GyrAxes(dev, raw) == raw)
  {
    hide Remapped;
    IdentityKeeps(raw);
    IdentityKeeps(Compensated(dev.crossSense, raw));
    CompensationSparesYZ(dev.crossSense, raw);
  }
}
