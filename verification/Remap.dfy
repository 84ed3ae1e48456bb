/** Setting and reading back the axis re-mapping: a byte per axis from the user, nine bits in page 1, and
    the driver's own copy. */
module Remap {
  import opened Basics
  import opened FifoFormat
  import opened Device
  import opened Driver
  import opened Pages
  import opened Samples

  /** `struct bmi2_remap`: for each output axis one of BMI2_X = 1, BMI2_Y = 2, BMI2_Z = 4, and
      BMI2_AXIS_SIGN = 8 if it is to be negated. */
  datatype User = User(x: bv8, y: bv8, z: bv8)

  /** The local `struct bmi2_axes_remap`. */
  datatype Local = Local(x: bv8, xSign: bv8, y: bv8, ySign: bv8, z: bv8, zSign: bv8)

  // ---------- from the user's byte to an axis, and back ----------

  predicate OneAxis(b: bv8) {
    b & 7 == 1 || b & 7 == 2 || b & 7 == 4
  }

  function AxisIndexOf(b: bv8): AxisIndex
    requires OneAxis(b)
  {
    if b & 7 == 1 then 0 else if b & 7 == 2 then 1 else 2
  }

  /** What the `switch` on the user's byte leaves in the driver's copy: a byte that names no single axis
      leaves the old one. */
  function SourceAfter(was: Source, b: bv8): Source {
    Source(if OneAxis(b) then AxisIndexOf(b) else was.axis, b & 8 != 0)
  }

  function RemapAfter(was: AxesRemap, u: User): AxesRemap {
    AxesRemap(SourceAfter(was.x, u.x), SourceAfter(was.y, u.y), SourceAfter(was.z, u.z))
  }

  /** And what it leaves in the local structure, which started as zero. */
  function LocalAxis(b: bv8): bv8 {
    if b & 7 == 2 then 1 else if b & 7 == 4 then 2 else 0
  }

  function LocalSign(b: bv8): bv8 {
    if b & 8 != 0 then 1 else 0
  }

  function LocalOf(u: User): Local {
    Local(LocalAxis(u.x), LocalSign(u.x), LocalAxis(u.y), LocalSign(u.y), LocalAxis(u.z), LocalSign(u.z))
  }

  predicate OneAxisEach(u: User) {
    OneAxis(u.x) && OneAxis(u.y) && OneAxis(u.z)
  }

  /** What the caller asked an output for: the component its byte names, turned round if bit 3 is set. */
  predicate IsAsked(b: bv8, a: Axes, out: int16) {
    out == (if b & 8 != 0 then -1 else 1) * (if b & 7 == 1 then a.x else if b & 7 == 2 then a.y else a.z)
  }

  /** After an accepted re-map that names one axis for each output the samples are what was asked for: 1 stands
      for x, 2 for y, 4 for z, and 8 more for the opposite direction. */
  lemma SamplesAsAsked(was: AxesRemap, u: User, a: Axes)
    requires OneAxisEach(u) && a.x != -0x8000 && a.y != -0x8000 && a.z != -0x8000
    ensures var out := Remapped(RemapAfter(was, u), a);
            IsAsked(u.x, a, out.x) && IsAsked(u.y, a, out.y) && IsAsked(u.z, a, out.z)
  {
    SampleAsAsked(was.x, u.x, a);
    SampleAsAsked(was.y, u.y, a);
    SampleAsAsked(was.z, u.z, a);
  }

  lemma SampleAsAsked(was: Source, b: bv8, a: Axes)
    requires OneAxis(b) && a.x != -0x8000 && a.y != -0x8000 && a.z != -0x8000
    ensures IsAsked(b, a, Pick(SourceAfter(was, b), a))
  {
  }

  // ---------- the two bytes in page 1 ----------

  const AXIS_PAGE: bv8 := 1
  const AXIS_BYTE: nat := 4

  function FirstByte(l: Local): bv8 {
    (l.x & 0x03) | ((l.xSign << 2) & 0x04) | ((l.y << 3) & 0x18) | ((l.ySign << 5) & 0x20) | ((l.z << 6) & 0xC0)
  }

  function SecondByte(b: bv8, l: Local): bv8 {
    (b & !0x01) | (l.zSign & 0x01)
  }

  /** The axis of x in bits 0 and 1 with its sign in bit 2, of y in bits 3 and 4 with its sign in bit 5, of z in
      bits 6 and 7 with its sign in the next byte; no re-map at all is 0x88. */
  lemma BytesAre(l: Local, b: bv8)
    requires l.x < 4 && l.y < 4 && l.z < 4 && l.xSign < 2 && l.ySign < 2 && l.zSign < 2
    ensures FirstByte(l) == l.x + 4 * l.xSign + 8 * l.y + 32 * l.ySign + 64 * l.z
    ensures SecondByte(b, l) == (b / 2) * 2 + l.zSign
  {
  }

  /** The code of an axis is the number of the bit the caller named it by. */
  lemma AxisCodes(b: bv8)
    requires OneAxis(b)
    ensures LocalAxis(b) < 3 && 1 << LocalAxis(b) == b & 7
    ensures FirstByte(LocalOf(User(1, 2, 4))) == 0x88 && SecondByte(0, LocalOf(User(1, 2, 4))) == 0
  {
  }

  function LocalIn(first: bv8, second: bv8): Local {
    Local(first & 0x03, (first & 0x04) >> 2, (first & 0x18) >> 3, (first & 0x20) >> 5,
          (first & 0xC0) >> 6, second & 0x01)
  }

  function AxesPage(page: Page, u: User): Page {
    page[AXIS_BYTE := FirstByte(LocalOf(u))][AXIS_BYTE + 1 := SecondByte(page[AXIS_BYTE + 1], LocalOf(u))]
  }

  function WithAxes(m: seq<Page>, u: User): (r: seq<Page>)
    requires Memory(m)
    ensures Memory(r)
  {
    m[1 := AxesPage(m[1], u)]
  }

  /** So bytes 4 and 5 of page 1 name, for each output, the bit the caller named, and its sign. */
  lemma AxesAreInPage(m: seq<Page>, u: User)
    requires Memory(m) && OneAxisEach(u)
    ensures var p := WithAxes(m, u)[1];
            && 1 << (p[4] & 3) == u.x & 7 && (p[4] & 4 != 0 <==> u.x & 8 != 0)
            && 1 << ((p[4] / 8) & 3) == u.y & 7 && (p[4] & 32 != 0 <==> u.y & 8 != 0)
            && 1 << (p[4] / 64) == u.z & 7 && (p[5] & 1 != 0 <==> u.z & 8 != 0)
  {
    hide OneAxis, LocalAxis, FirstByte, SecondByte;
    AxisCodes(u.x); AxisCodes(u.y); AxisCodes(u.z);
    var l := LocalOf(u);
    FirstByteParts(l);
    SecondBytePart(m[1][5], l);
  }

  lemma FirstByteParts(l: Local)
    requires l.x < 3 && l.y < 3 && l.z < 3 && l.xSign < 2 && l.ySign < 2
    ensures var b := FirstByte(l);
            && b & 3 == l.x && (b & 4 != 0 <==> l.xSign == 1) && (b / 8) & 3 == l.y && (b & 32 != 0 <==> l.ySign == 1)
            && b / 64 == l.z
  {
  }

  lemma SecondBytePart(b: bv8, l: Local)
    requires l.zSign < 2
    ensures SecondByte(b, l) & 1 != 0 <==> l.zSign == 1
  {
  }

  /** Setting the axes touches their nine bits only; the gyroscope's self-offset bit shares a byte with one. */
  lemma AxesAreLocal(m: seq<Page>, u: User)
    requires Memory(m)
    ensures OnlyIn(OfAxes, m, WithAxes(m, u))
  {
  }

  // ---------- reading back ----------

  /** What one `switch` and sign test of `bmi2_get_remap_axes` make of the caller's byte and of the driver's
      copy; the value 3 names no axis. */
  function ByteRead(b: bv8, axis: bv8, sign: bv8): bv8 {
    (if axis == 0 then 1 else if axis == 1 then 2 else if axis == 2 then 4 else b) | (if sign != 0 then 8 else 0)
  }

  function SourceRead(was: Source, axis: bv8, sign: bv8): Source {
    Source(if axis == 0 then 0 else if axis == 1 then 1 else if axis == 2 then 2 else was.axis, sign != 0)
  }

  function UserRead(u: User, l: Local): User {
    User(ByteRead(u.x, l.x, l.xSign), ByteRead(u.y, l.y, l.ySign), ByteRead(u.z, l.z, l.zSign))
  }

  function RemapRead(was: AxesRemap, l: Local): AxesRemap {
    AxesRemap(SourceRead(was.x, l.x, l.xSign), SourceRead(was.y, l.y, l.ySign), SourceRead(was.z, l.z, l.zSign))
  }

  function LocalAt(m: seq<Page>): Local
    requires Memory(m)
  {
    LocalIn(m[1][AXIS_BYTE], m[1][AXIS_BYTE + 1])
  }

  // ---------- what set and get are for ----------

  predicate Accepted(u: User) {
    (u.x | u.y | u.z) & 7 == 7
  }

  /** With one axis named for each output, the check accepts exactly the permutations. */
  lemma AcceptsPermutationsExactly(was: AxesRemap, u: User)
    requires OneAxisEach(u)
    ensures Accepted(u) <==> IsPermutation(RemapAfter(was, u))
  {
  }

  function Nibble(b: bv8): bv8 {
    b & 0x0F
  }

  lemma ByteReadsBack(b: bv8, out: bv8)
    requires OneAxis(b)
    ensures ByteRead(out, LocalAxis(b), LocalSign(b)) == Nibble(b)
  {
  }

  lemma SourceReadsBack(was: Source, b: bv8)
    ensures OneAxis(b) ==> SourceRead(was, LocalAxis(b), LocalSign(b)) == SourceAfter(was, b)
  {
  }

  lemma WrittenLocal(m: seq<Page>, u: User)
    requires Memory(m)
    ensures LocalAt(WithAxes(m, u)) == LocalOf(u)
  {
  }

  /** Set then get returns the user's input, and the driver's copy is what a get would make of the page. */
  lemma AxesReadBack(m: seq<Page>, u: User, out: User, was: AxesRemap, other: AxesRemap)
    requires Memory(m) && OneAxisEach(u)
    ensures UserRead(out, LocalAt(WithAxes(m, u))) == User(Nibble(u.x), Nibble(u.y), Nibble(u.z))
    ensures RemapRead(other, LocalAt(WithAxes(m, u))) == RemapAfter(was, u)
  {
    hide OneAxis, ByteRead, SourceRead, SourceAfter, LocalAxis, LocalSign, Nibble, WithAxes;
    WrittenLocal(m, u);
    ByteReadsBack(u.x, out.x); ByteReadsBack(u.y, out.y); ByteReadsBack(u.z, out.z);
    SourceReadsBack(other.x, u.x); SourceReadsBack(other.y, u.y); SourceReadsBack(other.z, u.z);
    SourceForgets(was.x, other.x, u.x); SourceForgets(was.y, other.y, u.y); SourceForgets(was.z, other.z, u.z);
  }

  lemma SourceForgets(a: Source, b: Source, u: bv8)
    requires OneAxis(u)
    ensures SourceAfter(a, u) == SourceAfter(b, u)
  {
  }

  /** An accepted input that does not name one axis each: the driver then re-maps by something else than
      the device holds. */
  lemma AcceptedYetConfused(m: seq<Page>)
    requires Memory(m)
    ensures var u, was := User(7, 0, 0), AxesRemap(Source(2, false), Source(1, false), Source(0, false));
            Accepted(u) && RemapRead(was, LocalAt(WithAxes(m, u))) != RemapAfter(was, u)
  {
  }

  predicate Settled(was: Source, b: bv8) {
    OneAxis(b) || was.axis == 0
  }

  /** The driver's copy is what the device holds exactly when each byte names one axis or the copy
      happened to name the first, which is what the device is given then. */
  lemma CopyAgreesExactly(m: seq<Page>, u: User, was: AxesRemap)
    requires Memory(m)
    ensures RemapRead(RemapAfter(was, u), LocalAt(WithAxes(m, u))) == RemapAfter(was, u)
            <==> Settled(was.x, u.x) && Settled(was.y, u.y) && Settled(was.z, u.z)
  {
  }

  // ---------- the C functions ----------

  /** The state after `set_remap_axes` on a bus that never fails, and after `get_remap_axes`. */
  function AxesWritten(s: State, u: User): (r: State)
    requires s.Valid()
    ensures r.Valid() && r.Asleep() == s.Asleep() && r.touchedAsleep == s.touchedAsleep
  {
    if s.Asleep() then WithAps(Paged(WithAps(s, false), AXIS_PAGE, WithAxes(s.pages, u)), true)
    else Paged(s, AXIS_PAGE, WithAxes(s.pages, u))
  }

  function AxesVisited(s: State): (r: State)
    requires s.Valid()
    ensures r.Valid() && r.Asleep() == s.Asleep() && r.touchedAsleep == s.touchedAsleep && r.pages == s.pages
  {
    if s.Asleep() then WithAps(Paged(WithAps(s, false), AXIS_PAGE, s.pages), true)
    else Paged(s, AXIS_PAGE, s.pages)
  }

  lemma AxesBytesWritten(s: State, u: User)
    requires s.Valid()
    ensures var feat := AxesPage(s.pages[1], u);
            Write(WithPage(s, AXIS_PAGE), FEATURES + AXIS_BYTE, feat[AXIS_BYTE..AXIS_BYTE + 2])
            == Paged(s, AXIS_PAGE, WithAxes(s.pages, u))
  {
    hide FirstByte, SecondByte, LocalOf;
    var feat := AxesPage(s.pages[1], u);
    assert Overlay(s.pages[1], AXIS_BYTE, feat[AXIS_BYTE..AXIS_BYTE + 2]) == feat;
  }

  /** The middle of `set_remap_axes`. */
  method WriteAxes(d: Dev, u: User) returns (rslt: Rslt)
    requires d.dev.Valid() && d.readWriteLen >= 2
    modifies d`dev, d`faults, d`readWriteLen, d`apsStatus
    ensures d.dev.Valid() && d.apsStatus == old(d.apsStatus) && d.readWriteLen >= 2
    ensures rslt == OK ==> d.dev == Paged(old(d.dev), AXIS_PAGE, WithAxes(old(d.dev).pages, u))
    ensures rslt != OK ==> d.dev.pages == old(d.dev).pages
    ensures old(d.faults) == [] ==> d.faults == [] && rslt == OK
  {
    hide WithPage, Write, AxesPage;
    var featConfig;
    rslt, featConfig := d.GetFeatConfig(AXIS_PAGE);
    if rslt == OK {
      AxesBytesWritten(old(d.dev), u);
      featConfig := AxesPage(featConfig, u);
      rslt := d.SetRegs(FEATURES + AXIS_BYTE, featConfig[AXIS_BYTE..AXIS_BYTE + 2]);
    }
  }

  /** `bmi2_set_remap_axes`. */
  method SetRemapAxes(d: Dev, u: User) returns (rslt: Rslt)
    requires d.dev.Valid() && d.readWriteLen >= 2
    modifies d`dev, d`faults, d`readWriteLen, d`apsStatus, d`remap
    ensures d.dev.Valid() && d.readWriteLen >= 2
    ensures d.remap == if Accepted(u) then RemapAfter(old(d.remap), u) else old(d.remap)
    ensures OnlyIn(OfAxes, old(d.dev).pages, d.dev.pages)
    ensures old(d.faults) == [] && old(d.ApsAgrees()) ==>
      && d.faults == [] && d.ApsAgrees() && rslt == (if Accepted(u) then OK else RemapError)
      && d.dev == if Accepted(u) then AxesWritten(old(d.dev), u) else old(d.dev)
  {
    hide OnlyIn, WithAps, WithAxes, Accepted, RemapAfter;
    OnlyInSelf(OfAxes, d.dev.pages);
    if !Accepted(u) {
      return RemapError;
    }
    d.remap := RemapAfter(d.remap, u);
    rslt := OK;
    var apsStat := d.apsStatus;
    if apsStat {
      rslt := d.SetAdvPowerSave(false);
    }
    if rslt == OK {
      AxesAreLocal(d.dev.pages, u);
      rslt := WriteAxes(d, u);
      if apsStat && rslt == OK {
        rslt := d.SetAdvPowerSave(true);
      }
    }
  }

  /** `bmi2_get_remap_axes`, into the caller's structure. */
  method GetRemapAxes(d: Dev, out: User) returns (rslt: Rslt, u: User)
    requires d.dev.Valid() && d.readWriteLen >= 2
    modifies d`dev, d`faults, d`readWriteLen, d`apsStatus, d`remap
    ensures d.dev.Valid() && d.readWriteLen >= 2 && d.dev.pages == old(d.dev).pages
    ensures var l := LocalAt(d.dev.pages);
            if rslt == OK then d.remap == RemapRead(old(d.remap), l) && u == UserRead(out, l)
            else d.remap == old(d.remap) && u == out
    ensures old(d.faults) == [] && old(d.ApsAgrees()) ==>
      d.faults == [] && d.ApsAgrees() && rslt == OK && d.dev == AxesVisited(old(d.dev))
  {
    hide WithAps, UserRead, RemapRead, LocalIn;
    rslt, u := OK, out;
    var apsStat := d.apsStatus;
    if apsStat {
      rslt := d.SetAdvPowerSave(false);
    }
    if rslt == OK {
      var featConfig;
      ghost var awake := d.dev;
      rslt, featConfig := d.GetFeatConfig(AXIS_PAGE);
      if rslt == OK {
        PageVisited(awake, AXIS_PAGE);
      }
      if apsStat && rslt == OK {
        rslt := d.SetAdvPowerSave(true);
      }
      if rslt == OK {
        var local := LocalIn(featConfig[AXIS_BYTE], featConfig[AXIS_BYTE + 1]);
        d.remap := RemapRead(d.remap, local);
        u := UserRead(out, local);
      }
    }
  }
}
