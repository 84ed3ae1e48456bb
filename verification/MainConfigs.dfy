/** The accelerometer's, the gyroscope's and the auxiliary interface's configurations, which live in
    plain registers: corrected, packed, written, and possibly refused by the device. */
module MainConfigs {
  import opened Bits
  import opened Device
  import opened Driver

  // ---------- what a caller asks for ----------

  datatype AccelConfig = AccelConfig(odr: bv8, bwp: bv8, filterPerf: bv8, range: bv8)

  datatype GyroConfig =
    GyroConfig(odr: bv8, bwp: bv8, filterPerf: bv8, noisePerf: bv8, oisRange: bv8, range: bv8)

  datatype AuxConfig =
    AuxConfig(auxEn: bv8, manualEn: bv8, fcuWriteEn: bv8, manRdBurst: bv8, auxRdBurst: bv8,
              odr: bv8, offset: bv8, i2cAddr: bv8, readAddr: bv8)

  /** `check_boundary_val`. */
  function Bounded(v: bv8, min: bv8, max: bv8): bv8 {
    if v < min then min else if v > max then max else v
  }

  /** The allowed value nearest to what was asked for: no other one, `x`, is on the way to it. */
  lemma BoundedIsNearest(v: bv8, min: bv8, max: bv8, x: bv8)
    requires min <= x <= max
    ensures var b := Bounded(v, min, max);
            min <= b <= max && (v <= x ==> b <= x) && (x <= v ==> x <= b)
  {
    BoundedIs(v, min, max);
    hide Bounded;
    if v < min {
      assert !(x <= v);
    } else if v > max {
      assert !(v <= x);
    }
  }

  lemma BoundedIs(v: bv8, min: bv8, max: bv8)
    requires min <= max
    ensures var b := Bounded(v, min, max);
            && min <= b <= max && (v < min ==> b == min) && (v > max ==> b == max)
            && (min <= v <= max ==> b == v)
  {
  }

  /** The values after `validate_bw_perf_mode` and `validate_odr_range`. */
  function CorrectedAccel(c: AccelConfig): AccelConfig {
    var perf := Bounded(c.filterPerf, 0, 1);
    AccelConfig(Bounded(c.odr, 1, 12), Bounded(c.bwp, 0, if perf == 1 then 3 else 7), perf, Bounded(c.range, 0, 3))
  }

  /** The values after `validate_gyro_config`. */
  function CorrectedGyro(c: GyroConfig): GyroConfig {
    GyroConfig(Bounded(c.odr, 6, 13), Bounded(c.bwp, 0, 3), Bounded(c.filterPerf, 0, 1), Bounded(c.noisePerf, 0, 1),
               Bounded(c.oisRange, 0, 1), Bounded(c.range, 0, 4))
  }

  /** The output data rate after `validate_aux_config`; every other field is cut to its width. */
  function CutAux(c: AuxConfig): AuxConfig {
    AuxConfig(c.auxEn & 1, c.manualEn & 1, c.fcuWriteEn & 1, c.manRdBurst & 3, c.auxRdBurst & 3,
              Bounded(c.odr, 1, 11), c.offset & 0x0F, c.i2cAddr & 0x7F, c.readAddr)
  }

  /** The accelerometer's rates go from 1, which is 0.78 Hz, to 12, 1600 Hz; in high-performance mode it has four
      filters, otherwise eight; its ranges go from 2 g to 16 g. */
  lemma AccelLimits(c: AccelConfig)
    ensures var a := CorrectedAccel(c);
            && 1 <= a.odr <= 12 && a.bwp <= (if a.filterPerf == 1 then 3 else 7) && a.filterPerf <= 1 && a.range <= 3
    ensures CorrectedAccel(c) == c
       <==> 1 <= c.odr <= 12 && c.bwp <= (if c.filterPerf == 1 then 3 else 7) && c.filterPerf <= 1 && c.range <= 3
  {
  }

  /** The gyroscope's rates go from 6, which is 25 Hz, to 13, 3200 Hz; it has four filters and five
      ranges. */
  lemma GyroLimits(c: GyroConfig)
    ensures var g := CorrectedGyro(c);
            && 6 <= g.odr <= 13 && g.bwp <= 3 && g.filterPerf <= 1 && g.noisePerf <= 1 && g.oisRange <= 1
            && g.range <= 4
    ensures CorrectedGyro(c) == c
       <==> && 6 <= c.odr <= 13 && c.bwp <= 3 && c.filterPerf <= 1 && c.noisePerf <= 1 && c.oisRange <= 1
            && c.range <= 4
  {
  }

  /** What `check_boundary_val` adds to `dev->info`. */
  function Clip(v: bv8, min: bv8, max: bv8): Info {
    Info(v < min, v > max)
  }

  function Both(a: Info, b: Info): Info {
    Info(a.raised || b.raised, a.cut || b.cut)
  }

  function AccelClips(c: AccelConfig): Info {
    var perf := Bounded(c.filterPerf, 0, 1);
    var first := Both(Clip(c.filterPerf, 0, 1), Clip(c.bwp, 0, if perf == 1 then 3 else 7));
    Both(Both(first, Clip(c.odr, 1, 12)), Clip(c.range, 0, 3))
  }

  function GyroClips(c: GyroConfig): Info {
    var first := Both(Both(Clip(c.filterPerf, 0, 1), Clip(c.bwp, 0, 3)), Clip(c.noisePerf, 0, 1));
    Both(Both(Both(first, Clip(c.odr, 6, 13)), Clip(c.oisRange, 0, 1)), Clip(c.range, 0, 4))
  }

  function Informed(notes: Notes, clips: Info): Notes {
    notes.(info := Both(notes.info, clips))
  }

  lemma InformedTwice(notes: Notes, a: Info, b: Info)
    ensures Informed(Informed(notes, a), b) == Informed(notes, Both(a, b))
  {
  }

  /** The caller can tell from it exactly whether its values were taken as they were. */
  lemma InfoTellsExactly(a: AccelConfig, g: GyroConfig)
    ensures AccelClips(a) == Info(false, false) <==> CorrectedAccel(a) == a
    ensures GyroClips(g) == Info(false, false) <==> CorrectedGyro(g) == g
  {
  }

  // ---------- the registers ----------

  function AccelBytes(c: AccelConfig): (r: seq<bv8>)
    ensures |r| == 2
  {
    [SetByteBits(SetByteBits(SetByteBits(0, 0x80, 7, c.filterPerf), 0x70, 4, c.bwp), 0x0F, 0, c.odr),
     SetByteBits(0, 0x03, 0, c.range)]
  }

  function AccelFrom(r: seq<bv8>): AccelConfig
    requires |r| == 2
  {
    AccelConfig(GetByteBits(r[0], 0x0F, 0), GetByteBits(r[0], 0x70, 4), GetByteBits(r[0], 0x80, 7),
                GetByteBits(r[1], 0x03, 0))
  }

  function GyroBytes(c: GyroConfig): (r: seq<bv8>)
    ensures |r| == 2
  {
    [SetByteBits(SetByteBits(SetByteBits(SetByteBits(0, 0x80, 7, c.filterPerf), 0x40, 6, c.noisePerf), 0x30, 4, c.bwp),
                 0x0F, 0, c.odr),
     SetByteBits(SetByteBits(0, 0x08, 3, c.oisRange), 0x07, 0, c.range)]
  }

  function GyroFrom(r: seq<bv8>): GyroConfig
    requires |r| == 2
  {
    GyroConfig(GetByteBits(r[0], 0x0F, 0), GetByteBits(r[0], 0x30, 4), GetByteBits(r[0], 0x80, 7),
               GetByteBits(r[0], 0x40, 6), GetByteBits(r[1], 0x08, 3), GetByteBits(r[1], 0x07, 0))
  }

  /** The registers in numbers: rate, then filter, then filter performance; range. */
  lemma AccelBytesAre(c: AccelConfig)
    ensures var r, a := AccelBytes(CorrectedAccel(c)), CorrectedAccel(c);
            r[0] == a.odr + 16 * a.bwp + 128 * a.filterPerf && r[1] == a.range
  {
  }

  /** Rate, filter, noise performance and filter performance; range and the range for image stabilisation. */
  lemma GyroBytesAre(c: GyroConfig)
    ensures var r, g := GyroBytes(CorrectedGyro(c)), CorrectedGyro(c);
            && r[0] == g.odr + 16 * g.bwp + 64 * g.noisePerf + 128 * g.filterPerf
            && r[1] == g.range + 8 * g.oisRange
  {
  }

  /** For instance, what the firmware sets up its sensor with: 200 Hz, four samples averaged, 2 g; and 200 Hz,
      normal mode, 1000 degrees a second, for performance throughout. */
  lemma FirmwareBytes(ois: bv8)
    requires ois <= 1
    ensures AccelBytes(CorrectedAccel(AccelConfig(9, 2, 1, 0))) == [0xA9, 0x00]
    ensures GyroBytes(CorrectedGyro(GyroConfig(9, 2, 1, 1, ois, 1))) == [0xE9, 0x01 + 8 * ois]
  {
  }

  /** A corrected configuration fits its fields, so the registers give it back. */
  lemma AccelReadsBack(c: AccelConfig)
    ensures AccelFrom(AccelBytes(CorrectedAccel(c))) == CorrectedAccel(c)
    ensures CorrectedAccel(CorrectedAccel(c)) == CorrectedAccel(c)
  {
  }

  lemma GyroReadsBack(c: GyroConfig)
    ensures GyroFrom(GyroBytes(CorrectedGyro(c))) == CorrectedGyro(c)
    ensures CorrectedGyro(CorrectedGyro(c)) == CorrectedGyro(c)
  {
  }

  /** Address byte and mode byte of the auxiliary interface. */
  function AuxBytes(was: seq<bv8>, c: AuxConfig): (r: seq<bv8>)
    requires |was| == 2
    ensures |r| == 2
  {
    [SetByteBits(was[0], 0xFE, 1, c.i2cAddr),
     SetByteBits(SetByteBits(SetByteBits(SetByteBits(was[1], 0x80, 7, c.manualEn), 0x40, 6, c.fcuWriteEn),
                             0x0C, 2, c.manRdBurst), 0x03, 0, c.auxRdBurst)]
  }

  function AuxInterfaceByte(was: bv8, c: AuxConfig): bv8 {
    SetByteBits(was, 0x20, 5, c.auxEn)
  }

  function AuxRateByte(was: bv8, c: AuxConfig): bv8 {
    SetByteBits(SetByteBits(was, 0xF0, 4, c.offset), 0x0F, 0, Bounded(c.odr, 1, 11))
  }

  /** The device's address above one bit that stays; the two burst lengths and the two mode bits around two bits
      that stay; the enable bit; rate and offset. */
  lemma AuxBytesAre(was: seq<bv8>, c: AuxConfig, b: bv8)
    requires |was| == 2
    ensures var r, a := AuxBytes(was, c), CutAux(c);
            && r[0] == 2 * a.i2cAddr + (was[0] & 1)
            && r[1] == a.auxRdBurst + 4 * a.manRdBurst + (was[1] & 0x30) + 64 * a.fcuWriteEn + 128 * a.manualEn
            && AuxInterfaceByte(b, c) == (b & 0xDF) + 32 * a.auxEn
            && AuxRateByte(b, c) == a.odr + 16 * a.offset
  {
  }

  /** What the getter makes of the five registers; in manual mode it leaves the caller's read address. */
  function AuxFrom(interface: bv8, r: seq<bv8>, rd: bv8, rate: bv8, readAddr: bv8): AuxConfig
    requires |r| == 2
  {
    var manual := GetByteBits(r[1], 0x80, 7);
    AuxConfig(GetByteBits(interface, 0x20, 5), manual, GetByteBits(r[1], 0x40, 6), GetByteBits(r[1], 0x0C, 2),
              GetByteBits(r[1], 0x03, 0), GetByteBits(rate, 0x0F, 0), GetByteBits(rate, 0xF0, 4),
              GetByteBits(r[0], 0xFE, 1), if manual == 0 then rd else readAddr)
  }

  // ---------- what such a call can change ----------

  predicate IsPlain(a: nat) {
    a == STATUS || a == EVENT || ACC_CONF <= a <= AUX_CONF || AUX_DEV_ID <= a <= AUX_RD || a == IF_CONF
  }

  /** From `s` to `t` only the registers of these configurations, and the device's answers, have changed. */
  ghost predicate PlainOnly(s: State, t: State) {
    && s.Valid() && t == s.(regs := t.regs) && |t.regs| == 128
    && forall a :: 0 <= a < 128 && !IsPlain(a) ==> t.regs[a] == s.regs[a]
  }

  lemma PlainKeeps(s: State, t: State)
    requires PlainOnly(s, t)
    ensures t.Valid() && t.Asleep() == s.Asleep() && t.pages == s.pages && t.touchedAsleep == s.touchedAsleep
  {
  }

  /** The device shows `v` in one of its own registers. */
  function Shows(s: State, a: nat, v: bv8): State
    requires s.Valid() && IsPlain(a)
  {
    s.(regs := s.regs[a := v])
  }

  /** `cfg_error_status`: the event flag after a configuration has been written. */
  function EventResult(event: bv8): Rslt {
    var flag := GetByteBits(event, 0x1C, 2);
    if flag == 1 then AccInvalidConfig
    else if flag == 2 then GyroInvalidConfig
    else if flag == 3 then AccGyroInvalidConfig
    else OK
  }

  /** Three bits of the event register name the sensor whose configuration was refused. */
  lemma EventsAre(flag: bv8, others: bv8)
    requires flag < 8 && others & 0x1C == 0
    ensures EventResult(others + 4 * flag)
            == if flag == 1 then AccInvalidConfig
               else if flag == 2 then GyroInvalidConfig
               else if flag == 3 then AccGyroInvalidConfig
               else OK
  {
  }

  /** The device answers the write of an accelerometer or gyroscope configuration with `event`, and keeps
      an auxiliary transfer going for `busy` looks at its status. */
  datatype MainConfig =
    | OfAccel(accel: AccelConfig, event: bv8)
    | OfGyro(gyro: GyroConfig, event: bv8)
    | OfAux(aux: AuxConfig, busy: nat)
  {
    function Result(): Rslt {
      match this
      case OfAccel(_, event) => EventResult(event)
      case OfGyro(_, event) => EventResult(event)
      case OfAux(_, busy) => if busy > 20 then AuxBusy else OK
    }
  }

  /** A transfer over at the last of 21 looks is waited for. */
  lemma PatienceIs(c: AuxConfig)
    ensures OfAux(c, 20).Result() == OK && OfAux(c, 21).Result() == AuxBusy
  {
  }

  function ModeNoted(notes: Notes, c: AuxConfig): Notes {
    if c.manualEn == 0 then notes.(manual := false) else notes.(manual := true, burst := c.manRdBurst)
  }

  /** What the driver notes about a configuration. */
  function NotesAfter(notes: Notes, m: MainConfig): Notes {
    match m
    case OfAccel(c, _) => Informed(notes, AccelClips(c))
    case OfGyro(c, _) => Informed(notes, GyroClips(c))
    case OfAux(c, busy) =>
      var n := Informed(notes, Clip(c.odr, 1, 11));
      if busy > 20 then n else ModeNoted(n, c)
  }

  function WithBytes(s: State, at: nat, r: seq<bv8>): State
    requires s.Valid() && at + |r| <= 128
  {
    s.(regs := Overlay(s.regs, at, r))
  }

  function InterfaceWritten(s: State, c: AuxConfig, bytes: seq<bv8>): (u: State)
    requires s.Valid() && |bytes| == 2
    ensures PlainOnly(s, u)
  {
    var t := WithBytes(s, AUX_DEV_ID, bytes);
    if c.manualEn == 0 then t.(regs := t.regs[AUX_RD := c.readAddr]) else t
  }

  /** What `config_aux_interface` makes of the state. */
  function InterfaceSet(t: State, c: AuxConfig, busy: nat): (u: State)
    requires t.Valid()
    ensures PlainOnly(t, u)
  {
    if busy > 20 then Shows(t, STATUS, 0x04)
    else InterfaceWritten(Shows(t, STATUS, 0), c, AuxBytes(t.regs[AUX_DEV_ID..AUX_DEV_ID + 2], c))
  }

  /** Interface enabled, then, unless the sensor stays busy, its two configuration bytes, the read address
      in data mode, and the rate. */
  function AuxSet(s: State, c: AuxConfig, busy: nat): (r: State)
    requires s.Valid()
    ensures PlainOnly(s, r)
  {
    var t := s.(regs := s.regs[IF_CONF := AuxInterfaceByte(s.regs[IF_CONF], c)]);
    var u := InterfaceSet(t, c, busy);
    if busy > 20 then u else u.(regs := u.regs[AUX_CONF := AuxRateByte(u.regs[AUX_CONF], c)])
  }

  /** The state after one configuration, on a bus that never fails; a refused one has been written too. */
  function MainWritten(s: State, m: MainConfig): (t: State)
    requires s.Valid()
    ensures PlainOnly(s, t)
  {
    hide SetByteBits, AuxSet;
    match m
    case OfAccel(c, event) => Shows(WithBytes(s, ACC_CONF, AccelBytes(CorrectedAccel(c))), EVENT, event)
    case OfGyro(c, event) => Shows(WithBytes(s, GYR_CONF, GyroBytes(CorrectedGyro(c))), EVENT, event)
    case OfAux(c, busy) => AuxSet(s, c, busy)
  }

  function AccelOf(s: State): AccelConfig
    requires s.Valid()
  {
    AccelFrom(s.regs[ACC_CONF..ACC_CONF + 2])
  }

  function GyroOf(s: State): GyroConfig
    requires s.Valid()
  {
    GyroFrom(s.regs[GYR_CONF..GYR_CONF + 2])
  }

  function AuxOf(s: State, readAddr: bv8): AuxConfig
    requires s.Valid()
  {
    AuxFrom(s.regs[IF_CONF], s.regs[AUX_DEV_ID..AUX_DEV_ID + 2], s.regs[AUX_RD], s.regs[AUX_CONF], readAddr)
  }

  lemma AuxBytesReadBack(interface: bv8, r: seq<bv8>, rd: bv8, rate: bv8, readAddr: bv8, c: AuxConfig)
    requires |r| == 2
    ensures AuxFrom(AuxInterfaceByte(interface, c), AuxBytes(r, c), rd, AuxRateByte(rate, c), readAddr)
            == CutAux(c).(readAddr := if c.manualEn & 1 == 0 then rd else readAddr)
  {
  }

  /** Each configuration reads back, corrected, and leaves the others alone. */
  lemma MainReadsBack(s: State, m: MainConfig)
    requires s.Valid()
    ensures AccelOf(MainWritten(s, m)) == if m.OfAccel? then CorrectedAccel(m.accel) else AccelOf(s)
    ensures GyroOf(MainWritten(s, m)) == if m.OfGyro? then CorrectedGyro(m.gyro) else GyroOf(s)
  {
    hide AccelFrom, GyroFrom, AccelBytes, GyroBytes, CorrectedAccel, CorrectedGyro, AuxBytes, AuxInterfaceByte,
        AuxRateByte;
    var t := MainWritten(s, m);
    match m
    case OfAccel(c, _) =>
      AccelReadsBack(c);
      assert t.regs[ACC_CONF..ACC_CONF + 2] == AccelBytes(CorrectedAccel(c));
      assert t.regs[GYR_CONF..GYR_CONF + 2] == s.regs[GYR_CONF..GYR_CONF + 2];
    case OfGyro(c, _) =>
      GyroReadsBack(c);
      assert t.regs[GYR_CONF..GYR_CONF + 2] == GyroBytes(CorrectedGyro(c));
      assert t.regs[ACC_CONF..ACC_CONF + 2] == s.regs[ACC_CONF..ACC_CONF + 2];
    case OfAux(_, _) =>
      assert t.regs[ACC_CONF..ACC_CONF + 2] == s.regs[ACC_CONF..ACC_CONF + 2];
      assert t.regs[GYR_CONF..GYR_CONF + 2] == s.regs[GYR_CONF..GYR_CONF + 2];
  }

  /** So does the auxiliary one, cut to its fields; the read address only if the caller's manual-mode byte
      is zero, though one that is even selects data mode in the device too. */
  lemma AuxReadsBack(s: State, c: AuxConfig, busy: nat, readAddr: bv8)
    requires s.Valid() && busy <= 20
    ensures var back := AuxOf(MainWritten(s, OfAux(c, busy)), readAddr);
            var addr := if c.manualEn == 0 then c.readAddr
                        else if c.manualEn & 1 == 0 then s.regs[AUX_RD]
                        else readAddr;
            back == CutAux(c).(readAddr := addr)
  {
    hide AuxFrom, AuxBytes, AuxInterfaceByte, AuxRateByte, CutAux;
    var t := AuxSet(s, c, busy);
    var r := s.regs[AUX_DEV_ID..AUX_DEV_ID + 2];
    assert t.regs[AUX_DEV_ID..AUX_DEV_ID + 2] == AuxBytes(r, c);
    AuxBytesReadBack(s.regs[IF_CONF], r, t.regs[AUX_RD], s.regs[AUX_CONF], readAddr, c);
    ManualBit(c.manualEn);
  }

  /** Driver and device agree on manual mode exactly if the caller's byte is zero or odd: the driver goes by the
      whole byte, the device gets its lowest bit. */
  lemma ModeAgreesExactly(s: State, notes: Notes, c: AuxConfig, busy: nat)
    requires s.Valid() && busy <= 20
    ensures var t := MainWritten(s, OfAux(c, busy));
            NotesAfter(notes, OfAux(c, busy)).manual == (GetByteBits(t.regs[AUX_DEV_ID + 1], 0x80, 7) == 1)
            <==> c.manualEn == 0 || c.manualEn & 1 == 1
  {
    hide AuxInterfaceByte, AuxRateByte, AuxBytes, Clip;
    var r := s.regs[AUX_DEV_ID..AUX_DEV_ID + 2];
    var t := MainWritten(s, OfAux(c, busy));
    assert t.regs[AUX_DEV_ID..AUX_DEV_ID + 2] == AuxBytes(r, c);
    assert t.regs[AUX_DEV_ID + 1] == AuxBytes(r, c)[1];
    ModeBit(r, c);
    ManualBit(c.manualEn);
  }

  lemma ModeBit(r: seq<bv8>, c: AuxConfig)
    requires |r| == 2
    ensures GetByteBits(AuxBytes(r, c)[1], 0x80, 7) == c.manualEn & 1
  {
  }

  /** The read-address register, too, only changes if that byte is zero. */
  lemma ReadAddressAfter(s: State, c: AuxConfig, busy: nat)
    requires s.Valid() && busy <= 20
    ensures MainWritten(s, OfAux(c, busy)).regs[AUX_RD] == if c.manualEn == 0 then c.readAddr else s.regs[AUX_RD]
  {
    hide AuxBytes, AuxInterfaceByte, AuxRateByte;
  }

  lemma AuxKept(s: State, t: State, readAddr: bv8)
    requires s.Valid() && t.Valid() && t.regs[IF_CONF] == s.regs[IF_CONF] && t.regs[AUX_CONF] == s.regs[AUX_CONF]
    requires forall a :: AUX_DEV_ID <= a <= AUX_RD ==> t.regs[a] == s.regs[a]
    ensures AuxOf(t, readAddr) == AuxOf(s, readAddr) && t.regs[AUX_RD] == s.regs[AUX_RD]
  {
    hide AuxFrom;
    assert t.regs[AUX_DEV_ID..AUX_DEV_ID + 2] == s.regs[AUX_DEV_ID..AUX_DEV_ID + 2];
  }

  lemma ManualBit(b: bv8)
    ensures b == 0 ==> b & 1 == 0
  {
  }

  // ---------- the C functions ----------

  lemma PlainItself(s: State)
    requires s.Valid()
    ensures PlainOnly(s, s)
  {
  }

  lemma PlainTwice(s: State, t: State, u: State)
    requires PlainOnly(s, t) && PlainOnly(t, u)
    ensures PlainOnly(s, u)
  {
  }

  /** A write to these registers is one. */
  lemma PlainWrite(s: State, at: nat, r: seq<bv8>)
    requires s.Valid() && Plain(at, |r|) && FEAT_PAGE < at && forall a :: at <= a < at + |r| ==> IsPlain(a)
    ensures Write(s, at, r) == WithBytes(s, at, r) && PlainOnly(s, Write(s, at, r))
  {
  }

  /** `check_boundary_val`. */
  method CheckBoundary(d: Dev, val: bv8, min: bv8, max: bv8) returns (v: bv8)
    requires min <= max
    modifies d`notes
    ensures v == Bounded(val, min, max) && d.notes == Informed(old(d.notes), Clip(val, min, max))
  {
    v := val;
    if v < min {
      v := min;
      d.notes := d.notes.(info := d.notes.info.(raised := true));
    }
    if v > max {
      v := max;
      d.notes := d.notes.(info := d.notes.info.(cut := true));
    }
  }

  /** `cfg_error_status`. */
  method CfgErrorStatus(d: Dev) returns (rslt: Rslt)
    requires d.dev.Valid()
    modifies d`dev, d`faults
    ensures d.dev == old(d.dev) && (rslt == OK ==> EventResult(d.dev.regs[EVENT]) == OK)
    ensures old(d.faults) == [] ==> d.faults == [] && rslt == EventResult(d.dev.regs[EVENT])
  {
    var regData;
    rslt, regData := d.GetRegs(EVENT, 1);
    if rslt == OK {
      rslt := EventResult(regData[0]);
    }
  }

  /** From `s` to `t` only two configuration registers and the device's verdict have changed. */
  ghost predicate OnlyConfig(s: State, t: State, at: nat) {
    && s.Valid() && t == s.(regs := t.regs) && |t.regs| == 128
    && forall a :: 0 <= a < 128 && a != EVENT && !(at <= a < at + 2) ==> t.regs[a] == s.regs[a]
  }

  lemma ConfigWrite(s: State, at: nat, bytes: seq<bv8>, event: bv8)
    requires s.Valid() && |bytes| == 2 && (at == ACC_CONF || at == GYR_CONF)
    ensures OnlyConfig(s, WithBytes(s, at, bytes), at)
    ensures OnlyConfig(s, Shows(WithBytes(s, at, bytes), EVENT, event), at) && OnlyConfig(s, s, at)
  {
  }

  /** The end of `set_accel_config` and `set_gyro_config`: two bytes written, the device's verdict read. */
  method WriteAndAsk(d: Dev, at: nat, bytes: seq<bv8>, event: bv8) returns (rslt: Rslt)
    requires d.dev.Valid() && |bytes| == 2 && (at == ACC_CONF || at == GYR_CONF)
    modifies d`dev, d`faults, d`apsStatus
    ensures PlainOnly(old(d.dev), d.dev) && OnlyConfig(old(d.dev), d.dev, at) && d.apsStatus == old(d.apsStatus)
    ensures rslt == OK ==>
      d.dev == Shows(WithBytes(old(d.dev), at, bytes), EVENT, event) && EventResult(event) == OK
    ensures old(d.faults) == [] ==>
      d.faults == [] && d.dev == Shows(WithBytes(old(d.dev), at, bytes), EVENT, event) && rslt == EventResult(event)
  {
    PlainWrite(d.dev, at, bytes);
    ConfigWrite(d.dev, at, bytes, event);
    hide Write, EventResult, OnlyConfig;
    rslt := d.SetRegs(at, bytes);
    if rslt == OK {
      d.dev := Shows(d.dev, EVENT, event);
      rslt := CfgErrorStatus(d);
    }
  }

  /** `validate_bw_perf_mode` and `validate_odr_range`. */
  method ValidateAccel(d: Dev, config: AccelConfig) returns (c: AccelConfig)
    modifies d`notes
    ensures c == CorrectedAccel(config) && d.notes == Informed(old(d.notes), AccelClips(config))
  {
    hide Clip, Bounded, Both, Informed;
    ghost var n := d.notes;
    var perf := CheckBoundary(d, config.filterPerf, 0, 1);
    ghost var clips := Clip(config.filterPerf, 0, 1);
    var bwp := CheckBoundary(d, config.bwp, 0, if perf == 1 then 3 else 7);
    InformedTwice(n, clips, Clip(config.bwp, 0, if perf == 1 then 3 else 7));
    clips := Both(clips, Clip(config.bwp, 0, if perf == 1 then 3 else 7));
    var odr := CheckBoundary(d, config.odr, 1, 12);
    InformedTwice(n, clips, Clip(config.odr, 1, 12));
    clips := Both(clips, Clip(config.odr, 1, 12));
    var range := CheckBoundary(d, config.range, 0, 3);
    InformedTwice(n, clips, Clip(config.range, 0, 3));
    c := AccelConfig(odr, bwp, perf, range);
  }

  /** `set_accel_config`, which corrects the caller's configuration too. */
  method SetAccelConfig(d: Dev, config: AccelConfig, event: bv8) returns (rslt: Rslt, corrected: AccelConfig)
    requires d.dev.Valid()
    modifies d`dev, d`faults, d`apsStatus, d`notes
    ensures PlainOnly(old(d.dev), d.dev) && OnlyConfig(old(d.dev), d.dev, ACC_CONF) && d.apsStatus == old(d.apsStatus)
    ensures corrected == CorrectedAccel(config) && d.notes == Informed(old(d.notes), AccelClips(config))
    ensures rslt == OK ==> d.dev == MainWritten(old(d.dev), OfAccel(config, event)) && EventResult(event) == OK
    ensures old(d.faults) == [] ==>
      d.faults == [] && d.dev == MainWritten(old(d.dev), OfAccel(config, event)) && rslt == EventResult(event)
  {
    hide SetByteBits, EventResult, PlainOnly, OnlyConfig, AccelClips, CorrectedAccel;
    corrected := ValidateAccel(d, config);
    var c := corrected;
    var regData := SetByteBits(0, 0x80, 7, c.filterPerf);
    regData := SetByteBits(regData, 0x70, 4, c.bwp);
    regData := SetByteBits(regData, 0x0F, 0, c.odr);
    rslt := WriteAndAsk(d, ACC_CONF, [regData, SetByteBits(0, 0x03, 0, c.range)], event);
  }

  /** `validate_gyro_config`. */
  method ValidateGyro(d: Dev, config: GyroConfig) returns (c: GyroConfig)
    modifies d`notes
    ensures c == CorrectedGyro(config) && d.notes == Informed(old(d.notes), GyroClips(config))
  {
    hide Clip, Bounded, Both, Informed;
    ghost var n := d.notes;
    var perf := CheckBoundary(d, config.filterPerf, 0, 1);
    ghost var clips := Clip(config.filterPerf, 0, 1);
    var bwp := CheckBoundary(d, config.bwp, 0, 3);
    InformedTwice(n, clips, Clip(config.bwp, 0, 3));
    clips := Both(clips, Clip(config.bwp, 0, 3));
    var noise := CheckBoundary(d, config.noisePerf, 0, 1);
    InformedTwice(n, clips, Clip(config.noisePerf, 0, 1));
    clips := Both(clips, Clip(config.noisePerf, 0, 1));
    var odr := CheckBoundary(d, config.odr, 6, 13);
    InformedTwice(n, clips, Clip(config.odr, 6, 13));
    clips := Both(clips, Clip(config.odr, 6, 13));
    var ois := CheckBoundary(d, config.oisRange, 0, 1);
    InformedTwice(n, clips, Clip(config.oisRange, 0, 1));
    clips := Both(clips, Clip(config.oisRange, 0, 1));
    var range := CheckBoundary(d, config.range, 0, 4);
    InformedTwice(n, clips, Clip(config.range, 0, 4));
    c := GyroConfig(odr, bwp, perf, noise, ois, range);
  }

  /** `set_gyro_config`. */
  method SetGyroConfig(d: Dev, config: GyroConfig, event: bv8) returns (rslt: Rslt, corrected: GyroConfig)
    requires d.dev.Valid()
    modifies d`dev, d`faults, d`apsStatus, d`notes
    ensures PlainOnly(old(d.dev), d.dev) && OnlyConfig(old(d.dev), d.dev, GYR_CONF) && d.apsStatus == old(d.apsStatus)
    ensures corrected == CorrectedGyro(config) && d.notes == Informed(old(d.notes), GyroClips(config))
    ensures rslt == OK ==> d.dev == MainWritten(old(d.dev), OfGyro(config, event)) && EventResult(event) == OK
    ensures old(d.faults) == [] ==>
      d.faults == [] && d.dev == MainWritten(old(d.dev), OfGyro(config, event)) && rslt == EventResult(event)
  {
    hide SetByteBits, EventResult, PlainOnly, OnlyConfig, GyroClips, CorrectedGyro;
    corrected := ValidateGyro(d, config);
    var c := corrected;
    var first := SetByteBits(0, 0x80, 7, c.filterPerf);
    first := SetByteBits(first, 0x40, 6, c.noisePerf);
    first := SetByteBits(first, 0x30, 4, c.bwp);
    first := SetByteBits(first, 0x0F, 0, c.odr);
    var second := SetByteBits(SetByteBits(0, 0x08, 3, c.oisRange), 0x07, 0, c.range);
    rslt := WriteAndAsk(d, GYR_CONF, [first, second], event);
  }

  /** The loop of `config_aux_interface`: up to 21 looks at the status until the sensor is not busy. */
  method WaitForAux(d: Dev, busy: nat) returns (rslt: Rslt)
    requires d.dev.Valid()
    modifies d`dev, d`faults
    ensures PlainOnly(old(d.dev), d.dev)
    ensures old(d.faults) == [] ==>
      d.faults == [] && rslt == (if busy > 20 then AuxBusy else OK)
      && d.dev == Shows(old(d.dev), STATUS, if busy > 20 then 0x04 else 0)
  {
    var count := 0;
    ghost var s := d.dev;
    while true
      invariant 0 <= count <= 20 && PlainOnly(s, d.dev)
      invariant old(d.faults) == [] ==>
        d.faults == [] && count <= busy && (d.dev == s || d.dev == Shows(s, STATUS, 0x04))
      decreases 20 - count
    {
      d.dev := Shows(d.dev, STATUS, if count < busy then 0x04 else 0);
      var status;
      rslt, status := d.GetRegs(STATUS, 1);
      if rslt == OK && status[0] & 0x04 == 0 {
        return OK;
      }
      count := count + 1;
      if count > 20 {
        return AuxBusy;
      }
    }
  }

  /** One register edited: `set_aux_interface`, `config_aux`. */
  method EditByte(d: Dev, at: nat, edit: bv8 -> bv8) returns (rslt: Rslt)
    requires d.dev.Valid() && (at == IF_CONF || at == AUX_CONF)
    modifies d`dev, d`faults, d`apsStatus
    ensures PlainOnly(old(d.dev), d.dev) && d.apsStatus == old(d.apsStatus)
    ensures old(d.faults) == [] ==>
      d.faults == [] && rslt == OK && d.dev == old(d.dev).(regs := old(d.dev).regs[at := edit(old(d.dev).regs[at])])
  {
    var regData;
    rslt, regData := d.GetRegs(at, 1);
    if rslt == OK {
      var b := edit(regData[0]);
      OverlayOne(d.dev.regs, at, b);
      PlainWrite(d.dev, at, [b]);
      rslt := d.SetRegs(at, [b]);
    }
  }

  /** The end of `config_aux_interface`, once the sensor is not busy. */
  method WriteInterface(d: Dev, c: AuxConfig, bytes: seq<bv8>) returns (rslt: Rslt)
    requires d.dev.Valid() && |bytes| == 2
    modifies d`dev, d`faults, d`apsStatus, d`notes
    ensures PlainOnly(old(d.dev), d.dev) && d.apsStatus == old(d.apsStatus)
    ensures d.notes == old(d.notes) || d.notes == ModeNoted(old(d.notes), c)
    ensures old(d.faults) == [] ==>
      && d.faults == [] && rslt == OK && d.notes == ModeNoted(old(d.notes), c)
      && d.dev == InterfaceWritten(old(d.dev), c, bytes)
  {
    hide Write;
    PlainWrite(d.dev, AUX_DEV_ID, bytes);
    rslt := d.SetRegs(AUX_DEV_ID, bytes);
    if rslt == OK {
      if c.manualEn == 0 {
        d.notes := d.notes.(manual := false);
        PlainWrite(d.dev, AUX_RD, [c.readAddr]);
        OverlayOne(d.dev.regs, AUX_RD, c.readAddr);
        rslt := d.SetRegs(AUX_RD, [c.readAddr]);
      } else {
        d.notes := d.notes.(manual := true, burst := c.manRdBurst);
      }
    }
  }

  /** `config_aux_interface`. */
  method ConfigAuxInterface(d: Dev, c: AuxConfig, busy: nat) returns (rslt: Rslt)
    requires d.dev.Valid()
    modifies d`dev, d`faults, d`apsStatus, d`notes
    ensures PlainOnly(old(d.dev), d.dev) && d.apsStatus == old(d.apsStatus)
    ensures d.notes == old(d.notes) || d.notes == ModeNoted(old(d.notes), c)
    ensures old(d.faults) == [] ==>
      && d.faults == [] && rslt == (if busy > 20 then AuxBusy else OK) && d.dev == InterfaceSet(old(d.dev), c, busy)
      && d.notes == if busy > 20 then old(d.notes) else ModeNoted(old(d.notes), c)
  {
    hide SetByteBits, ModeNoted, PlainOnly, InterfaceWritten;
    ghost var s := d.dev;
    PlainItself(s);
    var regData;
    rslt, regData := d.GetRegs(AUX_DEV_ID, 2);
    if rslt == OK {
      var first := SetByteBits(regData[0], 0xFE, 1, c.i2cAddr);
      var second := SetByteBits(regData[1], 0x80, 7, c.manualEn);
      second := SetByteBits(second, 0x40, 6, c.fcuWriteEn);
      second := SetByteBits(second, 0x0C, 2, c.manRdBurst);
      second := SetByteBits(second, 0x03, 0, c.auxRdBurst);
      rslt := WaitForAux(d, busy);
      PlainKeeps(s, d.dev);
      if rslt == OK {
        ghost var t := d.dev;
        rslt := WriteInterface(d, c, [first, second]);
        PlainTwice(s, t, d.dev);
      }
    }
  }

  /** `set_aux_config`. */
  method SetAuxConfig(d: Dev, config: AuxConfig, busy: nat) returns (rslt: Rslt, corrected: AuxConfig)
    requires d.dev.Valid()
    modifies d`dev, d`faults, d`apsStatus, d`notes
    ensures PlainOnly(old(d.dev), d.dev) && d.apsStatus == old(d.apsStatus)
    ensures corrected == config.(odr := Bounded(config.odr, 1, 11))
    ensures old(d.faults) == [] ==>
      && d.faults == [] && d.dev == MainWritten(old(d.dev), OfAux(config, busy)) && rslt == OfAux(config, busy).Result()
      && d.notes == NotesAfter(old(d.notes), OfAux(config, busy))
  {
    hide SetByteBits, Clip;
    var odr := CheckBoundary(d, config.odr, 1, 11);
    corrected := config.(odr := odr);
    rslt := EditByte(d, IF_CONF, b => AuxInterfaceByte(b, config));
    if rslt == OK {
      rslt := ConfigAuxInterface(d, config, busy);
      if rslt == OK {
        rslt := EditByte(d, AUX_CONF, b => AuxRateByte(b, config));
      }
    }
  }

  /** The first three cases of `bmi2_set_sensor_config`. */
  method SetMain(d: Dev, m: MainConfig) returns (rslt: Rslt)
    requires d.dev.Valid()
    modifies d`dev, d`faults, d`apsStatus, d`notes
    ensures PlainOnly(old(d.dev), d.dev) && d.apsStatus == old(d.apsStatus)
    ensures old(d.faults) == [] ==>
      && d.faults == [] && d.dev == MainWritten(old(d.dev), m) && rslt == m.Result()
      && d.notes == NotesAfter(old(d.notes), m)
  {
    hide MainWritten, PlainOnly, AccelClips, GyroClips, EventResult;
    match m
    case OfAccel(c, event) =>
      var corrected;
      rslt, corrected := SetAccelConfig(d, c, event);
    case OfGyro(c, event) =>
      var corrected;
      rslt, corrected := SetGyroConfig(d, c, event);
    case OfAux(c, busy) =>
      var corrected;
      rslt, corrected := SetAuxConfig(d, c, busy);
  }
}
