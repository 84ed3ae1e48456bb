/** The two offset calibrations as a whole: configuration saved, sensor set up, 128 samples read, offsets
    stored, configuration restored. */
module Calibration {
  import opened Basics
  import opened Bits
  import opened Device
  import opened Driver
  import opened FifoFormat
  import opened Samples
  import opened MainConfigs
  import opened Queries
  import opened Offsets
  import Sensors

  // ---------- what the device shows while samples are read ----------

  /** The status register at one look, and the six data registers after it. */
  datatype Look = Look(status: bv8, data: seq<bv8>)

  predicate IsLook(l: Look) {
    |l.data| == 6
  }

  predicate AllLooks(looks: seq<Look>) {
    forall i :: 0 <= i < |looks| ==> IsLook(looks[i])
  }

  function Bit(b: bv8, mask: bv8): bool {
    b & mask != 0
  }

  /** `(int16_t)((msb << 8) | lsb)`. */
  function DataWord(lsb: bv8, msb: bv8): int16 {
    ToInt16(0x100 * msb as int + lsb as int)
  }

  function Reading(data: seq<bv8>): Axes
    requires |data| == 6
  {
    Axes(DataWord(data[0], data[1]), DataWord(data[2], data[3]), DataWord(data[4], data[5]))
  }

  /** Six data registers are read as the sensor fills them: two bytes an axis, the low one first. */
  lemma ReadingIs(data: seq<bv8>, a: Axes)
    requires |data| == 6 && forall i :: 0 <= i < 6 ==> data[i] as int == EncodeAxes(a)[i]
    ensures Reading(data) == a
  {
    hide ToInt16, Pattern16;
    WordIs(a.x); WordIs(a.y); WordIs(a.z);
  }

  lemma WordIs(v: int16)
    ensures ToInt16(0x100 * EncodeWord(v)[1] as int + EncodeWord(v)[0] as int) == v
  {
  }

  function Readings(looks: seq<Look>): (s: seq<Axes>)
    requires AllLooks(looks)
    ensures |s| == |looks|
  {
    seq(|looks|, i requires 0 <= i < |looks| => Reading(looks[i].data))
  }

  /** The registers a calibration, or the device during one, may change. */
  predicate OfCalibration(a: nat) {
    a == STATUS || ACC_X_LSB <= a < GYR_X_LSB + 6 || a == EVENT || ACC_CONF <= a < GYR_CONF + 2
    || NV_CONF <= a <= GYR_OFF_COMP_6 || a == PWR_CONF || a == PWR_CTRL
  }

  ghost predicate OnlyCalibration(s: State, t: State) {
    && s.Valid() && t == s.(regs := t.regs) && |t.regs| == 128
    && forall a :: 0 <= a < 128 && !OfCalibration(a) ==> t.regs[a] == s.regs[a]
  }

  /** Everything but what changes with every sample. */
  ghost predicate OnlySamples(s: State, t: State) {
    && s.Valid() && t == s.(regs := t.regs) && |t.regs| == 128
    && forall a :: 0 <= a < 128 && a != STATUS && !(ACC_X_LSB <= a < GYR_X_LSB + 6) ==> t.regs[a] == s.regs[a]
  }

  lemma OverlayElsewhere<T>(s: seq<T>, at: nat, data: seq<T>)
    requires at + |data| <= |s|
    ensures Overlay(s, at, data)[at..at + |data|] == data
    ensures forall a :: 0 <= a < |s| && !(at <= a < at + |data|) ==> Overlay(s, at, data)[a] == s[a]
  {
  }

  function GyroShown(s: State, l: Look): (t: State)
    requires s.Valid() && IsLook(l)
    ensures OnlySamples(s, t) && t.Valid()
    ensures t.regs[STATUS] == l.status && t.regs[GYR_X_LSB..GYR_X_LSB + 6] == l.data
  {
    OverlayElsewhere(s.regs[STATUS := l.status], GYR_X_LSB, l.data);
    s.(regs := Overlay(s.regs[STATUS := l.status], GYR_X_LSB, l.data))
  }

  lemma SamplesTwice(s: State, t: State, u: State)
    requires OnlySamples(s, t) && OnlySamples(t, u)
    ensures OnlySamples(s, u)
  {
  }

  // ---------- the gyroscope ----------

  predicate GyroReady(l: Look) {
    Bit(l.status, 0x40)
  }

  predicate AllReady(looks: seq<Look>) {
    forall l :: l in looks ==> GyroReady(l)
  }

  /** The sampling loop of `bmi2_perform_gyro_foc`: a look that finds no data ready ends it. */
  method SampleGyro(d: Dev, looks: seq<Look>) returns (rslt: Rslt, samples: seq<Axes>)
    requires d.dev.Valid() && |looks| == COUNT && AllLooks(looks)
    modifies d`dev, d`faults
    ensures OnlySamples(old(d.dev), d.dev)
    ensures rslt == OK ==> AllReady(looks) && samples == Readings(looks)
    ensures old(d.faults) == [] ==> d.faults == [] && rslt == if AllReady(looks) then OK else InvalidStatus
  {
    hide GyroShown, Reading;
    rslt, samples := OK, [];
    for loop := 0 to COUNT
      invariant OnlySamples(old(d.dev), d.dev) && rslt == OK
      invariant AllReady(looks[..loop]) && samples == Readings(looks[..loop])
      invariant old(d.faults) == [] ==> d.faults == []
    {
      assert looks[loop] in looks;
      assert looks[..loop + 1] == looks[..loop] + [looks[loop]];
      ghost var s := d.dev;
      d.dev := GyroShown(d.dev, looks[loop]);
      SamplesTwice(old(d.dev), s, d.dev);
      var status, data;
      rslt, status := d.GetRegs(STATUS, 1);
      if rslt == OK && Bit(status[0], 0x40) {
        rslt, data := d.GetRegs(GYR_X_LSB, 6);
        if rslt == OK {
          samples := samples + [Reading(data)];
        }
      }
      if rslt != OK {
        return;
      } else if !Bit(status[0], 0x40) {
        return InvalidStatus, samples;
      }
    }
    assert looks[..COUNT] == looks;
  }

  /** The power-control byte without the gyroscope's bit. */
  function Others(b: bv8): bv8 {
    b & 0xFD
  }

  function GyroOn(s: State): bool
    requires s.Valid()
  {
    Bit(s.regs[PWR_CTRL], 0x02)
  }

  /** `bmi2_get_adv_power_save`, which also brings the driver's flag in line with the device. */
  method GetAdvPowerSave(d: Dev) returns (rslt: Rslt, aps: bool)
    requires d.dev.Valid()
    modifies d`dev, d`faults, d`apsStatus
    ensures d.dev == old(d.dev)
    ensures rslt == OK ==> aps == d.dev.Asleep() && d.ApsAgrees()
    ensures old(d.faults) == [] ==> d.faults == [] && rslt == OK
  {
    var data;
    rslt, data := d.GetRegs(PWR_CONF, 1);
    aps := false;
    if rslt == OK {
      aps := data[0] & 1 == 1;
      d.apsStatus := aps;
    }
  }

  /** `save_gyro_config`. */
  method SaveGyroConfig(d: Dev) returns (rslt: Rslt, config: GyroConfig, on: bool, aps: bool)
    requires d.dev.Valid()
    modifies d`dev, d`faults, d`apsStatus
    ensures d.dev == old(d.dev)
    ensures rslt == OK ==> config == GyroOf(d.dev) && on == GyroOn(d.dev) && aps == d.dev.Asleep() && d.ApsAgrees()
    ensures old(d.faults) == [] ==> d.faults == [] && rslt == OK
  {
    hide GyroOf;
    on, aps := false, false;
    rslt, config := GetGyroConfig(d);
    if rslt == OK {
      var pwrCtrl;
      rslt, pwrCtrl := d.GetRegs(PWR_CTRL, 1);
      if rslt == OK {
        on := Bit(pwrCtrl[0], 0x02);
        rslt, aps := GetAdvPowerSave(d);
      }
    }
  }

  const FOC_GYR: seq<bv8> := [0xB6, 0x00]

  /** The gyroscope is calibrated at 25 Hz and 2000 degrees a second, and looked at through bit 6. */
  lemma GyroFocIs()
    ensures GyroFrom(FOC_GYR) == GyroConfig(6, 3, 1, 0, 0, 0)
    ensures GyroReady(Look(0x40, [])) && !GyroReady(Look(0xBF, []))
  {
  }

  function CompOff(s: State): (t: State)
    requires s.Valid()
    ensures OnlyCalibration(s, t) && t.Valid()
    ensures GyroRegs(t) == GyroRegs(s)[3 := SetByteBits(GyroRegs(s)[3], 0x40, 6, 0)]
    ensures t.regs[PWR_CTRL] == s.regs[PWR_CTRL]
  {
    hide SetByteBits;
    var t := s.(regs := s.regs[GYR_OFF_COMP_6 := SetByteBits(s.regs[GYR_OFF_COMP_6], 0x40, 6, 0)]);
    assert GyroRegs(t) == GyroRegs(s)[3 := t.regs[GYR_OFF_COMP_6]];
    t
  }

  lemma SameOffsets(s: State, t: State)
    requires s.Valid() && t.Valid() && forall a :: GYR_OFF_COMP_3 <= a <= GYR_OFF_COMP_6 ==> t.regs[a] == s.regs[a]
    ensures GyroRegs(t) == GyroRegs(s)
  {
  }

  /** The state `set_gyro_foc_config` leaves. */
  function GyroFocSet(s: State): (t: State)
    requires s.Valid()
    ensures OnlyCalibration(s, t) && t.Valid() && !t.Asleep() && GyroOn(t) && GyroOf(t) == GyroFrom(FOC_GYR)
    ensures GyroRegs(t) == GyroRegs(s)[3 := SetByteBits(GyroRegs(s)[3], 0x40, 6, 0)]
    ensures Others(t.regs[PWR_CTRL]) == Others(s.regs[PWR_CTRL])
  {
    hide SetByteBits, GyroFrom, GyroRegs, CompOff, Sensors.MainByte;
    var a := CompOff(s);
    OverlayElsewhere(a.regs, GYR_CONF, FOC_GYR);
    var b := WithBytes(a, GYR_CONF, FOC_GYR);
    GyroSwitchedOn(b.regs[PWR_CTRL]);
    var c := WithAps(Sensors.WithMains(b, {Sensors.Gyro}, true), false);
    assert c.regs[GYR_CONF..GYR_CONF + 2] == FOC_GYR;
    SameOffsets(a, c);
    c
  }

  lemma GyroSwitchedOn(b: bv8)
    ensures var c := Sensors.MainByte(b, {Sensors.Gyro}, true); Bit(c, 0x02) && Others(c) == Others(b)
  {
  }

  lemma OnlyTwice(s: State, t: State, u: State)
    requires OnlyCalibration(s, t) && OnlyCalibration(t, u)
    ensures OnlyCalibration(s, u)
  {
  }

  lemma PlainBytes(s: State, at: nat, r: seq<bv8>)
    requires s.Valid() && Plain(at, |r|) && at > FEAT_PAGE && forall a :: at <= a < at + |r| ==> OfCalibration(a)
    ensures Write(s, at, r) == WithBytes(s, at, r) && OnlyCalibration(s, Write(s, at, r))
  {
    OverlayElsewhere(s.regs, at, r);
  }

  /** `set_gyro_foc_config`. */
  method SetGyroFocConfig(d: Dev) returns (rslt: Rslt)
    requires d.dev.Valid()
    modifies d`dev, d`faults, d`apsStatus
    ensures d.dev.Valid() && OnlyCalibration(old(d.dev), d.dev) && d.dev.pages == old(d.dev).pages
    ensures rslt == OK ==> d.dev == GyroFocSet(old(d.dev)) && d.ApsAgrees()
    ensures old(d.faults) == [] ==> d.faults == [] && rslt == OK
  {
    hide SetByteBits, Write, WithAps;
    ghost var s := d.dev;
    rslt := SetGyroOffsetComp(d, false);
    if rslt == OK {
      OffsetsSame(s, d.dev, false);
      PlainBytes(d.dev, GYR_CONF, FOC_GYR);
      rslt := d.SetRegs(GYR_CONF, FOC_GYR);
      if rslt == OK {
        rslt := Sensors.SwitchMains(d, {Sensors.Gyro}, true);
        if rslt == OK {
          rslt := d.SetAdvPowerSave(false);
        }
      }
    }
  }

  /** Switching the compensation changes one bit of one register. */
  lemma OffsetsSame(s: State, t: State, on: bool)
    requires OnlyRegs(s, t, GYR_OFF_COMP_6, GYR_OFF_COMP_6 + 1)
    requires GyroRegs(t) == GyroRegs(s)[3 := SetByteBits(GyroRegs(s)[3], 0x40, 6, if on then 1 else 0)]
    ensures t == s.(regs := s.regs[GYR_OFF_COMP_6 := SetByteBits(s.regs[GYR_OFF_COMP_6], 0x40, 6, if on then 1 else 0)])
  {
    hide SetByteBits;
    assert t.regs[GYR_OFF_COMP_6] == GyroRegs(t)[3] && s.regs[GYR_OFF_COMP_6] == GyroRegs(s)[3];
    assert t.regs == s.regs[GYR_OFF_COMP_6 := t.regs[GYR_OFF_COMP_6]];
  }

  lemma GyroBitSet(b: bv8, on: bool)
    ensures var c := SetByteBits(b, 0x02, 1, if on then 1 else 0); Bit(c, 0x02) == on && Others(c) == Others(b)
  {
  }

  lemma SameGyro(s: State, t: State)
    requires s.Valid() && t.Valid()
    requires forall a :: GYR_CONF <= a < GYR_CONF + 2 || GYR_OFF_COMP_3 <= a <= GYR_OFF_COMP_6 ==>
               t.regs[a] == s.regs[a]
    ensures GyroOf(t) == GyroOf(s) && GyroRegs(t) == GyroRegs(s)
  {
    assert t.regs[GYR_CONF..GYR_CONF + 2] == s.regs[GYR_CONF..GYR_CONF + 2];
  }

  function GyroWritten(s: State, config: GyroConfig, event: bv8): (t: State)
    requires s.Valid()
    ensures t == MainWritten(s, OfGyro(config, event)) && OnlyCalibration(s, t) && t.Valid()
    ensures GyroRegs(t) == GyroRegs(s) && GyroOf(t) == CorrectedGyro(config)
    ensures t.regs[PWR_CTRL] == s.regs[PWR_CTRL] && t.regs[PWR_CONF] == s.regs[PWR_CONF]
  {
    hide GyroOf, CorrectedGyro, MainConfigs.GyroBytes;
    MainReadsBack(s, OfGyro(config, event));
    OverlayElsewhere(s.regs, GYR_CONF, MainConfigs.GyroBytes(CorrectedGyro(config)));
    MainWritten(s, OfGyro(config, event))
  }

  function GyroSwitched(s: State, on: bool): (t: State)
    requires s.Valid()
    ensures OnlyCalibration(s, t) && t.Valid() && GyroOn(t) == on
    ensures forall a :: 0 <= a < 128 && a != PWR_CTRL ==> t.regs[a] == s.regs[a]
    ensures Others(t.regs[PWR_CTRL]) == Others(s.regs[PWR_CTRL])
  {
    hide SetByteBits, Bit, Others;
    GyroBitSet(s.regs[PWR_CTRL], on);
    s.(regs := s.regs[PWR_CTRL := SetByteBits(s.regs[PWR_CTRL], 0x02, 1, if on then 1 else 0)])
  }

  lemma SamePower(s: State, t: State)
    requires s.Valid() && t.Valid() && t.regs[PWR_CTRL] == s.regs[PWR_CTRL]
    ensures GyroOn(t) == GyroOn(s)
  {
  }

  /** The enable bit and power save put back. */
  function SwitchesPut(s: State, on: bool, aps: bool): (t: State)
    requires s.Valid()
    ensures OnlyCalibration(s, t) && t.Valid() && t.Asleep() == aps && GyroOn(t) == on
    ensures GyroRegs(t) == GyroRegs(s) && GyroOf(t) == GyroOf(s) && Others(t.regs[PWR_CTRL]) == Others(s.regs[PWR_CTRL])
  {
    hide GyroOf, GyroRegs, GyroOn, Others, GyroSwitched;
    var b := GyroSwitched(s, on);
    SamePower(b, WithAps(b, aps));
    SameGyro(s, WithAps(b, aps));
    WithAps(b, aps)
  }

  /** The state `restore_gyro_config` leaves; a configuration the device refuses ends it early. */
  function GyroRestored(s: State, config: GyroConfig, event: bv8, on: bool, aps: bool): (t: State)
    requires s.Valid()
    ensures OnlyCalibration(s, t) && t.Valid() && GyroRegs(t) == GyroRegs(s) && GyroOf(t) == CorrectedGyro(config)
    ensures t.Asleep() == (if EventResult(event) == OK then aps else s.Asleep())
    ensures GyroOn(t) == (if EventResult(event) == OK then on else GyroOn(s))
    ensures Others(t.regs[PWR_CTRL]) == Others(s.regs[PWR_CTRL])
  {
    hide GyroOf, GyroRegs, EventResult, CorrectedGyro, MainWritten;
    var a := GyroWritten(s, config, event);
    if EventResult(event) == OK then SwitchesPut(a, on, aps) else a
  }

  /** `restore_gyro_config`. */
  method RestoreGyroConfig(d: Dev, config: GyroConfig, event: bv8, on: bool, aps: bool) returns (rslt: Rslt)
    requires d.dev.Valid()
    modifies d`dev, d`faults, d`apsStatus, d`notes
    ensures d.dev.Valid() && d.dev.pages == old(d.dev).pages && OnlyCalibration(old(d.dev), d.dev)
    ensures rslt == OK ==>
      d.dev == GyroRestored(old(d.dev), config, event, on, aps) && d.ApsAgrees() && EventResult(event) == OK
    ensures old(d.faults) == [] && old(d.ApsAgrees()) ==>
      && d.faults == [] && d.dev == GyroRestored(old(d.dev), config, event, on, aps) && d.ApsAgrees()
      && rslt == EventResult(event)
  {
    hide SetByteBits, Write, WithAps, MainWritten, GyroOf, PlainOnly, OnlyConfig, OnlyCalibration, GyroRegs,
        CorrectedGyro, GyroClips, Informed, EventResult, GyroOn, Others;
    ghost var s := d.dev;
    var corrected;
    rslt, corrected := SetGyroConfig(d, config, event);
    ConfigIsOurs(s, d.dev, GYR_CONF);
    if rslt == OK {
      var pwrCtrl;
      rslt, pwrCtrl := d.GetRegs(PWR_CTRL, 1);
      if rslt == OK {
        var b := SetByteBits(pwrCtrl[0], 0x02, 1, if on then 1 else 0);
        OverlayOne(d.dev.regs, PWR_CTRL, b);
        PlainBytes(d.dev, PWR_CTRL, [b]);
        ghost var t := d.dev;
        rslt := d.SetRegs(PWR_CTRL, [b]);
        CalibrationItself(t);
        OnlyTwice(s, t, d.dev);
        if rslt == OK {
          t := d.dev;
          rslt := d.SetAdvPowerSave(aps);
          PowerSaveIsOurs(t, aps);
          OnlyTwice(s, t, d.dev);
        }
      }
    }
  }

  lemma ConfigIsOurs(s: State, t: State, at: nat)
    requires OnlyConfig(s, t, at) && (at == ACC_CONF || at == GYR_CONF)
    ensures OnlyCalibration(s, t) && t.Valid() && t.pages == s.pages
  {
  }

  lemma CalibrationItself(s: State)
    requires s.Valid()
    ensures OnlyCalibration(s, s)
  {
  }

  lemma PowerSaveIsOurs(s: State, on: bool)
    requires s.Valid()
    ensures OnlyCalibration(s, WithAps(s, on)) && OnlyCalibration(s, s)
  {
  }

  /** Neither sampling nor storing the offsets touches the configuration and the switches. */
  lemma StretchKeeps(s: State, t: State)
    requires OnlySamples(s, t) || OnlyRegs(s, t, GYR_OFF_COMP_3, GYR_OFF_COMP_6 + 1)
    ensures OnlyCalibration(s, t) && t.Valid() && GyroOf(t) == GyroOf(s) && t.Asleep() == s.Asleep()
    ensures t.regs[PWR_CTRL] == s.regs[PWR_CTRL] && GyroOn(t) == GyroOn(s) && t.pages == s.pages
    ensures OnlySamples(s, t) ==> GyroRegs(t) == GyroRegs(s)
  {
    assert t.regs[GYR_CONF..GYR_CONF + 2] == s.regs[GYR_CONF..GYR_CONF + 2];
  }

  /** `bmi2_perform_gyro_foc`, the device answering the looks as given and the restored configuration with
      `event`.  On any bus it touches no other register, and success means that everything has been done: the
      configuration (corrected to its ranges), the enable bit and power save are what they were, and the
      offsets those for the samples read.  On a bus that never fails it succeeds if every look finds data and
      the configuration is taken; a look without data leaves the gyroscope set up for calibration, on, with
      power save and the compensation off, and the offsets alone. */
  method CalibrateGyro(d: Dev, looks: seq<Look>, event: bv8) returns (rslt: Rslt)
    requires d.dev.Valid() && |looks| == COUNT && AllLooks(looks)
    modifies d`dev, d`faults, d`apsStatus, d`notes
    ensures d.dev.Valid() && d.dev.pages == old(d.dev).pages && OnlyCalibration(old(d.dev), d.dev)
    ensures rslt == OK ==>
      var s, t := old(d.dev), d.dev;
      && AllReady(looks) && d.ApsAgrees() && t.Asleep() == s.Asleep() && GyroOn(t) == GyroOn(s)
      && Others(t.regs[PWR_CTRL]) == Others(s.regs[PWR_CTRL]) && GyroOf(t) == CorrectedGyro(GyroOf(s))
      && forall k: AxisIndex :: GyroCalibrated(GyroRegs(t), Readings(looks), k)
    ensures old(d.faults) == [] ==>
      var s, t := old(d.dev), d.dev;
      var done := AllReady(looks) && EventResult(event) == OK;
      && d.faults == [] && d.ApsAgrees()
      && rslt == (if AllReady(looks) then EventResult(event) else InvalidStatus)
      && t.Asleep() == (done && s.Asleep()) && GyroOn(t) == (if done then GyroOn(s) else true)
      && Others(t.regs[PWR_CTRL]) == Others(s.regs[PWR_CTRL])
      && GyroOf(t) == (if AllReady(looks) then CorrectedGyro(GyroOf(s)) else GyroFrom(FOC_GYR))
      && if AllReady(looks) then forall k: AxisIndex :: GyroCalibrated(GyroRegs(t), Readings(looks), k)
         else GyroRegs(t) == GyroRegs(s)[3 := SetByteBits(GyroRegs(s)[3], 0x40, 6, 0)]
  {
    hide GyroOf, GyroRegs, EventResult, CorrectedGyro, GyroCalibrated, GyroFrom, Reading, SetByteBits, WithAps,
        OnlyCalibration, OnlySamples, OnlyRegs, State.Asleep, GyroFocSet, GyroRestored, GyroOn, AllReady, AllLooks,
        Others;
    ghost var s := d.dev;
    CalibrationItself(s);
    var config, on, aps;
    rslt, config, on, aps := SaveGyroConfig(d);
    if rslt == OK {
      rslt := SetGyroFocConfig(d);
    }
    if rslt == OK {
      ghost var ready := d.dev;
      var samples;
      rslt, samples := SampleGyro(d, looks);
      StretchKeeps(ready, d.dev);
      OnlyTwice(s, ready, d.dev);
      if rslt == OK {
        ghost var read := d.dev;
        rslt := PerformGyroFoc(d, samples);
        StretchKeeps(read, d.dev);
        OnlyTwice(s, read, d.dev);
        if rslt == OK {
          ghost var stored := d.dev;
          rslt := RestoreGyroConfig(d, config, event, on, aps);
          OnlyTwice(s, stored, d.dev);
        }
      }
    }
  }
}
