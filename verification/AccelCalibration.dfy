/** The accelerometer's calibration as a whole. */
module AccelCalibration {
  import opened Basics
  import opened Bits
  import opened Device
  import opened Driver
  import opened FifoFormat
  import opened Samples
  import opened MainConfigs
  import opened Queries
  import opened Offsets
  import opened AccelOffsets
  import opened Calibration

  // ---------- sampling ----------

  /** Five looks for each of the samples, and two readings. */
  const LOOKS: nat := 640
  const READINGS: nat := 256

  predicate AccelReady(status: bv8) {
    Bit(status, 0x80)
  }

  /** The first look that finds data ready. */
  function FirstReady(looks: seq<bv8>): (n: nat)
    ensures n <= |looks| && (n < |looks| ==> AccelReady(looks[n])) && forall i :: 0 <= i < n ==> !AccelReady(looks[i])
  {
    if looks == [] || AccelReady(looks[0]) then 0 else 1 + FirstReady(looks[1..])
  }

  predicate AllSixes(data: seq<seq<bv8>>) {
    forall i :: 0 <= i < |data| ==> |data[i]| == 6
  }

  /** Which reading is the j-th sample, if the first `late` samples are taken without data being ready. */
  function ReadingOf(late: nat, j: nat): nat {
    if j < late then j else 2 * j - late + 1
  }

  function Taken(data: seq<seq<bv8>>, late: nat, n: nat): (s: seq<Axes>)
    requires |data| == READINGS && AllSixes(data) && n <= COUNT
    ensures |s| == n
  {
    seq(n, j requires 0 <= j < n => Reading(data[ReadingOf(late, j)]))
  }

  /** How many samples are taken before data is ready: five looks are spent on each. */
  function Late(looks: seq<bv8>): nat {
    if FirstReady(looks) / 5 < COUNT then FirstReady(looks) / 5 else COUNT
  }

  function StatusShown(s: State, status: bv8): (t: State)
    requires s.Valid()
    ensures OnlySamples(s, t) && t.Valid() && t.regs[STATUS] == status
  {
    s.(regs := s.regs[STATUS := status])
  }

  function DataShown(s: State, data: seq<bv8>): (t: State)
    requires s.Valid() && |data| == 6
    ensures OnlySamples(s, t) && t.Valid() && t.regs[ACC_X_LSB..ACC_X_LSB + 6] == data
  {
    OverlayElsewhere(s.regs, ACC_X_LSB, data);
    s.(regs := Overlay(s.regs, ACC_X_LSB, data))
  }

  /** `read_accel_xyz`, the device showing `data`. */
  method ReadAccel(d: Dev, data: seq<bv8>) returns (rslt: Rslt, reading: Axes)
    requires d.dev.Valid() && |data| == 6
    modifies d`dev, d`faults
    ensures OnlySamples(old(d.dev), d.dev) && d.dev.Valid() && (rslt == OK ==> reading == Reading(data))
    ensures old(d.faults) == [] ==> d.faults == [] && rslt == OK
  {
    d.dev := DataShown(d.dev, data);
    var bytes;
    rslt, bytes := d.GetRegs(ACC_X_LSB, 6);
    reading := Reading(if rslt == OK then bytes else [0, 0, 0, 0, 0, 0]);
  }

  /** `bmi2_get_status`, the device showing `status`. */
  method LookAt(d: Dev, status: bv8, was: bv8) returns (rslt: Rslt, regStatus: bv8)
    requires d.dev.Valid()
    modifies d`dev, d`faults
    ensures OnlySamples(old(d.dev), d.dev) && d.dev.Valid() && regStatus == if rslt == OK then status else was
    ensures old(d.faults) == [] ==> d.faults == [] && rslt == OK
  {
    d.dev := StatusShown(d.dev, status);
    var bytes;
    rslt, bytes := d.GetRegs(STATUS, 1);
    regStatus := if rslt == OK then bytes[0] else was;
  }

  /** Where the loop stands: looks made, readings made, data seen ready; after `n` samples. */
  predicate Stands(looks: seq<bv8>, n: nat, polls: nat, got: nat, ready: bool) {
    if ready then Late(looks) < n && got == 2 * n - Late(looks)
    else polls == 5 * n && polls <= FirstReady(looks) && got == n
  }

  /** After the looks for the sample number `n`. */
  predicate HasLooked(looks: seq<bv8>, n: nat, polls: nat, got: nat, ready: bool) {
    if ready then Late(looks) <= n && got == (if n == Late(looks) then n else 2 * n - Late(looks))
    else polls == 5 * n + 5 && polls <= FirstReady(looks) && got == n
  }

  /** The inner loop: up to five looks. */
  method WaitForAccel(d: Dev, looks: seq<bv8>, n: nat, got: nat, polls: nat, status: bv8, was: Rslt)
    returns (rslt: Rslt, regStatus: bv8, polls': nat)
    requires d.dev.Valid() && |looks| == LOOKS && n < COUNT && polls <= 5 * n
    modifies d`dev, d`faults
    ensures OnlySamples(old(d.dev), d.dev) && d.dev.Valid() && polls' <= 5 * n + 5
    ensures old(d.faults) == [] && Stands(looks, n, polls, got, AccelReady(status)) && (n > 0 ==> was == OK) ==>
      d.faults == [] && rslt == OK && HasLooked(looks, n, polls', got, AccelReady(regStatus))
  {
    hide OnlySamples, AccelReady, State.Valid;
    rslt, regStatus, polls' := was, status, polls;
    ghost var s := d.dev;
    ghost var fine := d.faults == [] && Stands(looks, n, polls, got, AccelReady(status)) && (n > 0 ==> was == OK);
    SamplesItself(s);
    var tryCnt := 5;
    while tryCnt > 0 && !AccelReady(regStatus)
      invariant 0 <= tryCnt <= 5 && polls' <= polls + 5 - tryCnt
      invariant OnlySamples(s, d.dev) && d.dev.Valid()
      invariant fine ==> d.faults == [] && (n > 0 || tryCnt < 5 ==> rslt == OK)
      invariant fine && tryCnt == 5 ==> regStatus == status && polls' == polls
      invariant fine && !AccelReady(regStatus) ==> polls' == 5 * n + 5 - tryCnt <= FirstReady(looks) && got == n
      invariant fine && tryCnt < 5 && AccelReady(regStatus) ==> Late(looks) == n == got
    {
      ghost var t := d.dev;
      rslt, regStatus := LookAt(d, looks[polls'], regStatus);
      SamplesTwice(s, t, d.dev);
      if fine {
        FirstIs(looks, polls');
      }
      tryCnt, polls' := tryCnt - 1, polls' + 1;
    }
  }

  lemma SamplesItself(s: State)
    requires s.Valid()
    ensures OnlySamples(s, s)
  {
  }

  /** A look past none that is ready is the first one, or not ready either. */
  lemma FirstIs(looks: seq<bv8>, i: nat)
    requires i < |looks| && i <= FirstReady(looks)
    ensures AccelReady(looks[i]) <==> i == FirstReady(looks)
  {
  }

  lemma TakenNext(data: seq<seq<bv8>>, late: nat, n: nat)
    requires |data| == READINGS && AllSixes(data) && n < COUNT
    ensures Taken(data, late, n + 1) == Taken(data, late, n) + [Reading(data[ReadingOf(late, n)])]
  {
  }

  /** The sampling loop of `perform_accel_foc`.  The status is looked at until it says once that data is
      ready, and from then on not again; five looks in vain do not stop a sample from being read. */
  method SampleAccel(d: Dev, looks: seq<bv8>, data: seq<seq<bv8>>) returns (rslt: Rslt, samples: seq<Axes>)
    requires d.dev.Valid() && |looks| == LOOKS && |data| == READINGS && AllSixes(data)
    modifies d`dev, d`faults
    ensures OnlySamples(old(d.dev), d.dev) && d.dev.Valid() && (rslt == OK ==> |samples| == COUNT)
    ensures old(d.faults) == [] ==> d.faults == [] && rslt == OK && samples == Taken(data, Late(looks), COUNT)
  {
    hide Reading, AccelReady, OnlySamples, State.Valid, Taken, FirstReady;
    rslt, samples := InvalidStatus, [];
    ghost var s, fine, late := d.dev, d.faults == [], Late(looks);
    var regStatus: bv8, polls: nat, got: nat := 0, 0, 0;
    SamplesItself(s);
    NotReady();
    for loop := 0 to COUNT
      invariant OnlySamples(s, d.dev) && d.dev.Valid() && |samples| == loop && polls <= 5 * loop && got <= 2 * loop
      invariant loop > 0 ==> rslt == OK
      invariant fine ==>
        d.faults == [] && Stands(looks, loop, polls, got, AccelReady(regStatus)) && samples == Taken(data, late, loop)
    {
      ghost var t := d.dev;
      rslt, regStatus, polls := WaitForAccel(d, looks, loop, got, polls, regStatus, rslt);
      SamplesTwice(s, t, d.dev);
      var reading;
      if rslt == OK && AccelReady(regStatus) {
        t := d.dev;
        rslt, reading := ReadAccel(d, data[got]);
        SamplesTwice(s, t, d.dev);
        got := got + 1;
      }
      if rslt == OK {
        t := d.dev;
        rslt, reading := ReadAccel(d, data[got]);
        SamplesTwice(s, t, d.dev);
        got := got + 1;
      }
      if rslt != OK {
        return;
      }
      TakenNext(data, late, loop);
      samples := samples + [reading];
    }
  }

  lemma NotReady()
    ensures !AccelReady(0)
  {
  }

  /** A sensor that never has data ready goes unnoticed: the first 128 readings are the samples.  One that has
      it at once is waited for once only: the samples are every second reading. */
  lemma Unnoticed(looks: seq<bv8>, data: seq<seq<bv8>>, j: nat)
    requires |looks| == LOOKS && |data| == READINGS && AllSixes(data) && j < COUNT
    ensures (forall i :: 0 <= i < LOOKS ==> !AccelReady(looks[i])) ==>
              Taken(data, Late(looks), COUNT)[j] == Reading(data[j])
    ensures AccelReady(looks[0]) ==> Taken(data, Late(looks), COUNT)[j] == Reading(data[2 * j + 1])
  {
    hide AccelReady, Reading;
  }

  // ---------- saving, setting up and restoring ----------

  function AccelOn(s: State): bool
    requires s.Valid()
  {
    Bit(s.regs[PWR_CTRL], 0x04)
  }

  /** The power-control byte without the accelerometer's bit. */
  function OtherSensors(b: bv8): bv8 {
    b & 0xFB
  }

  function CompBit(b: bv8, on: bool): bv8 {
    SetByteBits(b, 0x08, 3, if on then 1 else 0)
  }

  /** `save_accel_foc_config`. */
  method SaveAccelConfig(d: Dev) returns (rslt: Rslt, config: AccelConfig, on: bool, aps: bool)
    requires d.dev.Valid()
    modifies d`dev, d`faults, d`apsStatus
    ensures d.dev == old(d.dev)
    ensures rslt == OK ==> config == AccelOf(d.dev) && on == AccelOn(d.dev) && aps == d.dev.Asleep() && d.ApsAgrees()
    ensures old(d.faults) == [] ==> d.faults == [] && rslt == OK
  {
    hide AccelOf;
    on, aps := false, false;
    rslt, config := GetAccelConfig(d);
    if rslt == OK {
      var pwrCtrl;
      rslt, pwrCtrl := d.GetRegs(PWR_CTRL, 1);
      if rslt == OK {
        on := Bit(pwrCtrl[0], 0x04);
        rslt, aps := GetAdvPowerSave(d);
      }
    }
  }

  const FOC_ACC: bv8 := 0xB7

  /** The accelerometer is calibrated at 50 Hz and the range it has, and looked at through bit 7; bit 3 switches
      its compensation. */
  lemma AccelFocIs(range: bv8, b: bv8)
    requires range < 4
    ensures AccelFrom([FOC_ACC, range]) == AccelConfig(7, 3, 1, range)
    ensures AccelReady(0x80) && !AccelReady(0x7F)
    ensures CompBit(b, false) == b & 0xF7 && CompBit(b, true) == (b & 0xF7) + 8
  {
  }

  lemma AccelSwitchedOn(b: bv8)
    ensures var c := Sensors.MainByte(b, {Sensors.Accel}, true); Bit(c, 0x04) && OtherSensors(c) == OtherSensors(b)
  {
  }

  /** The state `set_accel_foc_config` leaves; the range stays. */
  function AccelFocSet(s: State): (t: State)
    requires s.Valid()
    ensures OnlyCalibration(s, t) && t.Valid() && !t.Asleep() && AccelOn(t)
    ensures t.regs[ACC_CONF] == FOC_ACC && t.regs[ACC_CONF + 1] == s.regs[ACC_CONF + 1]
    ensures t.regs[NV_CONF] == CompBit(s.regs[NV_CONF], false)
    ensures OtherSensors(t.regs[PWR_CTRL]) == OtherSensors(s.regs[PWR_CTRL])
  {
    hide SetByteBits, Sensors.MainByte, CompBit;
    var a := s.(regs := s.regs[NV_CONF := CompBit(s.regs[NV_CONF], false)][ACC_CONF := FOC_ACC]);
    AccelSwitchedOn(a.regs[PWR_CTRL]);
    WithAps(Sensors.WithMains(a, {Sensors.Accel}, true), false)
  }

  /** Switching the compensation changes one bit of one register. */
  lemma CompSame(s: State, t: State, on: bool)
    requires OnlyRegs(s, t, NV_CONF, NV_CONF + 1)
    requires t.regs[NV_CONF] == SetByteBits(s.regs[NV_CONF], 0x08, 3, if on then 1 else 0)
    ensures t == s.(regs := s.regs[NV_CONF := CompBit(s.regs[NV_CONF], on)])
  {
    hide SetByteBits;
    assert t.regs == s.regs[NV_CONF := t.regs[NV_CONF]];
  }

  /** `set_accel_foc_config`. */
  method SetAccelFocConfig(d: Dev) returns (rslt: Rslt)
    requires d.dev.Valid()
    modifies d`dev, d`faults, d`apsStatus
    ensures d.dev.Valid() && OnlyCalibration(old(d.dev), d.dev) && d.dev.pages == old(d.dev).pages
    ensures rslt == OK ==> d.dev == AccelFocSet(old(d.dev)) && d.ApsAgrees()
    ensures old(d.faults) == [] ==> d.faults == [] && rslt == OK
  {
    hide SetByteBits, Write, WithAps, CompBit;
    ghost var s := d.dev;
    rslt := SetAccelOffsetComp(d, false);
    if rslt == OK {
      CompSame(s, d.dev, false);
      PlainBytes(d.dev, ACC_CONF, [FOC_ACC]);
      OverlayOne(d.dev.regs, ACC_CONF, FOC_ACC);
      rslt := d.SetRegs(ACC_CONF, [FOC_ACC]);
      if rslt == OK {
        rslt := Sensors.SwitchMains(d, {Sensors.Accel}, true);
        if rslt == OK {
          rslt := d.SetAdvPowerSave(false);
        }
      }
    }
  }

  lemma AccelBitSet(b: bv8, on: bool)
    ensures var c := SetByteBits(b, 0x04, 2, if on then 1 else 0);
            Bit(c, 0x04) == on && OtherSensors(c) == OtherSensors(b)
  {
  }

  function AccelSwitched(s: State, on: bool): (t: State)
    requires s.Valid()
    ensures OnlyCalibration(s, t) && t.Valid() && AccelOn(t) == on
    ensures forall a :: 0 <= a < 128 && a != PWR_CTRL ==> t.regs[a] == s.regs[a]
    ensures OtherSensors(t.regs[PWR_CTRL]) == OtherSensors(s.regs[PWR_CTRL])
  {
    hide SetByteBits, Bit, OtherSensors;
    AccelBitSet(s.regs[PWR_CTRL], on);
    s.(regs := s.regs[PWR_CTRL := SetByteBits(s.regs[PWR_CTRL], 0x04, 2, if on then 1 else 0)])
  }

  lemma SameAccel(s: State, t: State)
    requires s.Valid() && t.Valid()
    requires forall a :: ACC_CONF <= a < ACC_CONF + 2 || NV_CONF <= a < ACC_OFF_COMP_0 + 3 ==> t.regs[a] == s.regs[a]
    ensures AccelOf(t) == AccelOf(s) && AccelRegs(t) == AccelRegs(s) && t.regs[NV_CONF] == s.regs[NV_CONF]
    ensures t.regs[PWR_CTRL] == s.regs[PWR_CTRL] ==> AccelOn(t) == AccelOn(s)
  {
    assert t.regs[ACC_CONF..ACC_CONF + 2] == s.regs[ACC_CONF..ACC_CONF + 2];
  }

  function AccelWritten(s: State, config: AccelConfig, event: bv8): (t: State)
    requires s.Valid()
    ensures t == MainWritten(s, OfAccel(config, event)) && OnlyCalibration(s, t) && t.Valid()
    ensures AccelOf(t) == CorrectedAccel(config)
    ensures forall a :: 0 <= a < 128 && a != EVENT && !(ACC_CONF <= a < ACC_CONF + 2) ==> t.regs[a] == s.regs[a]
  {
    hide AccelOf, CorrectedAccel, AccelBytes;
    MainReadsBack(s, OfAccel(config, event));
    OverlayElsewhere(s.regs, ACC_CONF, AccelBytes(CorrectedAccel(config)));
    MainWritten(s, OfAccel(config, event))
  }

  /** The state `restore_accel_foc_config` leaves; a configuration the device refuses ends it early. */
  function AccelRestored(s: State, config: AccelConfig, event: bv8, on: bool, aps: bool): (t: State)
    requires s.Valid()
    ensures OnlyCalibration(s, t) && t.Valid() && AccelRegs(t) == AccelRegs(s) && t.regs[NV_CONF] == s.regs[NV_CONF]
    ensures AccelOf(t) == CorrectedAccel(config)
    ensures t.Asleep() == (if EventResult(event) == OK then aps else s.Asleep())
    ensures AccelOn(t) == (if EventResult(event) == OK then on else AccelOn(s))
    ensures OtherSensors(t.regs[PWR_CTRL]) == OtherSensors(s.regs[PWR_CTRL])
  {
    hide AccelOf, AccelRegs, EventResult, CorrectedAccel, MainWritten, AccelOn, OtherSensors, AccelWritten,
        AccelSwitched;
    var a := AccelWritten(s, config, event);
    var b := AccelSwitched(a, on);
    AccelRegsSame(s, a);
    SameAccel(a, b);
    SameAccel(b, WithAps(b, aps));
    if EventResult(event) == OK then WithAps(b, aps) else a
  }

  lemma AccelRegsSame(s: State, t: State)
    requires s.Valid() && t.Valid()
    requires forall a :: NV_CONF <= a < ACC_OFF_COMP_0 + 3 ==> t.regs[a] == s.regs[a]
    ensures AccelRegs(t) == AccelRegs(s)
    ensures t.regs[PWR_CTRL] == s.regs[PWR_CTRL] ==> AccelOn(t) == AccelOn(s)
  {
  }

  /** `restore_accel_foc_config`. */
  method RestoreAccelConfig(d: Dev, config: AccelConfig, event: bv8, on: bool, aps: bool) returns (rslt: Rslt)
    requires d.dev.Valid()
    modifies d`dev, d`faults, d`apsStatus, d`notes
    ensures d.dev.Valid() && d.dev.pages == old(d.dev).pages && OnlyCalibration(old(d.dev), d.dev)
    ensures rslt == OK ==>
      d.dev == AccelRestored(old(d.dev), config, event, on, aps) && d.ApsAgrees() && EventResult(event) == OK
    ensures old(d.faults) == [] && old(d.ApsAgrees()) ==>
      && d.faults == [] && d.dev == AccelRestored(old(d.dev), config, event, on, aps) && d.ApsAgrees()
      && rslt == EventResult(event)
  {
    hide SetByteBits, Write, WithAps, MainWritten, AccelOf, PlainOnly, OnlyConfig, OnlyCalibration, AccelRegs,
        CorrectedAccel, AccelClips, Informed, EventResult, AccelOn, OtherSensors;
    ghost var s := d.dev;
    var corrected;
    rslt, corrected := SetAccelConfig(d, config, event);
    ConfigIsOurs(s, d.dev, ACC_CONF);
    if rslt == OK {
      var pwrCtrl;
      rslt, pwrCtrl := d.GetRegs(PWR_CTRL, 1);
      if rslt == OK {
        var b := SetByteBits(pwrCtrl[0], 0x04, 2, if on then 1 else 0);
        OverlayOne(d.dev.regs, PWR_CTRL, b);
        PlainBytes(d.dev, PWR_CTRL, [b]);
        ghost var t := d.dev;
        rslt := d.SetRegs(PWR_CTRL, [b]);
        CalibrationItself(t);
        OnlyTwice(s, t, d.dev);
        if rslt == OK {
          t := d.dev;
          rslt := d.SetAdvPowerSave(aps);
          PowerSaveIsOurs(t, aps);
          OnlyTwice(s, t, d.dev);
        }
      }
    }
  }

  /** Neither sampling nor storing the offsets touches the configuration and the switches. */
  lemma StretchKeepsAccel(s: State, t: State)
    requires OnlySamples(s, t) || OnlyRegs(s, t, NV_CONF, ACC_OFF_COMP_0 + 3)
    ensures OnlyCalibration(s, t) && t.Valid() && AccelOf(t) == AccelOf(s) && t.Asleep() == s.Asleep()
    ensures t.regs[PWR_CTRL] == s.regs[PWR_CTRL] && AccelOn(t) == AccelOn(s) && t.pages == s.pages
    ensures OnlySamples(s, t) ==> AccelRegs(t) == AccelRegs(s) && t.regs[NV_CONF] == s.regs[NV_CONF]
  {
    assert t.regs[ACC_CONF..ACC_CONF + 2] == s.regs[ACC_CONF..ACC_CONF + 2];
  }

  /** The offset bytes for the samples taken. */
  ghost predicate AccelStored(t: State, range: nat, v: GValue, samples: seq<Axes>)
    requires t.Valid()
  {
    var r := AccelRegs(t);
    && r[0] as int == AccelByte(RangeG(range), v, samples, 0)
    && r[1] as int == AccelByte(RangeG(range), v, samples, 1)
    && r[2] as int == AccelByte(RangeG(range), v, samples, 2)
  }

  lemma AccelStoredKept(s: State, t: State, range: nat, v: GValue, samples: seq<Axes>)
    requires s.Valid() && t.Valid() && AccelRegs(t) == AccelRegs(s)
    ensures AccelStored(s, range, v, samples) == AccelStored(t, range, v, samples)
  {
  }

  /** The end of `perform_accel_foc`, from the samples on. */
  method StoreAccel(d: Dev, samples: seq<Axes>, range: nat, v: GValue) returns (rslt: Rslt)
    requires d.dev.Valid() && |samples| == COUNT && v.Valid()
    modifies d`dev, d`faults, d`apsStatus
    ensures d.dev.Valid() && d.apsStatus == old(d.apsStatus)
    ensures OnlyRegs(old(d.dev), d.dev, NV_CONF, ACC_OFF_COMP_0 + 3)
    ensures rslt == OK ==>
      AccelStored(d.dev, range, v, samples) && d.dev.regs[NV_CONF] == CompBit(old(d.dev).regs[NV_CONF], true)
    ensures old(d.faults) == [] ==> d.faults == [] && rslt == OK
  {
    hide AccelByte, SetByteBits, OnlyRegs, AccelRegs;
    rslt := PerformAccelFoc(d, samples, range, v);
  }

  lemma KeptWhenRestored(s: State, t: State, config: AccelConfig, event: bv8, on: bool, aps: bool, v: GValue,
      samples: seq<Axes>)
    requires s.Valid()
    ensures t == AccelRestored(s, config, event, on, aps) ==>
              AccelStored(s, config.range as nat, v, samples) == AccelStored(t, config.range as nat, v, samples)
  {
    if t == AccelRestored(s, config, event, on, aps) {
      AccelStoredKept(s, t, config.range as nat, v, samples);
    }
  }

  // ---------- what the calibrated device reads ----------

  /** One g: at range code 0, which is 2 g, half of what sixteen bits hold, and half as much with every code. */
  function OneGAt(range: nat): nat {
    if range == 0 then 0x4000 else OneGAt(range - 1) / 2
  }

  /** What axis `k` should read at rest, posed as asked. */
  function Posed(oneG: nat, v: GValue, k: AxisIndex): int {
    if v.On(k) == 0 then 0 else if v.sign == 1 then 0 - oneG else oneG
  }

  /** A deviation `d` becomes `off`, less than three halves of a unit, exactly if it is less than half a g; and
      at most half a unit exactly if moreover the deviation the code rounds, which is taken from the pose
      without its sign, is not negative or comes out even. */
  ghost predicate Brought(u: nat, d: int, off: int, delta: int16) {
    && u > 0
    && (Reached(off, u) <==> InReach(d, u, CutsDown(delta, u)))
    && (-127 * u <= d <= 127 * u ==> Reached(off, u))
    && (Reached(off, u) ==> (-(u / 2) <= off <= u / 2 <==> CutsDown(delta, u) || (delta + u / 2) % u == 0))
  }

  /** So the offset register of axis `k`, each step of which is worth 1/256 g, does with the axis. */
  ghost predicate AxisCalibrated(t: State, range: nat, v: GValue, samples: seq<Axes>, k: AxisIndex)
    requires t.Valid()
  {
    var oneG, mean := OneGAt(range), Mean(samples, k);
    var u, d := oneG / 0x100, mean - Posed(oneG, v, k);
    Brought(u, d, d + Units(Signed8(t.regs[ACC_OFF_COMP_0 + k] as int), u),
            ToInt16(mean - if v.On(k) == 1 then oneG else 0))
  }

  ghost predicate AxesCalibrated(t: State, range: nat, v: GValue, samples: seq<Axes>)
    requires t.Valid()
  {
    AxisCalibrated(t, range, v, samples, 0) && AxisCalibrated(t, range, v, samples, 1)
    && AxisCalibrated(t, range, v, samples, 2)
  }

  lemma OneGIs(range: nat)
    requires range < 4
    ensures OneGAt(range) == LsbPerG(RangeG(range)) && OneGAt(range) >= 0x100
  {
  }

  lemma StoredAt(t: State, range: nat, v: GValue, samples: seq<Axes>, k: AxisIndex)
    requires t.Valid() && AccelStored(t, range, v, samples)
    ensures t.regs[ACC_OFF_COMP_0 + k] as int == AccelByte(RangeG(range), v, samples, k)
  {
    hide AccelByte, RangeG;
    assert t.regs[ACC_OFF_COMP_0 + k] == AccelRegs(t)[k];
  }

  /** Every axis is calibrated so at the range the device is set to. */
  lemma CalibratedAtItsRange(t: State, range: nat, v: GValue, samples: seq<Axes>)
    requires t.Valid() && v.Valid() && |samples| == COUNT && range < 4 && AccelStored(t, range, v, samples)
    ensures AxesCalibrated(t, range, v, samples)
  {
    hide AxisCalibrated, AccelStored;
    AxisAtItsRange(t, range, v, samples, 0);
    AxisAtItsRange(t, range, v, samples, 1);
    AxisAtItsRange(t, range, v, samples, 2);
  }

  lemma AxisAtItsRange(t: State, range: nat, v: GValue, samples: seq<Axes>, k: AxisIndex)
    requires t.Valid() && v.Valid() && |samples| == COUNT && range < 4 && AccelStored(t, range, v, samples)
    ensures AxisCalibrated(t, range, v, samples, k)
  {
    hide Mean, AccelByte, LsbPerG, RangeG, OneGAt, AccelStored, Brought, Signed8, ToInt16, Units, AccelOffsets.Unit,
        Target, Posed, Corrected, Delta;
    var g := RangeG(range);
    OneGIs(range);
    RangeIsRange(range);
    StoredAt(t, range, v, samples, k);
    ReadsOffset(t, g, v, samples, k);
    BroughtAt(g, v, samples, k);
    var mean, target := Mean(samples, k), Target(g, v, k);
    var units := Units(Signed8(AccelByte(g, v, samples, k)), AccelOffsets.Unit(g));
    assert OffBy(g, v, samples, k) == mean - target + units;
  }

  lemma BroughtAt(g: nat, v: GValue, samples: seq<Axes>, k: AxisIndex)
    requires IsRange(g) && v.Valid() && |samples| == COUNT
    ensures Brought(AccelOffsets.Unit(g), Mean(samples, k) - Target(g, v, k), OffBy(g, v, samples, k),
                    Delta(g, v, samples, k))
  {
    hide Mean, Target, OffBy, Delta, AccelOffsets.Unit, CutsDown, InReach, Reached;
    CalibrationReachesExactly(g, v, samples, k);
  }

  lemma ReadsOffset(t: State, g: nat, v: GValue, samples: seq<Axes>, k: AxisIndex)
    requires t.Valid() && v.Valid() && IsRange(g) && t.regs[ACC_OFF_COMP_0 + k] as int == AccelByte(g, v, samples, k)
    ensures var oneG := LsbPerG(g);
            && oneG / 0x100 == AccelOffsets.Unit(g) && Posed(oneG, v, k) == Target(g, v, k)
            && Corrected(g, v, samples, k)
               == Mean(samples, k) + Units(Signed8(t.regs[ACC_OFF_COMP_0 + k] as int), oneG / 0x100)
            && Delta(g, v, samples, k) == ToInt16(Mean(samples, k) - if v.On(k) == 1 then oneG else 0)
  {
    hide Mean, AccelByte, LsbPerG, Gravity, Signed8, ToInt16, Units;
    GravityIs(g, v.On(k));
  }

  lemma RangeIsACode(s: State)
    requires s.Valid()
    ensures AccelOf(s).range as nat < 4
  {
    TwoBits(s.regs[ACC_CONF + 1]);
    assert s.regs[ACC_CONF..ACC_CONF + 2][1] == s.regs[ACC_CONF + 1];
  }

  lemma TwoBits(b: bv8)
    ensures GetByteBits(b, 0x03, 0) as nat < 4
  {
    assert GetByteBits(b, 0x03, 0) < 4;
  }

  /** `bmi2_perform_accel_foc`, the device answering the looks and readings as given and the restored
      configuration with `event`.  A request that does not pose exactly one axis changes nothing.  On any bus
      no other register is touched, and success means that configuration (corrected to its ranges), enable bit
      and power save are what they were and the offsets those for 128 samples, at the range the accelerometer
      had.  On a bus that never fails, if the configuration is taken, it succeeds, and the
      samples are those taken whether data was ready or not. */
  method CalibrateAccel(d: Dev, v: GValue, looks: seq<bv8>, data: seq<seq<bv8>>, event: bv8)
    returns (rslt: Rslt, ghost samples: seq<Axes>)
    requires d.dev.Valid() && |looks| == LOOKS && |data| == READINGS && AllSixes(data)
    modifies d`dev, d`faults, d`apsStatus, d`notes
    ensures d.dev.Valid() && d.dev.pages == old(d.dev).pages && OnlyCalibration(old(d.dev), d.dev)
    ensures rslt == OK ==>
      var s, t := old(d.dev), d.dev;
      && d.ApsAgrees() && t.Asleep() == s.Asleep() && AccelOn(t) == AccelOn(s)
      && OtherSensors(t.regs[PWR_CTRL]) == OtherSensors(s.regs[PWR_CTRL]) && AccelOf(t) == CorrectedAccel(AccelOf(s))
      && |samples| == COUNT && AccelStored(t, AccelOf(s).range as nat, v, samples)
      && AxesCalibrated(t, AccelOf(s).range as nat, v, samples)
      && t.regs[NV_CONF] == CompBit(CompBit(s.regs[NV_CONF], false), true)
    ensures !v.Valid() ==> rslt == InvalidInput && d.dev == old(d.dev) && d.faults == old(d.faults)
    ensures v.Valid() && old(d.faults) == [] ==>
      var s, t := old(d.dev), d.dev;
      var done := EventResult(event) == OK;
      && d.faults == [] && d.ApsAgrees() && rslt == EventResult(event)
      && t.Asleep() == (done && s.Asleep()) && AccelOn(t) == (if done then AccelOn(s) else true)
      && OtherSensors(t.regs[PWR_CTRL]) == OtherSensors(s.regs[PWR_CTRL])
      && AccelOf(t) == CorrectedAccel(AccelOf(s))
      && AccelStored(t, AccelOf(s).range as nat, v, Taken(data, Late(looks), COUNT))
      && t.regs[NV_CONF] == CompBit(CompBit(s.regs[NV_CONF], false), true)
  {
    hide AccelOf, AccelRegs, EventResult, CorrectedAccel, AccelByte, Reading, SetByteBits, WithAps,
        OnlyCalibration, OnlySamples, OnlyRegs, State.Asleep, AccelFocSet, AccelRestored, AccelOn, OtherSensors, Taken,
        Late, AllSixes, Mean, AccelStored, AxesCalibrated, CompBit;
    samples := [];
    ghost var s := d.dev;
    CalibrationItself(s);
    if !v.Valid() {
      return InvalidInput, samples;
    }
    var config, on, aps;
    rslt, config, on, aps := SaveAccelConfig(d);
    if rslt == OK {
      rslt := SetAccelFocConfig(d);
    }
    if rslt == OK {
      ghost var ready := d.dev;
      var taken;
      rslt, taken := SampleAccel(d, looks, data);
      samples := taken;
      StretchKeepsAccel(ready, d.dev);
      OnlyTwice(s, ready, d.dev);
      if rslt == OK {
        ghost var read := d.dev;
        rslt := StoreAccel(d, taken, config.range as nat, v);
        StretchKeepsAccel(read, d.dev);
        OnlyTwice(s, read, d.dev);
        if rslt == OK {
          ghost var stored := d.dev;
          rslt := RestoreAccelConfig(d, config, event, on, aps);
          OnlyTwice(s, stored, d.dev);
          KeptWhenRestored(stored, d.dev, config, event, on, aps, v, samples);
          RangeIsACode(s);
          if rslt == OK {
            CalibratedAtItsRange(d.dev, config.range as nat, v, samples);
          }
        }
      }
    }
  }
}
