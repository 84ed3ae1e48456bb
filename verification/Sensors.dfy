/** Enabling, disabling and configuring lists of sensors and features, with power save switched off
    around everything that touches a feature page. */
module Sensors {
  import opened Device
  import opened Driver
  import opened Pages
  import opened Features

  // ---------- the main sensors, all in one register ----------

  datatype Main = Accel | Gyro | Aux | Temp

  function MainMask(m: Main): bv8 {
    match m
    case Accel => 0x04
    case Gyro => 0x02
    case Aux => 0x01
    case Temp => 0x08
  }

  function Switch(b: bv8, m: Main, mains: set<Main>, on: bool): bv8 {
    if m !in mains then b
    else if on then (b & !MainMask(m)) | MainMask(m)
    else b & !MainMask(m)
  }

  /** The power-control byte, edited sensor by sensor. */
  function MainByte(b: bv8, mains: set<Main>, on: bool): bv8 {
    Switch(Switch(Switch(Switch(b, Accel, mains, on), Gyro, mains, on), Aux, mains, on), Temp, mains, on)
  }

  /** Exactly the selected sensors are switched. */
  lemma MainByteExactly(b: bv8, mains: set<Main>, on: bool, m: Main)
    ensures (MainByte(b, mains, on) & MainMask(m) != 0) == if m in mains then on else b & MainMask(m) != 0
    ensures MainByte(b, mains, on) & 0xF0 == b & 0xF0
  {
  }

  /** Auxiliary sensor, gyroscope, accelerometer and temperature from bit 0 up. */
  lemma MainBits()
    ensures MainByte(0, {Aux}, true) == 1 && MainByte(0, {Gyro}, true) == 2
    ensures MainByte(0, {Accel}, true) == 4 && MainByte(0, {Temp}, true) == 8
  {
  }

  predicate MainSet(s: State, m: Main)
    requires s.Valid()
  {
    s.regs[PWR_CTRL] & MainMask(m) != 0
  }

  function WithMains(s: State, mains: set<Main>, on: bool): (r: State)
    requires s.Valid()
    ensures r.Valid() && r == s.(regs := r.regs) && r.Asleep() == s.Asleep()
  {
    if mains == {} then s else s.(regs := s.regs[PWR_CTRL := MainByte(s.regs[PWR_CTRL], mains, on)])
  }

  /** `enable_main_sensors` and `disable_main_sensors`. */
  method SwitchMains(d: Dev, mains: set<Main>, on: bool) returns (rslt: Rslt)
    requires d.dev.Valid()
    modifies d`dev, d`faults, d`apsStatus
    ensures d.apsStatus == old(d.apsStatus)
    ensures d.dev == if rslt == OK then WithMains(old(d.dev), mains, on) else old(d.dev)
    ensures old(d.faults) == [] ==> d.faults == [] && rslt == OK
  {
    hide Switch;
    var regData;
    rslt, regData := d.GetRegs(PWR_CTRL, 1);
    if rslt == OK {
      var b := regData[0];
      b := Switch(b, Accel, mains, on);
      b := Switch(b, Gyro, mains, on);
      b := Switch(b, Aux, mains, on);
      b := Switch(b, Temp, mains, on);
      if mains != {} {
        OverlayOne(d.dev.regs, PWR_CTRL, b);
        rslt := d.SetRegs(PWR_CTRL, [b]);
      }
    }
  }

  // ---------- the features, in the driver's order ----------

  const ORDER: seq<Feature> := [SigMotion, AnyMotion, NoMotion, StepDetector, StepCounter, StepActivity,
                                GyroGainUpdate, GyroSelfOff, WristGesture, WristWearWakeUp]

  function Rank(f: Feature): (k: nat)
    ensures k < 10
  {
    match f
    case SigMotion => 0 case AnyMotion => 1 case NoMotion => 2 case StepDetector => 3 case StepCounter => 4
    case StepActivity => 5 case GyroGainUpdate => 6 case GyroSelfOff => 7 case WristGesture => 8
    case WristWearWakeUp => 9
  }

  lemma Ranked(k: nat, f: Feature)
    requires k < 10
    ensures |ORDER| == 10 && (ORDER[k] == f <==> Rank(f) == k)
  {
  }

  /** The device's state and the features the driver believes to be enabled. */
  datatype View = View(s: State, stat: set<Feature>)

  function SwitchOne(v: View, f: Feature, on: bool): (r: View)
    requires v.s.Valid()
    ensures r.s.Valid()
  {
    View(Paged(v.s, PageOf(EnableBit(f).page), WithEnable(v.s.pages, f, on)), Believed(v.stat, f, on, OK))
  }

  function SwitchUpto(v: View, feats: set<Feature>, on: bool, k: nat): (r: View)
    requires v.s.Valid() && k <= 10
    ensures r.s.Valid() && r.s.Asleep() == v.s.Asleep() && r.s.init == v.s.init
    ensures !v.s.Asleep() ==> r.s.touchedAsleep == v.s.touchedAsleep
  {
    if k == 0 then v
    else
      var w := SwitchUpto(v, feats, on, k - 1);
      if ORDER[k - 1] in feats then SwitchOne(w, ORDER[k - 1], on) else w
  }

  /** Exactly the selected features are switched, in the device and in the driver's mind, and no feature's
      configuration changes. */
  lemma {:induction false} SwitchedExactly(v: View, feats: set<Feature>, on: bool, k: nat, f: Feature)
    requires v.s.Valid() && k <= 10
    ensures var r, hit := SwitchUpto(v, feats, on, k), f in feats && Rank(f) < k;
            && EnableBitSet(r.s.pages, f) == (if hit then on else EnableBitSet(v.s.pages, f))
            && (f in r.stat) == (if hit then on else f in v.stat)
  {
    hide EnableBit, WithEnable, EnableBitSet, Paged, OnlyIn, ORDER, Rank;
    if k > 0 {
      SwitchedExactly(v, feats, on, k - 1, f);
      Ranked(k - 1, f);
      var w, g := SwitchUpto(v, feats, on, k - 1), ORDER[k - 1];
      if g in feats {
        EnableReadsBack(w.s.pages, g, on);
        if g != f {
          EnableBitKept(w.s.pages, WithEnable(w.s.pages, g, on), OfEnable(g), f);
        }
      }
    }
  }

  lemma {:induction false} SwitchingKeepsConfigs(v: View, feats: set<Feature>, on: bool, k: nat, c: Config)
    requires v.s.Valid() && k <= 10
    ensures ConfigOf(SwitchUpto(v, feats, on, k).s.pages, c) == ConfigOf(v.s.pages, c)
  {
    hide EnableBit, WithEnable, EnableBitSet, ConfigOf, Paged, OnlyIn, ORDER, Rank;
    if k > 0 {
      SwitchingKeepsConfigs(v, feats, on, k - 1, c);
      Ranked(k - 1, SigMotion);
      var w, g := SwitchUpto(v, feats, on, k - 1), ORDER[k - 1];
      if g in feats {
        EnableReadsBack(w.s.pages, g, on);
        ConfigKept(w.s.pages, WithEnable(w.s.pages, g, on), OfEnable(g), c);
      }
    }
  }

  /** Switching features touches enable bits only. */
  lemma {:induction false} SwitchingKeepsBits(v: View, feats: set<Feature>, on: bool, k: nat, o: Owner, p: nat, w: nat)
    requires v.s.Valid() && k <= 10 && !o.OfEnable? && Placed(o) && p < PAGES && w < 8
    ensures Part(WordAt(SwitchUpto(v, feats, on, k).s.pages[p], w), Cover(o, p, w))
            == Part(WordAt(v.s.pages[p], w), Cover(o, p, w))
  {
    hide EnableBit, WithEnable, Part, WordAt, Cover, Paged, OnlyIn, ORDER, Rank;
    if k > 0 {
      SwitchingKeepsBits(v, feats, on, k - 1, o, p, w);
      Ranked(k - 1, SigMotion);
      var x, g := SwitchUpto(v, feats, on, k - 1), ORDER[k - 1];
      if g in feats {
        EnableReadsBack(x.s.pages, g, on);
        OthersKeep(x.s.pages, WithEnable(x.s.pages, g, on), OfEnable(g), o, p, w);
      }
    }
  }

  // ---------- what the driver believes is true ----------

  /** Every feature the driver believes enabled is; the device clears the enable bit of the gain update
      by itself. */
  ghost predicate Sound(m: seq<Page>, stat: set<Feature>)
    requires Memory(m)
  {
    forall f :: f in stat && f != GyroGainUpdate ==> EnableBitSet(m, f)
  }

  ghost predicate Exact(m: seq<Page>, stat: set<Feature>)
    requires Memory(m)
  {
    forall f :: f != GyroGainUpdate ==> (f in stat <==> EnableBitSet(m, f))
  }

  lemma SoundAfter(m: seq<Page>, stat: set<Feature>, f: Feature, on: bool)
    requires Memory(m) && Sound(m, stat)
    ensures Sound(WithEnable(m, f, on), Believed(stat, f, on, OK)) && Sound(m, stat - {f})
  {
    hide WithEnable, EnableBitSet, OnlyIn;
    EnableReadsBack(m, f, on);
    forall g | g != f ensures EnableBitSet(WithEnable(m, f, on), g) == EnableBitSet(m, g) {
      EnableBitKept(m, WithEnable(m, f, on), OfEnable(f), g);
    }
  }

  /** A failed write takes the feature off the driver's books whatever was asked; they stay exact exactly
      when the feature was off in the device. */
  lemma FailedWriteExactly(m: seq<Page>, stat: set<Feature>, f: Feature, enable: bool)
    requires Memory(m) && Exact(m, stat) && f != GyroGainUpdate
    ensures Exact(m, Believed(stat, f, enable, ComFail)) <==> !EnableBitSet(m, f)
  {
    hide EnableBitSet;
    assert f !in Believed(stat, f, enable, ComFail);
  }

  /** For instance, after a feature has been enabled one failed write makes the driver think that it is off. */
  lemma FailedWriteLosesTrack(m: seq<Page>, stat: set<Feature>, f: Feature, enable: bool)
    requires Memory(m) && Exact(m, stat) && f != GyroGainUpdate
    ensures var on := WithEnable(m, f, true);
            Exact(on, stat + {f}) && !Exact(on, Believed(stat + {f}, f, enable, ComFail))
  {
    hide EnableBitSet, WithEnable, OnlyIn;
    EnableReadsBack(m, f, true);
    forall g | g != f ensures EnableBitSet(WithEnable(m, f, true), g) == EnableBitSet(m, g) {
      EnableBitKept(m, WithEnable(m, f, true), OfEnable(f), g);
    }
    FailedWriteExactly(WithEnable(m, f, true), stat + {f}, f, enable);
  }

  lemma SoundUnder(a: seq<Page>, b: seq<Page>, stat: set<Feature>, o: Owner)
    requires Memory(a) && Memory(b) && OnlyIn(o, a, b) && Placed(o) && !o.OfEnable?
    ensures Sound(a, stat) <==> Sound(b, stat)
    ensures Exact(a, stat) <==> Exact(b, stat)
  {
    hide EnableBitSet, OnlyIn;
    forall f: Feature ensures EnableBitSet(a, f) == EnableBitSet(b, f) {
      EnableBitKept(a, b, o, f);
    }
  }

  /** `enable_sensor_features` and `disable_sensor_features`: ten guarded calls, each overwriting the
      result of the one before. */
  method SwitchFeatures(d: Dev, feats: set<Feature>, on: bool) returns (rslt: Rslt)
    requires d.dev.Valid() && d.readWriteLen >= 2
    modifies d`dev, d`faults, d`readWriteLen, d`apsStatus, d`sensEnStat
    ensures d.dev.Valid() && d.apsStatus == old(d.apsStatus) && d.readWriteLen >= 2
    ensures Sound(old(d.dev).pages, old(d.sensEnStat)) ==> Sound(d.dev.pages, d.sensEnStat)
    ensures old(d.faults) == [] ==>
      d.faults == [] && rslt == OK
      && View(d.dev, d.sensEnStat) == SwitchUpto(View(old(d.dev), old(d.sensEnStat)), feats, on, 10)
  {
    hide EnableBit, WithEnable, Paged, Sound, ORDER;
    rslt := OK;
    ghost var v := View(d.dev, d.sensEnStat);
    for k := 0 to 10
      invariant d.dev.Valid() && d.apsStatus == old(d.apsStatus) && d.readWriteLen >= 2
      invariant Sound(old(d.dev).pages, old(d.sensEnStat)) ==> Sound(d.dev.pages, d.sensEnStat)
      invariant old(d.faults) == [] ==>
        d.faults == [] && rslt == OK && View(d.dev, d.sensEnStat) == SwitchUpto(v, feats, on, k)
    {
      Ranked(k, SigMotion);
      var f := ORDER[k];
      if f in feats {
        if Sound(d.dev.pages, d.sensEnStat) {
          SoundAfter(d.dev.pages, d.sensEnStat, f, on);
        }
        rslt := SetFeature(d, f, on);
      }
    }
  }

  // ---------- enabling and disabling lists ----------

  datatype Choice = MainSensor(m: Main) | FeatureSensor(f: Feature) | Unknown

  function MainsIn(list: seq<Choice>): set<Main> {
    set c | c in list && c.MainSensor? :: c.m
  }

  function FeaturesIn(list: seq<Choice>): set<Feature> {
    set c | c in list && c.FeatureSensor? :: c.f
  }

  /** `select_sensor`: one unknown entry spoils the list. */
  method SelectSensor(list: seq<Choice>) returns (rslt: Rslt, mains: set<Main>, feats: set<Feature>)
    ensures rslt == if Unknown in list then InvalidSensor else OK
    ensures mains == MainsIn(list) && feats == FeaturesIn(list)
  {
    rslt, mains, feats := OK, {}, {};
    for count := 0 to |list|
      invariant rslt == if Unknown in list[..count] then InvalidSensor else OK
      invariant mains == MainsIn(list[..count]) && feats == FeaturesIn(list[..count])
    {
      assert list[..count + 1] == list[..count] + [list[count]];
      match list[count]
      case MainSensor(m) => mains := mains + {m};
      case FeatureSensor(f) => feats := feats + {f};
      case Unknown => rslt := InvalidSensor;
    }
    assert list[..|list|] == list;
  }

  /** The feature half of `sensor_enable`, inside its power-save bracket. */
  function Bracketed(v: View, feats: set<Feature>, on: bool): (r: View)
    requires v.s.Valid()
    ensures r.s.Valid() && r.s.Asleep() == v.s.Asleep() && r.s.touchedAsleep == v.s.touchedAsleep
  {
    var awake := SwitchUpto(View(if v.s.Asleep() then WithAps(v.s, false) else v.s, v.stat), feats, on, 10);
    if v.s.Asleep() then View(WithAps(awake.s, true), awake.stat) else awake
  }

  /** Enabling or disabling a list, on a bus that never fails. */
  function Switched(v: View, list: seq<Choice>, on: bool): (r: View)
    requires v.s.Valid()
    ensures r.s.Valid() && r.s.Asleep() == v.s.Asleep() && r.s.touchedAsleep == v.s.touchedAsleep
  {
    if Unknown in list then v
    else
      var w := View(WithMains(v.s, MainsIn(list), on), v.stat);
      if FeaturesIn(list) == {} then w else Bracketed(w, FeaturesIn(list), on)
  }

  /** `sensor_enable` and `sensor_disable`. */
  method SensorSwitch(d: Dev, mains: set<Main>, feats: set<Feature>, on: bool) returns (rslt: Rslt)
    requires d.dev.Valid() && d.readWriteLen >= 2
    modifies d`dev, d`faults, d`readWriteLen, d`apsStatus, d`sensEnStat
    ensures d.dev.Valid() && d.readWriteLen >= 2
    ensures Sound(old(d.dev).pages, old(d.sensEnStat)) ==> Sound(d.dev.pages, d.sensEnStat)
    ensures old(d.faults) == [] && old(d.ApsAgrees()) ==>
      var w := View(WithMains(old(d.dev), mains, on), old(d.sensEnStat));
      && d.faults == [] && rslt == OK && d.apsStatus == old(d.apsStatus)
      && View(d.dev, d.sensEnStat) == if feats == {} then w else Bracketed(w, feats, on)
  {
    hide Sound, WithAps, WithMains, SwitchUpto;
    rslt := SwitchMains(d, mains, on);
    if rslt == OK && feats != {} {
      var apsStat := d.apsStatus;
      if apsStat {
        rslt := d.SetAdvPowerSave(false);
      }
      if rslt == OK {
        rslt := SwitchFeatures(d, feats, on);
        if apsStat && rslt == OK {
          rslt := d.SetAdvPowerSave(true);
        }
      }
    }
  }

  /** `bmi270_sensor_enable` and `bmi270_sensor_disable`. */
  method SwitchList(d: Dev, list: seq<Choice>, on: bool) returns (rslt: Rslt)
    requires d.dev.Valid() && d.readWriteLen >= 2
    modifies d`dev, d`faults, d`readWriteLen, d`apsStatus, d`sensEnStat
    ensures d.dev.Valid() && d.readWriteLen >= 2
    ensures Sound(old(d.dev).pages, old(d.sensEnStat)) ==> Sound(d.dev.pages, d.sensEnStat)
    ensures old(d.faults) == [] && old(d.ApsAgrees()) ==>
      && d.faults == [] && rslt == (if Unknown in list then InvalidSensor else OK) && d.ApsAgrees()
      && View(d.dev, d.sensEnStat) == Switched(View(old(d.dev), old(d.sensEnStat)), list, on)
  {
    hide Sound, Bracketed, MainsIn, FeaturesIn, WithMains;
    var mains, feats;
    rslt, mains, feats := SelectSensor(list);
    if rslt == OK {
      rslt := SensorSwitch(d, mains, feats, on);
    }
  }

  /** Outside the page register, switching features leaves the registers alone. */
  lemma {:induction false} SwitchingKeepsRegs(v: View, feats: set<Feature>, on: bool, k: nat)
    requires v.s.Valid() && k <= 10
    ensures forall a :: 0 <= a < 128 && a != FEAT_PAGE ==> SwitchUpto(v, feats, on, k).s.regs[a] == v.s.regs[a]
  {
    hide ORDER, WithEnable, EnableBit;
    if k > 0 {
      SwitchingKeepsRegs(v, feats, on, k - 1);
    }
  }

  lemma BracketedExactly(v: View, feats: set<Feature>, on: bool, f: Feature, c: Config)
    requires v.s.Valid()
    ensures var r := Bracketed(v, feats, on);
            && EnableBitSet(r.s.pages, f) == (if f in feats then on else EnableBitSet(v.s.pages, f))
            && (f in r.stat) == (if f in feats then on else f in v.stat)
            && r.s.regs[PWR_CTRL] == v.s.regs[PWR_CTRL]
            && ConfigOf(r.s.pages, c) == ConfigOf(v.s.pages, c)
  {
    hide EnableBitSet, ConfigOf, SwitchUpto, WithAps;
    var awake := View(if v.s.Asleep() then WithAps(v.s, false) else v.s, v.stat);
    SwitchedExactly(awake, feats, on, 10, f);
    SwitchingKeepsConfigs(awake, feats, on, 10, c);
    SwitchingKeepsRegs(awake, feats, on, 10);
  }

  /** What a list asked for is what happened, to every main sensor and every feature. */
  lemma SwitchedAsAsked(v: View, list: seq<Choice>, on: bool, f: Feature, m: Main, c: Config)
    requires v.s.Valid() && Unknown !in list
    ensures var r := Switched(v, list, on);
            && EnableBitSet(r.s.pages, f) == (if FeatureSensor(f) in list then on else EnableBitSet(v.s.pages, f))
            && (f in r.stat) == (if FeatureSensor(f) in list then on else f in v.stat)
            && MainSet(r.s, m) == (if MainSensor(m) in list then on else MainSet(v.s, m))
            && ConfigOf(r.s.pages, c) == ConfigOf(v.s.pages, c)
  {
    hide EnableBitSet, ConfigOf, MainMask, MainByte, Bracketed;
    var mains, feats := MainsIn(list), FeaturesIn(list);
    assert (m in mains) == (MainSensor(m) in list) && (f in feats) == (FeatureSensor(f) in list);
    MainByteExactly(v.s.regs[PWR_CTRL], mains, on, m);
    BracketedExactly(View(WithMains(v.s, mains, on), v.stat), feats, on, f, c);
  }
}
