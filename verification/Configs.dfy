/** Configuring a list: `bmi270_set_sensor_config`, `bmi2_set_sensor_config` and the setters they call. */
module Configs {
  import opened Device
  import opened Driver
  import opened Pages
  import opened Steps
  import opened Features
  import opened MainConfigs
  import opened Sensors

  /** A feature's configuration, the step parameters, a configuration in plain registers, or a type that
      none of the calls knows. */
  datatype Entry =
    | Settings(c: Config, values: seq<bv16>) | Params(params: seq<bv16>) | Main(m: MainConfig) | Unsupported
  {
    predicate Valid() {
      match this
      case Settings(c, values) => |values| == |Fields(c)|
      case Params(params) => |params| == N_PARAMS
      case Main(_) => true
      case Unsupported => true
    }

    /** The entries `bmi270_set_sensor_config` hands to `bmi2_set_sensor_config`, which looks after power
        save by itself: accelerometer, gyroscope, auxiliary interface and user gain. */
    predicate First() {
      Main? || (Settings? && c == GyroUserGainConfig)
    }

    predicate OnPages() {
      Settings? || Params?
    }

    /** How setting it ends on a bus that never fails. */
    function Result(): Rslt {
      match this
      case Main(m) => m.Result()
      case Unsupported => InvalidSensor
      case _ => OK
    }
  }

  // ---------- one entry ----------

  /** The state after an entry has been written, power save aside. */
  function Applied(s: State, e: Entry): (r: State)
    requires s.Valid() && e.Valid()
    ensures r.Valid() && r.Asleep() == s.Asleep() && (!s.Asleep() ==> r.touchedAsleep == s.touchedAsleep)
    ensures !e.OnPages() ==> r.pages == s.pages
  {
    match e
    case Settings(c, values) => Paged(s, PageOf(ConfigPage(c)), WithConfig(s.pages, c, values))
    case Params(params) => Paged(s, PageOf(END_PAGE), WithSteps(s.pages, 0, params))
    case Main(m) => PlainKeeps(s, MainWritten(s, m)); MainWritten(s, m)
    case Unsupported => s
  }

  function OwnerOf(e: Entry): (o: Owner)
    requires e.OnPages()
    ensures Placed(o) && !o.OfEnable? && !o.OfAxes?
  {
    match e
    case Settings(c, _) => OfConfig(c)
    case Params(_) => OfSteps(0)
  }

  lemma AppliedIsLocal(s: State, e: Entry)
    requires s.Valid() && e.Valid() && e.OnPages()
    ensures OnlyIn(OwnerOf(e), s.pages, Applied(s, e).pages)
  {
    hide OnlyIn, WithConfig, WithSteps;
    match e
    case Settings(c, values) => ConfigIsLocal(s.pages, c, values);
    case Params(params) => StepsAreLocal(s.pages, 0, params);
  }

  /** No entry moves an enable bit. */
  lemma AppliedKeepsEnables(s: State, e: Entry, stat: set<Feature>)
    requires s.Valid() && e.Valid()
    ensures Sound(s.pages, stat) <==> Sound(Applied(s, e).pages, stat)
    ensures Exact(s.pages, stat) <==> Exact(Applied(s, e).pages, stat)
  {
    hide OnlyIn, Sound, Exact, Applied;
    if e.OnPages() {
      AppliedIsLocal(s, e);
      SoundUnder(s.pages, Applied(s, e).pages, stat, OwnerOf(e));
    }
  }

  /** `set_feat_config`, and the cases of `bmi2_set_sensor_config`. */
  method SetEntry(d: Dev, e: Entry) returns (rslt: Rslt)
    requires d.dev.Valid() && d.readWriteLen >= 2 && e.Valid()
    modifies d`dev, d`faults, d`readWriteLen, d`apsStatus, d`notes
    ensures d.dev.Valid() && d.apsStatus == old(d.apsStatus) && d.readWriteLen >= 2
    ensures if e.OnPages() then OnlyIn(OwnerOf(e), old(d.dev).pages, d.dev.pages) else d.dev.pages == old(d.dev).pages
    ensures old(d.faults) == [] ==> d.faults == [] && rslt == e.Result() && d.dev == Applied(old(d.dev), e)
  {
    hide Paged, WithConfig, WithSteps, OnlyIn, MainWritten, PlainOnly;
    match e
    case Settings(c, values) =>
      OnlyInSelf(OfConfig(c), d.dev.pages);
      ConfigIsLocal(d.dev.pages, c, values);
      rslt := SetConfig(d, c, values);
    case Params(params) => rslt := SetStepParams(d, params, 0);
    case Main(m) =>
      rslt := SetMain(d, m);
      PlainKeeps(old(d.dev), d.dev);
    case Unsupported => rslt := InvalidSensor;
  }

  // ---------- `bmi2_set_sensor_config` ----------

  datatype Ended = Ended(s: State, rslt: Rslt)

  function Awake(s: State, apsStat: bool): (r: State)
    requires s.Valid()
    ensures r.Valid() && (apsStat ==> !r.Asleep()) && r.touchedAsleep == s.touchedAsleep && r.pages == s.pages
  {
    if apsStat then WithAps(s, false) else s
  }

  predicate AllValid(list: seq<Entry>) {
    forall e :: e in list ==> e.Valid()
  }

  /** The loop over the rest of a list, on a bus that never fails: it stops at the first entry that fails. */
  function ListedFrom(s: State, apsStat: bool, list: seq<Entry>): Ended
    requires s.Valid() && AllValid(list)
    decreases |list|
  {
    if list == [] then Ended(s, OK)
    else
      var t := Awake(s, apsStat);
      if !list[0].First() then Ended(t, InvalidSensor)
      else if list[0].Result() != OK then Ended(Applied(t, list[0]), list[0].Result())
      else ListedFrom(Applied(t, list[0]), apsStat, list[1..])
  }

  function Restored(r: Ended, apsStat: bool): Ended
    requires r.s.Valid()
  {
    if apsStat && r.rslt == OK then r.(s := WithAps(r.s, true)) else r
  }

  function Listed(s: State, list: seq<Entry>): Ended
    requires s.Valid() && AllValid(list)
  {
    ListedIsGuarded(s, s.Asleep(), list);
    Restored(ListedFrom(s, s.Asleep(), list), s.Asleep())
  }

  lemma {:induction false} ListedIsGuarded(s: State, apsStat: bool, list: seq<Entry>)
    requires s.Valid() && AllValid(list) && (s.Asleep() ==> apsStat)
    ensures var r := ListedFrom(s, apsStat, list);
            r.s.Valid() && r.s.touchedAsleep == s.touchedAsleep && (r.s.Asleep() ==> r.rslt == OK && apsStat)
    decreases |list|
  {
    hide Applied, WithAps;
    if list != [] && list[0].First() && list[0].Result() == OK {
      ListedIsGuarded(Applied(Awake(s, apsStat), list[0]), apsStat, list[1..]);
    }
  }

  /** Success leaves power save as it was, failure leaves it off, and no page is touched while it is on. */
  lemma ListedBracket(s: State, list: seq<Entry>)
    requires s.Valid() && AllValid(list)
    ensures var r := Listed(s, list);
            r.s.Valid() && r.s.touchedAsleep == s.touchedAsleep && r.s.Asleep() == (s.Asleep() && r.rslt == OK)
  {
    hide ListedFrom, WithAps;
    ListedIsGuarded(s, s.Asleep(), list);
  }

  /** Here every failure is reported: the call succeeds exactly if every entry does. */
  lemma {:induction false} ListedReportsExactly(s: State, apsStat: bool, list: seq<Entry>)
    requires s.Valid() && AllValid(list)
    ensures ListedFrom(s, apsStat, list).rslt == OK <==> forall e :: e in list ==> e.First() && e.Result() == OK
    decreases |list|
  {
    hide Applied, WithAps;
    if list != [] {
      assert forall e :: e in list <==> e == list[0] || e in list[1..];
      if list[0].First() && list[0].Result() == OK {
        ListedReportsExactly(Applied(Awake(s, apsStat), list[0]), apsStat, list[1..]);
      }
    }
  }

  /** `bmi2_set_sensor_config` for the single entry `bmi270_set_sensor_config` hands it. */
  function FirstApplied(s: State, e: Entry): (r: Ended)
    requires s.Valid() && e.Valid()
    ensures r.s.Valid() && r.rslt == e.Result() && r.s.touchedAsleep == s.touchedAsleep
    ensures r.s.Asleep() == (s.Asleep() && r.rslt == OK)
    ensures r.s.pages == Applied(Awake(s, s.Asleep()), e).pages
  {
    Restored(Ended(Applied(Awake(s, s.Asleep()), e), e.Result()), s.Asleep())
  }

  lemma ListedOne(s: State, e: Entry)
    requires s.Valid() && e.Valid() && e.First()
    ensures Listed(s, [e]) == FirstApplied(s, e)
  {
    hide Applied, WithAps;
    var t := Applied(Awake(s, s.Asleep()), e);
    assert [e][1..] == [] && ListedFrom(t, s.Asleep(), []) == Ended(t, OK);
    assert ListedFrom(s, s.Asleep(), [e]) == Ended(t, e.Result());
  }

  // ---------- `bmi270_set_sensor_config` ----------

  /** The loop over the rest of a list, on a bus that never fails, `rslt` being the last entry's result.
      With power save on at the start, the call that switches it off overwrites that result. */
  function ConfiguredFrom(s: State, apsStat: bool, list: seq<Entry>, rslt: Rslt): Ended
    requires s.Valid() && AllValid(list)
    decreases |list|
  {
    if list == [] then Ended(s, rslt)
    else if list[0].First() then
      var r := FirstApplied(s, list[0]);
      ConfiguredFrom(r.s, apsStat, list[1..], r.rslt)
    else if !apsStat && rslt != OK then Ended(s, rslt)
    else ConfiguredFrom(Applied(Awake(s, apsStat), list[0]), apsStat, list[1..], list[0].Result())
  }

  /** The state after one entry that is reached, and whether the next one is. */
  function Next(s: State, apsStat: bool, e: Entry): (t: State)
    requires s.Valid() && e.Valid()
    ensures t.Valid()
    ensures t.pages == Applied(Awake(s, if e.First() then s.Asleep() else apsStat), e).pages
  {
    if e.First() then FirstApplied(s, e).s else Applied(Awake(s, apsStat), e)
  }

  predicate Reached(apsStat: bool, e: Entry, rslt: Rslt) {
    e.First() || apsStat || rslt == OK
  }

  lemma ConfiguredStep(s: State, apsStat: bool, list: seq<Entry>, rslt: Rslt)
    requires s.Valid() && AllValid(list) && list != []
    ensures ConfiguredFrom(s, apsStat, list, rslt)
            == if Reached(apsStat, list[0], rslt) then
                 ConfiguredFrom(Next(s, apsStat, list[0]), apsStat, list[1..], list[0].Result())
               else Ended(s, rslt)
  {
    hide Applied, FirstApplied, WithAps;
  }

  function Configured(s: State, list: seq<Entry>): Ended
    requires s.Valid() && AllValid(list)
  {
    ConfiguredIsGuarded(s, s.Asleep(), list, OK);
    Restored(ConfiguredFrom(s, s.Asleep(), list, OK), s.Asleep())
  }

  /** No page is touched in power save on the way, and an error leaves power save off. */
  lemma {:induction false} ConfiguredIsGuarded(s: State, apsStat: bool, list: seq<Entry>, rslt: Rslt)
    requires s.Valid() && AllValid(list) && (s.Asleep() ==> apsStat && rslt == OK)
    ensures var r := ConfiguredFrom(s, apsStat, list, rslt);
            r.s.Valid() && r.s.touchedAsleep == s.touchedAsleep && (r.s.Asleep() ==> apsStat && r.rslt == OK)
    decreases |list|
  {
    hide WithAps, Applied, ConfiguredFrom;
    if list != [] {
      ConfiguredStep(s, apsStat, list, rslt);
      if Reached(apsStat, list[0], rslt) {
        ConfiguredIsGuarded(Next(s, apsStat, list[0]), apsStat, list[1..], list[0].Result());
      }
    } else {
      ConfiguredNothing(s, apsStat, rslt);
    }
  }

  lemma ConfiguredNothing(s: State, apsStat: bool, rslt: Rslt)
    requires s.Valid()
    ensures ConfiguredFrom(s, apsStat, [], rslt) == Ended(s, rslt)
  {
  }

  /** A configure call that succeeds leaves power save as it was; one that fails leaves it off; none touches
      a page while it is on. */
  lemma ConfiguredBracket(s: State, list: seq<Entry>)
    requires s.Valid() && AllValid(list)
    ensures var r := Configured(s, list);
            && r.s.Valid() && r.s.touchedAsleep == s.touchedAsleep
            && r.s.Asleep() == (s.Asleep() && r.rslt == OK)
  {
    hide WithAps, ConfiguredFrom;
    ConfiguredIsGuarded(s, s.Asleep(), list, OK);
  }

  // ---------- which failures are reported ----------

  /** A failure is overwritten by the power-save call before the next entry, if power save was on, and by
      any accelerometer, gyroscope, auxiliary or user-gain entry that comes next; only otherwise, or at the
      end of the list, is it the call's. */
  predicate Reported(apsStat: bool, list: seq<Entry>, i: nat)
    requires i < |list|
  {
    list[i].Result() != OK && (i + 1 == |list| || (!apsStat && !list[i + 1].First()))
  }

  lemma {:induction false} ReportsExactlyFrom(s: State, apsStat: bool, list: seq<Entry>, rslt: Rslt)
    requires s.Valid() && AllValid(list)
    ensures (ConfiguredFrom(s, apsStat, list, rslt).rslt != OK)
            == ((rslt != OK && (list == [] || (!apsStat && !list[0].First())))
                || exists i :: 0 <= i < |list| && Reported(apsStat, list, i))
    decreases |list|
  {
    hide Next, ConfiguredFrom;
    if list != [] {
      ConfiguredStep(s, apsStat, list, rslt);
      if Reached(apsStat, list[0], rslt) {
        ReportsExactlyFrom(Next(s, apsStat, list[0]), apsStat, list[1..], list[0].Result());
        Shifted(apsStat, list);
      }
    } else {
      ConfiguredNothing(s, apsStat, rslt);
    }
  }

  lemma Shifted(apsStat: bool, list: seq<Entry>)
    requires list != []
    ensures (exists i :: 0 <= i < |list| && Reported(apsStat, list, i))
            == (Reported(apsStat, list, 0) || exists i :: 0 <= i < |list[1..]| && Reported(apsStat, list[1..], i))
  {
    forall i | 0 <= i < |list[1..]| ensures Reported(apsStat, list[1..], i) == Reported(apsStat, list, i + 1) {
    }
    if i :| 0 <= i < |list| && Reported(apsStat, list, i) && i > 0 {
      assert Reported(apsStat, list[1..], i - 1);
    }
  }

  /** When the call fails. */
  lemma ReportsExactly(s: State, list: seq<Entry>)
    requires s.Valid() && AllValid(list)
    ensures Configured(s, list).rslt != OK <==> exists i :: 0 <= i < |list| && Reported(s.Asleep(), list, i)
  {
    hide ConfiguredFrom;
    ReportsExactlyFrom(s, s.Asleep(), list, OK);
  }

  /** For instance, on a sleeping device this list succeeds. */
  lemma UnsupportedGoesUnnoticed(s: State, params: seq<bv16>)
    requires s.Valid() && s.Asleep() && |params| == N_PARAMS
    ensures Configured(s, [Unsupported, Params(params)]).rslt == OK
  {
    hide ConfiguredFrom;
    ReportsExactly(s, [Unsupported, Params(params)]);
  }

  /** And these do on any device: an accelerometer configuration that the device refuses, or an unsupported
      entry, before a gyroscope configuration that it takes. */
  lemma RefusalGoesUnnoticed(s: State, accel: AccelConfig, gyro: GyroConfig)
    requires s.Valid()
    ensures OfAccel(accel, 0x04).Result() == AccInvalidConfig
    ensures Configured(s, [Main(OfAccel(accel, 0x04)), Main(OfGyro(gyro, 0))]).rslt == OK
    ensures Configured(s, [Unsupported, Main(OfGyro(gyro, 0))]).rslt == OK
  {
    hide ConfiguredFrom;
    assert EventResult(0) == OK && EventResult(0x04) == AccInvalidConfig;
    ReportsExactly(s, [Main(OfAccel(accel, 0x04)), Main(OfGyro(gyro, 0))]);
    ReportsExactly(s, [Unsupported, Main(OfGyro(gyro, 0))]);
  }

  /** On an awake device it is the accelerometer, the gyroscope, the auxiliary interface and the user gain, and
      nothing else, that hide a failure before them. */
  lemma HidesFailureExactly(s: State, e: Entry)
    requires s.Valid() && !s.Asleep() && e.Valid() && e.Result() == OK
    ensures Configured(s, [Unsupported, e]).rslt == OK <==> e.Main? || (e.Settings? && e.c == GyroUserGainConfig)
  {
    hide ConfiguredFrom;
    ReportsExactly(s, [Unsupported, e]);
    assert Reported(false, [Unsupported, e], 0) <==> !e.First();
  }

  /** For a list of an accelerometer and a gyroscope configuration, the one the firmware sets up its sensor
      with, the call's result is the gyroscope's. */
  lemma GyroHasTheLastWord(s: State, accel: AccelConfig, first: bv8, gyro: GyroConfig, second: bv8)
    requires s.Valid()
    ensures Configured(s, [Main(OfAccel(accel, first)), Main(OfGyro(gyro, second))]).rslt == EventResult(second)
  {
    hide EventResult, Applied, WithAps;
    var list := [Main(OfAccel(accel, first)), Main(OfGyro(gyro, second))];
    var t := Next(s, s.Asleep(), list[0]);
    ConfiguredStep(s, s.Asleep(), list, OK);
    assert list[1..] == [list[1]];
    ConfiguredStep(t, s.Asleep(), [list[1]], EventResult(first));
    assert [list[1]][1..] == [];
    ConfiguredNothing(Next(t, s.Asleep(), list[1]), s.Asleep(), EventResult(second));
  }

  // ---------- what no list touches ----------

  /** No configure call moves an enable bit. */
  lemma {:induction false} ConfiguringKeepsEnables(s: State, apsStat: bool, list: seq<Entry>, rslt: Rslt,
      stat: set<Feature>)
    requires s.Valid() && AllValid(list)
    ensures var r := ConfiguredFrom(s, apsStat, list, rslt);
            r.s.Valid() && (Exact(s.pages, stat) <==> Exact(r.s.pages, stat))
    decreases |list|
  {
    hide Applied, Exact, ConfiguredFrom;
    if list != [] {
      ConfiguredStep(s, apsStat, list, rslt);
      var e := list[0];
      if Reached(apsStat, e, rslt) {
        AppliedKeepsEnables(Awake(s, if e.First() then s.Asleep() else apsStat), e, stat);
        ConfiguringKeepsEnables(Next(s, apsStat, e), apsStat, list[1..], e.Result(), stat);
      }
    } else {
      ConfiguredNothing(s, apsStat, rslt);
    }
  }

  /** No configure call touches a bit that is not a configuration's or a step parameter's. */
  lemma {:induction false} ConfiguringKeepsBits(s: State, apsStat: bool, list: seq<Entry>, rslt: Rslt,
      o: Owner, p: nat, w: nat)
    requires s.Valid() && AllValid(list) && (o.OfEnable? || o.OfAxes?) && p < PAGES && w < 8
    ensures var r := ConfiguredFrom(s, apsStat, list, rslt);
            r.s.Valid() && Part(WordAt(r.s.pages[p], w), Cover(o, p, w)) == Part(WordAt(s.pages[p], w), Cover(o, p, w))
    decreases |list|
  {
    hide Applied, Part, WordAt, Cover, OnlyIn, ConfiguredFrom;
    if list != [] {
      ConfiguredStep(s, apsStat, list, rslt);
      var e := list[0];
      if Reached(apsStat, e, rslt) {
        var awake := Awake(s, if e.First() then s.Asleep() else apsStat);
        if e.OnPages() {
          AppliedIsLocal(awake, e);
          OthersKeep(awake.pages, Applied(awake, e).pages, OwnerOf(e), o, p, w);
        }
        ConfiguringKeepsBits(Next(s, apsStat, e), apsStat, list[1..], e.Result(), o, p, w);
      }
    } else {
      ConfiguredNothing(s, apsStat, rslt);
    }
  }

  // ---------- what a list amounts to ----------

  /** The last values a list gives to a configuration, or those it had. */
  function Latest(list: seq<Entry>, c: Config, was: seq<bv16>): seq<bv16>
    requires AllValid(list)
  {
    if list == [] then was
    else
      assert list[0].Valid();
      Latest(list[1..], c, if list[0].Settings? && list[0].c == c then Cut(c, list[0].values) else was)
  }

  function LatestSteps(list: seq<Entry>, was: seq<bv16>): seq<bv16> {
    if list == [] then was
    else LatestSteps(list[1..], if list[0].Params? then list[0].params else was)
  }

  function LatestAccel(list: seq<Entry>, was: AccelConfig): AccelConfig {
    if list == [] then was
    else LatestAccel(list[1..], if list[0].Main? && list[0].m.OfAccel? then CorrectedAccel(list[0].m.accel) else was)
  }

  function LatestGyro(list: seq<Entry>, was: GyroConfig): GyroConfig {
    if list == [] then was
    else LatestGyro(list[1..], if list[0].Main? && list[0].m.OfGyro? then CorrectedGyro(list[0].m.gyro) else was)
  }

  lemma AppliedReadsBack(s: State, e: Entry, c: Config)
    requires s.Valid() && e.Valid()
    ensures ConfigOf(Applied(s, e).pages, c)
            == if e.Settings? && e.c == c then Cut(c, e.values) else ConfigOf(s.pages, c)
    ensures StepsOf(Applied(s, e).pages, 0) == if e.Params? then e.params else StepsOf(s.pages, 0)
  {
    hide OnlyIn, WithConfig, WithSteps, ConfigOf, StepsOf, Cut, Paged, MainWritten;
    if e.OnPages() {
      AppliedIsLocal(s, e);
    }
    match e
    case Settings(g, values) =>
      ConfigReadsBack(s.pages, g, values);
      StepsKept(s.pages, Applied(s, e).pages, OfConfig(g));
      if g != c {
        ConfigKept(s.pages, Applied(s, e).pages, OfConfig(g), c);
      }
    case Params(params) =>
      StepsReadBack(s.pages, 0, params);
      ConfigKept(s.pages, Applied(s, e).pages, OfSteps(0), c);
    case Main(_) =>
    case Unsupported =>
  }

  lemma PlainRegsKept(s: State, t: State)
    requires s.Valid() && t.Valid()
    requires forall a :: ACC_CONF <= a < ACC_CONF + 4 ==> t.regs[a] == s.regs[a]
    ensures AccelOf(t) == AccelOf(s) && GyroOf(t) == GyroOf(s)
  {
    assert t.regs[ACC_CONF..ACC_CONF + 2] == s.regs[ACC_CONF..ACC_CONF + 2];
    assert t.regs[GYR_CONF..GYR_CONF + 2] == s.regs[GYR_CONF..GYR_CONF + 2];
  }

  lemma AppliedPlainReadsBack(s: State, e: Entry)
    requires s.Valid() && e.Valid()
    ensures AccelOf(Applied(s, e)) == if e.Main? && e.m.OfAccel? then CorrectedAccel(e.m.accel) else AccelOf(s)
    ensures GyroOf(Applied(s, e)) == if e.Main? && e.m.OfGyro? then CorrectedGyro(e.m.gyro) else GyroOf(s)
  {
    hide AccelOf, GyroOf, MainWritten, WithConfig, WithSteps;
    if e.Main? {
      MainReadsBack(s, e.m);
    } else {
      PlainRegsKept(s, Applied(s, e));
    }
  }

  lemma NextPlainReadsBack(s: State, apsStat: bool, e: Entry)
    requires s.Valid() && e.Valid()
    ensures var t := Next(s, apsStat, e);
            && AccelOf(t) == (if e.Main? && e.m.OfAccel? then CorrectedAccel(e.m.accel) else AccelOf(s))
            && GyroOf(t) == (if e.Main? && e.m.OfGyro? then CorrectedGyro(e.m.gyro) else GyroOf(s))
  {
    hide AccelOf, GyroOf, Applied;
    var aps := if e.First() then s.Asleep() else apsStat;
    PlainRegsKept(s, Awake(s, aps));
    AppliedPlainReadsBack(Awake(s, aps), e);
    PlainRegsKept(Applied(Awake(s, aps), e), Next(s, apsStat, e));
  }

  /** After a list whose entries all succeed every configuration, the step parameters, the accelerometer and
      the gyroscope are what the list last said, cut to the fields' widths or corrected to their ranges; what
      it did not name is as before. */
  lemma {:induction false} ConfiguredReadsBack(s: State, apsStat: bool, list: seq<Entry>, c: Config)
    requires s.Valid() && AllValid(list) && forall e :: e in list ==> e.Result() == OK
    ensures var r := ConfiguredFrom(s, apsStat, list, OK);
            && r.rslt == OK && r.s.Valid()
            && ConfigOf(r.s.pages, c) == Latest(list, c, ConfigOf(s.pages, c))
            && StepsOf(r.s.pages, 0) == LatestSteps(list, StepsOf(s.pages, 0))
            && AccelOf(r.s) == LatestAccel(list, AccelOf(s)) && GyroOf(r.s) == LatestGyro(list, GyroOf(s))
    decreases |list|
  {
    hide Applied, ConfigOf, StepsOf, Cut, AccelOf, GyroOf, ConfiguredFrom, Next, CorrectedAccel, CorrectedGyro;
    if list != [] {
      var e := list[0];
      assert e in list;
      ConfiguredStep(s, apsStat, list, OK);
      AppliedReadsBack(Awake(s, if e.First() then s.Asleep() else apsStat), e, c);
      NextPlainReadsBack(s, apsStat, e);
      ConfiguredReadsBack(Next(s, apsStat, e), apsStat, list[1..], c);
    } else {
      ConfiguredNothing(s, apsStat, OK);
    }
  }

  /** What an auxiliary query sees: the configuration, and the register of the read address. */
  datatype AuxSeen = AuxSeen(aux: AuxConfig, rd: bv8)

  function AuxSeenIn(s: State, readAddr: bv8): AuxSeen
    requires s.Valid()
  {
    AuxSeen(AuxOf(s, readAddr), s.regs[AUX_RD])
  }

  /** The read address follows the caller's only if the manual byte is zero; in manual mode a query leaves
      its own. */
  function AuxAfter(e: Entry, was: AuxSeen, readAddr: bv8): AuxSeen {
    if e.Main? && e.m.OfAux? then
      var c := e.m.aux;
      AuxSeen(CutAux(c).(readAddr := if c.manualEn == 0 then c.readAddr
                                     else if c.manualEn & 1 == 0 then was.rd
                                     else readAddr),
              if c.manualEn == 0 then c.readAddr else was.rd)
    else was
  }

  function LatestAux(list: seq<Entry>, was: AuxSeen, readAddr: bv8): AuxSeen {
    if list == [] then was else LatestAux(list[1..], AuxAfter(list[0], was, readAddr), readAddr)
  }

  lemma AppliedAux(s: State, e: Entry, readAddr: bv8)
    requires s.Valid() && e.Valid() && e.Result() == OK
    ensures AuxSeenIn(Applied(s, e), readAddr) == AuxAfter(e, AuxSeenIn(s, readAddr), readAddr)
  {
    hide AuxOf, WithConfig, WithSteps, AuxBytes, AccelBytes, GyroBytes, CutAux, EventResult;
    if e.Main? && e.m.OfAux? {
      AuxReadsBack(s, e.m.aux, e.m.busy, readAddr);
      ReadAddressAfter(s, e.m.aux, e.m.busy);
    } else {
      AuxKept(s, Applied(s, e), readAddr);
    }
  }

  lemma NextAux(s: State, apsStat: bool, e: Entry, readAddr: bv8)
    requires s.Valid() && e.Valid() && e.Result() == OK
    ensures AuxSeenIn(Next(s, apsStat, e), readAddr) == AuxAfter(e, AuxSeenIn(s, readAddr), readAddr)
  {
    hide AuxOf, Applied, AuxAfter;
    var aps := if e.First() then s.Asleep() else apsStat;
    AuxKept(s, Awake(s, aps), readAddr);
    AppliedAux(Awake(s, aps), e, readAddr);
    AuxKept(Applied(Awake(s, aps), e), Next(s, apsStat, e), readAddr);
  }

  /** The auxiliary interface, too, is configured as the list last said. */
  lemma {:induction false} ConfiguredAuxReadsBack(s: State, apsStat: bool, list: seq<Entry>, readAddr: bv8)
    requires s.Valid() && AllValid(list) && forall e :: e in list ==> e.Result() == OK
    ensures var r := ConfiguredFrom(s, apsStat, list, OK);
            r.s.Valid() && AuxSeenIn(r.s, readAddr) == LatestAux(list, AuxSeenIn(s, readAddr), readAddr)
    decreases |list|
  {
    hide ConfiguredFrom, Next, AuxSeenIn, AuxAfter;
    if list != [] {
      assert list[0] in list;
      ConfiguredStep(s, apsStat, list, OK);
      NextAux(s, apsStat, list[0], readAddr);
      ConfiguredAuxReadsBack(Next(s, apsStat, list[0]), apsStat, list[1..], readAddr);
    } else {
      ConfiguredNothing(s, apsStat, OK);
    }
  }

  // ---------- the C functions ----------

  lemma EnablesKept(a: seq<Page>, b: seq<Page>, e: Entry, stat: set<Feature>)
    requires Memory(a) && Memory(b) && if e.OnPages() then OnlyIn(OwnerOf(e), a, b) else a == b
    ensures Sound(a, stat) <==> Sound(b, stat)
    ensures Exact(a, stat) <==> Exact(b, stat)
  {
    hide OnlyIn;
    if e.OnPages() {
      SoundUnder(a, b, stat, OwnerOf(e));
    }
  }

  /** `bmi2_set_sensor_config`. */
  method SetMainList(d: Dev, list: seq<Entry>) returns (rslt: Rslt)
    requires d.dev.Valid() && d.readWriteLen >= 2 && AllValid(list)
    modifies d`dev, d`faults, d`readWriteLen, d`apsStatus, d`notes
    ensures d.dev.Valid() && d.readWriteLen >= 2
    ensures Sound(old(d.dev).pages, d.sensEnStat) <==> Sound(d.dev.pages, d.sensEnStat)
    ensures Exact(old(d.dev).pages, d.sensEnStat) <==> Exact(d.dev.pages, d.sensEnStat)
    ensures old(d.faults) == [] && old(d.ApsAgrees()) ==>
      d.faults == [] && Ended(d.dev, rslt) == Listed(old(d.dev), list) && d.ApsAgrees()
  {
    hide Sound, Exact, OnlyIn, Applied, WithAps;
    rslt := OK;
    var apsStat := d.apsStatus;
    ghost var s, fine := d.dev, d.faults == [] && d.ApsAgrees();
    ghost var end := ListedFrom(s, apsStat, list);
    var loop := 0;
    while loop < |list|
      invariant 0 <= loop <= |list| && d.dev.Valid() && d.readWriteLen >= 2 && rslt == OK
      invariant Sound(s.pages, d.sensEnStat) <==> Sound(d.dev.pages, d.sensEnStat)
      invariant Exact(s.pages, d.sensEnStat) <==> Exact(d.dev.pages, d.sensEnStat)
      invariant fine ==> d.faults == [] && d.ApsAgrees() && end == ListedFrom(d.dev, apsStat, list[loop..])
    {
      var e := list[loop];
      assert list[loop..][1..] == list[loop + 1..];
      if apsStat {
        rslt := d.SetAdvPowerSave(false);
      }
      if rslt == OK {
        ghost var awake := d.dev;
        if e.First() {
          rslt := SetEntry(d, e);
          EnablesKept(awake.pages, d.dev.pages, e, d.sensEnStat);
        } else {
          rslt := InvalidSensor;
        }
      }
      if rslt != OK {
        break;
      }
      loop := loop + 1;
    }
    if apsStat && rslt == OK {
      rslt := d.SetAdvPowerSave(true);
    }
  }

  /** One turn of the loop of `bmi270_set_sensor_config`. */
  method ConfigureTurn(d: Dev, e: Entry, apsStat: bool, before: Rslt) returns (rslt: Rslt, stop: bool)
    requires d.dev.Valid() && d.readWriteLen >= 2 && e.Valid()
    modifies d`dev, d`faults, d`readWriteLen, d`apsStatus, d`notes
    ensures d.dev.Valid() && d.readWriteLen >= 2
    ensures Sound(old(d.dev).pages, d.sensEnStat) <==> Sound(d.dev.pages, d.sensEnStat)
    ensures Exact(old(d.dev).pages, d.sensEnStat) <==> Exact(d.dev.pages, d.sensEnStat)
    ensures old(d.faults) == [] && old(d.ApsAgrees()) ==>
      && d.faults == [] && d.ApsAgrees() && stop == !Reached(apsStat, e, before)
      && if stop then d.dev == old(d.dev) && rslt == before
         else d.dev == Next(old(d.dev), apsStat, e) && rslt == e.Result()
  {
    hide Sound, Exact, OnlyIn, Applied, WithAps, Listed;
    rslt, stop := before, false;
    if e.First() {
      ListedOne(d.dev, e);
      rslt := SetMainList(d, [e]);
    } else {
      if apsStat {
        rslt := d.SetAdvPowerSave(false);
      }
      if rslt == OK {
        ghost var awake := d.dev;
        rslt := SetEntry(d, e);
        EnablesKept(awake.pages, d.dev.pages, e, d.sensEnStat);
      } else {
        stop := true;
      }
    }
  }

  /** `bmi270_set_sensor_config`. */
  method SetSensorConfig(d: Dev, list: seq<Entry>) returns (rslt: Rslt)
    requires d.dev.Valid() && d.readWriteLen >= 2 && AllValid(list)
    modifies d`dev, d`faults, d`readWriteLen, d`apsStatus, d`notes
    ensures d.dev.Valid() && d.readWriteLen >= 2
    ensures Sound(old(d.dev).pages, d.sensEnStat) <==> Sound(d.dev.pages, d.sensEnStat)
    ensures Exact(old(d.dev).pages, d.sensEnStat) <==> Exact(d.dev.pages, d.sensEnStat)
    ensures old(d.faults) == [] && old(d.ApsAgrees()) ==>
      d.faults == [] && Ended(d.dev, rslt) == Configured(old(d.dev), list) && d.ApsAgrees()
  {
    hide Sound, Exact, Next, WithAps, ConfiguredFrom, Reached;
    rslt := OK;
    var apsStat := d.apsStatus;
    ghost var s, fine := d.dev, d.faults == [] && d.ApsAgrees();
    ghost var end := ConfiguredFrom(s, apsStat, list, OK);
    var loop, stop := 0, false;
    while loop < |list| && !stop
      invariant 0 <= loop <= |list| && d.dev.Valid() && d.readWriteLen >= 2
      invariant Sound(s.pages, d.sensEnStat) <==> Sound(d.dev.pages, d.sensEnStat)
      invariant Exact(s.pages, d.sensEnStat) <==> Exact(d.dev.pages, d.sensEnStat)
      invariant fine ==> d.faults == [] && d.ApsAgrees()
      invariant fine ==> end == if stop then Ended(d.dev, rslt) else ConfiguredFrom(d.dev, apsStat, list[loop..], rslt)
      decreases |list| - loop, !stop
    {
      assert list[loop..][1..] == list[loop + 1..];
      ConfiguredStep(d.dev, apsStat, list[loop..], rslt);
      rslt, stop := ConfigureTurn(d, list[loop], apsStat, rslt);
      if !stop {
        loop := loop + 1;
      }
    }
    if !stop {
      ConfiguredNothing(d.dev, apsStat, rslt);
    }
    if apsStat && rslt == OK {
      rslt := d.SetAdvPowerSave(true);
    }
  }
}
