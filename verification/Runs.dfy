/** Whole runs of the driver: any calls in any order, on a bus that never fails and on one that may. */
module Runs {
  import opened Device
  import opened Driver
  import opened Pages
  import opened Sensors
  import opened Configs
  import opened Queries
  import opened Outputs
  import opened Remap
  import opened Samples

  /** What a caller, or the device by itself, can do. */
  datatype Op =
    | Enable(list: seq<Choice>) | Disable(list: seq<Choice>)
    | Configure(entries: seq<Entry>) | Fetch(queries: seq<Query>) | Deliver(outputs: seq<Output>)
    | SetAxes(u: User) | GetAxes(out: User) | SetPowerSave(on: bool) | GainUpdateDone
  {
    predicate Valid() {
      (Configure? ==> AllValid(entries)) && (Fetch? ==> AllAskable(queries))
    }

    /** The getter call that reads a page of a sleeping device. */
    predicate ReadsAsleep() {
      Fetch? && LeadsWithSigMotion(queries)
    }
  }

  datatype Whole = Whole(s: State, stat: set<Feature>, remap: AxesRemap)

  /** The device clears the enable bit of the gain update when the update is done. */
  function GainCleared(s: State): (r: State)
    requires s.Valid()
    ensures r.Valid() && r.Asleep() == s.Asleep() && r.touchedAsleep == s.touchedAsleep
  {
    s.(pages := WithEnable(s.pages, GyroGainUpdate, false))
  }

  /** One operation on a bus that never fails. */
  function Step(x: Whole, op: Op): (r: Whole)
    requires x.s.Valid() && op.Valid()
    ensures r.s.Valid() && r.s.touchedAsleep == (x.s.touchedAsleep || (x.s.Asleep() && op.ReadsAsleep()))
  {
    hide LeadsWithSigMotion, ValueOf;
    match op
    case Enable(list) => var v := Switched(View(x.s, x.stat), list, true); x.(s := v.s, stat := v.stat)
    case Disable(list) => var v := Switched(View(x.s, x.stat), list, false); x.(s := v.s, stat := v.stat)
    case Configure(entries) => ConfiguredBracket(x.s, entries); x.(s := Configured(x.s, entries).s)
    case Fetch(queries) => FetchedBracket(x.s, queries); x.(s := Fetched(x.s, queries).s)
    case Deliver(outputs) =>
      DeliveredExactly(x.s, outputs, false);
      x.(s := DeliveredFrom(x.s, x.s.Asleep(), outputs, false).s)
    case SetAxes(u) => if Accepted(u) then x.(s := AxesWritten(x.s, u), remap := RemapAfter(x.remap, u)) else x
    case GetAxes(_) => x.(s := AxesVisited(x.s), remap := RemapRead(x.remap, LocalAt(x.s.pages)))
    case SetPowerSave(on) => x.(s := WithAps(x.s, on))
    case GainUpdateDone => x.(s := GainCleared(x.s))
  }

  predicate AllDoable(ops: seq<Op>) {
    forall op :: op in ops ==> op.Valid()
  }

  function Run(x: Whole, ops: seq<Op>): (r: Whole)
    requires x.s.Valid() && AllDoable(ops)
    ensures r.s.Valid()
    decreases |ops|
  {
    if ops == [] then x else Run(Step(x, ops[0]), ops[1..])
  }

  // ---------- enable bits ----------

  lemma ExactSwitched(v: View, list: seq<Choice>, on: bool)
    requires v.s.Valid() && Exact(v.s.pages, v.stat)
    ensures var r := Switched(v, list, on); Exact(r.s.pages, r.stat)
  {
    hide EnableBitSet, Bracketed, ConfigOf, MainSet;
    if Unknown !in list {
      var r := Switched(v, list, on);
      forall f | f != GyroGainUpdate ensures f in r.stat <==> EnableBitSet(r.s.pages, f) {
        hide Switched;
        SwitchedAsAsked(v, list, on, f, Accel, StepConfig);
      }
    } else {
      assert Switched(v, list, on) == v;
    }
  }

  lemma ExactConfigured(s: State, entries: seq<Entry>, stat: set<Feature>)
    requires s.Valid() && AllValid(entries) && Exact(s.pages, stat)
    ensures Configured(s, entries).s.Valid() && Exact(Configured(s, entries).s.pages, stat)
  {
    hide Exact, ConfiguredFrom;
    ConfiguringKeepsEnables(s, s.Asleep(), entries, OK, stat);
  }

  lemma ExactUnder(a: seq<Page>, b: seq<Page>, stat: set<Feature>)
    requires Memory(a) && Memory(b) && Exact(a, stat)
    requires OnlyIn(OfAxes, a, b) || OnlyIn(OfEnable(GyroGainUpdate), a, b)
    ensures Exact(b, stat)
  {
    hide EnableBitSet, OnlyIn;
    forall f | f != GyroGainUpdate ensures EnableBitSet(a, f) == EnableBitSet(b, f) {
      EnableBitKept(a, b, if OnlyIn(OfAxes, a, b) then OfAxes else OfEnable(GyroGainUpdate), f);
    }
  }

  lemma ExactStep(x: Whole, op: Op)
    requires x.s.Valid() && op.Valid() && Exact(x.s.pages, x.stat)
    ensures var r := Step(x, op); Exact(r.s.pages, r.stat)
  {
    hide Exact, Switched, Configured, OnlyIn, WithAxes, WithEnable, Accepted;
    match op
    case Enable(list) => ExactSwitched(View(x.s, x.stat), list, true);
    case Disable(list) => ExactSwitched(View(x.s, x.stat), list, false);
    case Configure(entries) => ExactConfigured(x.s, entries, x.stat);
    case Fetch(queries) => FetchedAnswers(x.s, queries);
    case Deliver(outputs) => DeliveredExactly(x.s, outputs, false);
    case SetAxes(u) =>
      AxesAreLocal(x.s.pages, u);
      ExactUnder(x.s.pages, WithAxes(x.s.pages, u), x.stat);
    case GetAxes(_) =>
    case SetPowerSave(_) =>
    case GainUpdateDone =>
      EnableReadsBack(x.s.pages, GyroGainUpdate, false);
      ExactUnder(x.s.pages, WithEnable(x.s.pages, GyroGainUpdate, false), x.stat);
  }

  /** Over every run, each feature the driver believes enabled is enabled in the device and the other way
      round. */
  lemma {:induction false} RunKeepsShadow(x: Whole, ops: seq<Op>)
    requires x.s.Valid() && AllDoable(ops) && Exact(x.s.pages, x.stat)
    ensures var r := Run(x, ops); Exact(r.s.pages, r.stat)
    decreases |ops|
  {
    hide Exact, Step;
    if ops != [] {
      ExactStep(x, ops[0]);
      RunKeepsShadow(Step(x, ops[0]), ops[1..]);
    }
  }

  // ---------- power save ----------

  /** The i-th call is a getter call whose first feature is significant motion, and power save is on then. */
  predicate ReadAsleepAt(x: Whole, ops: seq<Op>, i: nat)
    requires x.s.Valid() && AllDoable(ops) && i < |ops|
  {
    ops[i].ReadsAsleep() && Run(x, ops[..i]).s.Asleep()
  }

  lemma ReadAsleepShifted(x: Whole, ops: seq<Op>, i: nat)
    requires x.s.Valid() && AllDoable(ops) && i < |ops|
    ensures ReadAsleepAt(x, ops, i)
            == if i == 0 then ops[0].ReadsAsleep() && x.s.Asleep()
               else ReadAsleepAt(Step(x, ops[0]), ops[1..], i - 1)
  {
    hide Step;
    if i > 0 {
      assert ops[..i][0] == ops[0] && ops[..i][1..] == ops[1..][..i - 1];
    }
  }

  /** A run touches a page in power save exactly if one of its calls is such a getter call; no other call in
      any run ever does. */
  lemma {:induction false} RunTouchesAsleepExactly(x: Whole, ops: seq<Op>)
    requires x.s.Valid() && AllDoable(ops)
    ensures Run(x, ops).s.touchedAsleep
            == (x.s.touchedAsleep || exists i :: 0 <= i < |ops| && ReadAsleepAt(x, ops, i))
    decreases |ops|
  {
    hide Step, ReadAsleepAt;
    if ops != [] {
      var y, rest := Step(x, ops[0]), ops[1..];
      RunTouchesAsleepExactly(y, rest);
      ReadAsleepShifted(x, ops, 0);
      if i :| 0 <= i < |rest| && ReadAsleepAt(y, rest, i) {
        ReadAsleepShifted(x, ops, i + 1);
      }
      if i :| 0 <= i < |ops| && ReadAsleepAt(x, ops, i) {
        ReadAsleepShifted(x, ops, i);
      }
    }
  }

  // ---------- the axes ----------

  /** The driver re-maps samples by what the device holds. */
  predicate AxesAgree(m: seq<Page>, remap: AxesRemap)
    requires Memory(m)
  {
    RemapRead(remap, LocalAt(m)) == remap
  }

  lemma LocalKept(a: seq<Page>, b: seq<Page>)
    requires Memory(a) && Memory(b)
    requires Part(WordAt(a[1], 2), Cover(OfAxes, 1, 2)) == Part(WordAt(b[1], 2), Cover(OfAxes, 1, 2))
    ensures LocalAt(a) == LocalAt(b)
  {
  }

  lemma SwitchedKeepsAxes(v: View, list: seq<Choice>, on: bool)
    requires v.s.Valid()
    ensures LocalAt(Switched(v, list, on).s.pages) == LocalAt(v.s.pages)
  {
    hide LocalAt, SwitchUpto, WithMains, Cover, Part, WordAt;
    var feats := FeaturesIn(list);
    if Unknown !in list && feats != {} {
      var w := View(WithMains(v.s, MainsIn(list), on), v.stat);
      var awake := View(if w.s.Asleep() then WithAps(w.s, false) else w.s, w.stat);
      SwitchingKeepsBits(awake, feats, on, 10, OfAxes, 1, 2);
      LocalKept(SwitchUpto(awake, feats, on, 10).s.pages, v.s.pages);
    }
  }

  lemma ConfiguredKeepsAxes(s: State, entries: seq<Entry>)
    requires s.Valid() && AllValid(entries)
    ensures Configured(s, entries).s.Valid() && LocalAt(Configured(s, entries).s.pages) == LocalAt(s.pages)
  {
    hide LocalAt, ConfiguredFrom, Cover, Part, WordAt;
    ConfiguringKeepsBits(s, s.Asleep(), entries, OK, OfAxes, 1, 2);
    LocalKept(ConfiguredFrom(s, s.Asleep(), entries, OK).s.pages, s.pages);
  }

  lemma ReadingSettles(was: AxesRemap, l: Local)
    ensures RemapRead(RemapRead(was, l), l) == RemapRead(was, l)
  {
  }

  lemma AxesStep(x: Whole, op: Op)
    requires x.s.Valid() && op.Valid() && AxesAgree(x.s.pages, x.remap)
    requires op.SetAxes? && Accepted(op.u) ==> OneAxisEach(op.u)
    ensures var r := Step(x, op); AxesAgree(r.s.pages, r.remap)
  {
    hide LocalAt, RemapRead, RemapAfter, Switched, Configured, WithAxes, WithEnable, Accepted, OneAxisEach,
        OnlyIn, Part, WordAt, Cover;
    match op
    case Enable(list) => SwitchedKeepsAxes(View(x.s, x.stat), list, true);
    case Disable(list) => SwitchedKeepsAxes(View(x.s, x.stat), list, false);
    case Configure(entries) => ConfiguredKeepsAxes(x.s, entries);
    case Fetch(queries) => FetchedAnswers(x.s, queries);
    case Deliver(outputs) => DeliveredExactly(x.s, outputs, false);
    case SetAxes(u) =>
      if Accepted(u) {
        AxesReadBack(x.s.pages, u, u, x.remap, RemapAfter(x.remap, u));
      }
    case GetAxes(_) => ReadingSettles(x.remap, LocalAt(x.s.pages));
    case SetPowerSave(_) =>
    case GainUpdateDone =>
      EnableReadsBack(x.s.pages, GyroGainUpdate, false);
      OthersKeep(x.s.pages, WithEnable(x.s.pages, GyroGainUpdate, false), OfEnable(GyroGainUpdate), OfAxes, 1, 2);
      LocalKept(WithEnable(x.s.pages, GyroGainUpdate, false), x.s.pages);
  }

  /** Over every run whose accepted re-maps name one axis each, the driver re-maps samples by what the
      device holds. */
  lemma {:induction false} RunKeepsAxes(x: Whole, ops: seq<Op>)
    requires x.s.Valid() && AllDoable(ops) && AxesAgree(x.s.pages, x.remap)
    requires forall op :: op in ops ==> op.SetAxes? && Accepted(op.u) ==> OneAxisEach(op.u)
    ensures var r := Run(x, ops); AxesAgree(r.s.pages, r.remap)
    decreases |ops|
  {
    hide AxesAgree, Step, Accepted, OneAxisEach;
    if ops != [] {
      AxesStep(x, ops[0]);
      RunKeepsAxes(Step(x, ops[0]), ops[1..]);
    }
  }

  // ---------- the driver itself ----------

  lemma SoundUnderAxes(a: seq<Page>, b: seq<Page>, stat: set<Feature>)
    requires Memory(a) && Memory(b) && OnlyIn(OfAxes, a, b)
    ensures Sound(a, stat) <==> Sound(b, stat)
  {
    SoundUnder(a, b, stat, OfAxes);
  }

  lemma SoundWithoutGain(m: seq<Page>, stat: set<Feature>)
    requires Memory(m) && Sound(m, stat)
    ensures Sound(WithEnable(m, GyroGainUpdate, false), stat)
  {
  }

  method Do(d: Dev, op: Op)
    requires d.dev.Valid() && d.readWriteLen >= 2 && op.Valid()
    modifies d
    ensures d.dev.Valid() && d.readWriteLen >= 2
    ensures Sound(old(d.dev).pages, old(d.sensEnStat)) ==> Sound(d.dev.pages, d.sensEnStat)
    ensures old(d.faults) == [] && old(d.ApsAgrees()) ==>
      && d.faults == [] && d.ApsAgrees()
      && Whole(d.dev, d.sensEnStat, d.remap) == Step(Whole(old(d.dev), old(d.sensEnStat), old(d.remap)), op)
  {
    hide Sound, Exact, Switched, Configured, AxesWritten, AxesVisited, RemapRead, RemapAfter, WithAps,
        Accepted, WithEnable;
    var rslt;
    match op
    case Enable(list) => rslt := SwitchList(d, list, true);
    case Disable(list) => rslt := SwitchList(d, list, false);
    case Configure(entries) => rslt := SetSensorConfig(d, entries);
    case Fetch(queries) =>
      var answers;
      rslt, answers := GetSensorConfig(d, queries);
    case Deliver(outputs) =>
      var values;
      rslt, values := GetOutputs(d, outputs);
    case SetAxes(u) =>
      rslt := SetRemapAxes(d, u);
      SoundUnderAxes(old(d.dev).pages, d.dev.pages, d.sensEnStat);
    case GetAxes(out) =>
      var u;
      rslt, u := GetRemapAxes(d, out);
    case SetPowerSave(on) => rslt := d.SetAdvPowerSave(on);
    case GainUpdateDone =>
      if Sound(d.dev.pages, d.sensEnStat) {
        SoundWithoutGain(d.dev.pages, d.sensEnStat);
      }
      d.dev := GainCleared(d.dev);
  }

  /** Any calls in any order.  Whatever the bus does, a feature the driver believes enabled is; if the bus
      never fails, the run is the one the lemmas above are about, and the driver's power-save flag is the
      device's throughout. */
  method DoAll(d: Dev, ops: seq<Op>)
    requires d.dev.Valid() && d.readWriteLen >= 2 && AllDoable(ops)
    modifies d
    ensures d.dev.Valid() && d.readWriteLen >= 2
    ensures Sound(old(d.dev).pages, old(d.sensEnStat)) ==> Sound(d.dev.pages, d.sensEnStat)
    ensures old(d.faults) == [] && old(d.ApsAgrees()) ==>
      && d.faults == [] && d.ApsAgrees()
      && Whole(d.dev, d.sensEnStat, d.remap) == Run(Whole(old(d.dev), old(d.sensEnStat), old(d.remap)), ops)
  {
    hide Sound, Step;
    ghost var x, fine := Whole(d.dev, d.sensEnStat, d.remap), d.faults == [] && d.ApsAgrees();
    for i := 0 to |ops|
      invariant d.dev.Valid() && d.readWriteLen >= 2
      invariant Sound(old(d.dev).pages, old(d.sensEnStat)) ==> Sound(d.dev.pages, d.sensEnStat)
      invariant fine ==> d.faults == [] && d.ApsAgrees()
      invariant fine ==> Run(x, ops) == Run(Whole(d.dev, d.sensEnStat, d.remap), ops[i..])
    {
      assert ops[i..][1..] == ops[i + 1..];
      Do(d, ops[i]);
    }
  }
}
