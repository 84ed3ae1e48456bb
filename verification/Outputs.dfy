/** Reading what the features put out: `bmi270_get_feature_data`, `bmi2_get_feature_data` and the getters
    they call.  Everything lies in page 0. */
module Outputs {
  import opened Bits
  import opened Device
  import opened Driver
  import opened Pages
  import opened Configs
  import opened Queries

  /** What a caller asks for; `NoOutput` is a type neither call knows, `low` if it is one of the first four,
      before which they leave power save alone. */
  datatype Output =
    | StepCount | Activity | Gesture | NvmStatus | VfrmStatus | GainStatus | CrossSense | NoOutput(low: bool)
  {
    /** Handed to `bmi2_get_feature_data`. */
    predicate First() {
      GainStatus? || CrossSense?
    }

    predicate Low() {
      NoOutput? && low
    }

    /** Whether `bmi2_get_feature_data`, or `bmi270_get_feature_data`, knows it. */
    predicate Known(base: bool) {
      if base then First() else !NoOutput?
    }
  }

  datatype Value =
    | Nothing
    | Count(count: bv32)
    | Plainly(byte: bv8)
    | Nvm(load: bv8, prog: bv8, erase: bv8, exceed: bv8, privil: bv8)
    | Vfrm(lock: bv8, write: bv8, fatal: bv8)
    | Gain(satX: bv8, satY: bv8, satZ: bv8, trigger: bv8)
    | Cross(coefficient: int)

  /** Four bytes, the lowest first. */
  function LittleEndian(a: bv8, b: bv8, c: bv8, d: bv8): bv32 {
    (a as bv32) | ((b as bv32) << 8) | ((c as bv32) << 16) | ((d as bv32) << 24)
  }

  /** `get_gyro_cross_sense`: seven bits, sign-extended. */
  function CrossSenseOf(b: bv8): (v: int)
    ensures -64 <= v <= 63
  {
    var low := b & 0x7F;
    SevenBits(low);
    if low & 0x40 != 0 then low as int - 128 else low as int
  }

  lemma SevenBits(b: bv8)
    ensures b & 0x80 == 0 && b & 0x40 != 0 ==> 64 <= b as int < 128
    ensures b & 0x80 == 0 && b & 0x40 == 0 ==> b as int < 64
  {
    assert b & 0x80 == 0 && b & 0x40 != 0 ==> 64 <= b < 128;
    assert b & 0x80 == 0 && b & 0x40 == 0 ==> b < 64;
  }

  /** What page 0 says. */
  function Decoded(page: Page, q: Output): Value {
    match q
    case StepCount => Count(LittleEndian(page[0], page[1], page[2], page[3]))
    case Activity => Plainly(page[4])
    case Gesture => Plainly(page[6])
    case GainStatus =>
      Gain(GetByteBits(page[8], 0x01, 0), GetByteBits(page[8], 0x02, 1), GetByteBits(page[8], 0x04, 2),
           GetByteBits(page[8], 0x38, 3))
    case CrossSense => Cross(CrossSenseOf(page[12]))
    case NvmStatus =>
      Nvm(GetByteBits(page[15], 0x01, 0), GetByteBits(page[15], 0x02, 1), GetByteBits(page[15], 0x04, 2),
          GetByteBits(page[15], 0x08, 3), GetByteBits(page[15], 0x10, 4))
    case VfrmStatus =>
      Vfrm(GetByteBits(page[15], 0x20, 5), GetByteBits(page[15], 0x40, 6), GetByteBits(page[15], 0x80, 7))
    case NoOutput(_) => Nothing
  }

  /** The values put together again give the bytes of page 0 they come from: the step count the first four, the
      lowest first, then activity at 4, gesture at 6, the gain update's status at 8, cross-axis sensitivity
      modulo 128 at 12, and at 15 the states of the non-volatile memory and, above them, of the frames. */
  lemma ValuesAre(page: Page)
    ensures Decoded(page, StepCount)
            == Count(page[0] as bv32 + 0x100 * page[1] as bv32 + 0x1_0000 * page[2] as bv32
                     + 0x100_0000 * page[3] as bv32)
    ensures Decoded(page, Activity) == Plainly(page[4]) && Decoded(page, Gesture) == Plainly(page[6])
    ensures var g := Decoded(page, GainStatus);
            && g.satX < 2 && g.satY < 2 && g.satZ < 2 && g.trigger < 8
            && g.satX + 2 * g.satY + 4 * g.satZ + 8 * g.trigger == page[8] & 0x3F
    ensures var n, f := Decoded(page, NvmStatus), Decoded(page, VfrmStatus);
            && n.load < 2 && n.prog < 2 && n.erase < 2 && n.exceed < 2 && n.privil < 2
            && f.lock < 2 && f.write < 2 && f.fatal < 2
            && n.load + 2 * n.prog + 4 * n.erase + 8 * n.exceed + 16 * n.privil
               + 32 * f.lock + 64 * f.write + 128 * f.fatal == page[15]
    ensures (Decoded(page, CrossSense).coefficient - page[12] as int) % 128 == 0
  {
    hide CrossSenseOf;
    Assembled(page[0], page[1], page[2], page[3]);
    SensitivityIs(page[12]);
  }

  lemma Assembled(a: bv8, b: bv8, c: bv8, d: bv8)
    ensures LittleEndian(a, b, c, d)
            == a as bv32 + 0x100 * b as bv32 + 0x1_0000 * c as bv32 + 0x100_0000 * d as bv32
  {
  }

  lemma SensitivityIs(b: bv8)
    ensures (CrossSenseOf(b) - b as int) % 128 == 0
  {
    SevenBits(b & 0x7F);
    LowSeven(b);
  }

  lemma LowSeven(b: bv8)
    ensures b as int == (b & 0x7F) as int + if b & 0x80 != 0 then 128 else 0
  {
  }

  function ValueOf(pages: seq<Page>, q: Output): Value
    requires Memory(pages)
  {
    Decoded(pages[0], q)
  }

  // ---------- the lists, on a bus that never fails ----------

  /** `values` belong to the entries that were reached, a prefix of the list. */
  datatype Delivery = Delivery(s: State, rslt: Rslt, values: seq<Value>)

  function Along(v: Value, r: Delivery): Delivery {
    r.(values := [v] + r.values)
  }

  /** After one entry: power save off, page 0 read, power save on again; all of it inside the loop. */
  function OutputTurn(s: State, apsStat: bool): (t: State)
    requires s.Valid() && (s.Asleep() ==> apsStat)
    ensures t.Valid() && t.Asleep() == apsStat && t.touchedAsleep == s.touchedAsleep && SameAnswers(s, t)
  {
    hide WithAps;
    var t := Paged(Awake(s, apsStat), 0, s.pages);
    if apsStat then WithAps(t, true) else t
  }

  function DeliveredFrom(s: State, apsStat: bool, list: seq<Output>, base: bool): (r: Delivery)
    requires s.Valid() && (s.Asleep() ==> apsStat)
    ensures r.s.Valid()
    decreases |list|
  {
    if list == [] then Delivery(s, OK, [])
    else if !list[0].Known(base) then Delivery(Awake(s, apsStat && !list[0].Low()), InvalidSensor, [])
    else Along(ValueOf(s.pages, list[0]), DeliveredFrom(OutputTurn(s, apsStat), apsStat, list[1..], base))
  }

  lemma DeliveryStep(s: State, apsStat: bool, list: seq<Output>, base: bool)
    requires s.Valid() && (s.Asleep() ==> apsStat) && list != []
    ensures DeliveredFrom(s, apsStat, list, base)
            == if list[0].Known(base) then
                 Along(ValueOf(s.pages, list[0]), DeliveredFrom(OutputTurn(s, apsStat), apsStat, list[1..], base))
               else Delivery(Awake(s, apsStat && !list[0].Low()), InvalidSensor, [])
  {
    hide OutputTurn, Decoded;
  }

  lemma DeliveryNothing(s: State, apsStat: bool, base: bool)
    requires s.Valid() && (s.Asleep() ==> apsStat)
    ensures DeliveredFrom(s, apsStat, [], base) == Delivery(s, OK, [])
  {
  }

  /** The values are those the pages hold, all of them if the call succeeds, which it does exactly if it knows
      every entry; no page changes and none is touched in power save.  Success leaves power save as it was; a
      failure, at the first unknown entry, leaves it on only if that is one of the types before which the call
      leaves it alone. */
  lemma {:induction false} DeliveredExactly(s: State, list: seq<Output>, base: bool)
    requires s.Valid()
    ensures var r := DeliveredFrom(s, s.Asleep(), list, base);
            && r.s.touchedAsleep == s.touchedAsleep && SameAnswers(s, r.s) && |r.values| <= |list|
            && (forall i :: 0 <= i < |r.values| ==> list[i].Known(base) && r.values[i] == ValueOf(s.pages, list[i]))
            && (r.rslt == OK <==> forall q :: q in list ==> q.Known(base))
            && if r.rslt == OK then |r.values| == |list| && r.s.Asleep() == s.Asleep()
               else |r.values| < |list| && !list[|r.values|].Known(base)
                    && r.s.Asleep() == (s.Asleep() && list[|r.values|].Low())
    decreases |list|
  {
    hide Decoded, SameAnswers, DeliveredFrom, OutputTurn, Output.Known, WithAps;
    if list == [] {
      DeliveryNothing(s, s.Asleep(), base);
      SameItself(s);
    } else {
      DeliveryStep(s, s.Asleep(), list, base);
      assert forall p :: p in list <==> p == list[0] || p in list[1..];
      if list[0].Known(base) {
        var t := OutputTurn(s, s.Asleep());
        DeliveredExactly(t, list[1..], base);
        SamePages(s, t);
        SameIsTransitive(s, t, DeliveredFrom(t, s.Asleep(), list[1..], base).s);
      } else {
        AwakeSame(s, s.Asleep() && !list[0].Low());
      }
    }
  }

  /** The base driver knows two outputs and the sensor's own call all seven. */
  lemma KnownExactly(s: State, q: Output, base: bool)
    requires s.Valid()
    ensures DeliveredFrom(s, s.Asleep(), [q], base).rslt == OK
       <==> if base then q == GainStatus || q == CrossSense else !q.NoOutput?
  {
    hide Decoded, SameAnswers, DeliveredFrom, OutputTurn, WithAps;
    DeliveredExactly(s, [q], base);
    assert q in [q];
  }

  lemma SamePages(s: State, t: State)
    requires SameAnswers(s, t)
    ensures s.Valid() && t.Valid() && s.pages == t.pages
  {
  }

  // ---------- the C functions ----------

  /** `get_step_counter_output` and its kind: page 0 read and decoded. */
  method ReadOutput(d: Dev, q: Output) returns (rslt: Rslt, value: Value)
    requires d.dev.Valid() && d.readWriteLen >= 2
    modifies d`dev, d`faults, d`readWriteLen, d`apsStatus
    ensures d.dev.Valid() && d.apsStatus == old(d.apsStatus) && d.readWriteLen >= 2 && d.dev.pages == old(d.dev).pages
    ensures value == if rslt == OK then ValueOf(old(d.dev).pages, q) else Nothing
    ensures old(d.faults) == [] ==> d.faults == [] && rslt == OK && d.dev == Paged(old(d.dev), 0, old(d.dev).pages)
  {
    hide Decoded, WithPage, Paged;
    PageVisited(d.dev, 0);
    ZeroPage();
    var feat;
    rslt, feat := d.GetFeatConfig(0);
    value := if rslt == OK then Decoded(feat, q) else Nothing;
  }

  lemma ZeroPage()
    ensures (0 as bv8) as nat == 0
  {
  }

  /** One turn of the loop of `bmi2_get_feature_data`, or of that of `bmi270_get_feature_data` for an entry it
      does not hand on.  If switching power save off fails
      the entry is not read, and the loop goes on. */
  method OutputTurnOf(d: Dev, q: Output, apsStat: bool, before: Rslt, base: bool)
    returns (rslt: Rslt, stop: bool, value: Value)
    requires d.dev.Valid() && d.readWriteLen >= 2
    modifies d`dev, d`faults, d`readWriteLen, d`apsStatus
    ensures d.dev.Valid() && d.readWriteLen >= 2 && d.dev.pages == old(d.dev).pages
    ensures value == Nothing || value == ValueOf(d.dev.pages, q)
    ensures old(d.faults) == [] && old(d.ApsAgrees()) && (old(d.dev).Asleep() ==> apsStat)
            && (before == OK || (apsStat && !q.Low())) ==>
      && d.faults == [] && d.ApsAgrees() && stop == !q.Known(base)
      && if stop then rslt == InvalidSensor && d.dev == Awake(old(d.dev), apsStat && !q.Low())
         else rslt == OK && value == ValueOf(d.dev.pages, q) && d.dev == OutputTurn(old(d.dev), apsStat)
    ensures Fails(old(d.faults)) && apsStat && !q.Low() ==>
      && rslt == ComFail && !stop && value == Nothing && d.dev == old(d.dev)
      && d.faults == Later(old(d.faults)) && d.apsStatus == old(d.apsStatus)
  {
    hide Decoded, WithAps, Paged, SameAnswers;
    rslt, stop, value := before, false, Nothing;
    if !q.Low() && apsStat {
      rslt := d.SetAdvPowerSave(false);
    }
    if rslt == OK {
      if q.Known(base) {
        rslt, value := ReadOutput(d, q);
      } else {
        rslt := InvalidSensor;
      }
      if rslt != OK {
        return rslt, true, value;
      }
    }
    if apsStat && rslt == OK {
      rslt := d.SetAdvPowerSave(true);
    }
  }

  predicate AllTrue(pages: seq<Page>, list: seq<Output>, values: seq<Value>)
    requires Memory(pages)
  {
    |values| <= |list| && forall i :: 0 <= i < |values| ==> values[i] == Nothing || values[i] == ValueOf(pages, list[i])
  }

  function After(values: seq<Value>, r: Delivery): Delivery {
    r.(values := values + r.values)
  }

  lemma AfterOne(before: seq<Value>, v: Value, r: Delivery)
    ensures After(before + [v], r) == After(before, Along(v, r))
  {
    assert before + [v] + r.values == before + ([v] + r.values);
  }

  lemma AfterNone(values: seq<Value>, r: Delivery)
    ensures After([], r) == r
    ensures r.values == [] ==> After(values, r) == r.(values := values)
  {
    assert [] + r.values == r.values;
  }

  /** `bmi2_get_feature_data`.  Each value is true or missing, whatever the bus does.  If the very first access
      fails with power save on, the first entry goes unread and the rest is delivered as if nothing had
      happened. */
  method GetBaseOutputs(d: Dev, list: seq<Output>) returns (rslt: Rslt, values: seq<Value>)
    requires d.dev.Valid() && d.readWriteLen >= 2
    modifies d`dev, d`faults, d`readWriteLen, d`apsStatus
    ensures d.dev.Valid() && d.readWriteLen >= 2 && d.dev.pages == old(d.dev).pages
    ensures AllTrue(d.dev.pages, list, values)
    ensures old(d.faults) == [] && old(d.ApsAgrees()) ==>
      && d.faults == [] && d.ApsAgrees()
      && Delivery(d.dev, rslt, values) == DeliveredFrom(old(d.dev), old(d.dev).Asleep(), list, true)
    ensures old(d.faults) == [true] && old(d.ApsAgrees()) && old(d.dev).Asleep()
            && |list| >= 2 && !list[0].Low() && !list[1].Low() ==>
      && d.faults == [] && d.ApsAgrees()
      && Delivery(d.dev, rslt, values) == Along(Nothing, DeliveredFrom(old(d.dev), true, list[1..], true))
  {
    hide Decoded, WithAps, OutputTurn, DeliveredFrom, After, Along, SameAnswers;
    rslt, values := OK, [];
    var apsStat := d.apsStatus;
    ghost var s, agrees := d.dev, d.ApsAgrees();
    ghost var fine := agrees && d.faults == [];
    ghost var lost := agrees && d.faults == [true] && s.Asleep() && |list| >= 2 && !list[0].Low() && !list[1].Low();
    ghost var end := if fine then DeliveredFrom(s, apsStat, list, true)
                     else if lost then Along(Nothing, DeliveredFrom(s, true, list[1..], true))
                     else Delivery(s, OK, []);
    AfterNone([], end);
    var loop, stop := 0, false;
    while loop < |list| && !stop
      invariant 0 <= loop <= |list| && d.dev.Valid() && d.readWriteLen >= 2 && d.dev.pages == s.pages
      invariant AllTrue(s.pages, list, values) && (if stop then |values| <= loop else |values| == loop)
      invariant lost && loop == 0 ==> d.dev == s && d.faults == [true] && d.ApsAgrees() && values == [] && !stop
      invariant fine || (lost && loop > 0) ==> d.faults == [] && d.ApsAgrees() && (d.dev.Asleep() ==> apsStat)
      invariant fine && !stop ==> rslt == OK
      invariant lost && loop > 1 && !stop ==> rslt == OK
      invariant fine || (lost && loop > 0) ==>
        end == After(values, if stop then Delivery(d.dev, rslt, [])
                             else DeliveredFrom(d.dev, apsStat, list[loop..], true))
      decreases |list| - loop, !stop
    {
      ghost var t, was := d.dev, values;
      var q, value := list[loop], Nothing;
      assert list[loop..][1..] == list[loop + 1..];
      if fine || (lost && loop > 0) {
        DeliveryStep(t, apsStat, list[loop..], true);
      }
      rslt, stop, value := OutputTurnOf(d, q, apsStat, rslt, true);
      if !stop {
        values := values + [value];
        loop := loop + 1;
        if lost && loop == 1 {
          AfterOne([], Nothing, DeliveredFrom(s, true, list[1..], true));
          AfterNone([], end);
        } else if fine || lost {
          AfterOne(was, value, DeliveredFrom(d.dev, apsStat, list[loop..], true));
        }
      }
    }
    if !stop && (fine || lost) {
      DeliveryNothing(d.dev, apsStat, true);
    }
    AfterNone(values, Delivery(d.dev, rslt, []));
  }

  /** So on a sleeping device a call for two known entries whose first bus access fails succeeds without the
      first value. */
  method FirstGoesUnread(d: Dev, first: Output, second: Output) returns (rslt: Rslt, values: seq<Value>)
    requires d.dev.Valid() && d.readWriteLen >= 2 && d.faults == [true] && d.ApsAgrees() && d.dev.Asleep()
    requires first.First() && second.First()
    modifies d`dev, d`faults, d`readWriteLen, d`apsStatus
    ensures rslt == OK && values == [Nothing, ValueOf(old(d.dev).pages, second)]
  {
    hide Decoded, DeliveredFrom, SameAnswers;
    DeliveredExactly(d.dev, [second], true);
    rslt, values := GetBaseOutputs(d, [first, second]);
    assert [first, second][1..] == [second];
  }

  lemma OneDelivered(s: State, q: Output)
    requires s.Valid() && q.First()
    ensures DeliveredFrom(s, s.Asleep(), [q], true)
            == Delivery(OutputTurn(s, s.Asleep()), OK, [ValueOf(s.pages, q)])
  {
    hide Decoded, OutputTurn;
    var t := OutputTurn(s, s.Asleep());
    DeliveryStep(s, s.Asleep(), [q], true);
    assert [q][1..] == [] && DeliveredFrom(t, s.Asleep(), [], true) == Delivery(t, OK, []);
    assert [ValueOf(s.pages, q)] + [] == [ValueOf(s.pages, q)];
  }

  /** Switching power save on twice is switching it on once. */
  lemma SwitchedOnAgain(s: State)
    requires s.Valid() && s.Asleep()
    ensures OutputTurn(s, true).Asleep() && WithAps(OutputTurn(s, true), true) == OutputTurn(s, true)
  {
    TwiceOn(Paged(Awake(s, true), 0, s.pages));
  }

  lemma TwiceOn(s: State)
    requires s.Valid()
    ensures WithAps(WithAps(s, true), true) == WithAps(s, true)
  {
    SameBit(s.regs[PWR_CONF]);
  }

  lemma SameBit(b: bv8)
    ensures (((b & 0xFE) | 1) & 0xFE) | 1 == (b & 0xFE) | 1
  {
  }

  /** One turn of the loop of `bmi270_get_feature_data`. */
  method FeatureTurn(d: Dev, q: Output, apsStat: bool, before: Rslt) returns (rslt: Rslt, stop: bool, value: Value)
    requires d.dev.Valid() && d.readWriteLen >= 2
    modifies d`dev, d`faults, d`readWriteLen, d`apsStatus
    ensures d.dev.Valid() && d.readWriteLen >= 2 && d.dev.pages == old(d.dev).pages
    ensures value == Nothing || value == ValueOf(d.dev.pages, q)
    ensures old(d.faults) == [] && old(d.ApsAgrees()) && old(d.dev).Asleep() == apsStat && before == OK ==>
      && d.faults == [] && d.ApsAgrees() && stop == !q.Known(false)
      && if stop then rslt == InvalidSensor && d.dev == Awake(old(d.dev), apsStat && !q.Low())
         else rslt == OK && value == ValueOf(d.dev.pages, q) && d.dev == OutputTurn(old(d.dev), apsStat)
  {
    hide Decoded, WithAps, OutputTurn, DeliveredFrom, SameAnswers;
    if q.First() {
      OneDelivered(d.dev, q);
      if d.dev.Asleep() {
        SwitchedOnAgain(d.dev);
      }
      var values;
      rslt, values := GetBaseOutputs(d, [q]);
      stop, value := false, if values == [] then Nothing else values[0];
      if apsStat && rslt == OK {
        rslt := d.SetAdvPowerSave(true);
      }
    } else {
      rslt, stop, value := OutputTurnOf(d, q, apsStat, before, false);
    }
  }

  /** `bmi270_get_feature_data`. */
  method GetOutputs(d: Dev, list: seq<Output>) returns (rslt: Rslt, values: seq<Value>)
    requires d.dev.Valid() && d.readWriteLen >= 2
    modifies d`dev, d`faults, d`readWriteLen, d`apsStatus
    ensures d.dev.Valid() && d.readWriteLen >= 2 && d.dev.pages == old(d.dev).pages
    ensures AllTrue(d.dev.pages, list, values)
    ensures old(d.faults) == [] && old(d.ApsAgrees()) ==>
      && d.faults == [] && d.ApsAgrees()
      && Delivery(d.dev, rslt, values) == DeliveredFrom(old(d.dev), old(d.dev).Asleep(), list, false)
  {
    hide Decoded, WithAps, OutputTurn, DeliveredFrom, After, Along, SameAnswers;
    rslt, values := OK, [];
    var apsStat := d.apsStatus;
    ghost var s, fine := d.dev, d.ApsAgrees() && d.faults == [];
    ghost var end := if fine then DeliveredFrom(s, apsStat, list, false) else Delivery(s, OK, []);
    AfterNone([], end);
    var loop, stop := 0, false;
    while loop < |list| && !stop
      invariant 0 <= loop <= |list| && d.dev.Valid() && d.readWriteLen >= 2 && d.dev.pages == s.pages
      invariant AllTrue(s.pages, list, values) && (if stop then |values| <= loop else |values| == loop)
      invariant fine ==> d.faults == [] && d.ApsAgrees()
      invariant fine && !stop ==> rslt == OK && d.dev.Asleep() == apsStat
      invariant fine ==>
        end == After(values, if stop then Delivery(d.dev, rslt, [])
                             else DeliveredFrom(d.dev, apsStat, list[loop..], false))
      decreases |list| - loop, !stop
    {
      ghost var t, was := d.dev, values;
      var q, value := list[loop], Nothing;
      assert list[loop..][1..] == list[loop + 1..];
      if fine {
        DeliveryStep(t, apsStat, list[loop..], false);
      }
      rslt, stop, value := FeatureTurn(d, q, apsStat, rslt);
      if !stop {
        values := values + [value];
        loop := loop + 1;
        if fine {
          AfterOne(was, value, DeliveredFrom(d.dev, apsStat, list[loop..], false));
        }
      }
    }
    if !stop && fine {
      DeliveryNothing(d.dev, apsStat, false);
    }
    AfterNone(values, Delivery(d.dev, rslt, []));
  }
}
