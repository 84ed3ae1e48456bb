/** Reading configurations back: `bmi270_get_sensor_config`, `bmi2_get_sensor_config` and the getters they
    call. */
module Queries {
  import opened Device
  import opened Driver
  import opened Pages
  import opened Steps
  import opened Features
  import opened MainConfigs
  import opened Configs

  /** What a caller asks for.  The step parameters go into the caller's array; in manual mode the caller's
      read address of the auxiliary interface stays. */
  datatype Query =
    | AskConfig(c: Config) | AskSteps(taken: seq<bv16>) | AskAccel | AskGyro | AskAux(readAddr: bv8) | AskUnknown
  {
    predicate Valid() {
      AskSteps? ==> |taken| == N_PARAMS
    }

    /** Handed to `bmi2_get_sensor_config`. */
    predicate First() {
      AskAccel? || AskGyro? || AskAux? || (AskConfig? && c == GyroUserGainConfig)
    }

    /** The types below BMI2_MAIN_SENS_MAX_NUM, the auxiliary one apart, before which the getters leave
        power save alone.  Significant motion is one of them: its type is 3. */
    predicate Low() {
      AskAccel? || AskGyro? || (AskConfig? && c == SigMotionConfig)
    }
  }

  datatype Answer =
    | Unread | ConfigIs(values: seq<bv16>) | StepsAre(params: seq<bv16>)
    | AccelIs(accel: AccelConfig) | GyroIs(gyro: GyroConfig) | AuxIs(aux: AuxConfig)

  function AnswerTo(s: State, q: Query): Answer
    requires s.Valid()
  {
    match q
    case AskConfig(c) => ConfigIs(ConfigOf(s.pages, c))
    case AskSteps(_) => StepsAre(StepsOf(s.pages, 0))
    case AskAccel => AccelIs(AccelOf(s))
    case AskGyro => GyroIs(GyroOf(s))
    case AskAux(readAddr) => AuxIs(AuxOf(s, readAddr))
    case AskUnknown => Unread
  }

  /** The state after a getter, power save aside. */
  function Looked(s: State, q: Query): (r: State)
    requires s.Valid()
    ensures r.Valid() && r.Asleep() == s.Asleep() && r.pages == s.pages
    ensures r.touchedAsleep == (s.touchedAsleep || (s.Asleep() && (q.AskConfig? || q.AskSteps?)))
  {
    match q
    case AskConfig(c) => Paged(s, PageOf(ConfigPage(c)), s.pages)
    case AskSteps(_) => Paged(s, PageOf(END_PAGE), s.pages)
    case _ => s
  }

  function ResultOf(q: Query): Rslt {
    if q.AskUnknown? then InvalidSensor else OK
  }

  /** Everything an answer depends on is the same. */
  ghost predicate SameAnswers(s: State, t: State) {
    s.Valid() && t.Valid() && t.pages == s.pages && forall a :: 0 <= a < 128 && IsPlain(a) ==> t.regs[a] == s.regs[a]
  }

  lemma SameAnswer(s: State, t: State, q: Query)
    requires SameAnswers(s, t)
    ensures AnswerTo(s, q) == AnswerTo(t, q)
  {
    hide ConfigOf, StepsOf, AccelFrom, GyroFrom, AuxFrom;
    assert s.regs[ACC_CONF..ACC_CONF + 2] == t.regs[ACC_CONF..ACC_CONF + 2];
    assert s.regs[GYR_CONF..GYR_CONF + 2] == t.regs[GYR_CONF..GYR_CONF + 2];
    assert s.regs[AUX_DEV_ID..AUX_DEV_ID + 2] == t.regs[AUX_DEV_ID..AUX_DEV_ID + 2];
  }

  // ---------- the getters ----------

  method GetAccelConfig(d: Dev) returns (rslt: Rslt, c: AccelConfig)
    requires d.dev.Valid()
    modifies d`dev, d`faults
    ensures d.dev == old(d.dev) && (rslt == OK ==> c == AccelOf(d.dev))
    ensures old(d.faults) == [] ==> d.faults == [] && rslt == OK
  {
    var data;
    rslt, data := d.GetRegs(ACC_CONF, 2);
    c := AccelFrom(if rslt == OK then data else [0, 0]);
  }

  method GetGyroConfig(d: Dev) returns (rslt: Rslt, c: GyroConfig)
    requires d.dev.Valid()
    modifies d`dev, d`faults
    ensures d.dev == old(d.dev) && (rslt == OK ==> c == GyroOf(d.dev))
    ensures old(d.faults) == [] ==> d.faults == [] && rslt == OK
  {
    var data;
    rslt, data := d.GetRegs(GYR_CONF, 2);
    c := GyroFrom(if rslt == OK then data else [0, 0]);
  }

  /** `get_aux_config`: interface, its two bytes, the read address in data mode only, the rate. */
  method GetAuxConfig(d: Dev, readAddr: bv8) returns (rslt: Rslt, c: AuxConfig)
    requires d.dev.Valid()
    modifies d`dev, d`faults
    ensures d.dev == old(d.dev) && (rslt == OK ==> c == AuxOf(d.dev, readAddr))
    ensures old(d.faults) == [] ==> d.faults == [] && rslt == OK
  {
    c := AuxConfig(0, 0, 0, 0, 0, 0, 0, 0, readAddr);
    var interface, bytes, rd, rate := [0], [0, 0], [readAddr], [0];
    rslt, interface := d.GetRegs(IF_CONF, 1);
    if rslt == OK {
      rslt, bytes := d.GetRegs(AUX_DEV_ID, 2);
      if rslt == OK && AuxFrom(0, bytes, 0, 0, 0).manualEn == 0 {
        rslt, rd := d.GetRegs(AUX_RD, 1);
      }
      if rslt == OK {
        rslt, rate := d.GetRegs(AUX_CONF, 1);
        if rslt == OK {
          c := AuxFrom(interface[0], bytes, rd[0], rate[0], readAddr);
        }
      }
    }
  }

  /** `get_feat_config`, and the cases of `bmi2_get_sensor_config`. */
  method Ask(d: Dev, q: Query) returns (rslt: Rslt, answer: Answer)
    requires d.dev.Valid() && d.readWriteLen >= 2 && q.Valid()
    modifies d`dev, d`faults, d`readWriteLen, d`apsStatus
    ensures d.dev.Valid() && d.apsStatus == old(d.apsStatus) && d.readWriteLen >= 2 && d.dev.pages == old(d.dev).pages
    ensures old(d.faults) == [] ==>
      d.faults == [] && rslt == ResultOf(q) && d.dev == Looked(old(d.dev), q) && answer == AnswerTo(old(d.dev), q)
  {
    hide Paged, ConfigOf, StepsOf, AccelOf, GyroOf, AuxOf;
    answer := Unread;
    match q
    case AskConfig(c) =>
      var values;
      rslt, values := GetConfig(d, c);
      answer := ConfigIs(values);
    case AskSteps(taken) =>
      var params;
      rslt, params := GetStepParams(d, taken, 0);
      answer := StepsAre(params);
    case AskAccel =>
      var c;
      rslt, c := GetAccelConfig(d);
      answer := AccelIs(c);
    case AskGyro =>
      var c;
      rslt, c := GetGyroConfig(d);
      answer := GyroIs(c);
    case AskAux(readAddr) =>
      var c;
      rslt, c := GetAuxConfig(d, readAddr);
      answer := AuxIs(c);
    case AskUnknown => rslt := InvalidSensor;
  }

  // ---------- `bmi2_get_sensor_config` ----------

  /** `answers` belong to the queries that were reached, a prefix of the list. */
  datatype Fetch = Fetch(s: State, rslt: Rslt, answers: seq<Answer>)

  function Then(a: Answer, r: Fetch): Fetch {
    r.(answers := [a] + r.answers)
  }

  predicate AllAskable(list: seq<Query>) {
    forall q :: q in list ==> q.Valid()
  }

  /** The loop over the rest of a list, on a bus that never fails. */
  function MainFetchedFrom(s: State, apsStat: bool, list: seq<Query>): (r: Fetch)
    requires s.Valid()
    ensures r.s.Valid()
    decreases |list|
  {
    if list == [] then Fetch(s, OK, [])
    else
      var t := Awake(s, apsStat && !list[0].Low());
      if !list[0].First() then Fetch(t, InvalidSensor, [])
      else Then(AnswerTo(t, list[0]), MainFetchedFrom(Looked(t, list[0]), apsStat, list[1..]))
  }

  function Resumed(r: Fetch, apsStat: bool): Fetch
    requires r.s.Valid()
  {
    if apsStat && r.rslt == OK then r.(s := WithAps(r.s, true)) else r
  }

  function MainFetched(s: State, list: seq<Query>): Fetch
    requires s.Valid()
  {
    Resumed(MainFetchedFrom(s, s.Asleep(), list), s.Asleep())
  }

  predicate AllLow(list: seq<Query>) {
    forall q :: q in list ==> q.Low()
  }

  lemma SameIsTransitive(s: State, t: State, u: State)
    requires SameAnswers(s, t) && SameAnswers(t, u)
    ensures SameAnswers(s, u)
  {
  }

  lemma SameItself(s: State)
    requires s.Valid()
    ensures SameAnswers(s, s)
  {
  }

  lemma AwakeSame(s: State, off: bool)
    requires s.Valid()
    ensures SameAnswers(s, Awake(s, off)) && SameAnswers(s, WithAps(s, off))
  {
  }

  lemma LookedAnswersSame(s: State, q: Query)
    requires s.Valid()
    ensures SameAnswers(s, Looked(s, q))
  {
  }

  /** The answers of the rest of a list, taken after its head, are answers of the list. */
  lemma AnswersHold(s: State, t: State, list: seq<Query>, answers: seq<Answer>)
    requires SameAnswers(s, t) && s.Valid() && t.Valid() && list != []
    requires |answers| < |list| && forall i :: 0 <= i < |answers| ==> answers[i] == AnswerTo(t, list[1..][i])
    ensures var all := [AnswerTo(s, list[0])] + answers;
            forall i :: 0 <= i < |all| ==> all[i] == AnswerTo(s, list[i])
  {
    hide AnswerTo, SameAnswers;
    forall i | 0 <= i < |answers| ensures answers[i] == AnswerTo(s, list[i + 1]) {
      SameAnswer(s, t, list[i + 1]);
      assert list[1..][i] == list[i + 1];
    }
  }

  lemma MainFetchStep(s: State, apsStat: bool, list: seq<Query>)
    requires s.Valid() && list != []
    ensures var t := Awake(s, apsStat && !list[0].Low());
            MainFetchedFrom(s, apsStat, list)
            == if list[0].First() then
                 Then(AnswerTo(t, list[0]), MainFetchedFrom(Looked(t, list[0]), apsStat, list[1..]))
               else Fetch(t, InvalidSensor, [])
  {
    hide AnswerTo, Looked;
  }

  lemma MainFetchNothing(s: State, apsStat: bool)
    requires s.Valid()
    ensures MainFetchedFrom(s, apsStat, []) == Fetch(s, OK, [])
  {
  }

  lemma {:induction false} MainFetchIsTrue(s: State, apsStat: bool, list: seq<Query>)
    requires s.Valid()
    ensures var r := MainFetchedFrom(s, apsStat, list);
            && SameAnswers(s, r.s) && |r.answers| <= |list|
            && (forall i :: 0 <= i < |r.answers| ==> r.answers[i] == AnswerTo(s, list[i]))
            && (r.rslt == OK <==> forall q :: q in list ==> q.First())
            && (r.rslt == OK <==> |r.answers| == |list|)
    decreases |list|
  {
    hide AnswerTo, Looked, Awake, SameAnswers, MainFetchedFrom;
    if list != [] {
      var q := list[0];
      MainFetchStep(s, apsStat, list);
      var t := Awake(s, apsStat && !q.Low());
      AwakeSame(s, apsStat && !q.Low());
      assert forall p :: p in list <==> p == q || p in list[1..];
      if q.First() {
        LookedAnswersSame(t, q);
        MainFetchIsTrue(Looked(t, q), apsStat, list[1..]);
        var r := MainFetchedFrom(Looked(t, q), apsStat, list[1..]);
        SameAnswer(s, t, q);
        SameIsTransitive(s, t, Looked(t, q));
        AnswersHold(s, Looked(t, q), list, r.answers);
        SameIsTransitive(s, Looked(t, q), r.s);
      }
    } else {
      MainFetchNothing(s, apsStat);
      SameItself(s);
    }
  }

  /** No page is touched in power save, and a failure leaves it on only if no query came by that switches
      it off. */
  lemma {:induction false} MainFetchIsGuarded(s: State, apsStat: bool, list: seq<Query>)
    requires s.Valid() && (s.Asleep() ==> apsStat)
    ensures var r := MainFetchedFrom(s, apsStat, list);
            && r.s.touchedAsleep == s.touchedAsleep
            && (r.rslt == OK || (|r.answers| < |list|
                && r.s.Asleep() == (s.Asleep() && AllLow(list[..|r.answers| + 1]))))
    decreases |list|
  {
    hide AnswerTo, WithAps, MainFetchedFrom;
    if list != [] {
      var q := list[0];
      MainFetchStep(s, apsStat, list);
      if q.First() {
        var u := Looked(Awake(s, apsStat && !q.Low()), q);
        MainFetchIsGuarded(u, apsStat, list[1..]);
        var r := MainFetchedFrom(u, apsStat, list[1..]);
        if r.rslt != OK {
          assert list[..|r.answers| + 2] == [q] + list[1..][..|r.answers| + 1];
        }
      } else {
        assert list[..1] == [q];
      }
    } else {
      MainFetchNothing(s, apsStat);
    }
  }

  /** `bmi2_get_sensor_config`: it succeeds exactly if every query is for a configuration of its own; then
      every answer is what the device holds and power save is as it was.  It never touches a page in power
      save, and after a failure power save is on only if all queries so far let it be. */
  lemma MainFetchedBracket(s: State, list: seq<Query>)
    requires s.Valid()
    ensures var r := MainFetched(s, list);
            && r.s.touchedAsleep == s.touchedAsleep && SameAnswers(s, r.s)
            && (r.rslt == OK <==> forall q :: q in list ==> q.First())
            && (forall i :: 0 <= i < |r.answers| <= |list| ==> r.answers[i] == AnswerTo(s, list[i]))
            && if r.rslt == OK then |r.answers| == |list| && r.s.Asleep() == s.Asleep()
               else |r.answers| < |list| && r.s.Asleep() == (s.Asleep() && AllLow(list[..|r.answers| + 1]))
  {
    hide AnswerTo, WithAps, MainFetchedFrom, SameAnswers, AllLow;
    MainFetchIsTrue(s, s.Asleep(), list);
    MainFetchIsGuarded(s, s.Asleep(), list);
    if !s.Asleep() {
      MainFetchAwake(s, false, list);
    }
    var r := MainFetchedFrom(s, s.Asleep(), list);
    AwakeSame(r.s, true);
    SameIsTransitive(s, r.s, WithAps(r.s, true));
  }

  lemma {:induction false} MainFetchAwake(s: State, apsStat: bool, list: seq<Query>)
    requires s.Valid() && !s.Asleep()
    ensures !MainFetchedFrom(s, apsStat, list).s.Asleep()
    decreases |list|
  {
    hide AnswerTo, WithAps, MainFetchedFrom;
    if list != [] {
      MainFetchStep(s, apsStat, list);
      if list[0].First() {
        MainFetchAwake(Looked(Awake(s, apsStat && !list[0].Low()), list[0]), apsStat, list[1..]);
      }
    } else {
      MainFetchNothing(s, apsStat);
    }
  }

  /** The same for the single query `bmi270_get_sensor_config` hands on. */
  function FirstFetched(s: State, q: Query): (r: State)
    requires s.Valid() && q.First()
    ensures r.Valid() && r.Asleep() == s.Asleep() && r.touchedAsleep == s.touchedAsleep
  {
    var t := Looked(Awake(s, s.Asleep() && !q.Low()), q);
    if s.Asleep() then WithAps(t, true) else t
  }

  lemma MainFetchedOne(s: State, q: Query)
    requires s.Valid() && q.First()
    ensures MainFetched(s, [q]) == Fetch(FirstFetched(s, q), OK, [AnswerTo(s, q)])
    ensures SameAnswers(s, FirstFetched(s, q))
  {
    hide AnswerTo, WithAps, MainFetchedFrom, Looked, SameAnswers;
    var off := s.Asleep() && !q.Low();
    var t := Awake(s, off);
    MainFetchStep(s, s.Asleep(), [q]);
    assert [q][1..] == [];
    MainFetchNothing(Looked(t, q), s.Asleep());
    assert [AnswerTo(t, q)] + [] == [AnswerTo(t, q)];
    AwakeSame(s, off);
    SameAnswer(s, t, q);
    LookedAnswersSame(t, q);
    SameIsTransitive(s, t, Looked(t, q));
    AwakeSame(Looked(t, q), true);
    SameIsTransitive(s, Looked(t, q), WithAps(Looked(t, q), true));
  }

  // ---------- `bmi270_get_sensor_config` ----------

  /** The loop over the rest of a list, on a bus that never fails, `rslt` being the last query's result. */
  function FetchedFrom(s: State, apsStat: bool, list: seq<Query>, rslt: Rslt): (r: Fetch)
    requires s.Valid()
    ensures r.s.Valid()
    decreases |list|
  {
    if list == [] then Fetch(s, rslt, [])
    else
      var q := list[0];
      if q.First() then Then(AnswerTo(s, q), FetchedFrom(FirstFetched(s, q), apsStat, list[1..], OK))
      else if !(apsStat && !q.Low()) && rslt != OK then Fetch(s, rslt, [])
      else
        var t := Awake(s, apsStat && !q.Low());
        Then(AnswerTo(t, q), FetchedFrom(Looked(t, q), apsStat, list[1..], ResultOf(q)))
  }

  function Fetched(s: State, list: seq<Query>): (r: Fetch)
    requires s.Valid()
  {
    Resumed(FetchedFrom(s, s.Asleep(), list, OK), s.Asleep())
  }

  /** The state after a query that is reached. */
  function After(s: State, apsStat: bool, q: Query): (t: State)
    requires s.Valid()
    ensures t.Valid()
  {
    if q.First() then FirstFetched(s, q) else Looked(Awake(s, apsStat && !q.Low()), q)
  }

  predicate Tried(apsStat: bool, q: Query, rslt: Rslt) {
    q.First() || (apsStat && !q.Low()) || rslt == OK
  }

  lemma FetchStep(s: State, apsStat: bool, list: seq<Query>, rslt: Rslt)
    requires s.Valid() && list != []
    ensures FetchedFrom(s, apsStat, list, rslt)
            == if Tried(apsStat, list[0], rslt) then
                 Then(AnswerTo(s, list[0]),
                      FetchedFrom(After(s, apsStat, list[0]), apsStat, list[1..], ResultOf(list[0])))
               else Fetch(s, rslt, [])
    ensures SameAnswers(s, After(s, apsStat, list[0]))
    ensures AnswerTo(Awake(s, apsStat && !list[0].Low()), list[0]) == AnswerTo(s, list[0])
  {
    hide AnswerTo, Looked, FirstFetched, WithAps, SameAnswers;
    var q := list[0];
    var t := Awake(s, apsStat && !q.Low());
    AwakeSame(s, apsStat && !q.Low());
    SameAnswer(s, t, q);
    LookedAnswersSame(t, q);
    SameIsTransitive(s, t, Looked(t, q));
    if q.First() {
      MainFetchedOne(s, q);
    }
  }

  lemma FetchNothing(s: State, apsStat: bool, rslt: Rslt)
    requires s.Valid()
    ensures FetchedFrom(s, apsStat, [], rslt) == Fetch(s, rslt, [])
  {
  }

  /** The first query that does not go to `bmi2_get_sensor_config` is for significant motion. */
  predicate LeadsWithSigMotion(list: seq<Query>) {
    list != [] && (if list[0].First() then LeadsWithSigMotion(list[1..]) else list[0] == AskConfig(SigMotionConfig))
  }

  lemma {:induction false} FetchIsGuarded(s: State, apsStat: bool, list: seq<Query>, rslt: Rslt)
    requires s.Valid() && (s.Asleep() ==> apsStat && rslt == OK)
    ensures var r := FetchedFrom(s, apsStat, list, rslt);
            && (r.s.Asleep() ==> s.Asleep() && r.rslt == OK)
            && r.s.touchedAsleep == (s.touchedAsleep || (s.Asleep() && LeadsWithSigMotion(list)))
    decreases |list|
  {
    hide AnswerTo, WithAps, FetchedFrom, SameAnswers;
    if list != [] {
      var q := list[0];
      FetchStep(s, apsStat, list, rslt);
      if Tried(apsStat, q, rslt) {
        FetchIsGuarded(After(s, apsStat, q), apsStat, list[1..], ResultOf(q));
      }
    } else {
      FetchNothing(s, apsStat, rslt);
    }
  }

  /** A getter call that succeeds leaves power save as it was and one that fails leaves it off.  It touches a
      page in power save exactly if power save is on and the first feature asked for is significant motion. */
  lemma FetchedBracket(s: State, list: seq<Query>)
    requires s.Valid()
    ensures var r := Fetched(s, list);
            && r.s.Valid() && r.s.Asleep() == (s.Asleep() && r.rslt == OK)
            && r.s.touchedAsleep == (s.touchedAsleep || (s.Asleep() && LeadsWithSigMotion(list)))
  {
    hide WithAps, FetchedFrom, LeadsWithSigMotion;
    FetchIsGuarded(s, s.Asleep(), list, OK);
  }

  /** So of all calls for one thing it is that for significant motion, and no other, that reads a page of a
      sleeping device. */
  lemma SigMotionIsReadAsleep(s: State, q: Query)
    requires s.Valid() && s.Asleep() && !s.touchedAsleep
    ensures Fetched(s, [q]).s.touchedAsleep <==> q == AskConfig(SigMotionConfig)
  {
    hide FetchedFrom;
    FetchedBracket(s, [q]);
    assert [q][1..] == [];
  }

  lemma {:induction false} FetchIsTrue(s: State, apsStat: bool, list: seq<Query>, rslt: Rslt)
    requires s.Valid()
    ensures var r := FetchedFrom(s, apsStat, list, rslt);
            && SameAnswers(s, r.s) && |r.answers| <= |list|
            && (forall i :: 0 <= i < |r.answers| ==> r.answers[i] == AnswerTo(s, list[i]))
            && (r.rslt == OK ==> |r.answers| == |list|)
    decreases |list|
  {
    hide AnswerTo, SameAnswers, FetchedFrom, After;
    if list != [] {
      var t := After(s, apsStat, list[0]);
      FetchStep(s, apsStat, list, rslt);
      if Tried(apsStat, list[0], rslt) {
        FetchIsTrue(t, apsStat, list[1..], ResultOf(list[0]));
        var r := FetchedFrom(t, apsStat, list[1..], ResultOf(list[0]));
        AnswersHold(s, t, list, r.answers);
        SameIsTransitive(s, t, r.s);
      } else {
        SameItself(s);
      }
    } else {
      FetchNothing(s, apsStat, rslt);
      SameItself(s);
    }
  }

  /** Every answer is what the device held before the call, and what it still holds after it; a call that
      succeeds has answered every query it knows. */
  lemma FetchedAnswers(s: State, list: seq<Query>)
    requires s.Valid()
    ensures var r := Fetched(s, list);
            && SameAnswers(s, r.s) && |r.answers| <= |list| && (r.rslt == OK ==> |r.answers| == |list|)
            && (forall i :: 0 <= i < |r.answers| ==> r.answers[i] == AnswerTo(s, list[i]))
  {
    hide AnswerTo, SameAnswers, FetchedFrom, WithAps;
    FetchIsTrue(s, s.Asleep(), list, OK);
    var r := FetchedFrom(s, s.Asleep(), list, OK);
    AwakeSame(r.s, true);
    SameIsTransitive(s, r.s, WithAps(r.s, true));
  }

  // ---------- which failures are reported ----------

  predicate QueryReported(apsStat: bool, list: seq<Query>, i: nat)
    requires i < |list|
  {
    list[i].AskUnknown? && (i + 1 == |list| || !(list[i + 1].First() || (apsStat && !list[i + 1].Low())))
  }

  lemma {:induction false} FetchReportsExactly(s: State, apsStat: bool, list: seq<Query>, rslt: Rslt)
    requires s.Valid()
    ensures (FetchedFrom(s, apsStat, list, rslt).rslt != OK)
            == ((rslt != OK && (list == [] || !(list[0].First() || (apsStat && !list[0].Low()))))
                || exists i :: 0 <= i < |list| && QueryReported(apsStat, list, i))
    decreases |list|
  {
    hide After, FetchedFrom, AnswerTo, SameAnswers;
    if list != [] {
      FetchStep(s, apsStat, list, rslt);
      if Tried(apsStat, list[0], rslt) {
        FetchReportsExactly(After(s, apsStat, list[0]), apsStat, list[1..], ResultOf(list[0]));
        QueryShifted(apsStat, list);
      }
    } else {
      FetchNothing(s, apsStat, rslt);
    }
  }

  lemma QueryShifted(apsStat: bool, list: seq<Query>)
    requires list != []
    ensures (exists i :: 0 <= i < |list| && QueryReported(apsStat, list, i))
            == (QueryReported(apsStat, list, 0)
                || exists i :: 0 <= i < |list[1..]| && QueryReported(apsStat, list[1..], i))
  {
    forall i | 0 <= i < |list[1..]|
      ensures QueryReported(apsStat, list[1..], i) == QueryReported(apsStat, list, i + 1)
    {
    }
    if i :| 0 <= i < |list| && QueryReported(apsStat, list, i) && i > 0 {
      assert QueryReported(apsStat, list[1..], i - 1);
    }
  }

  /** When the call fails: an unknown query that stands last, or before one that neither goes to
      `bmi2_get_sensor_config` nor switches power save off. */
  lemma FetchedReportsExactly(s: State, list: seq<Query>)
    requires s.Valid()
    ensures Fetched(s, list).rslt != OK <==> exists i :: 0 <= i < |list| && QueryReported(s.Asleep(), list, i)
  {
    hide FetchedFrom;
    FetchReportsExactly(s, s.Asleep(), list, OK);
  }

  // ---------- configured, then asked ----------

  /** The answer to a query after a list has been configured. */
  predicate AnswersList(s: State, list: seq<Entry>, q: Query, a: Answer)
    requires s.Valid() && AllValid(list)
  {
    match q
    case AskConfig(c) => a == ConfigIs(Latest(list, c, ConfigOf(s.pages, c)))
    case AskSteps(_) => a == StepsAre(LatestSteps(list, StepsOf(s.pages, 0)))
    case AskAccel => a == AccelIs(LatestAccel(list, AccelOf(s)))
    case AskGyro => a == GyroIs(LatestGyro(list, GyroOf(s)))
    case AskAux(readAddr) => a == AuxIs(LatestAux(list, AuxSeenIn(s, readAddr), readAddr).aux)
    case AskUnknown => a == Unread
  }

  lemma AnswersConfigured(s: State, list: seq<Entry>, q: Query)
    requires s.Valid() && AllValid(list) && forall e :: e in list ==> e.Result() == OK
    ensures var t := Configured(s, list).s; t.Valid() && AnswersList(s, list, q, AnswerTo(t, q))
  {
    hide ConfigOf, StepsOf, AccelOf, GyroOf, AuxOf, ConfiguredFrom, WithAps, Latest, LatestSteps, LatestAccel,
        LatestGyro, LatestAux;
    ConfiguredReadsBack(s, s.Asleep(), list, if q.AskConfig? then q.c else StepConfig);
    var r := ConfiguredFrom(s, s.Asleep(), list, OK).s;
    PlainRegsKept(r, WithAps(r, true));
    if q.AskAux? {
      ConfiguredAuxReadsBack(s, s.Asleep(), list, q.readAddr);
      AuxKept(r, WithAps(r, true), q.readAddr);
    }
  }

  /** What one call configures the other returns: after a list whose entries all succeed, each query is
      answered by what the list last said about it, cut or corrected to its fields, and by the old value if
      the list did not name it. */
  lemma ConfiguredThenFetched(s: State, list: seq<Entry>, queries: seq<Query>)
    requires s.Valid() && AllValid(list) && forall e :: e in list ==> e.Result() == OK
    ensures var t := Configured(s, list).s;
            && t.Valid()
            && var r := Fetched(t, queries);
               && |r.answers| <= |queries| && (r.rslt == OK ==> |r.answers| == |queries|)
               && forall i :: 0 <= i < |r.answers| ==> AnswersList(s, list, queries[i], r.answers[i])
  {
    hide Configured, Fetched, AnswerTo, SameAnswers, AnswersList;
    var t := Configured(s, list).s;
    ConfiguredBracket(s, list);
    FetchedAnswers(t, queries);
    forall i | 0 <= i < |Fetched(t, queries).answers|
      ensures AnswersList(s, list, queries[i], AnswerTo(t, queries[i]))
    {
      AnswersConfigured(s, list, queries[i]);
    }
  }

  // ---------- the C functions ----------

  lemma Appended(before: seq<Answer>, a: Answer, r: Fetch)
    ensures Before(before + [a], r) == Before(before, Then(a, r))
  {
    assert before + [a] + r.answers == before + ([a] + r.answers);
  }

  function Before(answers: seq<Answer>, r: Fetch): Fetch {
    r.(answers := answers + r.answers)
  }

  lemma BeforeNone(answers: seq<Answer>, r: Fetch)
    ensures Before([], r) == r
    ensures r.answers == [] ==> Before(answers, r) == r.(answers := answers)
  {
    assert [] + r.answers == r.answers;
  }

  /** `bmi2_get_sensor_config`. */
  method GetMainList(d: Dev, list: seq<Query>) returns (rslt: Rslt, answers: seq<Answer>)
    requires d.dev.Valid() && d.readWriteLen >= 2 && AllAskable(list)
    modifies d`dev, d`faults, d`readWriteLen, d`apsStatus
    ensures d.dev.Valid() && d.readWriteLen >= 2 && d.dev.pages == old(d.dev).pages
    ensures old(d.faults) == [] && old(d.ApsAgrees()) ==>
      d.faults == [] && d.ApsAgrees() && Fetch(d.dev, rslt, answers) == MainFetched(old(d.dev), list)
  {
    hide AnswerTo, WithAps, MainFetchedFrom, Before, Then;
    rslt, answers := OK, [];
    var apsStat := d.apsStatus;
    ghost var s, fine := d.dev, d.faults == [] && d.ApsAgrees();
    ghost var end := MainFetchedFrom(s, apsStat, list);
    BeforeNone([], end);
    var loop := 0;
    while loop < |list|
      invariant 0 <= loop <= |list| && d.dev.Valid() && d.readWriteLen >= 2 && d.dev.pages == s.pages && rslt == OK
      invariant fine ==>
        d.faults == [] && d.ApsAgrees() && Before(answers, MainFetchedFrom(d.dev, apsStat, list[loop..])) == end
    {
      var q := list[loop];
      ghost var t := d.dev;
      assert list[loop..][1..] == list[loop + 1..];
      MainFetchStep(t, apsStat, list[loop..]);
      if !q.Low() && apsStat {
        rslt := d.SetAdvPowerSave(false);
      }
      if rslt == OK {
        if q.First() {
          var answer;
          ghost var was := answers;
          ghost var awake := d.dev;
          rslt, answer := Ask(d, q);
          answers := answers + [answer];
          Appended(was, answer, MainFetchedFrom(Looked(awake, q), apsStat, list[loop + 1..]));
        } else {
          rslt := InvalidSensor;
          BeforeNone(answers, Fetch(d.dev, rslt, []));
        }
      }
      if rslt != OK {
        break;
      }
      loop := loop + 1;
    }
    if loop == |list| {
      MainFetchNothing(d.dev, apsStat);
      BeforeNone(answers, Fetch(d.dev, OK, []));
    }
    if apsStat && rslt == OK {
      rslt := d.SetAdvPowerSave(true);
    }
  }

  /** `bmi270_get_sensor_config`. */
  method GetSensorConfig(d: Dev, list: seq<Query>) returns (rslt: Rslt, answers: seq<Answer>)
    requires d.dev.Valid() && d.readWriteLen >= 2 && AllAskable(list)
    modifies d`dev, d`faults, d`readWriteLen, d`apsStatus
    ensures d.dev.Valid() && d.readWriteLen >= 2 && d.dev.pages == old(d.dev).pages
    ensures old(d.faults) == [] && old(d.ApsAgrees()) ==>
      d.faults == [] && d.ApsAgrees() && Fetch(d.dev, rslt, answers) == Fetched(old(d.dev), list)
  {
    hide AnswerTo, WithAps, FetchedFrom, Before, Then, FirstFetched, MainFetched, SameAnswers;
    rslt, answers := OK, [];
    var apsStat := d.apsStatus;
    ghost var s, fine := d.dev, d.faults == [] && d.ApsAgrees();
    ghost var end := FetchedFrom(s, apsStat, list, OK);
    BeforeNone([], end);
    var loop, stop := 0, false;
    while loop < |list| && !stop
      invariant 0 <= loop <= |list| && d.dev.Valid() && d.readWriteLen >= 2 && d.dev.pages == s.pages
      invariant fine ==> d.faults == [] && d.ApsAgrees() && (d.dev.Asleep() ==> apsStat && rslt == OK)
      invariant fine ==>
        end == Before(answers, if stop then Fetch(d.dev, rslt, []) else FetchedFrom(d.dev, apsStat, list[loop..], rslt))
      decreases |list| - loop, !stop
    {
      var q := list[loop];
      ghost var t, was, r0 := d.dev, answers, rslt;
      assert list[loop..][1..] == list[loop + 1..];
      FetchStep(t, apsStat, list[loop..], r0);
      if q.First() {
        MainFetchedOne(d.dev, q);
        var one;
        rslt, one := GetMainList(d, [q]);
        answers := answers + one;
        loop := loop + 1;
      } else {
        if !q.Low() && apsStat {
          rslt := d.SetAdvPowerSave(false);
        }
        if rslt == OK {
          var answer;
          rslt, answer := Ask(d, q);
          answers := answers + [answer];
          loop := loop + 1;
        } else {
          stop := true;
        }
      }
      if !stop {
        Appended(was, AnswerTo(t, q), FetchedFrom(After(t, apsStat, q), apsStat, list[loop..], ResultOf(q)));
      }
    }
    if !stop {
      FetchNothing(d.dev, apsStat, rslt);
    }
    BeforeNone(answers, Fetch(d.dev, rslt, []));
    if apsStat && rslt == OK {
      rslt := d.SetAdvPowerSave(true);
    }
  }
}
