/** The FIFO extractors of bmi2.c, loop for loop: one object holds `struct bmi2_fifo_frame`,
    samples go into the caller's array. */
module FifoDriver {
  import opened Basics
  import opened FifoFormat
  import opened FifoWalk
  import opened Samples
  import opened Headerless

  // ---------- what an extraction leaves in the caller's array ----------

  function AccSample(dev: Settings, f: Frame, before: Sample): Sample
    requires Carries(f, Acc)
  {
    Sample(AccAxes(dev, f.body.acc.value), if dev.s4s then f.body.time else before.time)
  }

  function GyrSample(dev: Settings, f: Frame, before: Sample): Sample
    requires Carries(f, Gyr)
  {
    Sample(GyrAxes(dev, f.body.gyr.value), if dev.s4s then f.body.time else before.time)
  }

  predicate AllCarry(k: Sensor, fs: seq<Frame>) {
    forall j :: 0 <= j < |fs| ==> Carries(fs[j], k)
  }

  lemma {:induction false} HitsCarry(k: Sensor, fs: seq<Frame>)
    ensures AllCarry(k, Hits(k, fs)) && |Hits(k, fs)| <= |fs|
  {
    if fs != [] {
      HitsCarry(k, fs[1..]);
    }
  }

  lemma HitsSnoc(k: Sensor, fs: seq<Frame>, f: Frame)
    ensures Hits(k, fs + [f]) == Hits(k, fs) + (if Carries(f, k) then [f] else [])
  {
    HitsConcat(k, fs, [f]);
    HitsCons(k, f, []);
    assert [f] + [] == [f];
  }

  /** Slot j holds the j-th frame's sample; the slots after the last one are untouched. */
  ghost predicate AccStored(before: seq<Sample>, now: seq<Sample>, dev: Settings, hits: seq<Frame>)
    requires AllCarry(Acc, hits)
  {
    && |hits| <= |now| == |before|
    && (forall j :: 0 <= j < |hits| ==> now[j] == AccSample(dev, hits[j], before[j]))
    && (forall j :: |hits| <= j < |now| ==> now[j] == before[j])
  }

  ghost predicate GyrStored(before: seq<Sample>, now: seq<Sample>, dev: Settings, hits: seq<Frame>)
    requires AllCarry(Gyr, hits)
  {
    && |hits| <= |now| == |before|
    && (forall j :: 0 <= j < |hits| ==> now[j] == GyrSample(dev, hits[j], before[j]))
    && (forall j :: |hits| <= j < |now| ==> now[j] == before[j])
  }

  ghost predicate AccKept(before: seq<Sample>, now: seq<Sample>, dev: Settings, seen: seq<Frame>, count: nat) {
    var hits := Hits(Acc, seen);
    |hits| == count && AllCarry(Acc, hits) && AccStored(before, now, dev, hits)
  }

  lemma AccNothingKept(before: seq<Sample>, dev: Settings)
    ensures AccKept(before, before, dev, [], 0)
  {
  }

  lemma AccKeepsTurn(before: seq<Sample>, mid: seq<Sample>, now: seq<Sample>, dev: Settings,
                seen: seq<Frame>, count: nat, o: Outcome)
    requires AccKept(before, mid, dev, seen, count) && count < |mid|
    requires now == if HitBy(o, Acc) then mid[count := AccSample(dev, o.frame, mid[count])] else mid
    ensures AccKept(before, now, dev, SeenAfter(o, seen), if HitBy(o, Acc) then count + 1 else count)
  {
    if o.Parsed? {
      HitsSnoc(Acc, seen, o.frame);
    }
    hide Hits, Carries;
  }

  ghost predicate GyrKept(before: seq<Sample>, now: seq<Sample>, dev: Settings, seen: seq<Frame>, count: nat) {
    var hits := Hits(Gyr, seen);
    |hits| == count && AllCarry(Gyr, hits) && GyrStored(before, now, dev, hits)
  }

  lemma GyrNothingKept(before: seq<Sample>, dev: Settings)
    ensures GyrKept(before, before, dev, [], 0)
  {
  }

  lemma GyrKeepsTurn(before: seq<Sample>, mid: seq<Sample>, now: seq<Sample>, dev: Settings,
                seen: seq<Frame>, count: nat, o: Outcome)
    requires GyrKept(before, mid, dev, seen, count) && count < |mid|
    requires now == if HitBy(o, Gyr) then mid[count := GyrSample(dev, o.frame, mid[count])] else mid
    ensures GyrKept(before, now, dev, SeenAfter(o, seen), if HitBy(o, Gyr) then count + 1 else count)
  {
    if o.Parsed? {
      HitsSnoc(Gyr, seen, o.frame);
    }
    hide Hits, Carries;
  }

  function AuxTime(dev: Settings, hits: seq<Frame>, slot: nat, before: nat): nat
    requires AllCarry(Aux, hits)
  {
    if dev.s4s && slot % 2 == 0 && slot / 2 < |hits| then hits[slot / 2].body.time else before
  }

  lemma AuxTimeSnoc(dev: Settings, hits: seq<Frame>, f: Frame, slot: nat, before: nat)
    requires AllCarry(Aux, hits) && Carries(f, Aux)
    ensures AllCarry(Aux, hits + [f])
    ensures AuxTime(dev, hits + [f], slot, before)
         == if dev.s4s && slot == 2 * |hits| then f.body.time else AuxTime(dev, hits, slot, before)
  {
  }

  /** Auxiliary bytes go to slot j, but the time of frame j goes to slot 2j: the C code indexes twice. */
  ghost predicate AuxStored(before: seq<AuxSample>, now: seq<AuxSample>, dev: Settings, hits: seq<Frame>)
    requires AllCarry(Aux, hits)
  {
    && |hits| <= |now| == |before|
    && (dev.s4s ==> 2 * |hits| <= |now| + 1)
    && (forall j :: 0 <= j < |hits| ==> now[j].data == hits[j].body.aux.value)
    && (forall j :: |hits| <= j < |now| ==> now[j].data == before[j].data)
    && (forall m :: 0 <= m < |now| ==> now[m].time == AuxTime(dev, hits, m, before[m].time))
  }

  function AuxWritten(dev: Settings, f: Frame, mid: seq<AuxSample>, count: nat): seq<AuxSample>
    requires Carries(f, Aux) && count < |mid| && (dev.s4s ==> 2 * count < |mid|)
  {
    var a := mid[count := mid[count].(data := f.body.aux.value)];
    if dev.s4s then a[2 * count := a[2 * count].(time := f.body.time)] else a
  }

  ghost predicate AuxKept(before: seq<AuxSample>, now: seq<AuxSample>, dev: Settings, seen: seq<Frame>, count: nat) {
    var hits := Hits(Aux, seen);
    |hits| == count && AllCarry(Aux, hits) && AuxStored(before, now, dev, hits)
  }

  lemma AuxNothingKept(before: seq<AuxSample>, dev: Settings)
    ensures AuxKept(before, before, dev, [], 0)
  {
  }

  lemma AuxKeepsTurn(before: seq<AuxSample>, mid: seq<AuxSample>, now: seq<AuxSample>, dev: Settings,
                     seen: seq<Frame>, count: nat, o: Outcome)
    requires AuxKept(before, mid, dev, seen, count) && count < |mid| && (dev.s4s ==> 2 * count < |mid|)
    requires now == if HitBy(o, Aux) then AuxWritten(dev, o.frame, mid, count) else mid
    ensures AuxKept(before, now, dev, SeenAfter(o, seen), if HitBy(o, Aux) then count + 1 else count)
  {
    if HitBy(o, Aux) {
      HitsSnoc(Aux, seen, o.frame);
      AuxStoredNext(before, mid, dev, Hits(Aux, seen), o.frame);
    } else if o.Parsed? {
      HitsSnoc(Aux, seen, o.frame);
      assert Hits(Aux, seen) + [] == Hits(Aux, seen);
    }
  }

  lemma AuxStoredNext(before: seq<AuxSample>, mid: seq<AuxSample>, dev: Settings, hits: seq<Frame>, f: Frame)
    requires AllCarry(Aux, hits) && Carries(f, Aux) && AuxStored(before, mid, dev, hits)
    requires |hits| < |mid| && (dev.s4s ==> 2 * |hits| < |mid|)
    ensures AllCarry(Aux, hits + [f]) && AuxStored(before, AuxWritten(dev, f, mid, |hits|), dev, hits + [f])
  {
    hide AuxTime;
    forall m | 0 <= m < |mid|
      ensures AuxTime(dev, hits + [f], m, before[m].time)
           == if dev.s4s && m == 2 * |hits| then f.body.time else AuxTime(dev, hits, m, before[m].time)
    {
      AuxTimeSnoc(dev, hits, f, m, before[m].time);
    }
  }

  predicate AuxRoom(capacity: nat, wanted: uint16, length: nat, s4s: bool) {
    if s4s then 2 * length <= capacity || 2 <= 2 * wanted <= capacity + 1 else Room(capacity, wanted, length)
  }

  lemma AuxRoomFits(capacity: nat, wanted: uint16, length: nat, s4s: bool, count: nat)
    requires AuxRoom(capacity, wanted, length, s4s) && count < length && (wanted >= 1 ==> count < wanted)
    ensures count < capacity && (s4s ==> 2 * count < capacity)
  {
  }

  /** A caller's array is large enough for the request, or for anything the buffer could hold. */
  predicate Room(capacity: nat, wanted: uint16, length: nat) {
    length <= capacity || 1 <= wanted <= capacity
  }

  /** A headerless sample: the axes at the position, the time one frame length later. */
  function AxesSample(dev: Settings, k: Sensor, e: Enabled, d: seq<byte>, p: nat, before: Sample): Sample
    requires p + Step(e, dev.s4s) <= |d| && e.Includes(k)
  {
    Sample(if k == Acc then AccAxes(dev, AxesAt(d, p)) else GyrAxes(dev, AxesAt(d, p)),
           if dev.s4s then TimeAt(d, p + e.FrameLength()) else before.time)
  }

  ghost predicate AxesTaken(before: seq<Sample>, now: seq<Sample>, dev: Settings, k: Sensor, b: Buffer,
      e: Enabled, taken: seq<nat>) {
    && b.Valid() && e.Includes(k) && b.s4s == dev.s4s && Inside(b, e, taken)
    && |taken| <= |now| == |before|
    && (forall j :: 0 <= j < |taken| ==> now[j] == AxesSample(dev, k, e, b.data, taken[j], before[j]))
    && (forall j :: |taken| <= j < |now| ==> now[j] == before[j])
  }

  lemma NothingTaken(before: seq<Sample>, dev: Settings, k: Sensor, b: Buffer, e: Enabled, goal: Positions)
    requires b.Valid() && e.Includes(k) && b.s4s == dev.s4s
    ensures AxesTaken(before, before, dev, k, b, e, []) && goal == PrecededBy([], goal)
  {
  }

  lemma AxesTakenNext(before: seq<Sample>, mid: seq<Sample>, dev: Settings, k: Sensor, b: Buffer, e: Enabled,
      taken: seq<nat>, p: nat)
    requires AxesTaken(before, mid, dev, k, b, e, taken) && |taken| < |mid|
    requires p + 6 < b.length && p + Step(e, b.s4s) <= b.length
    ensures AxesTaken(before, mid[|taken| := AxesSample(dev, k, e, b.data, p, mid[|taken|])], dev, k, b, e, taken + [p])
  {
  }

  /** The auxiliary part of a headerless frame, as a frame of its own. */
  function AuxFrameAt(d: seq<byte>, p: nat, e: Enabled, s4s: bool): (f: Frame)
    requires p + e.FrameLength() + (if s4s then TIME_LENGTH else 0) <= |d| && e.aux
    ensures Carries(f, Aux)
  {
    Frame(None, Data(Some(d[p..p + AUX_LENGTH]), None, None, if s4s then TimeAt(d, p + e.FrameLength()) else 0))
  }

  function AuxFrames(b: Buffer, e: Enabled, taken: seq<nat>): (fs: seq<Frame>)
    requires b.Valid() && e.aux && Inside(b, e, taken)
    ensures |fs| == |taken| && AllCarry(Aux, fs)
  {
    seq(|taken|, j requires 0 <= j < |taken| => AuxFrameAt(b.data, taken[j], e, b.s4s))
  }

  ghost predicate AuxTaken(before: seq<AuxSample>, now: seq<AuxSample>, dev: Settings, b: Buffer, e: Enabled,
      taken: seq<nat>) {
    && b.Valid() && e.aux && b.s4s == dev.s4s && Inside(b, e, taken)
    && AuxStored(before, now, dev, AuxFrames(b, e, taken))
  }

  lemma NoAuxTaken(before: seq<AuxSample>, dev: Settings, b: Buffer, e: Enabled, goal: Positions)
    requires b.Valid() && e.aux && b.s4s == dev.s4s
    ensures AuxTaken(before, before, dev, b, e, []) && goal == PrecededBy([], goal)
  {
  }

  lemma AuxTakenNext(before: seq<AuxSample>, mid: seq<AuxSample>, dev: Settings, b: Buffer, e: Enabled,
      taken: seq<nat>, p: nat)
    requires AuxTaken(before, mid, dev, b, e, taken) && |taken| < |mid| && (dev.s4s ==> 2 * |taken| < |mid|)
    requires p + 6 < b.length && p + Step(e, b.s4s) <= b.length
    ensures AuxTaken(before, AuxWritten(dev, AuxFrameAt(b.data, p, e, b.s4s), mid, |taken|), dev, b, e, taken + [p])
  {
    hide AuxFrameAt, AuxStored, AuxWritten;
    AuxStoredNext(before, mid, dev, AuxFrames(b, e, taken), AuxFrameAt(b.data, p, e, b.s4s));
    assert AuxFrames(b, e, taken + [p]) == AuxFrames(b, e, taken) + [AuxFrameAt(b.data, p, e, b.s4s)];
  }

  /** How many samples an array of this size can take, the time of sample j going to slot 2j. */
  function AuxSlots(size: nat, s4s: bool): (n: nat)
    ensures n <= size && (s4s ==> 2 * n <= size + 1)
  {
    if s4s then (size + 1) / 2 else size
  }

  /** The seven frame-length fields of `struct bmi2_fifo_frame`. */
  datatype FrameLengths =
    FrameLengths(acc: nat, gyr: nat, aux: nat, accGyr: nat, accAux: nat, auxGyr: nat, all: nat)

  function LengthsFor(s4s: bool): FrameLengths {
    if s4s then FrameLengths(9, 9, 11, 15, 17, 17, 23) else FrameLengths(6, 6, 8, 12, 14, 14, 20)
  }

  class Fifo {
    var data: array<byte>
    var length: nat
    var headerEnable: bool
    var dataEnable: Enabled
    var accByteStartIdx: nat
    var gyrByteStartIdx: nat
    var auxByteStartIdx: nat
    var sensorTime: nat
    var skippedFrameCount: byte
    var frmLen: FrameLengths

    /** The lengths a reset leaves for the given S4S setting, and a buffer that reaches one byte past its
        length; in header mode that keeps the 16-bit index from wrapping after a final virtual header. */
    ghost predicate Valid(s4s: bool)
      reads this
    {
      length < data.Length && length <= 65534 && frmLen == LengthsFor(s4s)
    }

    ghost function Buf(s4s: bool): Buffer
      reads this, data
    {
      Buffer(data[..], length, s4s)
    }

    constructor (data: array<byte>, length: nat)
      requires length < data.Length && length <= 65534
      ensures this.data == data && this.length == length
    {
      this.data, this.length := data, length;
      headerEnable, dataEnable := true, Enabled(true, true, true);
      accByteStartIdx, gyrByteStartIdx, auxByteStartIdx, sensorTime, skippedFrameCount := 0, 0, 0, 0, 0;
      frmLen := FrameLengths(0, 0, 0, 0, 0, 0, 0);
    }

    method ResetFifoFrameStructure(s4s: bool)
      requires length < data.Length && length <= 65534
      modifies this
      ensures Valid(s4s)
      ensures data == old(data) && length == old(length)
      ensures headerEnable == old(headerEnable) && dataEnable == old(dataEnable)
      ensures accByteStartIdx == gyrByteStartIdx == auxByteStartIdx == 0
      ensures sensorTime == 0 && skippedFrameCount == 0
    {
      accByteStartIdx, auxByteStartIdx, gyrByteStartIdx := 0, 0, 0;
      sensorTime, skippedFrameCount := 0, 0;
      if s4s {
        frmLen := FrameLengths(9, 9, 11, 15, 17, 17, 23);
      } else {
        frmLen := FrameLengths(6, 6, 8, 12, 14, 14, 20);
      }
    }

    // ---------- the helpers all three extractors share ----------

    method ParseIfVirtualHeader(header: byte, index: nat) returns (header': byte, index': nat)
      requires index < length < data.Length && header == data[index]
      ensures index' == HeaderIndex(data[..], index) && header' == data[index']
    {
      header', index' := header, index;
      if header / 64 == 3 && header != 0xC8 {
        index' := index + 1;
        header' := data[index'];
      }
    }

    method MoveNextFrame(index: nat, frameLength: nat) returns (rslt: Status, index': nat)
      ensures if index + frameLength > length then rslt == Ok && index' == length
              else rslt == Partial && index' == index + frameLength
    {
      if index + frameLength > length {
        index' := length;
        rslt := Ok;
      } else {
        index' := index + frameLength;
        rslt := Partial;
      }
    }

    method UnpackSensortimeFrame(index: nat) returns (rslt: Status, index': nat)
      requires length < data.Length
      modifies this`sensorTime
      ensures if index + TIME_LENGTH > length then
                rslt == Ok && index' == length && sensorTime == old(sensorTime)
              else
                rslt == Partial && index' == index + TIME_LENGTH && sensorTime == TimeAt(data[..], index)
    {
      if index + 3 > length {
        index' := length;
        rslt := Ok;
      } else {
        sensorTime := data[index + 2] as int * 0x1_0000 + data[index + 1] as int * 0x100 + data[index] as int;
        index' := index + 3;
        rslt := Partial;
      }
    }

    method UnpackSkippedFrame(index: nat) returns (rslt: Status, index': nat)
      requires length < data.Length
      modifies this`skippedFrameCount
      ensures if index >= length then
                rslt == Ok && index' == length && skippedFrameCount == old(skippedFrameCount)
              else
                rslt == Partial && index' == index + 1 && skippedFrameCount == data[index]
    {
      if index >= length {
        index' := length;
        rslt := Ok;
      } else {
        skippedFrameCount := data[index];
        index' := index + 1;
        rslt := Partial;
      }
    }

    method UnpackAxes(start: nat) returns (a: Axes)
      requires start + AXES_LENGTH <= data.Length
      ensures a == AxesAt(data[..], start)
    {
      a := Axes(Signed16(data[start + 1] as int * 0x100 + data[start] as int),
                Signed16(data[start + 3] as int * 0x100 + data[start + 2] as int),
                Signed16(data[start + 5] as int * 0x100 + data[start + 4] as int));
    }

    method UnpackVirtSensorTime(index: nat) returns (time: nat, index': nat)
      requires index + TIME_LENGTH <= data.Length
      ensures time == TimeAt(data[..], index) && index' == index + TIME_LENGTH
    {
      time := data[index + 2] as int * 0x1_0000 + data[index + 1] as int * 0x100 + data[index] as int;
      index' := index + 3;
    }

    /** A frame of other sensors only, passed over with the length field kept for it. */
    method PassFrame(ghost start: nat, index: nat, ghost header: byte, frameLength: nat, ghost s4s: bool)
      returns (rslt: Status, index': nat)
      requires Valid(s4s) && start < length && IsDataHeader(header) && frameLength == DataLength(header, s4s)
      requires index == HeaderIndex(data[..], start) + 1 && header == data[index - 1]
      ensures var o := ParseAt(data[..], length, start, s4s);
              var c := Cursor(start, sensorTime, skippedFrameCount, Ok);
              && Stepped(o, length, c, Cursor(index', sensorTime, skippedFrameCount, rslt))
              && (HitBy(o, Acc) ==> HasAcc(header)) && (HitBy(o, Gyr) ==> HasGyr(header))
              && (HitBy(o, Aux) ==> HasAux(header))
    {
      ParseDataFrame(data[..], length, start, s4s);
      hide ParseAt, DataLength, AxesAt, TimeAt;
      rslt, index' := MoveNextFrame(index, frameLength);
    }

    /** The cases every switch ends with: sensor time, skip, input configuration, activity, and any
        byte that is no header (0x80, "over-read", included). */
    method DispatchControl(start: nat, index: nat, header: byte, s4s: bool) returns (rslt: Status, index': nat)
      requires Valid(s4s) && start < length && !IsDataHeader(header)
      requires index == HeaderIndex(data[..], start) + 1 && header == data[index - 1]
      modifies this`sensorTime, this`skippedFrameCount
      ensures var o := ParseAt(data[..], length, start, s4s);
              var c := Cursor(start, old(sensorTime), old(skippedFrameCount), Ok);
              && Stepped(o, length, c, Cursor(index', sensorTime, skippedFrameCount, rslt))
              && !HitBy(o, Acc) && !HitBy(o, Gyr) && !HitBy(o, Aux)
    {
      ParseByHeader(data[..], length, start, s4s);
      hide ParseAt, TimeAt;
      if header == HEADER_SENS_TIME {
        rslt, index' := UnpackSensortimeFrame(index);
      } else if header == HEADER_SKIP {
        rslt, index' := UnpackSkippedFrame(index);
      } else if header == HEADER_INPUT_CFG {
        rslt, index' := MoveNextFrame(index, 4);
      } else if header == HEADER_ACT_RECOG {
        rslt, index' := MoveNextFrame(index, 6);
      } else {
        index' := length;
        rslt := Empty;
      }
    }

    // ---------- accelerometer ----------

    /** Fills the caller's slot, passed in and out as a value, if the frame fits. */
    method UnpackAccelHeaderFrame(slot: Sample, ghost start: nat, index: nat, accIdx: nat, frame: byte, dev: Settings)
      returns (rslt: Status, index': nat, accIdx': nat, slot': Sample)
      requires Valid(dev.s4s) && start < length && HasAcc(frame)
      requires index == HeaderIndex(data[..], start) + 1 && frame == data[index - 1]
      ensures var o := ParseAt(data[..], length, start, dev.s4s);
              var c := Cursor(start, sensorTime, skippedFrameCount, Ok);
              && Stepped(o, length, c, Cursor(index', sensorTime, skippedFrameCount, rslt))
              && (if HitBy(o, Acc) then accIdx' == accIdx + 1 && slot' == AccSample(dev, o.frame, slot)
                  else accIdx' == accIdx && slot' == slot)
    {
      ParseDataFrame(data[..], length, start, dev.s4s);
      hide ParseAt, AxesAt, TimeAt;
      var guard, dataOffset, advance;
      if frame == HEADER_ACC {
        guard, dataOffset, advance := frmLen.acc, 0, 6;
      } else if frame == HEADER_GYR_ACC {
        guard, dataOffset, advance := frmLen.accGyr, 6, 12;
      } else if frame == HEADER_AUX_ACC {
        guard, dataOffset, advance := frmLen.accAux, 8, 14;
      } else {
        guard, dataOffset, advance := frmLen.all, 14, 20;
      }
      assert guard == DataLength(frame, dev.s4s) && dataOffset == AccOffset(frame) && advance == TimeOffset(frame);
      if index + guard > length {
        return Ok, length, accIdx, slot;
      }
      var raw := UnpackAxes(index + dataOffset);
      slot' := slot.(axes := Remapped(dev.remap, raw));
      index' := index + advance;
      if dev.s4s {
        var time;
        time, index' := UnpackVirtSensorTime(index');
        slot' := slot'.(time := time);
      }
      accIdx' := accIdx + 1;
      rslt := Partial;
    }

    /** One turn of the accelerometer loop up to its switch. */
    method AccelTurn(acc: array<Sample>, start: nat, accIdx: nat, dev: Settings)
      returns (rslt: Status, index: nat, accIdx': nat)
      requires Valid(dev.s4s) && start < length && accIdx < acc.Length
      modifies this`sensorTime, this`skippedFrameCount, acc
      ensures Valid(dev.s4s) && Buf(dev.s4s) == old(Buf(dev.s4s))
      ensures var o := ParseAt(data[..], length, start, dev.s4s);
              var c := Cursor(start, old(sensorTime), old(skippedFrameCount), Ok);
              && Stepped(o, length, c, Cursor(index, sensorTime, skippedFrameCount, rslt))
              && accIdx' == (if HitBy(o, Acc) then accIdx + 1 else accIdx)
              && acc[..] == if HitBy(o, Acc) then old(acc[..])[accIdx := AccSample(dev, o.frame, old(acc[accIdx]))]
                            else old(acc[..])
    {
      DataLengths(dev.s4s);
      hide ParseAt, DataLength, Stepped, AccSample, HitBy, HeaderIndex;
      var header := data[start];
      header, index := ParseIfVirtualHeader(header, start);
      index := index + 1;
      accIdx' := accIdx;
      if header == HEADER_ACC || header == HEADER_AUX_ACC || header == HEADER_GYR_ACC || header == HEADER_ALL {
        var slot;
        rslt, index, accIdx', slot := UnpackAccelHeaderFrame(acc[accIdx], start, index, accIdx, header, dev);
        acc[accIdx] := slot;
      } else if header == HEADER_GYR {
        rslt, index := PassFrame(start, index, header, frmLen.gyr, dev.s4s);
      } else if header == HEADER_AUX {
        rslt, index := PassFrame(start, index, header, frmLen.aux, dev.s4s);
      } else if header == HEADER_AUX_GYR {
        rslt, index := PassFrame(start, index, header, frmLen.auxGyr, dev.s4s);
      } else {
        rslt, index := DispatchControl(start, index, header, dev.s4s);
      }
    }

    method ExtractAccelHeaderMode(acc: array<Sample>, wanted: uint16, dev: Settings) returns (rslt: Status, count: nat)
      requires Valid(dev.s4s) && Room(acc.Length, wanted, length)
      modifies this`accByteStartIdx, this`sensorTime, this`skippedFrameCount, acc
      ensures var w := Walk(Buf(dev.s4s), Acc,
                            Cursor(old(accByteStartIdx), old(sensorTime), old(skippedFrameCount), Ok), wanted);
              && Cursor(accByteStartIdx, sensorTime, skippedFrameCount, rslt) == w.end
              && AccKept(old(acc[..]), acc[..], dev, w.frames, count)
    {
      hide Walk, HitBy, SeenAfter, AccSample, ParseAt, AccKept, Stepped, InWalk;
      rslt := Ok;
      var dataIndex := accByteStartIdx;
      var accelIndex: nat := 0;
      ghost var b := Buf(dev.s4s);
      ghost var before := acc[..];
      ghost var goal := Walk(b, Acc, Cursor(dataIndex, sensorTime, skippedFrameCount, Ok), wanted);
      ghost var seen: seq<Frame> := [];
      WalkStarts(b, Acc, Cursor(dataIndex, sensorTime, skippedFrameCount, Ok), wanted);
      AccNothingKept(before, dev);
      while dataIndex < length
        invariant Valid(dev.s4s) && b == Buf(dev.s4s)
        invariant InWalk(b, Acc, goal, seen, Cursor(dataIndex, sensorTime, skippedFrameCount, rslt), wanted, accelIndex)
        invariant dataIndex >= length ==> goal == Trace(seen, Cursor(dataIndex, sensorTime, skippedFrameCount, rslt))
        invariant AccKept(before, acc[..], dev, seen, accelIndex)
        invariant accelIndex <= dataIndex && (wanted >= 1 ==> accelIndex < wanted)
        decreases length - dataIndex
      {
        ghost var c := Cursor(dataIndex, sensorTime, skippedFrameCount, rslt);
        ghost var mid, count0 := acc[..], accelIndex;
        rslt, dataIndex, accelIndex := AccelTurn(acc, dataIndex, accelIndex, dev);
        ghost var c' := Cursor(dataIndex, sensorTime, skippedFrameCount, rslt);
        LoopTurn(b, Acc, goal, c, c', wanted, count0, accelIndex, seen);
        AccKeepsTurn(before, mid, acc[..], dev, seen, count0, Next(b, c));
        seen := SeenAfter(Next(b, c), seen);
        if wanted == accelIndex || rslt == Empty {
          break;
        }
      }
      accByteStartIdx := dataIndex;
      count := accelIndex;
    }

    // ---------- gyroscope ----------

    /** Fills the caller's slot, passed in and out as a value, if the frame fits. */
    method UnpackGyroHeaderFrame(slot: Sample, ghost start: nat, index: nat, gyrIdx: nat, frame: byte, dev: Settings)
      returns (rslt: Status, index': nat, gyrIdx': nat, slot': Sample)
      requires Valid(dev.s4s) && start < length && HasGyr(frame)
      requires index == HeaderIndex(data[..], start) + 1 && frame == data[index - 1]
      ensures var o := ParseAt(data[..], length, start, dev.s4s);
              var c := Cursor(start, sensorTime, skippedFrameCount, Ok);
              && Stepped(o, length, c, Cursor(index', sensorTime, skippedFrameCount, rslt))
              && (if HitBy(o, Gyr) then gyrIdx' == gyrIdx + 1 && slot' == GyrSample(dev, o.frame, slot)
                  else gyrIdx' == gyrIdx && slot' == slot)
    {
      ParseDataFrame(data[..], length, start, dev.s4s);
      hide ParseAt, AxesAt, TimeAt;
      var guard, dataOffset, advance;
      if frame == HEADER_GYR {
        guard, dataOffset, advance := frmLen.gyr, 0, 6;
      } else if frame == HEADER_GYR_ACC {
        guard, dataOffset, advance := frmLen.accGyr, 0, 12;
      } else if frame == HEADER_AUX_GYR {
        guard, dataOffset, advance := frmLen.auxGyr, 8, 14;
      } else {
        guard, dataOffset, advance := frmLen.all, 8, 20;
      }
      assert guard == DataLength(frame, dev.s4s) && dataOffset == GyrOffset(frame) && advance == TimeOffset(frame);
      if index + guard > length {
        return Ok, length, gyrIdx, slot;
      }
      var raw := UnpackAxes(index + dataOffset);
      slot' := slot.(axes := Remapped(dev.remap, Compensated(dev.crossSense, raw)));
      index' := index + advance;
      if dev.s4s {
        var time;
        time, index' := UnpackVirtSensorTime(index');
        slot' := slot'.(time := time);
      }
      gyrIdx' := gyrIdx + 1;
      rslt := Partial;
    }

    /** One turn of the gyroscope loop up to its switch. */
    method GyroTurn(gyr: array<Sample>, start: nat, gyrIdx: nat, dev: Settings)
      returns (rslt: Status, index: nat, gyrIdx': nat)
      requires Valid(dev.s4s) && start < length && gyrIdx < gyr.Length
      modifies this`sensorTime, this`skippedFrameCount, gyr
      ensures Valid(dev.s4s) && Buf(dev.s4s) == old(Buf(dev.s4s))
      ensures var o := ParseAt(data[..], length, start, dev.s4s);
              var c := Cursor(start, old(sensorTime), old(skippedFrameCount), Ok);
              && Stepped(o, length, c, Cursor(index, sensorTime, skippedFrameCount, rslt))
              && gyrIdx' == (if HitBy(o, Gyr) then gyrIdx + 1 else gyrIdx)
              && gyr[..] == if HitBy(o, Gyr) then old(gyr[..])[gyrIdx := GyrSample(dev, o.frame, old(gyr[gyrIdx]))]
                            else old(gyr[..])
    {
      DataLengths(dev.s4s);
      hide ParseAt, DataLength, Stepped, GyrSample, HitBy, HeaderIndex;
      var header := data[start];
      header, index := ParseIfVirtualHeader(header, start);
      index := index + 1;
      gyrIdx' := gyrIdx;
      if header == HEADER_GYR || header == HEADER_GYR_ACC || header == HEADER_AUX_GYR || header == HEADER_ALL {
        var slot;
        rslt, index, gyrIdx', slot := UnpackGyroHeaderFrame(gyr[gyrIdx], start, index, gyrIdx, header, dev);
        gyr[gyrIdx] := slot;
      } else if header == HEADER_ACC {
        rslt, index := PassFrame(start, index, header, frmLen.acc, dev.s4s);
      } else if header == HEADER_AUX {
        rslt, index := PassFrame(start, index, header, frmLen.aux, dev.s4s);
      } else if header == HEADER_AUX_ACC {
        rslt, index := PassFrame(start, index, header, frmLen.accAux, dev.s4s);
      } else {
        rslt, index := DispatchControl(start, index, header, dev.s4s);
      }
    }

    method ExtractGyroHeaderMode(gyr: array<Sample>, wanted: uint16, dev: Settings) returns (rslt: Status, count: nat)
      requires Valid(dev.s4s) && Room(gyr.Length, wanted, length)
      modifies this`gyrByteStartIdx, this`sensorTime, this`skippedFrameCount, gyr
      ensures var w := Walk(Buf(dev.s4s), Gyr,
                            Cursor(old(gyrByteStartIdx), old(sensorTime), old(skippedFrameCount), Ok), wanted);
              && Cursor(gyrByteStartIdx, sensorTime, skippedFrameCount, rslt) == w.end
              && GyrKept(old(gyr[..]), gyr[..], dev, w.frames, count)
    {
      hide Walk, HitBy, SeenAfter, GyrSample, ParseAt, GyrKept, Stepped, InWalk;
      rslt := Ok;
      var dataIndex := gyrByteStartIdx;
      var gyroIndex: nat := 0;
      ghost var b := Buf(dev.s4s);
      ghost var before := gyr[..];
      ghost var goal := Walk(b, Gyr, Cursor(dataIndex, sensorTime, skippedFrameCount, Ok), wanted);
      ghost var seen: seq<Frame> := [];
      WalkStarts(b, Gyr, Cursor(dataIndex, sensorTime, skippedFrameCount, Ok), wanted);
      GyrNothingKept(before, dev);
      while dataIndex < length
        invariant Valid(dev.s4s) && b == Buf(dev.s4s)
        invariant InWalk(b, Gyr, goal, seen, Cursor(dataIndex, sensorTime, skippedFrameCount, rslt), wanted, gyroIndex)
        invariant dataIndex >= length ==> goal == Trace(seen, Cursor(dataIndex, sensorTime, skippedFrameCount, rslt))
        invariant GyrKept(before, gyr[..], dev, seen, gyroIndex)
        invariant gyroIndex <= dataIndex && (wanted >= 1 ==> gyroIndex < wanted)
        decreases length - dataIndex
      {
        ghost var c := Cursor(dataIndex, sensorTime, skippedFrameCount, rslt);
        ghost var mid, count0 := gyr[..], gyroIndex;
        rslt, dataIndex, gyroIndex := GyroTurn(gyr, dataIndex, gyroIndex, dev);
        ghost var c' := Cursor(dataIndex, sensorTime, skippedFrameCount, rslt);
        LoopTurn(b, Gyr, goal, c, c', wanted, count0, gyroIndex, seen);
        GyrKeepsTurn(before, mid, gyr[..], dev, seen, count0, Next(b, c));
        seen := SeenAfter(Next(b, c), seen);
        if wanted == gyroIndex || rslt == Empty {
          break;
        }
      }
      gyrByteStartIdx := dataIndex;
      count := gyroIndex;
    }

    // ---------- auxiliary sensor ----------

    method UnpackAuxData(start: nat) returns (bytes: seq<byte>)
      requires start + AUX_LENGTH <= data.Length
      ensures bytes == data[start..start + AUX_LENGTH]
    {
      bytes := [];
      var idx := 0;
      while idx < 8
        invariant 0 <= idx <= 8 && bytes == data[start..start + idx]
      {
        bytes := bytes + [data[start + idx]];
        idx := idx + 1;
      }
    }

    method UnpackAuxFrame(ghost start: nat, index: nat, auxIdx: nat, frame: byte, dev: Settings)
      returns (rslt: Status, index': nat, auxIdx': nat, bytes: seq<byte>, time: nat)
      requires Valid(dev.s4s) && start < length && HasAux(frame)
      requires index == HeaderIndex(data[..], start) + 1 && frame == data[index - 1]
      ensures var o := ParseAt(data[..], length, start, dev.s4s);
              var c := Cursor(start, sensorTime, skippedFrameCount, Ok);
              && Stepped(o, length, c, Cursor(index', sensorTime, skippedFrameCount, rslt))
              && (if HitBy(o, Aux) then
                    auxIdx' == auxIdx + 1 && bytes == o.frame.body.aux.value && time == o.frame.body.time
                  else auxIdx' == auxIdx)
    {
      ParseDataFrame(data[..], length, start, dev.s4s);
      hide ParseAt, AxesAt, TimeAt;
      time, bytes := 0, [];
      var guard, advance;
      if frame == HEADER_AUX {
        guard, advance := frmLen.aux, 8;
      } else if frame == HEADER_AUX_ACC {
        guard, advance := frmLen.accAux, 14;
      } else if frame == HEADER_AUX_GYR {
        guard, advance := frmLen.auxGyr, 14;
      } else {
        guard, advance := frmLen.all, 20;
      }
      assert guard == DataLength(frame, dev.s4s) && advance == TimeOffset(frame);
      if index + guard > length {
        return Ok, length, auxIdx, bytes, time;
      }
      bytes := UnpackAuxData(index);
      assert data[index..index + 8] == data[..][index..index + 8];
      index' := index + advance;
      if dev.s4s {
        time, index' := UnpackVirtSensorTime(index');
      }
      auxIdx' := auxIdx + 1;
      rslt := Partial;
    }

    /** One turn of the auxiliary loop up to its switch. */
    method AuxTurn(aux: array<AuxSample>, start: nat, auxIdx: nat, dev: Settings)
      returns (rslt: Status, index: nat, auxIdx': nat)
      requires Valid(dev.s4s) && start < length && auxIdx < aux.Length && (dev.s4s ==> 2 * auxIdx < aux.Length)
      modifies this`sensorTime, this`skippedFrameCount, aux
      ensures Valid(dev.s4s) && Buf(dev.s4s) == old(Buf(dev.s4s))
      ensures var o := ParseAt(data[..], length, start, dev.s4s);
              var c := Cursor(start, old(sensorTime), old(skippedFrameCount), Ok);
              && Stepped(o, length, c, Cursor(index, sensorTime, skippedFrameCount, rslt))
              && auxIdx' == (if HitBy(o, Aux) then auxIdx + 1 else auxIdx)
              && aux[..] == if HitBy(o, Aux) then AuxWritten(dev, o.frame, old(aux[..]), auxIdx) else old(aux[..])
    {
      DataLengths(dev.s4s);
      hide ParseAt, DataLength, Stepped, HeaderIndex;
      var header := data[start];
      header, index := ParseIfVirtualHeader(header, start);
      index := index + 1;
      auxIdx' := auxIdx;
      if header == HEADER_AUX || header == HEADER_AUX_ACC || header == HEADER_AUX_GYR || header == HEADER_ALL {
        var bytes, time;
        rslt, index, auxIdx', bytes, time := UnpackAuxFrame(start, index, auxIdx, header, dev);
        if auxIdx' != auxIdx {
          aux[auxIdx] := aux[auxIdx].(data := bytes);
          if dev.s4s {
            aux[2 * auxIdx] := aux[2 * auxIdx].(time := time);
          }
        }
      } else if header == HEADER_ACC {
        rslt, index := PassFrame(start, index, header, frmLen.acc, dev.s4s);
      } else if header == HEADER_GYR {
        rslt, index := PassFrame(start, index, header, frmLen.gyr, dev.s4s);
      } else if header == HEADER_GYR_ACC {
        rslt, index := PassFrame(start, index, header, frmLen.accGyr, dev.s4s);
      } else {
        rslt, index := DispatchControl(start, index, header, dev.s4s);
      }
    }

    method ExtractAuxHeaderMode(aux: array<AuxSample>, wanted: uint16, dev: Settings) returns (rslt: Status, count: nat)
      requires Valid(dev.s4s) && AuxRoom(aux.Length, wanted, length, dev.s4s)
      modifies this`auxByteStartIdx, this`sensorTime, this`skippedFrameCount, aux
      ensures var w := Walk(Buf(dev.s4s), Aux,
                            Cursor(old(auxByteStartIdx), old(sensorTime), old(skippedFrameCount), Ok), wanted);
              && Cursor(auxByteStartIdx, sensorTime, skippedFrameCount, rslt) == w.end
              && AuxKept(old(aux[..]), aux[..], dev, w.frames, count)
    {
      hide Walk, HitBy, SeenAfter, AuxWritten, ParseAt, AuxKept, Stepped, InWalk, AuxRoom;
      rslt := Ok;
      var dataIndex := auxByteStartIdx;
      var auxIndex: nat := 0;
      ghost var b := Buf(dev.s4s);
      ghost var before := aux[..];
      ghost var goal := Walk(b, Aux, Cursor(dataIndex, sensorTime, skippedFrameCount, Ok), wanted);
      ghost var seen: seq<Frame> := [];
      WalkStarts(b, Aux, Cursor(dataIndex, sensorTime, skippedFrameCount, Ok), wanted);
      AuxNothingKept(before, dev);
      while dataIndex < length
        invariant Valid(dev.s4s) && b == Buf(dev.s4s)
        invariant InWalk(b, Aux, goal, seen, Cursor(dataIndex, sensorTime, skippedFrameCount, rslt), wanted, auxIndex)
        invariant dataIndex >= length ==> goal == Trace(seen, Cursor(dataIndex, sensorTime, skippedFrameCount, rslt))
        invariant AuxKept(before, aux[..], dev, seen, auxIndex)
        invariant auxIndex <= dataIndex && (wanted >= 1 ==> auxIndex < wanted)
        decreases length - dataIndex
      {
        ghost var c := Cursor(dataIndex, sensorTime, skippedFrameCount, rslt);
        AuxRoomFits(aux.Length, wanted, length, dev.s4s, auxIndex);
        ghost var mid, count0 := aux[..], auxIndex;
        rslt, dataIndex, auxIndex := AuxTurn(aux, dataIndex, auxIndex, dev);
        ghost var c' := Cursor(dataIndex, sensorTime, skippedFrameCount, rslt);
        LoopTurn(b, Aux, goal, c, c', wanted, count0, auxIndex, seen);
        AuxKeepsTurn(before, mid, aux[..], dev, seen, count0, Next(b, c));
        seen := SeenAfter(Next(b, c), seen);
        if wanted == auxIndex || rslt == Empty {
          break;
        }
      }
      auxByteStartIdx := dataIndex;
      count := auxIndex;
    }

    // ---------- headerless mode ----------

    /** `parse_fifo_accel_len`, `_gyro_len` and `_aux_len`, which differ only in what they multiply. */
    method ParseFifoLen(k: Sensor, from: nat, wanted: uint16)
      returns (start: nat, readLength: nat, skip: nat, rslt: Status)
      ensures if dataEnable.Includes(k) then
                && rslt == Ok && start == Cut16(from + dataEnable.Offset(k)) && skip == dataEnable.FrameLength()
                && readLength == ReadLength(dataEnable, wanted, length)
              else rslt == Empty && start == length && readLength == 0
    {
      rslt, readLength, skip, start := Ok, 0, 0, Cut16(from);
      match dataEnable {
        case Enabled(true, false, false) =>
          if k == Acc { readLength, skip := wanted * 6 % 0x1_0000, 6; }
        case Enabled(false, true, false) =>
          if k == Gyr { readLength, skip := wanted * 6 % 0x1_0000, 6; }
        case Enabled(false, false, true) =>
          if k == Aux { readLength, skip := wanted * 8 % 0x1_0000, 8; }
        case Enabled(true, false, true) =>
          if k == Acc { readLength, skip, start := wanted * 14 % 0x1_0000, 14, Cut16(from + 8); }
          if k == Aux { readLength, skip := wanted * 14 % 0x1_0000, 14; }
        case Enabled(false, true, true) =>
          if k == Gyr { readLength, skip, start := wanted * 14 % 0x1_0000, 14, Cut16(from + 8); }
          if k == Aux { readLength, skip := wanted * 14 % 0x1_0000, 14; }
        case Enabled(true, true, false) =>
          if k == Acc { readLength, skip, start := wanted * 12 % 0x1_0000, 12, Cut16(from + 6); }
          if k == Gyr { readLength, skip := wanted * 12 % 0x1_0000, 12; }
        case Enabled(true, true, true) =>
          readLength, skip := wanted * 20 % 0x1_0000, 20;
          if k == Acc { start := Cut16(from + 14); }
          if k == Gyr { start := Cut16(from + 8); }
        case Enabled(false, false, false) =>
      }
      if skip == 0 {
        start := length;
        rslt := Empty;
      }
      if readLength > length {
        readLength := length;
      }
    }

    method CheckDummyFrame(k: Sensor, index: nat, skip: nat, ghost s4s: bool) returns (rslt: Status, index': nat)
      requires length < data.Length
      ensures if index + 6 >= length then rslt == Empty && index' == length
              else if IsDummy(Buf(s4s), k, index) then rslt == Dummy && index' == Cut16(index + skip)
              else rslt == Ok && index' == index
    {
      index' := index;
      if index + 6 < length {
        if data[index] == DummyMark(k) && data[index + 1] == 0x7F && data[index + 2] == 0x00
            && data[index + 3] == 0x80 {
          index' := Cut16(index + skip);
          rslt := Dummy;
        } else {
          rslt := Ok;
        }
      } else {
        index' := length;
        rslt := Empty;
      }
    }

    method CheckEmptyFifo(index: nat, ghost s4s: bool) returns (rslt: Status, index': nat)
      requires length < data.Length
      ensures if IsEmptyMark(Buf(s4s), index) then rslt == Empty && index' == length
              else rslt == (if index + 6 < length then Partial else Ok) && index' == index
    {
      rslt, index' := Ok, index;
      if index + 6 < length {
        if data[index] == 0x00 && data[index + 1] == 0x80 && data[index + 2] == 0x00
           && data[index + 3] == 0x80 && data[index + 4] == 0x00 && data[index + 5] == 0x80 {
          index' := length;
          rslt := Empty;
        } else {
          rslt := Partial;
        }
      }
    }

    /** What the loop does in at most `turns` turns. */
    ghost function Headless(k: Sensor, from: nat, wanted: uint16, s4s: bool, turns: nat): Positions
      reads this, data
      requires Valid(s4s)
    {
      Turns(Buf(s4s), k, dataEnable, ReadLength(dataEnable, wanted, length), Cut16(from + dataEnable.Offset(k)), Ok,
            turns)
    }

    /** The loop ends within `turns` turns, and the caller's array has room for what it finds. */
    ghost predicate Fits(k: Sensor, from: nat, wanted: uint16, s4s: bool, turns: nat, room: nat)
      reads this, data
      requires Valid(s4s)
    {
      dataEnable.Includes(k) ==>
        var t := Headless(k, from, wanted, s4s, turns);
        Over(ReadLength(dataEnable, wanted, length), t) && |t.taken| <= room
    }

    /** So it does, in an array of the requested size, if the FIFO's length leaves a dummy frame no way to
        carry the index past sixteen bits. */
    lemma ShortFits(k: Sensor, from: nat, wanted: uint16, s4s: bool)
      requires Valid(s4s) && length + dataEnable.FrameLength() <= 0x1_0006
      ensures Fits(k, from, wanted, s4s, length, wanted)
    {
      hide Turns, ReadLength;
      if dataEnable.Includes(k) {
        ShortCall(Buf(s4s), k, dataEnable, wanted, Cut16(from + dataEnable.Offset(k)), length);
      }
    }

    /** The field the headerless switch compares with: the length of the whole frame. */
    function GuardLength(): nat
      reads this
    {
      match dataEnable
      case Enabled(true, false, false) => frmLen.acc
      case Enabled(false, true, false) => frmLen.gyr
      case Enabled(false, false, true) => frmLen.aux
      case Enabled(true, true, false) => frmLen.accGyr
      case Enabled(true, false, true) => frmLen.accAux
      case Enabled(false, true, true) => frmLen.auxGyr
      case Enabled(true, true, true) => frmLen.all
      case Enabled(false, false, false) => 0
    }

    lemma GuardIsStep(s4s: bool)
      requires Valid(s4s) && (dataEnable.acc || dataEnable.gyr || dataEnable.aux)
      ensures GuardLength() == Step(dataEnable, s4s)
    {
    }

    /** One turn of the accelerometer's or gyroscope's headerless loop. */
    method AxesHeaderlessTurn(k: Sensor, out: array<Sample>, start: nat, count: nat, skip: nat, dev: Settings)
      returns (rslt: Status, index: nat, count': nat)
      requires Valid(dev.s4s) && k != Aux && dataEnable.Includes(k) && skip == dataEnable.FrameLength()
      requires ScanStep(Buf(dev.s4s), k, dataEnable, start).2 ==> count < out.Length
      modifies out
      ensures var b := Buf(dev.s4s);
              var (next, status, hit) := ScanStep(b, k, dataEnable, start);
              && rslt == status && index == next && count' == (if hit then count + 1 else count)
              && (hit ==> start + 6 < length && start + Step(dataEnable, dev.s4s) <= length)
              && out[..] == if hit then
                              old(out[..])[count := AxesSample(dev, k, dataEnable, b.data, start, old(out[count]))]
                            else old(out[..])
    {
      GuardIsStep(dev.s4s);
      hide GuardLength, Step, IsDummy, IsEmptyMark, AxesSample, Cut16, Valid, Enabled.FrameLength, Enabled.Offset,
          DummyMark, AxesAt, TimeAt, Compensated, Remapped;
      count' := count;
      rslt, index := CheckDummyFrame(k, start, skip, dev.s4s);
      if rslt == Ok {
        if index + GuardLength() > length {
          index := length;
        } else {
          UnpackHeaderlessFrame(k, out, index, count, dev);
          index := index + GuardLength();
          count' := count + 1;
          rslt := Partial;
        }
        rslt, index := CheckEmptyFifo(index, dev.s4s);
      }
    }

    /** The sample of a frame that fits: the data the switch of the headerless unpackers writes. */
    method UnpackHeaderlessFrame(k: Sensor, out: array<Sample>, index: nat, count: nat, dev: Settings)
      requires k != Aux && dataEnable.Includes(k) && length < data.Length && count < out.Length
      requires index + Step(dataEnable, dev.s4s) <= length
      modifies out
      ensures out[..] == old(out[..])[count := AxesSample(dev, k, dataEnable, data[..], index, old(out[count]))]
    {
      hide AxesAt, TimeAt;
      var raw := UnpackAxes(index);
      var slot := out[count];
      var axes := if k == Acc then raw else Compensated(dev.crossSense, raw);
      slot := slot.(axes := Remapped(dev.remap, axes));
      if dev.s4s {
        var time, _ := UnpackVirtSensorTime(index + dataEnable.FrameLength());
        slot := slot.(time := time);
      }
      out[count] := slot;
    }

    /** `extract_accel_headerless_mode` and `extract_gyro_headerless_mode`, from the byte index `from`; the
        caller stores the returned index. */
    method ExtractAxesHeaderlessMode(k: Sensor, out: array<Sample>, from: nat, wanted: uint16, dev: Settings,
                                     ghost turns: nat)
      returns (rslt: Status, count: nat, dataIndex: nat)
      requires Valid(dev.s4s) && k != Aux && Fits(k, from, wanted, dev.s4s, turns, out.Length)
      modifies out
      ensures dataEnable.Includes(k) ==>
                var t := Headless(k, from, wanted, dev.s4s, turns);
                && rslt == t.status && dataIndex == t.index && count == |t.taken|
                && AxesTaken(old(out[..]), out[..], dev, k, Buf(dev.s4s), dataEnable, t.taken)
      ensures !dataEnable.Includes(k) ==>
                rslt == Empty && count == 0 && dataIndex == length && out[..] == old(out[..])
    {
      hide Turns, AxesTaken, IsDummy, IsEmptyMark, AxesSample, ReadLength, ScanStep, Step, PrecededBy, Cut16;
      var readLength, skip;
      dataIndex, readLength, skip, rslt := ParseFifoLen(k, from, wanted);
      count := 0;
      if !dataEnable.Includes(k) {
        return;
      }
      ghost var b, e, before, left := Buf(dev.s4s), dataEnable, out[..], turns;
      ghost var goal := Turns(b, k, e, readLength, dataIndex, Ok, turns);
      ghost var seen: seq<nat> := [];
      NothingTaken(before, dev, k, b, e, goal);
      while dataIndex < readLength && rslt != Empty
        invariant Valid(dev.s4s) && b == Buf(dev.s4s) && e == dataEnable
        invariant goal == PrecededBy(seen, Turns(b, k, e, readLength, dataIndex, rslt, left))
        invariant |seen| == count
        invariant AxesTaken(before, out[..], dev, k, b, e, seen)
        decreases left
      {
        ghost var i, mid, count0 := dataIndex, out[..], count;
        StillRunning(b, k, e, readLength, dataIndex, rslt, left, seen);
        TurnsNext(b, k, e, readLength, dataIndex, rslt, left, seen);
        rslt, dataIndex, count := AxesHeaderlessTurn(k, out, dataIndex, count, skip, dev);
        if count != count0 {
          AxesTakenNext(before, mid, dev, k, b, e, seen, i);
          seen := seen + [i];
        }
        left := left - 1;
      }
      AllSeen(b, k, e, readLength, dataIndex, rslt, left, seen);
    }

    /** The part of `unpack_aux_frame` that serves headerless frames. */
    method UnpackAuxHeaderless(aux: array<AuxSample>, index: nat, count: nat, dev: Settings)
      requires dataEnable.aux && length < data.Length && count < aux.Length && (dev.s4s ==> 2 * count < aux.Length)
      requires index + Step(dataEnable, dev.s4s) <= length
      modifies aux
      ensures aux[..] == AuxWritten(dev, AuxFrameAt(data[..], index, dataEnable, dev.s4s), old(aux[..]), count)
    {
      hide TimeAt;
      var bytes := UnpackAuxData(index);
      aux[count] := aux[count].(data := bytes);
      if dev.s4s {
        var time, _ := UnpackVirtSensorTime(index + dataEnable.FrameLength());
        aux[2 * count] := aux[2 * count].(time := time);
      }
    }

    /** One turn of the auxiliary sensor's headerless loop. */
    method AuxHeaderlessTurn(aux: array<AuxSample>, start: nat, count: nat, skip: nat, dev: Settings)
      returns (rslt: Status, index: nat, count': nat)
      requires Valid(dev.s4s) && dataEnable.aux && skip == dataEnable.FrameLength()
      requires ScanStep(Buf(dev.s4s), Aux, dataEnable, start).2 ==>
                 count < aux.Length && (dev.s4s ==> 2 * count < aux.Length)
      modifies aux
      ensures var b := Buf(dev.s4s);
              var (next, status, hit) := ScanStep(b, Aux, dataEnable, start);
              && rslt == status && index == next && count' == (if hit then count + 1 else count)
              && (hit ==> start + 6 < length && start + Step(dataEnable, dev.s4s) <= length)
              && aux[..] == if hit then
                              AuxWritten(dev, AuxFrameAt(b.data, start, dataEnable, dev.s4s), old(aux[..]), count)
                            else old(aux[..])
    {
      GuardIsStep(dev.s4s);
      hide GuardLength, IsDummy, IsEmptyMark, AuxWritten, AuxFrameAt, Valid;
      count' := count;
      rslt, index := CheckDummyFrame(Aux, start, skip, dev.s4s);
      if rslt == Ok {
        if index + GuardLength() > length {
          index := length;
        } else {
          UnpackAuxHeaderless(aux, index, count, dev);
          index := index + GuardLength();
          count' := count + 1;
          rslt := Partial;
        }
        rslt, index := CheckEmptyFifo(index, dev.s4s);
      }
    }

    /** `extract_aux_headerless_mode`, from the byte index `from`. */
    method ExtractAuxHeaderlessMode(aux: array<AuxSample>, from: nat, wanted: uint16, dev: Settings, ghost turns: nat)
      returns (rslt: Status, count: nat, dataIndex: nat)
      requires Valid(dev.s4s) && Fits(Aux, from, wanted, dev.s4s, turns, AuxSlots(aux.Length, dev.s4s))
      modifies aux
      ensures dataEnable.aux ==>
                var t := Headless(Aux, from, wanted, dev.s4s, turns);
                && rslt == t.status && dataIndex == t.index && count == |t.taken|
                && AuxTaken(old(aux[..]), aux[..], dev, Buf(dev.s4s), dataEnable, t.taken)
      ensures !dataEnable.aux ==> rslt == Empty && count == 0 && dataIndex == length && aux[..] == old(aux[..])
    {
      hide Turns, AuxTaken, IsDummy, IsEmptyMark, AuxWritten, AuxFrameAt, ReadLength, ScanStep, Step, PrecededBy, Cut16;
      var readLength, skip;
      dataIndex, readLength, skip, rslt := ParseFifoLen(Aux, from, wanted);
      count := 0;
      if !dataEnable.aux {
        return;
      }
      ghost var b, e, before, left := Buf(dev.s4s), dataEnable, aux[..], turns;
      ghost var goal := Turns(b, Aux, e, readLength, dataIndex, Ok, turns);
      ghost var seen: seq<nat> := [];
      NoAuxTaken(before, dev, b, e, goal);
      while dataIndex < readLength && rslt != Empty
        invariant Valid(dev.s4s) && b == Buf(dev.s4s) && e == dataEnable
        invariant goal == PrecededBy(seen, Turns(b, Aux, e, readLength, dataIndex, rslt, left))
        invariant |seen| == count
        invariant AuxTaken(before, aux[..], dev, b, e, seen)
        decreases left
      {
        ghost var i, mid, count0 := dataIndex, aux[..], count;
        StillRunning(b, Aux, e, readLength, dataIndex, rslt, left, seen);
        TurnsNext(b, Aux, e, readLength, dataIndex, rslt, left, seen);
        rslt, dataIndex, count := AuxHeaderlessTurn(aux, dataIndex, count, skip, dev);
        if count != count0 {
          AuxTakenNext(before, mid, dev, b, e, seen, i);
          seen := seen + [i];
        }
        left := left - 1;
      }
      AllSeen(b, Aux, e, readLength, dataIndex, rslt, left, seen);
    }

    // ---------- the public entry points ----------

    /** The first call skips the dummy byte of an SPI read, later calls go on from the saved index. */
    function From(saved: nat, dev: Settings): nat {
      if saved == 0 then dev.dummyByte else saved
    }

    /** `bmi2_extract_accel`. */
    method ExtractAccel(acc: array<Sample>, wanted: uint16, dev: Settings, ghost turns: nat)
      returns (rslt: Status, count: nat)
      requires Valid(dev.s4s)
      requires if headerEnable then Room(acc.Length, wanted, length)
               else Fits(Acc, From(accByteStartIdx, dev), wanted, dev.s4s, turns, acc.Length)
      modifies this`accByteStartIdx, this`sensorTime, this`skippedFrameCount, acc
      ensures var from := From(old(accByteStartIdx), dev);
              if headerEnable then
                var w := Walk(Buf(dev.s4s), Acc, Cursor(from, old(sensorTime), old(skippedFrameCount), Ok), wanted);
                && Cursor(accByteStartIdx, sensorTime, skippedFrameCount, rslt) == w.end
                && AccKept(old(acc[..]), acc[..], dev, w.frames, count)
              else if dataEnable.acc then
                var t := old(Headless(Acc, From(accByteStartIdx, dev), wanted, dev.s4s, turns));
                && rslt == t.status && accByteStartIdx == t.index && count == |t.taken|
                && AxesTaken(old(acc[..]), acc[..], dev, Acc, Buf(dev.s4s), dataEnable, t.taken)
              else
                rslt == Empty && accByteStartIdx == length && count == 0 && acc[..] == old(acc[..])
      ensures !headerEnable ==> sensorTime == old(sensorTime) && skippedFrameCount == old(skippedFrameCount)
    {
      hide Walk, Turns, Cut16, AccKept, AxesTaken, ReadLength;
      if accByteStartIdx == 0 {
        accByteStartIdx := dev.dummyByte;
      }
      if !headerEnable {
        var index;
        rslt, count, index := ExtractAxesHeaderlessMode(Acc, acc, accByteStartIdx, wanted, dev, turns);
        accByteStartIdx := index;
      } else {
        rslt, count := ExtractAccelHeaderMode(acc, wanted, dev);
      }
    }

    /** `bmi2_extract_gyro`. */
    method ExtractGyro(gyr: array<Sample>, wanted: uint16, dev: Settings, ghost turns: nat)
      returns (rslt: Status, count: nat)
      requires Valid(dev.s4s)
      requires if headerEnable then Room(gyr.Length, wanted, length)
               else Fits(Gyr, From(gyrByteStartIdx, dev), wanted, dev.s4s, turns, gyr.Length)
      modifies this`gyrByteStartIdx, this`sensorTime, this`skippedFrameCount, gyr
      ensures var from := From(old(gyrByteStartIdx), dev);
              if headerEnable then
                var w := Walk(Buf(dev.s4s), Gyr, Cursor(from, old(sensorTime), old(skippedFrameCount), Ok), wanted);
                && Cursor(gyrByteStartIdx, sensorTime, skippedFrameCount, rslt) == w.end
                && GyrKept(old(gyr[..]), gyr[..], dev, w.frames, count)
              else if dataEnable.gyr then
                var t := old(Headless(Gyr, From(gyrByteStartIdx, dev), wanted, dev.s4s, turns));
                && rslt == t.status && gyrByteStartIdx == t.index && count == |t.taken|
                && AxesTaken(old(gyr[..]), gyr[..], dev, Gyr, Buf(dev.s4s), dataEnable, t.taken)
              else
                rslt == Empty && gyrByteStartIdx == length && count == 0 && gyr[..] == old(gyr[..])
      ensures !headerEnable ==> sensorTime == old(sensorTime) && skippedFrameCount == old(skippedFrameCount)
    {
      hide Walk, Turns, Cut16, GyrKept, AxesTaken, ReadLength;
      if gyrByteStartIdx == 0 {
        gyrByteStartIdx := dev.dummyByte;
      }
      if !headerEnable {
        var index;
        rslt, count, index := ExtractAxesHeaderlessMode(Gyr, gyr, gyrByteStartIdx, wanted, dev, turns);
        gyrByteStartIdx := index;
      } else {
        rslt, count := ExtractGyroHeaderMode(gyr, wanted, dev);
      }
    }

    /** `bmi2_extract_aux`. */
    method ExtractAux(aux: array<AuxSample>, wanted: uint16, dev: Settings, ghost turns: nat)
      returns (rslt: Status, count: nat)
      requires Valid(dev.s4s)
      requires if headerEnable then AuxRoom(aux.Length, wanted, length, dev.s4s)
               else Fits(Aux, From(auxByteStartIdx, dev), wanted, dev.s4s, turns, AuxSlots(aux.Length, dev.s4s))
      modifies this`auxByteStartIdx, this`sensorTime, this`skippedFrameCount, aux
      ensures var from := From(old(auxByteStartIdx), dev);
              if headerEnable then
                var w := Walk(Buf(dev.s4s), Aux, Cursor(from, old(sensorTime), old(skippedFrameCount), Ok), wanted);
                && Cursor(auxByteStartIdx, sensorTime, skippedFrameCount, rslt) == w.end
                && AuxKept(old(aux[..]), aux[..], dev, w.frames, count)
              else if dataEnable.aux then
                var t := old(Headless(Aux, From(auxByteStartIdx, dev), wanted, dev.s4s, turns));
                && rslt == t.status && auxByteStartIdx == t.index && count == |t.taken|
                && AuxTaken(old(aux[..]), aux[..], dev, Buf(dev.s4s), dataEnable, t.taken)
              else
                rslt == Empty && auxByteStartIdx == length && count == 0 && aux[..] == old(aux[..])
      ensures !headerEnable ==> sensorTime == old(sensorTime) && skippedFrameCount == old(skippedFrameCount)
    {
      hide Walk, Turns, Cut16, AuxKept, AuxTaken, ReadLength;
      if auxByteStartIdx == 0 {
        auxByteStartIdx := dev.dummyByte;
      }
      if !headerEnable {
        var index;
        rslt, count, index := ExtractAuxHeaderlessMode(aux, auxByteStartIdx, wanted, dev, turns);
        auxByteStartIdx := index;
      } else {
        rslt, count := ExtractAuxHeaderMode(aux, wanted, dev);
      }
    }
  }

  // ---------- end to end ----------

  lemma PlainSamples(dev: Settings)
    ensures dev.remap == IDENTITY ==> forall raw :: AccAxes(dev, raw) == raw
    ensures dev.remap == IDENTITY && dev.crossSense == 0 ==> forall raw :: GyrAxes(dev, raw) == raw
  {
    hide AccAxes, GyrAxes;
    if dev.remap == IDENTITY {
      forall raw ensures AccAxes(dev, raw) == raw && (dev.crossSense == 0 ==> GyrAxes(dev, raw) == raw) {
        PlainSettingsKeep(dev, raw);
      }
    }
  }

  lemma AccUndone(dev: Settings, raw: Axes)
    ensures dev.remap == IDENTITY ==> AccAxes(dev, raw) == raw
    ensures IsPermutation(dev.remap) ==> Remapped(Inverse(dev.remap), AccAxes(dev, raw)) == raw
  {
    hide Remapped, Inverse, IsPermutation;
    if dev.remap == IDENTITY {
      PlainSettingsKeep(dev, raw);
    }
    if IsPermutation(dev.remap) {
      RemapUndone(dev.remap, raw);
    }
  }

  lemma GyrUndone(dev: Settings, raw: Axes)
    ensures dev.remap == IDENTITY && dev.crossSense == 0 ==> GyrAxes(dev, raw) == raw
    ensures IsPermutation(dev.remap) ==>
              var undone := Remapped(Inverse(dev.remap), GyrAxes(dev, raw));
              undone.y == raw.y && undone.z == raw.z && (dev.crossSense == 0 ==> undone.x == raw.x)
  {
    hide Remapped, Inverse, IsPermutation, Compensated;
    if dev.remap == IDENTITY {
      PlainSettingsKeep(dev, raw);
    }
    CompensationSparesYZ(dev.crossSense, raw);
    if IsPermutation(dev.remap) {
      RemapUndone(dev.remap, Compensated(dev.crossSense, raw));
    }
  }

  /** What the contracts above amount to for a FIFO holding whole frames: asked for more samples than
      there are, an extraction hands out every sample of its sensor, in order, each re-mapped (and, for
      the gyroscope, first compensated) from the triple that was written. */
  lemma AccelRoundTrip(b: Buffer, dev: Settings, c: Cursor, fs: seq<Frame>, wanted: uint16,
                       before: seq<Sample>, now: seq<Sample>, count: nat)
    requires b.Valid() && b.s4s == dev.s4s
    requires Written(b.data, c.index, fs, b.s4s) && EndOf(c.index, fs, b.s4s) == b.length
    requires wanted > |Hits(Acc, fs)|
    requires AccKept(before, now, dev, Walk(b, Acc, c, wanted).frames, count)
    ensures count == |Hits(Acc, fs)| && AllCarry(Acc, Hits(Acc, fs)) && count <= |now|
    ensures forall j :: 0 <= j < count ==> now[j].axes == AccAxes(dev, Hits(Acc, fs)[j].body.acc.value)
    ensures dev.remap == IDENTITY ==> forall j :: 0 <= j < count ==> now[j].axes == Hits(Acc, fs)[j].body.acc.value
    ensures IsPermutation(dev.remap) ==> forall j :: 0 <= j < count ==>
              Remapped(Inverse(dev.remap), now[j].axes) == Hits(Acc, fs)[j].body.acc.value
    ensures dev.s4s ==> forall j :: 0 <= j < count ==> now[j].time == Hits(Acc, fs)[j].body.time
    ensures !dev.s4s ==> forall j :: 0 <= j < count ==> now[j].time == before[j].time
    ensures Walk(b, Acc, c, wanted).end.index == b.length
  {
    hide Walk, Hits, Written, EndOf, AccAxes, IsPermutation;
    RoundTrip(b, Acc, c, fs, wanted);
    forall j | 0 <= j < count {
      AccUndone(dev, Hits(Acc, fs)[j].body.acc.value);
    }
  }

  lemma GyroRoundTrip(b: Buffer, dev: Settings, c: Cursor, fs: seq<Frame>, wanted: uint16,
                      before: seq<Sample>, now: seq<Sample>, count: nat)
    requires b.Valid() && b.s4s == dev.s4s
    requires Written(b.data, c.index, fs, b.s4s) && EndOf(c.index, fs, b.s4s) == b.length
    requires wanted > |Hits(Gyr, fs)|
    requires GyrKept(before, now, dev, Walk(b, Gyr, c, wanted).frames, count)
    ensures count == |Hits(Gyr, fs)| && AllCarry(Gyr, Hits(Gyr, fs)) && count <= |now|
    ensures forall j :: 0 <= j < count ==> now[j].axes == GyrAxes(dev, Hits(Gyr, fs)[j].body.gyr.value)
    ensures dev.remap == IDENTITY && dev.crossSense == 0 ==>
              forall j :: 0 <= j < count ==> now[j].axes == Hits(Gyr, fs)[j].body.gyr.value
    ensures IsPermutation(dev.remap) ==> forall j :: 0 <= j < count ==>
              var raw, undone := Hits(Gyr, fs)[j].body.gyr.value, Remapped(Inverse(dev.remap), now[j].axes);
              undone.y == raw.y && undone.z == raw.z && (dev.crossSense == 0 ==> undone.x == raw.x)
    ensures dev.s4s ==> forall j :: 0 <= j < count ==> now[j].time == Hits(Gyr, fs)[j].body.time
    ensures !dev.s4s ==> forall j :: 0 <= j < count ==> now[j].time == before[j].time
    ensures Walk(b, Gyr, c, wanted).end.index == b.length
  {
    hide Walk, Hits, Written, EndOf, GyrAxes, IsPermutation;
    RoundTrip(b, Gyr, c, fs, wanted);
    forall j | 0 <= j < count {
      GyrUndone(dev, Hits(Gyr, fs)[j].body.gyr.value);
    }
  }

  /** For the auxiliary sensor the bytes come back exactly; a slot gets its own frame's time only if it
      is slot 0, because of the double index. */
  lemma AuxRoundTrip(b: Buffer, dev: Settings, c: Cursor, fs: seq<Frame>, wanted: uint16,
                     before: seq<AuxSample>, now: seq<AuxSample>, count: nat)
    requires b.Valid() && b.s4s == dev.s4s
    requires Written(b.data, c.index, fs, b.s4s) && EndOf(c.index, fs, b.s4s) == b.length
    requires wanted > |Hits(Aux, fs)|
    requires AuxKept(before, now, dev, Walk(b, Aux, c, wanted).frames, count)
    ensures count == |Hits(Aux, fs)| && AllCarry(Aux, Hits(Aux, fs)) && count <= |now|
    ensures forall j :: 0 <= j < count ==> now[j].data == Hits(Aux, fs)[j].body.aux.value
    ensures dev.s4s ==> forall j :: 0 <= j < |now| ==>
              now[j].time == if j % 2 == 0 && j / 2 < count then Hits(Aux, fs)[j / 2].body.time else before[j].time
    ensures Walk(b, Aux, c, wanted).end.index == b.length
  {
    hide Walk, Hits, Written, EndOf;
    RoundTrip(b, Aux, c, fs, wanted);
  }

  /** A first call on a FIFO that holds whole frames after the dummy bytes of an SPI read: without a re-map the
      caller gets the triples that were written, all of them in order, and nothing is left to read. */
  method FreshAccel(fifo: Fifo, acc: array<Sample>, wanted: uint16, dev: Settings, ghost fs: seq<Frame>)
    returns (rslt: Status, count: nat)
    requires fifo.Valid(dev.s4s) && fifo.headerEnable && fifo.accByteStartIdx == 0
    requires Room(acc.Length, wanted, fifo.length) && wanted > |Hits(Acc, fs)|
    requires Written(fifo.data[..], dev.dummyByte, fs, dev.s4s) && EndOf(dev.dummyByte, fs, dev.s4s) == fifo.length
    modifies fifo`accByteStartIdx, fifo`sensorTime, fifo`skippedFrameCount, acc
    ensures count == |Hits(Acc, fs)| <= acc.Length && AllCarry(Acc, Hits(Acc, fs))
    ensures dev.remap == IDENTITY ==> forall j :: 0 <= j < count ==> acc[j].axes == Hits(Acc, fs)[j].body.acc.value
    ensures dev.s4s ==> forall j :: 0 <= j < count ==> acc[j].time == Hits(Acc, fs)[j].body.time
    ensures fifo.accByteStartIdx == fifo.length
  {
    hide Walk, AccKept, Written, EndOf, Hits, AllCarry, Fifo.Headless, Fifo.Fits;
    ghost var b, was := fifo.Buf(dev.s4s), acc[..];
    ghost var c := Cursor(dev.dummyByte, fifo.sensorTime, fifo.skippedFrameCount, Ok);
    rslt, count := fifo.ExtractAccel(acc, wanted, dev, 0);
    AccelRoundTrip(b, dev, c, fs, wanted, was, acc[..], count);
  }

  /** The same for the gyroscope, if there is nothing to compensate. */
  method FreshGyro(fifo: Fifo, gyr: array<Sample>, wanted: uint16, dev: Settings, ghost fs: seq<Frame>)
    returns (rslt: Status, count: nat)
    requires fifo.Valid(dev.s4s) && fifo.headerEnable && fifo.gyrByteStartIdx == 0
    requires Room(gyr.Length, wanted, fifo.length) && wanted > |Hits(Gyr, fs)|
    requires Written(fifo.data[..], dev.dummyByte, fs, dev.s4s) && EndOf(dev.dummyByte, fs, dev.s4s) == fifo.length
    modifies fifo`gyrByteStartIdx, fifo`sensorTime, fifo`skippedFrameCount, gyr
    ensures count == |Hits(Gyr, fs)| <= gyr.Length && AllCarry(Gyr, Hits(Gyr, fs))
    ensures dev.remap == IDENTITY && dev.crossSense == 0 ==>
              forall j :: 0 <= j < count ==> gyr[j].axes == Hits(Gyr, fs)[j].body.gyr.value
    ensures dev.s4s ==> forall j :: 0 <= j < count ==> gyr[j].time == Hits(Gyr, fs)[j].body.time
    ensures fifo.gyrByteStartIdx == fifo.length
  {
    hide Walk, GyrKept, Written, EndOf, Hits, AllCarry, Fifo.Headless, Fifo.Fits;
    ghost var b, was := fifo.Buf(dev.s4s), gyr[..];
    ghost var c := Cursor(dev.dummyByte, fifo.sensorTime, fifo.skippedFrameCount, Ok);
    rslt, count := fifo.ExtractGyro(gyr, wanted, dev, 0);
    GyroRoundTrip(b, dev, c, fs, wanted, was, gyr[..], count);
  }

  // ---------- two calls in place of one ----------

  lemma AccelConcat(dev: Settings, seen: seq<Frame>, before: seq<Sample>, now: seq<Sample>, count: nat,
                    seen': seq<Frame>, before': seq<Sample>, now': seq<Sample>, count': nat)
    requires AccKept(before, now, dev, seen, count) && AccKept(before', now', dev, seen', count')
    ensures count <= |now| == |before| && count' <= |now'| == |before'|
    ensures AccKept(before[..count] + before'[..count'], now[..count] + now'[..count'], dev, seen + seen',
                    count + count')
  {
    hide Hits, AccSample;
    HitsConcat(Acc, seen, seen');
  }

  lemma GyroConcat(dev: Settings, seen: seq<Frame>, before: seq<Sample>, now: seq<Sample>, count: nat,
                   seen': seq<Frame>, before': seq<Sample>, now': seq<Sample>, count': nat)
    requires GyrKept(before, now, dev, seen, count) && GyrKept(before', now', dev, seen', count')
    ensures count <= |now| == |before| && count' <= |now'| == |before'|
    ensures GyrKept(before[..count] + before'[..count'], now[..count] + now'[..count'], dev, seen + seen',
                    count + count')
  {
    hide Hits, GyrSample;
    HitsConcat(Gyr, seen, seen');
  }

  /** A caller that asks for n and then for m samples, the driver carrying on from the index it saved, gets
      what one call for n + m stores in an array of just that size, and the same saved state. */
  method AccelInTwoCalls(fifo: Fifo, first: array<Sample>, second: array<Sample>, n: uint16, m: uint16, dev: Settings)
    returns (count: nat, count': nat)
    requires fifo.Valid(dev.s4s) && fifo.headerEnable && n >= 1 && m >= 1 && first != second
    requires n <= first.Length && m <= second.Length
    modifies fifo`accByteStartIdx, fifo`sensorTime, fifo`skippedFrameCount, first, second
    ensures count <= first.Length && count' <= second.Length
    ensures var c := Cursor(old(fifo.From(fifo.accByteStartIdx, dev)), old(fifo.sensorTime),
                            old(fifo.skippedFrameCount), Ok);
            var w := Walk(fifo.Buf(dev.s4s), Acc, c, n + m);
            && Cursor(fifo.accByteStartIdx, fifo.sensorTime, fifo.skippedFrameCount, Ok) == w.end.(status := Ok)
            && AccKept(old(first[..count]) + old(second[..count']), first[..count] + second[..count'], dev, w.frames,
                       count + count')
  {
    hide Walk, AccKept, Fifo.Headless, Fifo.Fits;
    ghost var b := fifo.Buf(dev.s4s);
    ghost var c := Cursor(fifo.From(fifo.accByteStartIdx, dev), fifo.sensorTime, fifo.skippedFrameCount, Ok);
    var rslt;
    rslt, count := fifo.ExtractAccel(first, n, dev, 0);
    ghost var w := Walk(b, Acc, c, n);
    WalkIndexGrows(b, Acc, c, n);
    rslt, count' := fifo.ExtractAccel(second, m, dev, 0);
    Resume(b, Acc, c, n, m);
    ghost var w' := Walk(b, Acc, w.end.(status := Ok), m);
    AccelConcat(dev, w.frames, old(first[..]), first[..], count, w'.frames, old(second[..]), second[..], count');
    assert old(first[..])[..count] == old(first[..count]) && old(second[..])[..count'] == old(second[..count']);
  }

  // ---------- headerless, end to end ----------

  /** A data body with the parts of the enabled sensors. */
  ghost predicate HasShape(body: Body, e: Enabled, s4s: bool) {
    && body.Data? && WellFormed(Frame(None, body), s4s)
    && body.aux.Some? == e.aux && body.gyr.Some? == e.gyr && body.acc.Some? == e.acc
  }

  /** The bodies stand one after the other from `i` to the end of the buffer. */
  ghost predicate Filled(b: Buffer, e: Enabled, i: nat, bodies: seq<Body>) {
    && b.Valid() && b.length == GridPoint(i, Step(e, b.s4s), |bodies|)
    && forall m :: 0 <= m < |bodies| ==>
         HasShape(bodies[m], e, b.s4s) && At(b.data, GridPoint(i, Step(e, b.s4s), m), EncodeBody(bodies[m], b.s4s))
  }

  lemma ShapeOffsets(body: Body, e: Enabled, s4s: bool)
    requires HasShape(body, e, s4s)
    ensures var h := Header(body);
            && IsDataHeader(h) && (HasAux(h) <==> e.aux) && (HasGyr(h) <==> e.gyr) && (HasAcc(h) <==> e.acc)
            && GyrOffset(h) == e.Offset(Gyr) && AccOffset(h) == e.Offset(Acc) && TimeOffset(h) == e.FrameLength()
  {
    HeaderOfData(body, s4s);
  }

  /** One frame without a header, read where the offsets say. */
  lemma PartsReadBack(d: seq<byte>, i: nat, body: Body, e: Enabled, s4s: bool)
    requires HasShape(body, e, s4s) && At(d, i, EncodeBody(body, s4s))
    ensures i + Step(e, s4s) <= |d|
    ensures e.acc ==> AxesAt(d, i + e.Offset(Acc)) == body.acc.value
    ensures e.gyr ==> AxesAt(d, i + e.Offset(Gyr)) == body.gyr.value
    ensures e.aux ==> d[i..i + AUX_LENGTH] == body.aux.value
    ensures s4s ==> TimeAt(d, i + e.FrameLength()) == body.time
  {
    ShapeOffsets(body, e, s4s);
    hide AxesAt, TimeAt, Header, GyrOffset, AccOffset, TimeOffset, HasAux, HasGyr, HasAcc;
    PartsLayout(d, Header(body), i, body, s4s);
    BodyRoundTrip(d, i, body, s4s);
  }

  /** The m-th frame of a clean buffer, read at the position a scan takes it from.  Only for the sensor stored
      first is the time its own: for the others it is three bytes of the frame that follows. */
  lemma TakenReadsBack(b: Buffer, k: Sensor, e: Enabled, i: nat, bodies: seq<Body>, m: nat)
    requires Filled(b, e, i, bodies) && e.Includes(k) && m < |bodies|
    ensures var p := GridPoint(i + e.Offset(k), Step(e, b.s4s), m);
            p + Step(e, b.s4s) <= b.length ==>
              && (k == Acc ==> AxesAt(b.data, p) == bodies[m].acc.value)
              && (k == Gyr ==> AxesAt(b.data, p) == bodies[m].gyr.value)
              && (k == Aux ==> b.data[p..p + AUX_LENGTH] == bodies[m].aux.value)
              && (b.s4s ==> TimeAt(b.data, p + e.FrameLength())
                            == if e.Offset(k) == 0 then bodies[m].time
                               else TimeAt(b.data, GridPoint(i, Step(e, b.s4s), m + 1) + e.Offset(k) - 3))
  {
    hide HasShape, At, AxesAt, TimeAt;
    GridOffset(i, e.Offset(k), Step(e, b.s4s), m);
    PartsReadBack(b.data, GridPoint(i, Step(e, b.s4s), m), bodies[m], e, b.s4s);
  }

  lemma GridOffset(i: nat, o: nat, step: nat, m: nat)
    ensures GridPoint(i + o, step, m) == GridPoint(i, step, m) + o
    ensures GridPoint(i, step, m + 1) == GridPoint(i, step, m) + step
  {
  }

  lemma InsideFilled(b: Buffer, e: Enabled, i: nat, bodies: seq<Body>, o: nat, m: nat)
    requires Filled(b, e, i, bodies)
    ensures GridPoint(i + o, Step(e, b.s4s), m) + Step(e, b.s4s) <= b.length && Step(e, b.s4s) > 0 ==> m < |bodies|
  {
    hide HasShape, At;
    if m >= |bodies| {
      GridMonotone(i, Step(e, b.s4s), |bodies|, m);
      GridOffset(i, o, Step(e, b.s4s), m);
    }
  }

  lemma GridMonotone(i: nat, step: nat, m: nat, n: nat)
    requires m <= n
    ensures GridPoint(i, step, m) <= GridPoint(i, step, n)
  {
    assert n * step == m * step + (n - m) * step;
  }

  /** From a clean buffer full of frames an extraction hands out the samples of the first frames, in order and
      each re-mapped (and, for the gyroscope, first compensated): the m-th exactly if its frame lies below the
      read length and has more than six bytes, and a whole frame's length, from the sensor's offset on. */
  lemma AxesHeaderlessRoundTrip(b: Buffer, dev: Settings, k: Sensor, e: Enabled, i: nat, bodies: seq<Body>,
                                wanted: uint16, turns: nat, before: seq<Sample>, now: seq<Sample>, count: nat, m: nat)
    requires Filled(b, e, i, bodies) && b.s4s == dev.s4s && k != Aux && e.Includes(k) && Clean(b, k, e, i + e.Offset(k))
    requires b.length < 0x1_0000 && i + e.Offset(k) < 0x1_0000 && b.length <= turns
    requires var taken := Turns(b, k, e, ReadLength(e, wanted, b.length), i + e.Offset(k), Ok, turns).taken;
             AxesTaken(before, now, dev, k, b, e, taken) && count == |taken|
    ensures count <= |now|
    ensures m < count <==>
              Returned(b, e, ReadLength(e, wanted, b.length), GridPoint(i + e.Offset(k), Step(e, b.s4s), m))
    ensures m < count ==>
              && m < |bodies|
              && now[m].axes == (if k == Acc then AccAxes(dev, bodies[m].acc.value)
                                 else GyrAxes(dev, bodies[m].gyr.value))
              && (dev.s4s && e.Offset(k) == 0 ==> now[m].time == bodies[m].time)
    ensures m < count && dev.remap == IDENTITY && (k == Acc || dev.crossSense == 0) ==>
              now[m].axes == if k == Acc then bodies[m].acc.value else bodies[m].gyr.value
  {
    hide Scan, Turns, Clean, ReadLength, HasShape, GridPoint, Step, AccAxes, GyrAxes, AxesAt, TimeAt;
    CleanCall(b, k, e, ReadLength(e, wanted, b.length), i + e.Offset(k), turns);
    CleanScan(b, k, e, ReadLength(e, wanted, b.length), i + e.Offset(k), Ok, m);
    LongerStep(e, b.s4s, k);
    InsideFilled(b, e, i, bodies, e.Offset(k), m);
    if m < count {
      TakenReadsBack(b, k, e, i, bodies, m);
      PlainSamples(dev);
    }
  }

  lemma AuxTakenRoom(before: seq<AuxSample>, now: seq<AuxSample>, dev: Settings, b: Buffer, e: Enabled, taken: seq<nat>)
    requires AuxTaken(before, now, dev, b, e, taken)
    ensures |taken| <= |now|
  {
  }

  /** What the m-th slot holds. */
  lemma AuxTakenAt(before: seq<AuxSample>, now: seq<AuxSample>, dev: Settings, b: Buffer, e: Enabled, taken: seq<nat>,
      m: nat)
    requires AuxTaken(before, now, dev, b, e, taken) && m < |taken|
    ensures |taken| <= |now| && taken[m] + Step(e, b.s4s) <= b.length < |b.data|
    ensures now[m].data == b.data[taken[m]..taken[m] + AUX_LENGTH]
    ensures dev.s4s && 2 * m < |now| ==> now[2 * m].time == TimeAt(b.data, taken[m] + e.FrameLength())
  {
    AuxFrameBody(b, e, taken, m);
    hide TimeAt, AuxFrames, AuxFrameAt, Step, Enabled.FrameLength;
    var fs := AuxFrames(b, e, taken);
    if dev.s4s && 2 * m < |now| {
      AuxTimeAt(dev, fs, m, before[2 * m].time);
    }
    hide AuxTime;
  }

  lemma AuxFrameBody(b: Buffer, e: Enabled, taken: seq<nat>, m: nat)
    requires b.Valid() && e.aux && Inside(b, e, taken) && m < |taken|
    ensures taken[m] + Step(e, b.s4s) <= b.length < |b.data|
    ensures var body := AuxFrames(b, e, taken)[m].body;
            && body.aux.value == b.data[taken[m]..taken[m] + AUX_LENGTH]
            && (b.s4s ==> body.time == TimeAt(b.data, taken[m] + e.FrameLength()))
  {
    hide TimeAt;
  }

  lemma AuxTimeAt(dev: Settings, hits: seq<Frame>, m: nat, before: nat)
    requires AllCarry(Aux, hits) && dev.s4s && m < |hits|
    ensures AuxTime(dev, hits, 2 * m, before) == hits[m].body.time
  {
  }

  lemma AuxHeaderlessRoundTrip(b: Buffer, dev: Settings, e: Enabled, i: nat, bodies: seq<Body>, wanted: uint16,
                               turns: nat, before: seq<AuxSample>, now: seq<AuxSample>, count: nat, m: nat)
    requires Filled(b, e, i, bodies) && b.s4s == dev.s4s && e.aux && Clean(b, Aux, e, i)
    requires b.length < 0x1_0000 && i < 0x1_0000 && b.length <= turns
    requires var taken := Turns(b, Aux, e, ReadLength(e, wanted, b.length), i, Ok, turns).taken;
             AuxTaken(before, now, dev, b, e, taken) && count == |taken|
    ensures count <= |now|
    ensures m < count <==> Returned(b, e, ReadLength(e, wanted, b.length), GridPoint(i, Step(e, b.s4s), m))
    ensures m < count ==> m < |bodies| && now[m].data == bodies[m].aux.value
    ensures m < count && dev.s4s && 2 * m < |now| ==> now[2 * m].time == bodies[m].time
  {
    hide Scan, Turns, Clean, ReadLength, HasShape, GridPoint, Step, AxesAt, TimeAt, AuxTaken, AuxStored, Returned,
        Inside;
    ghost var taken := Turns(b, Aux, e, ReadLength(e, wanted, b.length), i, Ok, turns).taken;
    CleanCall(b, Aux, e, ReadLength(e, wanted, b.length), i, turns);
    CleanScan(b, Aux, e, ReadLength(e, wanted, b.length), i, Ok, m);
    LongerStep(e, b.s4s, Aux);
    InsideFilled(b, e, i, bodies, 0, m);
    AuxTakenRoom(before, now, dev, b, e, taken);
    if m < count {
      AuxTakenAt(before, now, dev, b, e, taken, m);
      hide Filled;
      TakenReadsBack(b, Aux, e, i, bodies, m);
    }
  }
}
