/** The byte format of the FIFO in header mode, defined on its own: frames, their encoding, and a
    reader for one frame that knows nothing about which sensor is being extracted. */
module FifoFormat {
  import opened Basics

  datatype Axes = Axes(x: int16, y: int16, z: int16)

  /** What follows a header byte.  A data body carries the parts its header announces, in this order,
      and three bytes of time when external sensor synchronisation (S4S) is on. */
  datatype Body =
    | Data(aux: Option<seq<byte>>, gyr: Option<Axes>, acc: Option<Axes>, time: nat)
    | SensorTime(time: nat)
    | Skipped(count: byte)
    | InputConfig(bytes: seq<byte>)
    | Activity(bytes: seq<byte>)

  datatype Frame = Frame(virtualHeader: Option<byte>, body: Body)

  const HEADER_ACC: byte := 0x84
  const HEADER_GYR: byte := 0x88
  const HEADER_GYR_ACC: byte := 0x8C
  const HEADER_AUX: byte := 0x90
  const HEADER_AUX_ACC: byte := 0x94
  const HEADER_AUX_GYR: byte := 0x98
  const HEADER_ALL: byte := 0x9C
  const HEADER_SENS_TIME: byte := 0x44
  const HEADER_SKIP: byte := 0x40
  const HEADER_INPUT_CFG: byte := 0x48
  const HEADER_ACT_RECOG: byte := 0xC8

  const AXES_LENGTH: nat := 6
  const AUX_LENGTH: nat := 8
  const TIME_LENGTH: nat := 3

  predicate HasAcc(h: byte) {
    h == HEADER_ACC || h == HEADER_GYR_ACC || h == HEADER_AUX_ACC || h == HEADER_ALL
  }

  predicate HasGyr(h: byte) {
    h == HEADER_GYR || h == HEADER_GYR_ACC || h == HEADER_AUX_GYR || h == HEADER_ALL
  }

  predicate HasAux(h: byte) {
    h == HEADER_AUX || h == HEADER_AUX_ACC || h == HEADER_AUX_GYR || h == HEADER_ALL
  }

  predicate IsDataHeader(h: byte) {
    HasAcc(h) || HasGyr(h) || HasAux(h)
  }

  /** A header of mode 3 that is not an activity frame only announces the real header after it. */
  predicate IsVirtualHeader(h: byte) {
    h / 64 == 3 && h != HEADER_ACT_RECOG
  }

  predicate WellFormed(f: Frame, s4s: bool) {
    && (f.virtualHeader.Some? ==> IsVirtualHeader(f.virtualHeader.value))
    && match f.body
       case Data(aux, gyr, acc, time) =>
         && (aux.Some? || gyr.Some? || acc.Some?)
         && (aux.Some? ==> |aux.value| == AUX_LENGTH)
         && time < 0x100_0000
         && (!s4s ==> time == 0)
       case SensorTime(time) => time < 0x100_0000
       case Skipped(_) => true
       case InputConfig(bytes) => |bytes| == 4
       case Activity(bytes) => |bytes| == 6
  }

  // ---------- writing ----------

  function Header(b: Body): byte {
    match b
    case Data(aux, gyr, acc, _) =>
      if acc.None? && gyr.None? then HEADER_AUX
      else 0x80 + (if acc.Some? then 4 else 0) + (if gyr.Some? then 8 else 0) + (if aux.Some? then 16 else 0)
    case SensorTime(_) => HEADER_SENS_TIME
    case Skipped(_) => HEADER_SKIP
    case InputConfig(_) => HEADER_INPUT_CFG
    case Activity(_) => HEADER_ACT_RECOG
  }

  function EncodeWord(v: int16): (r: seq<byte>)
    ensures |r| == 2
  {
    [Pattern16(v) % 0x100, Pattern16(v) / 0x100]
  }

  function EncodeAxes(a: Axes): (r: seq<byte>)
    ensures |r| == AXES_LENGTH
  {
    EncodeWord(a.x) + EncodeWord(a.y) + EncodeWord(a.z)
  }

  function EncodeTime(t: nat): (r: seq<byte>)
    requires t < 0x100_0000
    ensures |r| == TIME_LENGTH
  {
    [t % 0x100, t / 0x100 % 0x100, t / 0x1_0000]
  }

  function AuxBytes(b: Body): seq<byte> {
    if b.Data? && b.aux.Some? then b.aux.value else []
  }

  function GyrBytes(b: Body): seq<byte> {
    if b.Data? && b.gyr.Some? then EncodeAxes(b.gyr.value) else []
  }

  function AccBytes(b: Body): seq<byte> {
    if b.Data? && b.acc.Some? then EncodeAxes(b.acc.value) else []
  }

  function TimeBytes(b: Body, s4s: bool): seq<byte>
    requires b.Data? ==> b.time < 0x100_0000
  {
    if b.Data? && s4s then EncodeTime(b.time) else []
  }

  function EncodeBody(b: Body, s4s: bool): seq<byte>
    requires WellFormed(Frame(None, b), s4s)
  {
    match b
    case Data(_, _, _, _) => AuxBytes(b) + GyrBytes(b) + AccBytes(b) + TimeBytes(b, s4s)
    case SensorTime(time) => EncodeTime(time)
    case Skipped(count) => [count]
    case InputConfig(bytes) => bytes
    case Activity(bytes) => bytes
  }

  function Encode(f: Frame, s4s: bool): seq<byte>
    requires WellFormed(f, s4s)
  {
    (if f.virtualHeader.Some? then [f.virtualHeader.value] else []) + [Header(f.body)] + EncodeBody(f.body, s4s)
  }

  ghost predicate AllWellFormed(fs: seq<Frame>, s4s: bool) {
    forall f :: f in fs ==> WellFormed(f, s4s)
  }

  ghost function EncodeAll(fs: seq<Frame>, s4s: bool): seq<byte>
    requires AllWellFormed(fs, s4s)
  {
    if fs == [] then [] else Encode(fs[0], s4s) + EncodeAll(fs[1..], s4s)
  }

  /** `fs` is written in `d` at `i`. */
  ghost predicate Written(d: seq<byte>, i: nat, fs: seq<Frame>, s4s: bool) {
    AllWellFormed(fs, s4s) && At(d, i, EncodeAll(fs, s4s))
  }

  /** The offset just after `fs`, written at `i`. */
  ghost function EndOf(i: nat, fs: seq<Frame>, s4s: bool): nat
    requires AllWellFormed(fs, s4s)
  {
    i + |EncodeAll(fs, s4s)|
  }

  lemma WrittenCons(d: seq<byte>, i: nat, f: Frame, rest: seq<Frame>, s4s: bool)
    requires WellFormed(f, s4s) && AllWellFormed(rest, s4s)
    ensures AllWellFormed([f] + rest, s4s)
    ensures EndOf(i, [f] + rest, s4s) == EndOf(i + |Encode(f, s4s)|, rest, s4s)
    ensures Written(d, i, [f] + rest, s4s)
       <==> At(d, i, Encode(f, s4s)) && Written(d, i + |Encode(f, s4s)|, rest, s4s)
  {
    assert ([f] + rest)[1..] == rest;
    AtConcat(d, i, Encode(f, s4s), EncodeAll(rest, s4s));
  }

  lemma WrittenHead(d: seq<byte>, i: nat, f: Frame, rest: seq<Frame>, s4s: bool)
    requires Written(d, i, [f] + rest, s4s)
    ensures WellFormed(f, s4s) && At(d, i, Encode(f, s4s))
    ensures Written(d, i + |Encode(f, s4s)|, rest, s4s)
    ensures EndOf(i, [f] + rest, s4s) == EndOf(i + |Encode(f, s4s)|, rest, s4s)
  {
    hide Encode, WellFormed, At;
    assert f == ([f] + rest)[0];
    assert AllWellFormed(rest, s4s) by {
      assert forall g :: g in rest ==> g in [f] + rest;
    }
    WrittenCons(d, i, f, rest, s4s);
  }

  // ---------- the written bytes, in numbers ----------

  /** Bit 7 with bit 2 for the accelerometer, bit 3 for the gyroscope and bit 4 for the auxiliary sensor; bit 6
      for the control frames.  Both top bits set announce a virtual header, but for an activity frame. */
  lemma HeaderIs(b: Body, s4s: bool, h: byte)
    requires WellFormed(Frame(None, b), s4s)
    ensures match b
            case Data(aux, gyr, acc, _) =>
              Header(b) == 128 + (if acc.Some? then 4 else 0) + (if gyr.Some? then 8 else 0)
                           + if aux.Some? then 16 else 0
            case SensorTime(_) => Header(b) == 64 + 4
            case Skipped(_) => Header(b) == 64
            case InputConfig(_) => Header(b) == 64 + 8
            case Activity(_) => Header(b) == 128 + 64 + 8
    ensures IsVirtualHeader(h) <==> h >= 128 + 64 && h != 128 + 64 + 8
  {
  }

  /** Sixteen bits each, the low byte first, x before y before z. */
  lemma AxesBytesAre(a: Axes)
    ensures var r := EncodeAxes(a);
            && (r[0] + 256 * r[1] - a.x) % 65536 == 0 && (r[2] + 256 * r[3] - a.y) % 65536 == 0
            && (r[4] + 256 * r[5] - a.z) % 65536 == 0
  {
  }

  lemma TimeBytesAre(t: nat)
    requires t < 0x100_0000
    ensures var r := EncodeTime(t); r[0] as int + 256 * r[1] as int + 65536 * r[2] as int == t
  {
  }

  /** Auxiliary sensor, gyroscope, accelerometer, time: eight, six, six and three bytes. */
  lemma BodyBytesAre(aux: Option<seq<byte>>, gyr: Option<Axes>, acc: Option<Axes>, time: nat, s4s: bool)
    requires WellFormed(Frame(None, Data(aux, gyr, acc, time)), s4s)
    ensures var r := EncodeBody(Data(aux, gyr, acc, time), s4s);
            var g := if aux.Some? then 8 else 0;
            var a := g + if gyr.Some? then 6 else 0;
            var t := a + if acc.Some? then 6 else 0;
            && |r| == t + (if s4s then 3 else 0)
            && (aux.Some? ==> r[..8] == aux.value) && (gyr.Some? ==> r[g..g + 6] == EncodeAxes(gyr.value))
            && (acc.Some? ==> r[a..a + 6] == EncodeAxes(acc.value)) && (s4s ==> r[t..t + 3] == EncodeTime(time))
  {
    hide EncodeAxes, EncodeTime;
  }

  // ---------- reading ----------

  function WordAt(d: seq<byte>, i: nat): int16
    requires i + 2 <= |d|
  {
    Signed16(d[i] as int + 0x100 * d[i + 1] as int)
  }

  function AxesAt(d: seq<byte>, i: nat): Axes
    requires i + AXES_LENGTH <= |d|
  {
    Axes(WordAt(d, i), WordAt(d, i + 2), WordAt(d, i + 4))
  }

  function TimeAt(d: seq<byte>, i: nat): (t: nat)
    requires i + TIME_LENGTH <= |d|
    ensures t < 0x100_0000
  {
    d[i] as int + 0x100 * d[i + 1] as int + 0x1_0000 * d[i + 2] as int
  }

  function GyrOffset(h: byte): nat {
    if HasAux(h) then AUX_LENGTH else 0
  }

  function AccOffset(h: byte): nat {
    GyrOffset(h) + if HasGyr(h) then AXES_LENGTH else 0
  }

  function TimeOffset(h: byte): nat {
    AccOffset(h) + if HasAcc(h) then AXES_LENGTH else 0
  }

  function DataLength(h: byte, s4s: bool): nat {
    TimeOffset(h) + if s4s then TIME_LENGTH else 0
  }

  /** The seven frame lengths, with and without the three bytes of time. */
  lemma DataLengths(s4s: bool)
    ensures var t := if s4s then 3 else 0;
            && DataLength(HEADER_ACC, s4s) == 6 + t
            && DataLength(HEADER_GYR, s4s) == 6 + t
            && DataLength(HEADER_AUX, s4s) == 8 + t
            && DataLength(HEADER_GYR_ACC, s4s) == 12 + t
            && DataLength(HEADER_AUX_ACC, s4s) == 14 + t
            && DataLength(HEADER_AUX_GYR, s4s) == 14 + t
            && DataLength(HEADER_ALL, s4s) == 20 + t
  {
  }

  /** The number of bytes a header promises; `None` when the byte is no header at all. */
  function BodyLength(h: byte, s4s: bool): Option<nat> {
    if IsDataHeader(h) then Some(DataLength(h, s4s))
    else if h == HEADER_SENS_TIME then Some(TIME_LENGTH)
    else if h == HEADER_SKIP then Some(1)
    else if h == HEADER_INPUT_CFG then Some(4)
    else if h == HEADER_ACT_RECOG then Some(6)
    else None
  }

  function BodyAt(d: seq<byte>, h: byte, i: nat, s4s: bool): Body
    requires BodyLength(h, s4s).Some? && i + BodyLength(h, s4s).value <= |d|
  {
    if IsDataHeader(h) then
      Data(if HasAux(h) then Some(d[i..i + AUX_LENGTH]) else None,
           if HasGyr(h) then Some(AxesAt(d, i + GyrOffset(h))) else None,
           if HasAcc(h) then Some(AxesAt(d, i + AccOffset(h))) else None,
           if s4s then TimeAt(d, i + TimeOffset(h)) else 0)
    else if h == HEADER_SENS_TIME then SensorTime(TimeAt(d, i))
    else if h == HEADER_SKIP then Skipped(d[i])
    else if h == HEADER_INPUT_CFG then InputConfig(d[i..i + 4])
    else Activity(d[i..i + 6])
  }

  /** `Cut`: the frame does not fit below `length`.  `Stop`: an unknown header. */
  datatype Outcome = Parsed(frame: Frame, next: nat) | Cut | Stop

  function HeaderIndex(d: seq<byte>, i: nat): nat
    requires i < |d|
  {
    if IsVirtualHeader(d[i]) then i + 1 else i
  }

  /** Reads the frame that starts at `i`.  The buffer `d` must reach one byte past `length`, because the
      byte after a virtual header is looked at before anything is compared with `length`. */
  function ParseAt(d: seq<byte>, length: nat, i: nat, s4s: bool): Outcome
    requires i < length < |d|
  {
    var j := HeaderIndex(d, i);
    match BodyLength(d[j], s4s)
    case None => Stop
    case Some(n) =>
      if j + 1 + n > length then Cut
      else Parsed(Frame(if j > i then Some(d[i]) else None, BodyAt(d, d[j], j + 1, s4s)), j + 1 + n)
  }

  /** `ParseAt` once the header has been found. */
  lemma ParseByHeader(d: seq<byte>, length: nat, i: nat, s4s: bool)
    requires i < length < |d|
    ensures var j := HeaderIndex(d, i);
            var o := ParseAt(d, length, i, s4s);
            var n := BodyLength(d[j], s4s);
            && (o.Stop? <==> n.None?)
            && (n.Some? ==> (o.Cut? <==> j + 1 + n.value > length))
            && (o.Parsed? ==> o.next == j + 1 + n.value && o.frame.body == BodyAt(d, d[j], j + 1, s4s))
  {
  }

  /** The same for a data header, part by part. */
  lemma ParseDataFrame(d: seq<byte>, length: nat, i: nat, s4s: bool)
    requires i < length < |d| && IsDataHeader(d[HeaderIndex(d, i)])
    ensures var j := HeaderIndex(d, i);
            var h := d[j];
            var o := ParseAt(d, length, i, s4s);
            && !o.Stop?
            && (o.Cut? <==> j + 1 + DataLength(h, s4s) > length)
            && (o.Parsed? ==>
                  && o.next == j + 1 + DataLength(h, s4s)
                  && var b := o.frame.body;
                     && b.Data?
                     && b.acc == (if HasAcc(h) then Some(AxesAt(d, j + 1 + AccOffset(h))) else None)
                     && b.gyr == (if HasGyr(h) then Some(AxesAt(d, j + 1 + GyrOffset(h))) else None)
                     && b.aux == (if HasAux(h) then Some(d[j + 1..j + 1 + AUX_LENGTH]) else None)
                     && b.time == (if s4s then TimeAt(d, j + 1 + TimeOffset(h)) else 0))
  {
  }

  // ---------- one frame: reading undoes writing, writing undoes reading ----------

  lemma AxesRoundTrip(d: seq<byte>, i: nat, a: Axes)
    requires At(d, i, EncodeAxes(a))
    ensures AxesAt(d, i) == a
  {
  }

  lemma TimeRoundTrip(d: seq<byte>, i: nat, t: nat)
    requires t < 0x100_0000 && At(d, i, EncodeTime(t))
    ensures TimeAt(d, i) == t
  {
  }

  lemma HeaderOfData(b: Body, s4s: bool)
    requires b.Data? && WellFormed(Frame(None, b), s4s)
    ensures var h := Header(b);
            && IsDataHeader(h) && (HasAux(h) <==> b.aux.Some?) && (HasGyr(h) <==> b.gyr.Some?)
            && (HasAcc(h) <==> b.acc.Some?)
  {
  }

  /** The parts of a data body lie one after the other, where the offsets say. */
  lemma PartsLayout(d: seq<byte>, h: byte, i: nat, b: Body, s4s: bool)
    requires b.Data? && WellFormed(Frame(None, b), s4s)
    requires (HasAux(h) <==> b.aux.Some?) && (HasGyr(h) <==> b.gyr.Some?) && (HasAcc(h) <==> b.acc.Some?)
    ensures |EncodeBody(b, s4s)| == DataLength(h, s4s)
    ensures At(d, i, EncodeBody(b, s4s))
       <==> && At(d, i, AuxBytes(b)) && At(d, i + GyrOffset(h), GyrBytes(b))
            && At(d, i + AccOffset(h), AccBytes(b)) && At(d, i + TimeOffset(h), TimeBytes(b, s4s))
  {
    hide At, AuxBytes, GyrBytes, AccBytes, TimeBytes, HasAux, HasGyr, HasAcc, GyrOffset, AccOffset, TimeOffset;
    var x, g, a, t := AuxBytes(b), GyrBytes(b), AccBytes(b), TimeBytes(b, s4s);
    PartsLengths(h, b, s4s);
    AtConcat(d, i, x + g + a, t);
    AtConcat(d, i, x + g, a);
    AtConcat(d, i, x, g);
  }

  lemma PartsLengths(h: byte, b: Body, s4s: bool)
    requires b.Data? && WellFormed(Frame(None, b), s4s)
    requires (HasAux(h) <==> b.aux.Some?) && (HasGyr(h) <==> b.gyr.Some?) && (HasAcc(h) <==> b.acc.Some?)
    ensures var x, g, a, t := AuxBytes(b), GyrBytes(b), AccBytes(b), TimeBytes(b, s4s);
            && |x| == GyrOffset(h) && |x + g| == AccOffset(h) && |x + g + a| == TimeOffset(h)
            && |x + g + a + t| == DataLength(h, s4s)
  {
  }

  lemma DataRoundTrip(d: seq<byte>, h: byte, i: nat, b: Body, s4s: bool)
    requires b.Data? && WellFormed(Frame(None, b), s4s) && IsDataHeader(h)
    requires (HasAux(h) <==> b.aux.Some?) && (HasGyr(h) <==> b.gyr.Some?) && (HasAcc(h) <==> b.acc.Some?)
    requires i + DataLength(h, s4s) <= |d|
    requires At(d, i, AuxBytes(b)) && At(d, i + GyrOffset(h), GyrBytes(b))
    requires At(d, i + AccOffset(h), AccBytes(b)) && At(d, i + TimeOffset(h), TimeBytes(b, s4s))
    ensures BodyAt(d, h, i, s4s) == b
  {
    hide EncodeAxes, EncodeTime, AxesAt, TimeAt;
    if b.gyr.Some? {
      AxesRoundTrip(d, i + GyrOffset(h), b.gyr.value);
    }
    if b.acc.Some? {
      AxesRoundTrip(d, i + AccOffset(h), b.acc.value);
    }
    if s4s {
      TimeRoundTrip(d, i + TimeOffset(h), b.time);
    }
  }

  lemma BodyRoundTrip(d: seq<byte>, i: nat, b: Body, s4s: bool)
    requires WellFormed(Frame(None, b), s4s) && At(d, i, EncodeBody(b, s4s))
    ensures BodyLength(Header(b), s4s) == Some(|EncodeBody(b, s4s)|)
    ensures BodyAt(d, Header(b), i, s4s) == b
  {
    match b
    case Data(_, _, _, _) =>
      HeaderOfData(b, s4s);
      PartsLayout(d, Header(b), i, b, s4s);
      hide EncodeBody, BodyAt;
      DataRoundTrip(d, Header(b), i, b, s4s);
    case SensorTime(time) => TimeRoundTrip(d, i, time);
    case Skipped(count) => AtIndex(d, i, [count], 0);
    case InputConfig(_) =>
    case Activity(_) =>
  }

  /** Reading undoes writing, wherever the frame lies in the buffer and whatever surrounds it. */
  lemma ParseEncoded(d: seq<byte>, length: nat, i: nat, f: Frame, s4s: bool)
    requires WellFormed(f, s4s) && length < |d|
    requires At(d, i, Encode(f, s4s)) && i + |Encode(f, s4s)| <= length
    ensures i < length && ParseAt(d, length, i, s4s) == Parsed(f, i + |Encode(f, s4s)|)
  {
    hide EncodeBody, BodyAt, BodyLength;
    var v := if f.virtualHeader.Some? then [f.virtualHeader.value] else [];
    AtConcat(d, i, v + [Header(f.body)], EncodeBody(f.body, s4s));
    AtConcat(d, i, v, [Header(f.body)]);
    AtIndex(d, i + |v|, [Header(f.body)], 0);
    BodyRoundTrip(d, i + |v| + 1, f.body, s4s);
    if f.virtualHeader.Some? {
      AtIndex(d, i, v, 0);
    } else {
      PlainHeaderIsNotVirtual(f.body, s4s);
    }
  }

  lemma PlainHeaderIsNotVirtual(b: Body, s4s: bool)
    requires WellFormed(Frame(None, b), s4s)
    ensures !IsVirtualHeader(Header(b))
  {
  }

  lemma AxesReencode(d: seq<byte>, i: nat)
    requires i + AXES_LENGTH <= |d|
    ensures At(d, i, EncodeAxes(AxesAt(d, i)))
  {
  }

  lemma TimeReencodes(d: seq<byte>, i: nat)
    requires i + TIME_LENGTH <= |d|
    ensures At(d, i, EncodeTime(TimeAt(d, i)))
  {
    SplitTime(d[i], d[i + 1], d[i + 2]);
    assert EncodeTime(TimeAt(d, i)) == [d[i], d[i + 1], d[i + 2]];
  }

  lemma SplitTime(lo: byte, mid: byte, hi: byte)
    ensures var t := lo as int + 0x100 * mid as int + 0x1_0000 * hi as int;
            t % 0x100 == lo && t / 0x100 % 0x100 == mid && t / 0x1_0000 == hi
  {
  }

  lemma DataReencodes(d: seq<byte>, h: byte, i: nat, s4s: bool)
    requires IsDataHeader(h) && i + DataLength(h, s4s) <= |d|
    ensures var b := BodyAt(d, h, i, s4s);
            && WellFormed(Frame(None, b), s4s) && Header(b) == h
            && At(d, i, AuxBytes(b)) && At(d, i + GyrOffset(h), GyrBytes(b))
            && At(d, i + AccOffset(h), AccBytes(b)) && At(d, i + TimeOffset(h), TimeBytes(b, s4s))
  {
    hide EncodeAxes, EncodeTime, AxesAt, TimeAt;
    if HasGyr(h) {
      AxesReencode(d, i + GyrOffset(h));
    }
    if HasAcc(h) {
      AxesReencode(d, i + AccOffset(h));
    }
    if s4s {
      TimeReencodes(d, i + TimeOffset(h));
    }
  }

  lemma BodyReencodes(d: seq<byte>, h: byte, i: nat, s4s: bool)
    requires BodyLength(h, s4s).Some? && i + BodyLength(h, s4s).value <= |d|
    ensures var b := BodyAt(d, h, i, s4s);
            WellFormed(Frame(None, b), s4s) && Header(b) == h && At(d, i, EncodeBody(b, s4s))
    ensures |EncodeBody(BodyAt(d, h, i, s4s), s4s)| == BodyLength(h, s4s).value
  {
    if IsDataHeader(h) {
      var b := BodyAt(d, h, i, s4s);
      DataReencodes(d, h, i, s4s);
      PartsLayout(d, h, i, b, s4s);
    } else if h == HEADER_SENS_TIME {
      TimeReencodes(d, i);
    }
  }

  /** Writing undoes reading: whatever the buffer holds, a frame read from it is well formed and
      encodes to exactly the bytes it was read from. */
  lemma EncodeParsed(d: seq<byte>, length: nat, i: nat, s4s: bool)
    requires i < length < |d| && ParseAt(d, length, i, s4s).Parsed?
    ensures var o := ParseAt(d, length, i, s4s);
            && WellFormed(o.frame, s4s)
            && At(d, i, Encode(o.frame, s4s))
            && o.next == i + |Encode(o.frame, s4s)|
            && i < o.next <= length
  {
    hide EncodeBody, BodyAt, BodyLength;
    var f := ParseAt(d, length, i, s4s).frame;
    var j := HeaderIndex(d, i);
    BodyReencodes(d, d[j], j + 1, s4s);
    var v := if f.virtualHeader.Some? then [f.virtualHeader.value] else [];
    AtConcat(d, i, v, [Header(f.body)]);
    AtConcat(d, i, v + [Header(f.body)], EncodeBody(f.body, s4s));
  }
}
