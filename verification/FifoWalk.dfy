/** Extraction in header mode as a walk over frames, and what holds of every walk. */
module FifoWalk {
  import opened Basics
  import opened FifoFormat

  datatype Sensor = Acc | Gyr | Aux

  /** BMI2_OK, BMI2_W_FIFO_EMPTY, BMI2_W_PARTIAL_READ and BMI2_W_DUMMY_BYTE. */
  datatype Status = Ok | Empty | Partial | Dummy

  /** The part of `struct bmi2_fifo_frame` a walk updates, and the pending return value. */
  datatype Cursor = Cursor(index: nat, sensorTime: nat, skipped: byte, status: Status)

  /** The bytes read from the device, the length asked for, and whether S4S was on. */
  datatype Buffer = Buffer(data: seq<byte>, length: nat, s4s: bool) {
    ghost predicate Valid() {
      length < |data|
    }
  }

  datatype Trace = Trace(frames: seq<Frame>, end: Cursor)

  predicate Carries(f: Frame, k: Sensor) {
    f.body.Data? &&
    match k
    case Acc => f.body.acc.Some?
    case Gyr => f.body.gyr.Some?
    case Aux => f.body.aux.Some?
  }

  function After(c: Cursor, f: Frame, next: nat): Cursor {
    Cursor(next,
           if f.body.SensorTime? then f.body.time else c.sensorTime,
           if f.body.Skipped? then f.body.count else c.skipped,
           Partial)
  }

  function Next(b: Buffer, c: Cursor): Outcome
    requires b.Valid() && c.index < b.length
  {
    ParseAt(b.data, b.length, c.index, b.s4s)
  }

  lemma NextAdvances(b: Buffer, c: Cursor)
    requires b.Valid() && c.index < b.length
    ensures Next(b, c).Parsed? ==> c.index < Next(b, c).next <= b.length
  {
  }

  /** All frames visited from `c` until `wanted` of them carried sensor `k`, the buffer ended, or a
      header was not understood.  `wanted` is an integer because the C loops compare for equality: a
      request of zero is only noticed if the first frame is some other sensor's. */
  function Walk(b: Buffer, k: Sensor, c: Cursor, wanted: int): Trace
    requires b.Valid()
    decreases b.length - c.index, 0
  {
    if c.index >= b.length then Trace([], c)
    else
      match Next(b, c)
      case Stop => Trace([], c.(index := b.length, status := Empty))
      case Cut => Trace([], c.(index := b.length, status := Ok))
      case Parsed(f, next) =>
        NextAdvances(b, c);
        var rest := GoOn(b, k, After(c, f, next), Left(f, k, wanted));
        Trace([f] + rest.frames, rest.end)
  }

  /** The test at the end of the loop body. */
  function GoOn(b: Buffer, k: Sensor, c: Cursor, left: int): Trace
    requires b.Valid()
    decreases b.length - c.index, 1
  {
    if left == 0 then Trace([], c) else Walk(b, k, c, left)
  }

  function Left(f: Frame, k: Sensor, wanted: int): int {
    if Carries(f, k) then wanted - 1 else wanted
  }

  function Hits(k: Sensor, fs: seq<Frame>): seq<Frame> {
    if fs == [] then []
    else (if Carries(fs[0], k) then [fs[0]] else []) + Hits(k, fs[1..])
  }

  /** A walk with frames already visited in front. */
  function Preceded(seen: seq<Frame>, t: Trace): Trace {
    Trace(seen + t.frames, t.end)
  }

  /** What one turn of an extraction loop does to the cursor. */
  ghost predicate Stepped(o: Outcome, length: nat, before: Cursor, after: Cursor) {
    if o.Parsed? then after == After(before, o.frame, o.next)
    else after == before.(index := length, status := if o.Stop? then Empty else Ok)
  }

  ghost function SeenAfter(o: Outcome, seen: seq<Frame>): seq<Frame> {
    if o.Parsed? then seen + [o.frame] else seen
  }

  predicate HitBy(o: Outcome, k: Sensor) {
    o.Parsed? && Carries(o.frame, k)
  }

  /** One turn of an extraction loop, seen from the walk it is part of: `count` frames of the sensor so
      far, `count'` after the turn; the loop leaves exactly when the walk is over. */
  lemma WalkTurns(b: Buffer, k: Sensor, c: Cursor, c': Cursor, wanted: int, count: int, count': int, seen: seq<Frame>)
    requires b.Valid() && c.index < b.length && Stepped(Next(b, c), b.length, c, c')
    requires count' == if HitBy(Next(b, c), k) then count + 1 else count
    ensures var goal := Preceded(seen, Walk(b, k, c, wanted - count));
            var seen' := SeenAfter(Next(b, c), seen);
            && c.index < c'.index <= b.length
            && (if count' == wanted || c'.status == Empty then goal == Trace(seen', c')
                else goal == Preceded(seen', Walk(b, k, c', wanted - count')))
  {
    hide Next, Carries;
    if Next(b, c).Parsed? {
      NextAdvances(b, c);
      var f := Next(b, c).frame;
      var rest := GoOn(b, k, c', wanted - count');
      assert seen + ([f] + rest.frames) == seen + [f] + rest.frames;
    }
  }

  /** The invariant of an extraction loop: `goal` is what has been seen, followed by the walk still to do. */
  ghost predicate InWalk(b: Buffer, k: Sensor, goal: Trace, seen: seq<Frame>, c: Cursor, wanted: int, count: int)
    requires b.Valid()
  {
    goal == Preceded(seen, Walk(b, k, c, wanted - count))
  }

  lemma WalkStarts(b: Buffer, k: Sensor, c: Cursor, wanted: int)
    requires b.Valid()
    ensures InWalk(b, k, Walk(b, k, c, wanted), [], c, wanted, 0)
    ensures c.index >= b.length ==> Walk(b, k, c, wanted) == Trace([], c)
  {
  }

  lemma LoopTurn(b: Buffer, k: Sensor, goal: Trace, c: Cursor, c': Cursor,
                 wanted: int, count: int, count': int, seen: seq<Frame>)
    requires b.Valid() && c.index < b.length && InWalk(b, k, goal, seen, c, wanted, count)
    requires Stepped(Next(b, c), b.length, c.(status := Ok), c')
    requires count' == if HitBy(Next(b, c), k) then count + 1 else count
    ensures c.index < c'.index <= b.length
    ensures var seen' := SeenAfter(Next(b, c), seen);
            if count' == wanted || c'.status == Empty then goal == Trace(seen', c')
            else InWalk(b, k, goal, seen', c', wanted, count') && (c'.index >= b.length ==> goal == Trace(seen', c'))
  {
    WalkTurns(b, k, c, c', wanted, count, count', seen);
    hide Next, HitBy, SeenAfter;
    var seen' := SeenAfter(Next(b, c), seen);
    assert seen' + [] == seen';
  }

  // ---------- what is read ----------

  /** Every walk over every buffer: the visited frames are well formed, their encoding is exactly the
      bytes walked over, and the walk ends inside the buffer. */
  ghost predicate Reads(b: Buffer, start: nat, w: Trace) {
    && Written(b.data, start, w.frames, b.s4s)
    && EndOf(start, w.frames, b.s4s) <= w.end.index <= b.length
    && (w.end.index < b.length ==> w.end.index == EndOf(start, w.frames, b.s4s))
  }

  lemma {:induction false} WalkReadsEncoding(b: Buffer, k: Sensor, c: Cursor, wanted: int)
    requires b.Valid() && c.index <= b.length
    ensures Reads(b, c.index, Walk(b, k, c, wanted))
    decreases b.length - c.index
  {
    hide Reads, Next, Encode, WellFormed;
    if c.index < b.length && Next(b, c).Parsed? {
      var f, next := Next(b, c).frame, Next(b, c).next;
      NextReads(b, c);
      var c', left := After(c, f, next), Left(f, k, wanted);
      if left == 0 {
        NothingRead(b, next, c');
      } else {
        WalkReadsEncoding(b, k, c', left);
      }
      ReadsCons(b, c.index, f, GoOn(b, k, c', left));
    } else {
      NothingRead(b, c.index, Walk(b, k, c, wanted).end);
    }
  }

  lemma NextReads(b: Buffer, c: Cursor)
    requires b.Valid() && c.index < b.length && Next(b, c).Parsed?
    ensures var f, next := Next(b, c).frame, Next(b, c).next;
            && WellFormed(f, b.s4s)
            && At(b.data, c.index, Encode(f, b.s4s))
            && c.index < next == c.index + |Encode(f, b.s4s)| <= b.length
  {
    EncodeParsed(b.data, b.length, c.index, b.s4s);
  }

  lemma NothingRead(b: Buffer, start: nat, c: Cursor)
    requires start <= c.index <= b.length < |b.data|
    requires c.index < b.length ==> c.index == start
    ensures Reads(b, start, Trace([], c))
  {
  }

  lemma ReadsCons(b: Buffer, start: nat, f: Frame, rest: Trace)
    requires WellFormed(f, b.s4s) && At(b.data, start, Encode(f, b.s4s))
    requires Reads(b, start + |Encode(f, b.s4s)|, rest)
    ensures Reads(b, start, Trace([f] + rest.frames, rest.end))
  {
    hide Encode, WellFormed, EncodeAll, AllWellFormed;
    WrittenCons(b.data, start, f, rest.frames, b.s4s);
  }

  // ---------- one reference reading for all three sensors ----------

  /** Every frame from `c` on, with no sensor and no request in mind. */
  function All(b: Buffer, c: Cursor): Trace
    requires b.Valid()
    decreases b.length - c.index
  {
    if c.index >= b.length then Trace([], c)
    else
      match Next(b, c)
      case Stop => Trace([], c.(index := b.length, status := Empty))
      case Cut => Trace([], c.(index := b.length, status := Ok))
      case Parsed(f, next) =>
        NextAdvances(b, c);
        var rest := All(b, After(c, f, next));
        Trace([f] + rest.frames, rest.end)
  }

  lemma HitsCons(k: Sensor, f: Frame, fs: seq<Frame>)
    ensures Hits(k, [f] + fs) == (if Carries(f, k) then [f] else []) + Hits(k, fs)
  {
  }

  /** A walk whose request is not met, or can never be met, reads everything: the three sensors' walks
      then visit the same frames and end alike, whatever the buffer. */
  lemma {:induction false} UnmetRequestReadsAll(b: Buffer, k: Sensor, c: Cursor, wanted: int)
    requires b.Valid() && (wanted < 0 || |Hits(k, All(b, c).frames)| < wanted)
    ensures Walk(b, k, c, wanted) == All(b, c)
    decreases b.length - c.index
  {
    hide Next, Hits;
    if c.index < b.length && Next(b, c).Parsed? {
      var f, next := Next(b, c).frame, Next(b, c).next;
      NextAdvances(b, c);
      HitsCons(k, f, All(b, After(c, f, next)).frames);
      UnmetRequestReadsAll(b, k, After(c, f, next), Left(f, k, wanted));
    }
  }

  /** A walk whose request of n is met visits the shortest beginning of the reference reading that holds
      n frames of its sensor. */
  lemma {:induction false} MetRequestReadsPrefix(b: Buffer, k: Sensor, c: Cursor, wanted: int)
    requires b.Valid() && 1 <= wanted <= |Hits(k, All(b, c).frames)|
    ensures var w := Walk(b, k, c, wanted);
            && w.frames <= All(b, c).frames
            && |Hits(k, w.frames)| == wanted
            && w.frames != [] && Carries(w.frames[|w.frames| - 1], k)
    ensures Walk(b, k, c, wanted).end.index <= b.length
    decreases b.length - c.index
  {
    hide Next, Hits;
    if c.index < b.length && Next(b, c).Parsed? {
      var f, next := Next(b, c).frame, Next(b, c).next;
      NextAdvances(b, c);
      var c', left := After(c, f, next), Left(f, k, wanted);
      HitsCons(k, f, All(b, c').frames);
      HitsCons(k, f, GoOn(b, k, c', left).frames);
      if left == 0 {
        NoHits(k);
      } else {
        MetRequestReadsPrefix(b, k, c', left);
      }
    } else {
      NoHits(k);
    }
  }

  lemma NoHits(k: Sensor)
    ensures Hits(k, []) == []
  {
  }

  /** Lock step: at any two requests, one walk's frames are a beginning of the other's; so the three
      hand-written loops never disagree about where a frame starts. */
  lemma LockStep(b: Buffer, k1: Sensor, k2: Sensor, c: Cursor, n1: int, n2: int)
    requires b.Valid() && n1 >= 1 && n2 >= 1
    ensures var fs1, fs2 := Walk(b, k1, c, n1).frames, Walk(b, k2, c, n2).frames; fs1 <= fs2 || fs2 <= fs1
    ensures |Hits(k1, All(b, c).frames)| < n1 && |Hits(k2, All(b, c).frames)| < n2
       ==> Walk(b, k1, c, n1) == Walk(b, k2, c, n2)
  {
    hide Walk, Hits, All;
    var fs := All(b, c).frames;
    if |Hits(k1, fs)| < n1 {
      UnmetRequestReadsAll(b, k1, c, n1);
    } else {
      MetRequestReadsPrefix(b, k1, c, n1);
    }
    if |Hits(k2, fs)| < n2 {
      UnmetRequestReadsAll(b, k2, c, n2);
    } else {
      MetRequestReadsPrefix(b, k2, c, n2);
    }
  }

  // ---------- resuming ----------

  /** Asking for n and then for m, from where the first call left the byte index, is asking for n + m:
      same frames, same index, same sensor time, same skipped count; and the same return value unless
      the first call had already reached the end. */
  lemma {:induction false} Resume(b: Buffer, k: Sensor, c: Cursor, n: int, m: int)
    requires b.Valid() && n >= 1 && m >= 1
    ensures var w := Walk(b, k, c, n);
            var w' := Walk(b, k, w.end.(status := Ok), m);
            var both := Walk(b, k, c, n + m);
            && both.frames == w.frames + w'.frames
            && both.end.(status := Ok) == w'.end.(status := Ok)
            && (w.end.index < b.length ==> both.end.status == w'.end.status)
    decreases b.length - c.index
  {
    hide Next, Carries;
    if c.index < b.length && Next(b, c).Parsed? {
      var f, next := Next(b, c).frame, Next(b, c).next;
      NextAdvances(b, c);
      var c' := After(c, f, next);
      if Left(f, k, n) == 0 {
        StatusIsOutput(b, k, c', m);
      } else {
        Resume(b, k, c', Left(f, k, n), m);
      }
    }
  }

  lemma {:induction false} WalkIndexGrows(b: Buffer, k: Sensor, c: Cursor, wanted: int)
    requires b.Valid()
    ensures Walk(b, k, c, wanted).end.index >= c.index
    decreases b.length - c.index
  {
    hide Next, Carries;
    if c.index < b.length && Next(b, c).Parsed? {
      var f, next := Next(b, c).frame, Next(b, c).next;
      NextAdvances(b, c);
      if Left(f, k, wanted) != 0 {
        WalkIndexGrows(b, k, After(c, f, next), Left(f, k, wanted));
      }
    }
  }

  /** The pending status does not steer a walk; it only survives when nothing is left to read. */
  lemma StatusIsOutput(b: Buffer, k: Sensor, c: Cursor, wanted: int)
    requires b.Valid()
    ensures var w := Walk(b, k, c, wanted);
            var w' := Walk(b, k, c.(status := Ok), wanted);
            w.frames == w'.frames && w.end.(status := Ok) == w'.end.(status := Ok)
            && (c.index < b.length ==> w == w')
  {
  }

  // ---------- round trip ----------

  function LastTime(fs: seq<Frame>, t: nat): nat {
    if fs == [] then t else LastTime(fs[1..], if fs[0].body.SensorTime? then fs[0].body.time else t)
  }

  function LastSkipped(fs: seq<Frame>, n: byte): byte {
    if fs == [] then n else LastSkipped(fs[1..], if fs[0].body.Skipped? then fs[0].body.count else n)
  }

  /** Frames written at the cursor and filling the buffer are read back, all of them and in order. */
  lemma {:induction false} AllReadsWritten(b: Buffer, c: Cursor, fs: seq<Frame>)
    requires b.Valid() && Written(b.data, c.index, fs, b.s4s) && EndOf(c.index, fs, b.s4s) == b.length
    ensures var a := All(b, c);
            && a.frames == fs
            && a.end.index == b.length
            && a.end.sensorTime == LastTime(fs, c.sensorTime)
            && a.end.skipped == LastSkipped(fs, c.skipped)
            && a.end.status == (if fs == [] then c.status else Partial)
    decreases fs
  {
    hide Written, EndOf, All, Encode;
    if fs == [] {
      NothingWritten(b, c);
    } else {
      var f, rest := fs[0], fs[1..];
      assert fs == [f] + rest;
      FirstFrame(b, c, f, rest);
      AllReadsWritten(b, After(c, f, c.index + |Encode(f, b.s4s)|), rest);
    }
  }

  lemma NothingWritten(b: Buffer, c: Cursor)
    requires b.Valid() && AllWellFormed([], b.s4s) && EndOf(c.index, [], b.s4s) == b.length
    ensures All(b, c) == Trace([], c) && c.index == b.length
  {
  }

  lemma FirstFrame(b: Buffer, c: Cursor, f: Frame, rest: seq<Frame>)
    requires b.Valid() && Written(b.data, c.index, [f] + rest, b.s4s)
    requires EndOf(c.index, [f] + rest, b.s4s) == b.length
    ensures WellFormed(f, b.s4s)
    ensures var next := c.index + |Encode(f, b.s4s)|;
            && Written(b.data, next, rest, b.s4s) && EndOf(next, rest, b.s4s) == b.length
            && var a := All(b, After(c, f, next)); All(b, c) == Trace([f] + a.frames, a.end)
  {
    WrittenHead(b.data, c.index, f, rest, b.s4s);
    assert c.index + |Encode(f, b.s4s)| <= b.length;
    hide Written, EndOf, Encode, WellFormed, ParseAt, At;
    ParseEncoded(b.data, b.length, c.index, f, b.s4s);
  }

  /** Decoding undoes encoding, sensor by sensor: a request for more samples than there are returns the
      sensor's frames in order and reaches the end; a smaller one returns the first `wanted` of them. */
  lemma RoundTrip(b: Buffer, k: Sensor, c: Cursor, fs: seq<Frame>, wanted: int)
    requires b.Valid() && Written(b.data, c.index, fs, b.s4s) && EndOf(c.index, fs, b.s4s) == b.length
    requires wanted >= 1
    ensures var w := Walk(b, k, c, wanted);
            && w.frames <= fs
            && Hits(k, w.frames) == (if wanted <= |Hits(k, fs)| then Hits(k, fs)[..wanted] else Hits(k, fs))
            && (wanted > |Hits(k, fs)| ==>
                  w.frames == fs && w.end.index == b.length
                  && w.end.sensorTime == LastTime(fs, c.sensorTime) && w.end.skipped == LastSkipped(fs, c.skipped))
  {
    hide Walk, Hits, Written, EndOf;
    AllReadsWritten(b, c, fs);
    if wanted > |Hits(k, fs)| {
      UnmetRequestReadsAll(b, k, c, wanted);
    } else {
      MetRequestReadsPrefix(b, k, c, wanted);
      var w := Walk(b, k, c, wanted);
      assert fs == w.frames + fs[|w.frames|..];
      HitsConcat(k, w.frames, fs[|w.frames|..]);
    }
  }

  lemma {:induction false} HitsConcat(k: Sensor, fs: seq<Frame>, gs: seq<Frame>)
    ensures Hits(k, fs + gs) == Hits(k, fs) + Hits(k, gs)
  {
    hide Carries, Hits;
    if fs == [] {
      NoHits(k);
      assert fs + gs == gs;
    } else {
      HitsConcat(k, fs[1..], gs);
      HitsCons(k, fs[0], fs[1..] + gs);
      HitsCons(k, fs[0], fs[1..]);
      assert fs + gs == [fs[0]] + (fs[1..] + gs);
      assert fs == [fs[0]] + fs[1..];
    }
  }

  // ---------- shortening the buffer ----------

  /** `short` holds the same bytes as `long` below its own, possibly smaller, length. */
  ghost predicate Shortens(short: Buffer, long: Buffer) {
    && short.Valid() && long.Valid() && short.s4s == long.s4s && short.length <= long.length
    && short.data[..short.length] == long.data[..short.length]
  }

  lemma NextOfShorter(short: Buffer, long: Buffer, c: Cursor)
    requires Shortens(short, long) && c.index < short.length && Next(short, c).Parsed?
    ensures Next(long, c) == Next(short, c)
  {
    var f := Next(short, c).frame;
    NextReads(short, c);
    hide Encode, WellFormed, ParseAt;
    AtSamePrefix(short.data, long.data, short.length, c.index, Encode(f, short.s4s));
    ParseEncoded(long.data, long.length, c.index, f, long.s4s);
  }

  /** No sample depends on a byte at or past the length, and cutting the buffer anywhere only loses
      frames at the end.  With equal lengths, only the return value can still differ: the byte after a
      final virtual header is looked at, but decides nothing else. */
  lemma {:induction false} ShorterReadsLess(short: Buffer, long: Buffer, k: Sensor, c: Cursor, wanted: int)
    requires Shortens(short, long) && c.index <= short.length
    ensures Walk(short, k, c, wanted).frames <= Walk(long, k, c, wanted).frames
    ensures short.length == long.length ==>
              && Walk(short, k, c, wanted).frames == Walk(long, k, c, wanted).frames
              && Walk(short, k, c, wanted).end.(status := Ok) == Walk(long, k, c, wanted).end.(status := Ok)
    decreases short.length - c.index
  {
    hide Next, Carries;
    if c.index < short.length {
      if Next(short, c).Parsed? {
        NextOfShorter(short, long, c);
        NextAdvances(short, c);
        var f, next := Next(short, c).frame, Next(short, c).next;
        if Left(f, k, wanted) != 0 {
          ShorterReadsLess(short, long, k, After(c, f, next), Left(f, k, wanted));
        }
      } else if short.length == long.length {
        ShortensSymmetric(short, long);
        if Next(long, c).Parsed? {
          NextOfShorter(long, short, c);
        }
      }
    }
  }

  lemma ShortensSymmetric(b1: Buffer, b2: Buffer)
    requires Shortens(b1, b2) && b1.length == b2.length
    ensures Shortens(b2, b1)
  {
  }

  /** At most the requested number of samples, if at least one was requested. */
  lemma {:induction false} NeverMoreThanWanted(b: Buffer, k: Sensor, c: Cursor, wanted: int)
    requires b.Valid() && wanted >= 1
    ensures |Hits(k, Walk(b, k, c, wanted).frames)| <= wanted
  {
    hide Walk, Hits;
    if |Hits(k, All(b, c).frames)| < wanted {
      UnmetRequestReadsAll(b, k, c, wanted);
    } else {
      MetRequestReadsPrefix(b, k, c, wanted);
    }
  }

  /** A request of zero is honoured exactly when the first frame is not the sensor's (or nothing can be
      read at all); otherwise it reads everything. */
  lemma ZeroRequest(b: Buffer, k: Sensor, c: Cursor)
    requires b.Valid()
    ensures var fs := All(b, c).frames;
            Hits(k, Walk(b, k, c, 0).frames) == (if fs != [] && Carries(fs[0], k) then Hits(k, fs) else [])
  {
    hide Next, Carries;
    if c.index < b.length && Next(b, c).Parsed? {
      var f, next := Next(b, c).frame, Next(b, c).next;
      if Carries(f, k) {
        UnmetRequestReadsAll(b, k, After(c, f, next), -1);
      } else {
        HitsCons(k, f, []);
      }
    }
  }

  /** For instance, with two accelerometer frames in the buffer a request of zero returns both. */
  lemma ZeroRequestReadsAll(f: Frame)
    requires Carries(f, Acc) && WellFormed(f, false)
    ensures var data := EncodeAll([f, f], false);
            var b := Buffer(data + [0], |data|, false);
            b.Valid() && Hits(Acc, Walk(b, Acc, Cursor(0, 0, 0, Ok), 0).frames) == [f, f]
  {
    hide Walk, All, Encode;
    var data := EncodeAll([f, f], false);
    var b := Buffer(data + [0], |data|, false);
    var c := Cursor(0, 0, 0, Ok);
    assert b.data[0..|data|] == data;
    AllReadsWritten(b, c, [f, f]);
    ZeroRequest(b, Acc, c);
    HitsCons(Acc, f, [f]);
    HitsCons(Acc, f, []);
    assert [f] + [f] == [f, f] && [f] + [] == [f];
    NoHits(Acc);
  }
}
