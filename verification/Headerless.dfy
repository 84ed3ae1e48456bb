/** Headerless extraction: frames have one fixed length and no header, so everything hangs on where
    the walk starts and how it steps. */
module Headerless {
  import opened Basics
  import opened FifoFormat
  import opened FifoWalk

  /** Which sensors share the FIFO; `struct bmi2_fifo_frame.data_enable`. */
  datatype Enabled = Enabled(acc: bool, gyr: bool, aux: bool) {
    predicate Includes(k: Sensor) {
      match k
      case Acc => acc
      case Gyr => gyr
      case Aux => aux
    }

    /** Bytes per frame, without time. */
    function FrameLength(): nat {
      (if acc then AXES_LENGTH else 0) + (if gyr then AXES_LENGTH else 0) + (if aux then AUX_LENGTH else 0)
    }

    /** Where sensor `k` sits inside a frame. */
    function Offset(k: Sensor): nat {
      match k
      case Aux => 0
      case Gyr => if aux then AUX_LENGTH else 0
      case Acc => (if aux then AUX_LENGTH else 0) + (if gyr then AXES_LENGTH else 0)
    }
  }

  /** The first byte of a dummy frame tells whose dummy it is. */
  function DummyMark(k: Sensor): byte {
    match k
    case Acc => 0x01
    case Gyr => 0x02
    case Aux => 0x03
  }

  predicate IsDummy(b: Buffer, k: Sensor, i: nat)
    requires b.Valid()
  {
    i + 6 < b.length
    && b.data[i] == DummyMark(k) && b.data[i + 1] == 0x7F && b.data[i + 2] == 0x00 && b.data[i + 3] == 0x80
  }

  predicate IsEmptyMark(b: Buffer, i: nat)
    requires b.Valid()
  {
    i + 6 < b.length
    && b.data[i] == 0x00 && b.data[i + 1] == 0x80 && b.data[i + 2] == 0x00
    && b.data[i + 3] == 0x80 && b.data[i + 4] == 0x00 && b.data[i + 5] == 0x80
  }

  /** Read as a sample, a dummy frame has 0x7F01, 0x7F02 or 0x7F03 for x and the lowest value there is for y. */
  lemma DummyIs(b: Buffer, k: Sensor, i: nat)
    requires b.Valid() && i + 6 < b.length
    ensures IsDummy(b, k, i) <==>
              && WordAt(b.data, i) == (match k case Acc => 0x7F01 case Gyr => 0x7F02 case Aux => 0x7F03)
              && WordAt(b.data, i + 2) == -0x8000
  {
  }

  /** And the mark of an empty FIFO is three times the lowest value. */
  lemma EmptyMarkIs(b: Buffer, i: nat)
    requires b.Valid() && i + 6 < b.length
    ensures IsEmptyMark(b, i) <==> AxesAt(b.data, i) == Axes(-0x8000, -0x8000, -0x8000)
  {
  }

  /** The positions samples were taken from, and how the walk ended. */
  datatype Positions = Positions(taken: seq<nat>, index: nat, status: Status)

  function Step(e: Enabled, s4s: bool): nat {
    e.FrameLength() + if s4s then TIME_LENGTH else 0
  }

  /** The extraction from position `i` on, with an index that has room for any value; `CutHarmlessExactly`
      says when the driver's loop, whose index has sixteen bits, is the same. */
  function Scan(b: Buffer, k: Sensor, e: Enabled, readLength: nat, i: nat, status: Status): Positions
    requires b.Valid() && readLength <= b.length && e.Includes(k)
    decreases b.length - i
  {
    if i >= readLength || status == Empty then Positions([], i, status)
    else if i + 6 >= b.length then Positions([], b.length, Empty)
    else if IsDummy(b, k, i) then Scan(b, k, e, readLength, i + e.FrameLength(), Dummy)
    else if i + Step(e, b.s4s) > b.length then Positions([], b.length, Ok)
    else
      var next := i + Step(e, b.s4s);
      if IsEmptyMark(b, next) then Positions([i], b.length, Empty)
      else
        var rest := Scan(b, k, e, readLength, next, if next + 6 < b.length then Partial else Ok);
        Positions([i] + rest.taken, rest.index, rest.status)
  }

  /** The number of bytes considered: the product is cut to sixteen bits, then to the length. */
  function ReadLength(e: Enabled, wanted: uint16, length: nat): (r: nat)
    ensures r <= length && r <= wanted * e.FrameLength()
  {
    var n := wanted * e.FrameLength() % 0x1_0000;
    if n > length then length else n
  }

  // ---------- what is taken ----------

  /** All in [lo, hi), increasing, and at least `gap` apart. */
  ghost predicate Apart(ps: seq<nat>, gap: nat, lo: nat, hi: nat) {
    && (forall j :: 0 <= j < |ps| ==> lo <= ps[j] < hi)
    && (forall i, j :: 0 <= i < j < |ps| ==> ps[i] + gap <= ps[j])
  }

  lemma {:induction false} ApartCount(ps: seq<nat>, gap: nat, lo: nat, hi: nat, n: nat)
    requires Apart(ps, gap, lo, hi) && gap > 0 && hi <= lo + n * gap
    ensures |ps| <= n
    decreases n
  {
    assert ps != [] ==> lo <= ps[0] < hi;
    if ps != [] && n > 0 {
      assert n * gap == (n - 1) * gap + gap;
      ApartCount(ps[1..], gap, lo + gap, hi, n - 1);
    }
  }

  /** A whole frame lies below the length, and more than six bytes follow the position. */
  ghost predicate Inside(b: Buffer, e: Enabled, ps: seq<nat>) {
    forall j :: 0 <= j < |ps| ==> ps[j] + 6 < b.length && ps[j] + Step(e, b.s4s) <= b.length
  }

  /** Samples never overlap, never reach past the length, and start below the read length. */
  ghost predicate Sound(b: Buffer, e: Enabled, ps: seq<nat>, lo: nat, hi: nat) {
    Apart(ps, e.FrameLength(), lo, hi) && Inside(b, e, ps)
  }

  lemma SoundCons(b: Buffer, e: Enabled, p: nat, ps: seq<nat>, hi: nat)
    requires p < hi && p + 6 < b.length && p + Step(e, b.s4s) <= b.length
    requires Sound(b, e, ps, p + Step(e, b.s4s), hi)
    ensures Sound(b, e, [p] + ps, p, hi)
  {
  }

  lemma SoundWider(b: Buffer, e: Enabled, ps: seq<nat>, lo: nat, lo': nat, hi: nat)
    requires Sound(b, e, ps, lo, hi) && lo' <= lo
    ensures Sound(b, e, ps, lo', hi)
  {
  }

  lemma SoundNone(b: Buffer, e: Enabled, lo: nat, hi: nat)
    ensures Sound(b, e, [], lo, hi)
  {
  }

  lemma {:induction false} ScanIsSound(b: Buffer, k: Sensor, e: Enabled, readLength: nat, i: nat, status: Status)
    requires b.Valid() && readLength <= b.length && e.Includes(k)
    ensures Sound(b, e, Scan(b, k, e, readLength, i, status).taken, i, readLength)
    decreases b.length - i
  {
    hide IsDummy, IsEmptyMark, Sound;
    SoundNone(b, e, i, readLength);
    if i < readLength && status != Empty && i + 6 < b.length {
      if IsDummy(b, k, i) {
        var next := i + e.FrameLength();
        ScanIsSound(b, k, e, readLength, next, Dummy);
        SoundWider(b, e, Scan(b, k, e, readLength, next, Dummy).taken, next, i, readLength);
      } else if i + Step(e, b.s4s) <= b.length {
        var next := i + Step(e, b.s4s);
        var status' := if next + 6 < b.length then Partial else Ok;
        SoundNone(b, e, next, readLength);
        SoundCons(b, e, i, [], readLength);
        if !IsEmptyMark(b, next) {
          ScanIsSound(b, k, e, readLength, next, status');
          SoundCons(b, e, i, Scan(b, k, e, readLength, next, status').taken, readLength);
        } else {
          assert [i] + [] == [i];
        }
      }
    }
  }

  /** Never more samples than asked for, from any start index, S4S on or off. */
  lemma AtMostWanted(b: Buffer, k: Sensor, e: Enabled, wanted: uint16, i: nat, status: Status)
    requires b.Valid() && e.Includes(k)
    ensures |Scan(b, k, e, ReadLength(e, wanted, b.length), i, status).taken| <= wanted
  {
    var r := ReadLength(e, wanted, b.length);
    ScanIsSound(b, k, e, r, i, status);
    hide Scan, ReadLength;
    ApartCount(Scan(b, k, e, r, i, status).taken, e.FrameLength(), i, r, wanted);
  }

  ghost predicate OnGrid(start: nat, step: nat, p: nat) {
    exists m: nat :: p == start + m * step
  }

  lemma NextOnGrid(start: nat, step: nat, p: nat)
    requires OnGrid(start, step, p)
    ensures OnGrid(start, step, p + step)
  {
    var m: nat :| p == start + m * step;
    assert p + step == start + (m + 1) * step;
  }

  /** With S4S off every sample stands a whole number of frames after the start, dummies or not. */
  lemma {:induction false} ScanOnGrid(b: Buffer, k: Sensor, e: Enabled, readLength: nat, start: nat, i: nat,
      status: Status)
    requires b.Valid() && readLength <= b.length && e.Includes(k) && !b.s4s
    requires OnGrid(start, e.FrameLength(), i)
    ensures forall p :: p in Scan(b, k, e, readLength, i, status).taken ==> OnGrid(start, e.FrameLength(), p)
    decreases b.length - i
  {
    hide IsDummy, IsEmptyMark, OnGrid;
    if i < readLength && status != Empty && i + 6 < b.length {
      var next := i + e.FrameLength();
      NextOnGrid(start, e.FrameLength(), i);
      if IsDummy(b, k, i) {
        ScanOnGrid(b, k, e, readLength, start, next, Dummy);
      } else if next <= b.length && !IsEmptyMark(b, next) {
        ScanOnGrid(b, k, e, readLength, start, next, if next + 6 < b.length then Partial else Ok);
      }
    }
  }

  // ---------- exactly what is taken from a clean buffer ----------

  function GridPoint(i: nat, step: nat, m: nat): nat {
    i + m * step
  }

  lemma GridShift(i: nat, step: nat, m: nat)
    ensures GridPoint(i + step, step, m) == GridPoint(i, step, m + 1)
    ensures GridPoint(i, step, 0) == i && GridPoint(i, step, 1) == i + step
  {
  }

  /** No frame from `i` on is a dummy or starts with the empty-FIFO mark. */
  ghost predicate Clean(b: Buffer, k: Sensor, e: Enabled, i: nat)
    requires b.Valid()
  {
    forall m: nat :: var p := GridPoint(i, Step(e, b.s4s), m); !IsDummy(b, k, p) && (m > 0 ==> !IsEmptyMark(b, p))
  }

  lemma CleanOnward(b: Buffer, k: Sensor, e: Enabled, i: nat)
    requires b.Valid() && Clean(b, k, e, i)
    ensures !IsDummy(b, k, i) && !IsEmptyMark(b, i + Step(e, b.s4s))
    ensures Clean(b, k, e, i + Step(e, b.s4s))
  {
    hide IsDummy, IsEmptyMark, GridPoint;
    var step := Step(e, b.s4s);
    GridShift(i, step, 0);
    var next := i + step;
    forall m: nat
      ensures var p := GridPoint(next, step, m); !IsDummy(b, k, p) && (m > 0 ==> !IsEmptyMark(b, p))
    {
      GridShift(i, step, m);
    }
  }

  /** The condition for a frame at `p` to be returned. */
  predicate Returned(b: Buffer, e: Enabled, readLength: nat, p: nat) {
    p < readLength && p + 6 < b.length && p + Step(e, b.s4s) <= b.length
  }

  lemma CleanFirst(b: Buffer, k: Sensor, e: Enabled, readLength: nat, i: nat, status: Status)
    requires b.Valid() && readLength <= b.length && e.Includes(k) && status != Empty
    requires !IsDummy(b, k, i) && !IsEmptyMark(b, i + Step(e, b.s4s))
    ensures var next := i + Step(e, b.s4s);
            Scan(b, k, e, readLength, i, status).taken
            == if Returned(b, e, readLength, i) then
                 [i] + Scan(b, k, e, readLength, next, if next + 6 < b.length then Partial else Ok).taken
               else []
  {
  }

  lemma GridAbove(i: nat, step: nat, m: nat)
    ensures GridPoint(i, step, m) >= i
  {
  }

  /** In a clean buffer the frames returned are exactly those positions of the grid that meet the
      condition, one after the other; so a final frame that just fits is returned only if it is longer
      than six bytes from the sensor's offset on -- and never when the offset is not zero. */
  lemma {:induction false} CleanScan(b: Buffer, k: Sensor, e: Enabled, readLength: nat, i: nat, status: Status, m: nat)
    requires b.Valid() && readLength <= b.length && e.Includes(k) && status != Empty && Clean(b, k, e, i)
    ensures var t := Scan(b, k, e, readLength, i, status).taken;
            var p := GridPoint(i, Step(e, b.s4s), m);
            (m < |t| ==> t[m] == p) && (m < |t| <==> Returned(b, e, readLength, p))
    decreases m
  {
    hide Scan, IsDummy, IsEmptyMark, Clean, GridPoint;
    var next := i + Step(e, b.s4s);
    CleanOnward(b, k, e, i);
    CleanFirst(b, k, e, readLength, i, status);
    GridShift(i, Step(e, b.s4s), 0);
    GridAbove(i, Step(e, b.s4s), m);
    if m > 0 && Returned(b, e, readLength, i) {
      GridShift(i, Step(e, b.s4s), m - 1);
      CleanScan(b, k, e, readLength, next, if next + 6 < b.length then Partial else Ok, m - 1);
    }
  }

  // ---------- the loop, whose index has sixteen bits ----------

  function PrecededBy(ps: seq<nat>, t: Positions): Positions {
    Positions(ps + t.taken, t.index, t.status)
  }

  function Cut16(n: nat): (r: nat)
    ensures r < 0x1_0000
  {
    n % 0x1_0000
  }

  lemma CutShort(n: nat)
    requires n < 0x1_0000
    ensures Cut16(n) == n
  {
  }

  lemma LongerStep(e: Enabled, s4s: bool, k: Sensor)
    requires e.Includes(k)
    ensures Step(e, s4s) >= e.FrameLength() >= 6
  {
  }

  /** What one turn of the loop does: the new index and status, and whether a sample was taken.  Only the
      index past a dummy frame is not checked against the length. */
  function ScanStep(b: Buffer, k: Sensor, e: Enabled, i: nat): (nat, Status, bool)
    requires b.Valid()
  {
    if i + 6 >= b.length then (b.length, Empty, false)
    else if IsDummy(b, k, i) then (Cut16(i + e.FrameLength()), Dummy, false)
    else if i + Step(e, b.s4s) > b.length then (b.length, Ok, false)
    else
      var next := i + Step(e, b.s4s);
      if IsEmptyMark(b, next) then (b.length, Empty, true)
      else (next, if next + 6 < b.length then Partial else Ok, true)
  }

  predicate Over(readLength: nat, t: Positions) {
    t.index >= readLength || t.status == Empty
  }

  /** The first `turns` turns of the loop, or all of them if it ends before. */
  function Turns(b: Buffer, k: Sensor, e: Enabled, readLength: nat, i: nat, status: Status, turns: nat): Positions
    requires b.Valid()
    decreases turns
  {
    if turns == 0 || i >= readLength || status == Empty then Positions([], i, status)
    else
      var (next, status', hit) := ScanStep(b, k, e, i);
      PrecededBy(if hit then [i] else [], Turns(b, k, e, readLength, next, status', turns - 1))
  }

  lemma TurnsOver(b: Buffer, k: Sensor, e: Enabled, readLength: nat, i: nat, status: Status, turns: nat)
    requires b.Valid() && (turns == 0 || i >= readLength || status == Empty)
    ensures Turns(b, k, e, readLength, i, status, turns) == Positions([], i, status)
  {
  }

  lemma TurnsNext(b: Buffer, k: Sensor, e: Enabled, readLength: nat, i: nat, status: Status, turns: nat, seen: seq<nat>)
    requires b.Valid() && i < readLength && status != Empty && turns > 0
    ensures var (next, status', hit) := ScanStep(b, k, e, i);
            var seen' := if hit then seen + [i] else seen;
            var goal := PrecededBy(seen, Turns(b, k, e, readLength, i, status, turns));
            goal == PrecededBy(seen', Turns(b, k, e, readLength, next, status', turns - 1))
            && |seen'| <= |goal.taken|
  {
    hide ScanStep;
    var (next, status', hit) := ScanStep(b, k, e, i);
    var rest := Turns(b, k, e, readLength, next, status', turns - 1).taken;
    assert seen + ([i] + rest) == seen + [i] + rest;
    assert seen + ([] + rest) == seen + rest;
  }

  /** A loop that has not ended has turns left, if all turns end it. */
  lemma StillRunning(b: Buffer, k: Sensor, e: Enabled, readLength: nat, i: nat, status: Status, turns: nat,
      seen: seq<nat>)
    requires b.Valid() && i < readLength && status != Empty
    requires Over(readLength, PrecededBy(seen, Turns(b, k, e, readLength, i, status, turns)))
    ensures turns > 0
  {
  }

  lemma AllSeen(b: Buffer, k: Sensor, e: Enabled, readLength: nat, i: nat, status: Status, turns: nat, seen: seq<nat>)
    requires b.Valid() && (i >= readLength || status == Empty)
    ensures PrecededBy(seen, Turns(b, k, e, readLength, i, status, turns)) == Positions(seen, i, status)
  {
  }

  lemma {:induction false} ScanIndexGrows(b: Buffer, k: Sensor, e: Enabled, readLength: nat, i: nat, status: Status)
    requires b.Valid() && readLength <= b.length && e.Includes(k)
    ensures Scan(b, k, e, readLength, i, status).index >= i
    decreases b.length - i
  {
    hide IsDummy, IsEmptyMark;
    if i < readLength && status != Empty && i + 6 < b.length {
      if IsDummy(b, k, i) {
        ScanIndexGrows(b, k, e, readLength, i + e.FrameLength(), Dummy);
      } else if i + Step(e, b.s4s) <= b.length {
        var next := i + Step(e, b.s4s);
        ScanIndexGrows(b, k, e, readLength, next, if next + 6 < b.length then Partial else Ok);
      }
    }
  }

  lemma ScanTurns(b: Buffer, k: Sensor, e: Enabled, readLength: nat, i: nat, status: Status)
    requires b.Valid() && readLength <= b.length && e.Includes(k) && i < readLength && status != Empty
    requires Scan(b, k, e, readLength, i, status).index < 0x1_0000
    ensures var (next, status', hit) := ScanStep(b, k, e, i);
            && i < next
            && Scan(b, k, e, readLength, i, status)
               == PrecededBy(if hit then [i] else [], Scan(b, k, e, readLength, next, status'))
  {
    hide IsDummy, IsEmptyMark, Cut16, Step;
    LongerStep(e, b.s4s, k);
    if i + 6 < b.length && IsDummy(b, k, i) {
      ScanIndexGrows(b, k, e, readLength, i + e.FrameLength(), Dummy);
      CutShort(i + e.FrameLength());
    }
  }

  lemma {:induction false} TurnsAreScan(b: Buffer, k: Sensor, e: Enabled, readLength: nat, i: nat, status: Status,
      turns: nat)
    requires b.Valid() && readLength <= b.length && e.Includes(k) && b.length <= i + turns
    requires Scan(b, k, e, readLength, i, status).index < 0x1_0000
    ensures var t := Turns(b, k, e, readLength, i, status, turns);
            t == Scan(b, k, e, readLength, i, status) && Over(readLength, t)
    decreases turns
  {
    hide ScanStep;
    if turns > 0 && i < readLength && status != Empty {
      ScanTurns(b, k, e, readLength, i, status);
      var (next, status', _) := ScanStep(b, k, e, i);
      TurnsAreScan(b, k, e, readLength, next, status', turns - 1);
    }
  }

  lemma {:induction false} TurnsStayShort(b: Buffer, k: Sensor, e: Enabled, readLength: nat, i: nat, status: Status,
      turns: nat)
    requires b.Valid() && b.length < 0x1_0000 && i < 0x1_0000
    ensures Turns(b, k, e, readLength, i, status, turns).index < 0x1_0000
    decreases turns
  {
    hide IsDummy, IsEmptyMark;
    if turns > 0 && i < readLength && status != Empty {
      var (next, status', _) := ScanStep(b, k, e, i);
      TurnsStayShort(b, k, e, readLength, next, status', turns - 1);
    }
  }

  /** The cut is harmless, that is the loop ends and leaves what it would leave with an unbounded index,
      exactly if no dummy frame carries that index past sixteen bits. */
  lemma CutHarmlessExactly(b: Buffer, k: Sensor, e: Enabled, readLength: nat, i: nat, status: Status)
    requires b.Valid() && b.length < 0x1_0000 && i < 0x1_0000 && readLength <= b.length && e.Includes(k)
    ensures (exists turns :: var t := Turns(b, k, e, readLength, i, status, turns);
                             Over(readLength, t) && t == Scan(b, k, e, readLength, i, status))
            <==> Scan(b, k, e, readLength, i, status).index < 0x1_0000
  {
    hide Turns, Scan;
    forall turns ensures Turns(b, k, e, readLength, i, status, turns).index < 0x1_0000 {
      TurnsStayShort(b, k, e, readLength, i, status, turns);
    }
    if Scan(b, k, e, readLength, i, status).index < 0x1_0000 {
      TurnsAreScan(b, k, e, readLength, i, status, b.length);
    }
  }

  // ---------- when no dummy frame can do that ----------

  lemma {:induction false} ShortIndex(b: Buffer, k: Sensor, e: Enabled, readLength: nat, i: nat, status: Status,
      bound: nat)
    requires b.Valid() && readLength <= b.length && e.Includes(k)
    requires i <= bound && b.length <= bound && b.length + e.FrameLength() <= bound + 7
    ensures Scan(b, k, e, readLength, i, status).index <= bound
    decreases b.length - i
  {
    hide IsDummy, IsEmptyMark;
    if i < readLength && status != Empty && i + 6 < b.length {
      if IsDummy(b, k, i) {
        ShortIndex(b, k, e, readLength, i + e.FrameLength(), Dummy, bound);
      } else if i + Step(e, b.s4s) <= b.length {
        var next := i + Step(e, b.s4s);
        ShortIndex(b, k, e, readLength, next, if next + 6 < b.length then Partial else Ok, bound);
      }
    }
  }

  /** A buffer with nothing in it but a dummy frame of sensor `k` at `p`. */
  function DummyAt(length: nat, k: Sensor, p: nat): (b: Buffer)
    requires p + 6 < length
    ensures b.Valid() && b.length == length && !b.s4s
    ensures forall i: nat :: IsDummy(b, k, i) <==> i == p
    ensures forall i: nat :: !IsEmptyMark(b, i)
  {
    var data: seq<byte> := seq(length + 1, i =>
      if i == p then DummyMark(k) else if i == p + 1 then 0x7F
      else if i == p + 2 then 0x00 else if i == p + 3 then 0x80 else 0x55);
    Buffer(data, length, false)
  }

  /** Whatever the buffer holds, and from any index, the cut is harmless exactly up to this length. */
  lemma AlwaysHarmlessExactly(length: nat, k: Sensor, e: Enabled)
    requires length < 0x1_0000 && e.Includes(k)
    ensures length + e.FrameLength() <= 0x1_0006 <==>
              forall b: Buffer, i: nat, r: nat ::
                b.Valid() && b.length == length && i < 0x1_0000 && r <= length ==>
                  Scan(b, k, e, r, i, Ok).index < 0x1_0000
  {
    hide Scan, IsDummy, IsEmptyMark;
    if length + e.FrameLength() <= 0x1_0006 {
      forall b: Buffer, i: nat, r: nat | b.Valid() && b.length == length && i < 0x1_0000 && r <= length
        ensures Scan(b, k, e, r, i, Ok).index < 0x1_0000
      {
        ShortIndex(b, k, e, r, i, Ok, 0xFFFF);
      }
    } else {
      DummyAtTheEnd(length, k, e);
    }
  }

  lemma DummyAtTheEnd(length: nat, k: Sensor, e: Enabled)
    requires length < 0x1_0000 && e.Includes(k) && length + e.FrameLength() > 0x1_0006
    ensures var b := DummyAt(length, k, length - 7); Scan(b, k, e, length, length - 7, Ok).index >= 0x1_0000
  {
    hide DummyAt, IsDummy, IsEmptyMark;
    var b := DummyAt(length, k, length - 7);
    ScanIndexGrows(b, k, e, length, length - 7 + e.FrameLength(), Dummy);
  }

  /** Within that length, from a start that fits, a call ends and returns at most what was asked for. */
  lemma ShortCall(b: Buffer, k: Sensor, e: Enabled, wanted: uint16, i: nat, turns: nat)
    requires b.Valid() && e.Includes(k) && i < 0x1_0000 && b.length < 0x1_0000 && b.length <= turns
    requires b.length + e.FrameLength() <= 0x1_0006
    ensures var r := ReadLength(e, wanted, b.length);
            var t := Turns(b, k, e, r, i, Ok, turns);
            Over(r, t) && |t.taken| <= wanted && t == Scan(b, k, e, r, i, Ok)
  {
    hide Turns, Scan, ReadLength;
    var r := ReadLength(e, wanted, b.length);
    ShortIndex(b, k, e, r, i, Ok, 0xFFFF);
    TurnsAreScan(b, k, e, r, i, Ok, turns);
    AtMostWanted(b, k, e, wanted, i, Ok);
  }

  /** Wherever the cut is harmless the loop takes at most what was asked for; its samples never overlap, lie
      below the read length and do not reach past the length; and with S4S off each stands a whole number of
      frame lengths after the start. */
  lemma LoopIsSound(b: Buffer, k: Sensor, e: Enabled, wanted: uint16, i: nat, turns: nat)
    requires b.Valid() && e.Includes(k) && b.length <= turns
    requires Scan(b, k, e, ReadLength(e, wanted, b.length), i, Ok).index < 0x1_0000
    ensures var r := ReadLength(e, wanted, b.length);
            var t := Turns(b, k, e, r, i, Ok, turns);
            && Over(r, t) && |t.taken| <= wanted && Sound(b, e, t.taken, i, r)
            && (!b.s4s ==> forall p :: p in t.taken ==> OnGrid(i, e.FrameLength(), p))
  {
    hide Turns, Scan, ReadLength, Sound;
    var r := ReadLength(e, wanted, b.length);
    TurnsAreScan(b, k, e, r, i, Ok, turns);
    AtMostWanted(b, k, e, wanted, i, Ok);
    ScanIsSound(b, k, e, r, i, Ok);
    if !b.s4s {
      assert i == i + 0 * e.FrameLength();
      ScanOnGrid(b, k, e, r, i, i, Ok);
    }
  }

  /** A call on a FIFO that has been read to its end takes nothing, but moves the saved index on by the
      sensor's offset; once that passes sixteen bits the next call starts over near the beginning. */
  lemma ExhaustedCall(b: Buffer, k: Sensor, e: Enabled, wanted: uint16, from: uint16, turns: nat)
    requires b.Valid() && e.Includes(k) && b.length <= from
    ensures var start := Cut16(from + e.Offset(k));
            if from + e.Offset(k) < 0x1_0000 then
              Turns(b, k, e, ReadLength(e, wanted, b.length), start, Ok, turns) == Positions([], from + e.Offset(k), Ok)
            else start < e.Offset(k)
  {
  }

  // ---------- when one does ----------

  /** A stretch of `m` frames that are not dummies, each returned. */
  lemma {:induction false} CleanStretch(b: Buffer, k: Sensor, e: Enabled, readLength: nat, i: nat, status: Status,
      m: nat, turns: nat)
    requires b.Valid() && readLength <= b.length && e.Includes(k) && status != Empty
    requires forall j: nat :: j < m ==>
               var p := GridPoint(i, Step(e, b.s4s), j);
               Returned(b, e, readLength, p) && !IsDummy(b, k, p) && !IsEmptyMark(b, p + Step(e, b.s4s))
    ensures var end := GridPoint(i, Step(e, b.s4s), m);
            var status' := if m == 0 then status else if end + 6 < b.length then Partial else Ok;
            var rest := Turns(b, k, e, readLength, end, status', turns);
            var t := Turns(b, k, e, readLength, i, status, m + turns);
            |t.taken| == m + |rest.taken| && t.index == rest.index && t.status == rest.status
    decreases m
  {
    hide IsDummy, IsEmptyMark, GridPoint;
    var step := Step(e, b.s4s);
    GridShift(i, step, 0);
    if m > 0 {
      assert Returned(b, e, readLength, GridPoint(i, step, 0));
      var (next, status', hit) := ScanStep(b, k, e, i);
      forall j: nat | j < m - 1
        ensures var p := GridPoint(next, step, j);
                Returned(b, e, readLength, p) && !IsDummy(b, k, p) && !IsEmptyMark(b, p + step)
      {
        GridShift(i, step, j);
      }
      GridShift(i, step, m - 1);
      CleanStretch(b, k, e, readLength, next, status', m - 1, turns);
    } else {
      var t := Turns(b, k, e, readLength, i, status, turns);
      assert |t.taken| == 0 + |t.taken|;
    }
  }

  /** Accelerometer and gyroscope, no S4S, 65534 bytes, a dummy frame at 65526, a first call for 5461 samples:
      the index goes from 65526 to 2 and the loop runs over the whole buffer again, at other places, and
      leaves 10921 samples. */
  lemma CutOverruns()
    ensures var b, e := DummyAt(65534, Acc, 65526), Enabled(true, true, false);
            var t := Turns(b, Acc, e, ReadLength(e, 5461, b.length), Cut16(0 + e.Offset(Acc)), Ok, 10922);
            Over(ReadLength(e, 5461, b.length), t) && |t.taken| == 10921
  {
    hide DummyAt, IsDummy, IsEmptyMark, Turns;
    var b, e := DummyAt(65534, Acc, 65526), Enabled(true, true, false);
    assert ReadLength(e, 5461, b.length) == 65532 && Step(e, b.s4s) == 12 && Cut16(6) == 6;
    assert GridPoint(6, 12, 5460) == 65526 && GridPoint(2, 12, 5461) == 65534;
    CleanStretch(b, Acc, e, 65532, 6, Ok, 5460, 1 + 5461);
    OverrunTail(b, e);
  }

  lemma OverrunTail(b: Buffer, e: Enabled)
    requires b == DummyAt(65534, Acc, 65526) && e == Enabled(true, true, false)
    ensures var t := Turns(b, Acc, e, 65532, 65526, Partial, 1 + 5461); |t.taken| == 5461 && t.index == 65534
  {
    hide DummyAt, IsDummy, IsEmptyMark, Turns;
    TurnsNext(b, Acc, e, 65532, 65526, Partial, 1 + 5461, []);
    assert Step(e, b.s4s) == 12;
    CleanStretch(b, Acc, e, 65532, 2, Dummy, 5461, 0);
    TurnsOver(b, Acc, e, 65532, 65534, Ok, 0);
  }

  /** Ten frames, then dummy frames of the auxiliary sensor every fourteen bytes. */
  function DummiesByte(i: nat): byte {
    if i < 170 || (i - 170) % 14 > 3 then 0x55
    else if (i - 170) % 14 == 0 then DummyMark(Aux)
    else if (i - 170) % 14 == 1 then 0x7F
    else if (i - 170) % 14 == 2 then 0x00
    else 0x80
  }

  function ManyDummies(): (b: Buffer)
    ensures b.Valid() && b.length == 65534 && b.s4s
    ensures forall i: nat :: i < 65535 ==> b.data[i] == DummiesByte(i)
  {
    Buffer(seq(65535, i requires 0 <= i => DummiesByte(i)), 65534, true)
  }

  predicate InCycle(i: nat) {
    (i < 170 && i % 17 == 0) || (170 <= i <= 65522 && (i - 170) % 14 == 0)
  }

  lemma FrameBytes(i: nat)
    requires InCycle(i) && i < 170
    ensures DummiesByte(i) == 0x55 && DummiesByte(i + 17) != 0x00
  {
  }

  lemma DummyBytes(i: nat)
    requires InCycle(i) && i >= 170
    ensures i < 65523 && DummiesByte(i) == DummyMark(Aux)
    ensures DummiesByte(i + 1) == 0x7F && DummiesByte(i + 2) == 0x00 && DummiesByte(i + 3) == 0x80
  {
    assert (i + 1 - 170) % 14 == 1 && (i + 2 - 170) % 14 == 2 && (i + 3 - 170) % 14 == 3;
  }

  lemma Fourteens(n: nat)
    ensures 14 * n % 14 == 0
  {
  }

  lemma CycleNext(i: nat)
    requires InCycle(i)
    ensures InCycle(if i < 170 then i + 17 else Cut16(i + 14))
  {
    if i < 170 {
      assert i == 17 * (i / 17);
    } else {
      var n := (i - 170) / 14;
      assert i == 170 + 14 * n && n <= 4668;
      if n < 4668 {
        CutShort(i + 14);
        hide Cut16;
        Fourteens(n + 1);
      }
    }
  }

  lemma CycleTurn(i: nat)
    requires InCycle(i)
    ensures var (next, status, _) := ScanStep(ManyDummies(), Aux, Enabled(true, false, true), i);
            InCycle(next) && status != Empty
  {
    hide InCycle, DummiesByte, ManyDummies, Cut16;
    CycleNext(i);
    if i < 170 {
      FrameBytes(i);
    } else {
      DummyBytes(i);
    }
  }

  /** With S4S on the loop need not end at all: from the last dummy frame of this buffer the index returns
      to 0, where it began. */
  lemma {:induction false} LoopNeverEnds(i: nat, status: Status, turns: nat)
    requires InCycle(i) && status != Empty
    ensures var b, e := ManyDummies(), Enabled(true, false, true);
            var r := ReadLength(e, 4681, b.length);
            !Over(r, Turns(b, Aux, e, r, i, status, turns))
    decreases turns
  {
    hide ManyDummies, ScanStep, InCycle;
    var b, e := ManyDummies(), Enabled(true, false, true);
    assert ReadLength(e, 4681, b.length) == 65534;
    if i >= 170 {
      DummyBytes(i);
    }
    if turns > 0 {
      var (next, status', hit) := ScanStep(b, Aux, e, i);
      CycleTurn(i);
      LoopNeverEnds(next, status', turns - 1);
    }
  }

  // ---------- a clean buffer of whole frames ----------

  lemma {:induction false} CleanNeverWraps(b: Buffer, k: Sensor, e: Enabled, readLength: nat, i: nat, status: Status)
    requires b.Valid() && readLength <= b.length && e.Includes(k) && Clean(b, k, e, i)
    ensures var t := Scan(b, k, e, readLength, i, status); t.index <= b.length || t.index == i
    decreases b.length - i
  {
    hide IsDummy, IsEmptyMark, Clean;
    CleanOnward(b, k, e, i);
    if i < readLength && status != Empty && i + 6 < b.length && i + Step(e, b.s4s) <= b.length {
      var next := i + Step(e, b.s4s);
      CleanNeverWraps(b, k, e, readLength, next, if next + 6 < b.length then Partial else Ok);
    }
  }

  /** Without dummy frames the loop ends and takes what the scan takes, whatever the length. */
  lemma CleanCall(b: Buffer, k: Sensor, e: Enabled, readLength: nat, i: nat, turns: nat)
    requires b.Valid() && readLength <= b.length < 0x1_0000 && e.Includes(k) && Clean(b, k, e, i)
    requires i < 0x1_0000 && b.length <= turns
    ensures var t := Turns(b, k, e, readLength, i, Ok, turns);
            Over(readLength, t) && t == Scan(b, k, e, readLength, i, Ok)
  {
    hide Turns, Scan, Clean;
    CleanNeverWraps(b, k, e, readLength, i, Ok);
    TurnsAreScan(b, k, e, readLength, i, Ok, turns);
  }

  /** How many of `n` whole frames meet the strict length tests: all for a sensor stored first in frames of
      more than six bytes, all but the last otherwise. */
  function Readable(k: Sensor, e: Enabled, s4s: bool, n: nat): int {
    if e.Offset(k) == 0 && Step(e, s4s) > 6 then n else n - 1
  }

  lemma FrameReadable(k: Sensor, e: Enabled, s4s: bool, n: nat, m: nat)
    requires e.Includes(k)
    ensures var p, step := GridPoint(e.Offset(k), Step(e, s4s), m), Step(e, s4s);
            p + 6 < n * step && p + step <= n * step <==> m < Readable(k, e, s4s, n)
  {
    var step := Step(e, s4s);
    OffsetInFrame(k, e, s4s);
    hide Step;
    assert GridPoint(e.Offset(k), step, m) + step == e.Offset(k) + (m + 1) * step;
    if m + 1 < n {
      assert (n - 1 - (m + 1)) * step >= 0;
      assert n * step == (n - 1 - (m + 1)) * step + (m + 1) * step + step;
    } else if m + 1 > n {
      assert (m - n) * step >= 0;
      assert (m + 1) * step == (m - n) * step + n * step + step;
    }
  }

  lemma OffsetInFrame(k: Sensor, e: Enabled, s4s: bool)
    requires e.Includes(k)
    ensures e.Offset(k) + 6 <= e.FrameLength() <= Step(e, s4s)
    ensures Step(e, s4s) == e.FrameLength() + if s4s then 3 else 0
  {
  }

  /** How many of the positions o, o + step, o + 2·step, ... lie below `r`. */
  function Below(r: nat, o: nat, step: nat): nat
    requires step > 0
  {
    if r <= o then 0 else (r - o - 1) / step + 1
  }

  lemma BelowIs(r: nat, o: nat, step: nat, m: nat)
    requires step > 0
    ensures m < Below(r, o, step) <==> GridPoint(o, step, m) < r
  {
    if r > o {
      var n := r - o - 1;
      QuotientBounds(n, step);
      var q := n / step;
      if m <= q {
        Multiples(m, q, step);
      } else {
        Multiples(q + 1, m, step);
      }
    }
  }

  lemma QuotientBounds(n: nat, d: nat)
    requires d > 0
    ensures (n / d) * d <= n < (n / d + 1) * d
  {
  }

  lemma Multiples(m: nat, n: nat, step: nat)
    requires m <= n
    ensures m * step <= n * step
  {
    assert n * step == m * step + (n - m) * step;
  }

  /** A clean buffer of `n` whole frames, read from its start. */
  ghost predicate Whole(b: Buffer, k: Sensor, e: Enabled, n: nat) {
    && b.Valid() && e.Includes(k) && Clean(b, k, e, e.Offset(k))
    && b.length == n * Step(e, b.s4s) < 0x1_0000
  }

  /** What a request takes from it. */
  ghost function TakenOf(b: Buffer, k: Sensor, e: Enabled, wanted: uint16): seq<nat>
    requires b.Valid()
  {
    Turns(b, k, e, ReadLength(e, wanted, b.length), e.Offset(k), Ok, b.length).taken
  }

  /** The m-th sample comes back exactly if its frame is readable and starts, sensor's offset included, below
      the read length. */
  lemma WholeTaken(b: Buffer, k: Sensor, e: Enabled, n: nat, wanted: uint16, m: nat)
    requires Whole(b, k, e, n)
    ensures m < |TakenOf(b, k, e, wanted)| <==>
              && m < Readable(k, e, b.s4s, n)
              && GridPoint(e.Offset(k), Step(e, b.s4s), m) < ReadLength(e, wanted, b.length)
  {
    hide Turns, Scan, Clean, ReadLength, GridPoint, Readable;
    var r := ReadLength(e, wanted, b.length);
    CleanCall(b, k, e, r, e.Offset(k), b.length);
    CleanScan(b, k, e, r, e.Offset(k), Ok, m);
    FrameReadable(k, e, b.s4s, n, m);
  }

  /** So this many come back. */
  lemma WholeCount(b: Buffer, k: Sensor, e: Enabled, n: nat, wanted: uint16)
    requires Whole(b, k, e, n)
    ensures var below := Below(ReadLength(e, wanted, b.length), e.Offset(k), Step(e, b.s4s));
            |TakenOf(b, k, e, wanted)| ==
              if below <= Readable(k, e, b.s4s, n) then below
              else if Readable(k, e, b.s4s, n) >= 0 then Readable(k, e, b.s4s, n) else 0
  {
    hide Clean, ReadLength, GridPoint, Readable, Below, TakenOf;
    var r, step := ReadLength(e, wanted, b.length), Step(e, b.s4s);
    var below, readable := Below(r, e.Offset(k), step), Readable(k, e, b.s4s, n);
    var count := |TakenOf(b, k, e, wanted)|;
    var c: nat := if below <= readable then below else if readable >= 0 then readable else 0;
    WholeTaken(b, k, e, n, wanted, count);
    WholeTaken(b, k, e, n, wanted, c);
    BelowIs(r, e.Offset(k), step, count);
    BelowIs(r, e.Offset(k), step, c);
  }

  /** A request is met exactly if there are as many readable frames and, with S4S on, the request is small:
      its product with the frame length, which leaves the time out, must reach the last frame's sensor. */
  lemma RequestMetExactly(b: Buffer, k: Sensor, e: Enabled, n: nat, wanted: uint16)
    requires Whole(b, k, e, n)
    ensures |TakenOf(b, k, e, wanted)| == wanted <==>
              || wanted == 0
              || (wanted <= Readable(k, e, b.s4s, n) && (b.s4s ==> 3 * wanted + e.Offset(k) < Step(e, true)))
  {
    hide Turns, Scan, Clean, ReadLength, GridPoint, Readable;
    var r := ReadLength(e, wanted, b.length);
    CleanCall(b, k, e, r, e.Offset(k), b.length);
    AtMostWanted(b, k, e, wanted, e.Offset(k), Ok);
    if wanted > 0 {
      WholeTaken(b, k, e, n, wanted, wanted - 1);
      if wanted <= Readable(k, e, b.s4s, n) {
        LastAsked(k, e, b.s4s, n, wanted);
      }
    }
  }

  lemma ShortProduct(e: Enabled, wanted: uint16, length: nat)
    requires wanted * e.FrameLength() < 0x1_0000
    ensures ReadLength(e, wanted, length) ==
              if wanted * e.FrameLength() > length then length else wanted * e.FrameLength()
  {
  }

  lemma LastAsked(k: Sensor, e: Enabled, s4s: bool, n: nat, wanted: uint16)
    requires e.Includes(k) && 1 <= wanted <= Readable(k, e, s4s, n) && n * Step(e, s4s) < 0x1_0000
    ensures GridPoint(e.Offset(k), Step(e, s4s), wanted - 1) < ReadLength(e, wanted, n * Step(e, s4s))
            <==> (s4s ==> 3 * wanted + e.Offset(k) < Step(e, true))
  {
    var step, l := Step(e, s4s), e.FrameLength();
    OffsetInFrame(k, e, s4s);
    hide Step, Enabled.FrameLength, Enabled.Offset, ReadLength;
    Multiples(wanted, n, step);
    Products(wanted, l, step, s4s);
    ShortProduct(e, wanted, n * step);
  }

  lemma Products(wanted: nat, l: nat, step: nat, s4s: bool)
    requires wanted >= 1 && step == l + if s4s then 3 else 0
    ensures wanted * step == (wanted - 1) * step + step && wanted * step == wanted * l + if s4s then 3 * wanted else 0
  {
  }

  /** Asked for all of them, the last frame comes back exactly for the sensor stored first in frames longer
      than six bytes, and with S4S on only from a buffer of a few frames. */
  lemma LastFrameExactly(b: Buffer, k: Sensor, e: Enabled, n: uint16)
    requires Whole(b, k, e, n) && n >= 1
    ensures var count := |TakenOf(b, k, e, n)|;
            && (count == n <==> e.Offset(k) == 0 && Step(e, b.s4s) > 6 && (b.s4s ==> 3 * n < Step(e, true)))
            && (!b.s4s ==> count == if e.Offset(k) == 0 && e.FrameLength() > 6 then n else n - 1)
  {
    hide Clean, GridPoint, TakenOf;
    RequestMetExactly(b, k, e, n, n);
    WholeTaken(b, k, e, n, n, n - 1);
    if !b.s4s && n >= 2 {
      WholeTaken(b, k, e, n, n, n - 2);
      NextToLast(k, e, n);
    }
  }

  lemma NextToLast(k: Sensor, e: Enabled, n: uint16)
    requires e.Includes(k) && n >= 2 && n * Step(e, false) < 0x1_0000
    ensures GridPoint(e.Offset(k), Step(e, false), n - 2) < ReadLength(e, n, n * Step(e, false))
  {
    var step := Step(e, false);
    OffsetInFrame(k, e, false);
    hide Step, Enabled.FrameLength, Enabled.Offset;
    assert n * step == (n - 2) * step + 2 * step;
  }

  /** For instance, of one frame with gyroscope and accelerometer data only the gyroscope's comes back. */
  lemma LastFrameIsLost()
    ensures var b, e := Buffer(seq(13, _ => 0x55), 12, false), Enabled(true, true, false);
            && b.Valid()
            && Scan(b, Gyr, e, ReadLength(e, 1, 12), e.Offset(Gyr), Ok).taken == [0]
            && Scan(b, Acc, e, ReadLength(e, 1, 12), e.Offset(Acc), Ok).taken == []
  {
  }

  /** And with S4S on, 90 frames of an accelerometer alone, all asked for, yield sixty samples. */
  lemma ThirdIsLost()
    ensures var b, e := Buffer(seq(811, _ => 0x55), 810, true), Enabled(true, false, false);
            Whole(b, Acc, e, 90) && |TakenOf(b, Acc, e, 90)| == 60
  {
    hide TakenOf;
    WholeCount(Buffer(seq(811, _ => 0x55), 810, true), Acc, Enabled(true, false, false), 90, 90);
  }
}
