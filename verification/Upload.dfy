/** Loading the configuration file into the sensor. */
module Upload {
  import opened Bits
  import opened Device
  import opened Driver

  // ---------- what an upload must amount to ----------

  /** The bursts are pieces of the file, laid end to end from 0 to `n`, and none was written while the
      load bit was set. */
  ghost predicate Tiles(bs: seq<Burst>, file: seq<bv8>, n: nat) {
    if bs == [] then n == 0
    else
      var b := bs[|bs| - 1];
      && !b.loading && |b.data| > 0
      && b.at + |b.data| == n <= |file|
      && b.data == file[b.at..n]
      && Tiles(bs[..|bs| - 1], file, b.at)
  }

  predicate Covers(b: Burst, i: nat) {
    b.at <= i < b.at + |b.data|
  }

  /** How often byte `i` was written. */
  function TimesWritten(bs: seq<Burst>, i: nat): nat {
    if bs == [] then 0
    else TimesWritten(bs[..|bs| - 1], i) + if Covers(bs[|bs| - 1], i) then 1 else 0
  }

  /** Every byte below `n` was written exactly once, no other byte at all. */
  lemma {:induction false} TilesWriteOnce(bs: seq<Burst>, file: seq<bv8>, n: nat, i: nat)
    requires Tiles(bs, file, n)
    ensures TimesWritten(bs, i) == if i < n then 1 else 0
  {
    if bs != [] {
      TilesWriteOnce(bs[..|bs| - 1], file, bs[|bs| - 1].at, i);
    }
  }

  lemma TilesSnoc(bs: seq<Burst>, file: seq<bv8>, at: nat, n: nat)
    requires Tiles(bs, file, at) && at < n <= |file|
    ensures Tiles(bs + [Burst(at, file[at..n], false)], file, n)
  {
  }

  // ---------- the address pair ----------

  function AddrLow(index: nat): bv8 {
    (index / 2 % 16) as bv8
  }

  function AddrHigh(index: nat): bv8
    requires index < INIT_SIZE
  {
    (index / 2 / 16) as bv8
  }

  /** Splitting the word index over the two registers loses nothing: the device rebuilds the even index. */
  lemma AddressRebuilt(index: nat)
    requires index < INIT_SIZE && index % 2 == 0
    ensures 2 * ((AddrLow(index) & 0x0F) as nat + 16 * AddrHigh(index) as nat) == index
  {
    var w := index / 2;
    NibbleKept(w % 16);
    ByteKept(w / 16);
  }

  lemma NibbleKept(x: nat)
    requires x < 16
    ensures ((x as bv8) & 0x0F) as nat == x
  {
  }

  // ---------- the progress of an upload ----------

  /** The file's first `n` bytes are in place, written once, with power save and loading off; pages and
      the rest of the memory are as they were in `s`. */
  ghost predicate Progress(s: State, now: State, file: seq<bv8>, n: nat, written: seq<Burst>) {
    && s.Valid() && now.Valid() && |file| <= INIT_SIZE && n <= |file|
    && !now.Asleep() && !now.Loading()
    && now.pages == s.pages
    && now.bursts == s.bursts + written && Tiles(written, file, n)
    && now.init[..n] == file[..n] && now.init[n..] == s.init[n..]
  }

  function Addressed(s: State, index: nat): (r: State)
    requires s.Valid() && index < INIT_SIZE
    ensures r.Valid() && r == Write(s, INIT_ADDR_0, [AddrLow(index), AddrHigh(index)])
  {
    Write(s, INIT_ADDR_0, [AddrLow(index), AddrHigh(index)])
  }

  lemma AddressedPointsTo(s: State, index: nat)
    requires s.Valid() && index < INIT_SIZE && index % 2 == 0
    ensures var r := Addressed(s, index);
            && r.InitAddress() == index
            && r.pages == s.pages && r.init == s.init && r.bursts == s.bursts
            && r.Asleep() == s.Asleep() && r.Loading() == s.Loading()
  {
    AddressRebuilt(index);
    var r := Addressed(s, index);
    assert r.regs[INIT_ADDR_0] == AddrLow(index) && r.regs[INIT_ADDR_1] == AddrHigh(index);
    assert r.regs[PWR_CONF] == s.regs[PWR_CONF] && r.regs[INIT_CTRL] == s.regs[INIT_CTRL];
  }

  lemma ProgressTurn(s: State, now: State, file: seq<bv8>, n: nat, m: nat, written: seq<Burst>)
    requires Progress(s, now, file, n, written) && n % 2 == 0 && n < m <= |file|
    ensures var next := Write(Addressed(now, n), INIT_DATA, file[n..m]);
            Progress(s, next, file, m, written + [Burst(n, file[n..m], false)])
  {
    AddressedPointsTo(now, n);
    TilesSnoc(written, file, n, m);
    var a := Addressed(now, n);
    var next := Write(a, INIT_DATA, file[n..m]);
    var b := Burst(n, file[n..m], false);
    assert next.bursts == s.bursts + (written + [b]);
    hide Tiles, Addressed, Write;
    assert next.init == a.init[..n] + file[n..m] + a.init[m..] by {
      assert n + |file[n..m]| == m;
    }
  }

  /** The state with the load bit of INIT_CTRL set to `enable`. */
  function WithLoading(s: State, enable: bool): (r: State)
    requires s.Valid()
    ensures r.Valid() && r.Loading() == enable && r.Asleep() == s.Asleep()
  {
    s.(regs := s.regs[INIT_CTRL := (s.regs[INIT_CTRL] & 0xFE) | (if enable then 1 else 0)])
  }

  // ---------- the C functions ----------

  /** `set_config_load`. */
  method SetConfigLoad(d: Dev, enable: bool) returns (rslt: Rslt)
    requires d.dev.Valid()
    modifies d`dev, d`faults, d`apsStatus
    ensures d.apsStatus == old(d.apsStatus)
    ensures d.dev == if rslt == OK then WithLoading(old(d.dev), enable) else old(d.dev)
    ensures old(d.faults) == [] ==> d.faults == [] && rslt == OK
  {
    var data;
    rslt, data := d.GetRegs(INIT_CTRL, 1);
    if rslt == OK {
      var regData := (data[0] & 0xFE) | (if enable then 1 else 0);
      OverlayOne(d.dev.regs, INIT_CTRL, regData);
      rslt := d.SetRegs(INIT_CTRL, [regData]);
    }
  }

  /** `upload_file`: one piece of the file. */
  method UploadFile(d: Dev, configData: seq<bv8>, index: nat) returns (rslt: Rslt)
    requires d.dev.Valid() && index < INIT_SIZE && |configData| >= 1
    modifies d`dev, d`faults, d`apsStatus
    ensures d.dev.Valid() && d.apsStatus == old(d.apsStatus)
    ensures rslt == OK ==> d.dev == Write(Addressed(old(d.dev), index), INIT_DATA, configData)
    ensures old(d.faults) == [] ==> d.faults == [] && rslt == OK
  {
    var addrArray := [AddrLow(index), AddrHigh(index)];
    rslt := d.SetRegs(INIT_ADDR_0, addrArray);
    if rslt == OK {
      rslt := d.SetRegs(INIT_DATA, configData);
    }
  }

  /** Where the loop `for (; index < to; index += step)` ends, and so where its last burst ends. */
  function LoopEnd(index: nat, to: nat, step: nat): (r: nat)
    requires step > 0
    ensures r >= index
    decreases (to as int) - index
  {
    if index >= to then index else LoopEnd(index + step, to, step)
  }

  /** Between two turns of the loop: `index` is even, and no turn to come reads past the file. */
  ghost predicate Midway(s: State, now: State, file: seq<bv8>, index: nat, to: nat, step: nat, written: seq<Burst>) {
    && Progress(s, now, file, index, written)
    && step >= 2 && step % 2 == 0 && index % 2 == 0 && LoopEnd(index, to, step) <= |file|
  }

  lemma ProgressInFile(s: State, now: State, file: seq<bv8>, n: nat, written: seq<Burst>)
    requires Progress(s, now, file, n, written)
    ensures now.Valid() && n <= |file| <= INIT_SIZE
  {
  }

  lemma NextTurn(s: State, now: State, file: seq<bv8>, index: nat, to: nat, step: nat, written: seq<Burst>)
    requires Midway(s, now, file, index, to, step, written) && index < to
    ensures now.Valid() && index < INIT_SIZE && step >= 2 && index + step <= |file|
    ensures Midway(s, Write(Addressed(now, index), INIT_DATA, file[index..index + step]), file, index + step, to, step,
                   written + [Burst(index, file[index..index + step], false)])
  {
    hide Progress, Write, Addressed;
    ProgressTurn(s, now, file, index, index + step, written);
    ProgressInFile(s, now, file, index, written);
  }

  lemma LoopOver(s: State, now: State, file: seq<bv8>, index: nat, to: nat, step: nat, written: seq<Burst>)
    requires Midway(s, now, file, index, to, step, written)
    ensures now.Valid() && step > 0
    ensures index >= to ==> index == LoopEnd(index, to, step)
    ensures index < to ==> LoopEnd(index, to, step) == LoopEnd(index + step, to, step)
  {
  }

  /** One turn of it. */
  method UploadTurn(d: Dev, file: seq<bv8>, index: nat, ghost to: nat, ghost s: State, ghost before: seq<Burst>)
    returns (rslt: Rslt, ghost written: seq<Burst>)
    requires Midway(s, d.dev, file, index, to, d.readWriteLen, before) && index < to
    modifies d`dev, d`faults, d`apsStatus
    ensures d.dev.Valid() && d.apsStatus == old(d.apsStatus) && d.readWriteLen >= 2
    ensures rslt == OK ==> Midway(s, d.dev, file, index + d.readWriteLen, to, d.readWriteLen, written)
    ensures old(d.faults) == [] ==> d.faults == [] && rslt == OK
  {
    NextTurn(s, d.dev, file, index, to, d.readWriteLen, before);
    hide *;
    var next := index + d.readWriteLen;
    rslt := UploadFile(d, file[index..next], index);
    written := before + [Burst(index, file[index..next], false)];
  }

  /** The loop that `write_config_file` writes out three times: from `from` to `to`, in steps of the
      device's read/write length.  It uploads the file up to where it ends. */
  method UploadRange(d: Dev, file: seq<bv8>, from: nat, to: nat, ghost s: State, ghost before: seq<Burst>)
    returns (rslt: Rslt, ghost written: seq<Burst>)
    requires Midway(s, d.dev, file, from, to, d.readWriteLen, before)
    modifies d`dev, d`faults, d`apsStatus
    ensures d.dev.Valid() && d.apsStatus == old(d.apsStatus) && d.readWriteLen > 0
    ensures rslt == OK ==> Progress(s, d.dev, file, LoopEnd(from, to, d.readWriteLen), written)
    ensures old(d.faults) == [] ==> d.faults == [] && rslt == OK
  {
    LoopOver(s, d.dev, file, from, to, d.readWriteLen, before);
    rslt, written := OK, before;
    var index := from;
    ghost var end := LoopEnd(from, to, d.readWriteLen);
    hide Progress, State.Valid, LoopEnd;
    while index < to && rslt == OK
      invariant d.dev.Valid() && d.apsStatus == old(d.apsStatus)
      invariant rslt == OK ==> Midway(s, d.dev, file, index, to, d.readWriteLen, written)
      invariant rslt == OK ==> LoopEnd(index, to, d.readWriteLen) == end
      invariant old(d.faults) == [] ==> d.faults == [] && rslt == OK
      decreases (to as int) - index
    {
      LoopOver(s, d.dev, file, index, to, d.readWriteLen, written);
      rslt, written := UploadTurn(d, file, index, to, s, written);
      index := index + d.readWriteLen;
    }
    if rslt == OK {
      LoopOver(s, d.dev, file, index, to, d.readWriteLen, written);
    }
  }

  /** What a successful upload leaves behind: the file and nothing else in its range of the memory, every
      byte written once and while loading was off, and both switches on. */
  ghost predicate Loaded(before: State, now: State, file: seq<bv8>, written: seq<Burst>) {
    && before.Valid() && now.Valid() && |file| <= INIT_SIZE
    && now.init == file + before.init[|file|..]
    && now.pages == before.pages
    && now.bursts == before.bursts + written && Tiles(written, file, |file|)
    && now.Loading() && now.Asleep()
  }

  /** `remain`, kept in a `uint8_t`. */
  function Remainder(size: nat, len: nat): nat
    requires len > 0
  {
    size % len % 0x100
  }

  /** Neither loop of `write_config_file` reads past the file. */
  predicate StaysInFile(size: nat, len: nat)
    requires len > 0
  {
    var remain := Remainder(size, len);
    if remain == 0 then LoopEnd(0, size, len) <= size
    else
      remain <= size && LoopEnd(0, size - remain, len) <= size && LoopEnd(size - remain, size, 2) <= size
  }

  /** `n` rounded up to whole steps. */
  function RoundUp(n: nat, step: nat): nat
    requires step > 0
  {
    if n % step == 0 then n else n - n % step + step
  }

  lemma Divided(n: nat, len: nat)
    requires len > 0
    ensures len * (n / len) + n % len == n && n % len < len
  {
  }

  lemma ModOfSum(q: nat, len: nat, r: nat)
    requires r < len
    ensures (len * q + r) % len == r
  {
    var n := len * q + r;
    Divided(n, len);
    var p := n / len;
    if p < q {
      Monotone(len, p + 1, q);
    } else if q < p {
      Monotone(len, q + 1, p);
    }
  }

  lemma Monotone(len: nat, a: nat, b: nat)
    requires a <= b
    ensures len * a <= len * b && len * a == if a == 0 then 0 else len * (a - 1) + len
  {
  }

  lemma StepLess(n: nat, step: nat)
    requires 0 < step <= n
    ensures (n - step) % step == n % step
  {
    Divided(n, step);
    var q, r := n / step, n % step;
    Monotone(step, q, q);
    ModOfSum(q - 1, step, r);
  }

  lemma BelowStep(n: nat, step: nat)
    requires n < step
    ensures n % step == n
  {
  }

  /** The loop ends a whole number of steps after its start, at or next after its bound. */
  lemma {:induction false} LoopEndIs(index: nat, to: nat, step: nat)
    requires step > 0 && index <= to
    ensures LoopEnd(index, to, step) == index + RoundUp(to - index, step)
    decreases (to as int) - index
  {
    if index + step <= to {
      LoopEndIs(index + step, to, step);
      StepLess(to - index, step);
    } else if index < to {
      BelowStep(to - index, step);
    }
  }

  lemma EvenProduct(q: nat, len: nat)
    requires len % 2 == 0
    ensures (len * q) % 2 == 0
  {
    var h := len / 2;
    assert len * q == 2 * (h * q) by {
      assert len == 2 * h;
    }
  }

  /** The loop of whole steps stays in the file exactly if the remainder fits in eight bits. */
  lemma FirstLoopExactly(size: nat, len: nat)
    requires len > 0
    ensures var bound := size - Remainder(size, len);
            && bound >= 0
            && (LoopEnd(0, bound, len) <= size <==> size % len < 0x100)
            && (size % len < 0x100 ==> LoopEnd(0, bound, len) == bound)
  {
    hide LoopEnd;
    var q, r := size / len, size % len;
    Divided(size, len);
    LoopEndIs(0, size - r % 0x100, len);
    ModOfSum(q, len, r - r % 0x100);
  }

  lemma SecondLoopExactly(size: nat, remain: nat)
    requires remain <= size
    ensures LoopEnd(size - remain, size, 2) == if remain % 2 == 0 then size else size + 1
  {
    hide LoopEnd;
    LoopEndIs(size - remain, size, 2);
  }

  lemma SameParity(size: nat, len: nat)
    requires len >= 2 && len % 2 == 0
    ensures Remainder(size, len) % 2 == size % 2 && Remainder(size, len) <= size
    ensures (size - Remainder(size, len)) % 2 == 0
  {
    hide Remainder;
    var p, r := EvenPart(size, len);
    Parity(p, r);
  }

  /** The file as an even number of bytes and a remainder. */
  lemma EvenPart(size: nat, len: nat) returns (p: nat, r: nat)
    requires len >= 2 && len % 2 == 0
    ensures size == p + r && p % 2 == 0 && Remainder(size, len) == r % 0x100
  {
    hide Remainder;
    var q;
    q, r := Split(size, len);
    EvenProduct(q, len);
    p := len * q;
  }

  lemma Split(size: nat, len: nat) returns (q: nat, r: nat)
    requires len > 0
    ensures size == len * q + r && Remainder(size, len) == r % 0x100
  {
    Divided(size, len);
    q, r := size / len, size % len;
  }

  lemma Parity(p: nat, r: nat)
    requires p % 2 == 0
    ensures r % 0x100 % 2 == (p + r) % 2 && (p + r - r % 0x100) % 2 == 0
  {
  }

  /** Keeping the remainder in eight bits is harmless, and the file is read to its end and no further, exactly
      if its size is even and the remainder fits. */
  lemma StaysInFileExactly(size: nat, len: nat)
    requires len >= 2 && len % 2 == 0
    ensures StaysInFile(size, len) <==> size % 2 == 0 && size % len < 0x100
  {
    hide LoopEnd, Remainder;
    FirstLoopExactly(size, len);
    SameParity(size, len);
    SecondLoopExactly(size, Remainder(size, len));
    RemainderZero(size, len);
  }

  lemma RemainderZero(size: nat, len: nat)
    requires len > 0
    ensures size % len < 0x100 ==> Remainder(size, len) == size % len
  {
  }

  /** For instance, 8192 bytes in steps of 5000 leave 3192, kept as 120: the loop of whole steps is to stop at
      8072 but ends at 10000. */
  lemma RemainderIsCut()
    ensures Remainder(8192, 5000) == 120 && LoopEnd(0, 8192 - 120, 5000) == 10000 && !StaysInFile(8192, 5000)
  {
    StaysInFileExactly(8192, 5000);
    LoopEndIs(0, 8192 - 120, 5000);
  }

  /** Then the first loop ends where the second one starts, and that one at the end of the file. */
  lemma LoopsMeet(size: nat, len: nat)
    requires len >= 2 && len % 2 == 0 && StaysInFile(size, len)
    ensures var r := Remainder(size, len);
            && r <= size && (size - r) % 2 == 0
            && LoopEnd(0, size - r, len) == size - r && LoopEnd(size - r, size, 2) == size
  {
    hide LoopEnd, Remainder;
    StaysInFileExactly(size, len);
    FirstLoopExactly(size, len);
    SameParity(size, len);
    SecondLoopExactly(size, Remainder(size, len));
  }

  lemma Starting(before: State, s: State, file: seq<bv8>)
    requires before.Valid() && |file| <= INIT_SIZE && s == WithLoading(WithAps(before, false), false)
    ensures Progress(s, s, file, 0, []) && s.init == before.init && s.pages == before.pages && s.bursts == before.bursts
  {
  }

  lemma Finished(before: State, s: State, now: State, file: seq<bv8>, written: seq<Burst>)
    requires before.Valid() && s.init == before.init && s.pages == before.pages && s.bursts == before.bursts
    requires Progress(s, now, file, |file|, written)
    ensures Loaded(before, WithAps(WithLoading(now, true), true), file, written)
  {
  }

  /** The two ways through the middle of `write_config_file`: in one go, or the whole steps first and the
      rest two bytes at a time, with the read/write length put back afterwards. */
  method UploadAll(d: Dev, file: seq<bv8>, remain: nat, ghost s: State) returns (rslt: Rslt, ghost written: seq<Burst>)
    requires Progress(s, d.dev, file, 0, [])
    requires d.readWriteLen >= 2 && d.readWriteLen % 2 == 0 && remain == Remainder(|file|, d.readWriteLen)
    requires StaysInFile(|file|, d.readWriteLen)
    modifies d`dev, d`faults, d`apsStatus, d`readWriteLen
    ensures d.readWriteLen == old(d.readWriteLen) && d.dev.Valid() && d.apsStatus == old(d.apsStatus)
    ensures rslt == OK ==> Progress(s, d.dev, file, |file|, written)
    ensures old(d.faults) == [] ==> d.faults == [] && rslt == OK
  {
    LoopsMeet(|file|, d.readWriteLen);
    hide Progress, LoopEnd, Remainder, State.Valid, StaysInFile;
    if remain == 0 {
      rslt, written := UploadRange(d, file, 0, |file|, s, []);
    } else {
      var balByte := |file| - remain;
      rslt, written := UploadRange(d, file, 0, balByte, s, []);
      if rslt == OK {
        var readWriteLen := d.readWriteLen;
        d.readWriteLen := 2;
        rslt, written := UploadRange(d, file, balByte, |file|, s, written);
        d.readWriteLen := readWriteLen;
      }
    }
  }

  /** `write_config_file`.  Whatever fails, the read/write length is what it was; and if nothing does, the
      file is in the sensor's memory, each byte written once, with loading off until the end. */
  method WriteConfigData(d: Dev, file: seq<bv8>) returns (rslt: Rslt, ghost written: seq<Burst>)
    requires d.dev.Valid() && d.readWriteLen >= 2 && d.readWriteLen % 2 == 0
    requires |file| <= INIT_SIZE && StaysInFile(|file|, d.readWriteLen)
    modifies d`dev, d`faults, d`apsStatus, d`readWriteLen
    ensures d.readWriteLen == old(d.readWriteLen) && d.dev.Valid()
    ensures rslt == OK ==> Loaded(old(d.dev), d.dev, file, written) && d.apsStatus
    ensures old(d.faults) == [] ==> d.faults == [] && rslt == OK
  {
    hide Progress, Loaded, Remainder, StaysInFile, WithAps, WithLoading, State.Valid;
    written := [];
    var remain := Remainder(|file|, d.readWriteLen);
    rslt := d.SetAdvPowerSave(false);
    if rslt == OK {
      rslt := SetConfigLoad(d, false);
      if rslt == OK {
        ghost var s := d.dev;
        Starting(old(d.dev), s, file);
        rslt, written := UploadAll(d, file, remain, s);
        if rslt == OK {
          Finished(old(d.dev), s, d.dev, file, written);
          rslt := SetConfigLoad(d, true);
          if rslt == OK {
            rslt := d.SetAdvPowerSave(true);
          }
        }
      }
    }
  }

  /** The read/write length `bmi2_write_config_file` settles on. */
  function Evened(len: nat): (r: nat)
    ensures r >= 2 && r % 2 == 0 && (r <= len || len < 2)
  {
    if len < 2 then 2 else len - len % 2
  }

  /** `bmi2_write_config_file`.  On a bus that never fails it reports success exactly when there is a file
      and the sensor says that its load succeeded. */
  method WriteConfigFile(d: Dev, file: seq<bv8>) returns (rslt: Rslt, ghost written: seq<Burst>)
    requires d.dev.Valid()
    requires |file| <= INIT_SIZE && StaysInFile(|file|, Evened(d.readWriteLen))
    modifies d`dev, d`faults, d`apsStatus, d`readWriteLen
    ensures d.dev.Valid()
    ensures d.readWriteLen == if file == [] then old(d.readWriteLen) else Evened(old(d.readWriteLen))
    ensures rslt == OK ==> Loaded(old(d.dev), d.dev, file, written) && d.apsStatus && file != []
    ensures rslt == OK ==> d.dev.regs[INTERNAL_STATUS] & 1 == 1
    ensures old(d.faults) == [] ==>
      rslt == if file == [] then NullPtr else if d.dev.regs[INTERNAL_STATUS] & 1 == 1 then OK else ConfigLoad
  {
    hide Loaded, StaysInFile;
    if file == [] {
      return NullPtr, [];
    }
    if d.readWriteLen % 2 != 0 {
      d.readWriteLen := d.readWriteLen - 1;
    }
    if d.readWriteLen < 2 {
      d.readWriteLen := 2;
    }
    rslt, written := WriteConfigData(d, file);
    if rslt == OK {
      var loadStatus;
      rslt, loadStatus := d.GetRegs(INTERNAL_STATUS, 1);
      if rslt == OK && loadStatus[0] & 1 != 1 {
        rslt := ConfigLoad;
      }
    }
  }
}
