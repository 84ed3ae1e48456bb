/** The driver's ground floor: register access over a bus that may fail, advanced power save, and the
    chunked reading of feature pages. */
module Driver {
  import opened Device
  import opened Samples

  datatype Rslt =
    | OK | ComFail | SetApsFail | ConfigLoad | InvalidPage | InvalidSensor | RemapError | NullPtr
    | AccInvalidConfig | GyroInvalidConfig | AccGyroInvalidConfig | AuxBusy | InvalidStatus | InvalidInput

  /** The features with an enable bit in a page, in the order `enable_sensor_features` tries them. */
  datatype Feature =
    | SigMotion | AnyMotion | NoMotion | StepDetector | StepCounter | StepActivity
    | GyroGainUpdate | GyroSelfOff | WristGesture | WristWearWakeUp

  /** Whether the next bus access fails, and the accesses after it. */
  predicate Fails(faults: seq<bool>) {
    faults != [] && faults[0]
  }

  function Later(faults: seq<bool>): seq<bool> {
    if faults == [] then [] else faults[1..]
  }

  /** The state after the power-save bit has been set to `enable`. */
  function WithAps(s: State, enable: bool): (r: State)
    requires s.Valid()
    ensures r.Valid() && r.Asleep() == enable
    ensures r == s.(regs := r.regs) && forall a :: 0 <= a < 128 && a != PWR_CONF ==> r.regs[a] == s.regs[a]
  {
    s.(regs := s.regs[PWR_CONF := (s.regs[PWR_CONF] & 0xFE) | (if enable then 1 else 0)])
  }

  /** An odd PWR_CONF is power save; the other seven bits stay. */
  lemma PowerSaveIsOdd(s: State, enable: bool)
    requires s.Valid()
    ensures s.Asleep() <==> s.regs[PWR_CONF] % 2 == 1
    ensures WithAps(s, enable).regs[PWR_CONF] == (s.regs[PWR_CONF] & 0xFE) + if enable then 1 else 0
  {
  }

  function WithPage(s: State, page: bv8): (r: State)
    requires s.Valid() && page < 8
    ensures r.Valid() && r.pages == s.pages && r.Selected() == page as nat
  {
    Noted(s, FEAT_PAGE, 1).(regs := s.regs[FEAT_PAGE := page])
  }

  lemma OverlayOne<T>(s: seq<T>, at: nat, x: T)
    requires at < |s|
    ensures Overlay(s, at, [x]) == s[at := x]
  {
  }

  /** Reading from the window of a selected page: the bytes of that page, and nothing changes. */
  lemma WindowRead(s: State, page: bv8, at: nat, len: nat)
    requires s.Valid() && page < 8 && at + len <= PAGE_SIZE
    ensures var w := WithPage(s, page);
            && Read(w, FEATURES + at, len) == s.pages[page as nat][at..at + len]
            && (len >= 1 ==> Noted(w, FEATURES + at, len) == w)
  {
  }

  predicate AlikeTo<T(==)>(a: seq<T>, b: seq<T>, n: nat) {
    |a| == |b| && n <= |a| && a[..n] == b[..n]
  }

  lemma ChunkAdded<T>(buffer: seq<T>, target: seq<T>, done: nat, n: nat)
    requires AlikeTo(buffer, target, done) && done + n <= |target|
    ensures AlikeTo(Overlay(buffer, done, target[done..done + n]), target, done + n)
  {
  }

  lemma AlikeThroughout<T>(a: seq<T>, b: seq<T>)
    requires |a| == |b|
    ensures AlikeTo(a, b, 0) && (AlikeTo(a, b, |a|) ==> a == b)
  {
  }

  /** The bytes of a page still to be read after some turns of a loop that reads `len` at a time. */
  function ChunksLeft(left: nat, len: nat, turns: nat): nat {
    if turns == 0 || left == 0 then left else ChunksLeft(if left >= len then left - len else 0, len, turns - 1)
  }

  function MadeEven(n: nat): nat {
    n - n % 2
  }

  /** Such a loop ends exactly if the chunk size, an odd one being made even first, is not zero. */
  lemma ChunksEndExactly(readWriteLen: nat)
    ensures (exists turns :: ChunksLeft(PAGE_SIZE, MadeEven(readWriteLen), turns) == 0) <==> readWriteLen >= 2
  {
    var len := MadeEven(readWriteLen);
    if readWriteLen >= 2 {
      ChunksEnd(PAGE_SIZE, len, PAGE_SIZE);
    } else {
      forall turns ensures ChunksLeft(PAGE_SIZE, 0, turns) == PAGE_SIZE {
        ChunksStay(PAGE_SIZE, turns);
      }
    }
  }

  lemma {:induction false} ChunksEnd(left: nat, len: nat, turns: nat)
    requires len > 0 && left <= turns
    ensures ChunksLeft(left, len, turns) == 0
  {
    if left > 0 {
      ChunksEnd(if left >= len then left - len else 0, len, turns - 1);
    }
  }

  lemma {:induction false} ChunksStay(left: nat, turns: nat)
    ensures ChunksLeft(left, 0, turns) == left
  {
    if turns > 0 {
      ChunksStay(left, turns - 1);
    }
  }

  /** The two bits of `dev->info`: BMI2_I_MIN_VALUE for a value raised to its minimum, BMI2_I_MAX_VALUE for one
      cut to its maximum. */
  datatype Info = Info(raised: bool, cut: bool)

  /** What the driver notes about configurations: `info`, `aux_man_en` and `aux_man_rd_burst_len`. */
  datatype Notes = Notes(info: Info, manual: bool, burst: bv8)

  /** `struct bmi2_dev` together with the device behind its bus callbacks.  `faults` is the bus's future:
      one entry per access, true for a failure; an access past its end succeeds. */
  class Dev {
    var dev: State
    var faults: seq<bool>
    var apsStatus: bool
    var readWriteLen: nat
    var sensEnStat: set<Feature>
    var remap: AxesRemap
    var notes: Notes

    constructor (s: State, faults: seq<bool>, readWriteLen: nat)
      requires s.Valid()
      ensures dev == s && this.faults == faults && this.readWriteLen == readWriteLen
      ensures !apsStatus && sensEnStat == {} && remap == IDENTITY
    {
      dev, this.faults, this.readWriteLen := s, faults, readWriteLen;
      apsStatus, sensEnStat, remap := false, {}, IDENTITY;
      notes := Notes(Info(false, false), false, 0);
    }

    /** The driver's idea of power save is the device's. */
    ghost predicate ApsAgrees()
      reads this
    {
      dev.Valid() && apsStatus == dev.Asleep()
    }

    /** `bmi2_get_regs`. */
    method GetRegs(addr: nat, len: nat) returns (rslt: Rslt, data: seq<bv8>)
      requires dev.Valid() && (InWindow(addr, len) || Plain(addr, len))
      modifies this`dev, this`faults
      ensures faults == Later(old(faults))
      ensures dev == Noted(old(dev), addr, len)
      ensures if Fails(old(faults)) then rslt == ComFail && data == []
              else rslt == OK && data == Read(old(dev), addr, len)
    {
      var failed := Fails(faults);
      faults := Later(faults);
      data := if failed then [] else Read(dev, addr, len);
      dev := Noted(dev, addr, len);
      rslt := if failed then ComFail else OK;
    }

    /** `bmi2_set_regs`.  The power-save flag follows the byte written even when the write failed. */
    method SetRegs(addr: nat, data: seq<bv8>) returns (rslt: Rslt)
      requires dev.Valid() && Accepts(addr, data)
      requires |data| >= 1 && (addr == INIT_DATA || InWindow(addr, |data|) || Plain(addr, |data|))
      modifies this`dev, this`faults, this`apsStatus
      ensures faults == Later(old(faults))
      ensures dev == if Fails(old(faults)) then old(dev) else Write(old(dev), addr, data)
      ensures rslt == if Fails(old(faults)) then ComFail else OK
      ensures apsStatus == if addr == PWR_CONF then data[0] & 1 == 1 else old(apsStatus)
    {
      rslt := OK;
      if Fails(faults) {
        rslt := ComFail;
      } else {
        dev := Write(dev, addr, data);
      }
      faults := Later(faults);
      if addr == PWR_CONF {
        apsStatus := data[0] & 1 == 1;
      }
    }

    /** `bmi2_set_adv_power_save`. */
    method SetAdvPowerSave(enable: bool) returns (rslt: Rslt)
      requires dev.Valid()
      modifies this`dev, this`faults, this`apsStatus
      ensures rslt == OK ==> dev == WithAps(old(dev), enable) && apsStatus == enable
      ensures rslt != OK ==> dev == old(dev) && old(faults) != []
      ensures old(faults) == [] ==> faults == []
      ensures Fails(old(faults)) ==> rslt == ComFail && faults == Later(old(faults)) && apsStatus == old(apsStatus)
    {
      var data;
      rslt, data := GetRegs(PWR_CONF, 1);
      if rslt == OK {
        var regData := (data[0] & 0xFE) | (if enable then 1 else 0);
        OverlayOne(dev.regs, PWR_CONF, regData);
        rslt := SetRegs(PWR_CONF, [regData]);
        if rslt != OK {
          rslt := SetApsFail;
        }
        if rslt == OK {
          apsStatus := regData & 1 == 1;
        }
      }
    }

    /** The chunked branch of `bmi2_get_feat_config`, for a chunk size below a page; an odd one is made
        even, for good. */
    method ReadInChunks(page: bv8, ghost s: State) returns (rslt: Rslt, feat: seq<bv8>)
      requires s.Valid() && page < 8 && dev == WithPage(s, page) && 2 <= readWriteLen < PAGE_SIZE
      modifies this`dev, this`faults, this`readWriteLen
      ensures dev == WithPage(s, page) && 2 <= readWriteLen < PAGE_SIZE && |feat| == PAGE_SIZE
      ensures rslt == OK ==> feat == s.pages[page as nat]
      ensures old(faults) == [] ==> faults == [] && rslt == OK
    {
      if readWriteLen % 2 != 0 {
        readWriteLen := readWriteLen - 1;
      }
      PageNumber(page);
      ghost var target := s.pages[page as nat];
      hide Read, Noted, WithPage, Overlay, AlikeTo, State.Valid;
      feat := seq(PAGE_SIZE, _ => 0);
      AlikeThroughout(feat, target);
      var bytesRemain: nat, done: nat, index: nat := PAGE_SIZE, 0, 0;
      rslt := OK;
      while bytesRemain > 0
        invariant dev == WithPage(s, page) && 2 <= readWriteLen < PAGE_SIZE
        invariant bytesRemain + done == PAGE_SIZE == |feat|
        invariant bytesRemain > 0 ==> index == done
        invariant rslt == OK && AlikeTo(feat, target, done)
        invariant old(faults) == [] ==> faults == []
        decreases bytesRemain
      {
        var len := if bytesRemain >= readWriteLen then readWriteLen else bytesRemain;
        WindowRead(s, page, index, len);
        ChunkAdded(feat, target, done, len);
        var data;
        rslt, data := GetRegs(FEATURES + index, len);
        if rslt == OK {
          feat := Overlay(feat, index, data);
        }
        if bytesRemain >= readWriteLen {
          index := index + readWriteLen;
        }
        done := done + len;
        bytesRemain := PAGE_SIZE - done;
        if rslt != OK {
          break;
        }
      }
      AlikeThroughout(feat, target);
    }

    /** `bmi2_get_feat_config`: the page, whatever chunk size the user set. */
    method GetFeatConfig(page: bv8) returns (rslt: Rslt, feat: Page)
      requires dev.Valid() && readWriteLen >= 2
      modifies this`dev, this`faults, this`readWriteLen, this`apsStatus
      ensures apsStatus == old(apsStatus) && readWriteLen >= 2
      ensures rslt == OK ==> page < 8 && feat == old(dev).pages[page as nat] && dev == WithPage(old(dev), page)
      ensures rslt != OK ==> dev.Valid() && dev.pages == old(dev).pages && dev.init == old(dev).init
      ensures old(faults) == [] ==> faults == [] && rslt == if page < 8 then OK else InvalidPage
    {
      feat := seq(PAGE_SIZE, _ => 0);
      if !(page < 8) {
        return InvalidPage, feat;
      }
      PageNumber(page);
      OverlayOne(dev.regs, FEAT_PAGE, page);
      rslt := SetRegs(FEAT_PAGE, [page]);
      if rslt == OK && readWriteLen < PAGE_SIZE {
        rslt, feat := ReadInChunks(page, old(dev));
      } else if rslt == OK {
        var data;
        WindowRead(old(dev), page, 0, PAGE_SIZE);
        rslt, data := GetRegs(FEATURES, PAGE_SIZE);
        if rslt == OK {
          feat := data;
        }
      }
    }
  }
}
