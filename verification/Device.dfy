/** The sensor as the driver sees it: a register file whose window 0x30..0x3F shows one of eight
    feature pages, and a configuration memory filled through an address pair and a data port. */
module Device {

  const STATUS: nat := 0x03
  const ACC_X_LSB: nat := 0x0C
  const GYR_X_LSB: nat := 0x12
  const EVENT: nat := 0x1B
  const FEAT_PAGE: nat := 0x2F
  const FEATURES: nat := 0x30
  const ACC_CONF: nat := 0x40
  const GYR_CONF: nat := 0x42
  const AUX_CONF: nat := 0x44
  const AUX_DEV_ID: nat := 0x4B
  const AUX_RD: nat := 0x4D
  const INIT_CTRL: nat := 0x59
  const INIT_ADDR_0: nat := 0x5B
  const INIT_ADDR_1: nat := 0x5C
  const INIT_DATA: nat := 0x5E
  const INTERNAL_STATUS: nat := 0x21
  const IF_CONF: nat := 0x6B
  const NV_CONF: nat := 0x70
  const ACC_OFF_COMP_0: nat := 0x71
  const GYR_OFF_COMP_3: nat := 0x74
  const GYR_OFF_COMP_6: nat := 0x77
  const PWR_CONF: nat := 0x7C
  const PWR_CTRL: nat := 0x7D

  const PAGE_SIZE: nat := 16
  const PAGES: nat := 8
  const INIT_SIZE: nat := 8192

  type Page = p: seq<bv8> | |p| == PAGE_SIZE witness seq(PAGE_SIZE, _ => 0)

  /** One burst into the configuration memory: where, what, and the load bit at that moment. */
  datatype Burst = Burst(at: nat, data: seq<bv8>, loading: bool)

  /** `bursts` and `touchedAsleep` record what the bus did; no register shows them. */
  datatype State = State(regs: seq<bv8>, pages: seq<Page>, init: seq<bv8>, bursts: seq<Burst>, touchedAsleep: bool) {
    predicate Valid() {
      |regs| == 128 && |pages| == PAGES && |init| == INIT_SIZE && regs[FEAT_PAGE] < 8
    }

    /** Advanced power save, bit 0 of PWR_CONF. */
    predicate Asleep()
      requires Valid()
    {
      regs[PWR_CONF] & 1 == 1
    }

    predicate Loading()
      requires Valid()
    {
      regs[INIT_CTRL] & 1 == 1
    }

    function Selected(): nat
      requires Valid()
      ensures Selected() < PAGES
    {
      PageNumber(regs[FEAT_PAGE]);
      regs[FEAT_PAGE] as nat
    }

    /** The byte address the data port writes to, rebuilt from the two address registers. */
    function InitAddress(): nat
      requires Valid()
    {
      2 * ((regs[INIT_ADDR_0] & 0x0F) as nat + 16 * regs[INIT_ADDR_1] as nat)
    }
  }

  lemma PageNumber(p: bv8)
    requires p < 8
    ensures p as nat < 8
  {
  }

  function Overlay<T>(s: seq<T>, at: nat, data: seq<T>): (r: seq<T>)
    requires at + |data| <= |s|
    ensures |r| == |s|
  {
    s[..at] + data + s[at + |data|..]
  }

  /** The bursts the driver uses: inside the feature window, into the data port, or in plain registers. */
  predicate InWindow(addr: nat, len: nat) {
    FEATURES <= addr && addr + len <= FEATURES + PAGE_SIZE
  }

  predicate Plain(addr: nat, len: nat) {
    len >= 1 && (addr + len <= FEATURES || FEATURES + PAGE_SIZE <= addr) && addr + len <= 128
    && !(addr <= INIT_DATA < addr + len)
  }

  predicate TouchesFeatures(addr: nat, len: nat) {
    addr < FEATURES + PAGE_SIZE && FEAT_PAGE < addr + len
  }

  /** A value the page register accepts. */
  predicate Accepts(addr: nat, data: seq<bv8>) {
    addr <= FEAT_PAGE < addr + |data| ==> data[FEAT_PAGE - addr] < 8
  }

  function Noted(s: State, addr: nat, len: nat): State
    requires s.Valid()
  {
    s.(touchedAsleep := s.touchedAsleep || (s.Asleep() && TouchesFeatures(addr, len)))
  }

  function Read(s: State, addr: nat, len: nat): seq<bv8>
    requires s.Valid() && (InWindow(addr, len) || Plain(addr, len))
  {
    if InWindow(addr, len) then s.pages[s.Selected()][addr - FEATURES..addr - FEATURES + len]
    else s.regs[addr..addr + len]
  }

  function Write(s: State, addr: nat, data: seq<bv8>): (r: State)
    requires s.Valid() && (addr == INIT_DATA || InWindow(addr, |data|) || Plain(addr, |data|)) && Accepts(addr, data)
    ensures r.Valid()
  {
    var n := Noted(s, addr, |data|);
    if addr == INIT_DATA then
      var at := s.InitAddress();
      if at + |data| <= INIT_SIZE then
        n.(init := Overlay(s.init, at, data), bursts := s.bursts + [Burst(at, data, s.Loading())])
      else n
    else if InWindow(addr, |data|) then
      n.(pages := s.pages[s.Selected() := Overlay(s.pages[s.Selected()], addr - FEATURES, data)])
    else
      n.(regs := Overlay(s.regs, addr, data))
  }
}
