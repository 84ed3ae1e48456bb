/** The 25 parameters of the step counter, laid over pages 3 to 6. */
module Steps {
  import opened Bits
  import opened Device
  import opened Driver
  import opened Pages

  const N_PARAMS: nat := 25
  const START_PAGE: nat := 3
  const END_PAGE: nat := 6

  /** The page after the words numbered `s`, `s + 1`, ... have been given the values `vs`; its own words
      are numbered from `first`. */
  function Patched(page: Page, first: nat, s: nat, vs: seq<bv16>): Page {
    seq(PAGE_SIZE, i requires 0 <= i < PAGE_SIZE =>
      var g := first + i / 2;
      if !(s <= g < s + |vs|) then page[i] else if i % 2 == 0 then Low(vs[g - s]) else High(vs[g - s]))
  }

  lemma PatchedWord(page: Page, first: nat, s: nat, vs: seq<bv16>, w: nat)
    requires w < 8
    ensures WordAt(Patched(page, first, s, vs), w)
            == if s <= first + w < s + |vs| then vs[first + w - s] else WordAt(page, w)
  {
  }

  lemma PatchedNext(page: Page, first: nat, s: nat, vs: seq<bv16>, k: nat)
    requires k < |vs| && first <= s + k < first + 8
    ensures SetWord(Patched(page, first, s, vs[..k]), s + k - first, vs[k]) == Patched(page, first, s, vs[..k + 1])
  {
  }

  lemma PatchedEnough(page: Page, first: nat, s: nat, vs: seq<bv16>, k: nat)
    requires k <= |vs| && (k == |vs| || s + k >= first + 8)
    ensures Patched(page, first, s, vs[..k]) == Patched(page, first, s, vs)
  {
  }

  lemma WholeWord(reg: bv16, v: bv16)
    ensures SetBits(reg, 0xFFFF, 0, v) == v
  {
  }

  /** Page memory with the parameters in place, from word `s` of page 3. */
  function WithSteps(m: seq<Page>, s: nat, vs: seq<bv16>): (r: seq<Page>)
    requires Memory(m)
    ensures Memory(r)
  {
    seq(PAGES, p requires 0 <= p < PAGES =>
      if START_PAGE <= p <= END_PAGE then Patched(m[p], 8 * (p - START_PAGE), s, vs) else m[p])
  }

  function StepsOf(m: seq<Page>, s: nat): (vs: seq<bv16>)
    requires Memory(m) && s < 8
    ensures |vs| == N_PARAMS
  {
    seq(N_PARAMS, k requires 0 <= k < N_PARAMS => WordAt(m[START_PAGE + (s + k) / 8], (s + k) % 8))
  }

  /** The parameters read back, wherever in page 3 they start. */
  lemma StepsReadBack(m: seq<Page>, s: nat, vs: seq<bv16>)
    requires Memory(m) && s < 8 && |vs| == N_PARAMS
    ensures StepsOf(WithSteps(m, s, vs), s) == vs
  {
    hide WithSteps;
    forall k | 0 <= k < N_PARAMS ensures StepsOf(WithSteps(m, s, vs), s)[k] == vs[k] {
      StepReadsBack(m, s, vs, k);
    }
  }

  lemma StepReadsBack(m: seq<Page>, s: nat, vs: seq<bv16>, k: nat)
    requires Memory(m) && s < 8 && |vs| == N_PARAMS && k < N_PARAMS
    ensures WordAt(WithSteps(m, s, vs)[START_PAGE + (s + k) / 8], (s + k) % 8) == vs[k]
  {
  }

  /** And nothing but their fifty bytes has changed. */
  lemma StepsAreLocal(m: seq<Page>, s: nat, vs: seq<bv16>)
    requires Memory(m) && s < 8 && |vs| == N_PARAMS
    ensures OnlyIn(OfSteps(2 * s), m, WithSteps(m, s, vs))
  {
    hide Patched, WordAt, Part, Rest;
    forall p, w | 0 <= p < PAGES && 0 <= w < 8
      ensures Part(WordAt(m[p], w), Rest(Cover(OfSteps(2 * s), p, w)))
              == Part(WordAt(WithSteps(m, s, vs)[p], w), Rest(Cover(OfSteps(2 * s), p, w)))
    {
      NothingLeft(WordAt(m[p], w), WordAt(WithSteps(m, s, vs)[p], w));
      if START_PAGE <= p <= END_PAGE {
        PatchedWord(m[p], 8 * (p - START_PAGE), s, vs, w);
      }
    }
  }

  lemma NothingLeft(v: bv16, w: bv16)
    ensures Part(v, Rest(0xFFFF)) == Part(w, Rest(0xFFFF))
  {
  }

  /** What is written in another place leaves the parameters alone. */
  lemma StepsKept(a: seq<Page>, b: seq<Page>, o: Owner)
    requires Memory(a) && Memory(b) && OnlyIn(o, a, b) && !o.OfSteps?
    ensures StepsOf(a, 0) == StepsOf(b, 0)
  {
  }

  /** Between two pages: pages 3 to `p - 1` are done. */
  ghost function Upto(m: seq<Page>, p: nat, s: nat, vs: seq<bv16>): (r: seq<Page>)
    requires Memory(m)
    ensures Memory(r)
  {
    WithSteps(m, s, vs)[..if p < PAGES then p else PAGES] + m[if p < PAGES then p else PAGES..]
  }

  /** The inner loop of `set_step_count_params_config`: one page's share of the parameters. */
  method FillPage(page: Page, startAddr: nat, maxLen: nat, params: seq<bv16>, paramIdx: nat, ghost first: nat,
      ghost s: nat)
    returns (feat: Page, next: nat)
    requires startAddr % 2 == 0 && startAddr / 2 <= maxLen <= 8 && first + startAddr / 2 == s + paramIdx
    requires paramIdx + (maxLen - startAddr / 2) <= |params|
    requires page == Patched(page, first, s, params[..paramIdx])
    ensures next == paramIdx + (maxLen - startAddr / 2)
    ensures feat == Patched(page, first, s, params[..next])
  {
    hide Patched, SetBits, WordAt, SetWord;
    feat, next := page, paramIdx;
    var pageByteIdx := startAddr / 2;
    while pageByteIdx < maxLen
      invariant startAddr / 2 <= pageByteIdx <= maxLen && next == paramIdx + (pageByteIdx - startAddr / 2)
      invariant feat == Patched(page, first, s, params[..next])
    {
      WholeWord(WordAt(feat, pageByteIdx), params[next]);
      PatchedNext(page, first, s, params, next);
      feat := SetWord(feat, pageByteIdx, SetBits(WordAt(feat, pageByteIdx), 0xFFFF, 0, params[next]));
      pageByteIdx := pageByteIdx + 1;
      next := next + 1;
    }
  }

  lemma PageDone(m: seq<Page>, p: nat, s: nat, vs: seq<bv16>)
    requires Memory(m) && START_PAGE <= p <= END_PAGE
    ensures Upto(m, p, s, vs)[p] == m[p]
    ensures Upto(m, p, s, vs)[p := Patched(m[p], 8 * (p - START_PAGE), s, vs)] == Upto(m, p + 1, s, vs)
  {
  }

  lemma AllDone(m: seq<Page>, s: nat, vs: seq<bv16>)
    requires Memory(m)
    ensures Upto(m, START_PAGE, s, vs) == m && Upto(m, END_PAGE + 1, s, vs) == WithSteps(m, s, vs)
  {
  }

  /** Bytes of the last page that hold parameters. */
  function RemainLen(startAddr: nat): nat {
    N_PARAMS * 2 - N_PARAMS * 2 / 16 * 16 + startAddr
  }

  /** The state before page `p` is rewritten. */
  ghost predicate Between(s0: State, now: State, p: nat, s: nat, vs: seq<bv16>) {
    && s0.Valid() && START_PAGE <= p <= END_PAGE + 1
    && if p == START_PAGE then now == s0 else now == Paged(s0, (p - 1) as bv8, Upto(s0.pages, p, s, vs))
  }

  lemma BetweenNext(s0: State, now: State, p: nat, s: nat, vs: seq<bv16>)
    requires Between(s0, now, p, s, vs) && p <= END_PAGE
    ensures now.Valid() && now.pages[p] == s0.pages[p]
    ensures var feat := Patched(s0.pages[p], 8 * (p - START_PAGE), s, vs);
            Between(s0, Write(WithPage(now, p as bv8), FEATURES, feat), p + 1, s, vs)
  {
    hide Patched, Upto, Write, WithPage, WithSteps;
    var feat := Patched(s0.pages[p], 8 * (p - START_PAGE), s, vs);
    AllDone(s0.pages, s, vs);
    PageDone(s0.pages, p, s, vs);
    PageBits(p);
    PageWritten(now, p as bv8, feat);
    if p > START_PAGE {
      PagedTwice(s0, (p - 1) as bv8, now.pages, p as bv8, now.pages[p := feat]);
    }
  }

  lemma PageBits(p: nat)
    requires p < PAGES
    ensures (p as bv8) < 8 && (p as bv8) as nat == p
  {
  }

  /** No parameter below `paramIdx` belongs to the page that is about to be filled. */
  lemma NothingYet(page: Page, first: nat, s: nat, params: seq<bv16>, paramIdx: nat)
    requires paramIdx <= |params| && (s + paramIdx == first || paramIdx == 0)
    ensures page == Patched(page, first, s, params[..paramIdx])
  {
  }

  /** Filling a page touches no more than the parameters' own bytes. */
  lemma PatchedIsLocal(m: seq<Page>, p: nat, s: nat, s': nat, vs: seq<bv16>)
    requires Memory(m) && START_PAGE <= p <= END_PAGE && s <= s' && s' + |vs| <= s + N_PARAMS
    ensures OnlyIn(OfSteps(2 * s), m, m[p := Patched(m[p], 8 * (p - START_PAGE), s', vs)])
  {
    hide Patched, WordAt, Part, Rest;
    var r := m[p := Patched(m[p], 8 * (p - START_PAGE), s', vs)];
    forall q, w | 0 <= q < PAGES && 0 <= w < 8
      ensures Part(WordAt(m[q], w), Rest(Cover(OfSteps(2 * s), q, w)))
              == Part(WordAt(r[q], w), Rest(Cover(OfSteps(2 * s), q, w)))
    {
      NothingLeft(WordAt(m[q], w), WordAt(r[q], w));
      PatchedWord(m[p], 8 * (p - START_PAGE), s', vs, w);
    }
  }

  /** `set_step_count_params_config`, for a feature table that puts the parameters at the even address
      `start` of page 3. */
  method SetStepParams(d: Dev, params: seq<bv16>, start: nat) returns (rslt: Rslt)
    requires d.dev.Valid() && d.readWriteLen >= 2 && |params| == N_PARAMS && start % 2 == 0 && start < PAGE_SIZE
    modifies d`dev, d`faults, d`readWriteLen, d`apsStatus
    ensures d.dev.Valid() && d.apsStatus == old(d.apsStatus) && d.readWriteLen >= 2
    ensures OnlyIn(OfSteps(start), old(d.dev).pages, d.dev.pages)
    ensures old(d.faults) == [] ==>
      d.faults == [] && rslt == OK
      && d.dev == Paged(old(d.dev), END_PAGE as bv8, WithSteps(old(d.dev).pages, start / 2, params))
  {
    hide Between, Patched, WithSteps, Write, WithPage, Paged, WordAt, OnlyIn;
    OnlyInSelf(OfSteps(start), d.dev.pages);
    rslt := OK;
    var startAddr: nat, maxLen: nat, paramIdx: nat := start, 8, 0;
    var remainLen := RemainLen(startAddr);
    ghost var s0, s := d.dev, start / 2;
    assert Between(s0, d.dev, START_PAGE, s, params) by {
      Beginning(s0, s, params);
    }
    for page := START_PAGE to END_PAGE + 1
      invariant d.dev.Valid() && d.apsStatus == old(d.apsStatus) && d.readWriteLen >= 2
      invariant OnlyIn(OfSteps(start), s0.pages, d.dev.pages)
      invariant maxLen == 8 || page == END_PAGE + 1
      invariant startAddr == start || startAddr == 0
      invariant page == START_PAGE ==> paramIdx == 0 && startAddr == start
      invariant page > START_PAGE ==> paramIdx <= 8 * (page - START_PAGE) - s
      invariant paramIdx <= N_PARAMS
      invariant old(d.faults) == [] ==> d.faults == [] && rslt == OK && Between(s0, d.dev, page, s, params)
      invariant old(d.faults) == [] && START_PAGE < page <= END_PAGE ==> paramIdx == 8 * (page - START_PAGE) - s
    {
      var feat;
      PageBits(page);
      ghost var before := d.dev;
      rslt, feat := d.GetFeatConfig(page as bv8);
      if rslt == OK {
        if page > START_PAGE {
          startAddr := 0;
        }
        if page == END_PAGE {
          maxLen := remainLen / 2;
        }
        ghost var first := 8 * (page - START_PAGE);
        ghost var s' := first + startAddr / 2 - paramIdx;
        NothingYet(feat, first, s', params, paramIdx);
        feat, paramIdx := FillPage(feat, startAddr, maxLen, params, paramIdx, first, s');
        PatchedIsLocal(before.pages, page, s, s', params[..paramIdx]);
        PageWritten(before, page as bv8, feat);
        OnlyInTwice(OfSteps(start), s0.pages, before.pages, before.pages[page := feat]);
        rslt := d.SetRegs(FEATURES, feat);
        if old(d.faults) == [] {
          BetweenNext(s0, before, page, s, params);
          PatchedEnough(s0.pages[page], first, s, params, paramIdx);
        }
      }
    }
    if old(d.faults) == [] {
      Ending(s0, d.dev, s, params);
    }
  }

  lemma Beginning(s0: State, s: nat, vs: seq<bv16>)
    requires s0.Valid()
    ensures Between(s0, s0, START_PAGE, s, vs)
  {
  }

  lemma Ending(s0: State, now: State, s: nat, vs: seq<bv16>)
    requires Between(s0, now, END_PAGE + 1, s, vs)
    ensures s0.Valid() && now == Paged(s0, END_PAGE as bv8, WithSteps(s0.pages, s, vs))
  {
  }

  /** `params` is `taken` with `n` words of the page, from word `w` on, in the places from `at` on. */
  ghost predicate Took(page: Page, w: nat, taken: seq<bv16>, at: nat, params: seq<bv16>, n: nat) {
    && w + n <= 8 && at + n <= |taken| == |params|
    && forall k :: 0 <= k < |taken| ==> params[k] == if at <= k < at + n then WordAt(page, w + k - at) else taken[k]
  }

  lemma TookNext(page: Page, w: nat, taken: seq<bv16>, at: nat, params: seq<bv16>, n: nat)
    requires Took(page, w, taken, at, params, n) && w + n < 8 && at + n < |taken|
    ensures Took(page, w, taken, at, params[at + n := WordAt(page, w + n)], n + 1)
  {
  }

  /** The inner loop of `get_step_count_params_config`, byte by byte, into the caller's array. */
  method TakePage(page: Page, startAddr: nat, maxLen: nat, taken: seq<bv16>, paramIdx: nat)
    returns (params: seq<bv16>, next: nat)
    requires startAddr % 2 == 0 && maxLen % 2 == 0 && startAddr <= maxLen <= PAGE_SIZE
    requires paramIdx + (maxLen - startAddr) / 2 <= |taken|
    ensures next == paramIdx + (maxLen - startAddr) / 2
    ensures Took(page, startAddr / 2, taken, paramIdx, params, (maxLen - startAddr) / 2)
  {
    hide Word, Masked, Took;
    ghost var n: nat, w := 0, startAddr / 2;
    TookNone(page, w, taken, paramIdx);
    params, next := taken, paramIdx;
    var lsb: bv8, msb: bv8 := 0, 0;
    var pageByteIdx := startAddr;
    while pageByteIdx < maxLen
      invariant pageByteIdx == startAddr + 2 * n <= maxLen && next == paramIdx + n
      invariant Took(page, w, taken, paramIdx, params, n)
    {
      lsb := page[pageByteIdx];
      pageByteIdx := pageByteIdx + 1;
      if pageByteIdx < maxLen {
        msb := page[pageByteIdx];
        pageByteIdx := pageByteIdx + 1;
      }
      AllBits(Word(lsb, msb));
      TookLength(page, w, taken, paramIdx, params, n);
      TookNext(page, w, taken, paramIdx, params, n);
      params := params[next := Masked(Word(lsb, msb))];
      next := next + 1;
      n := n + 1;
    }
  }

  lemma TookLength(page: Page, w: nat, taken: seq<bv16>, at: nat, params: seq<bv16>, n: nat)
    requires Took(page, w, taken, at, params, n)
    ensures |params| == |taken|
  {
  }

  lemma TookNone(page: Page, w: nat, taken: seq<bv16>, at: nat)
    requires w <= 8 && at <= |taken|
    ensures Took(page, w, taken, at, taken, 0)
  {
  }

  /** BMI2_STEP_COUNT_PARAMS_MASK. */
  function Masked(w: bv16): bv16 {
    w & 0xFFFF
  }

  lemma AllBits(w: bv16)
    ensures Masked(w) == w
  {
  }

  /** The parameters taken before page `p` is read. */
  ghost predicate Taken(m: seq<Page>, s: nat, p: nat, params: seq<bv16>, paramIdx: nat)
    requires Memory(m) && s < 8
  {
    && |params| == N_PARAMS && START_PAGE <= p <= END_PAGE + 1
    && paramIdx == (if p == START_PAGE then 0 else if p <= END_PAGE then 8 * (p - START_PAGE) - s else N_PARAMS)
    && forall k :: 0 <= k < paramIdx ==> params[k] == StepsOf(m, s)[k]
  }

  lemma TakenNext(m: seq<Page>, s: nat, p: nat, params: seq<bv16>, paramIdx: nat, params': seq<bv16>, next: nat)
    requires Memory(m) && s < 8 && p <= END_PAGE && Taken(m, s, p, params, paramIdx)
    requires paramIdx <= next == if p == END_PAGE then N_PARAMS else 8 * (p + 1 - START_PAGE) - s
    requires Took(m[p], if p == START_PAGE then s else 0, params, paramIdx, params', next - paramIdx)
    ensures Taken(m, s, p + 1, params', next)
  {
    hide WordAt;
    forall k | 0 <= k < next ensures params'[k] == StepsOf(m, s)[k] {
      if k >= paramIdx {
        assert START_PAGE + (s + k) / 8 == p;
      }
    }
  }

  /** `get_step_count_params_config`, into the caller's array. */
  method GetStepParams(d: Dev, taken: seq<bv16>, start: nat) returns (rslt: Rslt, params: seq<bv16>)
    requires d.dev.Valid() && d.readWriteLen >= 2 && |taken| == N_PARAMS && start % 2 == 0 && start < PAGE_SIZE
    modifies d`dev, d`faults, d`readWriteLen, d`apsStatus
    ensures d.dev.Valid() && d.apsStatus == old(d.apsStatus) && d.readWriteLen >= 2 && d.dev.pages == old(d.dev.pages)
    ensures old(d.faults) == [] ==>
      d.faults == [] && rslt == OK && params == StepsOf(old(d.dev).pages, start / 2)
      && d.dev == Paged(old(d.dev), END_PAGE as bv8, old(d.dev).pages)
  {
    hide StepsOf, WithPage, Paged, WordAt, Took;
    rslt, params := OK, taken;
    var startAddr: nat, maxLen: nat, paramIdx: nat := start, PAGE_SIZE, 0;
    var remainLen := RemainLen(startAddr);
    ghost var s0, s := d.dev, start / 2;
    assert Taken(s0.pages, s, START_PAGE, params, 0);
    for page := START_PAGE to END_PAGE + 1
      invariant d.dev.Valid() && d.apsStatus == old(d.apsStatus) && d.readWriteLen >= 2 && d.dev.pages == s0.pages
      invariant maxLen == PAGE_SIZE || page == END_PAGE + 1
      invariant startAddr == start || startAddr == 0
      invariant page == START_PAGE ==> paramIdx == 0 && startAddr == start
      invariant page > START_PAGE ==> paramIdx <= 8 * (page - START_PAGE) - s
      invariant paramIdx <= N_PARAMS == |params|
      invariant old(d.faults) == [] ==> d.faults == [] && rslt == OK && Taken(s0.pages, s, page, params, paramIdx)
      invariant old(d.faults) == [] ==> Visited(s0, d.dev, page)
    {
      var feat;
      PageBits(page);
      ghost var before, was, at := d.dev, params, paramIdx;
      rslt, feat := d.GetFeatConfig(page as bv8);
      if rslt == OK {
        if page > START_PAGE {
          startAddr := 0;
        }
        if page == END_PAGE {
          maxLen := remainLen;
        }
        params, paramIdx := TakePage(feat, startAddr, maxLen, params, paramIdx);
        TookLength(feat, startAddr / 2, was, at, params, paramIdx - at);
        if old(d.faults) == [] {
          TakenNext(s0.pages, s, page, was, at, params, paramIdx);
          VisitedNext(s0, before, page);
        }
      }
    }
    assert rslt == OK && old(d.faults) == [] ==> params == StepsOf(s0.pages, s);
    if old(d.faults) == [] {
      VisitedAll(s0, d.dev);
    }
  }

  /** The state before page `p` is read. */
  ghost predicate Visited(s0: State, now: State, p: nat) {
    && s0.Valid() && START_PAGE <= p <= END_PAGE + 1
    && if p == START_PAGE then now == s0 else now == Paged(s0, (p - 1) as bv8, s0.pages)
  }

  lemma VisitedNext(s0: State, now: State, p: nat)
    requires Visited(s0, now, p) && p <= END_PAGE
    ensures p < 8 && (p as bv8) < 8 && now.Valid() && Visited(s0, WithPage(now, p as bv8), p + 1)
  {
  }

  lemma VisitedAll(s0: State, now: State)
    requires Visited(s0, now, END_PAGE + 1)
    ensures s0.Valid() && now == Paged(s0, END_PAGE as bv8, s0.pages)
  {
  }
}
