/** What lives where in the feature pages: the fields of each feature's configuration, the enable bits,
    and the proof that no two of them share a bit. */
module Pages {
  import opened Bits
  import opened Device
  import opened Driver

  // ---------- little-endian words of a page ----------

  function WordAt(p: Page, w: nat): bv16
    requires w < 8
  {
    Word(p[2 * w], p[2 * w + 1])
  }

  function SetWord(p: Page, w: nat, v: bv16): Page
    requires w < 8
  {
    p[2 * w := Low(v)][2 * w + 1 := High(v)]
  }

  /** The low byte of a word comes first. */
  lemma WordBytes(p: Page, w: nat, v: bv16)
    requires w < 8
    ensures WordAt(p, w) == p[2 * w] as bv16 + 0x100 * p[2 * w + 1] as bv16
    ensures var q := SetWord(p, w, v); v == q[2 * w] as bv16 + 0x100 * q[2 * w + 1] as bv16
  {
    Halves(p[2 * w], p[2 * w + 1]);
    Halves(Low(v), High(v));
    Rejoined(v);
  }

  lemma Halves(lo: bv8, hi: bv8)
    ensures Word(lo, hi) == lo as bv16 + 0x100 * hi as bv16
  {
  }

  lemma Rejoined(v: bv16)
    ensures Word(Low(v), High(v)) == v
  {
  }

  lemma WordOfSetWord(p: Page, w: nat, v: bv16, u: nat)
    requires w < 8 && u < 8
    ensures WordAt(SetWord(p, w, v), u) == if u == w then v else WordAt(p, u)
  {
  }

  // ---------- parts of a word ----------

  function Part(v: bv16, m: bv16): bv16 {
    v & m
  }

  function Rest(m: bv16): bv16 {
    !m
  }

  predicate Disjoint(a: bv16, b: bv16) {
    a & b == 0
  }

  lemma DisjointIsSymmetric(a: bv16, b: bv16)
    ensures Disjoint(a, b) == Disjoint(b, a)
  {
  }

  // ---------- fields ----------

  datatype Field = Field(word: nat, mask: bv16, pos: bv4) {
    predicate Valid() {
      word < 8 && (pos == 0 || pos == 4 || pos == 10 || pos == 13 || pos == 14 || pos == 15)
    }
  }

  /** The value mask of a field. */
  function Width(f: Field): bv16 {
    f.mask >> f.pos
  }

  function SetField(p: Page, f: Field, v: bv16): Page
    requires f.Valid()
  {
    SetWord(p, f.word, SetBits(WordAt(p, f.word), f.mask, f.pos, v))
  }

  function GetField(p: Page, f: Field): bv16
    requires f.Valid()
  {
    GetBits(WordAt(p, f.word), f.mask, f.pos)
  }

  predicate Apart(f: Field, g: Field) {
    f.word == g.word ==> Disjoint(f.mask, g.mask)
  }

  lemma FieldReadsBack(p: Page, f: Field, v: bv16)
    requires f.Valid()
    ensures GetField(SetField(p, f, v), f) == v & Width(f)
  {
    GetAfterSet(WordAt(p, f.word), f.mask, f.pos, v);
    WordOfSetWord(p, f.word, SetBits(WordAt(p, f.word), f.mask, f.pos, v), f.word);
  }

  lemma FieldKeeps(p: Page, f: Field, v: bv16, w: nat, m: bv16)
    requires f.Valid() && w < 8 && (f.word == w ==> Disjoint(f.mask, m))
    ensures Part(WordAt(SetField(p, f, v), w), m) == Part(WordAt(p, w), m)
  {
  }

  predicate WellPlaced(fs: seq<Field>) {
    && (forall k :: 0 <= k < |fs| ==> fs[k].Valid())
    && (forall j, k :: 0 <= j < k < |fs| ==> Apart(fs[j], fs[k]))
  }

  /** Setting the fields one after the other, as each configuration setter does. */
  function WithFields(p: Page, fs: seq<Field>, vs: seq<bv16>): Page
    requires WellPlaced(fs) && |vs| == |fs|
    decreases |fs|
  {
    if fs == [] then p else WithFields(SetField(p, fs[0], vs[0]), fs[1..], vs[1..])
  }

  lemma {:induction false} FieldsKeep(p: Page, fs: seq<Field>, vs: seq<bv16>, w: nat, m: bv16)
    requires WellPlaced(fs) && |vs| == |fs| && w < 8
    requires forall k :: 0 <= k < |fs| && fs[k].word == w ==> Disjoint(fs[k].mask, m)
    ensures Part(WordAt(WithFields(p, fs, vs), w), m) == Part(WordAt(p, w), m)
    decreases |fs|
  {
    hide SetField, WordAt, Part, Disjoint;
    if fs != [] {
      FieldKeeps(p, fs[0], vs[0], w, m);
      FieldsKeep(SetField(p, fs[0], vs[0]), fs[1..], vs[1..], w, m);
    }
  }

  lemma HeadApart(fs: seq<Field>)
    requires WellPlaced(fs) && fs != []
    ensures fs[0].Valid() && WellPlaced(fs[1..])
    ensures forall i :: 0 <= i < |fs[1..]| && fs[1..][i].word == fs[0].word ==> Disjoint(fs[1..][i].mask, fs[0].mask)
  {
  }

  lemma WithFieldsFirst(p: Page, fs: seq<Field>, vs: seq<bv16>)
    requires WellPlaced(fs) && |vs| == |fs| && fs != []
    ensures WellPlaced(fs[1..]) && fs[0].Valid()
    ensures WithFields(p, fs, vs) == WithFields(SetField(p, fs[0], vs[0]), fs[1..], vs[1..])
  {
  }

  lemma HeadReadsBack(p: Page, fs: seq<Field>, vs: seq<bv16>)
    requires WellPlaced(fs) && |vs| == |fs| && fs != []
    ensures fs[0].Valid() && GetField(WithFields(p, fs, vs), fs[0]) == vs[0] & Width(fs[0])
  {
    hide *;
    HeadApart(fs);
    WithFieldsFirst(p, fs, vs);
    var q := SetField(p, fs[0], vs[0]);
    FieldReadsBack(p, fs[0], vs[0]);
    FieldsKeep(q, fs[1..], vs[1..], fs[0].word, fs[0].mask);
    SameWordSameField(WithFields(q, fs[1..], vs[1..]), q, fs[0]);
  }

  /** Every field reads back as what was put in it, cut to its width. */
  lemma {:induction false} FieldsReadBack(p: Page, fs: seq<Field>, vs: seq<bv16>, k: nat)
    requires WellPlaced(fs) && |vs| == |fs| && k < |fs|
    ensures fs[k].Valid() && GetField(WithFields(p, fs, vs), fs[k]) == vs[k] & Width(fs[k])
    decreases |fs|
  {
    hide *;
    if k == 0 {
      HeadReadsBack(p, fs, vs);
    } else {
      WithFieldsFirst(p, fs, vs);
      FieldsReadBack(SetField(p, fs[0], vs[0]), fs[1..], vs[1..], k - 1);
      assert fs[1..][k - 1] == fs[k] && vs[1..][k - 1] == vs[k];
    }
  }

  lemma SameWordSameField(p: Page, q: Page, f: Field)
    requires f.Valid() && Part(WordAt(p, f.word), f.mask) == Part(WordAt(q, f.word), f.mask)
    ensures GetField(p, f) == GetField(q, f)
  {
  }

  // ---------- the tables ----------

  datatype Config =
    | AnyMotionConfig | NoMotionConfig | SigMotionConfig | StepConfig
    | WristGestureConfig | WristWearConfig | GyroUserGainConfig

  function ConfigPage(c: Config): (p: nat)
    ensures p < PAGES
  {
    match c
    case AnyMotionConfig => 1
    case NoMotionConfig => 2
    case SigMotionConfig => 2
    case StepConfig => 6
    case WristGestureConfig => 6
    case WristWearConfig => 7
    case GyroUserGainConfig => 1
  }

  /** Duration, x-, y- and z-select, threshold. */
  function MotionFields(w: nat): seq<Field> {
    [Field(w, 0x1FFF, 0), Field(w, 0x2000, 13), Field(w, 0x4000, 14), Field(w, 0x8000, 15), Field(w + 1, 0x07FF, 0)]
  }

  function Fields(c: Config): (fs: seq<Field>)
  {
    match c
    case AnyMotionConfig => MotionFields(6)
    case NoMotionConfig => MotionFields(0)
    case SigMotionConfig =>
      [Field(2, 0xFFFF, 0), Field(3, 0xFFFF, 0), Field(4, 0xFFFF, 0), Field(5, 0xFFFF, 0), Field(6, 0xFFFF, 0)]
    case StepConfig => [Field(1, 0x03FF, 0), Field(1, 0x0400, 10)]
    case WristGestureConfig => [Field(3, 0x0010, 4), Field(4, 0xFFFF, 0), Field(5, 0xFFFF, 0), Field(6, 0xFFFF, 0)]
    case WristWearConfig =>
      [Field(1, 0xFFFF, 0), Field(2, 0xFFFF, 0), Field(3, 0xFFFF, 0), Field(4, 0xFFFF, 0), Field(5, 0xFFFF, 0),
       Field(6, 0xFFFF, 0)]
    case GyroUserGainConfig => [Field(3, 0x07FF, 0), Field(4, 0x07FF, 0), Field(5, 0x07FF, 0)]
  }

  /** A feature's enable bit. */
  datatype Bit = Bit(page: nat, byte: nat, mask: bv8, pos: bv3)

  function EnableBit(f: Feature): (b: Bit)
    ensures b.page < PAGES && b.byte < PAGE_SIZE
  {
    match f
    case AnyMotion => Bit(1, 15, 0x80, 7)
    case NoMotion => Bit(2, 3, 0x80, 7)
    case SigMotion => Bit(2, 14, 0x01, 0)
    case StepDetector => Bit(6, 3, 0x08, 3)
    case StepCounter => Bit(6, 3, 0x10, 4)
    case StepActivity => Bit(6, 3, 0x20, 5)
    case GyroGainUpdate => Bit(1, 11, 0x08, 3)
    case GyroSelfOff => Bit(1, 5, 0x02, 1)
    case WristGesture => Bit(6, 6, 0x20, 5)
    case WristWearWakeUp => Bit(7, 0, 0x10, 4)
  }

  /** The same bit in its little-endian word. */
  function EnableMask(f: Feature): bv16 {
    match f
    case AnyMotion => 0x8000
    case NoMotion => 0x8000
    case SigMotion => 0x0001
    case StepDetector => 0x0800
    case StepCounter => 0x1000
    case StepActivity => 0x2000
    case GyroGainUpdate => 0x0800
    case GyroSelfOff => 0x0200
    case WristGesture => 0x0020
    case WristWearWakeUp => 0x0010
  }

  /** `bmi270_feat_in`, as far as it is used here: the page a feature's input lies in and where it starts. */
  datatype Place = Place(page: nat, start: nat)

  function PlaceOf(f: Feature): Place {
    match f
    case GyroSelfOff => Place(1, 0x05)
    case GyroGainUpdate => Place(1, 0x06)
    case AnyMotion => Place(1, 0x0C)
    case NoMotion => Place(2, 0x00)
    case SigMotion => Place(2, 0x04)
    case StepDetector => Place(6, 0x02)
    case StepCounter => Place(6, 0x02)
    case StepActivity => Place(6, 0x02)
    case WristGesture => Place(6, 0x06)
    case WristWearWakeUp => Place(7, 0x00)
  }

  /** How far from there the byte with the enable bit is: the BMI2_..._FEAT_EN_OFFSET constants. */
  function EnableOffset(f: Feature): nat {
    match f
    case AnyMotion => 3
    case NoMotion => 3
    case SigMotion => 10
    case StepDetector => 1
    case StepCounter => 1
    case StepActivity => 1
    case GyroGainUpdate => 5
    case GyroSelfOff => 0
    case WristGesture => 0
    case WristWearWakeUp => 0
  }

  /** Every enable bit is where the driver's look-up table and offsets put it; the step features follow each
      other, detector, counter and activity. */
  lemma EnableBitIsPlaced(f: Feature)
    ensures var b, p := EnableBit(f), PlaceOf(f); b.page == p.page && b.byte == p.start + EnableOffset(f)
    ensures EnableBit(f).mask == (1 << EnableBit(f).pos)
    ensures EnableBit(StepCounter).mask == 2 * EnableBit(StepDetector).mask
    ensures EnableBit(StepActivity).mask == 2 * EnableBit(StepCounter).mask
  {
  }

  /** The feature a configuration is for. */
  function FeatureOf(c: Config): Feature {
    match c
    case AnyMotionConfig => AnyMotion
    case NoMotionConfig => NoMotion
    case SigMotionConfig => SigMotion
    case StepConfig => StepCounter
    case WristGestureConfig => WristGesture
    case WristWearConfig => WristWearWakeUp
    case GyroUserGainConfig => GyroGainUpdate
  }

  /** Every configuration starts where that table says, but for the wrist-wear one, whose first word holds the
      enable bit and is passed over. */
  lemma ConfigIsPlaced(c: Config)
    ensures ConfigPage(c) == PlaceOf(FeatureOf(c)).page
    ensures Fields(c) != []
    ensures 2 * Fields(c)[0].word == PlaceOf(FeatureOf(c)).start + if c.WristWearConfig? then 2 else 0
  {
  }

  // ---------- who owns which bits ----------

  datatype Owner = OfConfig(c: Config) | OfEnable(f: Feature) | OfAxes | OfSteps(start: nat)

  /** The bits of word `w` of its page that a configuration uses. */
  function ConfigMask(c: Config, w: nat): bv16 {
    match c
    case AnyMotionConfig => if w == 6 then 0xFFFF else if w == 7 then 0x07FF else 0
    case NoMotionConfig => if w == 0 then 0xFFFF else if w == 1 then 0x07FF else 0
    case SigMotionConfig => if 2 <= w <= 6 then 0xFFFF else 0
    case StepConfig => if w == 1 then 0x07FF else 0
    case WristGestureConfig => if w == 3 then 0x0010 else if 4 <= w <= 6 then 0xFFFF else 0
    case WristWearConfig => if 1 <= w <= 6 then 0xFFFF else 0
    case GyroUserGainConfig => if 3 <= w <= 5 then 0x07FF else 0
  }

  /** The bits of word `w` of page `p` that belong to `o`.  The 25 step parameters fill fifty bytes from
      an even address of page 3 on. */
  function Cover(o: Owner, p: nat, w: nat): bv16 {
    match o
    case OfConfig(c) => if p == ConfigPage(c) then ConfigMask(c, w) else 0
    case OfEnable(f) =>
      if p == EnableBit(f).page && w == EnableBit(f).byte / 2 then EnableMask(f) else 0
    case OfAxes => if p == 1 && w == 2 then 0x01FF else 0
    case OfSteps(start) => if p >= 3 && start <= 16 * (p - 3) + 2 * w < start + 50 then 0xFFFF else 0
  }

  lemma ConfigsApart(c: Config, c': Config, p: nat, w: nat)
    requires c != c'
    ensures Disjoint(Cover(OfConfig(c), p, w), Cover(OfConfig(c'), p, w))
  {
  }

  lemma EnablesApart(f: Feature, f': Feature, p: nat, w: nat)
    requires f != f'
    ensures Disjoint(Cover(OfEnable(f), p, w), Cover(OfEnable(f'), p, w))
  {
  }

  lemma ConfigAndEnableApart(c: Config, f: Feature, p: nat, w: nat)
    ensures Disjoint(Cover(OfConfig(c), p, w), Cover(OfEnable(f), p, w))
  {
  }

  lemma AxesApart(o: Owner, p: nat, w: nat)
    requires !o.OfAxes? && !o.OfSteps?
    ensures Disjoint(Cover(OfAxes, p, w), Cover(o, p, w))
  {
  }

  lemma StepsApart(o: Owner, p: nat, w: nat)
    requires !o.OfSteps? && p < PAGES && w < 8
    ensures Disjoint(Cover(OfSteps(0), p, w), Cover(o, p, w))
  {
    hide Disjoint;
    ZeroIsDisjoint(Cover(OfSteps(0), p, w));
    ZeroIsDisjoint(Cover(o, p, w));
  }

  lemma ZeroIsDisjoint(m: bv16)
    ensures Disjoint(m, 0) && Disjoint(0, m)
  {
  }

  /** No two owners share a bit; the step parameters are where BMI270 has them, at the start of page 3. */
  lemma OwnersApart(o: Owner, o': Owner, p: nat, w: nat)
    requires o != o' && p < PAGES && w < 8
    requires (o.OfSteps? ==> o.start == 0) && (o'.OfSteps? ==> o'.start == 0)
    ensures Disjoint(Cover(o, p, w), Cover(o', p, w))
  {
    hide Cover, Disjoint;
    DisjointIsSymmetric(Cover(o, p, w), Cover(o', p, w));
    if o.OfSteps? {
      StepsApart(o', p, w);
    } else if o'.OfSteps? {
      StepsApart(o, p, w);
    } else if o.OfAxes? {
      AxesApart(o', p, w);
    } else if o'.OfAxes? {
      AxesApart(o, p, w);
    } else if o.OfConfig? && o'.OfConfig? {
      ConfigsApart(o.c, o'.c, p, w);
    } else if o.OfEnable? && o'.OfEnable? {
      EnablesApart(o.f, o'.f, p, w);
    } else if o.OfConfig? {
      ConfigAndEnableApart(o.c, o'.f, p, w);
    } else {
      ConfigAndEnableApart(o'.c, o.f, p, w);
    }
  }

  lemma TableIsWellPlaced(c: Config)
    ensures WellPlaced(Fields(c))
  {
    match c
    case AnyMotionConfig => MotionWellPlaced(6);
    case NoMotionConfig => MotionWellPlaced(0);
    case StepConfig =>
    case SigMotionConfig => OneAWord(Fields(c));
    case WristGestureConfig => OneAWord(Fields(c));
    case WristWearConfig => OneAWord(Fields(c));
    case GyroUserGainConfig => OneAWord(Fields(c));
  }

  lemma MotionWellPlaced(w: nat)
    requires w < 7
    ensures WellPlaced(MotionFields(w))
  {
  }

  lemma OneAWord(fs: seq<Field>)
    requires forall k :: 0 <= k < |fs| ==> fs[k].Valid()
    requires forall j, k :: 0 <= j < k < |fs| ==> fs[j].word < fs[k].word
    ensures WellPlaced(fs)
  {
  }

  lemma FieldsAreCovered(c: Config, k: nat)
    requires k < |Fields(c)|
    ensures Disjoint(Fields(c)[k].mask, Rest(Cover(OfConfig(c), ConfigPage(c), Fields(c)[k].word)))
  {
    FieldsAreInMask(c, k);
  }

  lemma FieldsAreInMask(c: Config, k: nat)
    requires k < |Fields(c)|
    ensures Disjoint(Fields(c)[k].mask, Rest(ConfigMask(c, Fields(c)[k].word)))
  {
    hide Disjoint, Rest, MotionFields, Part;
    match c
    case AnyMotionConfig => MotionIsCovered(6, k);
    case NoMotionConfig => MotionIsCovered(0, k);
    case StepConfig => StepIsCovered(k);
    case SigMotionConfig => SameIsDisjoint(Fields(c)[k].mask);
    case WristGestureConfig => SameIsDisjoint(Fields(c)[k].mask);
    case WristWearConfig => SameIsDisjoint(Fields(c)[k].mask);
    case GyroUserGainConfig => SameIsDisjoint(Fields(c)[k].mask);
  }

  lemma StepIsCovered(k: nat)
    requires k < 2
    ensures Disjoint(Fields(StepConfig)[k].mask, Rest(0x07FF))
  {
  }

  lemma MotionIsCovered(w: nat, k: nat)
    requires k < |MotionFields(w)|
    ensures MotionFields(w)[k].word == if k < 4 then w else w + 1
    ensures Disjoint(MotionFields(w)[k].mask, Rest(if MotionFields(w)[k].word == w then 0xFFFF else 0x07FF))
  {
  }

  lemma SameIsDisjoint(a: bv16)
    ensures Disjoint(a, Rest(a))
  {
  }

  // ---------- page memory as a whole ----------

  predicate Memory(m: seq<Page>) {
    |m| == PAGES
  }

  /** From `a` to `b`, no bit outside `o` has changed. */
  ghost predicate OnlyIn(o: Owner, a: seq<Page>, b: seq<Page>)
    requires Memory(a) && Memory(b)
  {
    forall p, w :: 0 <= p < PAGES && 0 <= w < 8 ==>
      Part(WordAt(a[p], w), Rest(Cover(o, p, w))) == Part(WordAt(b[p], w), Rest(Cover(o, p, w)))
  }

  lemma OnlyInSelf(o: Owner, a: seq<Page>)
    requires Memory(a)
    ensures OnlyIn(o, a, a)
  {
  }

  lemma OnlyInTwice(o: Owner, a: seq<Page>, b: seq<Page>, c: seq<Page>)
    requires Memory(a) && Memory(b) && Memory(c) && OnlyIn(o, a, b) && OnlyIn(o, b, c)
    ensures OnlyIn(o, a, c)
  {
  }

  function WithConfig(m: seq<Page>, c: Config, vs: seq<bv16>): (r: seq<Page>)
    requires Memory(m) && |vs| == |Fields(c)|
    ensures Memory(r)
  {
    TableIsWellPlaced(c);
    m[ConfigPage(c) := WithFields(m[ConfigPage(c)], Fields(c), vs)]
  }

  /** The configuration as a getter takes it out of its page. */
  function ConfigIn(page: Page, c: Config): (vs: seq<bv16>)
    ensures |vs| == |Fields(c)|
  {
    TableIsWellPlaced(c);
    seq(|Fields(c)|, k requires 0 <= k < |Fields(c)| => GetField(page, Fields(c)[k]))
  }

  function ConfigOf(m: seq<Page>, c: Config): (vs: seq<bv16>)
    requires Memory(m)
    ensures |vs| == |Fields(c)|
  {
    ConfigIn(m[ConfigPage(c)], c)
  }

  function Cut(c: Config, vs: seq<bv16>): (r: seq<bv16>)
    requires |vs| == |Fields(c)|
  {
    seq(|vs|, k requires 0 <= k < |vs| => vs[k] & Width(Fields(c)[k]))
  }

  function Inside(b: bv8, mask: bv8): bv8 {
    b & mask
  }

  function Outside(b: bv8, mask: bv8): bv8 {
    b & !mask
  }

  function EnableBitSet(m: seq<Page>, f: Feature): bool
    requires Memory(m)
  {
    Inside(m[EnableBit(f).page][EnableBit(f).byte], EnableBit(f).mask) != 0
  }

  /** The page after the edit of an enable bit. */
  function EnabledPage(page: Page, f: Feature, on: bool): Page {
    var b := EnableBit(f);
    page[b.byte := SetByteBits(page[b.byte], b.mask, b.pos, if on then 1 else 0)]
  }

  function WithEnable(m: seq<Page>, f: Feature, on: bool): (r: seq<Page>)
    requires Memory(m)
    ensures Memory(r)
  {
    m[EnableBit(f).page := EnabledPage(m[EnableBit(f).page], f, on)]
  }

  /** A setter followed by its getter returns the input cut to the widths of the fields. */
  lemma ConfigReadsBack(m: seq<Page>, c: Config, vs: seq<bv16>)
    requires Memory(m) && |vs| == |Fields(c)|
    ensures ConfigOf(WithConfig(m, c, vs), c) == Cut(c, vs)
  {
    hide Fields, WithFields, GetField, Width, ConfigPage, WellPlaced;
    TableIsWellPlaced(c);
    forall k | 0 <= k < |Fields(c)| ensures ConfigOf(WithConfig(m, c, vs), c)[k] == Cut(c, vs)[k] {
      FieldsReadBack(m[ConfigPage(c)], Fields(c), vs, k);
    }
  }

  /** And it touched nothing but those fields. */
  lemma ConfigIsLocal(m: seq<Page>, c: Config, vs: seq<bv16>)
    requires Memory(m) && |vs| == |Fields(c)|
    ensures OnlyIn(OfConfig(c), m, WithConfig(m, c, vs))
  {
    hide Cover, Fields, WithFields, WordAt, ConfigPage, WellPlaced, Part, Rest, Disjoint;
    TableIsWellPlaced(c);
    forall p, w | 0 <= p < PAGES && 0 <= w < 8
      ensures Part(WordAt(m[p], w), Rest(Cover(OfConfig(c), p, w)))
              == Part(WordAt(WithConfig(m, c, vs)[p], w), Rest(Cover(OfConfig(c), p, w)))
    {
      if p == ConfigPage(c) {
        forall k | 0 <= k < |Fields(c)| && Fields(c)[k].word == w
          ensures Disjoint(Fields(c)[k].mask, Rest(Cover(OfConfig(c), p, w)))
        {
          FieldsAreCovered(c, k);
        }
        FieldsKeep(m[p], Fields(c), vs, w, Rest(Cover(OfConfig(c), p, w)));
      }
    }
  }

  // ---------- the words a setter leaves ----------

  /** Duration below, one bit for each axis above it, x, y and z; then the threshold. */
  predicate MotionWritten(was: Page, p: Page, w: nat, vs: seq<bv16>)
    requires w < 7 && |vs| == 5
  {
    && WordAt(p, w) == (vs[0] & 0x1FFF) + 0x2000 * (vs[1] & 1) + 0x4000 * (vs[2] & 1) + 0x8000 * (vs[3] & 1)
    && WordAt(p, w + 1) == (WordAt(was, w + 1) & 0xF800) + (vs[4] & 0x07FF)
  }

  /** What is where in the page after a configuration has been set, in numbers. */
  predicate Written(was: Page, p: Page, c: Config, vs: seq<bv16>)
    requires |vs| == |Fields(c)|
  {
    match c
    case AnyMotionConfig => MotionWritten(was, p, 6, vs)
    case NoMotionConfig => MotionWritten(was, p, 0, vs)
    case SigMotionConfig => forall w :: 2 <= w < 7 ==> WordAt(p, w) == vs[w - 2]
    case StepConfig => WordAt(p, 1) == (WordAt(was, 1) & 0xF800) + (vs[0] & 0x03FF) + 0x0400 * (vs[1] & 1)
    case WristGestureConfig =>
      && WordAt(p, 3) == (WordAt(was, 3) & 0xFFEF) + 0x10 * (vs[0] & 1)
      && forall w :: 4 <= w < 7 ==> WordAt(p, w) == vs[w - 3]
    case WristWearConfig => forall w :: 1 <= w < 7 ==> WordAt(p, w) == vs[w - 1]
    case GyroUserGainConfig =>
      forall w :: 3 <= w < 6 ==> WordAt(p, w) == (WordAt(was, w) & 0xF800) + (vs[w - 3] & 0x07FF)
  }

  // A word is the fields in it and what is around them.

  lemma MotionWord(v: bv16)
    ensures v == GetBits(v, 0x1FFF, 0) + 0x2000 * GetBits(v, 0x2000, 13) + 0x4000 * GetBits(v, 0x4000, 14)
                 + 0x8000 * GetBits(v, 0x8000, 15)
  {
  }

  lemma ElevenBits(v: bv16)
    ensures v == Part(v, 0xF800) + GetBits(v, 0x07FF, 0)
  {
  }

  lemma StepWord(v: bv16)
    ensures v == Part(v, 0xF800) + GetBits(v, 0x03FF, 0) + 0x0400 * GetBits(v, 0x0400, 10)
  {
  }

  lemma ArmWord(v: bv16)
    ensures v == Part(v, 0xFFEF) + 0x10 * GetBits(v, 0x0010, 4)
  {
  }

  lemma WholeWord(v: bv16)
    ensures v == GetBits(v, 0xFFFF, 0) && v == v & 0xFFFF
  {
  }

  lemma FieldIs(p: Page, fs: seq<Field>, vs: seq<bv16>, k: nat, f: Field)
    requires WellPlaced(fs) && |vs| == |fs| && k < |fs| && f == fs[k]
    ensures f.Valid() && GetBits(WordAt(WithFields(p, fs, vs), f.word), f.mask, f.pos) == vs[k] & Width(f)
  {
    FieldsReadBack(p, fs, vs, k);
  }

  lemma MotionIsWritten(p: Page, w: nat, vs: seq<bv16>)
    requires w < 7 && |vs| == 5
    ensures WellPlaced(MotionFields(w)) && MotionWritten(p, WithFields(p, MotionFields(w), vs), w, vs)
  {
    hide GetBits, WithFields, Part, WellPlaced, WordAt, Disjoint;
    MotionWellPlaced(w);
    var fs, q := MotionFields(w), WithFields(p, MotionFields(w), vs);
    FieldIs(p, fs, vs, 0, Field(w, 0x1FFF, 0));
    FieldIs(p, fs, vs, 1, Field(w, 0x2000, 13));
    FieldIs(p, fs, vs, 2, Field(w, 0x4000, 14));
    FieldIs(p, fs, vs, 3, Field(w, 0x8000, 15));
    FieldIs(p, fs, vs, 4, Field(w + 1, 0x07FF, 0));
    MotionWord(WordAt(q, w));
    ElevenBitsWritten(p, fs, vs, w + 1);
  }

  lemma ElevenBitsWritten(p: Page, fs: seq<Field>, vs: seq<bv16>, w: nat)
    requires WellPlaced(fs) && |vs| == |fs| && w < 8
    requires forall k :: 0 <= k < |fs| && fs[k].word == w ==> fs[k].mask & 0xF800 == 0
    ensures WordAt(WithFields(p, fs, vs), w)
            == (WordAt(p, w) & 0xF800) + GetBits(WordAt(WithFields(p, fs, vs), w), 0x07FF, 0)
  {
    hide WithFields, WordAt, GetBits, WellPlaced;
    ElevenBits(WordAt(WithFields(p, fs, vs), w));
    FieldsKeep(p, fs, vs, w, 0xF800);
  }

  lemma StepIsWritten(p: Page, vs: seq<bv16>)
    requires |vs| == 2
    ensures WellPlaced(Fields(StepConfig)) && Written(p, WithFields(p, Fields(StepConfig), vs), StepConfig, vs)
  {
    var fs := Fields(StepConfig);
    hide GetBits, WithFields, WellPlaced, WordAt;
    TableIsWellPlaced(StepConfig);
    FieldIs(p, fs, vs, 0, Field(1, 0x03FF, 0));
    FieldIs(p, fs, vs, 1, Field(1, 0x0400, 10));
    StepWord(WordAt(WithFields(p, fs, vs), 1));
    FieldsKeep(p, fs, vs, 1, 0xF800);
  }

  lemma WholeWordWritten(p: Page, fs: seq<Field>, vs: seq<bv16>, k: nat)
    requires WellPlaced(fs) && |vs| == |fs| && k < |fs| && fs[k].mask == 0xFFFF && fs[k].pos == 0
    ensures fs[k].Valid() && WordAt(WithFields(p, fs, vs), fs[k].word) == vs[k]
  {
    hide GetBits, WithFields, WordAt, WellPlaced;
    FieldIs(p, fs, vs, k, fs[k]);
    WholeWord(WordAt(WithFields(p, fs, vs), fs[k].word));
    WholeWord(vs[k]);
  }

  lemma ArmIsWritten(p: Page, fs: seq<Field>, vs: seq<bv16>)
    requires WellPlaced(fs) && |vs| == |fs| > 0 && fs[0] == Field(3, 0x0010, 4)
    requires forall k :: 1 <= k < |fs| ==> fs[k].word != 3
    ensures WordAt(WithFields(p, fs, vs), 3) == (WordAt(p, 3) & 0xFFEF) + 0x10 * (vs[0] & 1)
  {
    hide GetBits, WithFields, WellPlaced, WordAt;
    FieldIs(p, fs, vs, 0, Field(3, 0x0010, 4));
    ArmWord(WordAt(WithFields(p, fs, vs), 3));
    FieldsKeep(p, fs, vs, 3, 0xFFEF);
  }

  lemma WristGestureIsWritten(p: Page, vs: seq<bv16>)
    requires |vs| == 4
    ensures WellPlaced(Fields(WristGestureConfig))
    ensures Written(p, WithFields(p, Fields(WristGestureConfig), vs), WristGestureConfig, vs)
  {
    var fs := Fields(WristGestureConfig);
    hide GetBits, WithFields, WellPlaced, WordAt;
    TableIsWellPlaced(WristGestureConfig);
    ArmIsWritten(p, fs, vs);
    forall w | 4 <= w < 7 ensures WordAt(WithFields(p, fs, vs), w) == vs[w - 3] {
      WholeWordWritten(p, fs, vs, w - 3);
    }
  }

  lemma GainIsWritten(p: Page, vs: seq<bv16>)
    requires |vs| == 3
    ensures WellPlaced(Fields(GyroUserGainConfig))
    ensures Written(p, WithFields(p, Fields(GyroUserGainConfig), vs), GyroUserGainConfig, vs)
  {
    var fs := Fields(GyroUserGainConfig);
    hide GetBits, WithFields, WellPlaced, WordAt;
    TableIsWellPlaced(GyroUserGainConfig);
    forall w | 3 <= w < 6
      ensures WordAt(WithFields(p, fs, vs), w) == (WordAt(p, w) & 0xF800) + (vs[w - 3] & 0x07FF)
    {
      FieldIs(p, fs, vs, w - 3, Field(w, 0x07FF, 0));
      ElevenBitsWritten(p, fs, vs, w);
    }
  }

  lemma WholeWordsAreWritten(p: Page, c: Config, vs: seq<bv16>)
    requires (c.SigMotionConfig? || c.WristWearConfig?) && |vs| == |Fields(c)|
    ensures WellPlaced(Fields(c)) && Written(p, WithFields(p, Fields(c), vs), c, vs)
  {
    hide WithFields, WellPlaced, WordAt;
    TableIsWellPlaced(c);
    var fs := Fields(c);
    forall k | 0 <= k < |fs| ensures WordAt(WithFields(p, fs, vs), fs[0].word + k) == vs[k] {
      WholeWordWritten(p, fs, vs, k);
    }
  }

  /** Every configuration puts its values where the feature's input area has them. */
  lemma ConfigIsWritten(m: seq<Page>, c: Config, vs: seq<bv16>)
    requires Memory(m) && |vs| == |Fields(c)|
    ensures Written(m[ConfigPage(c)], WithConfig(m, c, vs)[ConfigPage(c)], c, vs)
  {
    var p := m[ConfigPage(c)];
    hide WithFields, MotionWritten, WordAt, WellPlaced;
    match c
    case AnyMotionConfig => MotionIsWritten(p, 6, vs);
    case NoMotionConfig => MotionIsWritten(p, 0, vs);
    case SigMotionConfig => WholeWordsAreWritten(p, c, vs);
    case WristWearConfig => WholeWordsAreWritten(p, c, vs);
    case StepConfig => StepIsWritten(p, vs);
    case WristGestureConfig => WristGestureIsWritten(p, vs);
    case GyroUserGainConfig => GainIsWritten(p, vs);
  }

  function Widened(mask: bv8, high: bool): bv16 {
    if high then (mask as bv16) << 8 else mask as bv16
  }

  /** Editing an enable bit, byte and word. */
  lemma EnableByte(f: Feature, b: bv8, on: bool)
    ensures var e, r := EnableBit(f), SetByteBits(b, EnableBit(f).mask, EnableBit(f).pos, if on then 1 else 0);
            (Inside(r, e.mask) != 0) == on && Outside(r, e.mask) == Outside(b, e.mask)
  {
  }

  lemma LowByteEdited(lo: bv8, hi: bv8, n: bv8, mask: bv8)
    requires Outside(n, mask) == Outside(lo, mask)
    ensures Part(Word(lo, hi), Rest(Widened(mask, false))) == Part(Word(n, hi), Rest(Widened(mask, false)))
  {
  }

  lemma HighByteEdited(lo: bv8, hi: bv8, n: bv8, mask: bv8)
    requires Outside(n, mask) == Outside(hi, mask)
    ensures Part(Word(lo, hi), Rest(Widened(mask, true))) == Part(Word(lo, n), Rest(Widened(mask, true)))
  {
  }

  lemma EnableMaskIs(f: Feature)
    ensures var b := EnableBit(f); EnableMask(f) == Widened(b.mask, b.byte % 2 != 0)
  {
  }

  lemma EnableByteInWord(f: Feature, lo: bv8, hi: bv8, on: bool)
    ensures var b, v := EnableBit(f), if on then 1 else 0;
            Part(Word(lo, hi), Rest(EnableMask(f)))
            == Part(if b.byte % 2 == 0 then Word(SetByteBits(lo, b.mask, b.pos, v), hi)
                    else Word(lo, SetByteBits(hi, b.mask, b.pos, v)), Rest(EnableMask(f)))
  {
    hide *;
    var b, v := EnableBit(f), if on then 1 else 0;
    EnableMaskIs(f);
    if b.byte % 2 == 0 {
      EnableByte(f, lo, on);
      LowByteEdited(lo, hi, SetByteBits(lo, b.mask, b.pos, v), b.mask);
    } else {
      EnableByte(f, hi, on);
      HighByteEdited(lo, hi, SetByteBits(hi, b.mask, b.pos, v), b.mask);
    }
  }

  lemma EnableWord(page: Page, f: Feature, on: bool)
    ensures var w := EnableBit(f).byte / 2;
            Part(WordAt(page, w), Rest(EnableMask(f))) == Part(WordAt(EnabledPage(page, f, on), w), Rest(EnableMask(f)))
  {
    hide EnableBit, EnableMask, SetByteBits, Word, Part, Rest;
    var b := EnableBit(f);
    var w, n := b.byte / 2, SetByteBits(page[b.byte], b.mask, b.pos, if on then 1 else 0);
    EnableByteInWord(f, page[2 * w], page[2 * w + 1], on);
  }

  lemma EnablePage(page: Page, f: Feature, on: bool, u: nat)
    requires u < 8
    ensures Part(WordAt(page, u), Rest(Cover(OfEnable(f), EnableBit(f).page, u)))
            == Part(WordAt(EnabledPage(page, f, on), u), Rest(Cover(OfEnable(f), EnableBit(f).page, u)))
  {
    hide EnableBit, EnableMask, SetByteBits, Word, Part, Rest;
    EnableWord(page, f, on);
    if u != EnableBit(f).byte / 2 {
      assert 2 * u != EnableBit(f).byte && 2 * u + 1 != EnableBit(f).byte;
    }
  }

  lemma EnabledPageSet(page: Page, f: Feature, on: bool)
    ensures (Inside(EnabledPage(page, f, on)[EnableBit(f).byte], EnableBit(f).mask) != 0) == on
  {
  }

  lemma EnableReadsBack(m: seq<Page>, f: Feature, on: bool)
    requires Memory(m)
    ensures EnableBitSet(WithEnable(m, f, on), f) == on
    ensures OnlyIn(OfEnable(f), m, WithEnable(m, f, on))
  {
    hide EnableBit, EnableMask, SetByteBits, WordAt, Part, Rest, Cover, EnabledPage;
    var b := EnableBit(f);
    EnabledPageSet(m[b.page], f, on);
    forall p, u | 0 <= p < PAGES && 0 <= u < 8
      ensures Part(WordAt(m[p], u), Rest(Cover(OfEnable(f), p, u)))
              == Part(WordAt(WithEnable(m, f, on)[p], u), Rest(Cover(OfEnable(f), p, u)))
    {
      if p == b.page {
        EnablePage(m[p], f, on, u);
      }
    }
  }

  // ---------- what a change in one place leaves alone ----------

  predicate Placed(o: Owner) {
    o.OfSteps? ==> o.start == 0
  }

  lemma PartOutside(v: bv16, w: bv16, a: bv16, b: bv16)
    requires Disjoint(a, b) && Part(v, Rest(a)) == Part(w, Rest(a))
    ensures Part(v, b) == Part(w, b)
  {
  }

  /** The bits of one owner survive whatever happens in another's. */
  lemma OthersKeep(a: seq<Page>, b: seq<Page>, o: Owner, o': Owner, p: nat, w: nat)
    requires Memory(a) && Memory(b) && OnlyIn(o, a, b) && o != o' && Placed(o) && Placed(o') && p < PAGES && w < 8
    ensures Part(WordAt(a[p], w), Cover(o', p, w)) == Part(WordAt(b[p], w), Cover(o', p, w))
  {
    hide Cover, WordAt, Part, Rest, Disjoint;
    OwnersApart(o, o', p, w);
    PartOutside(WordAt(a[p], w), WordAt(b[p], w), Cover(o, p, w), Cover(o', p, w));
  }

  lemma EnableBitIsInCover(m: seq<Page>, f: Feature)
    requires Memory(m)
    ensures var p, w := EnableBit(f).page, EnableBit(f).byte / 2;
            EnableBitSet(m, f) <==> Part(WordAt(m[p], w), Cover(OfEnable(f), p, w)) != 0
  {
  }

  /** An enable bit changes only where it is written. */
  lemma EnableBitKept(a: seq<Page>, b: seq<Page>, o: Owner, f: Feature)
    requires Memory(a) && Memory(b) && OnlyIn(o, a, b) && Placed(o) && o != OfEnable(f)
    ensures EnableBitSet(a, f) == EnableBitSet(b, f)
  {
    hide EnableBit, EnableBitSet, Cover, WordAt, Part, OnlyIn;
    var bit := EnableBit(f);
    OthersKeep(a, b, o, OfEnable(f), bit.page, bit.byte / 2);
    EnableBitIsInCover(a, f);
    EnableBitIsInCover(b, f);
  }

  lemma FieldWithin(v: bv16, w: bv16, m: bv16, f: Field)
    requires f.Valid() && Disjoint(f.mask, Rest(m)) && Part(v, m) == Part(w, m)
    ensures Part(v, f.mask) == Part(w, f.mask)
  {
  }

  /** So does a feature's configuration. */
  lemma ConfigKept(a: seq<Page>, b: seq<Page>, o: Owner, c: Config)
    requires Memory(a) && Memory(b) && OnlyIn(o, a, b) && Placed(o) && o != OfConfig(c)
    ensures ConfigOf(a, c) == ConfigOf(b, c)
  {
    hide Fields, Cover, WordAt, Part, Rest, Disjoint, GetField, ConfigPage, WellPlaced, OnlyIn;
    TableIsWellPlaced(c);
    FieldsAreValid(Fields(c));
    forall k | 0 <= k < |Fields(c)| ensures ConfigOf(a, c)[k] == ConfigOf(b, c)[k] {
      var f, p := Fields(c)[k], ConfigPage(c);
      OthersKeep(a, b, o, OfConfig(c), p, f.word);
      FieldsAreCovered(c, k);
      FieldWithin(WordAt(a[p], f.word), WordAt(b[p], f.word), Cover(OfConfig(c), p, f.word), f);
      SameWordSameField(a[p], b[p], f);
    }
  }

  lemma FieldsAreValid(fs: seq<Field>)
    requires WellPlaced(fs)
    ensures forall k :: 0 <= k < |fs| ==> fs[k].Valid()
  {
  }

  // ---------- the state after a page has been rewritten ----------

  /** Page `page` selected, and page memory `m`. */
  function Paged(s: State, page: bv8, m: seq<Page>): (r: State)
    requires s.Valid() && page < 8 && Memory(m)
    ensures r.Valid() && r.pages == m && r.init == s.init && r.bursts == s.bursts && r.Asleep() == s.Asleep()
    ensures r.touchedAsleep == (s.touchedAsleep || s.Asleep())
  {
    s.(regs := s.regs[FEAT_PAGE := page], pages := m, touchedAsleep := s.touchedAsleep || s.Asleep())
  }

  lemma PageWritten(s: State, page: bv8, feat: Page)
    requires s.Valid() && page < 8
    ensures page as nat < PAGES
    ensures Write(WithPage(s, page), FEATURES, feat) == Paged(s, page, s.pages[page as nat := feat])
  {
    PageNumber(page);
    var w := WithPage(s, page);
    assert Overlay(w.pages[page as nat], 0, feat) == feat;
  }

  lemma PageVisited(s: State, page: bv8)
    requires s.Valid() && page < 8
    ensures WithPage(s, page) == Paged(s, page, s.pages)
  {
  }

  lemma PagedTwice(s: State, page: bv8, m: seq<Page>, page': bv8, m': seq<Page>)
    requires s.Valid() && page < 8 && page' < 8 && Memory(m) && Memory(m')
    ensures Paged(Paged(s, page, m), page', m') == Paged(s, page', m')
  {
  }
}
