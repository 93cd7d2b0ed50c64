/** Layout, then print: what the layout engine guarantees is what the printer needs. */
module Pipeline {
  import opened Common
  import opened Intervals
  import opened Packings
  import opened MergeTheorems
  import opened LayoutSpec
  import opened LayoutTheorems
  import opened Program
  import opened Events
  import opened Greedy
  import Labels
  import opened Lines
  import opened References
  import opened Bracketing

  // ---- the module that the printer sees ----

  /** What the layout does not know of code blocks: their module and their instructions. */
  datatype Contents = Contents(owner: Identifier, insns: map<Identifier, seq<Insn>>)

  function CodeBlockAt(c: Contents, base: nat, p: Placed): CodeBlock {
    CodeBlock(p.block, c.owner, base + p.offset, p.size, if p.block in c.insns then c.insns[p.block] else [])
  }

  function DataBlockAt(iv: Interval, base: nat, p: Placed): DataBlock {
    DataBlock(p.block, base + p.offset, BytesOf(iv, p))
  }

  /** The code blocks of an interval, which starts at address base. */
  function CodeIn(c: Contents, iv: Interval, base: nat): (r: seq<CodeBlock>)
    ensures |r| == |iv.code|
  {
    seq(|iv.code|, k requires 0 <= k < |iv.code| => CodeBlockAt(c, base, iv.code[k]))
  }

  function DataIn(iv: Interval, base: nat): (r: seq<DataBlock>)
    ensures |r| == |iv.data|
  {
    seq(|iv.data|, k requires 0 <= k < |iv.data| => DataBlockAt(iv, base, iv.data[k]))
  }

  function Base(iv: Interval): nat {
    if iv.address.Some? then iv.address.value else 0
  }

  function CodeView(c: Contents, s: seq<Interval>): seq<CodeBlock> {
    if s == [] then [] else CodeIn(c, s[0], Base(s[0])) + CodeView(c, s[1..])
  }

  function DataView(s: seq<Interval>): seq<DataBlock> {
    if s == [] then [] else DataIn(s[0], Base(s[0])) + DataView(s[1..])
  }

  // ---- blocks one after the other ----

  predicate CodeChain(code: seq<CodeBlock>, lo: nat, hi: nat) {
    && (forall k :: 0 <= k < |code| ==>
          code[k].size > 0 && lo <= code[k].address && code[k].address + code[k].size <= hi)
    && (forall k, l :: 0 <= k < l < |code| ==> code[k].address + code[k].size <= code[l].address)
  }

  predicate DataChain(data: seq<DataBlock>, lo: nat, hi: nat) {
    && (forall k :: 0 <= k < |data| ==>
          data[k].bytes != [] && lo <= data[k].address && data[k].address + |data[k].bytes| <= hi)
    && (forall k, l :: 0 <= k < l < |data| ==> data[k].address + |data[k].bytes| <= data[l].address)
  }

  predicate Across(code: seq<CodeBlock>, data: seq<DataBlock>) {
    forall k, l :: 0 <= k < |code| && 0 <= l < |data| ==>
      code[k].address + code[k].size <= data[l].address || data[l].address + |data[l].bytes| <= code[k].address
  }

  lemma IntervalChains(c: Contents, iv: Interval, base: nat)
    requires Tidy(iv)
    ensures CodeChain(CodeIn(c, iv, base), base, base + iv.size)
    ensures DataChain(DataIn(iv, base), base, base + iv.size)
    ensures Across(CodeIn(c, iv, base), DataIn(iv, base))
  {
    var code, data := CodeIn(c, iv, base), DataIn(iv, base);
    forall k | 0 <= k < |data|
      ensures data[k].address == base + iv.data[k].offset && |data[k].bytes| == iv.data[k].size
    {
    }
  }

  lemma ChainsConcat(code: seq<CodeBlock>, data: seq<DataBlock>, code': seq<CodeBlock>, data': seq<DataBlock>,
      lo: nat, mid: nat, hi: nat)
    requires CodeChain(code, lo, mid) && DataChain(data, lo, mid) && Across(code, data)
    requires CodeChain(code', mid, hi) && DataChain(data', mid, hi) && Across(code', data')
    requires lo <= mid <= hi
    ensures CodeChain(code + code', lo, hi) && DataChain(data + data', lo, hi) && Across(code + code', data + data')
  {
  }

  /** Intervals placed end to end have all their blocks one after the other. */
  lemma {:induction false} ViewChains(c: Contents, s: seq<Interval>, a: nat)
    requires AllTidy(s) && s == AssignFrom(s, a) && a + SizeSum(s) < ADDRESS_SPACE
    ensures CodeChain(CodeView(c, s), a, a + SizeSum(s)) && DataChain(DataView(s), a, a + SizeSum(s))
    ensures Across(CodeView(c, s), DataView(s))
    decreases |s|
  {
    if s != [] {
      var mid := a + s[0].size;
      assert s[0].address == Some(a) && s[1..] == AssignFrom(s[1..], mid);
      IntervalChains(c, s[0], a);
      ViewChains(c, s[1..], mid);
      ChainsConcat(CodeIn(c, s[0], a), DataIn(s[0], a), CodeView(c, s[1..]), DataView(s[1..]), a, mid, a + SizeSum(s));
    }
  }

  // ---- the merge of blocks one after the other ----

  lemma {:induction false} MergeSeparates(code: seq<CodeBlock>, i: nat, data: seq<DataBlock>, k: nat,
      lo: nat, hi: nat, from: nat)
    requires i <= |code| && k <= |data|
    requires CodeChain(code, lo, hi) && DataChain(data, lo, hi) && Across(code, data)
    requires i < |code| ==> from <= code[i].address
    requires k < |data| ==> from <= data[k].address
    ensures var items := MergeFrom(code, i, data, k);
      && Separate(items) && (items != [] ==> from <= items[0].Start())
      && forall x :: x in items ==> x.Size() > 0 && End(x) <= hi
    decreases |code| - i + |data| - k
  {
    if i < |code| && (k == |data| || code[i].address <= data[k].address) {
      MergeSeparates(code, i + 1, data, k, lo, hi, code[i].address + code[i].size);
    } else if k < |data| {
      MergeSeparates(code, i, data, k + 1, lo, hi, data[k].address + |data[k].bytes|);
    }
  }

  // ---- sorting ----

  predicate Strict(code: seq<CodeBlock>) {
    forall k, l :: 0 <= k < l < |code| ==> code[k].address < code[l].address
  }

  lemma SameLength<T>(a: seq<T>, b: seq<T>)
    requires multiset(a) == multiset(b)
    ensures |a| == |b|
  {
    assert |multiset(a)| == |a| && |multiset(b)| == |b|;
  }

  lemma SameWithoutLast<T>(a: seq<T>, b: seq<T>, n: nat)
    requires multiset(a) == multiset(b) && |a| == |b| == n + 1 && a[n] == b[n]
    ensures multiset(a[..n]) == multiset(b[..n])
  {
    assert a == a[..n] + [a[n]] && b == b[..n] + [b[n]];
    assert multiset(a[..n]) == multiset(a) - multiset{a[n]};
    assert multiset(b[..n]) == multiset(b) - multiset{b[n]};
  }

  lemma SameLast(a: seq<CodeBlock>, b: seq<CodeBlock>, n: nat)
    requires SortedByAddress(a) && Strict(b) && multiset(a) == multiset(b) && |a| == |b| == n + 1
    ensures a[n] == b[n]
  {
    assert a[n] in multiset(b) && b[n] in multiset(a);
    var k :| 0 <= k < |b| && b[k] == a[n];
    var l :| 0 <= l < |a| && a[l] == b[n];
    assert a[l].address <= a[n].address;
  }

  /** There is one way to sort blocks at different addresses. */
  lemma {:induction false} SortedOneWay(a: seq<CodeBlock>, b: seq<CodeBlock>)
    requires SortedByAddress(a) && Strict(b) && multiset(a) == multiset(b)
    ensures a == b
    decreases |b|
  {
    SameLength(a, b);
    if b != [] {
      var n := |b| - 1;
      SameLast(a, b, n);
      SameWithoutLast(a, b, n);
      SortedOneWay(a[..n], b[..n]);
      assert a == a[..n] + [a[n]] && b == b[..n] + [b[n]];
    }
  }

  // ---- what the layout leaves ----

  lemma TidyElsewhere(s: seq<Interval>, r: seq<Interval>)
    requires AllTidy(s) && EraseAll(r) == EraseAll(s)
    ensures AllTidy(r)
  {
    forall k | 0 <= k < |r|
      ensures Tidy(r[k])
    {
      assert |EraseAll(r)| == |EraseAll(s)|;
      assert Tidy(s[k]);
      SameButAddress(r, s, k);
    }
  }

  predicate ModuleTidy(ms: Sections) {
    forall m :: 0 <= m < |ms| ==> AllTidy(ms[m])
  }

  lemma LayoutStaysTidy(ms: Sections, cfg: Cfg)
    requires ModuleTidy(ms) && SectionsFusable(ms, cfg) && LayoutModule(ms, cfg).ok
    ensures ModuleTidy(LayoutModule(ms, cfg).sections)
  {
    var r := LayoutModule(ms, cfg).sections;
    forall m | 0 <= m < |r|
      ensures AllTidy(r[m])
    {
      LayoutMergesSections(ms, cfg, 0, m);
      var a :| r[m] == SectionLayout(ms[m], cfg, a);
      SectionLayoutMerges(ms[m], cfg, a);
      MergeStaysTidy(ms[m], cfg);
      TidyElsewhere(FindAndMerge(ms[m], cfg).intervals, r[m]);
    }
  }

  lemma {:induction false} FlatIsTidy(ms: Sections)
    requires ModuleTidy(ms)
    ensures AllTidy(Flat(ms))
  {
    if ms != [] {
      assert AllTidy(ms[0]);
      assert ModuleTidy(ms[1..]);
      FlatIsTidy(ms[1..]);
    }
  }

  /** A successful layout of tidy intervals that leaves room at the top of the address space. */
  ghost predicate LaidOut(ms: Sections, cfg: Cfg) {
    && ModuleTidy(ms) && SectionsFusable(ms, cfg) && LayoutModule(ms, cfg).ok
    && SizeSum(Flat(LayoutModule(ms, cfg).sections)) < ADDRESS_SPACE
  }

  ghost function PlacedIntervals(ms: Sections, cfg: Cfg): seq<Interval>
    requires SectionsFusable(ms, cfg)
  {
    Flat(LayoutModule(ms, cfg).sections)
  }

  lemma PlacementChains(ms: Sections, cfg: Cfg, c: Contents)
    requires LaidOut(ms, cfg)
    ensures var s := PlacedIntervals(ms, cfg);
      AllTidy(s) && CodeChain(CodeView(c, s), 0, SizeSum(s)) && DataChain(DataView(s), 0, SizeSum(s)) &&
      Across(CodeView(c, s), DataView(s))
  {
    LayoutStaysTidy(ms, cfg);
    FlatIsTidy(LayoutModule(ms, cfg).sections);
    LayoutIsOnePlacement(ms, cfg, 0);
    ViewChains(c, PlacedIntervals(ms, cfg), 0);
  }

  // ---- the run ----

  lemma SortedIsView(ms: Sections, cfg: Cfg, c: Contents, order: seq<CodeBlock>)
    requires LaidOut(ms, cfg)
    requires SortedByAddress(order) && multiset(order) == multiset(CodeView(c, PlacedIntervals(ms, cfg)))
    ensures order == CodeView(c, PlacedIntervals(ms, cfg))
  {
    PlacementChains(ms, cfg, c);
    SortedOneWay(order, CodeView(c, PlacedIntervals(ms, cfg)));
  }

  lemma StepHasNoWarning(j: Job, items: seq<Item>, k: nat)
    requires k < |items| && IsPrinted(items, k)
    ensures forall e :: e in Steps(j, items)[k] ==> !e.Warning?
  {
    LeadThenItem(j, items, k);
    ItemIsInner(j, items[k]);
    LeadHasNoWarning(j, items, k);
    forall e | e in Steps(j, items)[k]
      ensures !e.Warning?
    {
      assert e in Lead(j, items, k) || Inner(j.m, e);
    }
  }

  lemma LeadHasNoWarning(j: Job, items: seq<Item>, k: nat)
    requires k < |items|
    ensures forall e :: e in Lead(j, items, k) ==> !e.Warning?
  {
  }

  lemma {:induction false} ConcatHasNoWarning(parts: seq<seq<Event>>, n: nat)
    requires n <= |parts| && forall k :: 0 <= k < |parts| ==> NoWarning(parts[k])
    ensures NoWarning(Concat(parts, n))
  {
    if n > 0 {
      ConcatHasNoWarning(parts, n - 1);
    }
  }

  lemma RunHasNoWarning(j: Job, dialect: Dialect, items: seq<Item>)
    requires NoOverlap(items)
    ensures NoWarning(PrintEvents(j, dialect, items))
  {
    var parts, end := Steps(j, items), EndEvents(j, Cursor(items, |items|));
    forall k | 0 <= k < |parts|
      ensures NoWarning(parts[k])
    {
      assert IsPrinted(items, k);
      StepHasNoWarning(j, items, k);
    }
    ConcatHasNoWarning(parts, |items|);
    PrologueHasNoWarning(j, dialect);
  }

  lemma PrologueHasNoWarning(j: Job, dialect: Dialect)
    ensures NoWarning(PrologueEvents(dialect))
  {
    Labels.PrologueIsPlain(dialect);
    PlainIsInner(j.m, PrologueEvents(dialect));
  }

  lemma {:induction false} SeparateInOrder(items: seq<Item>, k: nat, l: nat)
    requires Separate(items) && k < l < |items| && forall x :: x in items ==> x.Size() > 0
    ensures items[k].Start() < items[l].Start()
    decreases l
  {
    assert items[l - 1] in items;
    if k < l - 1 {
      SeparateInOrder(items, k, l - 1);
    }
  }

  /** All items are visited, at increasing addresses. */
  predicate StrictlyAscending(items: seq<Item>) {
    forall k, l :: 0 <= k < l < |items| ==> items[k].Start() < items[l].Start()
  }

  lemma RunOfChains(code: seq<CodeBlock>, data: seq<DataBlock>, hi: nat)
    requires CodeChain(code, 0, hi) && DataChain(data, 0, hi) && Across(code, data) && hi < ADDRESS_SPACE
    ensures var items := MergeItems(code, data);
      StrictlyAscending(items) && Separate(items) && EndsInSpace(items) && NoOverlap(items)
  {
    var items := MergeItems(code, data);
    MergeSeparates(code, 0, data, 0, 0, hi, 0);
    forall k, l | 0 <= k < l < |items|
      ensures items[k].Start() < items[l].Start()
    {
      SeparateInOrder(items, k, l);
    }
    forall k | 0 <= k < |items|
      ensures IsPrinted(items, k)
    {
      assert items[k] in items;
      CursorOfSeparate(items, k);
    }
  }

  /**
   After a successful layout every code block and every data block is visited exactly once, in
   strictly increasing address order, all of them are printed, and there is no overlap warning.
   */
  lemma LayoutThenPrint(ms: Sections, cfg: Cfg, c: Contents, j: Job, dialect: Dialect, order: seq<CodeBlock>)
    requires LaidOut(ms, cfg)
    requires SortedByAddress(order) && multiset(order) == multiset(CodeView(c, PlacedIntervals(ms, cfg)))
    ensures var data := DataView(PlacedIntervals(ms, cfg));
      var items := MergeItems(order, data);
      && CodeOf(items) == order && DataOf(items) == data
      && StrictlyAscending(items) && Separate(items) && EndsInSpace(items) && NoOverlap(items)
      && NoWarning(PrintEvents(j, dialect, items))
  {
    var s := PlacedIntervals(ms, cfg);
    PlacementChains(ms, cfg, c);
    SortedIsView(ms, cfg, c, order);
    MergeKeeps(order, 0, DataView(s), 0);
    RunOfChains(order, DataView(s), SizeSum(s));
    RunHasNoWarning(j, dialect, MergeItems(order, DataView(s)));
  }
}
