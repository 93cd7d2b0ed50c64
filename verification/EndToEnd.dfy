/** From the intervals before the layout to the sections and the bytes that are assembled from the output. */
module EndToEnd {
  import opened Common
  import opened Intervals
  import opened Packings
  import opened MergeTheorems
  import opened LayoutSpec
  import opened LayoutTheorems
  import opened Program
  import opened Events
  import opened Greedy
  import opened Bracketing
  import opened DataImage
  import opened LocationCounter
  import opened Placement
  import opened Pipeline

  // ---- sections ----

  /** The sections that the printer sees: one range of addresses for each section that was laid out. */
  function SectionView(names: seq<string>, r: Sections): (v: seq<SectionRange>)
    requires |names| == |r|
    ensures |v| == |r|
  {
    seq(|r|, m requires 0 <= m < |r| => SectionRange(names[m], SectionStart(r, m), SizeSum(r[m])))
  }

  /**
   The layout makes the sections disjoint, as the printer assumes, and each is the range of addresses
   around its intervals.
   */
  lemma LayoutSeparatesSections(ms: Sections, cfg: Cfg, names: seq<string>)
    requires SectionsFusable(ms, cfg) && LayoutModule(ms, cfg).ok && |names| == |ms|
    requires SizeSum(PlacedIntervals(ms, cfg)) <= ADDRESS_SPACE
    ensures var r := LayoutModule(ms, cfg).sections;
      var v := SectionView(names, r);
      && AllDisjoint(v)
      && forall m, k :: 0 <= m < |r| && 0 <= k < |r[m]| && r[m][k].size > 0 ==> IntervalIn(r[m][k], v[m])
  {
    var r := LayoutModule(ms, cfg).sections;
    var v := SectionView(names, r);
    LayoutTiles(ms, cfg);
    forall m, n | 0 <= m < n < |v|
      ensures Disjoint(v[m], v[n])
    {
      SectionEnd(r, m);
      SectionOrder(r, m + 1, n);
    }
    forall m, k | 0 <= m < |r| && 0 <= k < |r[m]| && r[m][k].size > 0
      ensures IntervalIn(r[m][k], v[m])
    {
      SectionIsContiguous(r, m, k);
      SectionEnd(r, m);
    }
  }

  predicate IntervalIn(iv: Interval, s: SectionRange) {
    iv.address.Some? && s.address <= iv.address.value && iv.address.value + iv.size <= s.address + s.size
  }

  lemma SectionsEndInSpace(ms: Sections, cfg: Cfg, names: seq<string>)
    requires LaidOut(ms, cfg) && |names| == |ms|
    ensures SectionsApart(SectionView(names, LayoutModule(ms, cfg).sections))
  {
    var r := LayoutModule(ms, cfg).sections;
    LayoutSeparatesSections(ms, cfg, names);
    forall m | 0 <= m < |r|
      ensures SectionStart(r, m) + SizeSum(r[m]) < ADDRESS_SPACE
    {
      SectionEnd(r, m);
    }
  }

  // ---- where a block comes from ----

  lemma {:induction false} FromCodeView(c: Contents, s: seq<Interval>, b: CodeBlock)
    requires b in CodeView(c, s)
    ensures exists n, k :: 0 <= n < |s| && 0 <= k < |s[n].code| && b == CodeBlockAt(c, Base(s[n]), s[n].code[k])
  {
    if b in CodeIn(c, s[0], Base(s[0])) {
      var k :| 0 <= k < |s[0].code| && CodeIn(c, s[0], Base(s[0]))[k] == b;
    } else {
      FromCodeView(c, s[1..], b);
      var t := s[1..];
      var n, k :| 0 <= n < |t| && 0 <= k < |t[n].code| && b == CodeBlockAt(c, Base(t[n]), t[n].code[k]);
      assert t[n] == s[n + 1];
    }
  }

  lemma {:induction false} FromDataView(s: seq<Interval>, d: DataBlock)
    requires d in DataView(s)
    ensures exists n, k :: 0 <= n < |s| && 0 <= k < |s[n].data| && d == DataBlockAt(s[n], Base(s[n]), s[n].data[k])
  {
    if d in DataIn(s[0], Base(s[0])) {
      var k :| 0 <= k < |s[0].data| && DataIn(s[0], Base(s[0]))[k] == d;
    } else {
      FromDataView(s[1..], d);
      var t := s[1..];
      var n, k :| 0 <= n < |t| && 0 <= k < |t[n].data| && d == DataBlockAt(t[n], Base(t[n]), t[n].data[k]);
      assert t[n] == s[n + 1];
    }
  }

  lemma {:induction false} InDataView(s: seq<Interval>, n: nat, k: nat)
    requires n < |s| && k < |s[n].data|
    ensures DataBlockAt(s[n], Base(s[n]), s[n].data[k]) in DataView(s)
    decreases n
  {
    if n == 0 {
      assert DataIn(s[0], Base(s[0]))[k] == DataBlockAt(s[0], Base(s[0]), s[0].data[k]);
    } else {
      InDataView(s[1..], n - 1, k);
    }
  }

  lemma {:induction false} FromMerge(code: seq<CodeBlock>, i: nat, data: seq<DataBlock>, k: nat, x: Item)
    requires i <= |code| && k <= |data| && x in MergeFrom(code, i, data, k)
    ensures match x case Code(b) => b in code case Data(d) => d in data
    decreases |code| - i + |data| - k
  {
    if i < |code| && (k == |data| || code[i].address <= data[k].address) {
      if x != Code(code[i]) {
        FromMerge(code, i + 1, data, k, x);
      }
    } else if x != Data(data[k]) {
      FromMerge(code, i, data, k + 1, x);
    }
  }

  lemma {:induction false} FromFlat(r: Sections, n: nat) returns (m: nat, k: nat)
    requires n < |Flat(r)|
    ensures m < |r| && k < |r[m]| && r[m][k] == Flat(r)[n]
  {
    if n < |r[0]| {
      m, k := 0, n;
    } else {
      m, k := FromFlat(r[1..], n - |r[0]|);
      m := m + 1;
    }
  }

  lemma {:induction false} InFlat(r: Sections, m: nat, k: nat) returns (n: nat)
    requires m < |r| && k < |r[m]|
    ensures n < |Flat(r)| && Flat(r)[n] == r[m][k]
    decreases m
  {
    if m == 0 {
      n := k;
    } else {
      var l := InFlat(r[1..], m - 1, k);
      n := |r[0]| + l;
    }
  }

  // ---- blocks lie in sections ----

  lemma BlockInSection(r: Sections, names: seq<string>, n: nat, p: Placed) returns (m: nat)
    requires |names| == |r| && Tiled(Flat(r)) && n < |Flat(r)| && p.size > 0 && p.End() <= Flat(r)[n].size
    ensures m < |r|
    ensures var s := SectionView(names, r)[m];
      s.address <= Base(Flat(r)[n]) + p.offset && Base(Flat(r)[n]) + p.End() <= s.address + s.size
  {
    var k;
    m, k := FromFlat(r, n);
    SectionIsContiguous(r, m, k);
    SectionEnd(r, m);
  }

  /** The items that the printer makes of a layout. */
  ghost function ItemsOf(ms: Sections, cfg: Cfg, order: seq<CodeBlock>): seq<Item>
    requires LaidOut(ms, cfg)
  {
    MergeItems(order, DataView(PlacedIntervals(ms, cfg)))
  }

  lemma CodeInSection(r: Sections, names: seq<string>, c: Contents, b: CodeBlock) returns (m: nat)
    requires |names| == |r| && Tiled(Flat(r)) && AllTidy(Flat(r)) && b in CodeView(c, Flat(r))
    ensures m < |r| && Contained(Code(b), SectionView(names, r)[m])
  {
    var s := Flat(r);
    FromCodeView(c, s, b);
    var n, k :| 0 <= n < |s| && 0 <= k < |s[n].code| && b == CodeBlockAt(c, Base(s[n]), s[n].code[k]);
    assert Tidy(s[n]);
    m := BlockInSection(r, names, n, s[n].code[k]);
  }

  lemma DataContained(iv: Interval, base: nat, p: Placed, s: SectionRange)
    requires Tidy(iv) && p.End() <= iv.size && p.size > 0
    requires s.address <= base + p.offset && base + p.End() <= s.address + s.size
    ensures Contained(Data(DataBlockAt(iv, base, p)), s)
  {
  }

  lemma DataInSection(r: Sections, names: seq<string>, d: DataBlock) returns (m: nat)
    requires |names| == |r| && Tiled(Flat(r)) && AllTidy(Flat(r)) && d in DataView(Flat(r))
    ensures m < |r| && Contained(Data(d), SectionView(names, r)[m])
  {
    var s := Flat(r);
    FromDataView(s, d);
    var n, k :| 0 <= n < |s| && 0 <= k < |s[n].data| && d == DataBlockAt(s[n], Base(s[n]), s[n].data[k]);
    assert Tidy(s[n]);
    m := BlockInSection(r, names, n, s[n].data[k]);
    DataContained(s[n], Base(s[n]), s[n].data[k], SectionView(names, r)[m]);
  }

  /** Every block lies inside one of the sections. */
  lemma ItemInSection(ms: Sections, cfg: Cfg, names: seq<string>, c: Contents, order: seq<CodeBlock>, x: Item)
      returns (m: nat)
    requires LaidOut(ms, cfg) && |names| == |ms|
    requires order == CodeView(c, PlacedIntervals(ms, cfg)) && x in ItemsOf(ms, cfg, order)
    ensures m < |ms| && Contained(x, SectionView(names, LayoutModule(ms, cfg).sections)[m])
  {
    LayoutTiles(ms, cfg);
    PlacementChains(ms, cfg, c);
    FromMerge(order, 0, DataView(PlacedIntervals(ms, cfg)), 0, x);
    match x
    case Code(b) => m := CodeInSection(LayoutModule(ms, cfg).sections, names, c, b);
    case Data(d) => m := DataInSection(LayoutModule(ms, cfg).sections, names, d);
  }

  /** The section around an item. */
  ghost function SectionFor(v: seq<SectionRange>, x: Item): SectionRange
    requires exists s :: s in v && Contained(x, s)
  {
    var s :| s in v && Contained(x, s);
    s
  }

  /** No empty section is in front of one that is not empty. */
  predicate NoneHidden(v: seq<SectionRange>) {
    forall s :: s in v && s.size > 0 ==> Visible(v, s)
  }

  /** The sections of a layout are where the printer looks for its items. */
  lemma ItemsAreHoused(ms: Sections, cfg: Cfg, names: seq<string>, c: Contents, order: seq<CodeBlock>)
      returns (at: seq<SectionRange>)
    requires LaidOut(ms, cfg) && |names| == |ms|
    requires SortedByAddress(order) && multiset(order) == multiset(CodeView(c, PlacedIntervals(ms, cfg)))
    requires NoneHidden(SectionView(names, LayoutModule(ms, cfg).sections))
    ensures Housed(SectionView(names, LayoutModule(ms, cfg).sections), ItemsOf(ms, cfg, order), at)
  {
    var v, items := SectionView(names, LayoutModule(ms, cfg).sections), ItemsOf(ms, cfg, order);
    SortedIsView(ms, cfg, c, order);
    ItemsAreSeparate(ms, cfg, c, order);
    SectionsEndInSpace(ms, cfg, names);
    forall k | 0 <= k < |items|
      ensures exists s :: s in v && Contained(items[k], s)
    {
      var m := ItemInSection(ms, cfg, names, c, order, items[k]);
      assert v[m] in v;
    }
    at := seq(|items|, k requires 0 <= k < |items| => SectionFor(v, items[k]));
  }

  lemma ItemsAreSeparate(ms: Sections, cfg: Cfg, c: Contents, order: seq<CodeBlock>)
    requires LaidOut(ms, cfg) && order == CodeView(c, PlacedIntervals(ms, cfg))
    ensures Separate(ItemsOf(ms, cfg, order))
  {
    var s := PlacedIntervals(ms, cfg);
    PlacementChains(ms, cfg, c);
    RunOfChains(order, DataView(s), SizeSum(s));
  }

  predicate StartsAt(items: seq<Item>, s: SectionRange) {
    exists i :: 0 <= i < |items| && items[i].Start() == s.address
  }

  /** Wherever a section that is not skipped has items, one of them is at its start. */
  predicate StartsCovered(j: Job, items: seq<Item>) {
    forall k, s :: 0 <= k < |items| && s in j.m.sections && !Skipped(j, s) && Contained(items[k], s) ==>
      StartsAt(items, s)
  }

  /** An item that is not at the start of its section has one of the same section before it. */
  lemma BesideOneBefore(v: seq<SectionRange>, items: seq<Item>, at: seq<SectionRange>, k: nat)
    requires Housed(v, items, at) && k < |items|
    requires items[k].Start() != at[k].address && StartsAt(items, at[k])
    ensures SameSection(at, k)
  {
    assert Contained(items[k], at[k]);
    var i :| 0 <= i < |items| && items[i].Start() == at[k].address;
    if k <= i {
      SeparateOrder(items, k, i);
    }
    SeparateOrder(items, i, k - 1);
    SeparateOrder(items, k - 1, k);
    assert Contained(items[k - 1], at[k - 1]);
    OneSection(v, at[k - 1], at[k], items[k - 1].Start());
  }

  /** A layout in which sections start with blocks meets the assumptions about sections. */
  lemma LayoutIsWellSectioned(ms: Sections, cfg: Cfg, names: seq<string>, c: Contents, j: Job, order: seq<CodeBlock>)
      returns (at: seq<SectionRange>)
    requires LaidOut(ms, cfg) && |names| == |ms|
    requires SortedByAddress(order) && multiset(order) == multiset(CodeView(c, PlacedIntervals(ms, cfg)))
    requires j.m.sections == SectionView(names, LayoutModule(ms, cfg).sections)
    requires NoneHidden(j.m.sections) && StartsCovered(j, ItemsOf(ms, cfg, order))
    ensures WellSectioned(j, ItemsOf(ms, cfg, order), at)
  {
    var items := ItemsOf(ms, cfg, order);
    at := ItemsAreHoused(ms, cfg, names, c, order);
    forall k | 0 <= k < |items|
      ensures Skipped(j, at[k]) || SameSection(at, k) || items[k].Start() == at[k].address
    {
      if !Skipped(j, at[k]) && items[k].Start() != at[k].address {
        assert Contained(items[k], at[k]);
        BesideOneBefore(j.m.sections, items, at, k);
      }
    }
  }

  /** What is printed after such a layout has its sections properly bracketed. */
  lemma LayoutIsBracketed(ms: Sections, cfg: Cfg, names: seq<string>, c: Contents, j: Job, dialect: Dialect,
      order: seq<CodeBlock>)
    requires LaidOut(ms, cfg) && |names| == |ms|
    requires SortedByAddress(order) && multiset(order) == multiset(CodeView(c, PlacedIntervals(ms, cfg)))
    requires j.m.sections == SectionView(names, LayoutModule(ms, cfg).sections)
    requires NoneHidden(j.m.sections) && StartsCovered(j, ItemsOf(ms, cfg, order))
    ensures var es := PrintEvents(j, dialect, ItemsOf(ms, cfg, order));
      RegionAfter(Outside, es) == Outside && NowhereBroken(es)
  {
    var at := LayoutIsWellSectioned(ms, cfg, names, c, j, order);
    SectionsAreBracketed(j, dialect, ItemsOf(ms, cfg, order), at);
  }

  // ---- data survives ----

  lemma TidyIsSound(s: seq<Interval>)
    requires AllTidy(s)
    ensures Sound(s)
  {
    forall k | 0 <= k < |s|
      ensures Filled(s[k]) && SymsInside(s[k])
    {
      assert Tidy(s[k]);
    }
  }

  /** The layout gives addresses to the merged intervals and changes nothing else. */
  lemma PlacedLikeMerged(ms: Sections, cfg: Cfg, m: nat, n: nat)
    requires LaidOut(ms, cfg) && m < |ms| && n < |FindAndMerge(ms[m], cfg).intervals|
    ensures var r := LayoutModule(ms, cfg).sections;
      n < |r[m]| && r[m][n].(address := None) == FindAndMerge(ms[m], cfg).intervals[n].(address := None)
  {
    LayoutMergesSections(ms, cfg, 0, m);
    var a :| LayoutModule(ms, cfg).sections[m] == SectionLayout(ms[m], cfg, a);
    SectionLayoutMerges(ms[m], cfg, a);
    SameButAddress(LayoutModule(ms, cfg).sections[m], FindAndMerge(ms[m], cfg).intervals, n);
  }

  /** The interval that holds the blocks of interval k of section m once it is laid out. */
  ghost function HomeInterval(ms: Sections, cfg: Cfg, m: nat, k: nat): Interval
    requires LaidOut(ms, cfg) && m < |ms| && k < |ms[m]|
  {
    var home := Homes(ms[m], cfg)[k];
    PlacedLikeMerged(ms, cfg, m, home.index);
    LayoutModule(ms, cfg).sections[m][home.index]
  }

  /** The address that the layout gives to block p of interval k of section m. */
  ghost function BlockAddress(ms: Sections, cfg: Cfg, m: nat, k: nat, p: Placed): nat
    requires LaidOut(ms, cfg) && m < |ms| && k < |ms[m]|
  {
    Base(HomeInterval(ms, cfg, m, k)) + (Homes(ms[m], cfg)[k].base + p.offset)
  }

  /** Where the layout leaves the data block p of interval k of section m. */
  lemma BlockMoves(ms: Sections, cfg: Cfg, m: nat, k: nat, p: Placed) returns (base: nat, l: nat)
    requires LaidOut(ms, cfg) && m < |ms| && k < |ms[m]| && p in ms[m][k].data
    ensures base == Homes(ms[m], cfg)[k].base && p.End() <= ms[m][k].size
    ensures l < |HomeInterval(ms, cfg, m, k).data| && HomeInterval(ms, cfg, m, k).data[l] == p.Shift(base)
    ensures BytesOf(HomeInterval(ms, cfg, m, k), p.Shift(base)) == BytesOf(ms[m][k], p)
  {
    assert Tidy(ms[m][k]);
    TidyIsSound(ms[m]);
    MergeConservesBlocks(ms[m], cfg, k, p, p);
    var home := Homes(ms[m], cfg)[k];
    base := home.base;
    var z := FindAndMerge(ms[m], cfg).intervals[home.index];
    PlacedLikeMerged(ms, cfg, m, home.index);
    l :| 0 <= l < |z.data| && z.data[l] == p.Shift(base);
  }

  /** After the layout the data block p of interval k of section m is seen at its address, with the same bytes. */
  lemma DataSurvivesLayout(ms: Sections, cfg: Cfg, m: nat, k: nat, p: Placed) returns (d: DataBlock)
    requires LaidOut(ms, cfg)
    requires m < |ms| && k < |ms[m]| && p in ms[m][k].data
    ensures p.End() <= ms[m][k].size
    ensures d in DataView(PlacedIntervals(ms, cfg)) && d.id == p.block && d.bytes == BytesOf(ms[m][k], p)
    ensures d.address == BlockAddress(ms, cfg, m, k, p)
  {
    var r, iv := LayoutModule(ms, cfg).sections, HomeInterval(ms, cfg, m, k);
    var base, l := BlockMoves(ms, cfg, m, k, p);
    PlacedLikeMerged(ms, cfg, m, Homes(ms[m], cfg)[k].index);
    LayoutStaysTidy(ms, cfg);
    var n := InFlat(r, m, Homes(ms[m], cfg)[k].index);
    InDataView(Flat(r), n, l);
    d := DataBlockAt(iv, Base(iv), p.Shift(base));
  }

  lemma {:induction false} InCodeView(c: Contents, s: seq<Interval>, n: nat, k: nat)
    requires n < |s| && k < |s[n].code|
    ensures CodeBlockAt(c, Base(s[n]), s[n].code[k]) in CodeView(c, s)
    decreases n
  {
    if n == 0 {
      assert CodeIn(c, s[0], Base(s[0]))[k] == CodeBlockAt(c, Base(s[0]), s[0].code[k]);
    } else {
      InCodeView(c, s[1..], n - 1, k);
    }
  }

  /** Where the layout leaves the code block p of interval k of section m. */
  lemma CodeMoves(ms: Sections, cfg: Cfg, m: nat, k: nat, p: Placed) returns (base: nat, l: nat)
    requires LaidOut(ms, cfg) && m < |ms| && k < |ms[m]| && p in ms[m][k].code
    ensures base == Homes(ms[m], cfg)[k].base && p.End() <= ms[m][k].size
    ensures l < |HomeInterval(ms, cfg, m, k).code| && HomeInterval(ms, cfg, m, k).code[l] == p.Shift(base)
    ensures BytesOf(HomeInterval(ms, cfg, m, k), p.Shift(base)) == BytesOf(ms[m][k], p)
  {
    assert Tidy(ms[m][k]);
    TidyIsSound(ms[m]);
    MergeConservesBlocks(ms[m], cfg, k, p, p);
    var home := Homes(ms[m], cfg)[k];
    base := home.base;
    var z := FindAndMerge(ms[m], cfg).intervals[home.index];
    PlacedLikeMerged(ms, cfg, m, home.index);
    l :| 0 <= l < |z.code| && z.code[l] == p.Shift(base);
  }

  /** After the layout the code block p of interval k of section m is seen at its address, with its instructions. */
  lemma CodeSurvivesLayout(ms: Sections, cfg: Cfg, c: Contents, m: nat, k: nat, p: Placed) returns (b: CodeBlock)
    requires LaidOut(ms, cfg)
    requires m < |ms| && k < |ms[m]| && p in ms[m][k].code
    ensures b in CodeView(c, PlacedIntervals(ms, cfg)) && b.address == BlockAddress(ms, cfg, m, k, p)
    ensures b.id == p.block && b.size == p.size && b.owner == c.owner
    ensures b.insns == if p.block in c.insns then c.insns[p.block] else []
  {
    var r, iv := LayoutModule(ms, cfg).sections, HomeInterval(ms, cfg, m, k);
    var base, l := CodeMoves(ms, cfg, m, k, p);
    PlacedLikeMerged(ms, cfg, m, Homes(ms[m], cfg)[k].index);
    LayoutStaysTidy(ms, cfg);
    var n := InFlat(r, m, Homes(ms[m], cfg)[k].index);
    InCodeView(c, Flat(r), n, l);
    b := CodeBlockAt(c, Base(iv), p.Shift(base));
  }

  /** The address of a block lies in the section of the block. */
  lemma BlockInItsSection(ms: Sections, cfg: Cfg, names: seq<string>, m: nat, k: nat, p: Placed)
    requires LaidOut(ms, cfg) && |names| == |ms| && m < |ms| && k < |ms[m]| && p in ms[m][k].data
    ensures var s, a := SectionView(names, LayoutModule(ms, cfg).sections)[m], BlockAddress(ms, cfg, m, k, p);
      p.size > 0 && s.address <= a && a + p.size <= s.address + s.size
  {
    assert Tidy(ms[m][k]);
    TidyIsSound(ms[m]);
    MergeConservesBlocks(ms[m], cfg, k, p, p);
    PlacedLikeMerged(ms, cfg, m, Homes(ms[m], cfg)[k].index);
    LayoutSeparatesSections(ms, cfg, names);
    assert IntervalIn(LayoutModule(ms, cfg).sections[m][Homes(ms[m], cfg)[k].index],
      SectionView(names, LayoutModule(ms, cfg).sections)[m]);
  }

  lemma {:induction false} FromDataOf(items: seq<Item>, d: DataBlock) returns (n: nat)
    requires d in DataOf(items)
    ensures n < |items| && items[n] == Data(d)
  {
    if items[0] == Data(d) {
      n := 0;
    } else {
      n := FromDataOf(items[1..], d);
      n := n + 1;
    }
  }

  lemma DataItemIsAssembled(j: Job, dialect: Dialect, items: seq<Item>, at: seq<SectionRange>, d: DataBlock,
      s: SectionRange)
      returns (before: seq<Event>, content: seq<Event>, after: seq<Event>)
    requires Housed(j.m.sections, items, at) && DistinctNames(j.m.sections) && dialect != A64Syntax
    requires d in DataOf(items) && s in j.m.sections && Contained(Data(d), s)
    requires Contiguous(j, dialect, items, s) && d.address !in j.m.symexprs
    ensures PrintEvents(j, dialect, items) == before + content + after
    ensures Reached(j, dialect, s, before, d.address)
    ensures Image(Some([]), content) == Some(d.bytes)
  {
    var n := FromDataOf(items, d);
    ContainedOnce(j, items, at, s, n);
    before, content, after := DataIsAssembled(j, dialect, items, at, n);
  }

  /** The block is among the items that the printer visits, in the section of its own. */
  lemma DataInRun(ms: Sections, cfg: Cfg, names: seq<string>, order: seq<CodeBlock>, m: nat, k: nat, p: Placed)
      returns (d: DataBlock)
    requires LaidOut(ms, cfg) && |names| == |ms| && m < |ms| && k < |ms[m]| && p in ms[m][k].data
    ensures p.End() <= ms[m][k].size
    ensures d in DataOf(ItemsOf(ms, cfg, order)) && d.bytes == BytesOf(ms[m][k], p)
    ensures d.address == BlockAddress(ms, cfg, m, k, p)
    ensures Contained(Data(d), SectionView(names, LayoutModule(ms, cfg).sections)[m])
  {
    d := DataSurvivesLayout(ms, cfg, m, k, p);
    BlockInItsSection(ms, cfg, names, m, k, p);
    MergeKeeps(order, 0, DataView(PlacedIntervals(ms, cfg)), 0);
  }

  /**
   The whole way, on x86: if the section of a data block is printed without gaps, the bytes the block
   had before the layout are assembled from the output, at the place in its section that the layout
   gave to the block. The block must not be symbolic; nothing is asked of other sections.
   */
  lemma DataSurvivesEverything(ms: Sections, cfg: Cfg, names: seq<string>, c: Contents, j: Job, dialect: Dialect,
      order: seq<CodeBlock>, m: nat, k: nat, p: Placed)
      returns (before: seq<Event>, content: seq<Event>, after: seq<Event>)
    requires LaidOut(ms, cfg) && |names| == |ms|
    requires SortedByAddress(order) && multiset(order) == multiset(CodeView(c, PlacedIntervals(ms, cfg)))
    requires j.m.sections == SectionView(names, LayoutModule(ms, cfg).sections)
    requires NoneHidden(j.m.sections) && DistinctNames(j.m.sections) && dialect != A64Syntax
    requires m < |ms| && k < |ms[m]| && p in ms[m][k].data
    requires Contiguous(j, dialect, ItemsOf(ms, cfg, order), j.m.sections[m])
    requires BlockAddress(ms, cfg, m, k, p) !in j.m.symexprs
    ensures p.End() <= ms[m][k].size
    ensures PrintEvents(j, dialect, ItemsOf(ms, cfg, order)) == before + content + after
    ensures Reached(j, dialect, j.m.sections[m], before, BlockAddress(ms, cfg, m, k, p))
    ensures Image(Some([]), content) == Some(BytesOf(ms[m][k], p))
  {
    var at := ItemsAreHoused(ms, cfg, names, c, order);
    var d := DataInRun(ms, cfg, names, order, m, k, p);
    before, content, after :=
      DataItemIsAssembled(j, dialect, ItemsOf(ms, cfg, order), at, d, j.m.sections[m]);
  }
}
