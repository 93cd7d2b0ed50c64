/** Where labels appear in a run: at strictly increasing addresses. */
module Labels {
  import opened Common
  import opened Numerals
  import opened Program
  import opened Events
  import opened Greedy

  /** The label groups of the events are at strictly increasing addresses from lo up to hi. */
  predicate LabelsAscend(es: seq<Event>, lo: nat, hi: nat) {
    && (forall p :: 0 <= p < |es| && es[p].Labels? ==> lo <= es[p].ea < hi)
    && (forall p, q :: 0 <= p < q < |es| && es[p].Labels? && es[q].Labels? ==> es[p].ea < es[q].ea)
  }

  predicate NoLabels(es: seq<Event>) {
    forall p :: 0 <= p < |es| ==> !es[p].Labels?
  }

  /** Neither labels, nor section brackets, nor warnings. */
  predicate OfFunctionHeader(e: Event) {
    e.Global? || e.TypeFunction? || e.FunctionLabel?
  }

  predicate Plain(es: seq<Event>) {
    && NoLabels(es)
    && forall p :: 0 <= p < |es| ==>
         !OfFunctionHeader(es[p]) && !es[p].SectionHeader? && !es[p].SectionFooter? && !es[p].Warning?
  }

  lemma AscendConcat(a: seq<Event>, b: seq<Event>, lo: nat, mid: nat, hi: nat)
    requires LabelsAscend(a, lo, mid) && LabelsAscend(b, mid, hi) && lo <= mid <= hi
    ensures LabelsAscend(a + b, lo, hi)
  {
  }

  /** Each part ascends between its two positions. */
  predicate PartsAscend(parts: seq<seq<Event>>, at: seq<nat>) {
    && |at| == |parts| + 1
    && forall k :: 0 <= k < |parts| ==> at[k] <= at[k + 1] && LabelsAscend(parts[k], at[k], at[k + 1])
  }

  lemma {:induction false} ConcatAscends(parts: seq<seq<Event>>, at: seq<nat>, n: nat)
    requires PartsAscend(parts, at) && n <= |parts|
    ensures at[0] <= at[n] && LabelsAscend(Concat(parts, n), at[0], at[n])
  {
    if n > 0 {
      ConcatAscends(parts, at, n - 1);
      AscendConcat(Concat(parts, n - 1), parts[n - 1], at[0], at[n - 1], at[n]);
    }
  }

  lemma PlainConcat(a: seq<Event>, b: seq<Event>)
    requires Plain(a) && Plain(b)
    ensures Plain(a + b)
  {
  }

  lemma NoLabelsAround(a: seq<Event>, b: seq<Event>, c: seq<Event>, lo: nat, hi: nat)
    requires NoLabels(a) && LabelsAscend(b, lo, hi) && NoLabels(c) && lo <= hi
    ensures LabelsAscend(a + b, lo, hi) && LabelsAscend(b + c, lo, hi)
  {
  }

  // ---- events without labels ----

  lemma {:induction false} CommentsArePlain(comments: seq<(Offset, string)>, element: Identifier, from: nat, to: nat)
    ensures Plain(CommentsIn(comments, element, from, to))
    ensures forall e :: e in CommentsIn(comments, element, from, to) ==> e.Comment?
  {
    if comments != [] {
      CommentsArePlain(comments[1..], element, from, to);
    }
  }

  lemma {:induction false} CfiLinesArePlain(j: Job, o: Offset, ds: seq<CfiDirective>)
    ensures Plain(CfiLines(j, o, ds))
    ensures forall e :: e in CfiLines(j, o, ds) ==> e.Cfi?
  {
    if ds != [] {
      CfiLinesArePlain(j, o, ds[..|ds| - 1]);
    }
  }

  lemma CfiIsPlain(j: Job, o: Offset)
    ensures Plain(CfiEvents(j, o))
    ensures forall e :: e in CfiEvents(j, o) ==> e.Cfi?
  {
    if j.m.cfi.Some? && o in j.m.cfi.value {
      CfiLinesArePlain(j, o, j.m.cfi.value[o]);
    }
  }

  lemma {:induction false} NopsArePlain(j: Job, ea: nat, n: nat)
    ensures Plain(NopEvents(j, ea, n))
    ensures forall e :: e in NopEvents(j, ea, n) ==> e.AddressNote? || e.Nop?
  {
    if n > 0 {
      NopsArePlain(j, ea, n - 1);
      PlainConcat(NopEvents(j, ea, n - 1), NopLine(j, Wrap(ea + n - 1)));
    }
  }

  lemma BodyIsPlain(j: Job, insn: Insn, ea: nat)
    ensures Plain(BodyEvents(j, insn, ea))
    ensures forall e :: e in BodyEvents(j, insn, ea) ==> !e.Comment? && !e.Cfi? && !e.SymbolicData?
  {
    NopsArePlain(j, ea, if insn.size == 0 then 1 else insn.size);
  }

  lemma CommentEventsArePlain(j: Job, element: Identifier, from: nat, range: nat)
    ensures Plain(CommentEvents(j, element, from, range))
    ensures forall e :: e in CommentEvents(j, element, from, range) ==> e.Comment?
  {
    CommentsArePlain(j.m.comments, element, from, from + range);
  }

  lemma {:induction false} BytesArePlain(bytes: seq<Byte>)
    ensures Plain(ByteEvents(bytes))
    ensures forall e :: e in ByteEvents(bytes) ==> e.ByteDirective?
  {
    if bytes != [] {
      BytesArePlain(bytes[..|bytes| - 1]);
    }
  }

  lemma ContentIsPlain(j: Job, d: DataBlock)
    ensures Plain(ContentEvents(j, d))
  {
    BytesArePlain(d.bytes);
  }

  lemma HeadersHaveNoLabels(j: Job, next: Option<nat>, last: nat, a: nat)
    ensures NoLabels(SectionFooterEvents(j, next, last))
    ensures NoLabels(SectionHeaderEvents(j, a))
    ensures NoLabels(BlockHeaderEvents(j.m, a))
  {
  }

  // ---- where an event of an item comes from ----

  lemma InFour(a: seq<Event>, b: seq<Event>, c: seq<Event>, d: seq<Event>, e: Event)
    ensures e in a + (b + (c + d)) <==> e in a || e in b || e in c || e in d
  {
  }

  lemma FromInsn(j: Job, insn: Insn, ea: nat, o: Offset, e: Event)
    requires e in InsnEvents(j, insn, ea, o)
    ensures e.Comment? || e in CfiEvents(j, o) || e in BodyEvents(j, insn, ea) || e == LabelGroup(j.m, ea)
  {
    var comments := CommentEvents(j, o.element, o.displacement, insn.size);
    CommentEventsArePlain(j, o.element, o.displacement, insn.size);
    InFour([LabelGroup(j.m, ea)], comments, CfiEvents(j, o), BodyEvents(j, insn, ea), e);
  }

  /** An event of a block is in its header, is one for an instruction, or is a directive at its end. */
  lemma FromBlock(j: Job, b: CodeBlock, e: Event) returns (n: nat)
    requires e in BlockEvents(j, b)
    ensures e in BlockHeaderEvents(j.m, b.address) || e in CfiEvents(j, InsnOffset(b, |b.insns|)) ||
      (n < |b.insns| && e in InsnPart(j, b, n))
  {
    n := 0;
    var header, parts := BlockHeaderEvents(j.m, b.address), InsnParts(j, b);
    var cfi := CfiEvents(j, InsnOffset(b, |b.insns|));
    InFour(header, Concat(parts, |b.insns|), cfi, [], e);
    Empty(cfi);
    if e in Concat(parts, |b.insns|) {
      n := FromConcat(parts, |b.insns|, e);
    }
  }

  lemma FromData(j: Job, d: DataBlock, e: Event)
    requires e in DataEvents(j, d)
    ensures e.Comment? || e == LabelGroup(j.m, d.address) || e in DataNoteEvents(j, d.address) ||
      e in ContentEvents(j, d)
  {
    var content := if ShouldExclude(j, ContainerSection(j.m, d.address), d.address) then [] else ContentEvents(j, d);
    var comments := CommentEvents(j, d.id, 0, |d.bytes|);
    CommentEventsArePlain(j, d.id, 0, |d.bytes|);
    InFour(comments, [LabelGroup(j.m, d.address)], DataNoteEvents(j, d.address), content, e);
  }

  // ---- items ----

  predicate SizesPositive(b: CodeBlock) {
    forall n :: 0 <= n < |b.insns| ==> b.insns[n].size > 0
  }

  /** The instructions of a block are positive-sized and lie inside it. */
  predicate InsnsFit(b: CodeBlock) {
    SizesPositive(b) && SizeUpTo(b.insns, |b.insns|) <= b.size
  }

  /** The item ends below the end of the address space, and its instructions fit into it. */
  predicate ItemFits(item: Item) {
    item.Start() + item.Size() < ADDRESS_SPACE && (item.Code? ==> InsnsFit(item.block))
  }

  predicate AllFit(items: seq<Item>) {
    forall k :: 0 <= k < |items| ==> ItemFits(items[k])
  }

  /** Empty data that is printed: its labels are at its end as well. */
  predicate Stalls(j: Job, item: Item, last: nat) {
    !Overlaps(item, last) && item.Data? && item.data.bytes == [] && !SkipEA(j, item.Start())
  }

  predicate NoneStalls(j: Job, items: seq<Item>) {
    forall k :: 0 <= k < |items| ==> !Stalls(j, items[k], Cursor(items, k))
  }

  lemma {:induction false} SizeUpToGrows(insns: seq<Insn>, k: nat, n: nat)
    requires k <= n <= |insns|
    ensures SizeUpTo(insns, k) <= SizeUpTo(insns, n)
    decreases n
  {
    if k < n {
      SizeUpToGrows(insns, k, n - 1);
    }
  }

  lemma InsnAscends(j: Job, insn: Insn, ea: nat, o: Offset, hi: nat)
    requires ea < hi
    ensures LabelsAscend(InsnEvents(j, insn, ea, o), ea, hi)
  {
    CommentEventsArePlain(j, o.element, o.displacement, insn.size);
    CfiIsPlain(j, o);
    BodyIsPlain(j, insn, ea);
    PlainConcat(CfiEvents(j, o), BodyEvents(j, insn, ea));
    PlainConcat(CommentEvents(j, o.element, o.displacement, insn.size), CfiEvents(j, o) + BodyEvents(j, insn, ea));
  }

  /** The addresses of the instructions of a block, and the address after them. */
  function InsnBounds(b: CodeBlock): (r: seq<nat>)
    ensures |r| == |b.insns| + 1
  {
    seq(|b.insns| + 1, n requires 0 <= n <= |b.insns| => b.address + SizeUpTo(b.insns, n))
  }

  lemma InsnPartAscends(j: Job, b: CodeBlock, n: nat)
    requires n < |b.insns| && InsnsFit(b) && b.address + b.size < ADDRESS_SPACE
    ensures InsnAddress(b, n) == InsnBounds(b)[n] < InsnBounds(b)[n + 1]
    ensures LabelsAscend(InsnParts(j, b)[n], InsnBounds(b)[n], InsnBounds(b)[n + 1])
  {
    SizeUpToGrows(b.insns, n, |b.insns|);
    InsnAscends(j, Fixup(b.insns[n]), InsnAddress(b, n), InsnOffset(b, n), InsnBounds(b)[n + 1]);
  }

  lemma InsnsAscend(j: Job, b: CodeBlock)
    requires InsnsFit(b) && b.address + b.size < ADDRESS_SPACE
    ensures LabelsAscend(Concat(InsnParts(j, b), |b.insns|), b.address, b.address + SizeUpTo(b.insns, |b.insns|))
  {
    var parts, at := InsnParts(j, b), InsnBounds(b);
    forall n | 0 <= n < |b.insns|
      ensures at[n] <= at[n + 1] && LabelsAscend(parts[n], at[n], at[n + 1])
    {
      InsnPartAscends(j, b, n);
    }
    ConcatAscends(parts, at, |b.insns|);
  }

  lemma BlockAscends(j: Job, b: CodeBlock)
    requires ItemFits(Code(b))
    ensures LabelsAscend(BlockEvents(j, b), b.address, b.address + b.size)
  {
    var insns, cfi := Concat(InsnParts(j, b), |b.insns|), CfiEvents(j, InsnOffset(b, |b.insns|));
    InsnsAscend(j, b);
    CfiIsPlain(j, InsnOffset(b, |b.insns|));
    HeadersHaveNoLabels(j, None, 0, b.address);
    NoLabelsAround([], insns, cfi, b.address, b.address + b.size);
    NoLabelsAround(BlockHeaderEvents(j.m, b.address), insns + cfi, [], b.address, b.address + b.size);
  }

  lemma DataAscends(j: Job, d: DataBlock)
    requires ItemFits(Data(d)) && (d.bytes != [] || SkipEA(j, d.address))
    ensures LabelsAscend(DataEvents(j, d), d.address, d.address + |d.bytes|)
  {
    var lo, hi := d.address, d.address + |d.bytes|;
    if !SkipEA(j, lo) {
      var content := if ShouldExclude(j, ContainerSection(j.m, lo), lo) then [] else ContentEvents(j, d);
      CommentEventsArePlain(j, d.id, 0, |d.bytes|);
      ContentIsPlain(j, d);
      PlainConcat(DataNoteEvents(j, lo), content);
      NoLabelsAround([], [LabelGroup(j.m, lo)], DataNoteEvents(j, lo) + content, lo, hi);
      var group := [LabelGroup(j.m, lo)] + (DataNoteEvents(j, lo) + content);
      NoLabelsAround(CommentEvents(j, d.id, 0, |d.bytes|), group, [], lo, hi);
    }
  }

  lemma ItemAscends(j: Job, item: Item)
    requires ItemFits(item) && (item.Data? && item.data.bytes == [] ==> SkipEA(j, item.Start()))
    ensures LabelsAscend(ItemEvents(j, item), item.Start(), item.Start() + item.Size())
  {
    match item
    case Code(b) => BlockAscends(j, b);
    case Data(d) => DataAscends(j, d);
  }

  lemma AscendAfter(a: seq<Event>, b: seq<Event>, c: seq<Event>, lo: nat, hi: nat)
    requires NoLabels(a) && NoLabels(b) && LabelsAscend(c, lo, hi) && lo <= hi
    ensures LabelsAscend(a + (b + c), lo, hi)
  {
    NoLabelsAround(b, c, [], lo, hi);
    NoLabelsAround(a, b + c, [], lo, hi);
  }

  lemma GapAscends(j: Job, start: nat, last: nat)
    requires last <= start
    ensures LabelsAscend(GapEvents(j, start, last), last, start)
  {
  }

  lemma WithBracketsAscends(j: Job, item: Item, last: nat, rest: seq<Event>)
    requires ItemFits(item) && (item.Data? && item.data.bytes == [] ==> SkipEA(j, item.Start()))
    requires rest == SectionFooterEvents(j, Some(item.Start()), last) +
      (SectionHeaderEvents(j, item.Start()) + ItemEvents(j, item))
    ensures LabelsAscend(rest, item.Start(), item.Start() + item.Size())
  {
    var start := item.Start();
    ItemAscends(j, item);
    HeadersHaveNoLabels(j, Some(start), last, start);
    AscendAfter(SectionFooterEvents(j, Some(start), last), SectionHeaderEvents(j, start), ItemEvents(j, item),
      start, start + item.Size());
  }

  /** What is printed for an item that is not replaced by a warning. */
  lemma PrintedStep(j: Job, item: Item, last: nat) returns (rest: seq<Event>)
    requires !Overlaps(item, last)
    ensures rest == SectionFooterEvents(j, Some(item.Start()), last) +
      (SectionHeaderEvents(j, item.Start()) + ItemEvents(j, item))
    ensures StepEvents(j, item, last) == GapEvents(j, item.Start(), last) + rest
  {
    rest := SectionFooterEvents(j, Some(item.Start()), last) +
      (SectionHeaderEvents(j, item.Start()) + ItemEvents(j, item));
  }

  lemma StepAscends(j: Job, item: Item, last: nat)
    requires ItemFits(item) && !Stalls(j, item, last)
    ensures last <= StepLast(item, last)
    ensures LabelsAscend(StepEvents(j, item, last), last, StepLast(item, last))
  {
    if !Overlaps(item, last) {
      var start, end := item.Start(), item.Start() + item.Size();
      var rest := PrintedStep(j, item, last);
      GapAscends(j, start, last);
      WithBracketsAscends(j, item, last, rest);
      AscendConcat(GapEvents(j, start, last), rest, last, start, end);
    }
  }

  /** The cursor before each item, and after the last one. */
  function Cursors(items: seq<Item>): (r: seq<nat>)
    ensures |r| == |items| + 1
  {
    seq(|items| + 1, k requires 0 <= k <= |items| => Cursor(items, k))
  }

  lemma StepPart(j: Job, items: seq<Item>, k: nat) returns (last: nat)
    requires k < |items|
    ensures Cursors(items)[k] == last && Cursors(items)[k + 1] == StepLast(items[k], last)
    ensures Steps(j, items)[k] == StepEvents(j, items[k], last)
  {
    last := Cursor(items, k);
  }

  lemma StepPartAscends(j: Job, items: seq<Item>, k: nat)
    requires k < |items| && ItemFits(items[k]) && !Stalls(j, items[k], Cursor(items, k))
    ensures Cursors(items)[k] <= Cursors(items)[k + 1]
    ensures LabelsAscend(Steps(j, items)[k], Cursors(items)[k], Cursors(items)[k + 1])
  {
    var last := StepPart(j, items, k);
    StepAscends(j, items[k], last);
  }

  lemma RunAscends(j: Job, items: seq<Item>)
    requires AllFit(items) && NoneStalls(j, items)
    ensures LabelsAscend(Concat(Steps(j, items), |items|), 0, Cursor(items, |items|))
  {
    var parts, at := Steps(j, items), Cursors(items);
    assert PartsAscend(parts, at) by {
      forall k | 0 <= k < |items|
        ensures at[k] <= at[k + 1] && LabelsAscend(parts[k], at[k], at[k + 1])
      {
        StepPartAscends(j, items, k);
      }
    }
    ConcatAscends(parts, at, |items|);
  }

  lemma {:induction false} RepeatIsPlain(e: Event, n: nat)
    requires e.Prologue?
    ensures Plain(RepeatEvent(e, n))
  {
    if n > 0 {
      RepeatIsPlain(e, n - 1);
    }
  }

  lemma PrologueIsPlain(dialect: Dialect)
    ensures Plain(PrologueEvents(dialect))
  {
    RepeatIsPlain(Prologue("nop"), 8);
  }

  /**
   Over the whole run, label groups are at strictly increasing addresses, whether or not the items
   overlap, if no empty data is printed: no address gets its labels twice.
   */
  lemma LabelsIncrease(j: Job, dialect: Dialect, items: seq<Item>)
    requires AllFit(items) && NoneStalls(j, items)
    ensures LabelsAscend(PrintEvents(j, dialect, items), 0, ADDRESS_SPACE)
  {
    var last := Cursor(items, |items|);
    var run, end := Concat(Steps(j, items), |items|), EndEvents(j, last);
    RunAscends(j, items);
    HeadersHaveNoLabels(j, None, last, 0);
    CursorInSpace(items, |items|);
    NoLabelsAround([], [LabelGroup(j.m, last)], SectionFooterEvents(j, None, last), last, ADDRESS_SPACE);
    AscendConcat(run, end, 0, last, ADDRESS_SPACE);
    PrologueIsPlain(dialect);
    NoLabelsAround(PrologueEvents(dialect), run + end, [], 0, ADDRESS_SPACE);
  }

  lemma CursorInSpace(items: seq<Item>, k: nat)
    requires k <= |items|
    ensures Cursor(items, k) < ADDRESS_SPACE
  {
  }

  // ---- definitions of one symbol ----

  /** The event defines the symbol: it is the label group at its address. */
  predicate Defines(m: Module, e: Event, s: Symbol) {
    s in m.symbols && s.address.Some? && e == LabelGroup(m, s.address.value)
  }

  predicate AtMostOneDefinition(m: Module, es: seq<Event>, s: Symbol) {
    forall p, q :: 0 <= p < |es| && 0 <= q < |es| && Defines(m, es[p], s) && Defines(m, es[q], s) ==> p == q
  }

  /** A symbol is defined by at most one label group of the run. */
  lemma DefinedAtMostOnce(j: Job, dialect: Dialect, items: seq<Item>, s: Symbol)
    requires AllFit(items) && NoneStalls(j, items)
    ensures AtMostOneDefinition(j.m, PrintEvents(j, dialect, items), s)
  {
    LabelsIncrease(j, dialect, items);
  }

  lemma GroupOfData(j: Job, d: DataBlock)
    requires !SkipEA(j, d.address)
    ensures LabelGroup(j.m, d.address) in DataEvents(j, d)
  {
    var before := CommentEvents(j, d.id, 0, |d.bytes|);
    assert DataEvents(j, d)[|before|] == LabelGroup(j.m, d.address);
  }

  lemma StepHasItem(j: Job, item: Item, last: nat, e: Event)
    requires !Overlaps(item, last) && e in ItemEvents(j, item)
    ensures e in StepEvents(j, item, last)
  {
    var header := SectionHeaderEvents(j, item.Start()) + ItemEvents(j, item);
    var footer := SectionFooterEvents(j, Some(item.Start()), last) + header;
    assert e in header;
    assert e in footer;
    assert e in GapEvents(j, item.Start(), last) + footer;
  }
}
