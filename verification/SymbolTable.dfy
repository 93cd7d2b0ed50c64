/** What an assembler finds defined in a run: which names, and where. */
module SymbolTable {
  import opened Common
  import opened Folds
  import opened Program
  import opened Events
  import opened Greedy
  import opened Labels
  import opened Notes
  import opened Lines

  // ---- what an item shows ----

  /** The address x as a note is the mark. */
  predicate NoteMark(mark: Mark, x: nat) {
    match mark
    case Name(name) => NoteDefines(x, name)
    case Note => true
  }

  predicate NameIn(mark: Mark, names: seq<string>) {
    mark.Name? && mark.name in names
  }

  /** The labels at the instruction, and in debug mode the addresses of its lines. */
  predicate InsnShows(j: Job, insn: Insn, ea: nat, mark: Mark, x: nat) {
    || (x == ea && NameIn(mark, LabelGroup(j.m, ea).names))
    || (j.policy.debug && InsnNoted(insn, ea, x) && NoteMark(mark, x))
  }

  predicate HeaderShows(m: Module, a: nat, mark: Mark, x: nat) {
    mark.Name? && mark.name != "" && mark.name == FunctionName(m, a) && x == a
  }

  predicate BlockShows(j: Job, b: CodeBlock, mark: Mark, x: nat) {
    || HeaderShows(j.m, b.address, mark, x)
    || exists n :: 0 <= n < |b.insns| && InsnShows(j, Fixup(b.insns[n]), InsnAddress(b, n), mark, x)
  }

  /** The labels of the data are in a comment if that is open and there is no other comment before them. */
  predicate InComment(j: Job, d: DataBlock, open: bool) {
    open && CommentEvents(j, d.id, 0, |d.bytes|) == []
  }

  predicate DataShows(j: Job, d: DataBlock, open: bool, mark: Mark, x: nat) {
    x == d.address &&
    var lost := InComment(j, d, open);
    || NameIn(mark, Kept(j.m, x, lost))
    || (j.policy.debug && NoteMark(mark, x) && !(lost && LabelGroup(j.m, x).names == []))
  }

  predicate ItemShows(j: Job, item: Item, open: bool, mark: Mark, x: nat) {
    !SkipEA(j, item.Start()) &&
    match item
    case Code(b) => BlockShows(j, b, mark, x)
    case Data(d) => DataShows(j, d, open, mark, x)
  }

  /** Nothing is printed for the item that would end a line. */
  predicate SilentItem(j: Job, item: Item) {
    || SkipEA(j, item.Start())
    || (item.Data? && ShouldExclude(j, ContainerSection(j.m, item.Start()), item.Start())
        && LabelGroup(j.m, item.Start()).names == [])
  }

  // ---- events without marks ----

  predicate Markless(es: seq<Event>) {
    forall e :: e in es ==> !e.Labels? && !e.FunctionLabel? && !e.AddressNote? && !e.Warning?
  }

  lemma MarklessShowNothing(open: bool, es: seq<Event>, mark: Mark, x: nat)
    requires Markless(es)
    ensures !Shows(open, es, mark, x) && !Has(es, mark, x)
  {
    forall e | e in SeenOf(open, es)
      ensures !Marks(e, mark, x)
    {
      if !e.Labels? {
        SeenIsPrinted(open, es, e);
      } else {
        LabelsAreSeenOnly(open, es, e);
      }
    }
  }

  lemma {:induction false} LabelsAreSeenOnly(open: bool, es: seq<Event>, e: Event)
    requires e in SeenOf(open, es) && e.Labels?
    ensures exists g :: g in es && g.Labels?
  {
    var init, last := es[..|es| - 1], es[|es| - 1];
    if e in SeenOf(open, init) {
      LabelsAreSeenOnly(open, init, e);
      var g :| g in init && g.Labels?;
      assert g in es;
    } else {
      assert last in es && last.Labels?;
    }
  }

  /** After a line that ends no comment is open. */
  lemma MarklessEnds(open: bool, es: seq<Event>)
    requires Markless(es)
    ensures OpenAfter(open, es) == (open && es == [])
  {
    if es != [] {
      assert es[|es| - 1] in es;
    }
  }

  lemma {:induction false} HasParts(parts: seq<seq<Event>>, n: nat, mark: Mark, x: nat)
    requires n <= |parts|
    ensures Has(Concat(parts, n), mark, x) <==> exists k :: 0 <= k < n && Has(parts[k], mark, x)
  {
    if n > 0 {
      HasParts(parts, n - 1, mark, x);
      HasConcat(Concat(parts, n - 1), parts[n - 1], mark, x);
    }
  }

  // ---- code ----

  lemma BodyHas(j: Job, insn: Insn, ea: nat, mark: Mark, x: nat)
    requires ea < ADDRESS_SPACE
    ensures Has(BodyEvents(j, insn, ea), mark, x) <==> j.policy.debug && InsnNoted(insn, ea, x) && NoteMark(mark, x)
  {
    BodyIsPlain(j, insn, ea);
    if e :| e in BodyEvents(j, insn, ea) && Marks(e, mark, x) {
      NoteOfBody(j, insn, ea, e);
    }
    if j.policy.debug && InsnNoted(insn, ea, x) && NoteMark(mark, x) {
      var e := BodyHasNotes(j, insn, ea, x);
      assert Marks(e, mark, x);
    }
  }

  lemma InsnHas(j: Job, insn: Insn, ea: nat, o: Offset, mark: Mark, x: nat)
    requires ea < ADDRESS_SPACE
    ensures Has(InsnEvents(j, insn, ea, o), mark, x) <==> InsnShows(j, insn, ea, mark, x)
  {
    var comments, cfi := CommentEvents(j, o.element, o.displacement, insn.size), CfiEvents(j, o);
    var body := BodyEvents(j, insn, ea);
    CommentEventsArePlain(j, o.element, o.displacement, insn.size);
    CfiIsPlain(j, o);
    MarklessShowNothing(false, comments, mark, x);
    MarklessShowNothing(false, cfi, mark, x);
    BodyHas(j, insn, ea, mark, x);
    HasOne(LabelGroup(j.m, ea), mark, x);
    HasConcat([LabelGroup(j.m, ea)], comments + (cfi + body), mark, x);
    HasConcat(comments, cfi + body, mark, x);
    HasConcat(cfi, body, mark, x);
  }

  lemma HeaderHas(m: Module, a: nat, mark: Mark, x: nat)
    ensures Has(BlockHeaderEvents(m, a), mark, x) <==> HeaderShows(m, a, mark, x)
  {
    var f := FunctionName(m, a);
    if f != "" {
      var lines := [Global(f), TypeFunction(f), FunctionLabel(a, f)];
      assert BlockHeaderEvents(m, a) == (AlignEvents(a) + lines) + [BlankLine];
      assert FunctionLabel(a, f) in BlockHeaderEvents(m, a);
    }
  }

  lemma PartHas(j: Job, b: CodeBlock, n: nat, mark: Mark, x: nat)
    requires n < |b.insns|
    ensures Has(InsnParts(j, b)[n], mark, x) <==> InsnShows(j, Fixup(b.insns[n]), InsnAddress(b, n), mark, x)
  {
    InsnHas(j, Fixup(b.insns[n]), InsnAddress(b, n), InsnOffset(b, n), mark, x);
  }

  lemma InsnsHave(j: Job, b: CodeBlock, mark: Mark, x: nat)
    ensures Has(Concat(InsnParts(j, b), |b.insns|), mark, x) <==>
      exists n :: 0 <= n < |b.insns| && InsnShows(j, Fixup(b.insns[n]), InsnAddress(b, n), mark, x)
  {
    var parts := InsnParts(j, b);
    HasParts(parts, |b.insns|, mark, x);
    forall n | 0 <= n < |b.insns|
      ensures Has(parts[n], mark, x) <==> InsnShows(j, Fixup(b.insns[n]), InsnAddress(b, n), mark, x)
    {
      PartHas(j, b, n, mark, x);
    }
  }

  lemma BlockHas(j: Job, b: CodeBlock, mark: Mark, x: nat)
    requires !SkipEA(j, b.address)
    ensures Has(BlockEvents(j, b), mark, x) <==> BlockShows(j, b, mark, x)
  {
    var header, insns, cfi :=
      BlockHeaderEvents(j.m, b.address), Concat(InsnParts(j, b), |b.insns|), CfiEvents(j, InsnOffset(b, |b.insns|));
    CfiIsPlain(j, InsnOffset(b, |b.insns|));
    MarklessShowNothing(false, cfi, mark, x);
    HeaderHas(j.m, b.address, mark, x);
    InsnsHave(j, b, mark, x);
    HasConcat(header, insns + cfi, mark, x);
    HasConcat(insns, cfi, mark, x);
  }

  lemma HeaderStartsLine(m: Module, a: nat)
    ensures BlockHeaderEvents(m, a) != [] && StartsLine(BlockHeaderEvents(m, a)[0])
  {
  }

  /** A block starts a line of its own, so that all of it is seen. */
  lemma BlockShown(j: Job, b: CodeBlock, open: bool, mark: Mark, x: nat)
    requires !SkipEA(j, b.address) && NoWarning(BlockEvents(j, b))
    ensures Shows(open, BlockEvents(j, b), mark, x) <==> BlockShows(j, b, mark, x)
    ensures !OpenAfter(open, BlockEvents(j, b))
  {
    HeaderStartsLine(j.m, b.address);
    assert BlockEvents(j, b)[0] == BlockHeaderEvents(j.m, b.address)[0];
    SeenFresh(open, BlockEvents(j, b));
    BlockHas(j, b, mark, x);
  }

  // ---- data ----

  function Content(j: Job, d: DataBlock): seq<Event> {
    if ShouldExclude(j, ContainerSection(j.m, d.address), d.address) then [] else ContentEvents(j, d)
  }

  lemma ContentIsMarkless(j: Job, d: DataBlock)
    ensures Markless(Content(j, d))
    ensures Content(j, d) == [] <==> ShouldExclude(j, ContainerSection(j.m, d.address), d.address)
  {
    BytesArePlain(d.bytes);
  }

  /** The note of a data block, on the line of its content, is lost with it. */
  lemma NoteShown(j: Job, d: DataBlock, open: bool, mark: Mark, x: nat)
    ensures Shows(open, DataNoteEvents(j, d.address), mark, x) <==>
      !open && j.policy.debug && x == d.address && NoteMark(mark, x)
    ensures OpenAfter(open, DataNoteEvents(j, d.address)) == open
  {
    if j.policy.debug {
      NoteOfData(j, d.address);
      var e := DataNoteEvents(j, d.address)[0];
      SeenOne(open, e);
      FoldOne(StaysOpen, open, e);
      HasOne(e, mark, x);
    }
  }

  lemma NoteAndContentShown(j: Job, d: DataBlock, open: bool, mark: Mark, x: nat)
    ensures Shows(open, DataNoteEvents(j, d.address) + Content(j, d), mark, x) <==>
      !open && j.policy.debug && x == d.address && NoteMark(mark, x)
    ensures OpenAfter(open, DataNoteEvents(j, d.address) + Content(j, d)) == (open && Content(j, d) == [])
  {
    NoteShown(j, d, open, mark, x);
    ContentIsMarkless(j, d);
    MarklessShowNothing(open, Content(j, d), mark, x);
    MarklessEnds(open, Content(j, d));
    ShowsConcat(open, DataNoteEvents(j, d.address), Content(j, d), mark, x);
  }

  /** The comments of a data block end an open line; they define nothing. */
  lemma CommentsShown(j: Job, d: DataBlock, open: bool, mark: Mark, x: nat)
    ensures !Shows(open, CommentEvents(j, d.id, 0, |d.bytes|), mark, x)
    ensures OpenAfter(open, CommentEvents(j, d.id, 0, |d.bytes|)) == InComment(j, d, open)
  {
    CommentEventsArePlain(j, d.id, 0, |d.bytes|);
    MarklessShowNothing(open, CommentEvents(j, d.id, 0, |d.bytes|), mark, x);
    MarklessEnds(open, CommentEvents(j, d.id, 0, |d.bytes|));
  }

  lemma DataShown(j: Job, d: DataBlock, open: bool, mark: Mark, x: nat)
    requires !SkipEA(j, d.address)
    ensures Shows(open, DataEvents(j, d), mark, x) <==> DataShows(j, d, open, mark, x)
    ensures OpenAfter(open, DataEvents(j, d)) == (open && SilentItem(j, Data(d)))
  {
    var comments, group := CommentEvents(j, d.id, 0, |d.bytes|), LabelGroup(j.m, d.address);
    var lost := InComment(j, d, open);
    var rest := DataNoteEvents(j, d.address) + Content(j, d);
    CommentsShown(j, d, open, mark, x);
    GroupShown(j.m, d.address, lost, mark, x);
    NoteAndContentShown(j, d, lost && group.names == [], mark, x);
    ContentIsMarkless(j, d);
    ShowsConcat(open, comments, [group] + rest, mark, x);
    ShowsConcat(lost, [group], rest, mark, x);
  }

  // ---- items and steps ----

  lemma ItemShown(j: Job, item: Item, open: bool, mark: Mark, x: nat)
    requires NoWarning(ItemEvents(j, item))
    ensures Shows(open, ItemEvents(j, item), mark, x) <==> ItemShows(j, item, open, mark, x)
    ensures OpenAfter(open, ItemEvents(j, item)) == (open && SilentItem(j, item))
  {
    if !SkipEA(j, item.Start()) {
      match item
      case Code(b) => BlockShown(j, b, open, mark, x);
      case Data(d) => DataShown(j, d, open, mark, x);
    }
  }

  /** Before the item nothing is printed that would end a line. */
  predicate SilentLead(j: Job, item: Item, last: nat) {
    && (item.Start() > last ==> LabelGroup(j.m, last).names == [])
    && SectionFooterEvents(j, Some(item.Start()), last) == []
    && SectionHeaderEvents(j, item.Start()) == []
  }

  /** The labels before a gap, and what the item shows. */
  predicate PrintShows(j: Job, item: Item, last: nat, open: bool, mark: Mark, x: nat) {
    || (item.Start() > last && x == last && NameIn(mark, Kept(j.m, last, open)))
    || ItemShows(j, item, open && SilentLead(j, item, last), mark, x)
  }

  lemma GapShown(j: Job, start: nat, last: nat, open: bool, mark: Mark, x: nat)
    ensures Shows(open, GapEvents(j, start, last), mark, x) <==>
      start > last && x == last && NameIn(mark, Kept(j.m, last, open))
    ensures OpenAfter(open, GapEvents(j, start, last)) == (open && (start > last ==> LabelGroup(j.m, last).names == []))
  {
    GroupShown(j.m, last, open, mark, x);
  }

  lemma BracketsShown(j: Job, next: Option<nat>, last: nat, a: nat, open: bool, mark: Mark, x: nat)
    ensures !Shows(open, SectionFooterEvents(j, next, last), mark, x)
    ensures !Shows(open, SectionHeaderEvents(j, a), mark, x)
    ensures OpenAfter(open, SectionFooterEvents(j, next, last)) == (open && SectionFooterEvents(j, next, last) == [])
    ensures OpenAfter(open, SectionHeaderEvents(j, a)) == (open && SectionHeaderEvents(j, a) == [])
  {
    MarklessShowNothing(open, SectionFooterEvents(j, next, last), mark, x);
    MarklessShowNothing(open, SectionHeaderEvents(j, a), mark, x);
    MarklessEnds(open, SectionFooterEvents(j, next, last));
    MarklessEnds(open, SectionHeaderEvents(j, a));
  }

  lemma PrintShown(j: Job, item: Item, last: nat, open: bool, mark: Mark, x: nat)
    requires !Overlaps(item, last) && NoWarning(ItemEvents(j, item))
    ensures Shows(open, StepEvents(j, item, last), mark, x) <==> PrintShows(j, item, last, open, mark, x)
    ensures OpenAfter(open, StepEvents(j, item, last)) == (open && SilentLead(j, item, last) && SilentItem(j, item))
  {
    var a := item.Start();
    var gap, footer, header, es :=
      GapEvents(j, a, last), SectionFooterEvents(j, Some(a), last), SectionHeaderEvents(j, a), ItemEvents(j, item);
    var open1 := OpenAfter(open, gap);
    var open2 := open1 && footer == [];
    var open3 := open2 && header == [];
    GapShown(j, a, last, open, mark, x);
    BracketsShown(j, Some(a), last, a, open1, mark, x);
    BracketsShown(j, Some(a), last, a, open2, mark, x);
    ItemShown(j, item, open3, mark, x);
    ShowsConcat(open, gap, footer + (header + es), mark, x);
    ShowsConcat(open1, footer, header + es, mark, x);
    ShowsConcat(open2, header, es, mark, x);
  }

  lemma WarningShown(open: bool, ea: nat, mark: Mark, x: nat)
    ensures !Shows(open, [Warning(ea)], mark, x) && OpenAfter(open, [Warning(ea)])
  {
    SeenOne(open, Warning(ea));
    FoldOne(StaysOpen, open, Warning(ea));
  }

  // ---- the run ----

  /** Step k begins on the line of a warning: the item before it is replaced by one, or ended no line after one. */
  predicate Open(j: Job, items: seq<Item>, k: nat)
    requires k <= |items|
  {
    k > 0 && (
      || !IsPrinted(items, k - 1)
      || (Open(j, items, k - 1) && SilentLead(j, items[k - 1], Cursor(items, k - 1)) && SilentItem(j, items[k - 1])))
  }

  predicate StepShows(j: Job, items: seq<Item>, k: nat, mark: Mark, x: nat)
    requires k < |items|
  {
    IsPrinted(items, k) && PrintShows(j, items[k], Cursor(items, k), Open(j, items, k), mark, x)
  }

  predicate EndShows(j: Job, items: seq<Item>, mark: Mark, x: nat) {
    x == Cursor(items, |items|) && NameIn(mark, Kept(j.m, x, Open(j, items, |items|)))
  }

  /** An assembler sees the mark in the run. */
  predicate RunShows(j: Job, items: seq<Item>, mark: Mark, x: nat) {
    || (exists k :: 0 <= k < |items| && StepShows(j, items, k, mark, x))
    || EndShows(j, items, mark, x)
  }

  function Opens(j: Job, items: seq<Item>): (r: seq<bool>)
    ensures |r| == |items| + 1
  {
    seq(|items| + 1, k requires 0 <= k <= |items| => Open(j, items, k))
  }

  lemma OpenNext(j: Job, items: seq<Item>, k: nat) returns (open: bool, next: bool)
    requires k < |items|
    ensures Opens(j, items)[k] == open == Open(j, items, k)
    ensures Opens(j, items)[k + 1] == next
    ensures next == if IsPrinted(items, k)
      then open && SilentLead(j, items[k], Cursor(items, k)) && SilentItem(j, items[k]) else true
  {
    open, next := Open(j, items, k), Open(j, items, k + 1);
  }

  lemma StepShown(j: Job, items: seq<Item>, k: nat, mark: Mark, x: nat)
    requires k < |items| && NoWarning(ItemEvents(j, items[k]))
    ensures Shows(Opens(j, items)[k], Steps(j, items)[k], mark, x) <==> StepShows(j, items, k, mark, x)
    ensures OpenAfter(Opens(j, items)[k], Steps(j, items)[k]) == Opens(j, items)[k + 1]
  {
    var last := StepPart(j, items, k);
    var open, next := OpenNext(j, items, k);
    if IsPrinted(items, k) {
      PrintShown(j, items[k], last, open, mark, x);
    } else {
      WarningShown(open, items[k].Start(), mark, x);
    }
  }
}
