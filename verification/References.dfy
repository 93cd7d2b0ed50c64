/** When a reference by name is to a label that the output defines at the address of the symbol, and nowhere else. */
module References {
  import opened Common
  import opened Numerals
  import opened Program
  import opened Events
  import opened Greedy
  import opened Labels
  import opened Names
  import opened Folds
  import opened Notes
  import opened Lines
  import opened SymbolTable

  // ---- what the output defines ----

  /** No line begins with an address that an assembler cannot read. */
  ghost predicate Readable(es: seq<Event>) {
    forall e :: e in SeenOf(false, es) && e.AddressNote? ==> ReadableNote(e.text)
  }

  /** The output can be read and defines the name, always at address a. */
  ghost predicate Resolves(es: seq<Event>, name: string, a: nat) {
    && Readable(es)
    && Shows(false, es, Name(name), a)
    && forall x :: Shows(false, es, Name(name), x) ==> x == a
  }

  lemma {:induction false} NamesOfGroup(m: Module, symbols: seq<Symbol>, a: nat, n: nat, name: string)
    requires n <= |symbols|
    ensures name in LabelNames(m, symbols, a, n) <==> exists k :: 0 <= k < n && LabelName(m, symbols[k], a) == name
  {
    if n > 0 {
      NamesOfGroup(m, symbols, a, n - 1, name);
    }
  }

  /** A group has the label of every symbol at its address, and no other. */
  lemma GroupNames(m: Module, a: nat, name: string)
    ensures name in LabelGroup(m, a).names <==>
      exists s :: s in m.symbols && s.address == Some(a) && LabelName(m, s, a) == name
  {
    var found := SymbolsAt(m.symbols, a);
    NamesOfGroup(m, found, a, |found|, name);
    if s :| s in m.symbols && s.address == Some(a) && LabelName(m, s, a) == name {
      SymbolsAtAddress(m.symbols, a, s);
      var k :| 0 <= k < |found| && found[k] == s;
    }
    if k :| 0 <= k < |found| && LabelName(m, found[k], a) == name {
      SymbolsAtAddress(m.symbols, a, found[k]);
    }
  }

  // ---- every label of the output is genuine ----

  /** Label groups hold the symbols at their address; function labels are at function entries. */
  predicate Genuine(m: Module, e: Event) {
    && (e.Labels? ==> e == LabelGroup(m, e.ea))
    && (e.FunctionLabel? ==> e.ea in m.entries && e.name == FunctionName(m, e.ea))
  }

  predicate AllGenuine(m: Module, es: seq<Event>) {
    forall e :: e in es ==> Genuine(m, e)
  }

  /** What is printed for an item has genuine labels, and neither section brackets nor warnings. */
  predicate Inner(m: Module, e: Event) {
    Genuine(m, e) && !e.SectionHeader? && !e.SectionFooter? && !e.Warning?
  }

  predicate AllInner(m: Module, es: seq<Event>) {
    forall e :: e in es ==> Inner(m, e)
  }

  lemma PlainIsInner(m: Module, es: seq<Event>)
    requires Plain(es)
    ensures AllInner(m, es)
  {
  }

  lemma InnerConcat(m: Module, a: seq<Event>, b: seq<Event>)
    requires AllInner(m, a) && AllInner(m, b)
    ensures AllInner(m, a + b)
  {
  }

  lemma {:induction false} PartsAreInner(m: Module, parts: seq<seq<Event>>, n: nat)
    requires n <= |parts| && forall k :: 0 <= k < |parts| ==> AllInner(m, parts[k])
    ensures AllInner(m, Concat(parts, n))
  {
    if n > 0 {
      PartsAreInner(m, parts, n - 1);
      InnerConcat(m, Concat(parts, n - 1), parts[n - 1]);
    }
  }

  lemma InsnIsInner(j: Job, insn: Insn, ea: nat, o: Offset)
    ensures AllInner(j.m, InsnEvents(j, insn, ea, o))
  {
    var comments, cfi := CommentEvents(j, o.element, o.displacement, insn.size), CfiEvents(j, o);
    var body := BodyEvents(j, insn, ea);
    CommentEventsArePlain(j, o.element, o.displacement, insn.size);
    CfiIsPlain(j, o);
    BodyIsPlain(j, insn, ea);
    PlainConcat(cfi, body);
    PlainConcat(comments, cfi + body);
    PlainIsInner(j.m, comments + (cfi + body));
    InnerConcat(j.m, [LabelGroup(j.m, ea)], comments + (cfi + body));
  }

  lemma InsnPartsAreInner(j: Job, b: CodeBlock)
    ensures AllInner(j.m, Concat(InsnParts(j, b), |b.insns|))
  {
    var parts := InsnParts(j, b);
    forall n | 0 <= n < |b.insns|
      ensures AllInner(j.m, parts[n])
    {
      InsnIsInner(j, Fixup(b.insns[n]), InsnAddress(b, n), InsnOffset(b, n));
    }
    PartsAreInner(j.m, parts, |b.insns|);
  }

  lemma BlockHeaderIsInner(m: Module, a: nat)
    ensures AllInner(m, BlockHeaderEvents(m, a))
  {
  }

  lemma BlockIsInner(j: Job, b: CodeBlock)
    ensures AllInner(j.m, BlockEvents(j, b))
  {
    var header, insns, cfi :=
      BlockHeaderEvents(j.m, b.address), Concat(InsnParts(j, b), |b.insns|), CfiEvents(j, InsnOffset(b, |b.insns|));
    BlockHeaderIsInner(j.m, b.address);
    InsnPartsAreInner(j, b);
    CfiIsPlain(j, InsnOffset(b, |b.insns|));
    PlainIsInner(j.m, cfi);
    InnerConcat(j.m, insns, cfi);
    InnerConcat(j.m, header, insns + cfi);
  }

  lemma DataIsInner(j: Job, d: DataBlock)
    ensures AllInner(j.m, DataEvents(j, d))
  {
    var comments, note := CommentEvents(j, d.id, 0, |d.bytes|), DataNoteEvents(j, d.address);
    var content := if ShouldExclude(j, ContainerSection(j.m, d.address), d.address) then [] else ContentEvents(j, d);
    CommentEventsArePlain(j, d.id, 0, |d.bytes|);
    ContentIsPlain(j, d);
    PlainConcat(note, content);
    PlainIsInner(j.m, comments);
    PlainIsInner(j.m, note + content);
    InnerConcat(j.m, [LabelGroup(j.m, d.address)], note + content);
    InnerConcat(j.m, comments, [LabelGroup(j.m, d.address)] + (note + content));
  }

  lemma ItemIsInner(j: Job, item: Item)
    ensures AllInner(j.m, ItemEvents(j, item))
  {
    match item
    case Code(b) => BlockIsInner(j, b);
    case Data(d) => DataIsInner(j, d);
  }

  lemma BracketsAreGenuine(j: Job, next: Option<nat>, last: nat, a: nat)
    ensures AllGenuine(j.m, SectionFooterEvents(j, next, last))
    ensures AllGenuine(j.m, SectionHeaderEvents(j, a))
  {
  }

  lemma GenuineConcat(m: Module, a: seq<Event>, b: seq<Event>)
    requires AllGenuine(m, a) && AllGenuine(m, b)
    ensures AllGenuine(m, a + b)
  {
  }

  lemma {:induction false} PartsAreGenuine(m: Module, parts: seq<seq<Event>>, n: nat)
    requires n <= |parts| && forall k :: 0 <= k < |parts| ==> AllGenuine(m, parts[k])
    ensures AllGenuine(m, Concat(parts, n))
  {
    if n > 0 {
      PartsAreGenuine(m, parts, n - 1);
      GenuineConcat(m, Concat(parts, n - 1), parts[n - 1]);
    }
  }

  lemma StepIsGenuine(j: Job, item: Item, last: nat)
    ensures AllGenuine(j.m, StepEvents(j, item, last))
  {
    var start := item.Start();
    var footer, header := SectionFooterEvents(j, Some(start), last), SectionHeaderEvents(j, start);
    ItemIsInner(j, item);
    BracketsAreGenuine(j, Some(start), last, start);
    GenuineConcat(j.m, header, ItemEvents(j, item));
    GenuineConcat(j.m, footer, header + ItemEvents(j, item));
    GenuineConcat(j.m, GapEvents(j, start, last), footer + (header + ItemEvents(j, item)));
  }

  lemma StepsAreGenuine(j: Job, items: seq<Item>)
    ensures AllGenuine(j.m, Concat(Steps(j, items), |items|))
  {
    var parts := Steps(j, items);
    forall k | 0 <= k < |items|
      ensures AllGenuine(j.m, parts[k])
    {
      var last := StepPart(j, items, k);
      StepIsGenuine(j, items[k], last);
    }
    PartsAreGenuine(j.m, parts, |items|);
  }

  lemma RunIsGenuine(j: Job, dialect: Dialect, items: seq<Item>)
    ensures AllGenuine(j.m, PrintEvents(j, dialect, items))
  {
    var last := Cursor(items, |items|);
    var steps, footer := Concat(Steps(j, items), |items|), SectionFooterEvents(j, None, last);
    StepsAreGenuine(j, items);
    BracketsAreGenuine(j, None, last, last);
    GenuineConcat(j.m, [LabelGroup(j.m, last)], footer);
    GenuineConcat(j.m, steps, EndEvents(j, last));
    PrologueIsPlain(dialect);
    PlainIsInner(j.m, PrologueEvents(dialect));
    GenuineConcat(j.m, PrologueEvents(dialect), steps + EndEvents(j, last));
  }

  // ---- where a group is printed ----

  /** An address at which a printed item has labels: the start of a data block or of an instruction. */
  predicate ItemPlace(j: Job, item: Item, a: nat) {
    match item
    case Code(b) => !SkipEA(j, b.address) && exists n :: 0 <= n < |b.insns| && InsnAddress(b, n) == a
    case Data(d) => !SkipEA(j, d.address) && d.address == a
  }

  /** Such an address in the run, or the end of what is printed before a gap or before the end. */
  predicate Place(j: Job, items: seq<Item>, a: nat) {
    || a == Cursor(items, |items|)
    || exists k :: 0 <= k < |items| && StepPlace(j, items, k, a)
  }

  predicate StepPlace(j: Job, items: seq<Item>, k: nat, a: nat)
    requires k < |items|
  {
    IsPrinted(items, k) && (ItemPlace(j, items[k], a) || (a == Cursor(items, k) && a < items[k].Start()))
  }

  lemma GroupOfCode(j: Job, b: CodeBlock, n: nat)
    requires !SkipEA(j, b.address) && n < |b.insns|
    ensures LabelGroup(j.m, InsnAddress(b, n)) in BlockEvents(j, b)
  {
    var header, insns, cfi :=
      BlockHeaderEvents(j.m, b.address), Concat(InsnParts(j, b), |b.insns|), CfiEvents(j, InsnOffset(b, |b.insns|));
    assert LabelGroup(j.m, InsnAddress(b, n)) == InsnPart(j, b, n)[0];
    PartInConcat(InsnParts(j, b), |b.insns|, n, LabelGroup(j.m, InsnAddress(b, n)));
    assert LabelGroup(j.m, InsnAddress(b, n)) in insns + cfi;
  }

  lemma GroupOfStep(j: Job, items: seq<Item>, k: nat, a: nat)
    requires k < |items| && StepPlace(j, items, k, a)
    ensures LabelGroup(j.m, a) in Steps(j, items)[k]
  {
    var last := StepPart(j, items, k);
    if ItemPlace(j, items[k], a) {
      match items[k] {
        case Code(b) =>
          var n :| 0 <= n < |b.insns| && InsnAddress(b, n) == a;
          GroupOfCode(j, b, n);
        case Data(d) => GroupOfData(j, d);
      }
      StepHasItem(j, items[k], last, LabelGroup(j.m, a));
    } else {
      assert StepEvents(j, items[k], last)[0] == LabelGroup(j.m, a);
    }
  }

  // ---- where an event comes from ----

  /** Function headers, CFI directives, symbolic data, instructions and address notes are printed for items only. */
  predicate OfItem(e: Event) {
    OfFunctionHeader(e) || e.Cfi? || e.SymbolicData? || e.Instruction? || e.AddressNote?
  }

  lemma FromStep(j: Job, item: Item, last: nat, e: Event)
    requires e in StepEvents(j, item, last) && OfItem(e)
    ensures !Overlaps(item, last) && e in ItemEvents(j, item)
  {
    var start := item.Start();
    if !Overlaps(item, last) {
      var header := SectionHeaderEvents(j, start) + ItemEvents(j, item);
      var footer := SectionFooterEvents(j, Some(start), last) + header;
      assert e in GapEvents(j, start, last) + footer;
      assert e in footer;
      assert e in header;
    }
  }

  lemma {:induction false} RepeatedOnly(e: Event, n: nat)
    ensures forall x :: x in RepeatEvent(e, n) ==> x == e
  {
    if n > 0 {
      RepeatedOnly(e, n - 1);
    }
  }

  lemma PrologueIsPrologue(dialect: Dialect, e: Event)
    requires e in PrologueEvents(dialect)
    ensures e.Prologue?
  {
    RepeatedOnly(Prologue("nop"), 8);
  }

  /** The item for which the event was printed. */
  lemma FromRun(j: Job, dialect: Dialect, items: seq<Item>, e: Event) returns (k: nat)
    requires e in PrintEvents(j, dialect, items) && OfItem(e)
    ensures k < |items| && IsPrinted(items, k) && e in ItemEvents(j, items[k])
  {
    var parts, last := Steps(j, items), Cursor(items, |items|);
    if e in PrologueEvents(dialect) {
      PrologueIsPrologue(dialect, e);
    }
    assert e in Concat(parts, |items|) + EndEvents(j, last);
    EndIsOfNoItem(j, last, e);
    k := FromConcat(parts, |items|, e);
    var cursor := StepPart(j, items, k);
    FromStep(j, items[k], cursor, e);
    assert cursor == Cursor(items, k);
  }

  lemma EndIsOfNoItem(j: Job, last: nat, e: Event)
    requires OfItem(e)
    ensures e !in EndEvents(j, last)
  {
  }

  lemma NoteOfRun(j: Job, dialect: Dialect, items: seq<Item>, e: Event)
    requires e in PrintEvents(j, dialect, items) && e.AddressNote?
    ensures IsNote(e, e.ea)
  {
    var k := FromRun(j, dialect, items, e);
    NoteOfItem(j, items[k], e);
  }

  // ---- what an assembler sees of the run ----

  lemma ItemHasNoWarning(j: Job, item: Item)
    ensures NoWarning(ItemEvents(j, item))
  {
    ItemIsInner(j, item);
    forall e | e in ItemEvents(j, item)
      ensures !e.Warning?
    {
      assert Inner(j.m, e);
    }
  }

  lemma StepsShown(j: Job, items: seq<Item>, mark: Mark, x: nat, parts: seq<seq<Event>>)
    requires parts == Steps(j, items)
    ensures Shows(false, Concat(parts, |items|), mark, x) <==>
      exists k :: 0 <= k < |items| && StepShows(j, items, k, mark, x)
    ensures OpenAfter(false, Concat(parts, |items|)) == Open(j, items, |items|)
  {
    var opens := Opens(j, items);
    forall k | 0 <= k < |items|
      ensures Shows(opens[k], parts[k], mark, x) <==> StepShows(j, items, k, mark, x)
      ensures Fold(StaysOpen, opens[k], parts[k]) == opens[k + 1]
    {
      ItemHasNoWarning(j, items[k]);
      StepShown(j, items, k, mark, x);
    }
    ShowsParts(parts, opens, |items|, mark, x);
  }

  lemma EndShown(j: Job, last: nat, open: bool, mark: Mark, x: nat)
    ensures Shows(open, EndEvents(j, last), mark, x) <==> x == last && NameIn(mark, Kept(j.m, x, open))
  {
    var rest := OpenAfter(open, [LabelGroup(j.m, last)]);
    GroupShown(j.m, last, open, mark, x);
    BracketsShown(j, None, last, last, rest, mark, x);
    ShowsConcat(open, [LabelGroup(j.m, last)], SectionFooterEvents(j, None, last), mark, x);
  }

  lemma PrologueShown(dialect: Dialect, mark: Mark, x: nat)
    ensures !Shows(false, PrologueEvents(dialect), mark, x) && !OpenAfter(false, PrologueEvents(dialect))
  {
    forall e | e in PrologueEvents(dialect)
      ensures e.Prologue?
    {
      PrologueIsPrologue(dialect, e);
    }
    MarklessShowNothing(false, PrologueEvents(dialect), mark, x);
    MarklessEnds(false, PrologueEvents(dialect));
  }

  /**
   The symbol table of the output: an assembler sees a name defined at an address, or an address note,
   exactly when one of the printed items or the end of the run shows it.
   */
  lemma RunShown(j: Job, dialect: Dialect, items: seq<Item>, mark: Mark, x: nat)
    ensures Shows(false, PrintEvents(j, dialect, items), mark, x) <==> RunShows(j, items, mark, x)
  {
    var steps, last := Concat(Steps(j, items), |items|), Cursor(items, |items|);
    PrologueShown(dialect, mark, x);
    StepsShown(j, items, mark, x, Steps(j, items));
    EndShown(j, last, Open(j, items, |items|), mark, x);
    ShowsConcat(false, PrologueEvents(dialect), steps + EndEvents(j, last), mark, x);
    ShowsConcat(false, steps, EndEvents(j, last), mark, x);
  }

  /** Every address note that is seen in the run can be read. */
  ghost predicate ReadableRun(j: Job, items: seq<Item>) {
    forall x: nat :: RunShows(j, items, Note, x) ==> Legible(x)
  }

  lemma RunIsReadable(j: Job, dialect: Dialect, items: seq<Item>)
    ensures Readable(PrintEvents(j, dialect, items)) <==> ReadableRun(j, items)
  {
    var es := PrintEvents(j, dialect, items);
    forall e | e in SeenOf(false, es) && e.AddressNote?
      ensures (ReadableNote(e.text) <==> Legible(e.ea)) && RunShows(j, items, Note, e.ea)
    {
      SeenIsPrinted(false, es, e);
      NoteOfRun(j, dialect, items, e);
      assert Marks(e, Note, e.ea);
      RunShown(j, dialect, items, Note, e.ea);
    }
    if Readable(es) {
      forall x: nat | RunShows(j, items, Note, x)
        ensures Legible(x)
      {
        RunShown(j, dialect, items, Note, x);
        var e :| e in SeenOf(false, es) && Marks(e, Note, x);
      }
    }
  }

  // ---- references ----

  /** Item k defines the name at x other than as the label of a symbol: as a function, or as an address note. */
  predicate DefinesOtherwise(j: Job, items: seq<Item>, k: nat, name: string, x: nat)
    requires k < |items|
  {
    IsPrinted(items, k) && (
      || (items[k].Code? && !SkipEA(j, items[k].Start()) && HeaderShows(j.m, items[k].Start(), Name(name), x))
      || (StepShows(j, items, k, Note, x) && NoteDefines(x, name)))
  }

  /** Item k defines the name elsewhere than at a, though not as the label of a symbol. */
  ghost predicate Collides(j: Job, items: seq<Item>, name: string, a: nat, k: nat)
    requires k < |items|
  {
    exists x: nat :: x != a && DefinesOtherwise(j, items, k, name, x)
  }

  lemma ItemNameFrom(j: Job, item: Item, open: bool, name: string, x: nat)
    requires ItemShows(j, item, open, Name(name), x)
    ensures name in LabelGroup(j.m, x).names || (item.Code? && HeaderShows(j.m, item.Start(), Name(name), x)) ||
      (ItemShows(j, item, open, Note, x) && NoteDefines(x, name))
  {
    if item.Code? && !HeaderShows(j.m, item.Start(), Name(name), x) {
      var b := item.block;
      var n :| 0 <= n < |b.insns| && InsnShows(j, Fixup(b.insns[n]), InsnAddress(b, n), Name(name), x);
      assert name in LabelGroup(j.m, x).names || InsnShows(j, Fixup(b.insns[n]), InsnAddress(b, n), Note, x);
    }
  }

  lemma StepNameFrom(j: Job, items: seq<Item>, k: nat, name: string, x: nat)
    requires k < |items| && StepShows(j, items, k, Name(name), x)
    ensures name in LabelGroup(j.m, x).names || DefinesOtherwise(j, items, k, name, x)
  {
    var open := Open(j, items, k) && SilentLead(j, items[k], Cursor(items, k));
    if ItemShows(j, items[k], open, Name(name), x) {
      ItemNameFrom(j, items[k], open, name, x);
    }
  }

  lemma OtherwiseShows(j: Job, items: seq<Item>, k: nat, name: string, x: nat)
    requires k < |items| && DefinesOtherwise(j, items, k, name, x)
    ensures StepShows(j, items, k, Name(name), x)
  {
    var open := Open(j, items, k) && SilentLead(j, items[k], Cursor(items, k));
    if items[k].Code? && StepShows(j, items, k, Note, x) && NoteDefines(x, name) {
      var b := items[k].block;
      var n :| 0 <= n < |b.insns| && InsnShows(j, Fixup(b.insns[n]), InsnAddress(b, n), Note, x);
      assert InsnShows(j, Fixup(b.insns[n]), InsnAddress(b, n), Name(name), x);
    }
  }

  lemma LabelAtTheSymbol(m: Module, s: Symbol, a: nat, x: nat)
    requires NamesAreFree(m) && s in m.symbols && s.address == Some(a)
    requires LabelName(m, s, a) in LabelGroup(m, x).names
    ensures x == a
  {
    GroupNames(m, x, LabelName(m, s, a));
    var t :| t in m.symbols && t.address == Some(x) && LabelName(m, t, x) == LabelName(m, s, a);
    LabelTellsAddress(m, s, a, t, x);
  }

  /** Another definition of the label of a symbol is the header of a function or an address note. */
  lemma OtherDefinition(j: Job, items: seq<Item>, s: Symbol, a: nat, x: nat) returns (k: nat)
    requires NamesAreFree(j.m) && s in j.m.symbols && s.address == Some(a)
    requires RunShows(j, items, Name(LabelName(j.m, s, a)), x) && x != a
    ensures k < |items| && Collides(j, items, LabelName(j.m, s, a), a, k)
  {
    var name := LabelName(j.m, s, a);
    if EndShows(j, items, Name(name), x) {
      LabelAtTheSymbol(j.m, s, a, x);
    }
    k :| 0 <= k < |items| && StepShows(j, items, k, Name(name), x);
    StepNameFrom(j, items, k, name, x);
    if name in LabelGroup(j.m, x).names {
      LabelAtTheSymbol(j.m, s, a, x);
    }
  }

  /** The symbol is referred to by name: it has an address, and is neither forwarded nor skipped. */
  predicate ByName(j: Job, s: Symbol, a: nat) {
    s in j.m.symbols && s.address == Some(a) && s.id !in j.m.forwarding && !SkipEA(j, a)
  }

  /**
   The label of a symbol at a is seen, nothing elsewhere has the same name, and no address note spoils
   the output.
   */
  ghost predicate Resolvable(j: Job, items: seq<Item>, name: string, a: nat) {
    && ReadableRun(j, items)
    && RunShows(j, items, Name(name), a)
    && forall k :: 0 <= k < |items| ==> !Collides(j, items, name, a, k)
  }

  /**
   A reference by name to a symbol resolves, so that the output defines the name at the address of the
   symbol and nowhere else, if and only if its label is seen, no function or address note elsewhere has
   that name, and no address note spoils the output. A label is seen if it is printed and is not the
   first one after a warning.
   */
  lemma ReferencesResolve(j: Job, dialect: Dialect, items: seq<Item>, s: Symbol, a: nat)
    requires NamesAreFree(j.m) && ByName(j, s, a)
    ensures Reference(j, s) == Named(LabelName(j.m, s, a))
    ensures Resolves(PrintEvents(j, dialect, items), Reference(j, s).name, a) <==>
      Resolvable(j, items, Reference(j, s).name, a)
  {
    var name := LabelName(j.m, s, a);
    RunIsReadable(j, dialect, items);
    RunShown(j, dialect, items, Name(name), a);
    if k :| 0 <= k < |items| && Collides(j, items, name, a, k) {
      var x: nat :| x != a && DefinesOtherwise(j, items, k, name, x);
      OtherwiseShows(j, items, k, name, x);
      RunShown(j, dialect, items, Name(name), x);
    } else {
      forall x | Shows(false, PrintEvents(j, dialect, items), Name(name), x)
        ensures x == a
      {
        RunShown(j, dialect, items, Name(name), x);
        if x != a {
          var k := OtherDefinition(j, items, s, a, x);
        }
      }
    }
  }

  // ---- without warnings ----

  /** Every item is printed. */
  predicate NoOverlap(items: seq<Item>) {
    forall k :: 0 <= k < |items| ==> IsPrinted(items, k)
  }

  lemma NothingOpen(j: Job, items: seq<Item>, k: nat)
    requires NoOverlap(items) && k <= |items|
    ensures !Open(j, items, k)
  {
  }

  /** The symbol is referred to by name, and is at a printed place. */
  predicate Local(j: Job, items: seq<Item>, s: Symbol, a: nat) {
    ByName(j, s, a) && Place(j, items, a)
  }

  /** Without warnings every label at a printed place is seen. */
  lemma PlaceShows(j: Job, items: seq<Item>, a: nat, name: string)
    requires Place(j, items, a) && NoOverlap(items) && name in LabelGroup(j.m, a).names
    ensures RunShows(j, items, Name(name), a)
  {
    if a == Cursor(items, |items|) {
      NothingOpen(j, items, |items|);
    } else {
      var k :| 0 <= k < |items| && StepPlace(j, items, k, a);
      StepPlaceShows(j, items, k, a, name);
    }
  }

  lemma StepPlaceShows(j: Job, items: seq<Item>, k: nat, a: nat, name: string)
    requires k < |items| && StepPlace(j, items, k, a) && NoOverlap(items) && name in LabelGroup(j.m, a).names
    ensures StepShows(j, items, k, Name(name), a)
  {
    NothingOpen(j, items, k);
    if ItemPlace(j, items[k], a) && items[k].Code? {
      var b := items[k].block;
      var n :| 0 <= n < |b.insns| && InsnAddress(b, n) == a;
      assert InsnShows(j, Fixup(b.insns[n]), InsnAddress(b, n), Name(name), a);
    }
  }

  lemma NothingNoted(j: Job, items: seq<Item>, k: nat, x: nat)
    requires k < |items| && !j.policy.debug
    ensures !StepShows(j, items, k, Note, x)
  {
  }

  lemma NothingSpoiled(j: Job, items: seq<Item>)
    requires !j.policy.debug
    ensures ReadableRun(j, items)
  {
    forall x: nat
      ensures !RunShows(j, items, Note, x)
    {
      NoNoteInRun(j, items, x);
    }
  }

  lemma NoNoteInRun(j: Job, items: seq<Item>, x: nat)
    requires !j.policy.debug
    ensures !RunShows(j, items, Note, x)
  {
    forall k | 0 <= k < |items|
      ensures !StepShows(j, items, k, Note, x)
    {
      NothingNoted(j, items, k, x);
    }
  }

  /** Outside debug mode, without warnings and without a made-up function name in its way, every reference resolves. */
  lemma OwnNamesResolve(j: Job, dialect: Dialect, items: seq<Item>, s: Symbol, a: nat)
    requires NamesAreFree(j.m) && Local(j, items, s, a) && NoOverlap(items) && !j.policy.debug
    requires forall x :: x in j.m.entries ==> !HasMadeUpName(j.m, x) || FunctionName(j.m, x) != s.name
    ensures Reference(j, s) == Named(LabelName(j.m, s, a))
    ensures Resolves(PrintEvents(j, dialect, items), Reference(j, s).name, a)
  {
    var name := LabelName(j.m, s, a);
    ReferencesResolve(j, dialect, items, s, a);
    GroupNames(j.m, a, name);
    PlaceShows(j, items, a, name);
    NothingSpoiled(j, items);
    forall k | 0 <= k < |items| && Collides(j, items, name, a, k)
      ensures false
    {
      var x: nat :| x != a && DefinesOtherwise(j, items, k, name, x);
      NothingNoted(j, items, k, x);
      OnlyMadeUpNamesCollide(j.m, s, a, x);
    }
  }
}
