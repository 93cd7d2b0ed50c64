/** What the output declares: its syntax, functions and their labels, and what it warns of. */
module Declarations {
  import opened Common
  import opened Folds
  import opened Program
  import opened Events
  import opened Greedy
  import opened Labels
  import opened SymbolNames
  import opened References
  import opened SkipCoherence
  import opened LocationCounter

  lemma InsnPartsArePlain(j: Job, b: CodeBlock, n: nat, e: Event)
    requires n < |b.insns| && e in InsnPart(j, b, n)
    ensures !OfFunctionHeader(e)
  {
    var insn, ea, o := Fixup(b.insns[n]), InsnAddress(b, n), InsnOffset(b, n);
    FromInsn(j, insn, ea, o, e);
    CfiIsPlain(j, o);
    BodyIsPlain(j, insn, ea);
  }

  /** What declares a function is printed in the header of its block only. */
  lemma HeaderOfBlock(j: Job, b: CodeBlock, e: Event)
    requires OfFunctionHeader(e)
    ensures e in BlockEvents(j, b) <==> !SkipEA(j, b.address) && e in FunctionHeaderEvents(j.m, b.address)
  {
    if e in BlockEvents(j, b) {
      var n := FromBlock(j, b, e);
      CfiIsPlain(j, InsnOffset(b, |b.insns|));
      if n < |b.insns| && e in InsnPart(j, b, n) {
        InsnPartsArePlain(j, b, n, e);
      }
      assert e in BlockHeaderEvents(j.m, b.address);
    }
    if !SkipEA(j, b.address) && e in FunctionHeaderEvents(j.m, b.address) {
      assert e in BlockHeaderEvents(j.m, b.address);
    }
  }

  lemma NoHeaderOfData(j: Job, d: DataBlock, e: Event)
    requires e in DataEvents(j, d)
    ensures !OfFunctionHeader(e)
  {
    FromData(j, d, e);
    ContentIsPlain(j, d);
  }

  /** Item k is a printed block that begins with the header of this function. */
  ghost predicate BeginsFunction(j: Job, items: seq<Item>, k: nat, name: string)
    requires k < |items|
  {
    && IsPrinted(items, k) && items[k].Code? && !Suppressed(j, items[k].Start())
    && items[k].Start() in j.m.entries && name != "" && IsFunctionName(j.m, items[k].Start(), name)
  }

  lemma HeaderOfItemExactly(j: Job, items: seq<Item>, k: nat, e: Event, name: string)
    requires Ascending(j.m.entries) && k < |items| && IsPrinted(items, k)
    requires e == Global(name) || e == TypeFunction(name) || (e.FunctionLabel? && e.name == name)
    ensures e in ItemEvents(j, items[k]) <==>
      BeginsFunction(j, items, k, name) && (e.FunctionLabel? ==> e.ea == items[k].Start())
  {
    SuppressedExactly(j, items[k].Start());
    match items[k]
    case Code(b) =>
      HeaderOfBlock(j, b, e);
      if b.address in j.m.entries {
        FunctionNameExactly(j.m, b.address, name);
      }
    case Data(d) =>
      if e in DataEvents(j, d) {
        NoHeaderOfData(j, d, e);
      }
  }

  lemma InRun(j: Job, dialect: Dialect, items: seq<Item>, k: nat, e: Event)
    requires k < |items| && IsPrinted(items, k) && e in ItemEvents(j, items[k])
    ensures e in PrintEvents(j, dialect, items)
  {
    var last := StepPart(j, items, k);
    StepHasItem(j, items[k], last, e);
    PartInConcat(Steps(j, items), |items|, k, e);
    assert e in Concat(Steps(j, items), |items|) + EndEvents(j, Cursor(items, |items|));
  }

  lemma DeclaredExactly(j: Job, dialect: Dialect, items: seq<Item>, e: Event, name: string)
    requires Ascending(j.m.entries)
    requires e == Global(name) || e == TypeFunction(name) || (e.FunctionLabel? && e.name == name)
    ensures e in PrintEvents(j, dialect, items) <==>
      exists k :: 0 <= k < |items| && BeginsFunction(j, items, k, name) &&
        (e.FunctionLabel? ==> e.ea == items[k].Start())
  {
    if e in PrintEvents(j, dialect, items) {
      var k := FromRun(j, dialect, items, e);
      HeaderOfItemExactly(j, items, k, e, name);
    }
    if k :| 0 <= k < |items| && BeginsFunction(j, items, k, name) && (e.FunctionLabel? ==> e.ea == items[k].Start()) {
      HeaderOfItemExactly(j, items, k, e, name);
      InRun(j, dialect, items, k, e);
    }
  }

  /**
   The run makes a name global, gives it the type of a function, and defines it as the label of a function,
   if and only if a printed block begins a function of this name; the label is at the address of the block.
   */
  lemma FunctionsAreDeclared(j: Job, dialect: Dialect, items: seq<Item>, name: string, ea: nat)
    requires Ascending(j.m.entries)
    ensures var run := PrintEvents(j, dialect, items);
      && (Global(name) in run <==> exists k :: 0 <= k < |items| && BeginsFunction(j, items, k, name))
      && (TypeFunction(name) in run <==> exists k :: 0 <= k < |items| && BeginsFunction(j, items, k, name))
      && (FunctionLabel(ea, name) in run <==>
          exists k :: 0 <= k < |items| && BeginsFunction(j, items, k, name) && items[k].Start() == ea)
  {
    DeclaredExactly(j, dialect, items, Global(name), name);
    DeclaredExactly(j, dialect, items, TypeFunction(name), name);
    DeclaredExactly(j, dialect, items, FunctionLabel(ea, name), name);
  }

  lemma MultipleOf(n: nat, q: nat)
    requires n in {1, 2, 4, 8, 16}
    ensures (n * q) % n == 0
  {
    if n == 16 {
      DivisibleBy16(q, 0);
    } else if n == 8 {
      DivisibleBy8(q, 0);
    } else if n == 4 {
      DivisibleBy4(q, 0);
    } else if n == 2 {
      DivisibleBy2(q, 0);
    }
  }

  lemma NextMultiple(p: nat, n: nat)
    requires n in {1, 2, 4, 8, 16} && p % n != 0
    ensures p + (n - p % n) == n * (p / n + 1)
  {
  }

  /** Rounding up gives the next multiple. */
  lemma RoundUpIsNext(p: nat, n: nat)
    requires n in {1, 2, 4, 8, 16}
    ensures RoundUp(p, n) % n == 0 && p <= RoundUp(p, n) < p + n
  {
    if p % n != 0 {
      NextMultiple(p, n);
      MultipleOf(n, p / n + 1);
    }
  }

  /** Position q is the first multiple of n from p on. */
  predicate IsPadded(p: nat, n: nat, q: nat)
    requires n > 0
  {
    p <= q < p + n && q % n == 0
  }

  /** The label of a function ends its header, behind the padding to a multiple of the alignment. */
  lemma FunctionLabelIsAligned(m: Module, a: nat, section: string, p: nat)
      returns (before: seq<Event>, q: nat)
    requires FunctionName(m, a) != ""
    ensures FunctionHeaderEvents(m, a) == before + [FunctionLabel(a, FunctionName(m, a))]
    ensures IsPadded(p, Alignment(a), q) && Assemble(Spot(section, true, p), before) == Spot(section, true, q)
  {
    var name := FunctionName(m, a);
    var lines := [Global(name), TypeFunction(name)];
    before := AlignEvents(a) + lines;
    assert lines + [FunctionLabel(a, name)] == [Global(name), TypeFunction(name), FunctionLabel(a, name)];
    Associate(AlignEvents(a), lines, [FunctionLabel(a, name)]);
    AlignAdvances(a, section, p);
    WeightlessStays(Spot(section, true, RoundUp(p, Alignment(a))), lines);
    FoldConcat(Advance, Spot(section, true, p), AlignEvents(a), lines);
    q := RoundUp(p, Alignment(a));
    RoundUpIsNext(p, Alignment(a));
  }

  // ---- the syntax ----

  const INTEL_LINE := Prologue(".intel_syntax noprefix")

  predicate NoPrologue(es: seq<Event>) {
    forall e :: e in es ==> !e.Prologue?
  }

  lemma {:induction false} NopsHaveNoPrologue(j: Job, ea: nat, n: nat)
    ensures NoPrologue(NopEvents(j, ea, n))
  {
    if n > 0 {
      NopsHaveNoPrologue(j, ea, n - 1);
    }
  }

  lemma InsnHasNoPrologue(j: Job, b: CodeBlock, n: nat, e: Event)
    requires n < |b.insns| && e in InsnPart(j, b, n)
    ensures !e.Prologue?
  {
    var insn, ea, o := Fixup(b.insns[n]), InsnAddress(b, n), InsnOffset(b, n);
    FromInsn(j, insn, ea, o, e);
    CfiIsPlain(j, o);
    NopsHaveNoPrologue(j, ea, if insn.size == 0 then 1 else insn.size);
  }

  lemma BlockHasNoPrologue(j: Job, b: CodeBlock, e: Event)
    requires e in BlockEvents(j, b)
    ensures !e.Prologue?
  {
    var n := FromBlock(j, b, e);
    CfiIsPlain(j, InsnOffset(b, |b.insns|));
    if n < |b.insns| && e in InsnPart(j, b, n) {
      InsnHasNoPrologue(j, b, n, e);
    }
  }

  lemma DataHasNoPrologue(j: Job, d: DataBlock, e: Event)
    requires e in DataEvents(j, d)
    ensures !e.Prologue?
  {
    FromData(j, d, e);
    BytesArePlain(d.bytes);
  }

  lemma ItemHasNoPrologue(j: Job, item: Item)
    ensures NoPrologue(ItemEvents(j, item))
  {
    forall e | e in ItemEvents(j, item)
      ensures !e.Prologue?
    {
      match item
      case Code(b) => BlockHasNoPrologue(j, b, e);
      case Data(d) => DataHasNoPrologue(j, d, e);
    }
  }

  lemma StepHasNoPrologue(j: Job, item: Item, last: nat)
    ensures NoPrologue(StepEvents(j, item, last))
  {
    var start := item.Start();
    ItemHasNoPrologue(j, item);
    NoPrologueConcat(SectionHeaderEvents(j, start), ItemEvents(j, item));
    NoPrologueConcat(SectionFooterEvents(j, Some(start), last), SectionHeaderEvents(j, start) + ItemEvents(j, item));
  }

  lemma NoPrologueConcat(a: seq<Event>, b: seq<Event>)
    requires NoPrologue(a) && NoPrologue(b)
    ensures NoPrologue(a + b)
  {
  }

  lemma {:induction false} PartsHaveNoPrologue(parts: seq<seq<Event>>, n: nat)
    requires n <= |parts| && forall k :: 0 <= k < |parts| ==> NoPrologue(parts[k])
    ensures NoPrologue(Concat(parts, n))
  {
    if n > 0 {
      PartsHaveNoPrologue(parts, n - 1);
      NoPrologueConcat(Concat(parts, n - 1), parts[n - 1]);
    }
  }

  /** What is printed behind the prologue. */
  lemma BehindPrologue(j: Job, dialect: Dialect, items: seq<Item>) returns (rest: seq<Event>)
    ensures PrintEvents(j, dialect, items) == PrologueEvents(dialect) + rest && NoPrologue(rest)
  {
    var parts, last := Steps(j, items), Cursor(items, |items|);
    forall k | 0 <= k < |items|
      ensures NoPrologue(parts[k])
    {
      var cursor := StepPart(j, items, k);
      StepHasNoPrologue(j, items[k], cursor);
    }
    PartsHaveNoPrologue(parts, |items|);
    NoPrologueConcat(Concat(parts, |items|), EndEvents(j, last));
    rest := Concat(parts, |items|) + EndEvents(j, last);
  }

  lemma SyntaxLine(dialect: Dialect, rest: seq<Event>, i: nat)
    requires NoPrologue(rest) && i < |PrologueEvents(dialect)| + |rest|
    ensures (PrologueEvents(dialect) + rest)[i] == INTEL_LINE <==> dialect == IntelSyntax && i == 0
  {
    var nops := RepeatEvent(Prologue("nop"), 8);
    RepeatedOnly(Prologue("nop"), 8);
    assert forall k :: 0 <= k < |nops| ==> nops[k] == Prologue("nop");
    assert Prologue("nop").line != INTEL_LINE.line;
  }

  /** The output says that it is in Intel syntax if and only if it is, and then in its first line, and only there. */
  lemma SyntaxIsDeclared(j: Job, dialect: Dialect, items: seq<Item>, i: nat)
    requires i < |PrintEvents(j, dialect, items)|
    ensures PrintEvents(j, dialect, items)[i] == INTEL_LINE <==> dialect == IntelSyntax && i == 0
  {
    var rest := BehindPrologue(j, dialect, items);
    SyntaxLine(dialect, rest, i);
  }

  // ---- warnings ----

  lemma WarningOfStep(j: Job, item: Item, last: nat, x: nat)
    ensures Warning(x) in StepEvents(j, item, last) <==> Overlaps(item, last) && x == item.Start()
  {
    var start := item.Start();
    if !Overlaps(item, last) {
      ItemIsInner(j, item);
      InFour(GapEvents(j, start, last), SectionFooterEvents(j, Some(start), last), SectionHeaderEvents(j, start),
        ItemEvents(j, item), Warning(x));
    }
  }

  /** The output warns of an address if and only if an item there is not printed. */
  lemma WarningsExactly(j: Job, dialect: Dialect, items: seq<Item>, x: nat)
    ensures Warning(x) in PrintEvents(j, dialect, items) <==>
      exists k :: 0 <= k < |items| && !IsPrinted(items, k) && items[k].Start() == x
  {
    var steps, last := Concat(Steps(j, items), |items|), Cursor(items, |items|);
    RepeatedOnly(Prologue("nop"), 8);
    InFour(PrologueEvents(dialect), steps, [LabelGroup(j.m, last)], SectionFooterEvents(j, None, last), Warning(x));
    if Warning(x) in steps {
      var k := FromConcat(Steps(j, items), |items|, Warning(x));
      var cursor := StepPart(j, items, k);
      WarningOfStep(j, items[k], cursor, x);
      assert !IsPrinted(items, k) && items[k].Start() == x;
    }
    if k :| 0 <= k < |items| && !IsPrinted(items, k) && items[k].Start() == x {
      var cursor := StepPart(j, items, k);
      WarningOfStep(j, items[k], cursor, x);
      PartInConcat(Steps(j, items), |items|, k, Warning(x));
    }
  }
}
