/** The references that occur in a run, and where they come from. */
module PrintedReferences {
  import opened Common
  import opened Numerals
  import opened Texts
  import opened Escapes
  import opened Program
  import opened Events
  import opened Greedy
  import opened Labels
  import opened Names
  import opened References
  import opened Renderings

  // ---- where directives come from ----

  lemma {:induction false} CfiLineFrom(j: Job, o: Offset, ds: seq<CfiDirective>, e: Event) returns (d: CfiDirective)
    requires e in CfiLines(j, o, ds)
    ensures d in ds && e == Cfi(o, CfiText(j, d))
  {
    var init, last := ds[..|ds| - 1], ds[|ds| - 1];
    if e == Cfi(o, CfiText(j, last)) {
      d := last;
    } else {
      d := CfiLineFrom(j, o, init, e);
    }
  }

  /** A CFI event is one of the directives of the module at its offset. */
  predicate IsDirective(j: Job, e: Event, d: CfiDirective) {
    && e.Cfi? && j.m.cfi.Some? && e.at in j.m.cfi.value
    && d in j.m.cfi.value[e.at] && e.text == CfiText(j, d)
  }

  lemma CfiFrom(j: Job, o: Offset, e: Event) returns (d: CfiDirective)
    requires e in CfiEvents(j, o)
    ensures IsDirective(j, e, d)
  {
    d := CfiLineFrom(j, o, j.m.cfi.value[o], e);
  }

  lemma InsnCfiFrom(j: Job, insn: Insn, ea: nat, o: Offset, e: Event) returns (d: CfiDirective)
    requires e in InsnEvents(j, insn, ea, o) && e.Cfi?
    ensures IsDirective(j, e, d)
  {
    FromInsn(j, insn, ea, o, e);
    BodyIsPlain(j, insn, ea);
    d := CfiFrom(j, o, e);
  }

  lemma BlockCfiFrom(j: Job, b: CodeBlock, e: Event) returns (d: CfiDirective)
    requires e in BlockEvents(j, b) && e.Cfi?
    ensures IsDirective(j, e, d)
  {
    var n := FromBlock(j, b, e);
    if e in CfiEvents(j, InsnOffset(b, |b.insns|)) {
      d := CfiFrom(j, InsnOffset(b, |b.insns|), e);
    } else {
      d := InsnCfiFrom(j, Fixup(b.insns[n]), InsnAddress(b, n), InsnOffset(b, n), e);
    }
  }

  lemma ItemCfiFrom(j: Job, item: Item, e: Event) returns (d: CfiDirective)
    requires e in ItemEvents(j, item) && e.Cfi?
    ensures IsDirective(j, e, d)
  {
    match item
    case Code(b) => d := BlockCfiFrom(j, b, e);
    case Data(b) =>
      DataEventsFrom(j, b, e);
      assert false;
  }

  /** Symbolic data is the expression at the address of the block. */
  lemma DataEventsFrom(j: Job, d: DataBlock, e: Event)
    requires e in DataEvents(j, d)
    ensures !e.Cfi? && !e.Instruction?
    ensures e.SymbolicData? ==> !SkipEA(j, d.address) && d.address in j.m.symexprs
    ensures e.SymbolicData? ==> e == SymbolicDataEvent(j, d, j.m.symexprs[d.address])
  {
    FromData(j, d, e);
    BytesArePlain(d.bytes);
  }

  lemma CodeHasNoSymbolicData(j: Job, b: CodeBlock, e: Event)
    requires e in BlockEvents(j, b)
    ensures !e.SymbolicData?
  {
    var n := FromBlock(j, b, e);
    CfiIsPlain(j, InsnOffset(b, |b.insns|));
    if n < |b.insns| && e in InsnPart(j, b, n) {
      InsnHasNoSymbolicData(j, Fixup(b.insns[n]), InsnAddress(b, n), InsnOffset(b, n), e);
    }
  }

  lemma InsnHasNoSymbolicData(j: Job, insn: Insn, ea: nat, o: Offset, e: Event)
    requires e in InsnEvents(j, insn, ea, o)
    ensures !e.SymbolicData?
  {
    FromInsn(j, insn, ea, o, e);
    CfiIsPlain(j, o);
    BodyIsPlain(j, insn, ea);
  }

  /** Item k prints the symbolic expression at its address. */
  predicate PrintsExpression(j: Job, items: seq<Item>, k: nat, e: Event)
    requires k < |items|
  {
    && IsPrinted(items, k) && items[k].Data? && !SkipEA(j, items[k].Start()) && items[k].Start() in j.m.symexprs
    && e == SymbolicDataEvent(j, items[k].data, j.m.symexprs[items[k].Start()])
  }

  predicate IsCalled(m: Module, id: Identifier, s: Symbol) {
    SymbolById(m.symbols, id) == Some(s)
  }

  predicate PointsTo(o: Operand, s: Symbol) {
    o.target.Some? && o.target.value.symbol == s
  }

  /** The event refers to the symbol: in symbolic data, in a directive, or in an operand. */
  predicate RefersTo(j: Job, e: Event, s: Symbol) {
    match e
    case SymbolicData(_, SymAddrConst(id, _), _) => IsCalled(j.m, id, s)
    case SymbolicData(_, SymAddrAddr(left, right), _) => IsCalled(j.m, left, s) || IsCalled(j.m, right, s)
    case Cfi(at, _) =>
      j.m.cfi.Some? && at in j.m.cfi.value &&
      exists d :: d in j.m.cfi.value[at] && IsDirective(j, e, d) && d.symbol == Some(s)
    case Instruction(_, insn, _) => exists o :: o in insn.operands && PointsTo(o, s)
    case _ => false
  }

  /** The text ends with a reference by this name. */
  predicate EndsWith(text: string, name: string) {
    |name| <= |text| && text[|text| - |name|..] == name
  }

  lemma DirectiveEndsWithSymbol(j: Job, d: CfiDirective, s: Symbol, name: string)
    requires d.symbol == Some(s) && Reference(j, s) == Named(name)
    ensures EndsWith(CfiText(j, d), name)
  {
    var head := d.name + " " + OperandsText(d.operands);
    var comma := if d.operands == [] then "" else ", ";
    assert CfiSymbolText(j, d) == comma + name;
    assert CfiText(j, d) == head + (comma + name);
    Associate(head, comma, name);
  }

  // ---- references in operands ----

  /**
   The text has the operand at some place, before a comma or at the end, with this name for its symbol and
   the distance from it.
   */
  ghost predicate Cites(text: string, o: Operand, name: string) {
    o.target.Some? && exists head, d, tail :: CitedAs(text, o, name, head, d, tail)
  }

  predicate CitedAs(text: string, o: Operand, name: string, head: string, d: string, tail: string)
    requires o.target.Some?
  {
    && IsDistance(d, o.target.value.addend) && (tail == "" || tail[0] == ',')
    && text == head + (o.before + (name + (d + (o.after + tail))))
  }

  lemma {:induction false} FieldInJoin(fields: seq<string>, k: nat) returns (before: string, after: string)
    requires k < |fields|
    ensures Join(fields) == before + (fields[k] + after) && (after == "" || after[0] == ',')
    decreases |fields|
  {
    if |fields| == 1 {
      before, after := "", "";
      Empty(fields[0]);
    } else if k == 0 {
      before, after := "", "," + Join(fields[1..]);
      Associate(fields[0], ",", Join(fields[1..]));
      Empty(fields[0] + after);
    } else {
      var b;
      b, after := FieldInJoin(fields[1..], k - 1);
      before := fields[0] + "," + b;
      Associate(fields[0] + ",", b, fields[k] + after);
    }
  }

  lemma Within(a: string, b: string, name: string, d: string, c: string, tail: string)
    ensures a + ((b + (name + (d + c))) + tail) == a + (b + (name + (d + (c + tail))))
  {
  }

  lemma OperandCites(j: Job, o: Operand, s: Symbol, name: string) returns (d: string)
    requires PointsTo(o, s) && Reference(j, s) == Named(name)
    ensures IsDistance(d, o.target.value.addend) && OperandText(j, o) == o.before + (name + (d + o.after))
  {
    d := Addend(o.target.value.addend, false);
    DistanceExactly(d, o.target.value.addend);
    Associate(name, d, o.after);
  }

  lemma InsnCites(j: Job, insn: Insn, k: nat, s: Symbol, name: string)
    requires k < |insn.operands| && PointsTo(insn.operands[k], s) && Reference(j, s) == Named(name)
    ensures Cites(InsnText(j, insn), insn.operands[k], name)
  {
    var o := insn.operands[k];
    var d := OperandCites(j, o, s, name);
    var head, tail := FieldInJoin(OperandTexts(j, insn.operands), k);
    var start := ToLower(insn.mnemonic) + (" " + head);
    Associate(" ", head, OperandText(j, o) + tail);
    Associate(ToLower(insn.mnemonic), " " + head, OperandText(j, o) + tail);
    Within(start, o.before, name, d, o.after, tail);
    assert CitedAs(InsnText(j, insn), o, name, start, d, tail);
  }

  // ---- references in data ----

  /** The text is the symbol under this name and the distance from it, or the name is on its side of a difference. */
  ghost predicate DataCites(j: Job, expr: SymExpr, text: string, s: Symbol, name: string) {
    match expr
    case SymAddrConst(_, addend) => exists d :: IsDistance(d, addend) && text == name + d
    case SymAddrAddr(left, right) =>
      exists l, r :: text == l + ("-" + r) && (IsCalled(j.m, left, s) ==> l == name) &&
        (IsCalled(j.m, right, s) ==> r == name)
  }

  lemma ExpressionCites(j: Job, d: DataBlock, e: Event, s: Symbol, name: string)
    requires e.SymbolicData? && e == SymbolicDataEvent(j, d, e.expr)
    requires RefersTo(j, e, s) && Reference(j, s) == Named(name)
    ensures DataCites(j, e.expr, e.text, s, name)
  {
    match e.expr
    case SymAddrConst(_, addend) => DistanceExactly(Addend(addend, false), addend);
    case SymAddrAddr(left, right) =>
  }

  /** The event is one of the instructions of the block, with the text that its operands give. */
  predicate IsInsnOf(j: Job, b: CodeBlock, e: Event) {
    exists n :: 0 <= n < |b.insns| &&
      e == Instruction(InsnAddress(b, n), Fixup(b.insns[n]), InsnText(j, Fixup(b.insns[n])))
  }

  lemma {:induction false} NopsAreNoInstructions(j: Job, ea: nat, n: nat, e: Event)
    requires e in NopEvents(j, ea, n)
    ensures !e.Instruction?
  {
    if e in NopEvents(j, ea, n - 1) {
      NopsAreNoInstructions(j, ea, n - 1, e);
    }
  }

  lemma InstructionOfPart(j: Job, b: CodeBlock, n: nat, e: Event)
    requires n < |b.insns| && e in InsnPart(j, b, n) && e.Instruction?
    ensures e == Instruction(InsnAddress(b, n), Fixup(b.insns[n]), InsnText(j, Fixup(b.insns[n])))
  {
    var insn, ea := Fixup(b.insns[n]), InsnAddress(b, n);
    FromInsn(j, insn, ea, InsnOffset(b, n), e);
    CfiIsPlain(j, InsnOffset(b, n));
    if insn.kind == NopInsn {
      NopsAreNoInstructions(j, ea, if insn.size == 0 then 1 else insn.size, e);
    }
  }

  lemma InstructionOfBlock(j: Job, b: CodeBlock, e: Event)
    requires e in BlockEvents(j, b) && e.Instruction?
    ensures IsInsnOf(j, b, e)
  {
    var n := FromBlock(j, b, e);
    CfiIsPlain(j, InsnOffset(b, |b.insns|));
    InstructionOfPart(j, b, n, e);
  }

  /** Item k prints the instruction. */
  predicate PrintsInsn(j: Job, items: seq<Item>, k: nat, e: Event)
    requires k < |items|
  {
    IsPrinted(items, k) && items[k].Code? && !SkipEA(j, items[k].Start()) && IsInsnOf(j, items[k].block, e)
  }

  lemma InstructionOfItem(j: Job, items: seq<Item>, k: nat, e: Event)
    requires k < |items| && IsPrinted(items, k) && e in ItemEvents(j, items[k]) && e.Instruction?
    ensures PrintsInsn(j, items, k, e)
  {
    match items[k]
    case Code(b) => InstructionOfBlock(j, b, e);
    case Data(d) => DataEventsFrom(j, d, e);
  }

  // ---- all references of a run ----

  /** Where an event that refers to a symbol comes from. */
  predicate ComesFrom(j: Job, items: seq<Item>, e: Event) {
    match e
    case SymbolicData(_, _, _) => exists k :: 0 <= k < |items| && PrintsExpression(j, items, k, e)
    case Instruction(_, _, _) => exists k :: 0 <= k < |items| && PrintsInsn(j, items, k, e)
    case _ => true
  }

  lemma ReferenceComesFrom(j: Job, dialect: Dialect, items: seq<Item>, e: Event)
    requires e in PrintEvents(j, dialect, items)
    ensures ComesFrom(j, items, e)
  {
    if e.SymbolicData? {
      var k := FromRun(j, dialect, items, e);
      ExpressionOfItem(j, items, k, e);
    } else if e.Instruction? {
      var k := FromRun(j, dialect, items, e);
      InstructionOfItem(j, items, k, e);
    }
  }

  /**
   What is printed as symbolic data is the expression at the address of a printed data block, what is
   printed as an instruction is one of a printed block, and what is printed as a CFI directive is a
   directive of the module. In each, a reference to a symbol that is referred to by name is by its label,
   which resolves under the condition for all references.
   */
  lemma PrintedReferencesResolve(j: Job, dialect: Dialect, items: seq<Item>, e: Event, s: Symbol, a: nat)
    requires NamesAreFree(j.m) && e in PrintEvents(j, dialect, items)
    requires RefersTo(j, e, s) && ByName(j, s, a)
    ensures ComesFrom(j, items, e) && Reference(j, s).Named?
    ensures e.Cfi? ==> EndsWith(e.text, Reference(j, s).name)
    ensures e.Instruction? ==>
      forall o :: o in e.insn.operands && PointsTo(o, s) ==> Cites(e.text, o, Reference(j, s).name)
    ensures e.SymbolicData? ==> DataCites(j, e.expr, e.text, s, Reference(j, s).name)
    ensures Resolves(PrintEvents(j, dialect, items), Reference(j, s).name, a) <==>
      Resolvable(j, items, Reference(j, s).name, a)
  {
    ReferencesResolve(j, dialect, items, s, a);
    ReferenceComesFrom(j, dialect, items, e);
    if e.Cfi? {
      var d :| d in j.m.cfi.value[e.at] && IsDirective(j, e, d) && d.symbol == Some(s);
      DirectiveEndsWithSymbol(j, d, s, LabelName(j.m, s, a));
    } else if e.Instruction? {
      InstructionCites(j, items, e, s, LabelName(j.m, s, a));
    } else if e.SymbolicData? {
      DataOfRunCites(j, items, e, s, LabelName(j.m, s, a));
    }
  }

  lemma DataOfRunCites(j: Job, items: seq<Item>, e: Event, s: Symbol, name: string)
    requires e.SymbolicData? && ComesFrom(j, items, e) && RefersTo(j, e, s) && Reference(j, s) == Named(name)
    ensures DataCites(j, e.expr, e.text, s, name)
  {
    var k :| 0 <= k < |items| && PrintsExpression(j, items, k, e);
    ExpressionCites(j, items[k].data, e, s, name);
  }

  lemma InstructionCites(j: Job, items: seq<Item>, e: Event, s: Symbol, name: string)
    requires e.Instruction? && ComesFrom(j, items, e) && Reference(j, s) == Named(name)
    ensures forall o :: o in e.insn.operands && PointsTo(o, s) ==> Cites(e.text, o, name)
  {
    forall o | o in e.insn.operands && PointsTo(o, s)
      ensures Cites(e.text, o, name)
    {
      var k :| 0 <= k < |e.insn.operands| && e.insn.operands[k] == o;
      InsnCites(j, e.insn, k, s, name);
    }
  }

  lemma ExpressionOfItem(j: Job, items: seq<Item>, k: nat, e: Event)
    requires k < |items| && IsPrinted(items, k) && e in ItemEvents(j, items[k]) && e.SymbolicData?
    ensures PrintsExpression(j, items, k, e)
  {
    match items[k]
    case Code(b) => CodeHasNoSymbolicData(j, b, e);
    case Data(d) => DataEventsFrom(j, d, e);
  }

  /** Every CFI event of the run is a directive of the module. */
  lemma PrintedDirectives(j: Job, dialect: Dialect, items: seq<Item>, e: Event) returns (d: CfiDirective)
    requires e in PrintEvents(j, dialect, items) && e.Cfi?
    ensures IsDirective(j, e, d)
  {
    var k := FromRun(j, dialect, items, e);
    d := ItemCfiFrom(j, items[k], e);
  }
}
