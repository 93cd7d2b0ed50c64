/**
 What the printer emits, as a sequence of events. An event stands for one or a few lines of
 assembly; operands that an assembler has to parse are kept as text.
 */
module Events {
  import opened Common
  import opened Numerals
  import opened Texts
  import opened Escapes
  import opened Program

  datatype Event =
    // the label lines for all symbols at an address; none, if there is no symbol
    | Labels(ea: nat, names: seq<string>)
    // a function header: two directives and a label of its own
    | Global(symbol: string)
    | TypeFunction(symbol: string)
    | FunctionLabel(ea: nat, name: string)
    | Align(amount: nat)
    | Instruction(ea: nat, insn: Insn, text: string)
    | Nop(ea: nat)
    | ByteDirective(operand: string)
    | ZeroDirective(operand: string)
    | StringDirective(literal: string)
    | SymbolicData(directive: string, expr: SymExpr, text: string)
    | SectionHeader(section: SectionRange)
    | SectionFooter(section: SectionRange)
    | Comment(at: Offset, text: string)
    | Cfi(at: Offset, text: string)
    // a comment whose line is not ended
    | Warning(ea: nat)
    // the address column of debug output, on the line of what follows
    | AddressNote(ea: nat, text: string)
    // before the first instruction of a block
    | BlankLine
    // what precedes everything else
    | Prologue(line: string)

  // ---- labels ----

  /** The labels of the first n symbols, all of them at address a. */
  function LabelNames(m: Module, symbols: seq<Symbol>, a: nat, n: nat): seq<string>
    requires n <= |symbols|
  {
    if n == 0 then [] else LabelNames(m, symbols, a, n - 1) + [LabelName(m, symbols[n - 1], a)]
  }

  function LabelGroup(m: Module, ea: nat): Event {
    var symbols := SymbolsAt(m.symbols, ea);
    Labels(ea, LabelNames(m, symbols, ea, |symbols|))
  }

  // ---- alignment, function and section headers ----

  function Alignment(a: nat): nat {
    if a % 16 == 0 then 16 else if a % 8 == 0 then 8 else if a % 4 == 0 then 4 else if a % 2 == 0 then 2 else 1
  }

  function AlignEvents(a: nat): seq<Event> {
    if Alignment(a) == 1 then [] else [Align(Alignment(a))]
  }

  function FunctionHeaderEvents(m: Module, a: nat): seq<Event> {
    var name := FunctionName(m, a);
    if name == "" then []
    else AlignEvents(a) + [Global(name), TypeFunction(name), FunctionLabel(a, name)]
  }

  function SectionHeaderEvents(j: Job, a: nat): seq<Event> {
    match FirstAt(j.m.sections, a)
    case None => []
    case Some(section) =>
      if section.name in j.policy.skipSections then []
      else [SectionHeader(section)] + (if section.name in j.policy.arraySections then [] else AlignEvents(a))
  }

  /** The section of the byte before last is left, unless the next address is in it too. */
  function SectionFooterEvents(j: Job, next: Option<nat>, last: nat): seq<Event> {
    match ContainerSection(j.m, Wrap(last - 1))
    case None => []
    case Some(previous) =>
      if previous.name in j.policy.skipSections then []
      else if next.Some? && ContainerSection(j.m, next.value) == Some(previous) then []
      else [SectionFooter(previous)]
  }

  // ---- comments and CFI directives ----

  predicate InRange(o: Offset, element: Identifier, from: nat, to: nat) {
    o.element == element && from <= o.displacement < to
  }

  function CommentText(o: Offset, from: nat, text: string): string {
    (if o.displacement > from then "+" + FormatInt(PLAIN, o.displacement - from) + ":" else "") + " " + text
  }

  function CommentsIn(comments: seq<(Offset, string)>, element: Identifier, from: nat, to: nat): seq<Event> {
    if comments == [] then []
    else
      (if InRange(comments[0].0, element, from, to)
       then [Comment(comments[0].0, CommentText(comments[0].0, from, comments[0].1))] else []) +
      CommentsIn(comments[1..], element, from, to)
  }

  function CommentEvents(j: Job, element: Identifier, from: nat, range: nat): seq<Event> {
    if j.policy.debug then CommentsIn(j.m.comments, element, from, from + range) else []
  }

  function OperandsText(operands: seq<int>): string {
    if operands == [] then ""
    else if |operands| == 1 then FormatInt(PLAIN, operands[0])
    else OperandsText(operands[..|operands| - 1]) + ", " + FormatInt(PLAIN, operands[|operands| - 1])
  }

  function CfiSymbolText(j: Job, d: CfiDirective): string {
    if d.symbol.None? then ""
    else if d.operands == [] then RenderingText(Reference(j, d.symbol.value))
    else ", " + RenderingText(Reference(j, d.symbol.value))
  }

  function CfiText(j: Job, d: CfiDirective): string {
    d.name + " " + OperandsText(d.operands) + CfiSymbolText(j, d)
  }

  function CfiLines(j: Job, o: Offset, ds: seq<CfiDirective>): seq<Event> {
    if ds == [] then [] else CfiLines(j, o, ds[..|ds| - 1]) + [Cfi(o, CfiText(j, ds[|ds| - 1]))]
  }

  function CfiEvents(j: Job, o: Offset): seq<Event> {
    if j.m.cfi.Some? && o in j.m.cfi.value then CfiLines(j, o, j.m.cfi.value[o]) else []
  }

  // ---- code ----

  function NoteEvents(j: Job, ea: nat): seq<Event> {
    if j.policy.debug then [AddressNote(ea, ShowNat(ea, true) + ": ")] else []
  }

  /** The assembler of choice does not know endbr64: it is printed as no-ops. */
  function Fixup(insn: Insn): Insn {
    if insn.kind == Endbr64Insn then insn.(kind := NopInsn) else insn
  }

  function NopLine(j: Job, ea: nat): seq<Event> {
    NoteEvents(j, ea) + [Nop(ea)]
  }

  /** One no-op for each of the n bytes from ea on. */
  function NopEvents(j: Job, ea: nat, n: nat): seq<Event> {
    if n == 0 then [] else NopEvents(j, ea, n - 1) + NopLine(j, Wrap(ea + n - 1))
  }

  function TargetText(j: Job, t: Target): string {
    RenderingText(Reference(j, t.symbol)) + Addend(t.addend, false)
  }

  function OperandText(j: Job, o: Operand): string {
    o.before + ((if o.target.Some? then TargetText(j, o.target.value) else "") + o.after)
  }

  function OperandTexts(j: Job, operands: seq<Operand>): (r: seq<string>)
    ensures |r| == |operands|
  {
    seq(|operands|, k requires 0 <= k < |operands| => OperandText(j, operands[k]))
  }

  /** The mnemonic in lower case, and the operands separated by commas. */
  function InsnText(j: Job, insn: Insn): string {
    ToLower(insn.mnemonic) + (" " + Join(OperandTexts(j, insn.operands)))
  }

  function BodyEvents(j: Job, insn: Insn, ea: nat): seq<Event> {
    if insn.kind == NopInsn then
      // at least one no-op is printed
      NopEvents(j, ea, if insn.size == 0 then 1 else insn.size)
    else NoteEvents(j, ea) + [Instruction(ea, insn, InsnText(j, insn))]
  }

  function InsnEvents(j: Job, insn: Insn, ea: nat, o: Offset): seq<Event> {
    [LabelGroup(j.m, ea)] +
    (CommentEvents(j, o.element, o.displacement, insn.size) + (CfiEvents(j, o) + BodyEvents(j, insn, ea)))
  }

  /** The size of the first n instructions. */
  function SizeUpTo(insns: seq<Insn>, n: nat): nat
    requires n <= |insns|
  {
    if n == 0 then 0 else SizeUpTo(insns, n - 1) + insns[n - 1].size
  }

  function InsnOffset(b: CodeBlock, n: nat): Offset
    requires n <= |b.insns|
  {
    Offset(b.id, SizeUpTo(b.insns, n))
  }

  function InsnAddress(b: CodeBlock, n: nat): nat
    requires n <= |b.insns|
  {
    Wrap(b.address + SizeUpTo(b.insns, n))
  }

  function InsnPart(j: Job, b: CodeBlock, n: nat): seq<Event>
    requires n < |b.insns|
  {
    InsnEvents(j, Fixup(b.insns[n]), InsnAddress(b, n), InsnOffset(b, n))
  }

  /** What is printed for each instruction of the block. */
  function InsnParts(j: Job, b: CodeBlock): (r: seq<seq<Event>>)
    ensures |r| == |b.insns|
  {
    seq(|b.insns|, n requires 0 <= n < |b.insns| => InsnPart(j, b, n))
  }

  function BlockHeaderEvents(m: Module, a: nat): seq<Event> {
    FunctionHeaderEvents(m, a) + [BlankLine]
  }

  function BlockEvents(j: Job, b: CodeBlock): seq<Event> {
    if SkipEA(j, b.address) then []
    else
      BlockHeaderEvents(j.m, b.address) +
      (Concat(InsnParts(j, b), |b.insns|) + CfiEvents(j, InsnOffset(b, |b.insns|)))
  }

  // ---- data ----

  function ByteEvent(b: Byte): Event {
    ByteDirective("0x" + FormatInt(PLAIN.(hex := true), b))
  }

  function ByteEvents(bytes: seq<Byte>): seq<Event> {
    if bytes == [] then []
    else ByteEvents(bytes[..|bytes| - 1]) + [ByteEvent(bytes[|bytes| - 1])]
  }

  /** The directive for symbolic data: by its encoding, or else by its size. */
  function DataDirective(m: Module, d: DataBlock): string {
    if d.id in m.encodings then "." + m.encodings[d.id]
    else match |d.bytes|
      case 1 => ".byte"
      case 2 => ".word"
      case 4 => ".long"
      case 8 => ".quad"
      case _ => ""
  }

  predicate IsStringEncoded(m: Module, d: DataBlock) {
    d.id in m.encodings && m.encodings[d.id] == "string"
  }

  /** A reference to the symbol with this identifier, if there is one. */
  function SymbolText(j: Job, id: Identifier): string {
    var s := SymbolById(j.m.symbols, id);
    if s.Some? then RenderingText(Reference(j, s.value)) else ""
  }

  function SymExprText(j: Job, expr: SymExpr): string {
    match expr
    case SymAddrConst(id, addend) => SymbolText(j, id) + Addend(addend, false)
    case SymAddrAddr(left, right) => SymbolText(j, left) + ("-" + SymbolText(j, right))
  }

  function SymbolicDataEvent(j: Job, d: DataBlock, expr: SymExpr): Event {
    SymbolicData(DataDirective(j.m, d), expr, SymExprText(j, expr))
  }

  function NonZeroDataEvents(j: Job, d: DataBlock): seq<Event> {
    if d.address in j.m.symexprs then [SymbolicDataEvent(j, d, j.m.symexprs[d.address])]
    else if IsStringEncoded(j.m, d) then [StringDirective(Literal(d.bytes))]
    else ByteEvents(d.bytes)
  }

  function ContentEvents(j: Job, d: DataBlock): seq<Event> {
    if AllZero(d.bytes) && d.address !in j.m.symexprs then [ZeroDirective(FormatInt(PLAIN, |d.bytes|))]
    else NonZeroDataEvents(j, d)
  }

  function DataNoteEvents(j: Job, ea: nat): seq<Event> {
    if j.policy.debug then [AddressNote(ea, ShowNat(ea, true) + ":")] else []
  }

  function DataEvents(j: Job, d: DataBlock): seq<Event> {
    if SkipEA(j, d.address) then []
    else
      CommentEvents(j, d.id, 0, |d.bytes|) + ([LabelGroup(j.m, d.address)] + (DataNoteEvents(j, d.address) +
      (if ShouldExclude(j, ContainerSection(j.m, d.address), d.address) then [] else ContentEvents(j, d))))
  }

  // ---- the run ----

  datatype Item = Code(block: CodeBlock) | Data(data: DataBlock) {
    function Start(): nat {
      match this
      case Code(b) => b.address
      case Data(d) => d.address
    }

    function Size(): nat {
      match this
      case Code(b) => b.size
      case Data(d) => |d.bytes|
    }
  }

  /** Code from position i on and data from position k on, merged by address; code comes first among equals. */
  function MergeFrom(code: seq<CodeBlock>, i: nat, data: seq<DataBlock>, k: nat): seq<Item>
    requires i <= |code| && k <= |data|
    decreases |code| - i + |data| - k
  {
    if i == |code| && k == |data| then []
    else if i < |code| && (k == |data| || code[i].address <= data[k].address) then
      [Code(code[i])] + MergeFrom(code, i + 1, data, k)
    else [Data(data[k])] + MergeFrom(code, i, data, k + 1)
  }

  function MergeItems(code: seq<CodeBlock>, data: seq<DataBlock>): seq<Item> {
    MergeFrom(code, 0, data, 0)
  }

  function ItemEvents(j: Job, item: Item): seq<Event> {
    match item
    case Code(b) => BlockEvents(j, b)
    case Data(d) => DataEvents(j, d)
  }

  predicate Overlaps(item: Item, last: nat) {
    item.Start() < last
  }

  /** Where a run of items ends before a gap, labels may point to its end. */
  function GapEvents(j: Job, start: nat, last: nat): seq<Event> {
    if start > last then [LabelGroup(j.m, last)] else []
  }

  /** An item that starts below the cursor is replaced by a warning. */
  function StepEvents(j: Job, item: Item, last: nat): seq<Event> {
    var start := item.Start();
    if Overlaps(item, last) then [Warning(start)]
    else
      GapEvents(j, start, last) +
      (SectionFooterEvents(j, Some(start), last) + (SectionHeaderEvents(j, start) + ItemEvents(j, item)))
  }

  /** The cursor moves to the end of the item, unless the item is replaced by a warning. */
  function StepLast(item: Item, last: nat): nat {
    if Overlaps(item, last) then last else Wrap(item.Start() + item.Size())
  }

  /** The cursor before item k. */
  function Cursor(items: seq<Item>, k: nat): nat
    requires k <= |items|
  {
    if k == 0 then 0 else StepLast(items[k - 1], Cursor(items, k - 1))
  }

  /** What is printed for each item. */
  function Steps(j: Job, items: seq<Item>): (r: seq<seq<Event>>)
    ensures |r| == |items|
  {
    seq(|items|, k requires 0 <= k < |items| => StepEvents(j, items[k], Cursor(items, k)))
  }

  function EndEvents(j: Job, last: nat): seq<Event> {
    [LabelGroup(j.m, last)] + SectionFooterEvents(j, None, last)
  }

  datatype Dialect = AttSyntax | IntelSyntax | A64Syntax

  function RepeatEvent(e: Event, n: nat): seq<Event> {
    if n == 0 then [] else RepeatEvent(e, n - 1) + [e]
  }

  function PrologueEvents(dialect: Dialect): seq<Event> {
    match dialect
    case AttSyntax => []
    case IntelSyntax => [Prologue(".intel_syntax noprefix")] + RepeatEvent(Prologue("nop"), 8)
    case A64Syntax => RepeatEvent(Prologue("nop"), 8)
  }

  /** Everything that is printed for the items, in this order. */
  function PrintEvents(j: Job, dialect: Dialect, items: seq<Item>): seq<Event> {
    PrologueEvents(dialect) + (Concat(Steps(j, items), |items|) + EndEvents(j, Cursor(items, |items|)))
  }
}
