/** The printer: every method appends to the stream what Events says it appends. */
module Printer {
  import opened Common
  import opened Numerals
  import opened Escapes
  import opened Streams
  import opened Texts
  import opened Program
  import opened Events

  /** The output stream of a run: events, and the formatting state of numbers. */
  class Emitter {
    var trace: seq<Event>
    var flags: Flags

    constructor ()
      ensures trace == [] && flags == PLAIN
    {
      trace, flags := [], PLAIN;
    }

    method Emit(e: Event)
      modifies this`trace
      ensures trace == old(trace) + [e]
    {
      trace := trace + [e];
    }

    method SetHex(hex: bool)
      modifies this`flags
      ensures flags == old(flags).(hex := hex)
    {
      flags := flags.(hex := hex);
    }

    method SetFlags(f: Flags)
      modifies this`flags
      ensures flags == f
    {
      flags := f;
    }
  }

  class ElfPrinter {
    const m: Module
    const dialect: Dialect
    var policy: Policy

    constructor (m: Module, policy: Policy, dialect: Dialect)
      ensures this.m == m && this.dialect == dialect
      ensures m.cfi.Some? ==> ".eh_frame" in this.policy.skipSections
      ensures forall name :: name in this.policy.skipSections <==>
        name in policy.skipSections || (m.cfi.Some? && name == ".eh_frame")
      ensures this.policy.(skipSections := {}) == policy.(skipSections := {})
    {
      this.m, this.dialect, this.policy := m, dialect, policy;
      new;
      if m.cfi.Some? {
        this.policy := this.policy.(skipSections := this.policy.skipSections + {".eh_frame"});
      }
    }

    function TheJob(): Job
      reads this
    {
      Job(m, policy)
    }

    // ---- symbols ----

    method PrintSymbolReference(os: OStream, s: Symbol)
      requires os.flags == PLAIN
      modifies os`text
      ensures os.text == old(os.text) + RenderingText(Reference(TheJob(), s))
    {
      if s.id in m.forwarding {
        os.Put(m.forwarding[s.id]);
        return;
      }
      if s.address.Some? && SkipEA(TheJob(), s.address.value) {
        os.PutInt(s.address.value);
        return;
      }
      if IsAmbiguous(m, s.name) {
        os.Put(if s.address.Some? then AddressName(s.address.value) else "");
      } else {
        os.Put(FormatSymbolName(s.name));
      }
    }

    method PrintSymbolDefinitionsAtAddress(os: Emitter, ea: nat)
      modifies os`trace
      ensures os.trace == old(os.trace) + [LabelGroup(m, ea)]
    {
      var found := SymbolsAt(m.symbols, ea);
      var names: seq<string> := [];
      for k := 0 to |found|
        invariant os.trace == old(os.trace) && names == LabelNames(m, found, ea, k)
      {
        var name := if IsAmbiguous(m, found[k].name) then AddressName(ea) else FormatSymbolName(found[k].name);
        names := names + [name];
      }
      os.Emit(Labels(ea, names));
    }

    // ---- headers ----

    method PrintAlignment(os: Emitter, a: nat)
      modifies os`trace
      ensures os.trace == old(os.trace) + AlignEvents(a)
    {
      if a % 16 == 0 {
        os.Emit(Align(16));
        return;
      }
      if a % 8 == 0 {
        os.Emit(Align(8));
        return;
      }
      if a % 4 == 0 {
        os.Emit(Align(4));
        return;
      }
      if a % 2 == 0 {
        os.Emit(Align(2));
        return;
      }
    }

    method PrintFunctionHeader(os: Emitter, a: nat)
      modifies os`trace
      ensures os.trace == old(os.trace) + FunctionHeaderEvents(m, a)
    {
      var name := FunctionName(m, a);
      if name != "" {
        PrintAlignment(os, a);
        os.Emit(Global(name));
        os.Emit(TypeFunction(name));
        os.Emit(FunctionLabel(a, name));
      }
    }

    method PrintSectionHeader(os: Emitter, a: nat)
      modifies os`trace
      ensures os.trace == old(os.trace) + SectionHeaderEvents(TheJob(), a)
    {
      var found := FirstAt(m.sections, a);
      if found.None? {
        return;
      }
      var name := found.value.name;
      if name in policy.skipSections {
        return;
      }
      os.Emit(SectionHeader(found.value));
      if name !in policy.arraySections {
        PrintAlignment(os, a);
      }
    }

    method PrintSectionFooter(os: Emitter, a: Option<nat>, last: nat)
      modifies os`trace
      ensures os.trace == old(os.trace) + SectionFooterEvents(TheJob(), a, last)
    {
      var previous := ContainerSection(m, Wrap(last - 1));
      if previous.None? {
        return;
      }
      if previous.value.name in policy.skipSections {
        return;
      }
      var next := if a.Some? then ContainerSection(m, a.value) else None;
      if next.Some? && next == previous {
        return;
      }
      os.Emit(SectionFooter(previous.value));
    }

    // ---- comments and CFI directives ----

    method PrintComments(os: Emitter, o: Offset, range: nat)
      requires CommentsSorted(m.comments) && os.flags == PLAIN
      modifies os`trace
      ensures os.trace == old(os.trace) + CommentEvents(TheJob(), o.element, o.displacement, range)
    {
      if !policy.debug {
        Empty(os.trace);
        return;
      }
      var comments := m.comments;
      var end := o.displacement + range;
      // lower bound
      var p: nat := 0;
      assert comments[0..] == comments;
      while p < |comments| && OffsetLess(comments[p].0, o)
        invariant p <= |comments| && os.trace == old(os.trace)
        invariant CommentsIn(comments, o.element, o.displacement, end) ==
          CommentsIn(comments[p..], o.element, o.displacement, end)
      {
        CommentOutside(comments, p, o.element, o.displacement, end);
        p := p + 1;
      }
      PrintCommentsFrom(os, comments, p, o, end);
    }

    /** Prints comments from position p on, up to the end offset. */
    method PrintCommentsFrom(os: Emitter, comments: seq<(Offset, string)>, first: nat, o: Offset, end: nat)
      requires CommentsSorted(comments) && first <= |comments|
      requires first < |comments| ==> !OffsetLess(comments[first].0, o)
      modifies os`trace
      ensures os.trace == old(os.trace) + CommentsIn(comments[first..], o.element, o.displacement, end)
    {
      var p := first;
      ghost var goal := os.trace + CommentsIn(comments[first..], o.element, o.displacement, end);
      while p < |comments| && OffsetLess(comments[p].0, Offset(o.element, end))
        invariant first <= p <= |comments|
        invariant p < |comments| ==> !OffsetLess(comments[p].0, o)
        invariant os.trace + CommentsIn(comments[p..], o.element, o.displacement, end) == goal
      {
        var comment := Comment(comments[p].0, CommentText(comments[p].0, o.displacement, comments[p].1));
        CommentInside(comments, p, o.element, o.displacement, end);
        Append(os.trace, comment, CommentsIn(comments[p + 1..], o.element, o.displacement, end));
        assert p + 1 < |comments| ==> OffsetLess(comments[p].0, comments[p + 1].0);
        os.Emit(comment);
        p := p + 1;
      }
      NoMoreComments(comments, p, o.element, o.displacement, end);
      Empty(os.trace);
    }

    method PrintCFIDirectives(os: Emitter, o: Offset)
      requires os.flags == PLAIN
      modifies os`trace
      ensures os.trace == old(os.trace) + CfiEvents(TheJob(), o)
    {
      if m.cfi.None? || o !in m.cfi.value {
        return;
      }
      var ds := m.cfi.value[o];
      assert ds[..|ds|] == ds;
      for k := 0 to |ds|
        invariant os.trace == old(os.trace) + CfiLines(TheJob(), o, ds[..k])
      {
        var text := CfiLine(ds[k]);
        os.Emit(Cfi(o, text));
        assert ds[..k + 1][..k] == ds[..k];
      }
    }

    method CfiLine(d: CfiDirective) returns (text: string)
      ensures text == CfiText(TheJob(), d)
    {
      var line := new OStream();
      line.Put(d.name);
      line.Put(" ");
      PrintOperands(line, d.operands);
      PrintCfiSymbol(line, d);
      text := line.text;
    }

    method PrintCfiSymbol(line: OStream, d: CfiDirective)
      requires line.flags == PLAIN
      modifies line`text
      ensures line.text == old(line.text) + CfiSymbolText(TheJob(), d)
    {
      ghost var was := line.text;
      Empty(was);
      if d.symbol.Some? {
        if |d.operands| > 0 {
          line.Put(", ");
        }
        PrintSymbolReference(line, d.symbol.value);
        Associate(was, ", ", RenderingText(Reference(TheJob(), d.symbol.value)));
      }
    }

    method PrintOperands(line: OStream, operands: seq<int>)
      requires line.flags == PLAIN
      modifies line`text
      ensures line.text == old(line.text) + OperandsText(operands)
    {
      ghost var was := line.text;
      Empty(was);
      for k := 0 to |operands|
        invariant line.text == was + OperandsText(operands[..k])
      {
        ghost var before := line.text;
        Empty(before);
        if k != 0 {
          line.Put(", ");
        }
        line.PutInt(operands[k]);
        assert operands[..k + 1][..k] == operands[..k];
        Associate3(was, OperandsText(operands[..k]), ", ", FormatInt(PLAIN, operands[k]));
        Associate(OperandsText(operands[..k]), ", ", FormatInt(PLAIN, operands[k]));
      }
      assert operands[..|operands|] == operands;
    }

    // ---- code ----

    method PrintEA(os: Emitter, ea: nat)
      requires os.flags == PLAIN
      modifies os
      ensures os.trace == old(os.trace) + NoteEvents(TheJob(), ea) && os.flags == PLAIN
    {
      if policy.debug {
        os.SetHex(true);
        os.Emit(AddressNote(ea, ShowNat(ea, os.flags.hex) + ": "));
        os.SetHex(false);
      }
    }

    method PrintInstruction(os: Emitter, insn: Insn, ea: nat, o: Offset)
      requires CommentsSorted(m.comments) && os.flags == PLAIN
      requires ea < ADDRESS_SPACE
      modifies os
      ensures os.trace == old(os.trace) + InsnEvents(TheJob(), insn, ea, o) && os.flags == PLAIN
    {
      ghost var j := TheJob();
      PrintSymbolDefinitionsAtAddress(os, ea);
      PrintComments(os, o, insn.size);
      PrintCFIDirectives(os, o);
      PrintBody(os, insn, ea);
      Associate4(old(os.trace), [LabelGroup(m, ea)], CommentEvents(j, o.element, o.displacement, insn.size),
        CfiEvents(j, o), BodyEvents(j, insn, ea));
    }

    method PrintBody(os: Emitter, insn: Insn, ea: nat)
      requires os.flags == PLAIN && ea < ADDRESS_SPACE
      modifies os
      ensures os.trace == old(os.trace) + BodyEvents(TheJob(), insn, ea) && os.flags == PLAIN
    {
      if insn.kind == NopInsn {
        PrintNops(os, ea, insn.size);
        return;
      }
      ghost var was := os.trace;
      PrintEA(os, ea);
      var text := InsnLine(insn);
      os.Emit(Instruction(ea, insn, text));
      Associate(was, NoteEvents(TheJob(), ea), [Instruction(ea, insn, text)]);
    }

    method InsnLine(insn: Insn) returns (text: string)
      ensures text == InsnText(TheJob(), insn)
    {
      var line := new OStream();
      line.Put(ToLower(insn.mnemonic));
      line.Put(" ");
      PrintOperandList(line, insn.operands);
      text := line.text;
      Associate(ToLower(insn.mnemonic), " ", Join(OperandTexts(TheJob(), insn.operands)));
    }

    /** The operands of an instruction, with commas exactly between them. */
    method PrintOperandList(line: OStream, operands: seq<Operand>)
      requires line.flags == PLAIN
      modifies line`text
      ensures line.text == old(line.text) + Join(OperandTexts(TheJob(), operands))
    {
      ghost var was, texts := line.text, OperandTexts(TheJob(), operands);
      Empty(was);
      for k := 0 to |operands|
        invariant line.text == was + Join(texts[..k])
      {
        Appended(was, texts[..k], texts[k]);
        Empty(was + Join(texts[..k]));
        if k != 0 {
          line.Put(",");
        }
        PrintOperand(line, operands[k]);
        assert texts[..k + 1] == texts[..k] + [texts[k]];
      }
      assert texts[..|operands|] == texts;
    }

    method PrintOperand(line: OStream, o: Operand)
      requires line.flags == PLAIN
      modifies line`text
      ensures line.text == old(line.text) + OperandText(TheJob(), o)
    {
      ghost var was := line.text;
      line.Put(o.before);
      ghost var value := "";
      Empty(line.text);
      if o.target.Some? {
        value := TargetText(TheJob(), o.target.value);
        PrintSymbolicExpression(line, o.target.value);
      }
      line.Put(o.after);
      Associate3(was, o.before, value, o.after);
    }

    method PrintSymbolicExpression(line: OStream, t: Target)
      requires line.flags == PLAIN
      modifies line`text
      ensures line.text == old(line.text) + TargetText(TheJob(), t)
    {
      ghost var was := line.text;
      PrintSymbolReference(line, t.symbol);
      PrintAddend(line, t.addend, false);
      Associate(was, RenderingText(Reference(TheJob(), t.symbol)), Addend(t.addend, false));
    }

    method PrintNop(os: Emitter, ea: nat)
      requires os.flags == PLAIN
      modifies os
      ensures os.trace == old(os.trace) + NopLine(TheJob(), ea) && os.flags == PLAIN
    {
      ghost var was := os.trace;
      PrintEA(os, ea);
      os.Emit(Nop(ea));
      Associate(was, NoteEvents(TheJob(), ea), [Nop(ea)]);
    }

    /** One no-op, then one for each further byte of the instruction. */
    method PrintNops(os: Emitter, ea: nat, size: nat)
      requires os.flags == PLAIN && ea < ADDRESS_SPACE
      modifies os
      ensures os.trace == old(os.trace) + NopEvents(TheJob(), ea, if size == 0 then 1 else size) && os.flags == PLAIN
    {
      ghost var j, was := TheJob(), os.trace;
      PrintNop(os, ea);
      Empty(NopLine(j, ea));
      var at := ea;
      var i: nat := 1;
      while i < size
        invariant os.flags == PLAIN && 1 <= i && (i <= size || i == 1)
        invariant at == Wrap(ea + i - 1)
        invariant os.trace == was + NopEvents(j, ea, i)
      {
        WrapSum(ea + i - 1, 1);
        at := Wrap(at + 1);
        PrintNop(os, at);
        Associate(was, NopEvents(j, ea, i), NopLine(j, at));
        i := i + 1;
      }
    }

    method PrintBlock(os: Emitter, b: CodeBlock)
      requires CommentsSorted(m.comments) && os.flags == PLAIN
      modifies os
      ensures os.trace == old(os.trace) + BlockEvents(TheJob(), b) && os.flags == PLAIN
    {
      ghost var j, was := TheJob(), os.trace;
      if SkipEA(TheJob(), b.address) {
        Empty(was);
        return;
      }
      PrintFunctionHeader(os, b.address);
      os.Emit(BlankLine);
      Associate(was, FunctionHeaderEvents(m, b.address), [BlankLine]);
      var displacement := PrintInstructions(os, b, j, InsnParts(j, b));
      // e.g. the directive that ends a procedure is attached to the end of the block
      PrintCFIDirectives(os, Offset(b.id, displacement));
      Associate3(was, BlockHeaderEvents(m, b.address), Concat(InsnParts(j, b), |b.insns|),
        CfiEvents(j, Offset(b.id, displacement)));
    }

    method PrintInstructions(os: Emitter, b: CodeBlock, ghost j: Job, ghost parts: seq<seq<Event>>)
      returns (displacement: nat)
      requires CommentsSorted(m.comments) && os.flags == PLAIN
      requires j == TheJob() && parts == InsnParts(j, b) && |parts| == |b.insns|
      modifies os
      ensures os.trace == Extended(old(os.trace), parts, |parts|) && os.flags == PLAIN
      ensures displacement == SizeUpTo(b.insns, |b.insns|)
    {
      ghost var was := os.trace;
      displacement := 0;
      ExtendedByNone(was, parts);
      for i := 0 to |b.insns|
        invariant os.flags == PLAIN && j == TheJob()
        invariant displacement == SizeUpTo(b.insns, i) && os.trace == Extended(was, parts, i)
      {
        displacement := PrintInstructionAt(os, b, i, displacement, j, was, parts);
      }
    }

    /** Instruction i of the block, after those before it. */
    method PrintInstructionAt(os: Emitter, b: CodeBlock, i: nat, displacement: nat,
        ghost j: Job, ghost was: seq<Event>, ghost parts: seq<seq<Event>>)
      returns (next: nat)
      requires CommentsSorted(m.comments) && os.flags == PLAIN
      requires i < |b.insns| == |parts| && displacement == SizeUpTo(b.insns, i)
      requires j == TheJob() && parts == InsnParts(j, b) && os.trace == Extended(was, parts, i)
      modifies os
      ensures j == TheJob()
      ensures os.trace == Extended(was, parts, i + 1) && os.flags == PLAIN
      ensures next == SizeUpTo(b.insns, i + 1)
    {
      ghost var part := PrintPart(os, b, i, Offset(b.id, displacement));
      ExtendedBy(was, parts, i, part);
      next := displacement + b.insns[i].size;
    }

    method PrintPart(os: Emitter, b: CodeBlock, i: nat, o: Offset) returns (ghost part: seq<Event>)
      requires CommentsSorted(m.comments) && os.flags == PLAIN
      requires i < |b.insns| && o == InsnOffset(b, i)
      modifies os
      ensures part == InsnParts(TheJob(), b)[i] && os.trace == old(os.trace) + part && os.flags == PLAIN
    {
      part := InsnPart(TheJob(), b, i);
      PrintInstruction(os, Fixup(b.insns[i]), InsnAddress(b, i), o);
    }

    // ---- data ----

    method PrintByte(os: Emitter, b: Byte)
      requires os.flags == PLAIN
      modifies os
      ensures os.trace == old(os.trace) + [ByteEvent(b)] && os.flags == PLAIN
    {
      var flags := os.flags;
      os.SetHex(true);
      os.Emit(ByteDirective("0x" + FormatInt(os.flags, b)));
      os.SetFlags(flags);
    }

    method PrintString(os: Emitter, d: DataBlock)
      modifies os`trace
      ensures os.trace == old(os.trace) + [StringDirective(Literal(d.bytes))]
    {
      var text := [QUOTE];
      assert d.bytes[0..] == d.bytes;
      for k := 0 to |d.bytes|
        invariant os.trace == old(os.trace)
        invariant text + CleanBytes(d.bytes[k..]) == [QUOTE] + CleanBytes(d.bytes)
      {
        assert d.bytes[k..][1..] == d.bytes[k + 1..];
        Empty(CleanBytes(d.bytes[k + 1..]));
        if d.bytes[k] != 0 {
          Associate(text, CleanByte(d.bytes[k]), CleanBytes(d.bytes[k + 1..]));
          text := text + CleanByte(d.bytes[k]);
        }
      }
      assert d.bytes[|d.bytes|..] == [];
      Empty(text);
      text := text + [QUOTE];
      assert text == Literal(d.bytes);
      os.Emit(StringDirective(text));
    }

    method PrintSymbolicData(os: Emitter, d: DataBlock, expr: SymExpr)
      modifies os`trace
      ensures os.trace == old(os.trace) + [SymbolicDataEvent(TheJob(), d, expr)]
    {
      var line := new OStream();
      ghost var j := TheJob();
      match expr {
        case SymAddrConst(id, addend) =>
          PrintSymbolWithId(line, id);
          PrintAddend(line, addend, false);
          Empty(SymbolText(j, id));
        case SymAddrAddr(left, right) =>
          PrintSymbolWithId(line, left);
          line.Put("-");
          PrintSymbolWithId(line, right);
          Empty(SymbolText(j, left));
          Associate(SymbolText(j, left), "-", SymbolText(j, right));
      }
      assert line.text == SymExprText(j, expr);
      os.Emit(SymbolicData(DataDirective(m, d), expr, line.text));
    }

    method PrintSymbolWithId(line: OStream, id: Identifier)
      requires line.flags == PLAIN
      modifies line`text
      ensures line.text == old(line.text) + SymbolText(TheJob(), id)
    {
      var s := SymbolById(m.symbols, id);
      Empty(line.text);
      if s.Some? {
        PrintSymbolReference(line, s.value);
      }
    }

    method PrintNonZeroDataBlock(os: Emitter, d: DataBlock)
      requires os.flags == PLAIN
      modifies os
      ensures os.trace == old(os.trace) + NonZeroDataEvents(TheJob(), d) && os.flags == PLAIN
    {
      if d.address in m.symexprs {
        PrintSymbolicData(os, d, m.symexprs[d.address]);
        return;
      }
      if d.id in m.encodings && m.encodings[d.id] == "string" {
        PrintString(os, d);
        return;
      }
      ghost var was := os.trace;
      Empty(was);
      for k := 0 to |d.bytes|
        invariant os.flags == PLAIN
        invariant os.trace == was + ByteEvents(d.bytes[..k])
      {
        assert d.bytes[..k + 1][..k] == d.bytes[..k];
        PrintByte(os, d.bytes[k]);
        Associate(was, ByteEvents(d.bytes[..k]), [ByteEvent(d.bytes[k])]);
      }
      assert d.bytes[..|d.bytes|] == d.bytes;
    }

    method PrintDataBlock(os: Emitter, d: DataBlock)
      requires CommentsSorted(m.comments) && os.flags == PLAIN
      modifies os
      ensures os.trace == old(os.trace) + DataEvents(TheJob(), d) && os.flags == PLAIN
    {
      ghost var j, was := TheJob(), os.trace;
      if SkipEA(TheJob(), d.address) {
        Empty(was);
        return;
      }
      PrintComments(os, Offset(d.id, 0), |d.bytes|);
      PrintSymbolDefinitionsAtAddress(os, d.address);
      PrintDataNote(os, d.address);
      ghost var content: seq<Event> := [];
      Empty(os.trace);
      var section := ContainerSection(m, d.address);
      if !ShouldExclude(TheJob(), section, d.address) {
        PrintContent(os, d);
        content := ContentEvents(j, d);
      }
      Associate4(was, CommentEvents(j, d.id, 0, |d.bytes|), [LabelGroup(m, d.address)],
        DataNoteEvents(j, d.address), content);
    }

    method PrintDataNote(os: Emitter, a: nat)
      requires os.flags == PLAIN
      modifies os
      ensures os.trace == old(os.trace) + DataNoteEvents(TheJob(), a) && os.flags == PLAIN
    {
      Empty(os.trace);
      if policy.debug {
        os.SetHex(true);
        os.Emit(AddressNote(a, ShowNat(a, os.flags.hex) + ":"));
        os.SetHex(false);
      }
    }

    method PrintContent(os: Emitter, d: DataBlock)
      requires os.flags == PLAIN
      modifies os
      ensures os.trace == old(os.trace) + ContentEvents(TheJob(), d) && os.flags == PLAIN
    {
      if (forall k :: 0 <= k < |d.bytes| ==> d.bytes[k] == 0) && d.address !in m.symexprs {
        os.Emit(ZeroDirective(FormatInt(os.flags, |d.bytes|)));
      } else {
        PrintNonZeroDataBlock(os, d);
      }
    }

    // ---- the run ----

    method PrintItem(os: Emitter, item: Item)
      requires CommentsSorted(m.comments) && os.flags == PLAIN
      modifies os
      ensures os.trace == old(os.trace) + ItemEvents(TheJob(), item) && os.flags == PLAIN
    {
      match item
      case Code(b) => PrintBlock(os, b);
      case Data(d) => PrintDataBlock(os, d);
    }

    method PrintItemOrWarning(os: Emitter, item: Item, last: nat) returns (next: nat)
      requires CommentsSorted(m.comments) && os.flags == PLAIN
      modifies os
      ensures os.trace == old(os.trace) + StepEvents(TheJob(), item, last) && os.flags == PLAIN
      ensures next == StepLast(item, last)
    {
      var nextAddr := item.Start();
      if nextAddr < last {
        os.Emit(Warning(nextAddr));
        return last;
      }
      PrintInPlace(os, item, last);
      return Wrap(nextAddr + item.Size());
    }

    method PrintInPlace(os: Emitter, item: Item, last: nat)
      requires CommentsSorted(m.comments) && os.flags == PLAIN
      requires !Overlaps(item, last)
      modifies os
      ensures os.trace == old(os.trace) + StepEvents(TheJob(), item, last) && os.flags == PLAIN
    {
      ghost var j, was := TheJob(), os.trace;
      Empty(was);
      var nextAddr := item.Start();
      if nextAddr > last {
        PrintSymbolDefinitionsAtAddress(os, last);
      }
      PrintSectionFooter(os, Some(nextAddr), last);
      PrintSectionHeader(os, nextAddr);
      PrintItem(os, item);
      Associate4(was, GapEvents(j, nextAddr, last), SectionFooterEvents(j, Some(nextAddr), last),
        SectionHeaderEvents(j, nextAddr), ItemEvents(j, item));
    }

    /** Prints item n of the run, after those before it. */
    method PrintNext(os: Emitter, item: Item, last: nat,
        ghost items: seq<Item>, ghost j: Job, ghost parts: seq<seq<Event>>, ghost n: nat, ghost was: seq<Event>)
      returns (next: nat)
      requires CommentsSorted(m.comments) && os.flags == PLAIN
      requires n < |items| && items[n] == item && last == Cursor(items, n)
      requires j == TheJob() && parts == Steps(j, items) && os.trace == Extended(was, parts, n)
      modifies os
      ensures os.trace == Extended(was, parts, n + 1) && next == Cursor(items, n + 1)
      ensures os.flags == PLAIN
    {
      next := PrintItemOrWarning(os, item, last);
      ExtendedBy(was, parts, n, parts[n]);
    }

    method PrintHeader(os: Emitter)
      modifies os`trace
      ensures os.trace == old(os.trace) + PrologueEvents(dialect)
    {
      if dialect == AttSyntax {
        return;
      }
      if dialect == IntelSyntax {
        os.Emit(Prologue(".intel_syntax noprefix"));
      }
      ghost var before := os.trace;
      for i := 0 to 8
        invariant os.trace == before + RepeatEvent(Prologue("nop"), i)
      {
        os.Emit(Prologue("nop"));
      }
    }

    /** Prints the code blocks of this module, in some order sorted by address, and its data blocks. */
    method Print(os: Emitter, nodes: seq<CodeBlock>, data: seq<DataBlock>) returns (ghost order: seq<CodeBlock>)
      requires CommentsSorted(m.comments) && os.flags == PLAIN
      modifies os
      ensures SortedByAddress(order) && OwnedBy(m.id, nodes, order)
      ensures os.trace == old(os.trace) + PrintEvents(TheJob(), dialect, MergeItems(order, data))
      ensures os.flags == PLAIN
    {
      ghost var j, was := TheJob(), os.trace;
      PrintHeader(os);
      var blocks, _ := CollectBlocks(nodes, m.id);
      blocks := SortBlocks(blocks);
      order := blocks;
      ghost var items := MergeItems(blocks, data);
      var last := PrintItems(os, blocks, data);
      PrintSymbolDefinitionsAtAddress(os, last);
      PrintSectionFooter(os, None, last);
      Associate4(was, PrologueEvents(dialect), Concat(Steps(j, items), |items|), [LabelGroup(m, last)],
        SectionFooterEvents(j, None, last));
    }

    /** The two-way merge of code and data; last is the end of what has been printed. */
    method PrintItems(os: Emitter, blocks: seq<CodeBlock>, data: seq<DataBlock>) returns (last: nat)
      requires CommentsSorted(m.comments) && os.flags == PLAIN
      modifies os
      ensures var items := MergeItems(blocks, data);
        && os.trace == Extended(old(os.trace), Steps(TheJob(), items), |items|)
        && last == Cursor(items, |items|)
      ensures os.flags == PLAIN
    {
      ghost var was, items, n, j := os.trace, MergeItems(blocks, data), 0, TheJob();
      ghost var parts := Steps(j, items);
      ExtendedByNone(was, parts);
      var i, k;
      i, k, last, n := PrintWhileBoth(os, blocks, data, items, j, parts, was);
      last, n := PrintCodeLeft(os, blocks, i, data, k, last, items, j, parts, n, was);
      last := PrintDataLeft(os, blocks, data, k, last, items, j, parts, n, was);
    }

    /** Prints in turn from both lists, until one is exhausted; n counts the items printed. */
    method PrintWhileBoth(os: Emitter, blocks: seq<CodeBlock>, data: seq<DataBlock>,
        ghost items: seq<Item>, ghost j: Job, ghost parts: seq<seq<Event>>, ghost was: seq<Event>)
      returns (i: nat, k: nat, last: nat, ghost n: nat)
      requires CommentsSorted(m.comments) && os.flags == PLAIN
      requires items == MergeItems(blocks, data) && j == TheJob()
      requires parts == Steps(j, items) && os.trace == Extended(was, parts, 0)
      modifies os
      ensures os.flags == PLAIN && i <= |blocks| && k <= |data| && (i == |blocks| || k == |data|)
      ensures n <= |items| && items[n..] == MergeFrom(blocks, i, data, k)
      ensures last == Cursor(items, n) && os.trace == Extended(was, parts, n)
    {
      i, k, last, n := 0, 0, 0, 0;
      while i < |blocks| && k < |data|
        decreases |blocks| - i + |data| - k
        invariant os.flags == PLAIN && i <= |blocks| && k <= |data| && n <= |items|
        invariant items[n..] == MergeFrom(blocks, i, data, k)
        invariant last == Cursor(items, n) && os.trace == Extended(was, parts, n)
      {
        var item;
        item, i, k := Choose(blocks, i, data, k, items, n);
        last := PrintNext(os, item, last, items, j, parts, n, was);
        n := n + 1;
      }
    }

    method PrintCodeLeft(os: Emitter, blocks: seq<CodeBlock>, first: nat, data: seq<DataBlock>, k: nat, start: nat,
        ghost items: seq<Item>, ghost j: Job, ghost parts: seq<seq<Event>>, ghost printed: nat, ghost was: seq<Event>)
      returns (last: nat, ghost n: nat)
      requires CommentsSorted(m.comments) && os.flags == PLAIN
      requires first <= |blocks| && k <= |data| && (first == |blocks| || k == |data|)
      requires printed <= |items| && items[printed..] == MergeFrom(blocks, first, data, k)
      requires start == Cursor(items, printed) && j == TheJob()
      requires parts == Steps(j, items) && os.trace == Extended(was, parts, printed)
      modifies os
      ensures os.flags == PLAIN
      ensures n <= |items| && items[n..] == MergeFrom(blocks, |blocks|, data, k)
      ensures last == Cursor(items, n) && os.trace == Extended(was, parts, n)
    {
      last, n := start, printed;
      var i := first;
      while i < |blocks|
        invariant os.flags == PLAIN && i <= |blocks| && n <= |items|
        invariant items[n..] == MergeFrom(blocks, i, data, k)
        invariant last == Cursor(items, n) && os.trace == Extended(was, parts, n)
      {
        var item;
        item, i := NextCode(blocks, i, data, k, items, n);
        last := PrintNext(os, item, last, items, j, parts, n, was);
        n := n + 1;
      }
    }

    method PrintDataLeft(os: Emitter, blocks: seq<CodeBlock>, data: seq<DataBlock>, first: nat, start: nat,
        ghost items: seq<Item>, ghost j: Job, ghost parts: seq<seq<Event>>, ghost printed: nat, ghost was: seq<Event>)
      returns (last: nat)
      requires CommentsSorted(m.comments) && os.flags == PLAIN
      requires first <= |data|
      requires printed <= |items| && items[printed..] == MergeFrom(blocks, |blocks|, data, first)
      requires start == Cursor(items, printed) && j == TheJob()
      requires parts == Steps(j, items) && os.trace == Extended(was, parts, printed)
      modifies os
      ensures os.flags == PLAIN
      ensures last == Cursor(items, |items|) && os.trace == Extended(was, parts, |items|)
    {
      last := start;
      var k := first;
      ghost var n: nat := printed;
      while k < |data|
        invariant os.flags == PLAIN && k <= |data| && n <= |items|
        invariant items[n..] == MergeFrom(blocks, |blocks|, data, k)
        invariant last == Cursor(items, n) && os.trace == Extended(was, parts, n)
      {
        var item;
        item, k := NextData(blocks, data, k, items, n);
        last := PrintNext(os, item, last, items, j, parts, n, was);
        n := n + 1;
      }
      NothingLeft(blocks, data, items, n);
    }
  }

  /** The blocks of the owner, in their order; at is where they were. */
  method CollectBlocks(nodes: seq<CodeBlock>, owner: Identifier) returns (blocks: seq<CodeBlock>, ghost at: seq<nat>)
    ensures PickedAt(nodes, blocks, at)
    ensures forall k :: 0 <= k < |nodes| ==> (k in at <==> nodes[k].owner == owner)
    ensures OwnedBy(owner, nodes, blocks)
  {
    blocks, at := [], [];
    for k := 0 to |nodes|
      invariant PickedUpTo(nodes, owner, k, blocks, at)
      invariant OwnedBy(owner, nodes[..k], blocks)
    {
      OneMore(nodes, owner, k, blocks);
      if nodes[k].owner == owner {
        TakeOne(nodes, owner, k, blocks, at);
        blocks, at := blocks + [nodes[k]], at + [k];
      }
    }
    assert nodes[..|nodes|] == nodes;
  }

  /** Of the first n blocks, those of the owner have been picked. */
  predicate PickedUpTo(nodes: seq<CodeBlock>, owner: Identifier, n: nat, blocks: seq<CodeBlock>, at: seq<nat>) {
    && n <= |nodes| && PickedAt(nodes, blocks, at) && (forall i :: 0 <= i < |at| ==> at[i] < n)
    && forall k :: 0 <= k < n ==> (k in at <==> nodes[k].owner == owner)
  }

  lemma TakeOne(nodes: seq<CodeBlock>, owner: Identifier, k: nat, blocks: seq<CodeBlock>, at: seq<nat>)
    requires k < |nodes| && nodes[k].owner == owner && PickedUpTo(nodes, owner, k, blocks, at)
    ensures PickedUpTo(nodes, owner, k + 1, blocks + [nodes[k]], at + [k])
  {
  }

  lemma OneMore(nodes: seq<CodeBlock>, owner: Identifier, k: nat, blocks: seq<CodeBlock>)
    requires k < |nodes| && OwnedBy(owner, nodes[..k], blocks)
    ensures OwnedBy(owner, nodes[..k + 1], if nodes[k].owner == owner then blocks + [nodes[k]] else blocks)
  {
    assert nodes[..k + 1] == nodes[..k] + [nodes[k]];
  }

  /** The next item of the merge, and the positions after it. */
  method Choose(blocks: seq<CodeBlock>, i: nat, data: seq<DataBlock>, k: nat, ghost items: seq<Item>, ghost n: nat)
    returns (item: Item, i': nat, k': nat)
    requires i < |blocks| && k < |data|
    requires n <= |items| && items[n..] == MergeFrom(blocks, i, data, k)
    ensures i <= i' <= |blocks| && k <= k' <= |data| && i' + k' == i + k + 1
    ensures n < |items| && items[n] == item && items[n + 1..] == MergeFrom(blocks, i', data, k')
  {
    if blocks[i].address <= data[k].address {
      AfterCode(blocks, i, data, k, items, n);
      return Code(blocks[i]), i + 1, k;
    } else {
      AfterData(blocks, i, data, k, items, n);
      return Data(data[k]), i, k + 1;
    }
  }

  method NextCode(blocks: seq<CodeBlock>, i: nat, data: seq<DataBlock>, k: nat, ghost items: seq<Item>, ghost n: nat)
    returns (item: Item, i': nat)
    requires i < |blocks| && k == |data|
    requires n <= |items| && items[n..] == MergeFrom(blocks, i, data, k)
    ensures i' == i + 1
    ensures n < |items| && items[n] == item && items[n + 1..] == MergeFrom(blocks, i', data, k)
  {
    AfterCode(blocks, i, data, k, items, n);
    return Code(blocks[i]), i + 1;
  }

  method NextData(blocks: seq<CodeBlock>, data: seq<DataBlock>, k: nat, ghost items: seq<Item>, ghost n: nat)
    returns (item: Item, k': nat)
    requires k < |data|
    requires n <= |items| && items[n..] == MergeFrom(blocks, |blocks|, data, k)
    ensures k' == k + 1
    ensures n < |items| && items[n] == item && items[n + 1..] == MergeFrom(blocks, |blocks|, data, k')
  {
    AfterData(blocks, |blocks|, data, k, items, n);
    return Data(data[k]), k + 1;
  }

  /** What is left to merge after a code block. */
  lemma AfterCode(blocks: seq<CodeBlock>, i: nat, data: seq<DataBlock>, k: nat, items: seq<Item>, n: nat)
    requires i < |blocks| && k <= |data| && (k == |data| || blocks[i].address <= data[k].address)
    requires n <= |items| && items[n..] == MergeFrom(blocks, i, data, k)
    ensures n < |items| && items[n] == Code(blocks[i])
    ensures items[n + 1..] == MergeFrom(blocks, i + 1, data, k)
  {
    assert items[n..][0] == Code(blocks[i]);
    assert items[n..][1..] == items[n + 1..];
  }

  lemma AfterData(blocks: seq<CodeBlock>, i: nat, data: seq<DataBlock>, k: nat, items: seq<Item>, n: nat)
    requires i <= |blocks| && k < |data| && (i == |blocks| || data[k].address < blocks[i].address)
    requires n <= |items| && items[n..] == MergeFrom(blocks, i, data, k)
    ensures n < |items| && items[n] == Data(data[k])
    ensures items[n + 1..] == MergeFrom(blocks, i, data, k + 1)
  {
    assert items[n..][0] == Data(data[k]);
    assert items[n..][1..] == items[n + 1..];
  }

  lemma NothingLeft(blocks: seq<CodeBlock>, data: seq<DataBlock>, items: seq<Item>, n: nat)
    requires n <= |items| && items[n..] == MergeFrom(blocks, |blocks|, data, |data|)
    ensures n == |items|
  {
    assert |items[n..]| == 0;
  }

  lemma CommentOutside(comments: seq<(Offset, string)>, p: nat, element: Identifier, from: nat, to: nat)
    requires p < |comments| && !InRange(comments[p].0, element, from, to)
    ensures CommentsIn(comments[p..], element, from, to) == CommentsIn(comments[p + 1..], element, from, to)
  {
    assert comments[p..][1..] == comments[p + 1..];
  }

  lemma CommentInside(comments: seq<(Offset, string)>, p: nat, element: Identifier, from: nat, to: nat)
    requires p < |comments| && InRange(comments[p].0, element, from, to)
    ensures CommentsIn(comments[p..], element, from, to) ==
      [Comment(comments[p].0, CommentText(comments[p].0, from, comments[p].1))] +
      CommentsIn(comments[p + 1..], element, from, to)
  {
    assert comments[p..][1..] == comments[p + 1..];
  }

  lemma {:induction false} NoMoreComments(comments: seq<(Offset, string)>, p: nat,
      element: Identifier, from: nat, to: nat)
    requires CommentsSorted(comments) && p <= |comments|
    requires p < |comments| ==> !OffsetLess(comments[p].0, Offset(element, to))
    ensures CommentsIn(comments[p..], element, from, to) == []
    decreases |comments| - p
  {
    if p < |comments| {
      if p + 1 < |comments| {
        assert OffsetLess(comments[p].0, comments[p + 1].0);
      }
      NoMoreComments(comments, p + 1, element, from, to);
      CommentOutside(comments, p, element, from, to);
    }
  }

  /** Sorts by insertion; among equal addresses the order is not part of the contract. */
  method SortBlocks(blocks: seq<CodeBlock>) returns (r: seq<CodeBlock>)
    ensures SortedByAddress(r) && multiset(r) == multiset(blocks)
  {
    r := [];
    for k := 0 to |blocks|
      invariant SortedByAddress(r) && multiset(r) == multiset(blocks[..k])
    {
      var n := FindPlace(r, blocks[k]);
      InsertSorted(r, n, blocks[k]);
      InsertKeeps(r, n, blocks, k);
      r := r[..n] + [blocks[k]] + r[n..];
    }
    assert blocks[..|blocks|] == blocks;
  }

  method FindPlace(r: seq<CodeBlock>, b: CodeBlock) returns (n: nat)
    ensures n <= |r|
    ensures n < |r| ==> b.address < r[n].address
    ensures n > 0 ==> r[n - 1].address <= b.address
  {
    n := |r|;
    while n > 0 && b.address < r[n - 1].address
      invariant n <= |r|
      invariant n < |r| ==> b.address < r[n].address
    {
      n := n - 1;
    }
  }

  lemma InsertSorted(r: seq<CodeBlock>, n: nat, b: CodeBlock)
    requires SortedByAddress(r) && n <= |r|
    requires n < |r| ==> b.address < r[n].address
    requires n > 0 ==> r[n - 1].address <= b.address
    ensures SortedByAddress(r[..n] + [b] + r[n..])
  {
    var t := r[..n] + [b] + r[n..];
    forall k, l | 0 <= k < l < |t|
      ensures t[k].address <= t[l].address
    {
      assert t[k] == if k < n then r[k] else if k == n then b else r[k - 1];
      assert t[l] == if l < n then r[l] else if l == n then b else r[l - 1];
    }
  }

  lemma InsertKeeps<T>(r: seq<T>, n: nat, s: seq<T>, k: nat)
    requires n <= |r| && k < |s| && multiset(r) == multiset(s[..k])
    ensures multiset(r[..n] + [s[k]] + r[n..]) == multiset(s[..k + 1])
  {
    assert r[..n] + r[n..] == r;
    assert s[..k + 1] == s[..k] + [s[k]];
  }
}
