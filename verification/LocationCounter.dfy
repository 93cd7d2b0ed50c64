/** The location counter of an assembler that reads the output, for one-byte no-ops as on x86. */
module LocationCounter {
  import opened Common
  import opened Escapes
  import opened Folds
  import opened Program
  import opened Events
  import opened Greedy
  import opened Labels
  import opened Notes
  import opened References
  import opened Bracketing
  import opened DataImage

  // ---- the assembler ----

  /** The width of a directive for symbolic data on x86. */
  function Width(directive: string): Option<nat> {
    if directive == ".byte" then Some(1)
    else if directive == ".word" then Some(2)
    else if directive == ".long" then Some(4)
    else if directive == ".quad" then Some(8)
    else None
  }

  /** The number of bytes an event adds to the current section, apart from alignment. */
  function Weight(e: Event): Option<nat> {
    match e
    case Instruction(_, insn, _) => Some(insn.size)
    case Nop(_) => Some(1)
    case Prologue(line) => Some(if line == "nop" then 1 else 0)
    case SymbolicData(directive, _, _) => Width(directive)
    case Align(_) => Some(0)
    case SectionHeader(_) => Some(0)
    case SectionFooter(_) => Some(0)
    case _ => var bytes := DirectiveBytes(e); if bytes.Some? then Some(|bytes.value|) else None
  }

  function RoundUp(p: nat, n: nat): nat {
    if n == 0 || p % n == 0 then p else p + (n - p % n)
  }

  /** The size so far of the section of that name, and whether it is the current one. */
  datatype Spot = Spot(name: string, open: bool, size: nat) | Lost

  function Advance(s: Spot, e: Event): Spot {
    if s.Lost? then Lost
    else match e
      case SectionHeader(section) => s.(open := section.name == s.name)
      case Align(n) => if s.open then s.(size := RoundUp(s.size, n)) else s
      // what cannot be read is an error in any section
      case AddressNote(_, text) => if ReadableNote(text) then s else Lost
      case _ =>
        if !s.open then s
        else if Weight(e).None? then Lost
        else s.(size := s.size + Weight(e).value)
  }

  /** An assembler starts in the text section. */
  function Initially(name: string): Spot {
    Spot(name, name == ".text", 0)
  }

  function Assemble(s: Spot, es: seq<Event>): Spot {
    Fold(Advance, s, es)
  }

  // ---- events without weight ----

  predicate Weightless(es: seq<Event>) {
    forall e :: e in es ==> Weight(e) == Some(0) && !e.Align? && !e.SectionHeader?
  }

  lemma WeightlessStays(s: Spot, es: seq<Event>)
    requires Weightless(es)
    ensures Assemble(s, es) == s
  {
    FoldKeeps(Advance, s, es);
  }

  lemma CfiIsWeightless(j: Job, o: Offset)
    ensures Weightless(CfiEvents(j, o))
  {
    CfiIsPlain(j, o);
  }

  lemma CommentsAreWeightless(j: Job, element: Identifier, from: nat, range: nat)
    ensures Weightless(CommentEvents(j, element, from, range))
  {
    CommentEventsArePlain(j, element, from, range);
  }

  /** What has an image weighs as much as its image. */
  lemma {:induction false} ImageWeighs(image: seq<Byte>, es: seq<Event>, name: string, p: nat)
    requires Image(Some(image), es).Some?
    ensures |Image(Some(image), es).value| >= |image|
    ensures Assemble(Spot(name, true, p), es) == Spot(name, true, p + |Image(Some(image), es).value| - |image|)
  {
    if es != [] {
      ImageWeighs(image, es[..|es| - 1], name, p);
    }
  }

  // ---- instructions ----

  lemma AndThen(s: Spot, a: seq<Event>, t: Spot, b: seq<Event>)
    requires Assemble(s, a) == t
    ensures Assemble(s, a + b) == Assemble(t, b)
  {
    FoldConcat(Advance, s, a, b);
  }

  lemma NopAdvances(ea: nat, name: string, p: nat)
    ensures Assemble(Spot(name, true, p), [Nop(ea)]) == Spot(name, true, p + 1)
  {
    FoldOne(Advance, Spot(name, true, p), Nop(ea));
  }

  lemma NoteIsWeightless(j: Job, ea: nat)
    requires j.policy.debug ==> Legible(ea)
    ensures Weightless(NoteEvents(j, ea))
  {
    if j.policy.debug {
      NoteOfInsn(j, ea);
    }
  }

  lemma NopLineAdvances(j: Job, ea: nat, name: string, p: nat)
    requires j.policy.debug ==> Legible(ea)
    ensures Assemble(Spot(name, true, p), NopLine(j, ea)) == Spot(name, true, p + 1)
  {
    NoteIsWeightless(j, ea);
    WeightlessStays(Spot(name, true, p), NoteEvents(j, ea));
    NopAdvances(ea, name, p);
    AndThen(Spot(name, true, p), NoteEvents(j, ea), Spot(name, true, p), [Nop(ea)]);
  }

  lemma OneMoreNop(j: Job, ea: nat, name: string, p: nat, q: nat, before: seq<Event>)
    requires Assemble(Spot(name, true, p), before) == Spot(name, true, q) && (j.policy.debug ==> Legible(ea))
    ensures Assemble(Spot(name, true, p), before + NopLine(j, ea)) == Spot(name, true, q + 1)
  {
    NopLineAdvances(j, ea, name, q);
    AndThen(Spot(name, true, p), before, Spot(name, true, q), NopLine(j, ea));
  }

  lemma {:induction false} NopsAdvance(j: Job, ea: nat, n: nat, name: string, p: nat)
    requires j.policy.debug ==> forall i: nat :: i < n ==> Legible(LineAddress(ea, i))
    ensures Assemble(Spot(name, true, p), NopEvents(j, ea, n)) == Spot(name, true, p + n)
  {
    if n > 0 {
      NopsAdvance(j, ea, n - 1, name, p);
      assert j.policy.debug ==> Legible(LineAddress(ea, n - 1));
      OneMoreNop(j, Wrap(ea + n - 1), name, p, p + n - 1, NopEvents(j, ea, n - 1));
    }
  }

  /** The lines for an instruction can be read. */
  ghost predicate InsnLegible(j: Job, insn: Insn, ea: nat) {
    j.policy.debug ==> forall i: nat :: i < LineCount(insn) ==> Legible(LineAddress(ea, i))
  }

  lemma InsnLineAdvances(j: Job, insn: Insn, ea: nat, text: string, name: string, p: nat)
    requires j.policy.debug ==> Legible(ea)
    ensures Assemble(Spot(name, true, p), NoteEvents(j, ea) + [Instruction(ea, insn, text)]) ==
      Spot(name, true, p + insn.size)
  {
    NoteIsWeightless(j, ea);
    WeightlessStays(Spot(name, true, p), NoteEvents(j, ea));
    FoldOne(Advance, Spot(name, true, p), Instruction(ea, insn, text));
    FoldConcat(Advance, Spot(name, true, p), NoteEvents(j, ea), [Instruction(ea, insn, text)]);
  }

  /** No-ops take the place of an instruction byte by byte. */
  lemma BodyAdvances(j: Job, insn: Insn, ea: nat, name: string, p: nat)
    requires insn.size > 0 && ea < ADDRESS_SPACE && InsnLegible(j, insn, ea)
    ensures Assemble(Spot(name, true, p), BodyEvents(j, insn, ea)) == Spot(name, true, p + insn.size)
  {
    if insn.kind == NopInsn {
      NopsAdvance(j, ea, insn.size, name, p);
    } else {
      assert LineAddress(ea, 0) == ea;
      InsnLineAdvances(j, insn, ea, InsnText(j, insn), name, p);
    }
  }

  lemma InsnAdvances(j: Job, insn: Insn, ea: nat, o: Offset, name: string, p: nat)
    requires insn.size > 0 && ea < ADDRESS_SPACE && InsnLegible(j, insn, ea)
    ensures Assemble(Spot(name, true, p), InsnEvents(j, insn, ea, o)) == Spot(name, true, p + insn.size)
  {
    var s := Spot(name, true, p);
    var group, comments := [LabelGroup(j.m, ea)], CommentEvents(j, o.element, o.displacement, insn.size);
    var cfi, body := CfiEvents(j, o), BodyEvents(j, insn, ea);
    CommentsAreWeightless(j, o.element, o.displacement, insn.size);
    CfiIsWeightless(j, o);
    WeightlessStays(s, group);
    WeightlessStays(s, comments);
    WeightlessStays(s, cfi);
    BodyAdvances(j, insn, ea, name, p);
    InTurn(s, group, s, comments, s, cfi + body);
    FoldConcat(Advance, s, cfi, body);
  }

  /** The counter before each instruction of a block that starts at p. */
  function InsnSpots(b: CodeBlock, name: string, p: nat): (r: seq<Spot>)
    ensures |r| == |b.insns| + 1
  {
    seq(|b.insns| + 1, n requires 0 <= n <= |b.insns| => Spot(name, true, p + SizeUpTo(b.insns, n)))
  }

  lemma SpotsAroundInsn(b: CodeBlock, n: nat, name: string, p: nat) returns (q: nat)
    requires n < |b.insns|
    ensures InsnSpots(b, name, p)[n] == Spot(name, true, q)
    ensures InsnSpots(b, name, p)[n + 1] == Spot(name, true, q + b.insns[n].size)
  {
    q := p + SizeUpTo(b.insns, n);
  }

  lemma InsnOfBlockLegible(j: Job, b: CodeBlock, n: nat)
    requires n < |b.insns| && NotesLegible(j, Code(b))
    ensures InsnLegible(j, Fixup(b.insns[n]), InsnAddress(b, n))
  {
    if j.policy.debug {
      forall i: nat | i < LineCount(Fixup(b.insns[n]))
        ensures Legible(LineAddress(InsnAddress(b, n), i))
      {
        assert InsnNoted(Fixup(b.insns[n]), InsnAddress(b, n), LineAddress(InsnAddress(b, n), i));
        assert Noted(Code(b), LineAddress(InsnAddress(b, n), i));
      }
    }
  }

  lemma InsnPartAdvances(j: Job, b: CodeBlock, n: nat, name: string, p: nat)
    requires n < |b.insns| && SizesPositive(b) && NotesLegible(j, Code(b))
    ensures Assemble(InsnSpots(b, name, p)[n], InsnParts(j, b)[n]) == InsnSpots(b, name, p)[n + 1]
  {
    var q := SpotsAroundInsn(b, n, name, p);
    InsnOfBlockLegible(j, b, n);
    InsnAdvances(j, Fixup(b.insns[n]), InsnAddress(b, n), InsnOffset(b, n), name, q);
  }

  lemma InsnsLead(j: Job, b: CodeBlock, name: string, p: nat)
    requires SizesPositive(b) && NotesLegible(j, Code(b))
    ensures Leads(Advance, InsnParts(j, b), InsnSpots(b, name, p), |b.insns|)
  {
    forall n | 0 <= n < |b.insns|
      ensures Fold(Advance, InsnSpots(b, name, p)[n], InsnParts(j, b)[n]) == InsnSpots(b, name, p)[n + 1]
    {
      InsnPartAdvances(j, b, n, name, p);
    }
  }

  lemma SpotsBetween(b: CodeBlock, n: nat, name: string, p: nat)
    requires n <= |b.insns|
    ensures InsnSpots(b, name, p)[0] == Spot(name, true, p)
    ensures InsnSpots(b, name, p)[n] == Spot(name, true, p + SizeUpTo(b.insns, n))
  {
  }

  /** The counter after the first n instructions. */
  lemma InsnsAdvance(j: Job, b: CodeBlock, n: nat, name: string, p: nat)
    requires n <= |b.insns| && SizesPositive(b) && NotesLegible(j, Code(b))
    ensures Assemble(Spot(name, true, p), Concat(InsnParts(j, b), n)) == Spot(name, true, p + SizeUpTo(b.insns, n))
  {
    var parts, spots := InsnParts(j, b), InsnSpots(b, name, p);
    InsnsLead(j, b, name, p);
    FoldParts(Advance, parts, spots, n);
    SpotsBetween(b, n, name, p);
  }

  // ---- alignment ----

  /** The counter agrees with the address as far as alignment is concerned. */
  predicate InStep(a: nat, p: nat) {
    (a - p) % 16 == 0
  }

  /** The alignment chosen for an address is the greatest common divisor of the address and 16. */
  lemma AlignmentIsGreatest(a: nat, d: nat)
    ensures Alignment(a) > 0 && a % Alignment(a) == 0 && 16 % Alignment(a) == 0
    ensures d > 0 && a % d == 0 && 16 % d == 0 ==> d <= Alignment(a)
  {
  }

  lemma DivisibleBy16(u: int, t: int)
    ensures (16 * u - 16 * t) % 16 == 0
  {
    assert 16 * u - 16 * t == 16 * (u - t);
  }

  lemma DivisibleBy8(u: int, t: int)
    ensures (8 * u - 16 * t) % 8 == 0
  {
    assert 8 * u - 16 * t == 8 * (u - 2 * t);
  }

  lemma DivisibleBy4(u: int, t: int)
    ensures (4 * u - 16 * t) % 4 == 0
  {
    assert 4 * u - 16 * t == 4 * (u - 4 * t);
  }

  lemma DivisibleBy2(u: int, t: int)
    ensures (2 * u - 16 * t) % 2 == 0
  {
    assert 2 * u - 16 * t == 2 * (u - 8 * t);
  }

  /** The chosen alignment divides the address, so aligning there adds no padding. */
  lemma AlignmentAddsNothing(a: nat, p: nat)
    requires InStep(a, p)
    ensures RoundUp(p, Alignment(a)) == p
  {
    var t := (a - p) / 16;
    if a % 16 == 0 {
      DivisibleBy16(a / 16, t);
    } else if a % 8 == 0 {
      DivisibleBy8(a / 8, t);
    } else if a % 4 == 0 {
      DivisibleBy4(a / 4, t);
    } else if a % 2 == 0 {
      DivisibleBy2(a / 2, t);
    }
  }

  lemma AlignAdvances(a: nat, name: string, p: nat)
    ensures Assemble(Spot(name, true, p), AlignEvents(a)) == Spot(name, true, RoundUp(p, Alignment(a)))
  {
    if Alignment(a) == 1 {
      WeightlessStays(Spot(name, true, p), []);
    } else {
      FoldOne(Advance, Spot(name, true, p), Align(Alignment(a)));
    }
  }

  // ---- items ----

  /** Positive-sized instructions cover the block. */
  predicate Disassembled(b: CodeBlock) {
    SizesPositive(b) && SizeUpTo(b.insns, |b.insns|) == b.size
  }

  /** The item is printed, and an assembler can tell the size of all that is printed for it. */
  ghost predicate Assembled(j: Job, item: Item) {
    && !SkipEA(j, item.Start()) && NotesLegible(j, item)
    && match item
       case Code(b) =>
         Disassembled(b)
       case Data(d) =>
         && !ShouldExclude(j, ContainerSection(j.m, d.address), d.address)
         && if d.address in j.m.symexprs then Width(DataDirective(j.m, d)) == Some(|d.bytes|) else Restores(j.m, d)
  }

  /** The function header of the item, if it has one, adds no padding at position p of the section. */
  predicate Unpadded(m: Module, item: Item, p: nat) {
    item.Code? && FunctionName(m, item.Start()) != "" ==> RoundUp(p, Alignment(item.Start())) == p
  }

  /** Where the position agrees with the address modulo 16 there is no padding. */
  lemma InStepUnpadded(m: Module, item: Item, p: nat)
    requires InStep(item.Start(), p)
    ensures Unpadded(m, item, p)
  {
    AlignmentAddsNothing(item.Start(), p);
  }

  lemma FunctionHeaderAdvances(m: Module, a: nat, name: string, p: nat)
    ensures Assemble(Spot(name, true, p), BlockHeaderEvents(m, a)) ==
      Spot(name, true, if FunctionName(m, a) == "" then p else RoundUp(p, Alignment(a)))
  {
    var f := FunctionName(m, a);
    var q := if f == "" then p else RoundUp(p, Alignment(a));
    if f != "" {
      var lines := [Global(f), TypeFunction(f), FunctionLabel(a, f)];
      AlignAdvances(a, name, p);
      WeightlessStays(Spot(name, true, q), lines);
      FoldConcat(Advance, Spot(name, true, p), AlignEvents(a), lines);
    } else {
      WeightlessStays(Spot(name, true, p), []);
    }
    WeightlessStays(Spot(name, true, q), [BlankLine]);
    FoldConcat(Advance, Spot(name, true, p), FunctionHeaderEvents(m, a), [BlankLine]);
  }

  lemma BlockAdvances(j: Job, b: CodeBlock, name: string, p: nat)
    requires Assembled(j, Code(b))
    ensures Assemble(Spot(name, true, p), BlockEvents(j, b)) ==
      Spot(name, true, (if FunctionName(j.m, b.address) == "" then p else RoundUp(p, Alignment(b.address))) + b.size)
  {
    var header, insns, cfi :=
      BlockHeaderEvents(j.m, b.address), Concat(InsnParts(j, b), |b.insns|), CfiEvents(j, InsnOffset(b, |b.insns|));
    var q := if FunctionName(j.m, b.address) == "" then p else RoundUp(p, Alignment(b.address));
    FunctionHeaderAdvances(j.m, b.address, name, p);
    InsnsAdvance(j, b, |b.insns|, name, q);
    CfiIsWeightless(j, InsnOffset(b, |b.insns|));
    WeightlessStays(Spot(name, true, q + b.size), cfi);
    InTurn(Spot(name, true, p), header, Spot(name, true, q), insns, Spot(name, true, q + b.size), cfi);
  }

  lemma InTurn(s: Spot, a: seq<Event>, t: Spot, b: seq<Event>, u: Spot, c: seq<Event>)
    requires Assemble(s, a) == t && Assemble(t, b) == u
    ensures Assemble(s, a + (b + c)) == Assemble(u, c)
  {
    FoldConcat(Advance, s, a, b + c);
    FoldConcat(Advance, t, b, c);
  }

  lemma DataNoteIsWeightless(j: Job, ea: nat)
    requires j.policy.debug ==> Legible(ea)
    ensures Weightless(DataNoteEvents(j, ea))
  {
    if j.policy.debug {
      NoteOfData(j, ea);
    }
  }

  lemma SymbolicAdvances(j: Job, d: DataBlock, name: string, p: nat)
    requires Assembled(j, Data(d)) && d.address in j.m.symexprs
    ensures Assemble(Spot(name, true, p), DataEvents(j, d)) == Spot(name, true, p + |d.bytes|)
  {
    var s := Spot(name, true, p);
    var comments, note := CommentEvents(j, d.id, 0, |d.bytes|), DataNoteEvents(j, d.address);
    var content := ContentEvents(j, d);
    var group := [LabelGroup(j.m, d.address)];
    CommentsAreWeightless(j, d.id, 0, |d.bytes|);
    WeightlessStays(s, comments);
    WeightlessStays(s, group);
    DataNoteIsWeightless(j, d.address);
    WeightlessStays(s, note);
    FoldOne(Advance, s, content[0]);
    InTurn(s, comments, s, group, s, note + content);
    FoldConcat(Advance, s, note, content);
  }

  lemma DataAdvances(j: Job, d: DataBlock, name: string, p: nat)
    requires Assembled(j, Data(d))
    ensures Assemble(Spot(name, true, p), DataEvents(j, d)) == Spot(name, true, p + |d.bytes|)
  {
    if d.address in j.m.symexprs {
      SymbolicAdvances(j, d, name, p);
    } else {
      DataRestored(j, d, []);
      ImageWeighs([], DataEvents(j, d), name, p);
    }
  }

  /** What is printed for an item is as long as the item, exactly when its function header adds no padding. */
  lemma ItemAdvances(j: Job, item: Item, name: string, p: nat)
    requires Assembled(j, item)
    ensures Assemble(Spot(name, true, p), ItemEvents(j, item)) == Spot(name, true, p + item.Size()) <==>
      Unpadded(j.m, item, p)
  {
    match item
    case Code(b) => BlockAdvances(j, b, name, p);
    case Data(d) => DataAdvances(j, d, name, p);
  }

  lemma NoteIsReadable(j: Job, item: Item, e: Event)
    requires NotesLegible(j, item) && e in ItemEvents(j, item) && e.AddressNote?
    ensures ReadableNote(e.text)
  {
    NoteOfItem(j, item, e);
    assert Legible(e.ea);
  }

  lemma ClosedStays(e: Event, name: string, p: nat)
    requires !e.SectionHeader? && (e.AddressNote? ==> ReadableNote(e.text))
    ensures Advance(Spot(name, false, p), e) == Spot(name, false, p)
  {
  }

  lemma EventElsewhere(j: Job, item: Item, e: Event, name: string, p: nat)
    requires NotesLegible(j, item) && e in ItemEvents(j, item) && !e.SectionHeader?
    ensures Advance(Spot(name, false, p), e) == Spot(name, false, p)
  {
    if e.AddressNote? {
      NoteIsReadable(j, item, e);
    }
    ClosedStays(e, name, p);
  }

  /** An item of another section does not matter. */
  lemma ItemElsewhere(j: Job, item: Item, name: string, p: nat)
    requires NotesLegible(j, item)
    ensures Assemble(Spot(name, false, p), ItemEvents(j, item)) == Spot(name, false, p)
  {
    ItemIsInner(j, item);
    var es := ItemEvents(j, item);
    forall e | e in es
      ensures Advance(Spot(name, false, p), e) == Spot(name, false, p)
    {
      assert Inner(j.m, e);
      EventElsewhere(j, item, e, name, p);
    }
    FoldKeeps(Advance, Spot(name, false, p), es);
  }
}
