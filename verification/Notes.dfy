/** The address column of debug output, which an assembler takes for labels. */
module Notes {
  import opened Common
  import opened Numerals
  import opened Texts
  import opened Program
  import opened Events
  import opened Greedy
  import opened Labels

  /** The name of a label: it does not start with a digit. */
  predicate IsLabel(name: string) {
    name != "" && !IsDigit(name[0], false)
  }

  /** The name of a local label, which defines no symbol. */
  predicate IsLocalLabel(name: string) {
    name != "" && forall k :: 0 <= k < |name| ==> IsDigit(name[k], false)
  }

  /** What stands before the colon. */
  function NoteName(text: string): string {
    text[..Until(text, ':')]
  }

  /** The line can be read: its address is a label, though not one of the module. */
  predicate ReadableNote(text: string) {
    IsLabel(NoteName(text)) || IsLocalLabel(NoteName(text))
  }

  predicate Legible(a: nat) {
    IsLabel(ShowNat(a, true)) || IsLocalLabel(ShowNat(a, true))
  }

  /** The address a, as a note, defines this name. */
  predicate NoteDefines(a: nat, name: string) {
    IsLabel(name) && ShowNat(a, true) == name
  }

  lemma NoteNameIsAddress(a: nat, rest: string)
    requires rest != "" && rest[0] == ':'
    ensures NoteName(ShowNat(a, true) + rest) == ShowNat(a, true)
    ensures ReadableNote(ShowNat(a, true) + rest) <==> Legible(a)
  {
    var s := ShowNat(a, true);
    ReadShow(a, true);
    assert ':' !in s;
    UntilConcat(s, rest, ':');
    Cut(s, rest);
  }

  /** The address that the note shows. */
  predicate IsNote(e: Event, a: nat) {
    e.AddressNote? && e.ea == a && NoteName(e.text) == ShowNat(a, true) && (ReadableNote(e.text) <==> Legible(a))
  }

  lemma NoteOfInsn(j: Job, ea: nat)
    requires j.policy.debug
    ensures exists e :: NoteEvents(j, ea) == [e] && IsNote(e, ea)
  {
    NoteNameIsAddress(ea, ": ");
    assert IsNote(NoteEvents(j, ea)[0], ea);
  }

  lemma NoteOfData(j: Job, ea: nat)
    requires j.policy.debug
    ensures exists e :: DataNoteEvents(j, ea) == [e] && IsNote(e, ea)
  {
    NoteNameIsAddress(ea, ":");
    assert IsNote(DataNoteEvents(j, ea)[0], ea);
  }

  // ---- which addresses are noted ----

  /** How many lines are printed for an instruction. */
  function LineCount(insn: Insn): nat {
    if insn.kind == NopInsn && insn.size > 0 then insn.size else 1
  }

  /** The address of line i for an instruction at ea. */
  function LineAddress(ea: nat, i: nat): nat {
    Wrap(ea + i)
  }

  /** One of the lines for an instruction at ea is for address x. */
  predicate InsnNoted(insn: Insn, ea: nat, x: nat) {
    exists i: nat :: i < LineCount(insn) && x == LineAddress(ea, i)
  }

  /** In debug mode there is a note with address x for the item. */
  predicate Noted(item: Item, x: nat) {
    match item
    case Code(b) => exists n :: 0 <= n < |b.insns| && InsnNoted(Fixup(b.insns[n]), InsnAddress(b, n), x)
    case Data(d) => x == d.address
  }

  /** An assembler can read what is printed for the item. */
  ghost predicate NotesLegible(j: Job, item: Item) {
    j.policy.debug ==> forall x: nat :: Noted(item, x) ==> Legible(x)
  }

  /** An assembler can read what is printed in the run. */
  ghost predicate AllLegible(j: Job, items: seq<Item>) {
    forall k :: 0 <= k < |items| && IsPrinted(items, k) ==> NotesLegible(j, items[k])
  }

  // ---- the notes of an item ----

  lemma NoteOfLine(j: Job, ea: nat, e: Event)
    requires e in NoteEvents(j, ea)
    ensures j.policy.debug && IsNote(e, ea)
  {
    NoteOfInsn(j, ea);
  }

  lemma {:induction false} NoteOfNops(j: Job, ea: nat, n: nat, e: Event) returns (i: nat)
    requires e in NopEvents(j, ea, n) && e.AddressNote?
    ensures i < n && j.policy.debug && IsNote(e, LineAddress(ea, i))
  {
    if e in NopEvents(j, ea, n - 1) {
      i := NoteOfNops(j, ea, n - 1, e);
    } else {
      i := n - 1;
      NoteOfLine(j, LineAddress(ea, i), e);
    }
  }

  lemma NoteOfBody(j: Job, insn: Insn, ea: nat, e: Event)
    requires ea < ADDRESS_SPACE && e in BodyEvents(j, insn, ea) && e.AddressNote?
    ensures j.policy.debug && IsNote(e, e.ea) && InsnNoted(insn, ea, e.ea)
  {
    if insn.kind == NopInsn {
      var i := NoteOfNops(j, ea, LineCount(insn), e);
    } else {
      NoteOfLine(j, ea, e);
      assert LineAddress(ea, 0) == ea;
    }
  }

  lemma NoteOfPart(j: Job, b: CodeBlock, n: nat, e: Event)
    requires n < |b.insns| && e in InsnPart(j, b, n) && e.AddressNote?
    ensures j.policy.debug && IsNote(e, e.ea) && InsnNoted(Fixup(b.insns[n]), InsnAddress(b, n), e.ea)
  {
    FromInsn(j, Fixup(b.insns[n]), InsnAddress(b, n), InsnOffset(b, n), e);
    CfiIsPlain(j, InsnOffset(b, n));
    NoteOfBody(j, Fixup(b.insns[n]), InsnAddress(b, n), e);
  }

  lemma NoteOfBlock(j: Job, b: CodeBlock, e: Event)
    requires e in BlockEvents(j, b) && e.AddressNote?
    ensures j.policy.debug && IsNote(e, e.ea) && Noted(Code(b), e.ea)
  {
    var n := FromBlock(j, b, e);
    CfiIsPlain(j, InsnOffset(b, |b.insns|));
    NoteOfPart(j, b, n, e);
  }

  lemma NoteOfItem(j: Job, item: Item, e: Event)
    requires e in ItemEvents(j, item) && e.AddressNote?
    ensures j.policy.debug && IsNote(e, e.ea) && Noted(item, e.ea)
  {
    match item
    case Code(b) => NoteOfBlock(j, b, e);
    case Data(d) =>
      var note := DataNoteEvents(j, d.address);
      NoteOfDataBlock(j, d, e);
      NoteOfData(j, d.address);
  }

  lemma NoteOfDataBlock(j: Job, d: DataBlock, e: Event)
    requires e in DataEvents(j, d) && e.AddressNote?
    ensures e in DataNoteEvents(j, d.address) && j.policy.debug
  {
    FromData(j, d, e);
    BytesArePlain(d.bytes);
  }

  // ---- every line of an item has its note ----

  lemma {:induction false} NopsHaveNotes(j: Job, ea: nat, n: nat, i: nat) returns (e: Event)
    requires j.policy.debug && i < n
    ensures e in NopEvents(j, ea, n) && IsNote(e, LineAddress(ea, i))
  {
    if i < n - 1 {
      e := NopsHaveNotes(j, ea, n - 1, i);
    } else {
      e := NoteEvents(j, LineAddress(ea, i))[0];
      NoteOfLine(j, LineAddress(ea, i), e);
      assert e in NopLine(j, Wrap(ea + n - 1));
    }
  }

  lemma BodyHasNotes(j: Job, insn: Insn, ea: nat, x: nat) returns (e: Event)
    requires j.policy.debug && ea < ADDRESS_SPACE && InsnNoted(insn, ea, x)
    ensures e in BodyEvents(j, insn, ea) && IsNote(e, x)
  {
    var i: nat :| i < LineCount(insn) && x == LineAddress(ea, i);
    if insn.kind == NopInsn {
      e := NopsHaveNotes(j, ea, LineCount(insn), i);
    } else {
      assert LineAddress(ea, 0) == ea;
      e := NoteEvents(j, ea)[0];
      NoteOfLine(j, ea, e);
    }
  }
}
