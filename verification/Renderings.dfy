/** What the texts of the output say, told by what they consist of rather than by how they are made. */
module Renderings {
  import opened Common
  import opened Numerals
  import opened Texts
  import opened Program
  import opened Events
  import opened SymbolNames
  import opened SkipCoherence

  // ---- references ----

  /**
   How a reference to the symbol reads: the text it is forwarded to; the address in decimal if nothing is
   printed there; otherwise its label, and nothing for an ambiguous symbol without an address.
   */
  ghost predicate IsReference(j: Job, s: Symbol, text: string) {
    if s.id in j.m.forwarding then text == j.m.forwarding[s.id]
    else if s.address.Some? then
      if Suppressed(j, s.address.value) then IsNumeral(text, s.address.value, false)
      else IsLabel(j.m, s, s.address.value, text)
    else if Shared(j.m, s.name) then text == ""
    else IsLabel(j.m, s, 0, text)
  }

  lemma ReferenceExactly(j: Job, s: Symbol, text: string)
    requires Ascending(j.m.entries)
    ensures RenderingText(Reference(j, s)) == text <==> IsReference(j, s, text)
  {
    AmbiguousExactly(j.m, s.name);
    Renaming(s.name);
    if s.address.Some? {
      SuppressedExactly(j, s.address.value);
      DecimalExactly(text, s.address.value);
      AddressNameExactly(s.address.value, text);
    }
  }

  // ---- labels ----

  lemma {:induction false} LabelAt(m: Module, symbols: seq<Symbol>, a: nat, n: nat, i: nat)
    requires i < n <= |symbols|
    ensures |LabelNames(m, symbols, a, n)| == n && LabelNames(m, symbols, a, n)[i] == LabelName(m, symbols[i], a)
  {
    if n > 1 {
      LabelAt(m, symbols, a, n - 1, if i < n - 1 then i else 0);
    }
  }

  /** The labels at an address: one for each symbol there, in the order of the symbols. */
  lemma GroupInOrder(m: Module, a: nat) returns (at: seq<nat>)
    ensures PickedAt(m.symbols, SymbolsAt(m.symbols, a), at)
    ensures forall k :: 0 <= k < |m.symbols| ==> (k in at <==> m.symbols[k].address == Some(a))
    ensures LabelGroup(m, a).ea == a && |LabelGroup(m, a).names| == |at|
    ensures forall i :: 0 <= i < |at| ==> IsLabel(m, m.symbols[at[i]], a, LabelGroup(m, a).names[i])
  {
    at := SymbolsInOrder(m.symbols, a);
    var found := SymbolsAt(m.symbols, a);
    forall i | 0 <= i < |at|
      ensures |LabelGroup(m, a).names| == |at| && IsLabel(m, m.symbols[at[i]], a, LabelGroup(m, a).names[i])
    {
      LabelAt(m, found, a, |found|, i);
      LabelExactly(m, found[i], a, LabelName(m, found[i], a));
    }
  }

  // ---- operands ----

  /** A reference to the symbol, and the distance from it. */
  ghost predicate IsTarget(j: Job, t: Target, r: string, d: string) {
    IsReference(j, t.symbol, r) && IsDistance(d, t.addend)
  }

  lemma TargetExactly(j: Job, t: Target, r: string, d: string)
    requires Ascending(j.m.entries)
    ensures IsTarget(j, t, r, d) <==> r == RenderingText(Reference(j, t.symbol)) && d == Addend(t.addend, false)
  {
    ReferenceExactly(j, t.symbol, r);
    DistanceExactly(d, t.addend);
  }

  /** The symbolic value with what stands around it. */
  ghost predicate IsOperand(j: Job, o: Operand, text: string) {
    if o.target.None? then text == o.before + o.after
    else exists r, d :: IsTarget(j, o.target.value, r, d) && text == o.before + (r + (d + o.after))
  }

  lemma OperandExactly(j: Job, o: Operand, text: string)
    requires Ascending(j.m.entries)
    ensures OperandText(j, o) == text <==> IsOperand(j, o, text)
  {
    if o.target.Some? {
      var t := o.target.value;
      var r, d := RenderingText(Reference(j, t.symbol)), Addend(t.addend, false);
      TargetExactly(j, t, r, d);
      Associate(r, d, o.after);
      if r', d' :| IsTarget(j, t, r', d') && text == o.before + (r' + (d' + o.after)) {
        TargetExactly(j, t, r', d');
      }
    } else {
      Empty(o.after);
    }
  }

  // ---- symbolic data ----

  /** A reference to the first symbol with the identifier; nothing if there is none. */
  ghost predicate RefersById(j: Job, id: Identifier, text: string) {
    && (forall k: nat :: FirstWithId(j.m.symbols, id, k) ==> IsReference(j, j.m.symbols[k], text))
    && ((forall k :: 0 <= k < |j.m.symbols| ==> j.m.symbols[k].id != id) ==> text == "")
  }

  lemma ByIdExactly(j: Job, id: Identifier, text: string)
    requires Ascending(j.m.entries)
    ensures SymbolText(j, id) == text <==> RefersById(j, id, text)
  {
    FoundById(j.m.symbols, id);
    match SymbolById(j.m.symbols, id)
    case None =>
    case Some(s) =>
      var k: nat :| FirstWithId(j.m.symbols, id, k) && j.m.symbols[k] == s;
      ReferenceExactly(j, s, text);
  }

  /** A symbol and the distance from it, or the difference of two symbols. */
  ghost predicate IsExpression(j: Job, expr: SymExpr, text: string) {
    match expr
    case SymAddrConst(id, addend) => exists r, d :: RefersById(j, id, r) && IsDistance(d, addend) && text == r + d
    case SymAddrAddr(left, right) =>
      exists l, r :: RefersById(j, left, l) && RefersById(j, right, r) && text == l + ("-" + r)
  }

  lemma ExpressionExactly(j: Job, expr: SymExpr, text: string)
    requires Ascending(j.m.entries)
    ensures SymExprText(j, expr) == text <==> IsExpression(j, expr, text)
  {
    match expr
    case SymAddrConst(id, addend) =>
      ByIdExactly(j, id, SymbolText(j, id));
      DistanceExactly(Addend(addend, false), addend);
      if r, d :| RefersById(j, id, r) && IsDistance(d, addend) && text == r + d {
        ByIdExactly(j, id, r);
        DistanceExactly(d, addend);
      }
    case SymAddrAddr(left, right) =>
      ByIdExactly(j, left, SymbolText(j, left));
      ByIdExactly(j, right, SymbolText(j, right));
      if l, r :| RefersById(j, left, l) && RefersById(j, right, r) && text == l + ("-" + r) {
        ByIdExactly(j, left, l);
        ByIdExactly(j, right, r);
      }
  }

  /** A directive for so many bytes. */
  predicate HoldsBytes(directive: string, n: nat) {
    || (directive == ".byte" && n == 1) || (directive == ".word" && n == 2)
    || (directive == ".long" && n == 4) || (directive == ".quad" && n == 8)
  }

  /** Without an encoding the directive is the one for the size, if there is one. */
  lemma DirectiveFits(m: Module, d: DataBlock)
    ensures d.id in m.encodings ==> DataDirective(m, d) == "." + m.encodings[d.id]
    ensures d.id !in m.encodings && |d.bytes| in {1, 2, 4, 8} ==> HoldsBytes(DataDirective(m, d), |d.bytes|)
    ensures d.id !in m.encodings && |d.bytes| !in {1, 2, 4, 8} ==> DataDirective(m, d) == ""
  {
  }

  // ---- instructions ----

  /** The same letters in lower case. */
  predicate IsLowered(t: string, s: string) {
    |t| == |s| &&
    forall k :: 0 <= k < |s| ==> !IsUpper(t[k]) && (if IsUpper(s[k]) then UpperChar(t[k]) else t[k]) == s[k]
  }

  lemma LoweredExactly(t: string, s: string)
    ensures t == ToLower(s) <==> IsLowered(t, s)
  {
    if IsLowered(t, s) {
      forall k | 0 <= k < |s|
        ensures t[k] == ToLower(s)[k]
      {
        LowerIsUnique(t[k], s[k]);
      }
    }
  }

  lemma LowerIsUnique(t: char, s: char)
    requires !IsUpper(t) && (if IsUpper(s) then UpperChar(t) else t) == s
    ensures t == LowerChar(s)
  {
  }

  /** The texts of the operands. */
  ghost predicate AreOperands(j: Job, operands: seq<Operand>, texts: seq<string>) {
    |texts| == |operands| && forall k :: 0 <= k < |operands| ==> IsOperand(j, operands[k], texts[k])
  }

  lemma OperandsExactly(j: Job, operands: seq<Operand>, texts: seq<string>)
    requires Ascending(j.m.entries)
    ensures texts == OperandTexts(j, operands) <==> AreOperands(j, operands, texts)
  {
    forall k | 0 <= k < |operands| && |texts| == |operands|
      ensures texts[k] == OperandText(j, operands[k]) <==> IsOperand(j, operands[k], texts[k])
    {
      OperandExactly(j, operands[k], texts[k]);
    }
  }

  ghost predicate HasParts(j: Job, insn: Insn, mnemonic: string, texts: seq<string>) {
    IsLowered(mnemonic, insn.mnemonic) && AreOperands(j, insn.operands, texts)
  }

  /** The mnemonic in lower case, a blank, and the operands with commas between them. */
  ghost predicate IsInsnText(j: Job, insn: Insn, text: string) {
    exists mnemonic, texts :: HasParts(j, insn, mnemonic, texts) && text == mnemonic + (" " + Join(texts))
  }

  lemma PartsExactly(j: Job, insn: Insn, mnemonic: string, texts: seq<string>)
    requires Ascending(j.m.entries)
    ensures HasParts(j, insn, mnemonic, texts) <==>
      mnemonic == ToLower(insn.mnemonic) && texts == OperandTexts(j, insn.operands)
  {
    LoweredExactly(mnemonic, insn.mnemonic);
    OperandsExactly(j, insn.operands, texts);
  }

  lemma InsnTextExactly(j: Job, insn: Insn, text: string)
    requires Ascending(j.m.entries)
    ensures text == InsnText(j, insn) <==> IsInsnText(j, insn, text)
  {
    PartsExactly(j, insn, ToLower(insn.mnemonic), OperandTexts(j, insn.operands));
    if mnemonic, texts :| HasParts(j, insn, mnemonic, texts) && text == mnemonic + (" " + Join(texts)) {
      PartsExactly(j, insn, mnemonic, texts);
    }
  }

  /** A reader finds the mnemonic before the first blank, and the operands behind it. */
  lemma MnemonicReads(j: Job, insn: Insn)
    requires ' ' !in insn.mnemonic
    ensures var text := InsnText(j, insn); var n := Until(text, ' ');
      n < |text| && IsLowered(text[..n], insn.mnemonic) && text[n + 1..] == Join(OperandTexts(j, insn.operands))
  {
    var mnemonic, rest := ToLower(insn.mnemonic), Join(OperandTexts(j, insn.operands));
    LoweredExactly(mnemonic, insn.mnemonic);
    NoBlank(insn.mnemonic);
    UntilConcat(mnemonic, " " + rest, ' ');
    CutAt(mnemonic, " ", rest);
  }

  lemma NoBlank(s: string)
    requires ' ' !in s
    ensures ' ' !in ToLower(s)
  {
    forall k | 0 <= k < |s|
      ensures ToLower(s)[k] != ' '
    {
      assert s[k] in s;
    }
  }

  // ---- CFI directives ----

  /** The numbers in decimal, with commas between them. */
  ghost predicate IsNumberList(text: string, ns: seq<int>)
    decreases |ns|
  {
    if ns == [] then text == ""
    else if |ns| == 1 then IsDecimal(text, ns[0])
    else exists first, rest :: IsDecimal(first, ns[0]) && IsNumberList(rest, ns[1..]) && text == first + (", " + rest)
  }

  lemma {:induction false} FirstOperand(ns: seq<int>)
    requires |ns| > 1
    ensures OperandsText(ns) == FormatInt(PLAIN, ns[0]) + (", " + OperandsText(ns[1..]))
  {
    var last := ", " + FormatInt(PLAIN, ns[|ns| - 1]);
    var init := ns[..|ns| - 1];
    if |ns| == 2 {
      assert init == [ns[0]] && ns[1..] == [ns[1]];
    } else {
      FirstOperand(init);
      assert init[1..] == ns[1..][..|ns| - 2];
      Regrouped(FormatInt(PLAIN, ns[0]), OperandsText(init[1..]), ", ", FormatInt(PLAIN, ns[|ns| - 1]));
    }
  }

  lemma Regrouped(a: string, b: string, c: string, d: string)
    ensures (a + (c + b)) + c + d == a + (c + (b + c + d))
  {
  }

  lemma {:induction false} NumberListExactly(text: string, ns: seq<int>)
    ensures text == OperandsText(ns) <==> IsNumberList(text, ns)
    decreases |ns|
  {
    if |ns| == 1 {
      DecimalExactly(text, ns[0]);
    } else if |ns| > 1 {
      var first, rest := FormatInt(PLAIN, ns[0]), OperandsText(ns[1..]);
      FirstOperand(ns);
      DecimalExactly(first, ns[0]);
      NumberListExactly(rest, ns[1..]);
      if f, r :| IsDecimal(f, ns[0]) && IsNumberList(r, ns[1..]) && text == f + (", " + r) {
        DecimalExactly(f, ns[0]);
        NumberListExactly(r, ns[1..]);
      }
    }
  }

  ghost predicate AreOperandsOf(j: Job, d: CfiDirective, s: Symbol, numbers: string, r: string) {
    IsNumberList(numbers, d.operands) && IsReference(j, s, r)
  }

  /** The name, the numbers, and the symbol if there is one. */
  ghost predicate IsDirectiveText(j: Job, d: CfiDirective, text: string) {
    match d.symbol
    case None => exists numbers :: IsNumberList(numbers, d.operands) && text == d.name + (" " + numbers)
    case Some(s) =>
      var comma := if d.operands == [] then "" else ", ";
      exists numbers, r :: AreOperandsOf(j, d, s, numbers, r) && text == d.name + (" " + (numbers + (comma + r)))
  }

  lemma DirectiveTextExactly(j: Job, d: CfiDirective, text: string)
    requires Ascending(j.m.entries)
    ensures text == CfiText(j, d) <==> IsDirectiveText(j, d, text)
  {
    var numbers := OperandsText(d.operands);
    NumberListExactly(numbers, d.operands);
    match d.symbol
    case None =>
      Empty(d.name + " " + numbers);
      Associate(d.name, " ", numbers);
      if ns :| IsNumberList(ns, d.operands) && text == d.name + (" " + ns) {
        NumberListExactly(ns, d.operands);
      }
    case Some(s) =>
      var comma := if d.operands == [] then "" else ", ";
      var r := RenderingText(Reference(j, s));
      ReferenceExactly(j, s, r);
      assert CfiSymbolText(j, d) == comma + r;
      Associate3(d.name, " ", numbers, comma + r);
      assert AreOperandsOf(j, d, s, numbers, r);
      if ns, r' :| AreOperandsOf(j, d, s, ns, r') && text == d.name + (" " + (ns + (comma + r'))) {
        NumberListExactly(ns, d.operands);
        ReferenceExactly(j, s, r');
      }
  }

  lemma {:induction false} DirectiveLine(j: Job, o: Offset, ds: seq<CfiDirective>, k: nat)
    requires k < |ds|
    ensures |CfiLines(j, o, ds)| == |ds| && CfiLines(j, o, ds)[k] == Cfi(o, CfiText(j, ds[k]))
    decreases |ds|
  {
    if |ds| > 1 {
      DirectiveLine(j, o, ds[..|ds| - 1], if k < |ds| - 1 then k else 0);
    }
  }

  ghost predicate IsDirectiveLine(j: Job, o: Offset, d: CfiDirective, e: Event) {
    e.Cfi? && e.at == o && IsDirectiveText(j, d, e.text)
  }

  /** The directives at an offset are printed in their order, one line each; without any nothing is printed. */
  lemma DirectivesInOrder(j: Job, o: Offset, ds: seq<CfiDirective>)
    requires Ascending(j.m.entries)
    requires ds == if j.m.cfi.Some? && o in j.m.cfi.value then j.m.cfi.value[o] else []
    ensures |CfiEvents(j, o)| == |ds|
    ensures forall k :: 0 <= k < |ds| ==> IsDirectiveLine(j, o, ds[k], CfiEvents(j, o)[k])
  {
    forall k | 0 <= k < |ds|
      ensures |CfiEvents(j, o)| == |ds| && IsDirectiveLine(j, o, ds[k], CfiEvents(j, o)[k])
    {
      DirectiveLine(j, o, ds, k);
      DirectiveTextExactly(j, ds[k], CfiText(j, ds[k]));
    }
  }

  // ---- comments and notes ----

  /** A comment behind the address where it is printed tells how far behind. */
  ghost predicate IsCommentText(o: Offset, from: nat, comment: string, text: string) {
    if o.displacement > from then
      exists n :: IsNumeral(n, o.displacement - from, false) && text == "+" + (n + (": " + comment))
    else text == " " + comment
  }

  lemma CommentTextExactly(o: Offset, from: nat, comment: string, text: string)
    ensures text == CommentText(o, from, comment) <==> IsCommentText(o, from, comment, text)
  {
    if o.displacement > from {
      var n := FormatInt(PLAIN, o.displacement - from);
      DecimalExactly(n, o.displacement - from);
      Labelled(n, comment);
      if n' :| IsNumeral(n', o.displacement - from, false) && text == "+" + (n' + (": " + comment)) {
        DecimalExactly(n', o.displacement - from);
      }
    } else {
      Empty(" " + comment);
    }
  }

  lemma Labelled(n: string, comment: string)
    ensures ("+" + n + ":") + " " + comment == "+" + (n + (": " + comment))
  {
  }

  /** The address in hexadecimal digits, and what is behind it. */
  ghost predicate IsAddressNote(es: seq<Event>, ea: nat, behind: string) {
    exists hex :: IsNumeral(hex, ea, true) && es == [AddressNote(ea, hex + behind)]
  }

  /** In debug mode, and only then, a line of code or data begins with its address. */
  lemma NotesExactly(j: Job, ea: nat)
    ensures if j.policy.debug then IsAddressNote(NoteEvents(j, ea), ea, ": ") else NoteEvents(j, ea) == []
    ensures if j.policy.debug then IsAddressNote(DataNoteEvents(j, ea), ea, ":") else DataNoteEvents(j, ea) == []
  {
    ShownNumeral(ea, true);
  }

  // ---- what is printed for an instruction ----

  /** A line for each of n bytes from the address on; in debug mode, with the address in front. */
  ghost predicate AreNops(j: Job, es: seq<Event>, ea: nat, n: nat) {
    if j.policy.debug then
      |es| == 2 * n && forall k :: 0 <= k < n ==>
        IsAddressNote([es[2 * k]], (ea + k) % ADDRESS_SPACE, ": ") && es[2 * k + 1] == Nop((ea + k) % ADDRESS_SPACE)
    else |es| == n && forall k :: 0 <= k < n ==> es[k] == Nop((ea + k) % ADDRESS_SPACE)
  }

  lemma {:induction false} NopsInOrder(j: Job, ea: nat, n: nat)
    ensures AreNops(j, NopEvents(j, ea, n), ea, n)
  {
    if n > 0 {
      NopsInOrder(j, ea, n - 1);
      WrapIsRemainder(ea + n - 1);
      OneNopMore(j, NopEvents(j, ea, n - 1), ea, n - 1, Wrap(ea + n - 1));
    }
  }

  lemma OneNopMore(j: Job, es: seq<Event>, ea: nat, n: nat, last: nat)
    requires AreNops(j, es, ea, n) && last == (ea + n) % ADDRESS_SPACE
    ensures AreNops(j, es + NopLine(j, last), ea, n + 1)
  {
    NotesExactly(j, last);
    var r := es + NopLine(j, last);
    if j.policy.debug {
      assert NoteEvents(j, last) == [r[2 * n]];
      forall k | 0 <= k < n + 1
        ensures IsAddressNote([r[2 * k]], (ea + k) % ADDRESS_SPACE, ": ")
        ensures r[2 * k + 1] == Nop((ea + k) % ADDRESS_SPACE)
      {
        if k < n {
          assert r[2 * k] == es[2 * k] && r[2 * k + 1] == es[2 * k + 1];
        }
      }
    }
  }

  /** One line with the mnemonic and the operands; in debug mode, with the address in front. */
  ghost predicate IsInsnLine(j: Job, es: seq<Event>, ea: nat, insn: Insn) {
    var n := if j.policy.debug then 1 else 0;
    && |es| == n + 1 && (j.policy.debug ==> IsAddressNote([es[0]], ea, ": "))
    && es[n].Instruction? && es[n].ea == ea && es[n].insn == insn && IsInsnText(j, insn, es[n].text)
  }

  /**
   A no-op, and endbr64 with it, is printed as one no-op for each of its bytes, but at least one; any
   other instruction is printed as one line.
   */
  lemma BodyExactly(j: Job, insn: Insn, ea: nat)
    requires Ascending(j.m.entries)
    ensures var es := BodyEvents(j, Fixup(insn), ea);
      if insn.kind == OtherInsn then IsInsnLine(j, es, ea, insn)
      else AreNops(j, es, ea, if insn.size == 0 then 1 else insn.size)
  {
    if insn.kind == OtherInsn {
      NotesExactly(j, ea);
      assert j.policy.debug ==> NoteEvents(j, ea) == [NoteEvents(j, ea)[0]];
      InsnTextExactly(j, insn, InsnText(j, insn));
    } else {
      NopsInOrder(j, ea, if insn.size == 0 then 1 else insn.size);
    }
  }
}
