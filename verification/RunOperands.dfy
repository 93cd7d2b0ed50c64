/** The operands of a run: what the operand printers append is the text of an operand around its symbol. */
module RunOperands {
  import opened Common
  import opened Numerals
  import opened Texts
  import opened Program
  import opened Events
  import opened Operands

  /** The text that the operand printers are given for the symbolic value. */
  function Symbolic(j: Job, target: Option<Target>): Option<string> {
    if target.Some? then Some(TargetText(j, target.value)) else None
  }

  function Plain(text: string): Operand {
    Operand(text, None, "")
  }

  lemma PlainText(j: Job, text: string)
    ensures OperandText(j, Plain(text)) == text
  {
  }

  // ---- AT&T ----

  function AttMemory(op: MemOperand, target: Option<Target>, branch: bool): Operand {
    if target.None? then Plain(AttIndirect(op, None, branch))
    else Operand((if branch then "*" else "") + AttSegment(op), target, AttRegisters(op))
  }

  lemma AttMemoryText(j: Job, op: MemOperand, target: Option<Target>, branch: bool)
    ensures OperandText(j, AttMemory(op, target, branch)) == AttIndirect(op, Symbolic(j, target), branch)
  {
    if target.None? {
      PlainText(j, AttIndirect(op, None, branch));
    } else {
      Associate(if branch then "*" else "", AttSegment(op), TargetText(j, target.value) + AttRegisters(op));
    }
  }

  function AttConstant(n: int, target: Option<Target>, branch: bool): Operand {
    if target.None? then Plain(AttImmediate(n, None, branch))
    else Operand(if branch then "" else "$", target, "")
  }

  lemma AttConstantText(j: Job, n: int, target: Option<Target>, branch: bool)
    ensures OperandText(j, AttConstant(n, target, branch)) == AttImmediate(n, Symbolic(j, target), branch)
  {
    if target.None? {
      PlainText(j, AttImmediate(n, None, branch));
    } else {
      Empty(TargetText(j, target.value));
    }
  }

  // ---- Intel ----

  function IntelMemory(op: MemOperand, target: Option<Target>, bits: nat): Operand {
    if target.None? then Plain(IntelIndirect(op, None, bits))
    else
      Operand(IntelPrefix(op, bits) + ("[" + ((if op.base.Some? then ToUpper(op.base.value) else "") +
        (IntelIndex(op) + "+"))), target, "]")
  }

  lemma IntelMemoryText(j: Job, op: MemOperand, target: Option<Target>, bits: nat)
    ensures OperandText(j, IntelMemory(op, target, bits)) == IntelIndirect(op, Symbolic(j, target), bits)
  {
    if target.None? {
      PlainText(j, IntelIndirect(op, None, bits));
    } else {
      var base, text := if op.base.Some? then ToUpper(op.base.value) else "", TargetText(j, target.value);
      Nested(IntelPrefix(op, bits), "[", base, IntelIndex(op), "+", text, "]");
    }
  }

  lemma Nested(a: string, b: string, c: string, d: string, e: string, t: string, f: string)
    ensures (a + (b + (c + (d + e)))) + (t + f) == a + (b + ((c + (d + (e + t))) + f))
  {
  }

  function IntelConstant(n: int, target: Option<Target>, branch: bool): Operand {
    if target.None? then Plain(IntelImmediate(n, None, branch))
    else Operand(if branch then "" else "OFFSET ", target, "")
  }

  lemma IntelConstantText(j: Job, n: int, target: Option<Target>, branch: bool)
    ensures OperandText(j, IntelConstant(n, target, branch)) == IntelImmediate(n, Symbolic(j, target), branch)
  {
    if target.None? {
      PlainText(j, IntelImmediate(n, None, branch));
    } else {
      Empty(TargetText(j, target.value));
    }
  }

  // ---- AArch64 ----

  /** What precedes a displacement. */
  function A64Front(op: A64Operand): string {
    "[" + (if op.base.Some? then op.base.value + "," else "")
  }

  /** What follows a displacement. */
  function A64Rest(op: A64Operand): string {
    (if op.index.Some? then "," + op.index.value else "") +
    ((if HasShift(op) then "," + ShiftText(op.shift.value) else "") + ("]" + (if op.writeback then "!" else "")))
  }

  /** A displacement of zero is not printed, symbolic or not. */
  function A64Memory(op: A64Operand, target: Option<Target>): Operand {
    if target.None? || op.disp == 0 then Plain(A64Indirect(op, None))
    else Operand(A64Front(op), target, A64Rest(op))
  }

  lemma JoinTwo(fields: seq<string>, f: string, more: Option<string>) returns (r: seq<string>)
    ensures r == fields + [f] + if more.Some? then [more.value] else []
    ensures Join(r) ==
      Join(fields) + (if fields == [] then "" else ",") + f + if more.Some? then "," + more.value else ""
  {
    r := fields + [f];
    JoinAppend(fields, f);
    Empty(r);
    Empty(Join(r));
    if more.Some? {
      JoinAppend(r, more.value);
      Associate(Join(r), ",", more.value);
      r := r + [more.value];
    }
  }

  lemma A64PlacesWith(op: A64Operand, text: string)
    requires op.disp != 0
    ensures A64Places(op, Some(text)) != []
    ensures Join(A64Places(op, Some(text))) == (if op.base.Some? then op.base.value + "," else "") + (text +
      (if op.index.Some? then "," + op.index.value else ""))
  {
    var base := if op.base.Some? then [op.base.value] else [];
    var lead := if op.base.Some? then op.base.value + "," else "";
    var tail := if op.index.Some? then "," + op.index.value else "";
    var r := JoinTwo(base, text, op.index);
    Associate(lead, text, tail);
  }

  lemma A64FieldsWith(op: A64Operand, text: string)
    requires op.disp != 0
    ensures Join(A64Fields(op, Some(text))) == (if op.base.Some? then op.base.value + "," else "") + (text +
      ((if op.index.Some? then "," + op.index.value else "") +
       (if HasShift(op) then "," + ShiftText(op.shift.value) else "")))
  {
    var base := if op.base.Some? then op.base.value + "," else "";
    var index := if op.index.Some? then "," + op.index.value else "";
    var shift := if HasShift(op) then "," + ShiftText(op.shift.value) else "";
    var places := A64Places(op, Some(text));
    A64PlacesWith(op, text);
    if HasShift(op) {
      JoinAppend(places, ShiftText(op.shift.value));
      Associate(Join(places), ",", ShiftText(op.shift.value));
    } else {
      Empty(Join(places));
    }
    Associate(base, text + index, shift);
    Associate(text, index, shift);
  }

  lemma A64MemoryText(j: Job, op: A64Operand, target: Option<Target>)
    ensures OperandText(j, A64Memory(op, target)) == A64Indirect(op, Symbolic(j, target))
  {
    if target.None? || op.disp == 0 {
      assert A64Places(op, Symbolic(j, target)) == A64Places(op, None);
      PlainText(j, A64Indirect(op, None));
    } else {
      A64IndirectWith(op, TargetText(j, target.value));
    }
  }

  lemma A64IndirectWith(op: A64Operand, text: string)
    requires op.disp != 0
    ensures A64Indirect(op, Some(text)) == A64Front(op) + (text + A64Rest(op))
  {
    var base := if op.base.Some? then op.base.value + "," else "";
    var index := if op.index.Some? then "," + op.index.value else "";
    var shift := if HasShift(op) then "," + ShiftText(op.shift.value) else "";
    A64FieldsWith(op, text);
    Bracketed("[", base, text, index, shift, "]" + (if op.writeback then "!" else ""));
  }

  /** A symbolic displacement takes the place of the number and its hash; where that is zero nothing is printed. */
  lemma A64SymbolicReads(op: A64Operand, text: string) returns (front: string, number: string, back: string)
    ensures op.disp == 0 ==> A64Indirect(op, Some(text)) == A64Indirect(op, None)
    ensures op.disp != 0 ==> A64Indirect(op, Some(text)) == front + (text + back)
    ensures op.disp != 0 ==> A64Indirect(op, None) == front + (("#" + number) + back) && IsDecimal(number, op.disp)
  {
    front, number, back := A64Front(op), FormatInt(PLAIN, op.disp), A64Rest(op);
    DecimalExactly(number, op.disp);
    if op.disp != 0 {
      A64IndirectWith(op, text);
      A64IndirectWith(op, "#" + number);
      assert A64Places(op, Some("#" + number)) == A64Places(op, None);
    } else {
      assert A64Places(op, Some(text)) == A64Places(op, None);
    }
  }

  lemma Bracketed(a: string, b: string, t: string, c: string, d: string, e: string)
    ensures (a + b) + (t + (c + (d + e))) == a + ((b + (t + (c + d))) + e)
  {
  }

  function A64Constant(n: int, shift: Option<Shift>, target: Option<Target>, branch: bool): Operand {
    if target.None? then Plain(A64Immediate(n, shift, None, branch))
    else Operand(if branch then "" else " ", target, "")
  }

  lemma A64ConstantText(j: Job, n: int, shift: Option<Shift>, target: Option<Target>, branch: bool)
    ensures OperandText(j, A64Constant(n, shift, target, branch)) == A64Immediate(n, shift, Symbolic(j, target), branch)
  {
    if target.None? {
      PlainText(j, A64Immediate(n, shift, None, branch));
    } else {
      Empty(TargetText(j, target.value));
    }
  }
}
