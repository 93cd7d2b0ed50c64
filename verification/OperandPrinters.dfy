/** The operand printers of the three syntaxes, appending to a stream. */
module OperandPrinters {
  import opened Common
  import opened Numerals
  import opened Texts
  import opened Streams
  import opened Operands

  class AttPrinter {
    constructor () { }

    method PrintOpIndirect(os: OStream, op: MemOperand, symbolic: Option<string>, branch: bool)
      requires os.flags == PLAIN
      modifies os
      ensures os.text == old(os.text) + AttIndirect(op, symbolic, branch)
      ensures os.flags == PLAIN
    {
      ghost var was := os.text;
      ghost var star := if branch then "*" else "";
      Empty(was);
      if branch {
        os.Put("*");
      }
      PrintSegment(os, op);
      PrintDisplacement(os, op, symbolic);
      PrintRegisters(os, op);
      Associate4(was, star, AttSegment(op), AttDisplacement(op, symbolic), AttRegisters(op));
    }

    method PrintSegment(os: OStream, op: MemOperand)
      modifies os`text
      ensures os.text == old(os.text) + AttSegment(op)
    {
      ghost var was := os.text;
      Empty(was);
      if op.segment.Some? {
        os.Put(AttRegister(op.segment.value));
        os.Put(":");
        Associate(was, AttRegister(op.segment.value), ":");
      }
    }

    method PrintDisplacement(os: OStream, op: MemOperand, symbolic: Option<string>)
      requires os.flags == PLAIN
      modifies os
      ensures os.text == old(os.text) + AttDisplacement(op, symbolic)
      ensures os.flags == PLAIN
    {
      ghost var was := os.text;
      Empty(was);
      var hasSegment, hasBase, hasIndex := op.segment.Some?, op.base.Some?, op.index.Some?;
      if symbolic.Some? {
        os.Put(symbolic.value);
      } else if !hasSegment && !hasBase && !hasIndex {
        var flags := os.flags;
        os.Put("0x");
        os.SetHex();
        os.PutInt(op.disp);
        os.SetFlags(flags);
        Associate(was, "0x", FormatInt(PLAIN.(hex := true), op.disp));
      } else if op.disp != 0 || hasSegment {
        os.PutInt(op.disp);
      }
    }

    /** Base, index, and scale. */
    method PrintRegisters(os: OStream, op: MemOperand)
      requires os.flags == PLAIN
      modifies os`text
      ensures os.text == old(os.text) + AttRegisters(op)
    {
      ghost var was := os.text;
      Empty(was);
      if op.base.Some? || op.index.Some? {
        os.Put("(");
        ghost var open := os.text;
        Empty(open);
        if op.base.Some? {
          os.Put(AttRegister(op.base.value));
        }
        if op.index.Some? {
          PrintIndex(os, op);
          JoinTail(op);
          Associate(open, AttField(op.base), AttIndexTail(op));
        }
        assert os.text == open + Join(AttFields(op));
        os.Put(")");
        Associate3(was, "(", Join(AttFields(op)), ")");
        Associate("(", Join(AttFields(op)), ")");
      }
    }

    method PrintIndex(os: OStream, op: MemOperand)
      requires os.flags == PLAIN && op.index.Some?
      modifies os`text
      ensures os.text == old(os.text) + AttIndexTail(op)
    {
      ghost var was := os.text;
      os.Put(",");
      os.Put(AttRegister(op.index.value));
      Associate(was, ",", AttRegister(op.index.value));
      ghost var next := os.text;
      Empty(next);
      if op.scale != 1 {
        os.Put(",");
        os.PutInt(op.scale);
        Associate(next, ",", FormatInt(PLAIN, op.scale));
      }
      Associate(was, "," + AttRegister(op.index.value), AttScale(op));
    }

    method PrintOpImmediate(os: OStream, n: int, symbolic: Option<string>, branch: bool)
      requires os.flags == PLAIN
      modifies os
      ensures os.text == old(os.text) + AttImmediate(n, symbolic, branch)
      ensures os.flags == PLAIN
    {
      ghost var was := os.text;
      Empty(was);
      if !branch {
        os.Put("$");
      }
      Associate(was, if branch then "" else "$", if symbolic.Some? then symbolic.value
        else FormatInt(if branch then Flags(true, true) else PLAIN, n));
      if symbolic.Some? {
        os.Put(symbolic.value);
      } else {
        var flags := os.flags;
        if branch {
          os.SetHex();
          os.SetShowBase();
        }
        os.PutInt(n);
        os.SetFlags(flags);
      }
    }
  }

  function AttScale(op: MemOperand): string {
    if op.scale == 1 then "" else "," + FormatInt(PLAIN, op.scale)
  }

  function AttIndexTail(op: MemOperand): string
    requires op.index.Some?
  {
    "," + AttRegister(op.index.value) + AttScale(op)
  }

  lemma JoinTail(op: MemOperand)
    requires op.index.Some?
    ensures Join(AttFields(op)) == AttField(op.base) + AttIndexTail(op)
  {
    var f := AttFields(op);
    assert Join(f) == f[0] + "," + Join(f[1..]);
    if op.scale == 1 {
      Empty("," + f[1]);
      Associate(f[0], ",", f[1]);
    } else {
      assert f[1..][1..] == [f[2]];
      assert Join(f[1..]) == f[1] + "," + f[2];
      Associate(f[0], ",", f[1] + "," + f[2]);
      Associate(f[1], ",", f[2]);
      Associate(",", f[1], "," + f[2]);
    }
  }

  class IntelPrinter {
    constructor () { }

    method PrintOpIndirect(os: OStream, op: MemOperand, symbolic: Option<string>, size: nat)
      requires os.flags == PLAIN
      modifies os`text
      ensures os.text == old(os.text) + IntelIndirect(op, symbolic, size * 8)
    {
      ghost var was := os.text;
      PrintPrefix(os, op, size * 8);
      os.Put("[");
      PrintAddress(os, op, symbolic);
      os.Put("]");
      Associate4(was, IntelPrefix(op, size * 8), "[", IntelAddress(op, symbolic), "]");
    }

    /** The size and the segment. */
    method PrintPrefix(os: OStream, op: MemOperand, bits: nat)
      modifies os`text
      ensures os.text == old(os.text) + IntelPrefix(op, bits)
    {
      ghost var was := os.text;
      Empty(was);
      var sizeName := SizeName(bits);
      ghost var size := if sizeName.Some? then sizeName.value + " PTR " else "";
      if sizeName.Some? {
        os.Put(sizeName.value);
        os.Put(" PTR ");
        Associate(was, sizeName.value, " PTR ");
      }
      assert os.text == was + size;
      ghost var next := os.text;
      ghost var segment := if op.segment.Some? then ToUpper(op.segment.value) + ":" else "";
      Empty(next);
      if op.segment.Some? {
        os.Put(ToUpper(op.segment.value));
        os.Put(":");
        Associate(next, ToUpper(op.segment.value), ":");
      }
      Associate(was, size, segment);
    }

    /** What stands between the brackets. */
    method PrintAddress(os: OStream, op: MemOperand, symbolic: Option<string>)
      requires os.flags == PLAIN
      modifies os`text
      ensures os.text == old(os.text) + IntelAddress(op, symbolic)
    {
      ghost var was := os.text;
      ghost var base := if op.base.Some? then ToUpper(op.base.value) else "";
      Empty(was);
      var first := true;
      if op.base.Some? {
        first := false;
        os.Put(ToUpper(op.base.value));
      }
      assert os.text == was + base;
      ghost var next := os.text;
      Empty(next);
      if op.index.Some? {
        if !first {
          os.Put("+");
        }
        first := false;
        ghost var plus := if op.base.Some? then "+" else "";
        assert os.text == next + plus;
        os.Put(ToUpper(op.index.value));
        os.Put("*");
        os.PutInt(op.scale);
        Associate4(next, plus, ToUpper(op.index.value), "*", FormatInt(PLAIN, op.scale));
      }
      assert os.text == next + IntelIndex(op);
      if symbolic.Some? {
        ghost var before := os.text;
        os.Put("+");
        os.Put(symbolic.value);
        Associate(before, "+", symbolic.value);
      } else {
        PrintAddend(os, op.disp, first);
      }
      Associate3(was, base, IntelIndex(op), IntelDisplacement(op, symbolic));
    }

    method PrintOpImmediate(os: OStream, n: int, symbolic: Option<string>, branch: bool)
      requires os.flags == PLAIN
      modifies os`text
      ensures os.text == old(os.text) + IntelImmediate(n, symbolic, branch)
    {
      if symbolic.Some? {
        if !branch {
          os.Put("OFFSET");
          os.Put(" ");
        }
        os.Put(symbolic.value);
      } else {
        os.PutInt(n);
      }
    }
  }

  class A64Printer {
    constructor () { }

    method PrintShift(os: OStream, shift: Shift)
      requires os.flags == PLAIN
      modifies os`text
      ensures os.text == old(os.text) + ShiftText(shift)
    {
      ghost var was := os.text;
      os.Put(ShiftName(shift.kind));
      os.Put(" #");
      os.PutInt(shift.amount);
      Associate3(was, ShiftName(shift.kind), " #", FormatInt(PLAIN, shift.amount));
    }

    method PrintOpIndirect(os: OStream, op: A64Operand, symbolic: Option<string>)
      requires os.flags == PLAIN
      modifies os`text
      ensures os.text == old(os.text) + A64Indirect(op, symbolic)
    {
      ghost var was := os.text;
      os.Put("[");
      PrintFields(os, op, symbolic);
      os.Put("]");
      ghost var next := os.text;
      Empty(next);
      if op.writeback {
        os.Put("!");
      }
      Associate4(was, "[", Join(A64Fields(op, symbolic)), "]", if op.writeback then "!" else "");
    }

    /** Adds a separator, unless the next field is the first. */
    method PrintSeparator(os: OStream, first: bool)
      modifies os`text
      ensures os.text == old(os.text) + if first then "" else ","
    {
      Empty(os.text);
      if !first {
        os.Put(",");
      }
    }

    method PrintFields(os: OStream, op: A64Operand, symbolic: Option<string>)
      requires os.flags == PLAIN
      modifies os`text
      ensures os.text == old(os.text) + Join(A64Fields(op, symbolic))
    {
      ghost var was := os.text;
      ghost var f0 := if op.base.Some? then [op.base.value] else [];
      ghost var f1 := f0 + if op.disp != 0 then [A64Displacement(op, symbolic)] else [];
      ghost var f2 := f1 + if op.index.Some? then [op.index.value] else [];
      var first := true;
      Empty(was);
      if op.base.Some? {
        first := false;
        os.Put(op.base.value);
      }
      assert first == (f0 == []) && os.text == was + Join(f0);
      assert f0 + [] == f0;
      if op.disp != 0 {
        PrintSeparator(os, first);
        PrintDisplacement(os, op, symbolic);
        Appended(was, f0, A64Displacement(op, symbolic));
        first := false;
      }
      assert first == (f1 == []) && os.text == was + Join(f1);
      assert f1 + [] == f1;
      if op.index.Some? {
        PrintSeparator(os, first);
        first := false;
        os.Put(op.index.value);
        Appended(was, f1, op.index.value);
      }
      assert first == (f2 == []) && os.text == was + Join(f2);
      assert f2 + [] == f2;
      if op.shift.Some? && op.shift.value.amount != 0 {
        os.Put(",");
        PrintShift(os, op.shift.value);
        Appended(was, if f2 == [] then [""] else f2, ShiftText(op.shift.value));
      }
    }

    method PrintDisplacement(os: OStream, op: A64Operand, symbolic: Option<string>)
      requires os.flags == PLAIN
      modifies os`text
      ensures os.text == old(os.text) + A64Displacement(op, symbolic)
    {
      ghost var was := os.text;
      if symbolic.Some? {
        os.Put(symbolic.value);
      } else {
        os.Put("#");
        os.PutInt(op.disp);
        Associate(was, "#", FormatInt(PLAIN, op.disp));
      }
    }

    method PrintOpImmediate(os: OStream, n: int, shift: Option<Shift>, symbolic: Option<string>, branch: bool)
      requires os.flags == PLAIN
      modifies os`text
      ensures os.text == old(os.text) + A64Immediate(n, shift, symbolic, branch)
    {
      ghost var was := os.text;
      if symbolic.Some? {
        if !branch {
          os.Put(" ");
        }
        os.Put(symbolic.value);
        Associate(was, " ", symbolic.value);
      } else {
        os.Put("#");
        os.PutInt(n);
        ghost var next := os.text;
        Empty(next);
        ghost var shifted := "";
        if shift.Some? && shift.value.amount != 0 {
          os.Put(",");
          PrintShift(os, shift.value);
          Associate(next, ",", ShiftText(shift.value));
          shifted := "," + ShiftText(shift.value);
        }
        Associate3(was, "#", FormatInt(PLAIN, n), shifted);
      }
    }
  }
}
