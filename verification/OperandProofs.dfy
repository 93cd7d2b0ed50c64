/** The operand readers invert the operand printers. */
module OperandProofs {
  import opened Common
  import opened Numerals
  import opened Texts
  import opened Operands

  // ---- which characters occur in what is printed ----

  predicate IsNumberChar(c: char) {
    '0' <= c <= '9' || 'a' <= c <= 'f' || c == 'x' || c == '-'
  }

  predicate AllNumberChars(s: string) {
    forall k :: 0 <= k < |s| ==> IsNumberChar(s[k])
  }

  lemma NumberCharacters(flags: Flags, n: int)
    ensures FormatInt(flags, n) != "" && AllNumberChars(FormatInt(flags, n))
    ensures FormatInt(flags, n)[0] != 'x'
  {
    ReadShow(Wrap(n), true);
    ReadShow(if n < 0 then -n else n, false);
    var s := ShowNat(Wrap(n), true);
    assert IsDigit(s[0], true);
    var t := ShowNat(if n < 0 then -n else n, false);
    assert IsDigit(t[0], false);
  }

  lemma NumberHasNo(s: string, c: char)
    requires AllNumberChars(s) && !IsNumberChar(c)
    ensures c !in s
  {
  }

  lemma RegisterHasNo(r: string, c: char)
    requires IsRegister(r) && !IsLower(c) && !('0' <= c <= '9')
    ensures c !in r
  {
  }

  // ---- AT&T ----

  lemma AttRegisterReads(r: string)
    requires IsRegister(r)
    ensures AttRegister(r) == "%" + r && AttRegister(r)[1..] == r && IsAttField(AttRegister(r))
    ensures ',' !in AttRegister(r) && ':' !in AttRegister(r)
  {
    RegisterCase(r);
    assert ("%" + r)[1..] == r;
    RegisterHasNo(r, ',');
    RegisterHasNo(r, ':');
  }

  /** Whatever the case of its letters, a register is printed in lower case. */
  lemma AttRegisterIsLower(r: string)
    ensures |AttRegister(r)| == |r| + 1 && forall k :: 0 <= k < |AttRegister(r)| ==> !IsUpper(AttRegister(r)[k])
  {
  }

  lemma AttFieldReads(r: Option<string>)
    requires ValidRegister(r)
    ensures IsAttField(AttField(r)) && ReadAttField(AttField(r)) == r && ',' !in AttField(r)
  {
    if r.Some? {
      AttRegisterReads(r.value);
    }
  }

  /** The displacement text may not be confused with what surrounds it. */
  predicate PlainText(s: string) {
    '(' !in s && (s != "" ==> s[0] != '%' && s[0] != '*')
  }

  /** How many fields are in parentheses: none without registers, and a scale only if it is not 1. */
  function AttFieldCount(op: MemOperand): nat {
    if op.index.Some? then if op.scale == 1 then 2 else 3
    else if op.base.Some? then 1
    else 0
  }

  lemma AttFieldsRead(op: MemOperand, disp: string)
    requires ValidOperand(op) && !(op.base == None && op.index == None)
    ensures SplitCommas(Join(AttFields(op))) == AttFields(op)
    ensures ReadAttFields(disp, AttFields(op)) ==
      Some(AttParts(false, None, disp, AttFieldCount(op), op.base, op.index, Normal(op).scale))
  {
    AttFieldReads(op.base);
    AttFieldReads(op.index);
    NumberCharacters(PLAIN, op.scale);
    NumberHasNo(FormatInt(PLAIN, op.scale), ',');
    ReadShow(op.scale, false);
    SplitJoin(AttFields(op));
  }

  /** What stands between a displacement and the closing parenthesis. */
  lemma AttFramed(disp: string, fields: string)
    requires '(' !in disp
    ensures var s := disp + ("(" + (fields + ")"));
      && Until(s, '(') == |disp| && |disp| + 2 <= |s| && s[|s| - 1] == ')'
      && s[..|disp|] == disp && s[|disp| + 1..|s| - 1] == fields
  {
    UntilConcat(disp, "(" + (fields + ")"), '(');
    Framed(disp, "(", fields, ")");
  }

  lemma AttTailReads(op: MemOperand, disp: string)
    requires ValidOperand(op) && '(' !in disp
    ensures ReadAttTail(disp + AttRegisters(op)) ==
      Some(AttParts(false, None, disp, AttFieldCount(op), op.base, op.index, Normal(op).scale))
  {
    if AttRegisters(op) == "" {
      UntilConcat(disp, "", '(');
      Empty(disp);
    } else {
      Associate("(", Join(AttFields(op)), ")");
      AttFramed(disp, Join(AttFields(op)));
      AttFieldsRead(op, disp);
    }
  }

  lemma AttSegmentReads(op: MemOperand, t: string)
    requires ValidOperand(op) && (t != "" ==> t[0] != '%')
    ensures ReadAttSegment(AttSegment(op) + t) == (op.segment, t)
  {
    if op.segment.Some? {
      var r := AttRegister(op.segment.value);
      AttRegisterReads(op.segment.value);
      UntilConcat(r, ":" + t, ':');
      assert AttSegment(op) + t == r + (":" + t);
      assert (r + (":" + t))[..|r|] == r;
      assert (r + (":" + t))[|r| + 1..] == t;
    } else {
      assert AttSegment(op) + t == t;
    }
  }

  lemma AttStart(op: MemOperand, t: string)
    requires ValidOperand(op) && (t != "" ==> t[0] != '*')
    ensures var s := AttSegment(op) + t; s != "" ==> s[0] != '*'
  {
    if op.segment.Some? {
      AttRegisterReads(op.segment.value);
    }
  }

  lemma BranchMark(branch: bool, s: string)
    requires s != "" ==> s[0] != '*'
    ensures var u := (if branch then "*" else "") + s;
      (u != "" && u[0] == '*') == branch && (if branch then u[1..] else u) == s
  {
  }

  /** Every part of an AT&T operand is found again, whatever its displacement looks like. */
  lemma AttIndirectReads(op: MemOperand, symbolic: Option<string>, branch: bool)
    requires ValidOperand(op) && PlainText(AttDisplacement(op, symbolic))
    ensures ReadAttIndirect(AttIndirect(op, symbolic, branch)) ==
      Some(AttParts(branch, op.segment, AttDisplacement(op, symbolic), AttFieldCount(op), op.base, op.index,
        Normal(op).scale))
  {
    var disp := AttDisplacement(op, symbolic);
    var t := disp + AttRegisters(op);
    var s := AttSegment(op) + t;
    AttStart(op, t);
    AttSegmentReads(op, t);
    AttTailReads(op, disp);
    BranchMark(branch, s);
  }

  lemma AttDisplacementReads(op: MemOperand)
    requires ValidOperand(op)
    ensures PlainText(AttDisplacement(op, None))
    ensures ReadAttDisplacement(AttDisplacement(op, None)) == Some(op.disp)
  {
    var s := AttDisplacement(op, None);
    if op.segment == None && op.base == None && op.index == None {
      ReadHex(op.disp);
      NumberCharacters(PLAIN.(hex := true), op.disp);
      assert AllNumberChars(s);
    } else {
      ReadDecimal(op.disp);
      NumberCharacters(PLAIN, op.disp);
    }
    NumberHasNo(s, '(');
  }

  /** Parsing a printed AT&T operand gives the operand back; a bare displacement is 64-bit two's complement. */
  lemma AttRoundTrip(op: MemOperand, branch: bool)
    requires ValidOperand(op)
    ensures match ReadAttIndirect(AttIndirect(op, None, branch))
      case None => false
      case Some(p) =>
        && p.branch == branch && ReadAttDisplacement(p.disp) == Some(op.disp)
        // a displacement of zero is left out if a register is there, but no segment
        && (p.disp == "" <==> op.disp == 0 && op.segment == None && p.fields > 0)
        && p.fields == AttFieldCount(op)
        && MemOperand(p.segment, p.base, p.index, p.scale, op.disp) == Normal(op)
  {
    AttDisplacementReads(op);
    AttIndirectReads(op, None, branch);
    NumberCharacters(PLAIN, op.disp);
  }

  /** Whether an immediate is a constant or a branch target, and its value, are read back. */
  lemma AttImmediateRoundTrip(n: int, branch: bool)
    requires IsInt64(n)
    ensures ReadAttImmediate(AttImmediate(n, None, branch)) == Some(if branch then Location(n) else Constant(n))
  {
    if branch {
      var s := FormatInt(Flags(true, true), n);
      NumberCharacters(Flags(true, true), n);
      assert "" + s == s && IsNumberChar(s[0]);
      if n == 0 {
        ReadDecimal(0);
        assert s == FormatInt(PLAIN, 0) == "0";
      } else {
        ReadHex(n);
      }
    } else {
      ReadDecimal(n);
      assert ("$" + FormatInt(PLAIN, n))[1..] == FormatInt(PLAIN, n);
    }
  }

  /** A branch target other than zero is in hexadecimal, with its prefix. */
  lemma AttTargetIsHexadecimal(n: int)
    requires n % ADDRESS_SPACE != 0
    ensures var s := AttImmediate(n, None, true);
      |s| > 2 && s[..2] == "0x" && IsNumeral(s[2..], n % ADDRESS_SPACE, true)
  {
    var s := FormatInt(PLAIN.(hex := true), n);
    HexadecimalExactly(s, n);
    assert FormatInt(Flags(true, true), n) == "0x" + s;
    Empty("0x" + s);
    Cut("0x", s);
  }

  /** The text of a symbolic immediate is that of the symbol, after a dollar exactly if it is no branch target. */
  lemma AttSymbolicImmediate(n: int, text: string, branch: bool)
    ensures var s := AttImmediate(n, Some(text), branch);
      if branch then s == text else s != "" && s[0] == '$' && s[1..] == text
  {
    assert ("$" + text)[1..] == text;
  }

  // ---- Intel ----

  lemma UpperRegister(r: string)
    requires IsRegister(r)
    ensures var u := ToUpper(r);
      u != "" && IsUpper(u[0]) && ToLower(u) == r && forall k :: 0 <= k < |u| ==> IsNameChar(u[k])
    ensures '[' !in ToUpper(r) && ' ' !in ToUpper(r) && ':' !in ToUpper(r)
  {
    RegisterCase(r);
  }

  lemma DecimalIsName(n: nat)
    ensures forall k :: 0 <= k < |FormatInt(PLAIN, n)| ==> IsNameChar(FormatInt(PLAIN, n)[k])
    ensures ReadNat(FormatInt(PLAIN, n), false) == n && AllDigits(FormatInt(PLAIN, n), false)
  {
    ReadShow(n, false);
  }

  lemma AddendReads(n: int)
    ensures var s := Addend(n, false);
      && ReadSigned(s) == Some(n)
      && (s != "" ==> s[0] == '+' || s[0] == '-')
      && (forall k :: 0 <= k < |s| ==> !IsUpper(s[k]))
  {
    ReadDecimal(n);
    NumberCharacters(PLAIN, n);
    var s := FormatInt(PLAIN, n);
    assert IsNumberChar(s[0]);
    assert ("+" + s)[1..] == s;
  }

  lemma NumberReads(n: int)
    ensures var s := Addend(n, true);
      ReadNumber(s) == Some(n) && s != "" && forall k :: 0 <= k < |s| ==> !IsUpper(s[k])
  {
    ReadDecimal(n);
    NumberCharacters(PLAIN, n);
  }

  lemma IntelIndexReads(r: string, scale: nat, rest: string)
    requires IsRegister(r) && (rest != "" ==> rest[0] == '+' || rest[0] == '-')
    ensures ReadIntelIndex(ToUpper(r) + ("*" + (FormatInt(PLAIN, scale) + rest))) == Some((r, scale, rest))
  {
    var u, n := ToUpper(r), FormatInt(PLAIN, scale);
    UpperRegister(r);
    NameLengthConcat(u, "*" + (n + rest));
    CutAt(u, "*", n + rest);
    DecimalIsName(scale);
    NameLengthConcat(n, rest);
    Cut(n, rest);
  }

  /** Nothing but an index, so nothing that could be taken for one. */
  lemma NoIntelIndex(s: string)
    requires (s != "" ==> !IsUpper(s[0]))
    ensures ReadIntelIndex(s) == None
  {
  }

  /** The index, if there is one, with what follows it. */
  lemma IntelIndexShape(op: MemOperand, d: string)
    requires ValidOperand(op) && op.index.Some?
    ensures IntelIndex(op) + d ==
      (if op.base.Some? then "+" else "") + (ToUpper(op.index.value) + ("*" + (FormatInt(PLAIN, op.scale) + d)))
  {
    var plus := if op.base.Some? then "+" else "";
    var u, n := ToUpper(op.index.value), FormatInt(PLAIN, op.scale);
    Associate(plus, u + ("*" + n), d);
    Associate(u, "*" + n, d);
    Associate("*", n, d);
  }

  lemma IntelNoBase(op: MemOperand)
    requires ValidOperand(op) && op.base == None
    ensures ReadIntelAddress(IntelAddress(op, None)) == Some((None, op.index, Normal(op).scale, op.disp))
  {
    var d := Addend(op.disp, op.index == None);
    Empty(IntelIndex(op) + d);
    if op.index.Some? {
      AddendReads(op.disp);
      IntelIndexShape(op, d);
      Empty(ToUpper(op.index.value) + ("*" + (FormatInt(PLAIN, op.scale) + d)));
      IntelIndexReads(op.index.value, op.scale, d);
    } else {
      NumberReads(op.disp);
      Empty(d);
      NoIntelIndex(d);
    }
  }

  lemma IntelAfterBase(op: MemOperand, d: string, base: string)
    requires ValidOperand(op) && op.base.Some? && d == Addend(op.disp, false)
    ensures var t := IntelIndex(op) + d;
      && (t == "" || t[0] == '+' || t[0] == '-')
      && ReadIntelTail(base, t) == Some((Some(base), op.index, Normal(op).scale, op.disp))
  {
    AddendReads(op.disp);
    if op.index.Some? {
      var u := ToUpper(op.index.value) + ("*" + (FormatInt(PLAIN, op.scale) + d));
      IntelIndexShape(op, d);
      Cut("+", u);
      IntelIndexReads(op.index.value, op.scale, d);
    } else {
      Empty(d);
      NoIntelIndex(if d == "" then d else d[1..]);
    }
  }

  lemma BaseIsNotIndex(b: string, t: string)
    requires (forall k :: 0 <= k < |b| ==> IsNameChar(b[k])) && (t == "" || t[0] == '+' || t[0] == '-')
    ensures NameLength(b + t) == |b| && ReadIntelIndex(b + t) == None
  {
    NameLengthConcat(b, t);
  }

  lemma IntelWithBase(op: MemOperand)
    requires ValidOperand(op) && op.base.Some?
    ensures ReadIntelAddress(IntelAddress(op, None)) == Some((op.base, op.index, Normal(op).scale, op.disp))
  {
    var b, d := ToUpper(op.base.value), Addend(op.disp, false);
    var t := IntelIndex(op) + d;
    UpperRegister(op.base.value);
    IntelAfterBase(op, d, op.base.value);
    BaseIsNotIndex(b, t);
    Cut(b, t);
  }

  lemma IntelSegmentReads(op: MemOperand, far: string)
    requires ValidOperand(op) && far == if op.segment.Some? then ToUpper(op.segment.value) + ":" else ""
    ensures ReadIntelSegment(far) == Some(op.segment)
    ensures ' ' !in far && '[' !in far
  {
    if op.segment.Some? {
      UpperRegister(op.segment.value);
      Cut(ToUpper(op.segment.value), ":");
    }
  }

  lemma SizeNameCharacters(bits: nat)
    requires SizeName(bits).Some?
    ensures ' ' !in SizeName(bits).value && '[' !in SizeName(bits).value
  {
  }

  lemma SizeNameReads(bits: nat)
    requires SizeName(bits).Some?
    ensures BitsOf(SizeName(bits).value) == Some(bits)
  {
  }

  lemma SizeCut(name: string, far: string)
    ensures var s := name + (" PTR " + far);
      |name| + 5 <= |s| && s[..|name|] == name && s[|name|..|name| + 5] == " PTR " && s[|name| + 5..] == far
  {
  }

  lemma PrefixWithSize(name: string, bits: nat, far: string, segment: Option<string>)
    requires ' ' !in name && BitsOf(name) == Some(bits) && ReadIntelSegment(far) == Some(segment)
    ensures ReadIntelPrefix(name + (" PTR " + far)) == Some((Some(bits), segment))
  {
    UntilConcat(name, " PTR " + far, ' ');
    SizeCut(name, far);
  }

  lemma PrefixWithoutSize(far: string, segment: Option<string>)
    requires ' ' !in far && ReadIntelSegment(far) == Some(segment)
    ensures ReadIntelPrefix(far) == Some((None, segment))
  {
    UntilConcat(far, "", ' ');
    Empty(far);
  }

  lemma NamedSize(op: MemOperand, bits: nat, name: string, far: string)
    requires SizeName(bits) == Some(name) && far == if op.segment.Some? then ToUpper(op.segment.value) + ":" else ""
    ensures IntelPrefix(op, bits) == name + (" PTR " + far) && BitsOf(name) == Some(bits)
    ensures ' ' !in name && '[' !in name
  {
    SizeNameCharacters(bits);
    SizeNameReads(bits);
    Associate(name, " PTR ", far);
  }

  /** The size before the blank, unless there is none, and the segment. */
  lemma IntelPrefixReads(op: MemOperand, bits: nat)
    requires ValidOperand(op)
    ensures ReadIntelPrefix(IntelPrefix(op, bits)) ==
      Some((if SizeName(bits).Some? then Some(bits) else None, op.segment))
    ensures '[' !in IntelPrefix(op, bits)
  {
    var far := if op.segment.Some? then ToUpper(op.segment.value) + ":" else "";
    IntelSegmentReads(op, far);
    match SizeName(bits)
    case Some(name) =>
      NamedSize(op, bits, name, far);
      PrefixWithSize(name, bits, far, op.segment);
    case None =>
      Empty(far);
      PrefixWithoutSize(far, op.segment);
  }

  /** Parsing a printed Intel operand gives the size, if it has a name, and the operand back. */
  lemma IntelRoundTrip(op: MemOperand, bits: nat)
    requires ValidOperand(op)
    ensures ReadIntelIndirect(IntelIndirect(op, None, bits)) ==
      Some((if SizeName(bits).Some? then Some(bits) else None, Normal(op)))
  {
    IntelPrefixReads(op, bits);
    if op.base == None {
      IntelNoBase(op);
    } else {
      IntelWithBase(op);
    }
    IntelBrackets(IntelPrefix(op, bits), IntelAddress(op, None));
  }

  lemma IntelBrackets(prefix: string, address: string)
    requires '[' !in prefix
    ensures ReadIntelIndirect(prefix + ("[" + (address + "]"))) == ReadIntelParts(prefix, address)
  {
    var s := prefix + ("[" + (address + "]"));
    UntilConcat(prefix, "[" + (address + "]"), '[');
    Framed(prefix, "[", address, "]");
    assert s[|s| - 1] == ']';
    IntelSplits(s, |prefix|, prefix, address);
  }

  lemma IntelSplits(s: string, bracket: nat, prefix: string, address: string)
    requires bracket == Until(s, '[') && bracket + 2 <= |s| && s[|s| - 1] == ']'
    requires s[..bracket] == prefix && s[bracket + 1..|s| - 1] == address
    ensures ReadIntelIndirect(s) == ReadIntelParts(prefix, address)
  {
  }

  /**
   A symbolic displacement is between a plus and the closing bracket. In front of it is what is in front of
   the digit in the operand with displacement 1, or of its plus if there is one.
   */
  lemma IntelSymbolicReads(op: MemOperand, text: string, bits: nat) returns (front: string)
    requires ValidOperand(op)
    ensures IntelIndirect(op, Some(text), bits) == front + ("+" + (text + "]"))
    ensures ReadIntelIndirect(front + (if op.base == None && op.index == None then "1]" else "+1]")) ==
      Some((if SizeName(bits).Some? then Some(bits) else None, Normal(op.(disp := 1))))
  {
    front := IntelFront(op, bits);
    IntelRoundTrip(op.(disp := 1), bits);
    FrontOfOne(op, bits);
    FrontOfSymbol(op, text, bits);
  }

  /** What is in front of the displacement. */
  function IntelFront(op: MemOperand, bits: nat): string {
    IntelPrefix(op, bits) + ("[" + ((if op.base.Some? then ToUpper(op.base.value) else "") + IntelIndex(op)))
  }

  lemma FrontOfOne(op: MemOperand, bits: nat)
    ensures IntelIndirect(op.(disp := 1), None, bits) ==
      IntelFront(op, bits) + (if op.base == None && op.index == None then "1]" else "+1]")
  {
    var d := Addend(1, op.base == None && op.index == None);
    ShowOne();
    Inside(IntelPrefix(op, bits), if op.base.Some? then ToUpper(op.base.value) else "", IntelIndex(op), d);
    assert d + "]" == if op.base == None && op.index == None then "1]" else "+1]";
  }

  lemma FrontOfSymbol(op: MemOperand, text: string, bits: nat)
    ensures IntelIndirect(op, Some(text), bits) == IntelFront(op, bits) + ("+" + (text + "]"))
  {
    Inside(IntelPrefix(op, bits), if op.base.Some? then ToUpper(op.base.value) else "", IntelIndex(op), "+" + text);
    Associate("+", text, "]");
  }

  /** A number is added to what is in front of it, unless it is zero; with nothing in front it is just a number. */
  lemma IntelNumberReads(op: MemOperand, bits: nat) returns (d: string)
    ensures IntelIndirect(op, None, bits) == IntelFront(op, bits) + (d + "]")
    ensures if op.base == None && op.index == None then IsDecimal(d, op.disp) else IsDistance(d, op.disp)
  {
    d := Addend(op.disp, op.base == None && op.index == None);
    DistanceExactly(d, op.disp);
    DecimalExactly(d, op.disp);
    Inside(IntelPrefix(op, bits), if op.base.Some? then ToUpper(op.base.value) else "", IntelIndex(op), d);
  }

  lemma ShowOne()
    ensures Addend(1, true) == "1" && Addend(1, false) == "+1"
  {
  }

  lemma Inside(prefix: string, base: string, index: string, d: string)
    ensures prefix + ("[" + ((base + (index + d)) + "]")) == (prefix + ("[" + (base + index))) + (d + "]")
  {
  }

  lemma IntelImmediateRoundTrip(n: int, branch: bool)
    ensures ReadNumber(IntelImmediate(n, None, branch)) == Some(n)
  {
    ReadDecimal(n);
  }

  /** The text of a symbolic immediate is that of the symbol, after OFFSET exactly if it is no branch target. */
  lemma IntelSymbolicImmediate(n: int, text: string, branch: bool)
    ensures var s := IntelImmediate(n, Some(text), branch);
      if branch then s == text else |s| >= 7 && s[..7] == "OFFSET " && s[7..] == text
  {
    Empty(text);
    Cut("OFFSET ", text);
  }

  // ---- AArch64 ----

  lemma ShiftNameReads(kind: ShiftKind)
    ensures var name := ShiftName(kind); name != "" && ReadShiftKind(name) == Some(kind) && name[0] != '#'
    ensures var name := ShiftName(kind); ' ' !in name && ',' !in name && ']' !in name
  {
  }

  /** Name and amount of a shift are read back. */
  lemma ShiftReads(shift: Shift)
    ensures var s := ShiftText(shift);
      ReadShift(s) == Some(shift) && ',' !in s && ']' !in s && s != "" && s[0] != '#' && ' ' in s
  {
    var name, n := ShiftName(shift.kind), FormatInt(PLAIN, shift.amount);
    ShiftNameReads(shift.kind);
    AmountReads(name, n);
    DecimalIsName(shift.amount);
    NumberCharacters(PLAIN, shift.amount);
    NumberHasNo(n, ',');
    NumberHasNo(n, ']');
    assert ShiftText(shift)[|name|] == ' ';
  }

  lemma AmountReads(name: string, n: string)
    requires ' ' !in name && n != ""
    ensures var s := name + (" #" + n); var blank := Until(s, ' ');
      && blank == |name| && blank + 2 < |s|
      && s[..blank] == name && s[blank..blank + 2] == " #" && s[blank + 2..] == n
  {
    var s := name + (" #" + n);
    UntilConcat(name, " #" + n, ' ');
    assert s[..|name|] == name && s[|name|..|name| + 2] == " #" && s[|name| + 2..] == n;
  }

  lemma HashReads(n: int)
    ensures var s := "#" + FormatInt(PLAIN, n); ReadNumber(s[1..]) == Some(n) && ',' !in s && ']' !in s
  {
    ReadDecimal(n);
    NumberCharacters(PLAIN, n);
    NumberHasNo(FormatInt(PLAIN, n), ',');
    NumberHasNo(FormatInt(PLAIN, n), ']');
    assert ("#" + FormatInt(PLAIN, n))[1..] == FormatInt(PLAIN, n);
  }

  lemma RegisterField(r: string)
    requires IsRegister(r)
    ensures ',' !in r && ']' !in r && r[0] != '#'
  {
    RegisterHasNo(r, ',');
    RegisterHasNo(r, ']');
  }

  predicate Clean(fields: seq<string>) {
    forall k :: 0 <= k < |fields| ==> ',' !in fields[k] && ']' !in fields[k]
  }

  lemma A64PlacesAreClean(op: A64Operand)
    requires ValidA64(op)
    ensures Clean(A64Places(op, None))
  {
    if op.base.Some? {
      RegisterField(op.base.value);
    }
    if op.index.Some? {
      RegisterField(op.index.value);
    }
    HashReads(op.disp);
  }

  lemma A64FieldsAreClean(op: A64Operand)
    requires ValidA64(op)
    ensures Clean(A64Fields(op, None))
  {
    A64PlacesAreClean(op);
    if HasShift(op) {
      ShiftReads(op.shift.value);
    }
  }

  lemma {:induction false} JoinHasNo(fields: seq<string>, c: char)
    requires c != ',' && forall k :: 0 <= k < |fields| ==> c !in fields[k]
    ensures c !in Join(fields)
  {
    if |fields| > 1 {
      JoinHasNo(fields[1..], c);
    }
  }

  /** Reading one field after another. */
  lemma ReadOne(f: string, rest: seq<string>, first: bool, op: A64Operand, next: A64Operand)
    requires ReadA64Fields([f], first, op) == Some(next)
    ensures ReadA64Fields([f] + rest, first, op) == ReadA64Fields(rest, false, next)
  {
    assert ([f] + rest)[1..] == rest;
    assert [f][1..] == [];
  }

  lemma RegisterMeaning(r: string, acc: A64Operand)
    requires IsRegister(r)
    ensures ReadA64Fields([r], true, acc) == Some(acc.(base := Some(r)))
    ensures ReadA64Fields([r], false, acc) == Some(acc.(index := Some(r)))
  {
    RegisterField(r);
  }

  lemma ShiftMeaning(shift: Shift, acc: A64Operand)
    ensures ReadA64Fields([ShiftText(shift)], false, acc) == Some(acc.(shift := Some(shift)))
  {
    var s := ShiftText(shift);
    ShiftReads(shift);
    assert !IsRegister(s);
  }

  lemma FieldMeaning(op: A64Operand, acc: A64Operand, first: bool)
    requires ValidA64(op)
    ensures op.base.Some? ==> ReadA64Fields([op.base.value], true, acc) == Some(acc.(base := op.base))
    ensures ReadA64Fields([A64Displacement(op, None)], first, acc) == Some(acc.(disp := op.disp))
    ensures op.index.Some? ==> ReadA64Fields([op.index.value], false, acc) == Some(acc.(index := op.index))
    ensures HasShift(op) ==> ReadA64Fields([ShiftText(op.shift.value)], false, acc) == Some(acc.(shift := op.shift))
  {
    HashReads(op.disp);
    if op.base.Some? {
      RegisterMeaning(op.base.value, acc);
    }
    if op.index.Some? {
      RegisterMeaning(op.index.value, acc);
    }
    if op.shift.Some? {
      ShiftMeaning(op.shift.value, acc);
    }
  }

  /** The fields after the base, none of them in first place. */
  function LaterFields(op: A64Operand): seq<string> {
    (if op.disp != 0 then [A64Displacement(op, None)] else []) +
    ((if op.index.Some? then [op.index.value] else []) +
     (if HasShift(op) then [ShiftText(op.shift.value)] else []))
  }

  lemma TailFieldsRead(op: A64Operand, acc: A64Operand)
    requires ValidA64(op) && acc.index == None && acc.shift == None
    ensures ReadA64Fields(
        (if op.index.Some? then [op.index.value] else []) +
        (if HasShift(op) then [ShiftText(op.shift.value)] else []), false, acc) ==
      Some(acc.(index := op.index, shift := NormalA64(op).shift))
  {
    var s := if HasShift(op) then [ShiftText(op.shift.value)] else [];
    FieldMeaning(op, acc, false);
    FieldMeaning(op, acc.(index := op.index), false);
    if op.index.Some? {
      ReadOne(op.index.value, s, false, acc, acc.(index := op.index));
    } else {
      assert [] + s == s;
    }
  }

  lemma LaterFieldsRead(op: A64Operand, acc: A64Operand, first: bool)
    requires ValidA64(op) && acc.index == None && acc.shift == None && acc.disp == 0
    requires first ==> op.base == None && (op.disp != 0 || (op.index == None && !HasShift(op)))
    ensures ReadA64Fields(LaterFields(op), first, acc) ==
      Some(acc.(disp := op.disp, index := op.index, shift := NormalA64(op).shift))
  {
    var tail := (if op.index.Some? then [op.index.value] else []) +
      (if HasShift(op) then [ShiftText(op.shift.value)] else []);
    TailFieldsRead(op, acc.(disp := op.disp));
    FieldMeaning(op, acc, first);
    if op.disp != 0 {
      ReadOne(A64Displacement(op, None), tail, first, acc, acc.(disp := op.disp));
    } else {
      assert [] + tail == tail;
      if first {
        assert tail == [];
      }
    }
  }

  /** A shift that nothing precedes is after a comma all the same. */
  lemma LoneShiftRead(op: A64Operand, acc: A64Operand)
    requires ValidA64(op) && acc == A64Operand(None, None, 0, None, acc.writeback)
    requires op.base == None && op.index == None && op.disp == 0 && HasShift(op)
    ensures ReadA64Fields(A64Fields(op, None), true, acc) == Some(NormalA64(op).(writeback := acc.writeback))
  {
    var shift := [ShiftText(op.shift.value)];
    assert A64Fields(op, None) == [""] + shift;
    ReadOne("", shift, true, acc, acc);
    assert [""][1..] == [];
    FieldMeaning(op, acc, false);
  }

  lemma A64FieldsRead(op: A64Operand, acc: A64Operand)
    requires ValidA64(op) && acc == A64Operand(None, None, 0, None, acc.writeback)
    requires op.base.Some? || op.index == None || op.disp != 0
    ensures ReadA64Fields(A64Fields(op, None), true, acc) == Some(NormalA64(op).(writeback := acc.writeback))
  {
    var later := LaterFields(op);
    if op.base.Some? {
      assert A64Fields(op, None) == [op.base.value] + later;
      FieldMeaning(op, acc, true);
      ReadOne(op.base.value, later, true, acc, acc.(base := op.base));
      LaterFieldsRead(op, acc.(base := op.base), false);
    } else if op.disp == 0 && op.index == None && HasShift(op) {
      LoneShiftRead(op, acc);
    } else {
      assert A64Fields(op, None) == later;
      LaterFieldsRead(op, acc, true);
    }
  }

  lemma A64Brackets(fields: seq<string>, bang: string)
    requires Clean(fields) && bang in {"", "!"}
    ensures var empty := A64Operand(None, None, 0, None, bang == "!");
      ReadA64Indirect("[" + (Join(fields) + ("]" + bang))) == ReadA64Fields(fields, true, empty)
  {
    var s := "[" + (Join(fields) + ("]" + bang));
    JoinHasNo(fields, ']');
    assert s == ("[" + Join(fields)) + ("]" + bang);
    UntilConcat("[" + Join(fields), "]" + bang, ']');
    var end := |Join(fields)| + 1;
    assert s[1..end] == Join(fields) && s[end + 1..] == bang;
    if fields == [] {
      assert SplitCommas("") == [""];
      assert [""][1..] == [];
    } else {
      SplitJoin(fields);
    }
  }

  /**
   Parsing a printed AArch64 operand gives the operand back exactly when an index is not the
   first thing in the brackets: such an index is indistinguishable from a base.
   */
  lemma A64RoundTrip(op: A64Operand)
    requires ValidA64(op)
    ensures ReadA64Indirect(A64Indirect(op, None)) == Some(NormalA64(op)) <==>
      op.base.Some? || op.index == None || op.disp != 0
  {
    var bang := if op.writeback then "!" else "";
    A64FieldsAreClean(op);
    A64Brackets(A64Fields(op, None), bang);
    if op.base.Some? || op.index == None || op.disp != 0 {
      A64FieldsRead(op, A64Operand(None, None, 0, None, op.writeback));
    } else {
      A64IndexReadAsBase(op);
    }
  }

  /** With neither base nor displacement, the index is read as a base. */
  lemma A64IndexReadAsBase(op: A64Operand)
    requires ValidA64(op) && op.base == None && op.index.Some? && op.disp == 0
    ensures ReadA64Indirect(A64Indirect(op, None)) == Some(NormalA64(op).(base := op.index, index := None))
  {
    var twin := op.(base := op.index, index := None);
    assert A64Fields(twin, None) == A64Fields(op, None);
    A64FieldsAreClean(op);
    A64Brackets(A64Fields(op, None), if op.writeback then "!" else "");
    A64FieldsRead(twin, A64Operand(None, None, 0, None, op.writeback));
  }

  lemma RegisterHasNoHash(r: Option<string>)
    requires ValidRegister(r)
    ensures r.Some? ==> '#' !in r.value
  {
  }

  lemma {:induction false} InJoin(fields: seq<string>, k: nat, c: char)
    requires k < |fields| && c in fields[k]
    ensures c in Join(fields)
  {
    if |fields| > 1 && k > 0 {
      InJoin(fields[1..], k - 1, c);
    }
  }

  /** A displacement or a shift is printed only if it is not zero. */
  lemma A64Omits(op: A64Operand)
    requires ValidA64(op)
    ensures '#' in A64Indirect(op, None) <==> op.disp != 0 || (op.shift.Some? && op.shift.value.amount != 0)
  {
    var fields := A64Fields(op, None);
    RegisterHasNoHash(op.base);
    RegisterHasNoHash(op.index);
    if op.disp != 0 {
      var k := if op.base.Some? then 1 else 0;
      assert fields[k] == A64Displacement(op, None);
      InJoin(fields, k, '#');
    } else if HasShift(op) {
      var s := ShiftText(op.shift.value);
      assert s[|ShiftName(op.shift.value.kind)| + 1] == '#';
      InJoin(fields, |fields| - 1, '#');
    } else {
      JoinHasNo(fields, '#');
    }
  }

  lemma TwoFields(head: string, tail: string)
    requires ',' !in head && ',' !in tail
    ensures SplitCommas(head + ("," + tail)) == [head, tail]
  {
    SplitJoin([head, tail]);
    assert [head, tail][1..] == [tail];
    Associate(head, ",", tail);
  }

  lemma OneField(head: string)
    requires ',' !in head
    ensures SplitCommas(head) == [head]
  {
    SplitJoin([head]);
  }

  lemma FieldsGiveImmediate(s: string, fields: seq<string>, n: int, shift: Option<Shift>)
    requires SplitCommas(s) == fields && fields != [] && fields[0] == "#" + FormatInt(PLAIN, n)
    requires ReadA64ShiftField(fields) == Some(shift)
    ensures ReadA64Immediate(s) == Some((n, shift))
  {
    HashReads(n);
  }

  lemma A64ImmediateRoundTrip(n: int, shift: Option<Shift>, branch: bool)
    ensures ReadA64Immediate(A64Immediate(n, shift, None, branch)) ==
      Some((n, if shift.Some? && shift.value.amount != 0 then shift else None))
  {
    var head := "#" + FormatInt(PLAIN, n);
    HashReads(n);
    if shift.Some? && shift.value.amount != 0 {
      var tail := ShiftText(shift.value);
      ShiftReads(shift.value);
      Associate("#", FormatInt(PLAIN, n), "," + tail);
      TwoFields(head, tail);
      FieldsGiveImmediate(head + ("," + tail), [head, tail], n, shift);
    } else {
      Empty(FormatInt(PLAIN, n));
      OneField(head);
      FieldsGiveImmediate(head, [head], n, None);
    }
  }

  /** The text of a symbolic immediate is that of the symbol, after a blank exactly if it is no branch target. */
  lemma A64SymbolicImmediate(n: int, shift: Option<Shift>, text: string, branch: bool)
    ensures var s := A64Immediate(n, shift, Some(text), branch);
      if branch then s == text else s != "" && s[0] == ' ' && s[1..] == text
  {
    assert (" " + text)[1..] == text;
  }
}
