/** Operand texts of the three syntaxes, and readers that invert them. */
module Operands {
  import opened Common
  import opened Numerals
  import opened Texts

  /** A memory operand; a symbolic displacement, if there is one, replaces the numeric one. */
  datatype MemOperand = MemOperand(
    segment: Option<string>,
    base: Option<string>,
    index: Option<string>,
    scale: nat,
    disp: int)

  predicate ValidRegister(r: Option<string>) {
    r.Some? ==> IsRegister(r.value)
  }

  predicate ValidOperand(op: MemOperand) {
    ValidRegister(op.segment) && ValidRegister(op.base) && ValidRegister(op.index) && IsInt64(op.disp)
  }

  /** Without an index the scale means nothing. */
  function Normal(op: MemOperand): MemOperand {
    if op.index == None then op.(scale := 1) else op
  }

  // ---- AT&T ----

  function AttRegister(r: string): string {
    "%" + ToLower(ToUpper(r))
  }

  function AttField(r: Option<string>): string {
    if r.Some? then AttRegister(r.value) else ""
  }

  function AttSegment(op: MemOperand): string {
    if op.segment.Some? then AttRegister(op.segment.value) + ":" else ""
  }

  function AttDisplacement(op: MemOperand, symbolic: Option<string>): string {
    if symbolic.Some? then symbolic.value
    else if op.segment == None && op.base == None && op.index == None then
      "0x" + FormatInt(PLAIN.(hex := true), op.disp)
    else if op.disp != 0 || op.segment.Some? then FormatInt(PLAIN, op.disp)
    else ""
  }

  function AttFields(op: MemOperand): seq<string> {
    if op.index == None then [AttField(op.base)]
    else if op.scale == 1 then [AttField(op.base), AttField(op.index)]
    else [AttField(op.base), AttField(op.index), FormatInt(PLAIN, op.scale)]
  }

  function AttRegisters(op: MemOperand): string {
    if op.base == None && op.index == None then "" else "(" + Join(AttFields(op)) + ")"
  }

  function AttIndirect(op: MemOperand, symbolic: Option<string>, branch: bool): string {
    (if branch then "*" else "") + (AttSegment(op) + (AttDisplacement(op, symbolic) + AttRegisters(op)))
  }

  /** A register, or nothing. */
  predicate IsAttField(s: string) {
    s == "" || (s[0] == '%' && IsRegister(s[1..]))
  }

  function ReadAttField(s: string): Option<string> {
    if s == "" then None else Some(s[1..])
  }

  /** An AT&T memory operand, with the displacement still as text, and the number of fields in parentheses. */
  datatype AttParts = AttParts(
    branch: bool,
    segment: Option<string>,
    disp: string,
    fields: nat,
    base: Option<string>,
    index: Option<string>,
    scale: nat)

  /** Splits off a segment register and its colon. */
  function ReadAttSegment(s: string): (Option<string>, string) {
    var colon := Until(s, ':');
    if s != "" && s[0] == '%' && colon < |s| && IsAttField(s[..colon]) then (ReadAttField(s[..colon]), s[colon + 1..])
    else (None, s)
  }

  /** A base, an index behind it, and a scale behind that. */
  predicate AreAttFields(fields: seq<string>) {
    && 1 <= |fields| <= 3 && IsAttField(fields[0])
    && (|fields| > 1 ==> IsAttField(fields[1]))
    && (|fields| > 2 ==> fields[2] != "" && AllDigits(fields[2], false))
  }

  function ReadAttFields(disp: string, fields: seq<string>): Option<AttParts> {
    if AreAttFields(fields) then
      Some(AttParts(false, None, disp, |fields|,
        ReadAttField(fields[0]),
        if |fields| > 1 then ReadAttField(fields[1]) else None,
        if |fields| > 2 then ReadNat(fields[2], false) else 1))
    else None
  }

  /** The displacement, and the fields in parentheses if there are any. */
  function ReadAttTail(s: string): Option<AttParts> {
    var paren := Until(s, '(');
    if paren == |s| then Some(AttParts(false, None, s, 0, None, None, 1))
    else if paren + 2 <= |s| && s[|s| - 1] == ')' then
      ReadAttFields(s[..paren], SplitCommas(s[paren + 1..|s| - 1]))
    else None
  }

  function ReadAttIndirect(s: string): Option<AttParts> {
    var branch := s != "" && s[0] == '*';
    var (segment, t) := ReadAttSegment(if branch then s[1..] else s);
    var parts := ReadAttTail(t);
    if parts.Some? then Some(parts.value.(branch := branch, segment := segment)) else None
  }

  /** Reads a displacement; none is zero. */
  function ReadAttDisplacement(s: string): Option<int> {
    if s == "" then Some(0) else ReadNumber(s)
  }

  // ---- Intel ----

  function SizeName(bits: nat): Option<string> {
    match bits
    case 256 => Some("YMMWORD")
    case 128 => Some("XMMWORD")
    case 80 => Some("TBYTE")
    case 64 => Some("QWORD")
    case 32 => Some("DWORD")
    case 16 => Some("WORD")
    case 8 => Some("BYTE")
    case _ => None
  }

  function IntelPrefix(op: MemOperand, bits: nat): string {
    (if SizeName(bits).Some? then SizeName(bits).value + " PTR " else "") +
    (if op.segment.Some? then ToUpper(op.segment.value) + ":" else "")
  }

  function IntelIndex(op: MemOperand): string {
    if op.index == None then ""
    else (if op.base.Some? then "+" else "") + (ToUpper(op.index.value) + ("*" + FormatInt(PLAIN, op.scale)))
  }

  function IntelDisplacement(op: MemOperand, symbolic: Option<string>): string {
    if symbolic.Some? then "+" + symbolic.value
    else Addend(op.disp, op.base == None && op.index == None)
  }

  function IntelAddress(op: MemOperand, symbolic: Option<string>): string {
    (if op.base.Some? then ToUpper(op.base.value) else "") +
    (IntelIndex(op) + IntelDisplacement(op, symbolic))
  }

  function IntelIndirect(op: MemOperand, symbolic: Option<string>, bits: nat): string {
    IntelPrefix(op, bits) + ("[" + (IntelAddress(op, symbolic) + "]"))
  }

  /** Reads "NAME*number"; what follows the number is left. */
  function ReadIntelIndex(s: string): Option<(string, nat, string)> {
    var k := NameLength(s);
    if k > 0 && IsUpper(s[0]) && k < |s| && s[k] == '*' then
      var t := s[k + 1..];
      var d := NameLength(t);
      if d > 0 && AllDigits(t[..d], false) then Some((ToLower(s[..k]), ReadNat(t[..d], false), t[d..])) else None
    else None
  }

  /** Reads what is added to something before it. */
  function ReadSigned(s: string): Option<int> {
    if s == "" then Some(0)
    else if s[0] == '+' then ReadNumber(s[1..])
    else if s[0] == '-' then ReadNumber(s)
    else None
  }

  /** What stands between the brackets: base, index, scale and displacement. */
  type IntelSum = (Option<string>, Option<string>, nat, int)

  function WithDisplacement(base: Option<string>, index: Option<string>, scale: nat, disp: Option<int>)
    : Option<IntelSum>
  {
    if disp.Some? then Some((base, index, scale, disp.value)) else None
  }

  /** Reads what follows the base. */
  function ReadIntelTail(base: string, t: string): Option<IntelSum> {
    match if t != "" && t[0] == '+' then ReadIntelIndex(t[1..]) else None
    case Some((index, scale, rest)) => WithDisplacement(Some(base), Some(index), scale, ReadSigned(rest))
    case None => WithDisplacement(Some(base), None, 1, ReadSigned(t))
  }

  function ReadIntelAddress(s: string): Option<IntelSum> {
    match ReadIntelIndex(s)
    case Some((index, scale, rest)) => WithDisplacement(None, Some(index), scale, ReadSigned(rest))
    case None =>
      var n := NameLength(s);
      if n == 0 || !IsUpper(s[0]) then WithDisplacement(None, None, 1, ReadNumber(s))
      else ReadIntelTail(ToLower(s[..n]), s[n..])
  }

  function BitsOf(name: string): Option<nat> {
    if name == "YMMWORD" then Some(256) else if name == "XMMWORD" then Some(128)
    else if name == "TBYTE" then Some(80) else if name == "QWORD" then Some(64)
    else if name == "DWORD" then Some(32) else if name == "WORD" then Some(16)
    else if name == "BYTE" then Some(8) else None
  }

  /** Reads a segment register and its colon, or nothing. */
  function ReadIntelSegment(s: string): Option<Option<string>> {
    if s == "" then Some(None)
    else if s[|s| - 1] == ':' then Some(Some(ToLower(s[..|s| - 1])))
    else None
  }

  /** Reads the size and the segment before the bracket. */
  function ReadIntelPrefix(prefix: string): Option<(Option<nat>, Option<string>)> {
    var blank := Until(prefix, ' ');
    if blank == |prefix| then
      var segment := ReadIntelSegment(prefix);
      if segment.Some? then Some((None, segment.value)) else None
    else if blank + 5 <= |prefix| && prefix[blank..blank + 5] == " PTR " then
      var size, segment := BitsOf(prefix[..blank]), ReadIntelSegment(prefix[blank + 5..]);
      if size.Some? && segment.Some? then Some((size, segment.value)) else None
    else None
  }

  /** The size, and the operand with this text before the brackets and this text between them. */
  function ReadIntelParts(prefix: string, address: string): Option<(Option<nat>, MemOperand)> {
    var far, sum := ReadIntelPrefix(prefix), ReadIntelAddress(address);
    if far.Some? && sum.Some? then
      Some((far.value.0, MemOperand(far.value.1, sum.value.0, sum.value.1, sum.value.2, sum.value.3)))
    else None
  }

  /** Reads the size in bits, if it is given, and the operand. */
  function ReadIntelIndirect(s: string): Option<(Option<nat>, MemOperand)> {
    var bracket := Until(s, '[');
    if bracket + 2 <= |s| && s[|s| - 1] == ']' then ReadIntelParts(s[..bracket], s[bracket + 1..|s| - 1]) else None
  }

  // ---- AArch64 ----

  datatype ShiftKind = Lsl | Msl | Lsr | Asr | Ror

  datatype Shift = Shift(kind: ShiftKind, amount: nat)

  datatype A64Operand = A64Operand(
    base: Option<string>,
    index: Option<string>,
    disp: int,
    shift: Option<Shift>,
    writeback: bool)

  predicate ValidA64(op: A64Operand) {
    ValidRegister(op.base) && ValidRegister(op.index) && IsInt64(op.disp)
  }

  predicate HasShift(op: A64Operand) {
    op.shift.Some? && op.shift.value.amount != 0
  }

  /** A shift by nothing means nothing. */
  function NormalA64(op: A64Operand): A64Operand {
    if op.shift.Some? && op.shift.value.amount == 0 then op.(shift := None) else op
  }

  function ShiftName(kind: ShiftKind): string {
    match kind
    case Lsl => "lsl"
    case Msl => "msl"
    case Lsr => "lsr"
    case Asr => "asr"
    case Ror => "ror"
  }

  function ShiftText(shift: Shift): string {
    ShiftName(shift.kind) + (" #" + FormatInt(PLAIN, shift.amount))
  }

  function A64Displacement(op: A64Operand, symbolic: Option<string>): string {
    if symbolic.Some? then symbolic.value else "#" + FormatInt(PLAIN, op.disp)
  }

  /** Base, displacement and index, as far as they are there. */
  function A64Places(op: A64Operand, symbolic: Option<string>): seq<string> {
    (if op.base.Some? then [op.base.value] else []) +
    (if op.disp != 0 then [A64Displacement(op, symbolic)] else []) +
    (if op.index.Some? then [op.index.value] else [])
  }

  /** A shift is always after a comma, even when nothing precedes it. */
  function A64Fields(op: A64Operand, symbolic: Option<string>): seq<string> {
    var places := A64Places(op, symbolic);
    if !HasShift(op) then places
    else (if places == [] then [""] else places) + [ShiftText(op.shift.value)]
  }

  function A64Indirect(op: A64Operand, symbolic: Option<string>): string {
    "[" + (Join(A64Fields(op, symbolic)) + ("]" + (if op.writeback then "!" else "")))
  }

  function ReadShiftKind(s: string): Option<ShiftKind> {
    if s == "lsl" then Some(Lsl) else if s == "msl" then Some(Msl) else if s == "lsr" then Some(Lsr)
    else if s == "asr" then Some(Asr) else if s == "ror" then Some(Ror) else None
  }

  /** Reads the name of a shift, a blank and a hash, and the amount. */
  function ReadShift(s: string): Option<Shift> {
    var blank := Until(s, ' ');
    if blank + 2 < |s| && s[blank..blank + 2] == " #" && AllDigits(s[blank + 2..], false) then
      var kind := ReadShiftKind(s[..blank]);
      if kind.Some? then Some(Shift(kind.value, ReadNat(s[blank + 2..], false))) else None
    else None
  }

  /** Reads one more field; a register in first place is the base. */
  function ReadA64Field(f: string, first: bool, op: A64Operand): Option<A64Operand> {
    if f == "" then if first then Some(op) else None
    else if f[0] == '#' then
      var n := ReadNumber(f[1..]);
      if n.Some? then Some(op.(disp := n.value)) else None
    else if IsRegister(f) then Some(if first then op.(base := Some(f)) else op.(index := Some(f)))
    else
      var shift := ReadShift(f);
      if shift.Some? then Some(op.(shift := shift)) else None
  }

  /** Reads the fields in turn. */
  function ReadA64Fields(fields: seq<string>, first: bool, op: A64Operand): Option<A64Operand>
    decreases |fields|
  {
    if fields == [] then Some(op)
    else
      var next := ReadA64Field(fields[0], first, op);
      if next.Some? then ReadA64Fields(fields[1..], false, next.value) else None
  }

  function ReadA64Indirect(s: string): Option<A64Operand> {
    var end := Until(s, ']');
    if end < |s| && s[0] == '[' && s[end + 1..] in {"", "!"} then
      ReadA64Fields(SplitCommas(s[1..end]), true, A64Operand(None, None, 0, None, s[end + 1..] == "!"))
    else None
  }

  // ---- immediates ----

  /** AT&T immediates: branch targets in hexadecimal, everything else in decimal after a dollar. */
  function AttImmediate(n: int, symbolic: Option<string>, branch: bool): string {
    (if branch then "" else "$") +
    (if symbolic.Some? then symbolic.value
     else if branch then FormatInt(Flags(true, true), n)
     else FormatInt(PLAIN, n))
  }

  /** A constant, or the number of the address that is read or branched to. */
  datatype AttValue = Constant(n: int) | Location(n: int)

  /** A constant has a dollar in front. */
  function ReadAttImmediate(s: string): Option<AttValue> {
    var constant := s != "" && s[0] == '$';
    var n := ReadNumber(if constant then s[1..] else s);
    if n.None? then None else Some(if constant then Constant(n.value) else Location(n.value))
  }

  function IntelImmediate(n: int, symbolic: Option<string>, branch: bool): string {
    if symbolic.Some? then (if branch then "" else "OFFSET ") + symbolic.value
    else FormatInt(PLAIN, n)
  }

  function A64Immediate(n: int, shift: Option<Shift>, symbolic: Option<string>, branch: bool): string {
    var shifted := if shift.Some? && shift.value.amount != 0 then "," + ShiftText(shift.value) else "";
    if symbolic.None? then "#" + (FormatInt(PLAIN, n) + shifted)
    else if branch then symbolic.value
    else " " + symbolic.value
  }

  /** The shift is in the second field, if there is one. */
  function ReadA64ShiftField(fields: seq<string>): Option<Option<Shift>> {
    if |fields| == 1 then Some(None)
    else if |fields| == 2 && ReadShift(fields[1]).Some? then Some(ReadShift(fields[1]))
    else None
  }

  /** Reads a hash and a number, and a shift behind a comma. */
  function ReadA64Immediate(s: string): Option<(int, Option<Shift>)> {
    var fields := SplitCommas(s);
    if |fields| > 0 && fields[0] != "" && fields[0][0] == '#' then
      var n, shift := ReadNumber(fields[0][1..]), ReadA64ShiftField(fields);
      if n.Some? && shift.Some? then Some((n.value, shift.value)) else None
    else None
  }
}
