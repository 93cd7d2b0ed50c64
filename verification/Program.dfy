/** The module to print, as the printer sees it, and the queries the printer makes. */
module Program {
  import opened Common
  import opened Numerals

  datatype Symbol = Symbol(id: Identifier, name: string, address: Option<nat>)

  datatype SectionRange = SectionRange(name: string, address: nat, size: nat) {
    predicate Contains(a: nat) {
      address <= a < address + size
    }
  }

  datatype InsnKind = NopInsn | Endbr64Insn | OtherInsn

  /** A symbol, and a distance from it. */
  datatype Target = Target(symbol: Symbol, addend: int)

  /** The text of an operand, around its symbolic value if it has one. */
  datatype Operand = Operand(before: string, target: Option<Target>, after: string)

  datatype Insn = Insn(size: nat, kind: InsnKind, mnemonic: string, operands: seq<Operand>)

  /** The owner is the module to which the block belongs. */
  datatype CodeBlock = CodeBlock(id: Identifier, owner: Identifier, address: nat, size: nat, insns: seq<Insn>)

  datatype DataBlock = DataBlock(id: Identifier, address: nat, bytes: seq<Byte>)

  /** A position relative to a block. */
  datatype Offset = Offset(element: Identifier, displacement: nat)

  datatype CfiDirective = CfiDirective(name: string, operands: seq<int>, symbol: Option<Symbol>)

  /**
   Symbols in the order in which they are found, function entries in ascending order, comments in
   the order of their offsets, and for each forwarded symbol the text that stands for it.
   */
  datatype Module = Module(
    id: Identifier,
    symbols: seq<Symbol>,
    sections: seq<SectionRange>,
    symexprs: map<nat, SymExpr>,
    entries: seq<nat>,
    comments: seq<(Offset, string)>,
    cfi: Option<map<Offset, seq<CfiDirective>>>,
    encodings: map<Identifier, string>,
    forwarding: map<Identifier, string>)

  datatype Policy = Policy(
    skipSections: set<string>,
    skipFunctions: set<string>,
    arraySections: set<string>,
    debug: bool)

  /** A module together with the policy under which it is printed. */
  datatype Job = Job(m: Module, policy: Policy)

  // ---- symbols ----

  function SymbolsAt(symbols: seq<Symbol>, a: nat): seq<Symbol> {
    if symbols == [] then []
    else (if symbols[0].address == Some(a) then [symbols[0]] else []) + SymbolsAt(symbols[1..], a)
  }

  lemma {:induction false} SymbolsAtAddress(symbols: seq<Symbol>, a: nat, s: Symbol)
    ensures s in SymbolsAt(symbols, a) <==> s in symbols && s.address == Some(a)
  {
    if symbols != [] {
      SymbolsAtAddress(symbols[1..], a, s);
      assert s in symbols <==> s == symbols[0] || s in symbols[1..];
    }
  }

  function NameCount(symbols: seq<Symbol>, name: string): nat {
    if symbols == [] then 0
    else (if symbols[0].name == name then 1 else 0) + NameCount(symbols[1..], name)
  }

  /** Several symbols have this name. */
  predicate IsAmbiguous(m: Module, name: string) {
    NameCount(m.symbols, name) > 1
  }

  lemma {:induction false} NameCountAtLeast(symbols: seq<Symbol>, k: nat)
    requires k < |symbols|
    ensures NameCount(symbols, symbols[k].name) >= 1
  {
    if k > 0 {
      NameCountAtLeast(symbols[1..], k - 1);
    }
  }

  lemma {:induction false} NameCountTwice(symbols: seq<Symbol>, k: nat, l: nat)
    requires k < l < |symbols| && symbols[k].name == symbols[l].name
    ensures NameCount(symbols, symbols[k].name) >= 2
  {
    if k == 0 {
      NameCountAtLeast(symbols[1..], l - 1);
    } else {
      NameCountTwice(symbols[1..], k - 1, l - 1);
    }
  }

  /** A name that is not ambiguous belongs to one symbol. */
  lemma UnambiguousName(m: Module, s: Symbol, t: Symbol)
    requires s in m.symbols && t in m.symbols && s.name == t.name && !IsAmbiguous(m, s.name)
    ensures s == t
  {
    var k :| 0 <= k < |m.symbols| && m.symbols[k] == s;
    var l :| 0 <= l < |m.symbols| && m.symbols[l] == t;
    if k < l {
      NameCountTwice(m.symbols, k, l);
    } else if l < k {
      NameCountTwice(m.symbols, l, k);
    }
  }

  // ---- sections ----

  function FirstContaining(sections: seq<SectionRange>, a: nat): Option<SectionRange> {
    if sections == [] then None
    else if sections[0].Contains(a) then Some(sections[0])
    else FirstContaining(sections[1..], a)
  }

  lemma {:induction false} FirstContainingFinds(sections: seq<SectionRange>, a: nat)
    ensures match FirstContaining(sections, a)
      case Some(s) => s in sections && s.Contains(a)
      case None => forall s :: s in sections ==> !s.Contains(a)
  {
    if sections != [] {
      FirstContainingFinds(sections[1..], a);
    }
  }

  function FirstAt(sections: seq<SectionRange>, a: nat): Option<SectionRange> {
    if sections == [] then None
    else if sections[0].address == a then Some(sections[0])
    else FirstAt(sections[1..], a)
  }

  lemma {:induction false} FirstAtFinds(sections: seq<SectionRange>, a: nat)
    ensures match FirstAt(sections, a)
      case Some(s) => s in sections && s.address == a
      case None => forall s :: s in sections ==> s.address != a
  {
    if sections != [] {
      FirstAtFinds(sections[1..], a);
    }
  }

  function ContainerSection(m: Module, a: nat): Option<SectionRange> {
    FirstContaining(m.sections, a)
  }

  // ---- functions ----

  predicate Ascending(entries: seq<nat>) {
    forall k, l :: 0 <= k < l < |entries| ==> entries[k] < entries[l]
  }

  /** The number of entries up to the first one above x. */
  function UpperBound(entries: seq<nat>, x: nat): nat {
    if entries == [] || x < entries[0] then 0 else 1 + UpperBound(entries[1..], x)
  }

  lemma {:induction false} UpperBoundSplits(entries: seq<nat>, x: nat)
    ensures UpperBound(entries, x) <= |entries|
    ensures forall k :: 0 <= k < UpperBound(entries, x) ==> entries[k] <= x
    ensures UpperBound(entries, x) < |entries| ==> x < entries[UpperBound(entries, x)]
  {
    if entries != [] && x >= entries[0] {
      UpperBoundSplits(entries[1..], x);
    }
  }

  /** The entry before the first one above x. */
  function FloorEntry(entries: seq<nat>, x: nat): Option<nat> {
    var n := UpperBound(entries, x);
    if n == 0 || n > |entries| then None else Some(entries[n - 1])
  }

  /** The lookup finds the greatest entry not above x. */
  lemma FloorIsGreatest(entries: seq<nat>, x: nat)
    requires Ascending(entries)
    ensures match FloorEntry(entries, x)
      case None => forall e :: e in entries ==> x < e
      case Some(f) => f in entries && f <= x && forall e :: e in entries && e <= x ==> e <= f
  {
    var n := UpperBound(entries, x);
    UpperBoundSplits(entries, x);
    forall e | e in entries && e <= x
      ensures n > 0 && e <= entries[n - 1]
    {
      var k :| 0 <= k < |entries| && entries[k] == e;
      if n <= k {
        assert false;
      }
    }
  }

  // ---- names ----

  /** Names that an assembler would take for registers or operators. */
  const RESERVED: seq<string> :=
    ["FS", "MOD", "DIV", "NOT", "mod", "div", "not", "and", "or", "shr", "Si"]

  function FormatSymbolName(name: string): string {
    if name in RESERVED then name + "_renamed" else name
  }

  /** The name of an address. */
  function AddressName(a: nat): string {
    ".L" + "_" + ShowNat(a, true)
  }

  function FunctionName(m: Module, x: nat): string {
    if x !in m.entries then ""
    else
      var symbols := SymbolsAt(m.symbols, x);
      if symbols == [] then "unknown_function" + "_" + ShowNat(x, true)
      else if IsAmbiguous(m, symbols[0].name) then symbols[0].name + "_" + ShowNat(x, true)
      else symbols[0].name
  }

  function ContainerFunctionName(m: Module, x: nat): Option<string> {
    match FloorEntry(m.entries, x)
    case None => None
    case Some(entry) => Some(FunctionName(m, entry))
  }

  // ---- what is not printed ----

  predicate InSkippedSection(j: Job, a: nat) {
    !j.policy.debug &&
    var section := ContainerSection(j.m, a);
    section.Some? && section.value.name in j.policy.skipSections
  }

  predicate InSkippedFunction(j: Job, a: nat) {
    var name := ContainerFunctionName(j.m, a);
    name.Some? && name.value in j.policy.skipFunctions
  }

  predicate SkipEA(j: Job, a: nat) {
    !j.policy.debug && (InSkippedSection(j, a) || InSkippedFunction(j, a))
  }

  function SymbolById(symbols: seq<Symbol>, id: Identifier): Option<Symbol> {
    if symbols == [] then None
    else if symbols[0].id == id then Some(symbols[0])
    else SymbolById(symbols[1..], id)
  }

  /** An entry of an array section that refers to something skipped is left out. */
  predicate ShouldExclude(j: Job, section: Option<SectionRange>, a: nat) {
    section.Some? && section.value.name in j.policy.arraySections &&
    a in j.m.symexprs && j.m.symexprs[a].SymAddrConst? &&
    var symbol := SymbolById(j.m.symbols, j.m.symexprs[a].symbol);
    symbol.Some? && symbol.value.address.Some? && SkipEA(j, symbol.value.address.value)
  }

  // ---- references ----

  /** The label of a symbol at address a. */
  function LabelName(m: Module, s: Symbol, a: nat): string {
    if IsAmbiguous(m, s.name) then AddressName(a) else FormatSymbolName(s.name)
  }

  /** How a reference is written; undefined for an ambiguous symbol without an address. */
  datatype Rendering = Forwarded(text: string) | RawNumber(address: nat) | Named(name: string) | Undefined

  function Reference(j: Job, s: Symbol): Rendering {
    if s.id in j.m.forwarding then Forwarded(j.m.forwarding[s.id])
    else if s.address.Some? && SkipEA(j, s.address.value) then RawNumber(s.address.value)
    else if !IsAmbiguous(j.m, s.name) then Named(FormatSymbolName(s.name))
    else if s.address.Some? then Named(AddressName(s.address.value))
    else Undefined
  }

  function RenderingText(r: Rendering): string {
    match r
    case Forwarded(text) => text
    case RawNumber(a) => FormatInt(PLAIN, a)
    case Named(name) => name
    case Undefined => ""
  }

  // ---- orders ----

  predicate OffsetLess(a: Offset, b: Offset) {
    a.element < b.element || (a.element == b.element && a.displacement < b.displacement)
  }

  /** Comments are kept in the order of their offsets, one for each offset. */
  predicate CommentsSorted(comments: seq<(Offset, string)>) {
    forall k, l :: 0 <= k < l < |comments| ==> OffsetLess(comments[k].0, comments[l].0)
  }

  predicate SortedByAddress(blocks: seq<CodeBlock>) {
    forall k, l :: 0 <= k < l < |blocks| ==> blocks[k].address <= blocks[l].address
  }

  /** Exactly the blocks of the owner are left, as often as before. */
  ghost predicate OwnedBy(owner: Identifier, nodes: seq<CodeBlock>, blocks: seq<CodeBlock>) {
    forall b :: multiset(blocks)[b] == if b.owner == owner then multiset(nodes)[b] else 0
  }
}
