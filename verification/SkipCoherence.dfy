/** Skipping is coherent: the decision is the same for all addresses of a block. */
module SkipCoherence {
  import opened Common
  import opened Program
  import opened Events
  import opened Greedy
  import opened Labels
  import opened References
  import opened Bracketing
  import opened SymbolNames

  /** Without an entry in between, two addresses have the same greatest entry below them. */
  lemma SameFloor(entries: seq<nat>, a: nat, x: nat)
    requires Ascending(entries) && a <= x
    requires forall e :: e in entries ==> !(a < e <= x)
    ensures FloorEntry(entries, x) == FloorEntry(entries, a)
  {
    FloorIsGreatest(entries, a);
    FloorIsGreatest(entries, x);
  }

  predicate IsFloor(entries: seq<nat>, x: nat, f: nat) {
    f in entries && f <= x && forall e :: e in entries && e <= x ==> e <= f
  }

  /** The function around x is the one at the greatest entry not above x. */
  lemma ContainerFunction(m: Module, x: nat)
    requires Ascending(m.entries)
    ensures ContainerFunctionName(m, x).None? <==> forall e :: e in m.entries ==> x < e
    ensures ContainerFunctionName(m, x).Some? ==>
      exists f :: IsFloor(m.entries, x, f) && ContainerFunctionName(m, x).value == FunctionName(m, f)
  {
    FloorIsGreatest(m.entries, x);
  }

  // ---- what is suppressed ----

  /** The section around x is the first one in the list that contains it. */
  predicate FirstAround(sections: seq<SectionRange>, x: nat, k: nat) {
    k < |sections| && sections[k].Contains(x) && forall l :: 0 <= l < k ==> !sections[l].Contains(x)
  }

  lemma {:induction false} AroundExactly(sections: seq<SectionRange>, x: nat, s: SectionRange)
    ensures FirstContaining(sections, x) == Some(s) <==>
      exists k: nat :: FirstAround(sections, x, k) && sections[k] == s
  {
    if sections != [] {
      if sections[0].Contains(x) {
        assert FirstAround(sections, x, 0);
      } else {
        AroundExactly(sections[1..], x, s);
        if k: nat :| FirstAround(sections[1..], x, k) && sections[1..][k] == s {
          AroundLater(sections, x, k);
        }
        if k: nat :| FirstAround(sections, x, k) && sections[k] == s {
          AroundEarlier(sections, x, k);
        }
      }
    }
  }

  lemma AroundLater(sections: seq<SectionRange>, x: nat, k: nat)
    requires sections != [] && !sections[0].Contains(x) && FirstAround(sections[1..], x, k)
    ensures FirstAround(sections, x, k + 1) && sections[k + 1] == sections[1..][k]
  {
    assert forall l :: 0 < l < k + 1 ==> sections[l] == sections[1..][l - 1];
  }

  lemma AroundEarlier(sections: seq<SectionRange>, x: nat, k: nat)
    requires sections != [] && !sections[0].Contains(x) && FirstAround(sections, x, k)
    ensures k > 0 && FirstAround(sections[1..], x, k - 1) && sections[k] == sections[1..][k - 1]
  {
  }

  /** The section around x is one of those that are left out. */
  ghost predicate SectionLeftOut(j: Job, x: nat) {
    exists k: nat :: FirstAround(j.m.sections, x, k) && j.m.sections[k].name in j.policy.skipSections
  }

  /** The function that begins at the greatest entry not above x is one of those that are left out. */
  ghost predicate FunctionLeftOut(j: Job, x: nat) {
    exists f, name :: IsFloor(j.m.entries, x, f) && IsFunctionName(j.m, f, name) && name in j.policy.skipFunctions
  }

  ghost predicate Suppressed(j: Job, x: nat) {
    !j.policy.debug && (SectionLeftOut(j, x) || FunctionLeftOut(j, x))
  }

  lemma SectionLeftOutExactly(j: Job, x: nat)
    requires !j.policy.debug
    ensures InSkippedSection(j, x) <==> SectionLeftOut(j, x)
  {
    if InSkippedSection(j, x) {
      AroundExactly(j.m.sections, x, ContainerSection(j.m, x).value);
    }
    if k: nat :| FirstAround(j.m.sections, x, k) && j.m.sections[k].name in j.policy.skipSections {
      AroundExactly(j.m.sections, x, j.m.sections[k]);
    }
  }

  lemma FunctionLeftOutExactly(j: Job, x: nat)
    requires Ascending(j.m.entries)
    ensures InSkippedFunction(j, x) <==> FunctionLeftOut(j, x)
  {
    FloorIsGreatest(j.m.entries, x);
    match FloorEntry(j.m.entries, x)
    case None =>
    case Some(f) =>
      assert IsFloor(j.m.entries, x, f);
      FunctionNameExactly(j.m, f, FunctionName(j.m, f));
      if g, name :| IsFloor(j.m.entries, x, g) && IsFunctionName(j.m, g, name) && name in j.policy.skipFunctions {
        FunctionNameExactly(j.m, f, name);
      }
  }

  lemma SuppressedExactly(j: Job, x: nat)
    requires Ascending(j.m.entries)
    ensures SkipEA(j, x) <==> Suppressed(j, x)
  {
    if !j.policy.debug {
      SectionLeftOutExactly(j, x);
      FunctionLeftOutExactly(j, x);
    }
  }

  /**
   Nothing is printed for an item if and only if debug output is off and its start is in a section or in
   a function that is left out.
   */
  lemma SuppressedItems(j: Job, item: Item)
    requires Ascending(j.m.entries)
    ensures ItemEvents(j, item) == [] <==> Suppressed(j, item.Start())
  {
    SuppressedExactly(j, item.Start());
    PrintedUnlessSkipped(j, item);
  }

  /** No function begins inside the item other than at its start, and the item is in one section. */
  predicate OneFunction(m: Module, item: Item) {
    forall e :: e in m.entries ==> !(item.Start() < e < End(item))
  }

  lemma SkipIsCoherent(j: Job, item: Item, s: SectionRange, x: nat)
    requires Ascending(j.m.entries) && SectionsApart(j.m.sections)
    requires OneFunction(j.m, item) && s in j.m.sections && Contained(item, s)
    requires item.Start() <= x < End(item)
    ensures SkipEA(j, x) == SkipEA(j, item.Start())
  {
    SameFloor(j.m.entries, item.Start(), x);
    SectionAt(j.m.sections, s, x);
    SectionAt(j.m.sections, s, item.Start());
  }

  lemma PrintedUnlessSkipped(j: Job, item: Item)
    ensures ItemEvents(j, item) == [] <==> SkipEA(j, item.Start())
  {
    if !SkipEA(j, item.Start()) {
      match item
      case Code(b) =>
        assert BlockHeaderEvents(j.m, b.address)[|FunctionHeaderEvents(j.m, b.address)|] == BlankLine;
        assert |BlockEvents(j, b)| > 0;
      case Data(d) =>
        assert LabelGroup(j.m, d.address) in [LabelGroup(j.m, d.address)];
        assert |DataEvents(j, d)| > 0;
    }
  }

  /**
   A symbol inside an item is referred to as a raw number exactly when the item is suppressed, so
   that its label is not defined.
   */
  lemma RawExactlyWhenSuppressed(j: Job, item: Item, s: SectionRange, symbol: Symbol, x: nat)
    requires Ascending(j.m.entries) && SectionsApart(j.m.sections)
    requires OneFunction(j.m, item) && s in j.m.sections && Contained(item, s)
    requires symbol.address == Some(x) && item.Start() <= x < End(item) && symbol.id !in j.m.forwarding
    ensures Reference(j, symbol).RawNumber? <==> ItemEvents(j, item) == []
  {
    SkipIsCoherent(j, item, s, x);
    PrintedUnlessSkipped(j, item);
  }

  /** The entry at d refers to a symbol at address x. */
  predicate EntryTo(m: Module, d: DataBlock, x: nat) {
    d.address in m.symexprs && m.symexprs[d.address].SymAddrConst? &&
    var symbol := SymbolById(m.symbols, m.symexprs[d.address].symbol);
    symbol.Some? && symbol.value.address == Some(x)
  }

  /**
   An entry of an array section is left out exactly when the item its symbol points into is
   suppressed, whether or not the symbol is forwarded; outside array sections every entry is printed.
   */
  lemma EntryIsKept(j: Job, d: DataBlock, section: SectionRange, item: Item, s: SectionRange, x: nat)
    requires Ascending(j.m.entries) && SectionsApart(j.m.sections)
    requires OneFunction(j.m, item) && s in j.m.sections && Contained(item, s)
    requires item.Start() <= x < End(item)
    requires EntryTo(j.m, d, x) && ContainerSection(j.m, d.address) == Some(section) && !SkipEA(j, d.address)
    ensures SymbolicDataEvent(j, d, j.m.symexprs[d.address]) in DataEvents(j, d) <==>
      !(section.name in j.policy.arraySections && ItemEvents(j, item) == [])
  {
    SkipIsCoherent(j, item, s, x);
    PrintedUnlessSkipped(j, item);
    ContentOfEntry(j, d);
  }

  lemma ContentOfEntry(j: Job, d: DataBlock)
    requires d.address in j.m.symexprs && !SkipEA(j, d.address)
    ensures SymbolicDataEvent(j, d, j.m.symexprs[d.address]) in DataEvents(j, d) <==>
      !ShouldExclude(j, ContainerSection(j.m, d.address), d.address)
  {
    ContentUnlessExcluded(j, d, SymbolicDataEvent(j, d, j.m.symexprs[d.address]));
  }

  lemma ContentUnlessExcluded(j: Job, d: DataBlock, e: Event)
    requires e in ContentEvents(j, d) && !SkipEA(j, d.address)
    ensures e in DataEvents(j, d) <==> !ShouldExclude(j, ContainerSection(j.m, d.address), d.address)
  {
    var excluded := ShouldExclude(j, ContainerSection(j.m, d.address), d.address);
    var content := if excluded then [] else ContentEvents(j, d);
    var comments, note := CommentEvents(j, d.id, 0, |d.bytes|), DataNoteEvents(j, d.address);
    BytesArePlain(d.bytes);
    CommentEventsArePlain(j, d.id, 0, |d.bytes|);
    assert e !in comments && e !in note && (e in content <==> !excluded);
    InFour(comments, [LabelGroup(j.m, d.address)], note, content, e);
  }

  /** The address is in an array section. */
  ghost predicate InArraySection(j: Job, x: nat) {
    exists k: nat :: FirstAround(j.m.sections, x, k) && j.m.sections[k].name in j.policy.arraySections
  }

  /** The expression is a distance from a symbol whose address is suppressed. */
  ghost predicate RefersToSuppressed(j: Job, expr: SymExpr) {
    expr.SymAddrConst? &&
    exists k: nat :: FirstWithId(j.m.symbols, expr.symbol, k) && j.m.symbols[k].address.Some? &&
      Suppressed(j, j.m.symbols[k].address.value)
  }

  /** The block is an entry of an array section that refers to something suppressed. */
  ghost predicate Omitted(j: Job, d: DataBlock) {
    && InArraySection(j, d.address) && d.address in j.m.symexprs && RefersToSuppressed(j, j.m.symexprs[d.address])
  }

  lemma InArrayExactly(j: Job, x: nat)
    ensures InArraySection(j, x) <==>
      ContainerSection(j.m, x).Some? && ContainerSection(j.m, x).value.name in j.policy.arraySections
  {
    if ContainerSection(j.m, x).Some? {
      AroundExactly(j.m.sections, x, ContainerSection(j.m, x).value);
    }
    if k: nat :| FirstAround(j.m.sections, x, k) && j.m.sections[k].name in j.policy.arraySections {
      AroundExactly(j.m.sections, x, j.m.sections[k]);
    }
  }

  lemma RefersExactly(j: Job, expr: SymExpr, id: Identifier)
    requires Ascending(j.m.entries) && expr.SymAddrConst? && expr.symbol == id
    ensures RefersToSuppressed(j, expr) <==>
      var s := SymbolById(j.m.symbols, id); s.Some? && s.value.address.Some? && SkipEA(j, s.value.address.value)
  {
    FoundById(j.m.symbols, id);
    if SymbolById(j.m.symbols, id).Some? && SymbolById(j.m.symbols, id).value.address.Some? {
      SuppressedExactly(j, SymbolById(j.m.symbols, id).value.address.value);
    }
    if k: nat :| FirstWithId(j.m.symbols, id, k) && j.m.symbols[k].address.Some? {
      SuppressedExactly(j, j.m.symbols[k].address.value);
    }
  }

  lemma OmittedExactly(j: Job, d: DataBlock)
    requires Ascending(j.m.entries)
    ensures ShouldExclude(j, ContainerSection(j.m, d.address), d.address) <==> Omitted(j, d)
  {
    InArrayExactly(j, d.address);
    if d.address in j.m.symexprs && j.m.symexprs[d.address].SymAddrConst? {
      RefersExactly(j, j.m.symexprs[d.address], j.m.symexprs[d.address].symbol);
    }
  }

  /**
   The content of a data block is printed if and only if its address is not suppressed, and it is not an
   entry of an array section that refers to something suppressed.
   */
  lemma ContentIsPrinted(j: Job, d: DataBlock, e: Event)
    requires Ascending(j.m.entries) && e in ContentEvents(j, d)
    ensures e in DataEvents(j, d) <==> !Suppressed(j, d.address) && !Omitted(j, d)
  {
    SuppressedExactly(j, d.address);
    OmittedExactly(j, d);
    if !SkipEA(j, d.address) {
      ContentUnlessExcluded(j, d, e);
    }
  }
}
