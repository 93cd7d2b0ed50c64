/** Where an assembler puts each item of a run: at its original distance from the start of its section. */
module Placement {
  import opened Common
  import opened Folds
  import opened Program
  import opened Events
  import opened Greedy
  import opened Labels
  import opened Notes
  import opened Lines
  import opened SymbolTable
  import opened Names
  import opened References
  import opened Bracketing
  import opened DataImage
  import opened LocationCounter

  predicate DistinctNames(sections: seq<SectionRange>) {
    forall k, l :: 0 <= k < l < |sections| ==> sections[k].name != sections[l].name
  }

  lemma NameTellsSection(sections: seq<SectionRange>, s: SectionRange, t: SectionRange)
    requires DistinctNames(sections) && s in sections && t in sections && s.name == t.name
    ensures s == t
  {
    var k :| 0 <= k < |sections| && sections[k] == s;
    var l :| 0 <= l < |sections| && sections[l] == t;
    assert !(k < l) && !(l < k);
  }

  /** The no-ops at the beginning of the output are in the text section. */
  function Preamble(dialect: Dialect, name: string): nat {
    if dialect != AttSyntax && name == ".text" then 8 else 0
  }

  /** How far the contents of a section are from its beginning in the assembled file. */
  function Origin(j: Job, dialect: Dialect, s: SectionRange): nat {
    if s.name in j.policy.arraySections then Preamble(dialect, s.name)
    else RoundUp(Preamble(dialect, s.name), Alignment(s.address))
  }

  /** No section has a header among the first n items. */
  predicate Quiet(j: Job, items: seq<Item>, n: nat) {
    forall i :: 0 <= i < n && i < |items| ==> SectionHeaderEvents(j, items[i].Start()) == []
  }

  /** Nothing is printed before the first section header; it would end up in the text section. */
  predicate Unspilled(j: Job, items: seq<Item>) {
    forall i :: 0 <= i < |items| && Quiet(j, items, i + 1) ==> SkipEA(j, items[i].Start())
  }

  /** Item k can be assembled, adds no padding, and is at the start of section s or behind another item of it. */
  ghost predicate InPlace(j: Job, dialect: Dialect, items: seq<Item>, s: SectionRange, k: nat)
    requires k < |items| && s.address <= items[k].Start()
  {
    && Assembled(j, items[k])
    && Unpadded(j.m, items[k], Origin(j, dialect, s) + (items[k].Start() - s.address))
    && (if k > 0 && Contained(items[k - 1], s) then End(items[k - 1]) == items[k].Start()
        else items[k].Start() == s.address)
  }

  /**
   Section s is printed, is filled by its items without gaps, and all in it can be assembled. In debug
   mode no line of the run has an address that an assembler cannot read.
   */
  ghost predicate Contiguous(j: Job, dialect: Dialect, items: seq<Item>, s: SectionRange) {
    && !Skipped(j, s) && AllLegible(j, items)
    && (s.name == ".text" ==> Unspilled(j, items))
    && (forall k :: 0 <= k < |items| && Contained(items[k], s) ==> InPlace(j, dialect, items, s, k))
  }

  /** The section of item k can be assembled; of other sections only the extent and the name matter. */
  ghost predicate Placeable(j: Job, dialect: Dialect, items: seq<Item>, at: seq<SectionRange>, k: nat) {
    && Housed(j.m.sections, items, at) && DistinctNames(j.m.sections)
    && k < |items| && Contiguous(j, dialect, items, at[k])
  }

  /** In a section at a multiple of 16 no function header adds padding. */
  lemma AlignedIsUnpadded(j: Job, dialect: Dialect, item: Item, s: SectionRange)
    requires s.address % 16 == 0 && s.address <= item.Start()
    requires s.name in j.policy.arraySections ==> s.name != ".text"
    ensures Unpadded(j.m, item, Origin(j, dialect, s) + (item.Start() - s.address))
  {
    var p := Origin(j, dialect, s) + (item.Start() - s.address);
    assert Origin(j, dialect, s) == 0 || Origin(j, dialect, s) == 16;
    assert InStep(item.Start(), p);
    InStepUnpadded(j.m, item, p);
  }

  // ---- items of one section follow each other ----

  lemma {:induction false} SeparateOrder(items: seq<Item>, k: nat, l: nat)
    requires Separate(items) && k <= l < |items|
    ensures items[k].Start() <= items[l].Start()
    decreases l
  {
    if k < l {
      SeparateOrder(items, k, l - 1);
    }
  }

  lemma SectionNotLeft(j: Job, items: seq<Item>, at: seq<SectionRange>, i: nat, k: nat, l: nat)
    requires Housed(j.m.sections, items, at) && i <= k <= l < |items| && at[i] == at[l]
    ensures at[k] == at[l]
  {
    SeparateOrder(items, i, k);
    SeparateOrder(items, k, l);
    assert Contained(items[i], at[i]) && Contained(items[k], at[k]) && Contained(items[l], at[l]);
    OneSection(j.m.sections, at[k], at[l], items[k].Start());
  }

  /** Item k is contained in one section only. */
  lemma ContainedOnce(j: Job, items: seq<Item>, at: seq<SectionRange>, s: SectionRange, k: nat)
    requires Housed(j.m.sections, items, at) && k < |items| && s in j.m.sections
    ensures Contained(items[k], s) <==> at[k] == s
  {
    assert Contained(items[k], at[k]);
    if Contained(items[k], s) {
      OneSection(j.m.sections, s, at[k], items[k].Start());
    }
  }

  // ---- the prologue ----

  function AfterNops(s: Spot, n: nat): Spot
    requires s.Spot?
  {
    if s.open then s.(size := s.size + n) else s
  }

  lemma NopInPrologue(s: Spot)
    requires s.Spot?
    ensures Assemble(s, [Prologue("nop")]) == AfterNops(s, 1)
  {
    FoldOne(Advance, s, Prologue("nop"));
  }

  lemma {:induction false} NopsInPrologue(s: Spot, n: nat)
    requires s.Spot?
    ensures Assemble(s, RepeatEvent(Prologue("nop"), n)) == AfterNops(s, n)
  {
    if n > 0 {
      var before := RepeatEvent(Prologue("nop"), n - 1);
      NopsInPrologue(s, n - 1);
      NopInPrologue(AfterNops(s, n - 1));
      FoldConcat(Advance, s, before, [Prologue("nop")]);
    }
  }

  lemma PrologueSpot(dialect: Dialect, name: string)
    ensures Assemble(Initially(name), PrologueEvents(dialect)) == Spot(name, name == ".text", Preamble(dialect, name))
  {
    var s, nops := Initially(name), RepeatEvent(Prologue("nop"), 8);
    NopsInPrologue(s, 8);
    match dialect {
      case AttSyntax => WeightlessStays(s, []);
      case IntelSyntax => SyntaxLine(s, nops);
      case A64Syntax =>
    }
  }

  lemma SyntaxLine(s: Spot, es: seq<Event>)
    ensures Assemble(s, [Prologue(".intel_syntax noprefix")] + es) == Assemble(s, es)
  {
    WeightlessStays(s, [Prologue(".intel_syntax noprefix")]);
    FoldConcat(Advance, s, [Prologue(".intel_syntax noprefix")], es);
  }

  // ---- step by step ----

  /** The counter of section s before item k. */
  function SpotBefore(j: Job, dialect: Dialect, items: seq<Item>, at: seq<SectionRange>, s: SectionRange, k: nat): Spot
    requires |at| == |items| && k <= |items|
  {
    if k > 0 && at[k - 1] == s then Spot(s.name, true, Origin(j, dialect, s) + Distance(s, End(items[k - 1])))
    else Spot(s.name, s.name == ".text" && Quiet(j, items, k), Preamble(dialect, s.name))
  }

  function Distance(s: SectionRange, a: nat): nat {
    if s.address <= a then a - s.address else 0
  }

  /** The counter of section s where item k begins. */
  function SpotInside(j: Job, dialect: Dialect, items: seq<Item>, at: seq<SectionRange>, s: SectionRange, k: nat): Spot
    requires |at| == |items| && k < |items|
  {
    if at[k] == s then Spot(s.name, true, Origin(j, dialect, s) + Distance(s, items[k].Start()))
    else Spot(s.name, s.name == ".text" && Quiet(j, items, k + 1), Preamble(dialect, s.name))
  }

  lemma FooterIsWeightless(j: Job, next: Option<nat>, last: nat)
    ensures Weightless(SectionFooterEvents(j, next, last))
  {
  }

  lemma AlignElsewhere(name: string, p: nat, a: nat)
    ensures Assemble(Spot(name, false, p), AlignEvents(a)) == Spot(name, false, p)
  {
    FoldKeeps(Advance, Spot(name, false, p), AlignEvents(a));
  }

  /** The header of section s opens it. */
  lemma HeaderOpens(j: Job, dialect: Dialect, s: SectionRange, open: bool)
    requires !Skipped(j, s)
    ensures Assemble(Spot(s.name, open, Preamble(dialect, s.name)), HeaderFor(j, s, s.address)) ==
      Spot(s.name, true, Origin(j, dialect, s))
  {
    var align := if s.name in j.policy.arraySections then [] else AlignEvents(s.address);
    var before, after := Spot(s.name, open, Preamble(dialect, s.name)), Spot(s.name, true, Preamble(dialect, s.name));
    FoldOne(Advance, before, SectionHeader(s));
    FoldConcat(Advance, before, [SectionHeader(s)], align);
    if s.name in j.policy.arraySections {
      WeightlessStays(after, align);
    } else {
      AlignAdvances(s.address, s.name, Preamble(dialect, s.name));
    }
  }

  /** The header of another section closes it; without a header nothing changes. */
  lemma HeaderCloses(j: Job, t: SectionRange, a: nat, name: string, open: bool, p: nat)
    requires t.name != name
    ensures Assemble(Spot(name, open, p), HeaderFor(j, t, a)) == Spot(name, open && HeaderFor(j, t, a) == [], p)
  {
    if HeaderFor(j, t, a) == [] {
      WeightlessStays(Spot(name, open, p), []);
    } else {
      var align := if t.name in j.policy.arraySections then [] else AlignEvents(a);
      FoldOne(Advance, Spot(name, open, p), SectionHeader(t));
      FoldConcat(Advance, Spot(name, open, p), [SectionHeader(t)], align);
      AlignElsewhere(name, p, a);
    }
  }

  /** In section s the counter is at the start of the item, and then at its end. */
  lemma SpotHere(j: Job, dialect: Dialect, items: seq<Item>, at: seq<SectionRange>, s: SectionRange, k: nat)
      returns (p: nat)
    requires |at| == |items| && k < |items| && at[k] == s && Contained(items[k], s)
    ensures p == Origin(j, dialect, s) + (items[k].Start() - s.address)
    ensures SpotInside(j, dialect, items, at, s, k) == Spot(s.name, true, p)
    ensures SpotBefore(j, dialect, items, at, s, k + 1) == Spot(s.name, true, p + items[k].Size())
  {
    p := Origin(j, dialect, s) + (items[k].Start() - s.address);
  }

  lemma SpotGoesOn(j: Job, dialect: Dialect, items: seq<Item>, at: seq<SectionRange>, s: SectionRange, k: nat)
    requires |at| == |items| && k < |items| && at[k] == s && SameSection(at, k) && End(items[k - 1]) == items[k].Start()
    ensures SpotBefore(j, dialect, items, at, s, k) == SpotInside(j, dialect, items, at, s, k)
  {
  }

  lemma HeaderHere(j: Job, dialect: Dialect, items: seq<Item>, at: seq<SectionRange>, k: nat)
    requires Placeable(j, dialect, items, at, k)
    ensures Assemble(SpotBefore(j, dialect, items, at, at[k], k), SectionHeaderEvents(j, items[k].Start())) ==
      SpotInside(j, dialect, items, at, at[k], k)
  {
    var s := at[k];
    assert Contained(items[k], s);
    var p := SpotHere(j, dialect, items, at, s, k);
    HeaderOfItem(j, items, at, k);
    if k > 0 {
      ContainedOnce(j, items, at, s, k - 1);
    }
    if SameSection(at, k) {
      SpotGoesOn(j, dialect, items, at, s, k);
      WeightlessStays(Spot(s.name, true, p), []);
    } else {
      assert items[k].Start() == s.address;
      HeaderOpens(j, dialect, s, s.name == ".text" && Quiet(j, items, k));
    }
  }

  lemma HeaderElsewhere(j: Job, dialect: Dialect, items: seq<Item>, at: seq<SectionRange>, k: nat, s: SectionRange)
    requires Housed(j.m.sections, items, at) && k < |items|
    requires s.name != at[k].name && !(k > 0 && at[k - 1] == s)
    ensures Assemble(SpotBefore(j, dialect, items, at, s, k), SectionHeaderEvents(j, items[k].Start())) ==
      SpotInside(j, dialect, items, at, s, k)
  {
    var open := s.name == ".text" && Quiet(j, items, k);
    HeaderOfItem(j, items, at, k);
    HeaderCloses(j, at[k], items[k].Start(), s.name, open, Preamble(dialect, s.name));
    assert Quiet(j, items, k + 1) <==> Quiet(j, items, k) && SectionHeaderEvents(j, items[k].Start()) == [];
  }

  /** The section of item k can be assembled, and item i is not behind it. */
  lemma PlaceableBefore(j: Job, dialect: Dialect, items: seq<Item>, at: seq<SectionRange>, i: nat, k: nat)
    requires Placeable(j, dialect, items, at, k) && i <= k
    ensures at[i] == at[k] ==> Placeable(j, dialect, items, at, i)
    ensures at[i] != at[k] ==> at[i].name != at[k].name && !(i > 0 && at[i - 1] == at[k])
  {
    if at[i].name == at[k].name {
      NameTellsSection(j.m.sections, at[i], at[k]);
    }
    if i > 0 && at[i - 1] == at[k] {
      SectionNotLeft(j, items, at, i - 1, i, k);
    }
  }

  lemma HeaderSpot(j: Job, dialect: Dialect, items: seq<Item>, at: seq<SectionRange>, i: nat, k: nat)
    requires Placeable(j, dialect, items, at, k) && i <= k
    ensures Assemble(SpotBefore(j, dialect, items, at, at[k], i), SectionHeaderEvents(j, items[i].Start())) ==
      SpotInside(j, dialect, items, at, at[k], i)
  {
    PlaceableBefore(j, dialect, items, at, i, k);
    if at[i] == at[k] {
      HeaderHere(j, dialect, items, at, i);
    } else {
      HeaderElsewhere(j, dialect, items, at, i, at[k]);
    }
  }

  lemma LeadSpot(j: Job, dialect: Dialect, items: seq<Item>, at: seq<SectionRange>, i: nat, k: nat)
    requires Placeable(j, dialect, items, at, k) && i <= k
    ensures Assemble(SpotBefore(j, dialect, items, at, at[k], i), Lead(j, items, i)) ==
      SpotInside(j, dialect, items, at, at[k], i)
  {
    var a, last, spot := items[i].Start(), Cursor(items, i), SpotBefore(j, dialect, items, at, at[k], i);
    var gap, footer := GapEvents(j, a, last), SectionFooterEvents(j, Some(a), last);
    WeightlessStays(spot, gap);
    FooterIsWeightless(j, Some(a), last);
    WeightlessStays(spot, footer);
    HeaderSpot(j, dialect, items, at, i, k);
    InTurn(spot, gap, spot, footer, spot, SectionHeaderEvents(j, a));
  }

  lemma PlaceHere(j: Job, dialect: Dialect, items: seq<Item>, at: seq<SectionRange>, k: nat) returns (p: nat)
    requires Placeable(j, dialect, items, at, k)
    ensures at[k].address <= items[k].Start() && p == Origin(j, dialect, at[k]) + (items[k].Start() - at[k].address)
    ensures Assembled(j, items[k]) && Unpadded(j.m, items[k], p)
    ensures SpotInside(j, dialect, items, at, at[k], k) == Spot(at[k].name, true, p)
    ensures SpotBefore(j, dialect, items, at, at[k], k + 1) == Spot(at[k].name, true, p + items[k].Size())
  {
    assert Contained(items[k], at[k]) && InPlace(j, dialect, items, at[k], k);
    p := SpotHere(j, dialect, items, at, at[k], k);
  }

  lemma ItemHere(j: Job, dialect: Dialect, items: seq<Item>, at: seq<SectionRange>, k: nat)
    requires Placeable(j, dialect, items, at, k)
    ensures Assemble(SpotInside(j, dialect, items, at, at[k], k), ItemEvents(j, items[k])) ==
      SpotBefore(j, dialect, items, at, at[k], k + 1)
  {
    var p := PlaceHere(j, dialect, items, at, k);
    ItemAdvances(j, items[k], at[k].name, p);
  }

  /** An item elsewhere does not count for section s, or is not printed. */
  lemma ItemNotHere(j: Job, dialect: Dialect, items: seq<Item>, at: seq<SectionRange>, s: SectionRange, k: nat)
    requires |at| == |items| && k < |items| && at[k] != s && (s.name == ".text" ==> Unspilled(j, items))
    requires NotesLegible(j, items[k])
    ensures Assemble(SpotInside(j, dialect, items, at, s, k), ItemEvents(j, items[k])) ==
      SpotBefore(j, dialect, items, at, s, k + 1)
  {
    if s.name == ".text" && Quiet(j, items, k + 1) {
      assert ItemEvents(j, items[k]) == [];
      WeightlessStays(SpotInside(j, dialect, items, at, s, k), []);
    } else {
      ItemElsewhere(j, items[k], s.name, Preamble(dialect, s.name));
    }
  }

  lemma ItemSpot(j: Job, dialect: Dialect, items: seq<Item>, at: seq<SectionRange>, i: nat, k: nat)
    requires Placeable(j, dialect, items, at, k) && i <= k
    ensures Assemble(SpotInside(j, dialect, items, at, at[k], i), ItemEvents(j, items[i])) ==
      SpotBefore(j, dialect, items, at, at[k], i + 1)
  {
    PlaceableBefore(j, dialect, items, at, i, k);
    HousedEndsInSpace(j.m.sections, items, at);
    CursorOfSeparate(items, i);
    assert IsPrinted(items, i);
    if at[i] == at[k] {
      ItemHere(j, dialect, items, at, i);
    } else {
      ItemNotHere(j, dialect, items, at, at[k], i);
    }
  }

  lemma StepSpot(j: Job, dialect: Dialect, items: seq<Item>, at: seq<SectionRange>, i: nat, k: nat, part: seq<Event>)
    requires Placeable(j, dialect, items, at, k) && i <= k
    requires part == Steps(j, items)[i]
    ensures Assemble(SpotBefore(j, dialect, items, at, at[k], i), part) ==
      SpotBefore(j, dialect, items, at, at[k], i + 1)
  {
    HousedEndsInSpace(j.m.sections, items, at);
    CursorOfSeparate(items, i);
    LeadThenItem(j, items, i);
    LeadSpot(j, dialect, items, at, i, k);
    ItemSpot(j, dialect, items, at, i, k);
    FoldConcat(Advance, SpotBefore(j, dialect, items, at, at[k], i), Lead(j, items, i), ItemEvents(j, items[i]));
  }

  function Spots(j: Job, dialect: Dialect, items: seq<Item>, at: seq<SectionRange>, s: SectionRange): (r: seq<Spot>)
    requires |at| == |items|
    ensures |r| == |items| + 1
  {
    seq(|items| + 1, k requires 0 <= k <= |items| => SpotBefore(j, dialect, items, at, s, k))
  }

  lemma SpotsAround(j: Job, dialect: Dialect, items: seq<Item>, at: seq<SectionRange>, s: SectionRange, k: nat)
      returns (r: Spot, next: Spot)
    requires |at| == |items| && k < |items|
    ensures r == Spots(j, dialect, items, at, s)[k] == SpotBefore(j, dialect, items, at, s, k)
    ensures next == Spots(j, dialect, items, at, s)[k + 1] == SpotBefore(j, dialect, items, at, s, k + 1)
  {
    r, next := SpotBefore(j, dialect, items, at, s, k), SpotBefore(j, dialect, items, at, s, k + 1);
  }

  lemma StepLeads(j: Job, dialect: Dialect, items: seq<Item>, at: seq<SectionRange>, i: nat, k: nat,
      parts: seq<seq<Event>>)
    requires Placeable(j, dialect, items, at, k) && i <= k
    requires parts == Steps(j, items)
    ensures Fold(Advance, Spots(j, dialect, items, at, at[k])[i], parts[i]) ==
      Spots(j, dialect, items, at, at[k])[i + 1]
  {
    var spot, next := SpotsAround(j, dialect, items, at, at[k], i);
    StepSpot(j, dialect, items, at, i, k, parts[i]);
  }

  /** The counter before item k, after all the items before it. */
  lemma StepsSpot(j: Job, dialect: Dialect, items: seq<Item>, at: seq<SectionRange>, k: nat,
      parts: seq<seq<Event>>)
    requires Placeable(j, dialect, items, at, k)
    requires parts == Steps(j, items)
    ensures Assemble(SpotBefore(j, dialect, items, at, at[k], 0), Concat(parts, k)) ==
      SpotBefore(j, dialect, items, at, at[k], k)
  {
    var spots := Spots(j, dialect, items, at, at[k]);
    assert Leads(Advance, parts, spots, k) by {
      forall i | 0 <= i < k
        ensures Fold(Advance, spots[i], parts[i]) == spots[i + 1]
      {
        StepLeads(j, dialect, items, at, i, k, parts);
      }
    }
    FoldParts(Advance, parts, spots, k);
    var first, _ := SpotsAround(j, dialect, items, at, at[k], 0);
    var last, _ := SpotsAround(j, dialect, items, at, at[k], k);
  }

  /** After these events the location counter of the section is where address a belongs. */
  predicate Reached(j: Job, dialect: Dialect, s: SectionRange, es: seq<Event>, a: nat) {
    s.address <= a &&
    Assemble(Initially(s.name), es) == Spot(s.name, true, Origin(j, dialect, s) + (a - s.address))
  }

  lemma SpotBeforeItem(j: Job, dialect: Dialect, items: seq<Item>, at: seq<SectionRange>, k: nat,
      parts: seq<seq<Event>>)
    requires Placeable(j, dialect, items, at, k)
    requires parts == Steps(j, items)
    ensures Assemble(Initially(at[k].name), PrologueEvents(dialect) + (Concat(parts, k) + Lead(j, items, k))) ==
      SpotInside(j, dialect, items, at, at[k], k)
  {
    var first, last := SpotBefore(j, dialect, items, at, at[k], 0), SpotBefore(j, dialect, items, at, at[k], k);
    PrologueSpot(dialect, at[k].name);
    StepsSpot(j, dialect, items, at, k, parts);
    LeadSpot(j, dialect, items, at, k, k);
    InTurn(Initially(at[k].name), PrologueEvents(dialect), first, Concat(parts, k), last, Lead(j, items, k));
  }

  lemma SpotAtItem(j: Job, dialect: Dialect, items: seq<Item>, at: seq<SectionRange>, k: nat, before: seq<Event>)
    requires Placeable(j, dialect, items, at, k)
    requires before == PrologueEvents(dialect) + (Concat(Steps(j, items), k) + Lead(j, items, k))
    ensures Reached(j, dialect, at[k], before, items[k].Start())
  {
    var p := PlaceHere(j, dialect, items, at, k);
    SpotBeforeItem(j, dialect, items, at, k, Steps(j, items));
    ReachedAt(j, dialect, at[k], before, items[k].Start(), p);
  }

  lemma ReachedAt(j: Job, dialect: Dialect, s: SectionRange, es: seq<Event>, a: nat, p: nat)
    requires s.address <= a && p == Origin(j, dialect, s) + (a - s.address)
    requires Assemble(Initially(s.name), es) == Spot(s.name, true, p)
    ensures Reached(j, dialect, s, es, a)
  {
  }

  /**
   On x86, at every item of a section that is printed without gaps the location counter has advanced
   from the beginning of the contents of the section by exactly the distance of the original
   addresses, whatever becomes of other sections.
   */
  lemma LocationIsAddress(j: Job, dialect: Dialect, items: seq<Item>, at: seq<SectionRange>, k: nat)
      returns (before: seq<Event>, after: seq<Event>)
    requires Placeable(j, dialect, items, at, k)
    requires dialect != A64Syntax
    ensures PrintEvents(j, dialect, items) == before + ItemEvents(j, items[k]) + after
    ensures Reached(j, dialect, at[k], before, items[k].Start())
  {
    before, after := RunAround(j, dialect, items, at, k);
    SpotAtItem(j, dialect, items, at, k, before);
  }

  /** Data, too, is assembled at its place and with its own bytes. */
  lemma DataIsAssembled(j: Job, dialect: Dialect, items: seq<Item>, at: seq<SectionRange>, k: nat)
      returns (before: seq<Event>, content: seq<Event>, after: seq<Event>)
    requires Placeable(j, dialect, items, at, k)
    requires dialect != A64Syntax && items[k].Data? && items[k].data.address !in j.m.symexprs
    ensures PrintEvents(j, dialect, items) == before + content + after
    ensures Reached(j, dialect, at[k], before, items[k].Start())
    ensures Image(Some([]), content) == Some(items[k].data.bytes)
  {
    before, after := LocationIsAddress(j, dialect, items, at, k);
    content := ItemEvents(j, items[k]);
    var d := items[k].data;
    assert Contained(items[k], at[k]) && InPlace(j, dialect, items, at[k], k);
    DataRestored(j, d, []);
    Empty(d.bytes);
  }

  // ---- labels in place ----

  /** What is printed for a block before its instruction n, and what after the labels there. */
  lemma BlockAround(j: Job, b: CodeBlock, n: nat) returns (lead: seq<Event>, rest: seq<Event>)
    requires !SkipEA(j, b.address) && n < |b.insns|
    ensures lead == BlockHeaderEvents(j.m, b.address) + Concat(InsnParts(j, b), n)
    ensures BlockEvents(j, b) == lead + ([LabelGroup(j.m, InsnAddress(b, n))] + rest)
  {
    var header, parts := BlockHeaderEvents(j.m, b.address), InsnParts(j, b);
    var cfi := CfiEvents(j, InsnOffset(b, |b.insns|));
    var later := ConcatSplits(parts, n, |b.insns|);
    var insn, o := Fixup(b.insns[n]), InsnOffset(b, n);
    var body := CommentEvents(j, o.element, o.displacement, insn.size) +
      (CfiEvents(j, o) + BodyEvents(j, insn, InsnAddress(b, n)));
    var group := [LabelGroup(j.m, InsnAddress(b, n))];
    lead, rest := header + Concat(parts, n), body + (later + cfi);
    Regrouped(header, Concat(parts, n), group, body, later, cfi);
  }

  lemma Regrouped<T>(a: seq<T>, b: seq<T>, c: seq<T>, d: seq<T>, e: seq<T>, f: seq<T>)
    ensures a + ((b + ((c + d) + e)) + f) == (a + b) + (c + (d + (e + f)))
  {
  }

  lemma LeadOfInsn(j: Job, b: CodeBlock, n: nat, name: string, p: nat)
    requires Assembled(j, Code(b)) && Unpadded(j.m, Code(b), p) && n <= |b.insns|
    ensures Assemble(Spot(name, true, p), BlockHeaderEvents(j.m, b.address) + Concat(InsnParts(j, b), n)) ==
      Spot(name, true, p + SizeUpTo(b.insns, n))
  {
    FunctionHeaderAdvances(j.m, b.address, name, p);
    InsnsAdvance(j, b, n, name, p);
    AndThen(Spot(name, true, p), BlockHeaderEvents(j.m, b.address), Spot(name, true, p), Concat(InsnParts(j, b), n));
  }

  lemma InsnIsInside(b: CodeBlock, n: nat)
    requires Disassembled(b) && n < |b.insns| && b.address + b.size < ADDRESS_SPACE
    ensures InsnAddress(b, n) == b.address + SizeUpTo(b.insns, n)
  {
    SizeUpToGrows(b.insns, n, |b.insns|);
  }

  /** Further on in the section. */
  lemma ReachedFurther(j: Job, dialect: Dialect, s: SectionRange, before: seq<Event>, a: nat, lead: seq<Event>, n: nat,
      p: nat)
    requires s.address <= a && p == Origin(j, dialect, s) + (a - s.address)
    requires Reached(j, dialect, s, before, a) && Assemble(Spot(s.name, true, p), lead) == Spot(s.name, true, p + n)
    ensures Reached(j, dialect, s, before + lead, a + n)
  {
    AndThen(Initially(s.name), before, Spot(s.name, true, p), lead);
  }

  lemma DataAround(j: Job, d: DataBlock) returns (lead: seq<Event>, rest: seq<Event>)
    requires !SkipEA(j, d.address)
    ensures lead == CommentEvents(j, d.id, 0, |d.bytes|)
    ensures DataEvents(j, d) == lead + ([LabelGroup(j.m, d.address)] + rest)
  {
    lead := CommentEvents(j, d.id, 0, |d.bytes|);
    rest := DataNoteEvents(j, d.address) +
      (if ShouldExclude(j, ContainerSection(j.m, d.address), d.address) then [] else ContentEvents(j, d));
  }

  /** What is printed for the item before the labels at a, and how far that moves the counter. */
  lemma ItemLead(j: Job, item: Item, a: nat, name: string, p: nat) returns (lead: seq<Event>, rest: seq<Event>)
    requires Assembled(j, item) && Unpadded(j.m, item, p) && ItemPlace(j, item, a) && End(item) < ADDRESS_SPACE
    ensures item.Start() <= a && ItemEvents(j, item) == lead + ([LabelGroup(j.m, a)] + rest)
    ensures Assemble(Spot(name, true, p), lead) == Spot(name, true, p + (a - item.Start()))
  {
    match item
    case Code(b) =>
      var n :| 0 <= n < |b.insns| && InsnAddress(b, n) == a;
      lead, rest := BlockAround(j, b, n);
      LeadOfInsn(j, b, n, name, p);
      InsnIsInside(b, n);
    case Data(d) =>
      lead, rest := DataAround(j, d);
      CommentsAreWeightless(j, d.id, 0, |d.bytes|);
      WeightlessStays(Spot(name, true, p), lead);
  }

  /** From the start of an item on to its labels at a. */
  lemma OnToLabels(j: Job, dialect: Dialect, item: Item, s: SectionRange, a: nat, start: seq<Event>, p: nat)
      returns (lead: seq<Event>, rest: seq<Event>)
    requires Assembled(j, item) && Unpadded(j.m, item, p) && ItemPlace(j, item, a) && End(item) < ADDRESS_SPACE
    requires s.address <= item.Start() && p == Origin(j, dialect, s) + (item.Start() - s.address)
    requires Reached(j, dialect, s, start, item.Start())
    ensures ItemEvents(j, item) == lead + ([LabelGroup(j.m, a)] + rest)
    ensures Reached(j, dialect, s, start + lead, a)
  {
    lead, rest := ItemLead(j, item, a, s.name, p);
    ReachedFurther(j, dialect, s, start, item.Start(), lead, a - item.Start(), p);
  }

  /**
   Every label group of an item in such a section is printed where the location counter has advanced by
   exactly the distance of its address from the start of the section.
   */
  lemma LabelsAreInPlace(j: Job, dialect: Dialect, items: seq<Item>, at: seq<SectionRange>, k: nat, a: nat)
      returns (before: seq<Event>, after: seq<Event>)
    requires Placeable(j, dialect, items, at, k) && dialect != A64Syntax && ItemPlace(j, items[k], a)
    ensures PrintEvents(j, dialect, items) == before + ([LabelGroup(j.m, a)] + after)
    ensures Reached(j, dialect, at[k], before, a)
  {
    var start, end := LocationIsAddress(j, dialect, items, at, k);
    var p := PlaceHere(j, dialect, items, at, k);
    HousedEndsInSpace(j.m.sections, items, at);
    var lead, rest := OnToLabels(j, dialect, items[k], at[k], a, start, p);
    before, after := start + lead, rest + end;
    LabelSplit(start, ItemEvents(j, items[k]), lead, [LabelGroup(j.m, a)], rest, end);
  }

  lemma LabelSplit<T>(a: seq<T>, item: seq<T>, b: seq<T>, c: seq<T>, d: seq<T>, e: seq<T>)
    requires item == b + (c + d)
    ensures a + item + e == (a + b) + (c + (d + e))
  {
  }

  // ---- instructions, comments and directives in place ----

  /** What is printed for a block before its instruction n. */
  function LeadOf(j: Job, b: CodeBlock, n: nat): seq<Event>
    requires n <= |b.insns|
  {
    BlockHeaderEvents(j.m, b.address) + Concat(InsnParts(j, b), n)
  }

  /** What is printed for it from the comments of that instruction on. */
  lemma BlockFrom(j: Job, b: CodeBlock, n: nat) returns (lead: seq<Event>, more: seq<Event>)
    requires !SkipEA(j, b.address) && n < |b.insns|
    ensures lead == LeadOf(j, b, n) + [LabelGroup(j.m, InsnAddress(b, n))]
    ensures BlockEvents(j, b) == lead + InsnFrom(j, b, n, more)
  {
    var header, parts := BlockHeaderEvents(j.m, b.address), InsnParts(j, b);
    var end := CfiEvents(j, InsnOffset(b, |b.insns|));
    var later := ConcatSplits(parts, n, |b.insns|);
    var group := [LabelGroup(j.m, InsnAddress(b, n))];
    var comments := CommentEvents(j, b.id, SizeUpTo(b.insns, n), b.insns[n].size);
    var cfi, body := CfiEvents(j, InsnOffset(b, n)), BodyEvents(j, Fixup(b.insns[n]), InsnAddress(b, n));
    lead, more := (header + Concat(parts, n)) + group, later + end;
    RegroupedAll(header, Concat(parts, n), group, comments, cfi, body, later, end);
  }

  lemma RegroupedAll<T>(a: seq<T>, b: seq<T>, c: seq<T>, d: seq<T>, e: seq<T>, f: seq<T>, g: seq<T>, h: seq<T>)
    ensures a + ((b + ((c + (d + (e + f))) + g)) + h) == ((a + b) + c) + (d + (e + (f + (g + h))))
  {
  }

  lemma LeadAndGroup(j: Job, b: CodeBlock, n: nat, name: string, p: nat, lead: seq<Event>)
    requires Assembled(j, Code(b)) && Unpadded(j.m, Code(b), p) && n < |b.insns|
    requires lead == LeadOf(j, b, n) + [LabelGroup(j.m, InsnAddress(b, n))]
    ensures Assemble(Spot(name, true, p), lead) == Spot(name, true, p + SizeUpTo(b.insns, n))
  {
    LeadOfInsn(j, b, n, name, p);
    WeightlessStays(Spot(name, true, p + SizeUpTo(b.insns, n)), [LabelGroup(j.m, InsnAddress(b, n))]);
    AndThen(Spot(name, true, p), BlockHeaderEvents(j.m, b.address) + Concat(InsnParts(j, b), n),
      Spot(name, true, p + SizeUpTo(b.insns, n)), [LabelGroup(j.m, InsnAddress(b, n))]);
  }

  /** What is printed for instruction n of the block, from its comments on, and what is behind that. */
  function InsnFrom(j: Job, b: CodeBlock, n: nat, behind: seq<Event>): seq<Event>
    requires n < |b.insns|
  {
    CommentEvents(j, b.id, SizeUpTo(b.insns, n), b.insns[n].size) +
    (CfiEvents(j, InsnOffset(b, n)) + (BodyEvents(j, Fixup(b.insns[n]), InsnAddress(b, n)) + behind))
  }

  /**
   The comments and the directives of an instruction are printed right before it, where the counter has
   advanced from the start of the block by the offset of the instruction.
   */
  lemma InsnIsInPlace(j: Job, b: CodeBlock, n: nat, name: string, p: nat) returns (lead: seq<Event>, more: seq<Event>)
    requires Assembled(j, Code(b)) && Unpadded(j.m, Code(b), p) && n < |b.insns|
    ensures BlockEvents(j, b) == lead + InsnFrom(j, b, n, more)
    ensures Assemble(Spot(name, true, p), lead) == Spot(name, true, p + SizeUpTo(b.insns, n))
  {
    lead, more := BlockFrom(j, b, n);
    LeadAndGroup(j, b, n, name, p, lead);
  }

  /** The directives at the end of a block are printed where the counter has advanced by its size. */
  lemma EndDirectivesAreInPlace(j: Job, b: CodeBlock, name: string, p: nat, cfi: seq<Event>) returns (lead: seq<Event>)
    requires Assembled(j, Code(b)) && Unpadded(j.m, Code(b), p) && cfi == CfiEvents(j, InsnOffset(b, |b.insns|))
    ensures BlockEvents(j, b) == lead + cfi
    ensures Assemble(Spot(name, true, p), lead) == Spot(name, true, p + b.size)
  {
    lead := BlockHeaderEvents(j.m, b.address) + Concat(InsnParts(j, b), |b.insns|);
    LeadOfInsn(j, b, |b.insns|, name, p);
    Associate(BlockHeaderEvents(j.m, b.address), Concat(InsnParts(j, b), |b.insns|), cfi);
  }

  lemma NotedIfShown(j: Job, items: seq<Item>, k: nat, x: nat)
    requires k < |items| && StepShows(j, items, k, Note, x)
    ensures IsPrinted(items, k) && j.policy.debug && Noted(items[k], x)
  {
  }

  /** Nothing spoils the output, and every label at a printed place is seen. */
  lemma SeenInPlace(j: Job, dialect: Dialect, items: seq<Item>, at: seq<SectionRange>, k: nat, a: nat, name: string)
    requires Placeable(j, dialect, items, at, k) && ItemPlace(j, items[k], a) && name in LabelGroup(j.m, a).names
    ensures ReadableRun(j, items) && RunShows(j, items, Name(name), a)
  {
    HousedEndsInSpace(j.m.sections, items, at);
    forall i | 0 <= i < |items|
      ensures IsPrinted(items, i)
    {
      CursorOfSeparate(items, i);
    }
    assert StepPlace(j, items, k, a);
    PlaceShows(j, items, a, name);
    forall x: nat | RunShows(j, items, Note, x)
      ensures Legible(x)
    {
      var i :| 0 <= i < |items| && StepShows(j, items, i, Note, x);
      NotedIfShown(j, items, i, x);
    }
  }

  /**
   A reference by name to a symbol in such a section is to a label that is assembled at the place of the
   symbol, and to no other, if and only if nothing elsewhere is printed under that name.
   */
  lemma ReferenceIsInPlace(j: Job, dialect: Dialect, items: seq<Item>, at: seq<SectionRange>, k: nat, s: Symbol, a: nat)
      returns (before: seq<Event>, after: seq<Event>)
    requires Placeable(j, dialect, items, at, k) && dialect != A64Syntax && ItemPlace(j, items[k], a)
    requires NamesAreFree(j.m) && ByName(j, s, a)
    ensures Reference(j, s).Named? && Reference(j, s).name in LabelGroup(j.m, a).names
    ensures PrintEvents(j, dialect, items) == before + ([LabelGroup(j.m, a)] + after)
    ensures Reached(j, dialect, at[k], before, a)
    ensures Resolves(PrintEvents(j, dialect, items), Reference(j, s).name, a) <==>
      forall i :: 0 <= i < |items| ==> !Collides(j, items, Reference(j, s).name, a, i)
  {
    before, after := LabelsAreInPlace(j, dialect, items, at, k, a);
    ReferencesResolve(j, dialect, items, s, a);
    GroupNames(j.m, a, LabelName(j.m, s, a));
    SeenInPlace(j, dialect, items, at, k, a, LabelName(j.m, s, a));
  }

  /** The assumptions can be met: a skipped section, then one with one byte of data. */
  lemma OneByteOfData(b: Byte) returns (j: Job, items: seq<Item>, at: seq<SectionRange>)
    ensures Placeable(j, AttSyntax, items, at, 1)
    ensures items == [Data(DataBlock(1, 0, [b])), Data(DataBlock(2, 1, [b]))] && Skipped(j, at[0])
  {
    var s, t := SectionRange(".got", 0, 1), SectionRange(".data", 1, 1);
    j := Job(Module(0, [], [s, t], map[], [], [], None, map[], map[]), Policy({".got"}, {}, {}, false));
    items, at := [Data(DataBlock(1, 0, [b])), Data(DataBlock(2, 1, [b]))], [s, t];
    assert FirstAt([s, t], 1) == Some(t) && FirstContaining([s, t], 1) == Some(t) by {
      assert [s, t][1..] == [t];
    }
    assert Assembled(j, items[1]);
  }
}
