/** How section headers and footers bracket what is printed. */
module Bracketing {
  import opened Common
  import opened Folds
  import opened Program
  import opened Events
  import opened Greedy
  import opened Labels
  import opened References

  // ---- reading headers and footers ----

  /** Where a reader of the output is; headers and footers out of turn are errors. */
  datatype Region = Outside | Inside(section: SectionRange) | Broken

  function Next(r: Region, e: Event): Region {
    match e
    case SectionHeader(s) => if r == Outside then Inside(s) else Broken
    case SectionFooter(s) => if r == Inside(s) then Outside else Broken
    case _ => r
  }

  function RegionAfter(r: Region, es: seq<Event>): Region {
    Fold(Next, r, es)
  }

  /** An error is never forgotten: a run that ends outside has headers and footers in turn. */
  lemma {:induction false} NeverBroken(r: Region, es: seq<Event>, n: nat)
    requires n <= |es| && RegionAfter(r, es) != Broken
    ensures RegionAfter(r, es[..n]) != Broken
  {
    if n < |es| {
      NeverBroken(r, es[..|es| - 1], n);
      assert es[..|es| - 1][..n] == es[..n];
    } else {
      assert es[..n] == es;
    }
  }

  /** No header or footer comes after position p. */
  predicate NoBracketAfter(es: seq<Event>, p: int) {
    forall q :: p < q < |es| && 0 <= q ==> !es[q].SectionHeader? && !es[q].SectionFooter?
  }

  /** Inside a section, its header is the most recent of all headers and footers. */
  lemma {:induction false} MostRecentHeader(es: seq<Event>, s: SectionRange)
    requires RegionAfter(Outside, es) == Inside(s)
    ensures exists p :: 0 <= p < |es| && es[p] == SectionHeader(s) && NoBracketAfter(es, p)
  {
    var n := |es| - 1;
    if es[n] == SectionHeader(s) {
      assert NoBracketAfter(es, n);
    } else {
      MostRecentHeader(es[..n], s);
      var p :| 0 <= p < n && es[..n][p] == SectionHeader(s) && NoBracketAfter(es[..n], p);
      assert es[p] == SectionHeader(s);
      assert NoBracketAfter(es, p) by {
        assert forall q :: p < q < n ==> es[q] == es[..n][q];
      }
    }
  }

  lemma InnerKeepsRegion(m: Module, r: Region, es: seq<Event>)
    requires AllInner(m, es)
    ensures RegionAfter(r, es) == r
  {
    forall e | e in es
      ensures Next(r, e) == r
    {
      assert Inner(m, e);
    }
    FoldKeeps(Next, r, es);
  }

  // ---- sections that do not overlap ----

  predicate Disjoint(s: SectionRange, t: SectionRange) {
    s.address + s.size <= t.address || t.address + t.size <= s.address
  }

  predicate AllDisjoint(sections: seq<SectionRange>) {
    forall k, l :: 0 <= k < l < |sections| ==> Disjoint(sections[k], sections[l])
  }

  /** Sections do not overlap, and none reaches the top of the address space. */
  predicate SectionsApart(sections: seq<SectionRange>) {
    && AllDisjoint(sections)
    && (forall k :: 0 <= k < |sections| ==> sections[k].address + sections[k].size < ADDRESS_SPACE)
  }

  lemma OneSection(sections: seq<SectionRange>, s: SectionRange, t: SectionRange, a: nat)
    requires SectionsApart(sections) && s in sections && t in sections && s.Contains(a) && t.Contains(a)
    ensures s == t
  {
    var k :| 0 <= k < |sections| && sections[k] == s;
    var l :| 0 <= l < |sections| && sections[l] == t;
    assert k < l ==> Disjoint(s, t);
    assert l < k ==> Disjoint(t, s);
  }

  /** Section k is the first one in the list that starts at a. */
  predicate FirstFrom(sections: seq<SectionRange>, a: nat, k: nat) {
    k < |sections| && sections[k].address == a && forall l :: 0 <= l < k ==> sections[l].address != a
  }

  /** No empty section in front of it hides the start of the section. */
  predicate Visible(sections: seq<SectionRange>, s: SectionRange) {
    FirstAt(sections, s.address) == Some(s)
  }

  /** A section is visible if and only if it is the first one at its address. */
  lemma {:induction false} VisibleExactly(sections: seq<SectionRange>, s: SectionRange)
    ensures Visible(sections, s) <==>
      exists k :: 0 <= k < |sections| && FirstFrom(sections, s.address, k) && sections[k] == s
  {
    if sections != [] {
      if sections[0].address == s.address {
        assert FirstFrom(sections, s.address, 0);
      } else {
        VisibleExactly(sections[1..], s);
        if k :| 0 <= k < |sections| - 1 && FirstFrom(sections[1..], s.address, k) && sections[1..][k] == s {
          StartsLater(sections, s.address, k);
        }
        if k :| 0 <= k < |sections| && FirstFrom(sections, s.address, k) && sections[k] == s {
          StartsEarlier(sections, s.address, k);
        }
      }
    }
  }

  lemma StartsLater(sections: seq<SectionRange>, a: nat, k: nat)
    requires sections != [] && sections[0].address != a && FirstFrom(sections[1..], a, k)
    ensures FirstFrom(sections, a, k + 1) && sections[k + 1] == sections[1..][k]
  {
    assert forall l :: 0 < l < k + 1 ==> sections[l] == sections[1..][l - 1];
  }

  lemma StartsEarlier(sections: seq<SectionRange>, a: nat, k: nat)
    requires sections != [] && sections[0].address != a && FirstFrom(sections, a, k)
    ensures k > 0 && FirstFrom(sections[1..], a, k - 1) && sections[k] == sections[1..][k - 1]
  {
  }

  /** The section around an address is the first one there; only at its start a section is found. */
  lemma SectionAt(sections: seq<SectionRange>, s: SectionRange, a: nat)
    requires SectionsApart(sections) && s in sections && s.Contains(a)
    ensures FirstContaining(sections, a) == Some(s)
    ensures a != s.address ==> FirstAt(sections, a) == None
  {
    FirstContainingFinds(sections, a);
    OneSection(sections, s, FirstContaining(sections, a).value, a);
    FirstAtFinds(sections, a);
    if FirstAt(sections, a).Some? {
      StartsNowhereInside(sections, s, FirstAt(sections, a).value);
    }
  }

  lemma StartsNowhereInside(sections: seq<SectionRange>, s: SectionRange, t: SectionRange)
    requires SectionsApart(sections) && s in sections && t in sections
    ensures !(s.address < t.address < s.address + s.size)
  {
    var k :| 0 <= k < |sections| && sections[k] == s;
    var l :| 0 <= l < |sections| && sections[l] == t;
    assert k < l ==> Disjoint(s, t);
    assert l < k ==> Disjoint(t, s);
  }

  // ---- items in sections ----

  predicate Contained(item: Item, s: SectionRange) {
    item.Size() > 0 && s.address <= item.Start() && End(item) <= s.address + s.size
  }

  /** In address order, without overlap. */
  predicate Separate(items: seq<Item>) {
    forall k :: 0 < k < |items| ==> End(items[k - 1]) <= items[k].Start()
  }

  /** Item k is in the section of the item before it. */
  predicate SameSection(at: seq<SectionRange>, k: nat)
    requires k < |at|
  {
    k > 0 && at[k - 1] == at[k]
  }

  /** Nothing overlaps; at[k] is the section around item k. */
  predicate Housed(sections: seq<SectionRange>, items: seq<Item>, at: seq<SectionRange>) {
    && SectionsApart(sections) && Separate(items) && |at| == |items|
    && (forall k :: 0 <= k < |items| ==> at[k] in sections && Contained(items[k], at[k]) && Visible(sections, at[k]))
  }

  predicate Skipped(j: Job, s: SectionRange) {
    s.name in j.policy.skipSections
  }

  /** If item k is the first one of its section, and the section is not skipped, it is at its start. */
  predicate BeginsWell(j: Job, items: seq<Item>, at: seq<SectionRange>, k: nat)
    requires k < |items| && |at| == |items|
  {
    Skipped(j, at[k]) || SameSection(at, k) || items[k].Start() == at[k].address
  }

  predicate WellUpTo(j: Job, items: seq<Item>, at: seq<SectionRange>, n: nat)
    requires n <= |items| == |at|
  {
    forall k :: 0 <= k < n ==> BeginsWell(j, items, at, k)
  }

  /** The first item of each section that is not skipped is at the start of the section. */
  predicate WellSectioned(j: Job, items: seq<Item>, at: seq<SectionRange>) {
    Housed(j.m.sections, items, at) && WellUpTo(j, items, at, |items|)
  }

  lemma SectionEndsInSpace(sections: seq<SectionRange>, s: SectionRange)
    requires SectionsApart(sections) && s in sections
    ensures s.address + s.size < ADDRESS_SPACE
  {
    var k :| 0 <= k < |sections| && sections[k] == s;
  }

  /** Items that do not overlap are all printed; the cursor is at the end of the last one. */
  lemma {:induction false} CursorOfSeparate(items: seq<Item>, k: nat)
    requires Separate(items) && EndsInSpace(items) && k <= |items|
    ensures Cursor(items, k) == if k == 0 then 0 else End(items[k - 1])
    ensures k < |items| ==> IsPrinted(items, k)
  {
    if k > 0 {
      CursorOfSeparate(items, k - 1);
    }
  }

  /** Where a reader is in the section: a skipped one has no header. */
  function RegionOf(j: Job, s: SectionRange): Region {
    if Skipped(j, s) then Outside else Inside(s)
  }

  /** Where a reader is before item k. */
  function RegionBefore(j: Job, at: seq<SectionRange>, k: nat): Region
    requires k <= |at|
  {
    if k == 0 then Outside else RegionOf(j, at[k - 1])
  }

  lemma HousedEndsInSpace(sections: seq<SectionRange>, items: seq<Item>, at: seq<SectionRange>)
    requires Housed(sections, items, at)
    ensures EndsInSpace(items)
  {
    forall k | 0 <= k < |items|
      ensures items[k].Start() + items[k].Size() < ADDRESS_SPACE
    {
      assert Contained(items[k], at[k]);
      SectionEndsInSpace(sections, at[k]);
    }
  }

  lemma NothingAtTop(sections: seq<SectionRange>)
    requires SectionsApart(sections)
    ensures FirstContaining(sections, ADDRESS_SPACE - 1) == None
  {
    forall s | s in sections
      ensures !s.Contains(ADDRESS_SPACE - 1)
    {
      SectionEndsInSpace(sections, s);
    }
    FirstContainingFinds(sections, ADDRESS_SPACE - 1);
  }

  /** The section of the byte before the cursor is that of the item before it. */
  lemma SectionBeforeCursor(j: Job, items: seq<Item>, at: seq<SectionRange>, k: nat)
    requires Housed(j.m.sections, items, at) && k <= |items|
    ensures k > 0 ==> ContainerSection(j.m, Wrap(Cursor(items, k) - 1)) == Some(at[k - 1])
    ensures k == 0 ==> ContainerSection(j.m, Wrap(Cursor(items, k) - 1)) == None
  {
    HousedEndsInSpace(j.m.sections, items, at);
    CursorOfSeparate(items, k);
    if k == 0 {
      NothingAtTop(j.m.sections);
    } else {
      assert Contained(items[k - 1], at[k - 1]);
      assert EndsInSpace(items) ==> items[k - 1].Start() + items[k - 1].Size() < ADDRESS_SPACE;
      SectionAt(j.m.sections, at[k - 1], End(items[k - 1]) - 1);
    }
  }

  /** There is a footer before item k exactly when a section that is not skipped is left there. */
  lemma FooterOfItem(j: Job, items: seq<Item>, at: seq<SectionRange>, k: nat, last: nat)
    requires Housed(j.m.sections, items, at) && k < |items| && last == Cursor(items, k)
    ensures SectionFooterEvents(j, Some(items[k].Start()), last) ==
      if k == 0 || SameSection(at, k) || Skipped(j, at[k - 1]) then [] else [SectionFooter(at[k - 1])]
  {
    assert Contained(items[k], at[k]);
    SectionBeforeCursor(j, items, at, k);
    SectionAt(j.m.sections, at[k], items[k].Start());
  }

  /** The footer before item k leaves the section of the item before it, unless both are in one section. */
  lemma FooterRegion(j: Job, items: seq<Item>, at: seq<SectionRange>, k: nat, last: nat)
    requires Housed(j.m.sections, items, at) && k < |items| && last == Cursor(items, k)
    ensures RegionAfter(RegionBefore(j, at, k), SectionFooterEvents(j, Some(items[k].Start()), last)) ==
      if SameSection(at, k) then RegionOf(j, at[k]) else Outside
  {
    FooterOfItem(j, items, at, k, last);
    if k > 0 && !SameSection(at, k) {
      FooterLeaves(j, at[k - 1]);
    }
  }

  lemma FooterLeaves(j: Job, s: SectionRange)
    ensures RegionAfter(RegionOf(j, s), if Skipped(j, s) then [] else [SectionFooter(s)]) == Outside
  {
    if !Skipped(j, s) {
      FoldOne(Next, Inside(s), SectionFooter(s));
    }
  }

  /** The header of a section that is not skipped, where item k starts. */
  function HeaderFor(j: Job, s: SectionRange, a: nat): seq<Event> {
    if a != s.address || Skipped(j, s) then []
    else [SectionHeader(s)] + (if s.name in j.policy.arraySections then [] else AlignEvents(a))
  }

  /** There is a header before item k exactly when the item is at the start of a section that is not skipped. */
  lemma HeaderOfItem(j: Job, items: seq<Item>, at: seq<SectionRange>, k: nat)
    requires Housed(j.m.sections, items, at) && k < |items|
    ensures SectionHeaderEvents(j, items[k].Start()) == HeaderFor(j, at[k], items[k].Start())
    ensures SameSection(at, k) ==> items[k].Start() != at[k].address
  {
    assert Contained(items[k], at[k]) && Visible(j.m.sections, at[k]);
    SectionAt(j.m.sections, at[k], items[k].Start());
    if SameSection(at, k) {
      assert Contained(items[k - 1], at[k - 1]);
    }
  }

  lemma HeaderEnters(j: Job, s: SectionRange)
    requires !Skipped(j, s)
    ensures RegionAfter(Outside, HeaderFor(j, s, s.address)) == Inside(s)
  {
    var align := if s.name in j.policy.arraySections then [] else AlignEvents(s.address);
    FoldOne(Next, Outside, SectionHeader(s));
    FoldKeeps(Next, Inside(s), align);
    FoldConcat(Next, Outside, [SectionHeader(s)], align);
  }

  /** The header before item k enters its section, unless it was entered before or is skipped. */
  lemma HeaderRegion(j: Job, items: seq<Item>, at: seq<SectionRange>, k: nat)
    requires Housed(j.m.sections, items, at) && k < |items| && BeginsWell(j, items, at, k)
    ensures var r := if SameSection(at, k) then RegionOf(j, at[k]) else Outside;
      RegionAfter(r, SectionHeaderEvents(j, items[k].Start())) == RegionOf(j, at[k])
  {
    HeaderOfItem(j, items, at, k);
    if !SameSection(at, k) && !Skipped(j, at[k]) {
      HeaderEnters(j, at[k]);
    }
  }

  /** What is printed in step k before the item itself. */
  function Lead(j: Job, items: seq<Item>, k: nat): seq<Event>
    requires k < |items|
  {
    GapEvents(j, items[k].Start(), Cursor(items, k)) +
    (SectionFooterEvents(j, Some(items[k].Start()), Cursor(items, k)) + SectionHeaderEvents(j, items[k].Start()))
  }

  lemma LeadThenItem(j: Job, items: seq<Item>, k: nat)
    requires k < |items| && IsPrinted(items, k)
    ensures Steps(j, items)[k] == Lead(j, items, k) + ItemEvents(j, items[k])
  {
    var a, last := items[k].Start(), Cursor(items, k);
    var gap, footer, header := GapEvents(j, a, last), SectionFooterEvents(j, Some(a), last), SectionHeaderEvents(j, a);
    Associate3(gap, footer, header, ItemEvents(j, items[k]));
    Associate(gap, footer, header);
  }

  lemma GapIsInner(j: Job, a: nat, last: nat)
    ensures AllInner(j.m, GapEvents(j, a, last))
  {
  }

  /** Of what is printed in step k only the footer and the header matter. */
  lemma LeadBrackets(j: Job, items: seq<Item>, k: nat, r: Region, footer: seq<Event>, header: seq<Event>)
    requires k < |items| && footer == SectionFooterEvents(j, Some(items[k].Start()), Cursor(items, k))
    requires header == SectionHeaderEvents(j, items[k].Start())
    ensures RegionAfter(r, Lead(j, items, k)) == RegionAfter(RegionAfter(r, footer), header)
  {
    var a, last := items[k].Start(), Cursor(items, k);
    GapIsInner(j, a, last);
    InnerKeepsRegion(j.m, r, GapEvents(j, a, last));
    FoldConcat(Next, r, GapEvents(j, a, last), footer + header);
    FoldConcat(Next, r, footer, header);
  }

  lemma StepBrackets(j: Job, items: seq<Item>, at: seq<SectionRange>, k: nat, r: Region, part: seq<Event>)
    requires Housed(j.m.sections, items, at) && k < |items| && part == Steps(j, items)[k]
    ensures RegionAfter(r, part) == RegionAfter(r, Lead(j, items, k))
  {
    HousedEndsInSpace(j.m.sections, items, at);
    CursorOfSeparate(items, k);
    LeadThenItem(j, items, k);
    ItemIsInner(j, items[k]);
    InnerKeepsRegion(j.m, RegionAfter(r, Lead(j, items, k)), ItemEvents(j, items[k]));
    FoldConcat(Next, r, Lead(j, items, k), ItemEvents(j, items[k]));
  }

  lemma LeadRegion(j: Job, items: seq<Item>, at: seq<SectionRange>, k: nat)
    requires Housed(j.m.sections, items, at) && k < |items| && BeginsWell(j, items, at, k)
    ensures RegionAfter(RegionBefore(j, at, k), Lead(j, items, k)) == RegionOf(j, at[k])
  {
    var a, last := items[k].Start(), Cursor(items, k);
    FooterRegion(j, items, at, k, last);
    HeaderRegion(j, items, at, k);
    LeadBrackets(j, items, k, RegionBefore(j, at, k), SectionFooterEvents(j, Some(a), last), SectionHeaderEvents(j, a));
  }

  lemma StepRegion(j: Job, items: seq<Item>, at: seq<SectionRange>, k: nat, r: Region, part: seq<Event>)
    requires Housed(j.m.sections, items, at) && k < |items| && BeginsWell(j, items, at, k)
    requires r == RegionBefore(j, at, k) && part == Steps(j, items)[k]
    ensures RegionAfter(r, part) == RegionOf(j, at[k])
  {
    StepBrackets(j, items, at, k, r, part);
    LeadRegion(j, items, at, k);
  }

  function Regions(j: Job, at: seq<SectionRange>): (r: seq<Region>)
    ensures |r| == |at| + 1
  {
    seq(|at| + 1, n requires 0 <= n <= |at| => RegionBefore(j, at, n))
  }

  lemma RegionsAround(j: Job, at: seq<SectionRange>, k: nat) returns (r: Region, next: Region)
    requires k < |at|
    ensures r == Regions(j, at)[k] == RegionBefore(j, at, k)
    ensures next == Regions(j, at)[k + 1] == RegionOf(j, at[k])
  {
    r, next := RegionBefore(j, at, k), RegionOf(j, at[k]);
  }

  lemma StepLeads(j: Job, items: seq<Item>, at: seq<SectionRange>, parts: seq<seq<Event>>, k: nat)
    requires Housed(j.m.sections, items, at) && parts == Steps(j, items) && k < |parts| && BeginsWell(j, items, at, k)
    ensures RegionAfter(Regions(j, at)[k], parts[k]) == Regions(j, at)[k + 1]
  {
    var r, next := RegionsAround(j, at, k);
    StepRegion(j, items, at, k, r, parts[k]);
  }

  lemma StepsLead(j: Job, items: seq<Item>, at: seq<SectionRange>, parts: seq<seq<Event>>, n: nat)
    requires Housed(j.m.sections, items, at) && parts == Steps(j, items) && n <= |items| && WellUpTo(j, items, at, n)
    ensures Leads(Next, parts, Regions(j, at), n)
  {
    forall k | 0 <= k < n
      ensures RegionAfter(Regions(j, at)[k], parts[k]) == Regions(j, at)[k + 1]
    {
      StepLeads(j, items, at, parts, k);
    }
  }

  /** After the first n items a reader is in the section of the last of them. */
  lemma StepsRegion(j: Job, items: seq<Item>, at: seq<SectionRange>, parts: seq<seq<Event>>, n: nat)
    requires Housed(j.m.sections, items, at) && parts == Steps(j, items) && n <= |items| && WellUpTo(j, items, at, n)
    ensures RegionAfter(Outside, Concat(parts, n)) == RegionBefore(j, at, n)
  {
    StepsLead(j, items, at, parts, n);
    FoldParts(Next, parts, Regions(j, at), n);
    RegionAt(j, at, n);
  }

  lemma RegionAt(j: Job, at: seq<SectionRange>, n: nat)
    requires n <= |at|
    ensures Regions(j, at)[n] == RegionBefore(j, at, n) && Regions(j, at)[0] == Outside
  {
  }

  lemma LastFooter(j: Job, items: seq<Item>, at: seq<SectionRange>, last: nat)
    requires Housed(j.m.sections, items, at) && last == Cursor(items, |items|)
    ensures var r := RegionBefore(j, at, |items|);
      SectionFooterEvents(j, None, last) == if r.Inside? then [SectionFooter(r.section)] else []
  {
    var previous := SectionOfLast(j, items, at, last);
    FooterAfter(j, last, previous);
  }

  lemma SectionOfLast(j: Job, items: seq<Item>, at: seq<SectionRange>, last: nat) returns (s: Option<SectionRange>)
    requires Housed(j.m.sections, items, at) && last == Cursor(items, |items|)
    ensures s == if items == [] then None else Some(at[|items| - 1])
    ensures ContainerSection(j.m, Wrap(last - 1)) == s
  {
    SectionBeforeCursor(j, items, at, |items|);
    s := if items == [] then None else Some(at[|items| - 1]);
  }

  lemma FooterAfter(j: Job, last: nat, s: Option<SectionRange>)
    requires ContainerSection(j.m, Wrap(last - 1)) == s
    ensures SectionFooterEvents(j, None, last) ==
      if s.None? || Skipped(j, s.value) then [] else [SectionFooter(s.value)]
  {
  }

  lemma EndRegion(j: Job, items: seq<Item>, at: seq<SectionRange>)
    requires Housed(j.m.sections, items, at)
    ensures RegionAfter(RegionBefore(j, at, |items|), EndEvents(j, Cursor(items, |items|))) == Outside
  {
    var last := Cursor(items, |items|);
    LastFooter(j, items, at, last);
    LabelsThenFooter(j, RegionBefore(j, at, |items|), last);
  }

  /** The last labels do not matter. */
  lemma OnlyFooter(j: Job, r: Region, last: nat)
    ensures RegionAfter(r, EndEvents(j, last)) == RegionAfter(r, SectionFooterEvents(j, None, last))
  {
    var group := [LabelGroup(j.m, last)];
    assert AllInner(j.m, group);
    InnerKeepsRegion(j.m, r, group);
    FoldConcat(Next, r, group, SectionFooterEvents(j, None, last));
  }

  /** The last footer leaves what is open. */
  lemma LabelsThenFooter(j: Job, r: Region, last: nat)
    requires SectionFooterEvents(j, None, last) == if r.Inside? then [SectionFooter(r.section)] else []
    requires r != Broken
    ensures RegionAfter(r, EndEvents(j, last)) == Outside
  {
    OnlyFooter(j, r, last);
    if r.Inside? {
      FoldOne(Next, r, SectionFooter(r.section));
    }
  }

  lemma PrologueRegion(j: Job, dialect: Dialect)
    ensures RegionAfter(Outside, PrologueEvents(dialect)) == Outside
  {
    PrologueIsPlain(dialect);
    PlainIsInner(j.m, PrologueEvents(dialect));
    InnerKeepsRegion(j.m, Outside, PrologueEvents(dialect));
  }

  /**
   Headers and footers alternate over the whole run: no prefix of it has one out of turn, and every
   section that is entered is left again.
   */
  lemma SectionsAreBracketed(j: Job, dialect: Dialect, items: seq<Item>, at: seq<SectionRange>)
    requires WellSectioned(j, items, at)
    ensures var es := PrintEvents(j, dialect, items);
      RegionAfter(Outside, es) == Outside && NowhereBroken(es)
  {
    RunRegion(j, dialect, items, at);
    AlwaysInTurn(PrintEvents(j, dialect, items));
  }

  /** No header or footer is out of turn. */
  predicate NowhereBroken(es: seq<Event>) {
    forall n :: 0 <= n <= |es| ==> RegionAfter(Outside, es[..n]) != Broken
  }

  lemma AlwaysInTurn(es: seq<Event>)
    requires RegionAfter(Outside, es) != Broken
    ensures NowhereBroken(es)
  {
    forall n | 0 <= n <= |es|
      ensures RegionAfter(Outside, es[..n]) != Broken
    {
      NeverBroken(Outside, es, n);
    }
  }

  lemma RunRegion(j: Job, dialect: Dialect, items: seq<Item>, at: seq<SectionRange>)
    requires WellSectioned(j, items, at)
    ensures RegionAfter(Outside, PrintEvents(j, dialect, items)) == Outside
  {
    var steps, end := Concat(Steps(j, items), |items|), EndEvents(j, Cursor(items, |items|));
    PrologueRegion(j, dialect);
    StepsRegion(j, items, at, Steps(j, items), |items|);
    EndRegion(j, items, at);
    FoldConcat(Next, Outside, steps, end);
    FoldConcat(Next, Outside, PrologueEvents(dialect), steps + end);
  }

  // ---- the condition is exact ----

  lemma BrokenForGood(es: seq<Event>)
    ensures RegionAfter(Broken, es) == Broken
  {
    FoldKeeps(Next, Broken, es);
  }

  /** The first item that is not at the start of its section, although nothing of it was printed before. */
  lemma {:induction false} FirstBad(j: Job, items: seq<Item>, at: seq<SectionRange>, n: nat) returns (k: nat)
    requires n <= |items| == |at| && !WellUpTo(j, items, at, n)
    ensures k < n && WellUpTo(j, items, at, k) && !BeginsWell(j, items, at, k)
  {
    if WellUpTo(j, items, at, n - 1) {
      k := n - 1;
    } else {
      k := FirstBad(j, items, at, n - 1);
    }
  }

  /** Such an item gets no header. */
  lemma StepUnopened(j: Job, items: seq<Item>, at: seq<SectionRange>, k: nat, part: seq<Event>)
    requires Housed(j.m.sections, items, at) && k < |items| && part == Steps(j, items)[k]
    requires !BeginsWell(j, items, at, k)
    ensures RegionAfter(RegionBefore(j, at, k), part) == Outside
  {
    var a, last, r := items[k].Start(), Cursor(items, k), RegionBefore(j, at, k);
    FooterRegion(j, items, at, k, last);
    HeaderOfItem(j, items, at, k);
    StepBrackets(j, items, at, k, r, part);
    LeadBrackets(j, items, k, r, SectionFooterEvents(j, Some(a), last), []);
  }

  /** Nor do the items of its section behind it. */
  lemma StepStillUnopened(j: Job, items: seq<Item>, at: seq<SectionRange>, k: nat, part: seq<Event>)
    requires Housed(j.m.sections, items, at) && k < |items| && part == Steps(j, items)[k]
    requires SameSection(at, k)
    ensures RegionAfter(Outside, part) == Outside
  {
    FooterOfItem(j, items, at, k, Cursor(items, k));
    HeaderOfItem(j, items, at, k);
    StepBrackets(j, items, at, k, Outside, part);
    LeadBrackets(j, items, k, Outside, [], []);
  }

  /** Where a reader is before each item, if no header comes from item k on. */
  function UnopenedRegions(j: Job, at: seq<SectionRange>, k: nat): (r: seq<Region>)
    ensures |r| == |at| + 1
  {
    seq(|at| + 1, n requires 0 <= n <= |at| => if n <= k then RegionBefore(j, at, n) else Outside)
  }

  lemma UnopenedAround(j: Job, at: seq<SectionRange>, k: nat, n: nat) returns (r: Region, next: Region)
    requires n < |at|
    ensures r == UnopenedRegions(j, at, k)[n] == if n <= k then RegionBefore(j, at, n) else Outside
    ensures next == UnopenedRegions(j, at, k)[n + 1] == if n < k then RegionOf(j, at[n]) else Outside
  {
    r, next := UnopenedRegions(j, at, k)[n], UnopenedRegions(j, at, k)[n + 1];
  }

  lemma UnopenedLeads(j: Job, items: seq<Item>, at: seq<SectionRange>, parts: seq<seq<Event>>, k: nat, n: nat)
    requires Housed(j.m.sections, items, at) && parts == Steps(j, items) && k < |items| && n < |items|
    requires WellUpTo(j, items, at, k) && !BeginsWell(j, items, at, k) && (n > k ==> SameSection(at, n))
    ensures RegionAfter(UnopenedRegions(j, at, k)[n], parts[n]) == UnopenedRegions(j, at, k)[n + 1]
  {
    var r, next := UnopenedAround(j, at, k, n);
    if n < k {
      StepRegion(j, items, at, n, r, parts[n]);
    } else if n == k {
      StepUnopened(j, items, at, n, parts[n]);
    } else {
      StepStillUnopened(j, items, at, n, parts[n]);
    }
  }

  lemma Unopened(j: Job, items: seq<Item>, at: seq<SectionRange>, parts: seq<seq<Event>>, k: nat, n: nat)
    requires Housed(j.m.sections, items, at) && parts == Steps(j, items) && k < n <= |items|
    requires WellUpTo(j, items, at, k) && !BeginsWell(j, items, at, k)
    requires forall i :: k <= i < n ==> at[i] == at[k]
    ensures RegionAfter(Outside, Concat(parts, n)) == Outside
  {
    var regions := UnopenedRegions(j, at, k);
    assert Leads(Next, parts, regions, n) by {
      forall i | 0 <= i < n
        ensures Fold(Next, regions[i], parts[i]) == regions[i + 1]
      {
        UnopenedLeads(j, items, at, parts, k, i);
      }
    }
    FoldParts(Next, parts, regions, n);
    var first, _ := UnopenedAround(j, at, k, 0);
    var _, last := UnopenedAround(j, at, k, n - 1);
  }

  lemma FooterBreaks(s: SectionRange)
    ensures RegionAfter(Outside, [SectionFooter(s)]) == Broken
  {
    FoldOne(Next, Outside, SectionFooter(s));
  }

  /** Where the section of such an item is left, its footer is out of turn. */
  lemma StepBreaks(j: Job, items: seq<Item>, at: seq<SectionRange>, n: nat, part: seq<Event>)
    requires Housed(j.m.sections, items, at) && 0 < n < |items| && part == Steps(j, items)[n]
    requires at[n - 1] != at[n] && !Skipped(j, at[n - 1])
    ensures RegionAfter(Outside, part) == Broken
  {
    var a, last := items[n].Start(), Cursor(items, n);
    FooterOfItem(j, items, at, n, last);
    FooterBreaks(at[n - 1]);
    BrokenForGood(SectionHeaderEvents(j, a));
    StepBrackets(j, items, at, n, Outside, part);
    LeadBrackets(j, items, n, Outside, SectionFooterEvents(j, Some(a), last), SectionHeaderEvents(j, a));
  }

  lemma EndBreaks(j: Job, items: seq<Item>, at: seq<SectionRange>, last: nat)
    requires Housed(j.m.sections, items, at) && items != [] && last == Cursor(items, |items|)
    requires !Skipped(j, at[|items| - 1])
    ensures RegionAfter(Outside, EndEvents(j, last)) == Broken
  {
    LastFooter(j, items, at, last);
    OnlyFooter(j, Outside, last);
    FooterBreaks(at[|items| - 1]);
  }

  /** The last item of the section of item k. */
  lemma SectionLeft(items: seq<Item>, at: seq<SectionRange>, k: nat, n: nat) returns (l: nat)
    requires k < n <= |items| == |at| && forall i :: k <= i < n ==> at[i] == at[k]
    ensures n <= l <= |items| && (forall i :: k <= i < l ==> at[i] == at[k])
    ensures l == |items| || at[l] != at[l - 1]
    decreases |items| - n
  {
    if n == |items| || at[n] != at[k] {
      l := n;
    } else {
      l := SectionLeft(items, at, k, n + 1);
    }
  }

  lemma StaysBroken(a: seq<Event>, b: seq<Event>, c: seq<Event>, d: seq<Event>)
    requires RegionAfter(Outside, a) == Outside && RegionAfter(Outside, b) == Broken
    ensures RegionAfter(Outside, a + (b + c) + d) == Broken
  {
    BrokenForGood(c);
    BrokenForGood(d);
    FoldConcat(Next, Outside, a, b + c);
    FoldConcat(Next, Outside, b, c);
    FoldConcat(Next, Outside, a + (b + c), d);
  }

  lemma PrologueFirst(j: Job, dialect: Dialect, run: seq<Event>)
    requires RegionAfter(Outside, run) == Broken
    ensures RegionAfter(Outside, PrologueEvents(dialect) + run) == Broken
  {
    PrologueRegion(j, dialect);
    FoldConcat(Next, Outside, PrologueEvents(dialect), run);
  }

  /** Item k begins its section elsewhere than at its start; the section lasts up to item l. */
  predicate BadUpTo(j: Job, items: seq<Item>, at: seq<SectionRange>, k: nat, l: nat) {
    && k < l <= |items| == |at|
    && WellUpTo(j, items, at, k) && !BeginsWell(j, items, at, k)
    && forall i :: k <= i < l ==> at[i] == at[k]
  }

  /** The section of item k is left at item l, where its footer is printed. */
  lemma BreaksBefore(j: Job, dialect: Dialect, items: seq<Item>, at: seq<SectionRange>, k: nat, l: nat)
    requires Housed(j.m.sections, items, at) && BadUpTo(j, items, at, k, l) && l < |items| && at[l - 1] != at[l]
    ensures RegionAfter(Outside, PrintEvents(j, dialect, items)) == Broken
  {
    var parts, end := Steps(j, items), EndEvents(j, Cursor(items, |items|));
    var rest := ConcatSplits(parts, l, |items|);
    Unopened(j, items, at, parts, k, l);
    StepBreaks(j, items, at, l, parts[l]);
    StaysBroken(Concat(parts, l), parts[l], rest, end);
    PrologueFirst(j, dialect, Concat(parts, |items|) + end);
  }

  /** The section of item k lasts to the end of the run, where its footer is printed. */
  lemma BreaksAtEnd(j: Job, dialect: Dialect, items: seq<Item>, at: seq<SectionRange>, k: nat)
    requires Housed(j.m.sections, items, at) && BadUpTo(j, items, at, k, |items|)
    ensures RegionAfter(Outside, PrintEvents(j, dialect, items)) == Broken
  {
    var parts, last := Steps(j, items), Cursor(items, |items|);
    Unopened(j, items, at, parts, k, |items|);
    EndBreaks(j, items, at, last);
    FoldConcat(Next, Outside, Concat(parts, |items|), EndEvents(j, last));
    PrologueFirst(j, dialect, Concat(parts, |items|) + EndEvents(j, last));
  }

  /** Sections are bracketed exactly when the first item of each one that is not skipped is at its start. */
  lemma BracketedExactly(j: Job, dialect: Dialect, items: seq<Item>, at: seq<SectionRange>)
    requires Housed(j.m.sections, items, at)
    ensures RegionAfter(Outside, PrintEvents(j, dialect, items)) == Outside <==> WellSectioned(j, items, at)
  {
    if WellSectioned(j, items, at) {
      RunRegion(j, dialect, items, at);
    } else {
      var k := FirstBad(j, items, at, |items|);
      var l := SectionLeft(items, at, k, k + 1);
      if l == |items| {
        BreaksAtEnd(j, dialect, items, at, k);
      } else {
        BreaksBefore(j, dialect, items, at, k, l);
      }
    }
  }

  // ---- each item in its section ----

  /** What is printed before item k and after it. */
  lemma RunAround(j: Job, dialect: Dialect, items: seq<Item>, at: seq<SectionRange>, k: nat)
      returns (before: seq<Event>, after: seq<Event>)
    requires Housed(j.m.sections, items, at) && k < |items|
    ensures before == PrologueEvents(dialect) + (Concat(Steps(j, items), k) + Lead(j, items, k))
    ensures PrintEvents(j, dialect, items) == before + ItemEvents(j, items[k]) + after
  {
    var parts, prologue, end := Steps(j, items), PrologueEvents(dialect), EndEvents(j, Cursor(items, |items|));
    var rest := ConcatSplits(parts, k, |items|);
    HousedEndsInSpace(j.m.sections, items, at);
    CursorOfSeparate(items, k);
    LeadThenItem(j, items, k);
    before, after := prologue + (Concat(parts, k) + Lead(j, items, k)), rest + end;
    Arrange(prologue, Concat(parts, k), Lead(j, items, k), ItemEvents(j, items[k]), rest, end);
  }

  /** Each item is printed while its own section is open, or between sections if its own is skipped. */
  lemma PrintedInItsSection(j: Job, dialect: Dialect, items: seq<Item>, at: seq<SectionRange>, k: nat)
      returns (before: seq<Event>, after: seq<Event>)
    requires WellSectioned(j, items, at) && k < |items|
    ensures PrintEvents(j, dialect, items) == before + ItemEvents(j, items[k]) + after
    ensures RegionAfter(Outside, before) == RegionOf(j, at[k])
  {
    var parts, prologue := Steps(j, items), PrologueEvents(dialect);
    before, after := RunAround(j, dialect, items, at, k);
    PrologueRegion(j, dialect);
    StepsRegion(j, items, at, parts, k);
    LeadRegion(j, items, at, k);
    FoldConcat(Next, Outside, prologue, Concat(parts, k) + Lead(j, items, k));
    FoldConcat(Next, Outside, Concat(parts, k), Lead(j, items, k));
  }

  lemma Arrange<T>(a: seq<T>, b: seq<T>, c: seq<T>, d: seq<T>, e: seq<T>, f: seq<T>)
    ensures a + ((b + ((c + d) + e)) + f) == (a + (b + c)) + d + (e + f)
  {
  }
}
