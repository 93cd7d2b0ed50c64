/** Exactly when labels are at strictly increasing addresses. */
module LabelOrder {
  import opened Common
  import opened Program
  import opened Events
  import opened Greedy
  import opened Labels
  import opened References

  lemma Twice(a: seq<Event>, b: seq<Event>, c: seq<Event>, e: Event, lo: nat, hi: nat)
    requires e in b && e in c && e.Labels?
    ensures !LabelsAscend(a + (b + c), lo, hi)
  {
    var es := a + (b + c);
    var k :| 0 <= k < |b| && b[k] == e;
    var l :| 0 <= l < |c| && c[l] == e;
    assert es[|a| + k] == e && es[|a| + |b| + l] == e;
  }

  /** The same labels in two parts, or in a part and at the end. */
  lemma TwiceInParts(before: seq<Event>, parts: seq<seq<Event>>, k: nat, l: nat, end: seq<Event>, e: Event, hi: nat)
    requires k < l <= |parts| && e in parts[k] && e.Labels?
    requires if l < |parts| then e in parts[l] else e in end
    ensures !LabelsAscend(before + (Concat(parts, |parts|) + end), 0, hi)
  {
    var tail: seq<Event> := [];
    if l < |parts| {
      var rest := ConcatSplits(parts, l, |parts|);
      tail := parts[l] + rest;
    } else {
      Empty(Concat(parts, l));
    }
    var between := ConcatSplits(parts, k, l);
    assert e in tail + end && e in parts[k] + between;
    Twice(before + Concat(parts, k), parts[k] + between, tail + end, e, 0, hi);
    Regroup(before, Concat(parts, k), parts[k] + between, tail, end);
  }

  lemma Regroup<T>(a: seq<T>, b: seq<T>, c: seq<T>, d: seq<T>, e: seq<T>)
    ensures a + (((b + c) + d) + e) == (a + b) + (c + (d + e))
  {
  }

  /** The next item that is printed, or the end; the cursor stays where it is until then. */
  lemma NextPrinted(items: seq<Item>, k: nat) returns (l: nat)
    requires k <= |items|
    ensures k <= l <= |items| && Cursor(items, l) == Cursor(items, k)
    ensures l < |items| ==> IsPrinted(items, l)
    decreases |items| - k
  {
    if k == |items| || IsPrinted(items, k) {
      l := k;
    } else {
      l := NextPrinted(items, k + 1);
    }
  }

  /** Code blocks have instructions. */
  predicate AllHaveInsns(items: seq<Item>) {
    forall k :: 0 <= k < |items| && items[k].Code? ==> items[k].block.insns != []
  }

  lemma FirstInsnAtStart(b: CodeBlock)
    requires b.address < ADDRESS_SPACE && b.insns != []
    ensures InsnAddress(b, 0) == b.address
  {
  }

  /** Whatever is printed next is a place of the labels at the cursor: before a gap, or at its own start. */
  lemma PlaceAtCursor(j: Job, items: seq<Item>, l: nat, a: nat)
    requires l < |items| && IsPrinted(items, l) && a == Cursor(items, l) && AllFit(items) && AllHaveInsns(items)
    requires !SkipEA(j, a)
    ensures StepPlace(j, items, l, a)
  {
    assert ItemFits(items[l]);
    if items[l].Start() == a && items[l].Code? {
      FirstInsnAtStart(items[l].block);
    }
  }

  /** Empty data leaves the cursor where its own labels are. */
  lemma StallStays(j: Job, items: seq<Item>, k: nat) returns (a: nat)
    requires k < |items| && Stalls(j, items[k], Cursor(items, k)) && AllFit(items)
    ensures StepPlace(j, items, k, a) && a == Cursor(items, k + 1) && !SkipEA(j, a)
  {
    a := items[k].Start();
    assert ItemFits(items[k]);
  }

  /** The labels at empty data have a second place. */
  lemma StallHasTwoPlaces(j: Job, items: seq<Item>, k: nat) returns (l: nat, a: nat)
    requires AllFit(items) && AllHaveInsns(items)
    requires k < |items| && Stalls(j, items[k], Cursor(items, k))
    ensures k < l <= |items| && StepPlace(j, items, k, a)
    ensures if l < |items| then StepPlace(j, items, l, a) else a == Cursor(items, l)
  {
    a := StallStays(j, items, k);
    l := NextPrinted(items, k + 1);
    if l < |items| {
      PlaceAtCursor(j, items, l, a);
    }
  }

  lemma EndHasLabels(j: Job, last: nat)
    ensures LabelGroup(j.m, last) in EndEvents(j, last)
  {
    assert EndEvents(j, last)[0] == LabelGroup(j.m, last);
  }

  /** Labels with two places are printed twice. */
  lemma PlacedTwice(j: Job, dialect: Dialect, items: seq<Item>, k: nat, l: nat, a: nat, parts: seq<seq<Event>>)
    requires k < l <= |items| && StepPlace(j, items, k, a) && parts == Steps(j, items)
    requires if l < |items| then StepPlace(j, items, l, a) else a == Cursor(items, l)
    ensures !LabelsAscend(PrintEvents(j, dialect, items), 0, ADDRESS_SPACE)
  {
    var end := EndEvents(j, Cursor(items, |items|));
    GroupOfStep(j, items, k, a);
    SecondGroup(j, items, l, a, parts, end);
    TwiceInParts(PrologueEvents(dialect), parts, k, l, end, LabelGroup(j.m, a), ADDRESS_SPACE);
  }

  lemma SecondGroup(j: Job, items: seq<Item>, l: nat, a: nat, parts: seq<seq<Event>>, end: seq<Event>)
    requires l <= |items| && parts == Steps(j, items) && end == EndEvents(j, Cursor(items, |items|))
    requires if l < |items| then StepPlace(j, items, l, a) else a == Cursor(items, l)
    ensures LabelGroup(j.m, a) in if l < |items| then parts[l] else end
  {
    if l < |items| {
      GroupOfStep(j, items, l, a);
    } else {
      EndHasLabels(j, a);
    }
  }

  /**
   For items that end in the address space and code blocks with instructions, label groups are at
   strictly increasing addresses if and only if no empty data block is printed.
   */
  lemma LabelsIncreaseExactly(j: Job, dialect: Dialect, items: seq<Item>)
    requires AllFit(items) && AllHaveInsns(items)
    ensures LabelsAscend(PrintEvents(j, dialect, items), 0, ADDRESS_SPACE) <==> NoneStalls(j, items)
  {
    if NoneStalls(j, items) {
      LabelsIncrease(j, dialect, items);
    } else {
      var k :| 0 <= k < |items| && Stalls(j, items[k], Cursor(items, k));
      var l, a := StallHasTwoPlaces(j, items, k);
      PlacedTwice(j, dialect, items, k, l, a, Steps(j, items));
    }
  }
}
