/** Comments and CFI directives of a block: each is printed once, where it belongs. */
module Annotations {
  import opened Common
  import opened Folds
  import opened Program
  import opened Events
  import opened Greedy
  import opened Labels
  import opened References
  import opened PrintedReferences
  import opened Bracketing
  import opened LocationCounter

  // ---- reading comments ----

  function TakeComment(taken: seq<Event>, e: Event): seq<Event> {
    if e.Comment? then taken + [e] else taken
  }

  /** The comments among the events, in order. */
  function CommentsOf(es: seq<Event>): seq<Event> {
    Fold(TakeComment, [], es)
  }

  lemma {:induction false} AllTaken(taken: seq<Event>, es: seq<Event>)
    requires forall e :: e in es ==> e.Comment?
    ensures Fold(TakeComment, taken, es) == taken + es
  {
    if es != [] {
      var init, last := es[..|es| - 1], es[|es| - 1];
      AllTaken(taken, init);
      assert es == init + [last] && last in es;
    }
  }

  /** The start of the instruction, among the first n, around a displacement. */
  function InsnAround(insns: seq<Insn>, n: nat, x: nat): nat
    requires n <= |insns|
  {
    if n == 0 then 0
    else if SizeUpTo(insns, n - 1) <= x then SizeUpTo(insns, n - 1)
    else InsnAround(insns, n - 1, x)
  }

  /** A comment on the first n instructions of the block, as a distance from the instruction around it. */
  function Expected(comment: (Offset, string), b: CodeBlock, n: nat): seq<Event>
    requires n <= |b.insns|
  {
    if InRange(comment.0, b.id, 0, SizeUpTo(b.insns, n)) then
      [Comment(comment.0, CommentText(comment.0, InsnAround(b.insns, n, comment.0.displacement), comment.1))]
    else []
  }

  /** Every comment on the first n instructions, once and in order; no other. */
  function AllExpected(comments: seq<(Offset, string)>, b: CodeBlock, n: nat): seq<Event>
    requires n <= |b.insns|
  {
    if comments == [] then [] else Expected(comments[0], b, n) + AllExpected(comments[1..], b, n)
  }

  lemma {:induction false} NoneExpected(comments: seq<(Offset, string)>, b: CodeBlock, n: nat)
    requires n <= |b.insns|
    requires forall c :: c in comments ==> !InRange(c.0, b.id, 0, SizeUpTo(b.insns, n))
    ensures AllExpected(comments, b, n) == []
  {
    if comments != [] {
      NoneExpected(comments[1..], b, n);
    }
  }

  lemma SortedTail(comments: seq<(Offset, string)>)
    requires CommentsSorted(comments) && comments != []
    ensures CommentsSorted(comments[1..])
    ensures forall c :: c in comments[1..] ==> OffsetLess(comments[0].0, c.0)
  {
  }

  /** One more instruction has its own comments, after those of the instructions before it. */
  lemma {:induction false} NextExpected(comments: seq<(Offset, string)>, b: CodeBlock, n: nat)
    requires CommentsSorted(comments) && n < |b.insns|
    ensures AllExpected(comments, b, n + 1) ==
      AllExpected(comments, b, n) + CommentsIn(comments, b.id, SizeUpTo(b.insns, n), SizeUpTo(b.insns, n + 1))
  {
    if comments != [] {
      var first, rest := comments[0], comments[1..];
      SortedTail(comments);
      NextExpected(rest, b, n);
      if InRange(first.0, b.id, SizeUpTo(b.insns, n), SizeUpTo(b.insns, n + 1)) {
        NoneExpected(rest, b, n);
      }
      FirstExpected(first, b, n);
      Associate(Expected(first, b, n), AllExpected(rest, b, n),
        CommentsIn(rest, b.id, SizeUpTo(b.insns, n), SizeUpTo(b.insns, n + 1)));
    }
  }

  lemma FirstExpected(c: (Offset, string), b: CodeBlock, n: nat)
    requires n < |b.insns|
    ensures !InRange(c.0, b.id, SizeUpTo(b.insns, n), SizeUpTo(b.insns, n + 1)) ==>
      Expected(c, b, n + 1) == Expected(c, b, n)
    ensures InRange(c.0, b.id, SizeUpTo(b.insns, n), SizeUpTo(b.insns, n + 1)) ==>
      Expected(c, b, n) == [] && Expected(c, b, n + 1) == [Comment(c.0, CommentText(c.0, SizeUpTo(b.insns, n), c.1))]
  {
  }

  /** A comment is expected exactly when it is on one of the first n instructions. */
  lemma {:induction false} ExpectedExactly(comments: seq<(Offset, string)>, b: CodeBlock, n: nat, k: nat)
    requires CommentsSorted(comments) && n <= |b.insns| && k < |comments|
    ensures (exists e :: e in AllExpected(comments, b, n) && e.Comment? && e.at == comments[k].0) <==>
      InRange(comments[k].0, b.id, 0, SizeUpTo(b.insns, n))
    decreases k
  {
    var rest := AllExpected(comments[1..], b, n);
    SortedTail(comments);
    ExpectedFromComments(comments[1..], b, n);
    if k > 0 {
      ExpectedExactly(comments[1..], b, n, k - 1);
      assert comments[k] == comments[1..][k - 1] && comments[0].0 != comments[k].0;
      if e :| e in rest && e.Comment? && e.at == comments[k].0 {
        assert e in AllExpected(comments, b, n);
      }
    } else {
      forall e | e in rest
        ensures e.at != comments[0].0
      {
        var c :| c in comments[1..] && c.0 == e.at;
      }
      if InRange(comments[0].0, b.id, 0, SizeUpTo(b.insns, n)) {
        assert AllExpected(comments, b, n)[0].at == comments[0].0;
      }
    }
  }

  lemma {:induction false} ExpectedFromComments(comments: seq<(Offset, string)>, b: CodeBlock, n: nat)
    requires n <= |b.insns|
    ensures forall e :: e in AllExpected(comments, b, n) ==> e.Comment? && exists c :: c in comments && c.0 == e.at
  {
    if comments != [] {
      ExpectedFromComments(comments[1..], b, n);
      forall e | e in AllExpected(comments, b, n)
        ensures e.Comment? && exists c :: c in comments && c.0 == e.at
      {
        if e in AllExpected(comments[1..], b, n) {
          var c :| c in comments[1..] && c.0 == e.at;
          assert c in comments;
        } else {
          assert e.at == comments[0].0;
        }
      }
    }
  }

  predicate OffsetsAscend(es: seq<Event>) {
    && (forall e :: e in es ==> e.Comment?)
    && (forall p, q :: 0 <= p < q < |es| ==> OffsetLess(es[p].at, es[q].at))
  }

  /** Expected comments are in order; none is expected twice. */
  lemma {:induction false} ExpectedAscend(comments: seq<(Offset, string)>, b: CodeBlock, n: nat)
    requires CommentsSorted(comments) && n <= |b.insns|
    ensures OffsetsAscend(AllExpected(comments, b, n))
  {
    if comments != [] {
      var rest := AllExpected(comments[1..], b, n);
      SortedTail(comments);
      ExpectedAscend(comments[1..], b, n);
      ExpectedFromComments(comments[1..], b, n);
      forall q | 0 <= q < |rest|
        ensures OffsetLess(comments[0].0, rest[q].at)
      {
        assert rest[q] in rest;
        var c :| c in comments[1..] && c.0 == rest[q].at;
      }
    }
  }

  // ---- the comments of a block ----

  lemma NoComments(taken: seq<Event>, es: seq<Event>)
    requires forall e :: e in es ==> !e.Comment?
    ensures Fold(TakeComment, taken, es) == taken
  {
    FoldKeeps(TakeComment, taken, es);
  }

  lemma BlockHeaderHasNoAnnotation(m: Module, a: nat)
    ensures forall e :: e in BlockHeaderEvents(m, a) ==> !e.Comment? && !e.Cfi?
  {
  }

  lemma InsnComments(j: Job, insn: Insn, ea: nat, o: Offset, taken: seq<Event>)
    requires j.policy.debug
    ensures Fold(TakeComment, taken, InsnEvents(j, insn, ea, o)) ==
      taken + CommentsIn(j.m.comments, o.element, o.displacement, o.displacement + insn.size)
  {
    var group, comments := [LabelGroup(j.m, ea)], CommentEvents(j, o.element, o.displacement, insn.size);
    var cfi, body := CfiEvents(j, o), BodyEvents(j, insn, ea);
    NoComments(taken, group);
    CommentEventsArePlain(j, o.element, o.displacement, insn.size);
    AllTaken(taken, comments);
    CfiIsPlain(j, o);
    BodyIsPlain(j, insn, ea);
    NoComments(taken + comments, cfi + body);
    FoldConcat(TakeComment, taken, group, comments + (cfi + body));
    FoldConcat(TakeComment, taken, comments, cfi + body);
  }

  function ExpectedUpTo(j: Job, b: CodeBlock): (r: seq<seq<Event>>)
    ensures |r| == |b.insns| + 1
  {
    seq(|b.insns| + 1, n requires 0 <= n <= |b.insns| => AllExpected(j.m.comments, b, n))
  }

  lemma ExpectedAround(j: Job, b: CodeBlock, n: nat) returns (r: seq<Event>, next: seq<Event>)
    requires n < |b.insns|
    ensures r == ExpectedUpTo(j, b)[n] == AllExpected(j.m.comments, b, n)
    ensures next == ExpectedUpTo(j, b)[n + 1] == AllExpected(j.m.comments, b, n + 1)
  {
    r, next := AllExpected(j.m.comments, b, n), AllExpected(j.m.comments, b, n + 1);
  }

  lemma InsnPartComments(j: Job, b: CodeBlock, n: nat, taken: seq<Event>)
    requires j.policy.debug && n < |b.insns|
    ensures Fold(TakeComment, taken, InsnPart(j, b, n)) ==
      taken + CommentsIn(j.m.comments, b.id, SizeUpTo(b.insns, n), SizeUpTo(b.insns, n + 1))
  {
    InsnComments(j, Fixup(b.insns[n]), InsnAddress(b, n), InsnOffset(b, n), taken);
  }

  lemma InsnPartExpected(j: Job, b: CodeBlock, n: nat)
    requires j.policy.debug && CommentsSorted(j.m.comments) && n < |b.insns|
    ensures Fold(TakeComment, ExpectedUpTo(j, b)[n], InsnParts(j, b)[n]) == ExpectedUpTo(j, b)[n + 1]
  {
    var taken, next := ExpectedAround(j, b, n);
    NextExpected(j.m.comments, b, n);
    InsnPartComments(j, b, n, taken);
  }

  lemma InsnsComments(j: Job, b: CodeBlock)
    requires j.policy.debug && CommentsSorted(j.m.comments)
    ensures CommentsOf(Concat(InsnParts(j, b), |b.insns|)) == AllExpected(j.m.comments, b, |b.insns|)
  {
    var parts, states, n := InsnParts(j, b), ExpectedUpTo(j, b), |b.insns|;
    assert Leads(TakeComment, parts, states, n) by {
      forall k | 0 <= k < n
        ensures Fold(TakeComment, states[k], parts[k]) == states[k + 1]
      {
        InsnPartExpected(j, b, k);
      }
    }
    FoldParts(TakeComment, parts, states, n);
    NoneExpected(j.m.comments, b, 0);
  }

  /**
   In debug mode each comment on a disassembled block is printed exactly once, in the order of the
   displacements and next to its instruction; comments on anything else are not printed with it.
   */
  lemma CommentsArePrintedOnce(j: Job, b: CodeBlock)
    requires j.policy.debug && CommentsSorted(j.m.comments)
    ensures CommentsOf(BlockEvents(j, b)) == AllExpected(j.m.comments, b, |b.insns|)
  {
    var header, insns, cfi :=
      BlockHeaderEvents(j.m, b.address), Concat(InsnParts(j, b), |b.insns|), CfiEvents(j, InsnOffset(b, |b.insns|));
    BlockHeaderHasNoAnnotation(j.m, b.address);
    NoComments([], header);
    InsnsComments(j, b);
    CfiIsPlain(j, InsnOffset(b, |b.insns|));
    NoComments(CommentsOf(insns), cfi);
    FoldConcat(TakeComment, [], header, insns + cfi);
    FoldConcat(TakeComment, [], insns, cfi);
  }

  // ---- reading CFI directives ----

  /** The CFI directives found at an offset. */
  datatype Found = Found(at: Offset, lines: seq<Event>)

  function TakeCfi(f: Found, e: Event): Found {
    if e.Cfi? && e.at == f.at then f.(lines := f.lines + [e]) else f
  }

  function CfiAt(es: seq<Event>, o: Offset): seq<Event> {
    Fold(TakeCfi, Found(o, []), es).lines
  }

  lemma NoCfi(f: Found, es: seq<Event>)
    requires forall e :: e in es ==> !(e.Cfi? && e.at == f.at)
    ensures Fold(TakeCfi, f, es) == f
  {
    FoldKeeps(TakeCfi, f, es);
  }

  lemma {:induction false} AllCfiTaken(f: Found, es: seq<Event>)
    requires forall e :: e in es ==> e.Cfi? && e.at == f.at
    ensures Fold(TakeCfi, f, es) == f.(lines := f.lines + es)
  {
    if es != [] {
      var init, last := es[..|es| - 1], es[|es| - 1];
      AllCfiTaken(f, init);
      assert es == init + [last] && last in es;
    }
  }

  lemma {:induction false} CfiLinesAreAt(j: Job, o: Offset, ds: seq<CfiDirective>)
    ensures forall e :: e in CfiLines(j, o, ds) ==> e.Cfi? && e.at == o
  {
    if ds != [] {
      CfiLinesAreAt(j, o, ds[..|ds| - 1]);
    }
  }

  lemma CfiEventsTaken(j: Job, o: Offset, f: Found)
    ensures Fold(TakeCfi, f, CfiEvents(j, o)) == if o == f.at then f.(lines := f.lines + CfiEvents(j, o)) else f
  {
    if j.m.cfi.Some? && o in j.m.cfi.value {
      CfiLinesAreAt(j, o, j.m.cfi.value[o]);
    }
    if o == f.at {
      AllCfiTaken(f, CfiEvents(j, o));
    } else {
      NoCfi(f, CfiEvents(j, o));
    }
  }

  // ---- the CFI directives of a block ----

  /** The offset is one of the first n instruction boundaries of the block. */
  predicate IsBoundary(b: CodeBlock, n: nat, o: Offset) {
    exists k :: 0 <= k < n && k <= |b.insns| && o == InsnOffset(b, k)
  }

  lemma BoundariesDiffer(b: CodeBlock, k: nat, n: nat)
    requires SizesPositive(b) && k < n <= |b.insns|
    ensures InsnOffset(b, k) != InsnOffset(b, n)
  {
    SizeUpToGrows(b.insns, k, n - 1);
  }

  function Directives(j: Job, b: CodeBlock, n: nat, o: Offset): Found {
    Found(o, if IsBoundary(b, n, o) then CfiEvents(j, o) else [])
  }

  lemma NewBoundary(b: CodeBlock, n: nat, o: Offset)
    requires SizesPositive(b) && n <= |b.insns|
    ensures IsBoundary(b, n + 1, o) <==> IsBoundary(b, n, o) || o == InsnOffset(b, n)
    ensures !(IsBoundary(b, n, o) && o == InsnOffset(b, n))
  {
    if o == InsnOffset(b, n) {
      forall k | 0 <= k < n
        ensures o != InsnOffset(b, k)
      {
        BoundariesDiffer(b, k, n);
      }
    }
  }

  /** The directives at one more boundary. */
  lemma NextDirectives(j: Job, b: CodeBlock, n: nat, o: Offset)
    requires SizesPositive(b) && n <= |b.insns|
    ensures Fold(TakeCfi, Directives(j, b, n, o), CfiEvents(j, InsnOffset(b, n))) == Directives(j, b, n + 1, o)
  {
    CfiEventsTaken(j, InsnOffset(b, n), Directives(j, b, n, o));
    NewBoundary(b, n, o);
    Empty(CfiEvents(j, o));
  }

  lemma InsnCfi(j: Job, insn: Insn, ea: nat, at: Offset, f: Found)
    ensures Fold(TakeCfi, f, InsnEvents(j, insn, ea, at)) == Fold(TakeCfi, f, CfiEvents(j, at))
  {
    var group, comments := [LabelGroup(j.m, ea)], CommentEvents(j, at.element, at.displacement, insn.size);
    var cfi, body := CfiEvents(j, at), BodyEvents(j, insn, ea);
    NoCfi(f, group);
    CommentEventsArePlain(j, at.element, at.displacement, insn.size);
    NoCfi(f, comments);
    BodyIsPlain(j, insn, ea);
    NoCfi(Fold(TakeCfi, f, cfi), body);
    FoldConcat(TakeCfi, f, group, comments + (cfi + body));
    FoldConcat(TakeCfi, f, comments, cfi + body);
    FoldConcat(TakeCfi, f, cfi, body);
  }

  function DirectivesUpTo(j: Job, b: CodeBlock, o: Offset): (r: seq<Found>)
    ensures |r| == |b.insns| + 1
  {
    seq(|b.insns| + 1, n requires 0 <= n <= |b.insns| => Directives(j, b, n, o))
  }

  lemma InsnPartCfi(j: Job, b: CodeBlock, n: nat, o: Offset)
    requires SizesPositive(b) && n < |b.insns|
    ensures Fold(TakeCfi, DirectivesUpTo(j, b, o)[n], InsnParts(j, b)[n]) == DirectivesUpTo(j, b, o)[n + 1]
  {
    InsnCfi(j, Fixup(b.insns[n]), InsnAddress(b, n), InsnOffset(b, n), Directives(j, b, n, o));
    NextDirectives(j, b, n, o);
  }

  lemma InsnsCfi(j: Job, b: CodeBlock, o: Offset)
    requires SizesPositive(b)
    ensures Fold(TakeCfi, Found(o, []), Concat(InsnParts(j, b), |b.insns|)) == Directives(j, b, |b.insns|, o)
  {
    var parts, states, n := InsnParts(j, b), DirectivesUpTo(j, b, o), |b.insns|;
    assert Leads(TakeCfi, parts, states, n) by {
      forall k | 0 <= k < n
        ensures Fold(TakeCfi, states[k], parts[k]) == states[k + 1]
      {
        InsnPartCfi(j, b, k, o);
      }
    }
    FoldParts(TakeCfi, parts, states, n);
  }

  /**
   The directives at an offset are printed with a block exactly once, all of them and in order, if
   the offset is an instruction boundary of the block or its end, and not at all otherwise.
   */
  lemma CfiIsPrintedOnce(j: Job, b: CodeBlock, o: Offset)
    requires SizesPositive(b) && !SkipEA(j, b.address)
    ensures CfiAt(BlockEvents(j, b), o) == if IsBoundary(b, |b.insns| + 1, o) then CfiEvents(j, o) else []
  {
    var header, insns, cfi :=
      BlockHeaderEvents(j.m, b.address), Concat(InsnParts(j, b), |b.insns|), CfiEvents(j, InsnOffset(b, |b.insns|));
    BlockHeaderHasNoAnnotation(j.m, b.address);
    NoCfi(Found(o, []), header);
    InsnsCfi(j, b, o);
    NextDirectives(j, b, |b.insns|, o);
    FoldConcat(TakeCfi, Found(o, []), header, insns + cfi);
    FoldConcat(TakeCfi, Found(o, []), insns, cfi);
  }

  // ---- the CFI directives of a run ----

  function IdOf(item: Item): Identifier {
    match item
    case Code(b) => b.id
    case Data(d) => d.id
  }

  predicate DistinctIds(items: seq<Item>) {
    forall k, l :: 0 <= k < l < |items| ==> IdOf(items[k]) != IdOf(items[l])
  }

  predicate AllSizesPositive(items: seq<Item>) {
    forall k :: 0 <= k < |items| && items[k].Code? ==> SizesPositive(items[k].block)
  }

  /** The offset is an instruction boundary, or the end, of a block that is printed in step k. */
  predicate PrintsBoundary(j: Job, items: seq<Item>, k: nat, o: Offset)
    requires k < |items|
  {
    && IsPrinted(items, k) && items[k].Code? && !SkipEA(j, items[k].Start())
    && IsBoundary(items[k].block, |items[k].block.insns| + 1, o)
  }

  /** What was found before is kept. */
  lemma {:induction false} FoundGrows(f: Found, es: seq<Event>)
    ensures Fold(TakeCfi, f, es) == f.(lines := f.lines + CfiAt(es, f.at))
    decreases |es|
  {
    if es == [] {
      Empty(f.lines);
    } else {
      var init, last := es[..|es| - 1], es[|es| - 1];
      FoundGrows(f, init);
      FoundGrows(Found(f.at, []), init);
      Associate(f.lines, CfiAt(init, f.at), [last]);
    }
  }

  lemma LeadHasNoAnnotation(j: Job, items: seq<Item>, k: nat)
    requires k < |items|
    ensures forall e :: e in Lead(j, items, k) ==> !e.Cfi? && !e.Comment?
  {
  }

  lemma DataHasNoCfi(j: Job, d: DataBlock)
    ensures forall e :: e in DataEvents(j, d) ==> !e.Cfi?
  {
    forall e | e in DataEvents(j, d)
      ensures !e.Cfi?
    {
      DataEventsFrom(j, d, e);
    }
  }

  lemma ItemCfi(j: Job, items: seq<Item>, k: nat, o: Offset)
    requires k < |items| && IsPrinted(items, k) && AllSizesPositive(items)
    ensures CfiAt(ItemEvents(j, items[k]), o) == if PrintsBoundary(j, items, k, o) then CfiEvents(j, o) else []
  {
    match items[k]
    case Code(b) =>
      if !SkipEA(j, b.address) {
        CfiIsPrintedOnce(j, b, o);
      }
    case Data(d) =>
      DataHasNoCfi(j, d);
      NoCfi(Found(o, []), DataEvents(j, d));
  }

  lemma StepCfi(j: Job, items: seq<Item>, k: nat, f: Found, part: seq<Event>)
    requires k < |items| && AllSizesPositive(items) && part == Steps(j, items)[k]
    ensures Fold(TakeCfi, f, part) ==
      f.(lines := f.lines + (if PrintsBoundary(j, items, k, f.at) then CfiEvents(j, f.at) else []))
  {
    Empty(f.lines);
    if IsPrinted(items, k) {
      LeadThenItem(j, items, k);
      LeadHasNoAnnotation(j, items, k);
      NoCfi(f, Lead(j, items, k));
      FoldConcat(TakeCfi, f, Lead(j, items, k), ItemEvents(j, items[k]));
      FoundGrows(f, ItemEvents(j, items[k]));
      ItemCfi(j, items, k, f.at);
    } else {
      var last := StepPart(j, items, k);
      NoCfi(f, part);
    }
  }

  /** One of the first n steps prints the boundary. */
  predicate BoundaryPrinted(j: Job, items: seq<Item>, n: nat, o: Offset) {
    exists k :: 0 <= k < n && k < |items| && PrintsBoundary(j, items, k, o)
  }

  function FoundUpTo(j: Job, items: seq<Item>, o: Offset): (r: seq<Found>)
    ensures |r| == |items| + 1
  {
    seq(|items| + 1, n requires 0 <= n <= |items| => FoundBy(j, items, n, o))
  }

  function FoundBy(j: Job, items: seq<Item>, n: nat, o: Offset): Found {
    Found(o, if BoundaryPrinted(j, items, n, o) then CfiEvents(j, o) else [])
  }

  lemma FoundAround(j: Job, items: seq<Item>, o: Offset, n: nat) returns (f: Found, next: Found)
    requires n < |items|
    ensures f == FoundUpTo(j, items, o)[n] == FoundBy(j, items, n, o)
    ensures next == FoundUpTo(j, items, o)[n + 1] == FoundBy(j, items, n + 1, o)
  {
    f, next := FoundBy(j, items, n, o), FoundBy(j, items, n + 1, o);
  }

  /** With distinct blocks a boundary belongs to one of them. */
  lemma BoundaryOnce(j: Job, items: seq<Item>, n: nat, o: Offset)
    requires n < |items| && DistinctIds(items) && PrintsBoundary(j, items, n, o)
    ensures !BoundaryPrinted(j, items, n, o)
  {
    forall k | 0 <= k < n
      ensures !PrintsBoundary(j, items, k, o)
    {
      assert IdOf(items[k]) != IdOf(items[n]);
    }
  }

  lemma StepFinds(j: Job, items: seq<Item>, o: Offset, n: nat, part: seq<Event>)
    requires n < |items| && DistinctIds(items) && AllSizesPositive(items) && part == Steps(j, items)[n]
    ensures Fold(TakeCfi, FoundUpTo(j, items, o)[n], part) == FoundUpTo(j, items, o)[n + 1]
  {
    var f, next := FoundAround(j, items, o, n);
    StepCfi(j, items, n, f, part);
    if PrintsBoundary(j, items, n, o) {
      BoundaryOnce(j, items, n, o);
      Empty(CfiEvents(j, o));
    } else {
      Empty(f.lines);
      assert BoundaryPrinted(j, items, n + 1, o) <==> BoundaryPrinted(j, items, n, o);
    }
  }

  lemma StepsFind(j: Job, items: seq<Item>, o: Offset, parts: seq<seq<Event>>)
    requires DistinctIds(items) && AllSizesPositive(items) && parts == Steps(j, items)
    ensures Fold(TakeCfi, Found(o, []), Concat(parts, |items|)) == FoundBy(j, items, |items|, o)
  {
    var states := FoundUpTo(j, items, o);
    assert Leads(TakeCfi, parts, states, |items|) by {
      forall n | 0 <= n < |items|
        ensures Fold(TakeCfi, states[n], parts[n]) == states[n + 1]
      {
        StepFinds(j, items, o, n, parts[n]);
      }
    }
    FoldParts(TakeCfi, parts, states, |items|);
  }

  lemma EndsHaveNoAnnotation(j: Job, dialect: Dialect, last: nat)
    ensures forall e :: e in PrologueEvents(dialect) ==> !e.Cfi? && !e.Comment?
    ensures forall e :: e in EndEvents(j, last) ==> !e.Cfi? && !e.Comment?
  {
    forall e | e in PrologueEvents(dialect)
      ensures e.Prologue?
    {
      PrologueIsPrologue(dialect, e);
    }
  }

  /**
   Over a whole run with distinct blocks the directives at an offset are printed exactly once, all of
   them and in order, if the offset is an instruction boundary or the end of a block that is printed,
   and not at all otherwise.
   */
  lemma CfiOnceInRun(j: Job, dialect: Dialect, items: seq<Item>, o: Offset)
    requires DistinctIds(items) && AllSizesPositive(items)
    ensures CfiAt(PrintEvents(j, dialect, items), o) ==
      if BoundaryPrinted(j, items, |items|, o) then CfiEvents(j, o) else []
  {
    var prologue, end := PrologueEvents(dialect), EndEvents(j, Cursor(items, |items|));
    EndsHaveNoAnnotation(j, dialect, Cursor(items, |items|));
    NoCfi(Found(o, []), prologue);
    StepsFind(j, items, o, Steps(j, items));
    NoCfi(FoundBy(j, items, |items|, o), end);
    FoldConcat(TakeCfi, Found(o, []), prologue, Concat(Steps(j, items), |items|) + end);
    FoldConcat(TakeCfi, Found(o, []), Concat(Steps(j, items), |items|), end);
  }

  // ---- the comments of a run ----

  /** How often there is a comment at an offset. */
  datatype Tally = Tally(at: Offset, n: nat)

  function Count(t: Tally, e: Event): Tally {
    if e.Comment? && e.at == t.at then t.(n := t.n + 1) else t
  }

  function CommentsAt(es: seq<Event>, o: Offset): nat {
    Fold(Count, Tally(o, 0), es).n
  }

  lemma {:induction false} TallyGrows(t: Tally, es: seq<Event>)
    ensures Fold(Count, t, es) == t.(n := t.n + CommentsAt(es, t.at))
    decreases |es|
  {
    if es != [] {
      TallyGrows(t, es[..|es| - 1]);
      TallyGrows(Tally(t.at, 0), es[..|es| - 1]);
    }
  }

  lemma CountConcat(o: Offset, a: seq<Event>, b: seq<Event>)
    ensures CommentsAt(a + b, o) == CommentsAt(a, o) + CommentsAt(b, o)
  {
    FoldConcat(Count, Tally(o, 0), a, b);
    TallyGrows(Fold(Count, Tally(o, 0), a), b);
    TallyGrows(Tally(o, 0), a);
  }

  lemma CountNone(es: seq<Event>, o: Offset)
    requires forall e :: e in es ==> !(e.Comment? && e.at == o)
    ensures CommentsAt(es, o) == 0
  {
    FoldKeeps(Count, Tally(o, 0), es);
  }

  /** Only comments count. */
  lemma {:induction false} CountOfComments(es: seq<Event>, o: Offset)
    ensures CommentsAt(es, o) == CommentsAt(CommentsOf(es), o)
  {
    if es != [] {
      var init, last := es[..|es| - 1], es[|es| - 1];
      CountOfComments(init, o);
      FoldOne(Count, Tally(o, 0), last);
      CountConcat(o, init, [last]);
      assert init + [last] == es;
      if last.Comment? {
        CountConcat(o, CommentsOf(init), [last]);
      } else {
        CountNone([last], o);
      }
    }
  }

  lemma LastOffset(es: seq<Event>) returns (init: seq<Event>, last: Event)
    requires OffsetsAscend(es) && es != []
    ensures |init| == |es| - 1 && es == init + [last] && OffsetsAscend(init) && last.Comment?
    ensures forall e :: e in init ==> e.at != last.at
  {
    init, last := es[..|es| - 1], es[|es| - 1];
    assert last in es;
    forall e | e in init
      ensures e in es && e.at != last.at
    {
      var k :| 0 <= k < |init| && init[k] == e;
      assert es[k] == e;
    }
  }

  lemma CountLast(init: seq<Event>, last: Event, o: Offset)
    requires last.Comment?
    ensures CommentsAt(init + [last], o) == CommentsAt(init, o) + if last.at == o then 1 else 0
  {
    FoldOne(Count, Tally(o, 0), last);
    CountConcat(o, init, [last]);
  }

  /** Comments in strictly ascending order are there at most once. */
  lemma {:induction false} CountAscending(es: seq<Event>, o: Offset)
    requires OffsetsAscend(es)
    ensures CommentsAt(es, o) == if exists e :: e in es && e.Comment? && e.at == o then 1 else 0
    decreases |es|
  {
    if es != [] {
      var init, last := LastOffset(es);
      CountAscending(init, o);
      CountLast(init, last, o);
    }
  }

  lemma BlockComments(j: Job, b: CodeBlock, k: nat)
    requires j.policy.debug && CommentsSorted(j.m.comments) && k < |j.m.comments|
    ensures CommentsAt(BlockEvents(j, b), j.m.comments[k].0) ==
      if InRange(j.m.comments[k].0, b.id, 0, SizeUpTo(b.insns, |b.insns|)) then 1 else 0
  {
    CommentsArePrintedOnce(j, b);
    CountOfComments(BlockEvents(j, b), j.m.comments[k].0);
    ExpectedAscend(j.m.comments, b, |b.insns|);
    CountAscending(AllExpected(j.m.comments, b, |b.insns|), j.m.comments[k].0);
    ExpectedExactly(j.m.comments, b, |b.insns|, k);
  }

  lemma {:induction false} CountCommentsIn(comments: seq<(Offset, string)>, element: Identifier, from: nat, to: nat,
      o: Offset)
    requires CommentsSorted(comments)
    ensures CommentsAt(CommentsIn(comments, element, from, to), o) ==
      if InRange(o, element, from, to) && exists c :: c in comments && c.0 == o then 1 else 0
  {
    if comments != [] {
      var first, rest := comments[0], comments[1..];
      var head :=
        if InRange(first.0, element, from, to) then [Comment(first.0, CommentText(first.0, from, first.1))] else [];
      SortedTail(comments);
      CountCommentsIn(rest, element, from, to, o);
      CountConcat(o, head, CommentsIn(rest, element, from, to));
      CountHead(head, first, o);
      assert forall c :: c in comments <==> c == first || c in rest;
    }
  }

  lemma CountHead(head: seq<Event>, c: (Offset, string), o: Offset)
    requires head == [] || exists text :: head == [Comment(c.0, text)]
    ensures CommentsAt(head, o) == if head != [] && c.0 == o then 1 else 0
  {
    if head != [] {
      FoldOne(Count, Tally(o, 0), head[0]);
    }
  }

  /** The comments of a data block come first. */
  lemma DataPartsOf(j: Job, d: DataBlock) returns (rest: seq<Event>)
    requires !SkipEA(j, d.address)
    ensures DataEvents(j, d) == CommentEvents(j, d.id, 0, |d.bytes|) + rest
    ensures forall e :: e in rest ==> !e.Comment?
  {
    var content := if ShouldExclude(j, ContainerSection(j.m, d.address), d.address) then [] else ContentEvents(j, d);
    rest := [LabelGroup(j.m, d.address)] + (DataNoteEvents(j, d.address) + content);
    BytesArePlain(d.bytes);
  }

  lemma DataComments(j: Job, d: DataBlock, k: nat)
    requires j.policy.debug && CommentsSorted(j.m.comments) && k < |j.m.comments|
    ensures CommentsAt(DataEvents(j, d), j.m.comments[k].0) ==
      if InRange(j.m.comments[k].0, d.id, 0, |d.bytes|) then 1 else 0
  {
    var o := j.m.comments[k].0;
    var rest := DataPartsOf(j, d);
    assert j.m.comments[k] in j.m.comments;
    CountCommentsIn(j.m.comments, d.id, 0, |d.bytes|, o);
    CountNone(rest, o);
    CountConcat(o, CommentEvents(j, d.id, 0, |d.bytes|), rest);
  }

  /** The comment is on an instruction, or on the data, of what is printed in step k. */
  predicate PrintsCommentAt(items: seq<Item>, k: nat, o: Offset)
    requires k < |items|
  {
    IsPrinted(items, k) &&
    match items[k]
    case Code(b) => InRange(o, b.id, 0, SizeUpTo(b.insns, |b.insns|))
    case Data(d) => InRange(o, d.id, 0, |d.bytes|)
  }

  lemma StepComments(j: Job, items: seq<Item>, n: nat, k: nat, part: seq<Event>)
    requires j.policy.debug && CommentsSorted(j.m.comments) && k < |j.m.comments|
    requires n < |items| && part == Steps(j, items)[n]
    ensures CommentsAt(part, j.m.comments[k].0) == if PrintsCommentAt(items, n, j.m.comments[k].0) then 1 else 0
  {
    var o := j.m.comments[k].0;
    if IsPrinted(items, n) {
      LeadThenItem(j, items, n);
      LeadHasNoAnnotation(j, items, n);
      CountNone(Lead(j, items, n), o);
      CountConcat(o, Lead(j, items, n), ItemEvents(j, items[n]));
      match items[n]
      case Code(b) => BlockComments(j, b, k);
      case Data(d) => DataComments(j, d, k);
    } else {
      var last := StepPart(j, items, n);
      CountNone(part, o);
    }
  }

  /** One of the first n steps prints the comment. */
  predicate CommentPrinted(items: seq<Item>, n: nat, o: Offset) {
    exists k :: 0 <= k < n && k < |items| && PrintsCommentAt(items, k, o)
  }

  lemma CommentOnce(items: seq<Item>, n: nat, o: Offset)
    requires n < |items| && DistinctIds(items) && PrintsCommentAt(items, n, o)
    ensures !CommentPrinted(items, n, o)
  {
    forall k | 0 <= k < n
      ensures !PrintsCommentAt(items, k, o)
    {
      assert IdOf(items[k]) != IdOf(items[n]);
    }
  }

  function TimesPrinted(items: seq<Item>, n: nat, o: Offset): nat {
    if CommentPrinted(items, n, o) then 1 else 0
  }

  lemma NextTimesPrinted(items: seq<Item>, n: nat, o: Offset)
    requires n < |items| && DistinctIds(items)
    ensures TimesPrinted(items, n + 1, o) ==
      TimesPrinted(items, n, o) + if PrintsCommentAt(items, n, o) then 1 else 0
  {
    if PrintsCommentAt(items, n, o) {
      CommentOnce(items, n, o);
    } else {
      assert CommentPrinted(items, n + 1, o) <==> CommentPrinted(items, n, o);
    }
  }

  /** How often the comment is printed in the first n steps, for each n. */
  function AllTimesPrinted(items: seq<Item>, o: Offset): (r: seq<nat>)
    ensures |r| == |items| + 1
  {
    seq(|items| + 1, n requires 0 <= n <= |items| => TimesPrinted(items, n, o))
  }

  lemma StepCounts(j: Job, items: seq<Item>, n: nat, k: nat, o: Offset, part: seq<Event>)
    requires j.policy.debug && CommentsSorted(j.m.comments) && k < |j.m.comments| && j.m.comments[k].0 == o
    requires n < |items| && DistinctIds(items) && part == Steps(j, items)[n]
    ensures AllTimesPrinted(items, o)[n + 1] == AllTimesPrinted(items, o)[n] + CommentsAt(part, o)
  {
    StepComments(j, items, n, k, part);
    NextTimesPrinted(items, n, o);
  }

  lemma {:induction false} CountParts(parts: seq<seq<Event>>, counts: seq<nat>, n: nat, o: Offset)
    requires n <= |parts| && |counts| == |parts| + 1 && counts[0] == 0
    requires forall k :: 0 <= k < |parts| ==> counts[k + 1] == counts[k] + CommentsAt(parts[k], o)
    ensures CommentsAt(Concat(parts, n), o) == counts[n]
  {
    if n == 0 {
      CountNone([], o);
    } else {
      CountParts(parts, counts, n - 1, o);
      CountConcat(o, Concat(parts, n - 1), parts[n - 1]);
    }
  }

  lemma StepsComments(j: Job, items: seq<Item>, k: nat, o: Offset, parts: seq<seq<Event>>)
    requires j.policy.debug && CommentsSorted(j.m.comments) && k < |j.m.comments| && j.m.comments[k].0 == o
    requires DistinctIds(items) && parts == Steps(j, items)
    ensures CommentsAt(Concat(parts, |parts|), o) == TimesPrinted(items, |items|, o)
  {
    var counts := AllTimesPrinted(items, o);
    forall n | 0 <= n < |parts|
      ensures counts[n + 1] == counts[n] + CommentsAt(parts[n], o)
    {
      StepCounts(j, items, n, k, o, parts[n]);
    }
    CountParts(parts, counts, |parts|, o);
  }

  /**
   Over a whole run in debug mode with distinct blocks, each comment is printed exactly once if it is
   on a printed instruction or data block, and not at all otherwise.
   */
  lemma CommentsOnceInRun(j: Job, dialect: Dialect, items: seq<Item>, k: nat)
    requires j.policy.debug && CommentsSorted(j.m.comments) && k < |j.m.comments| && DistinctIds(items)
    ensures CommentsAt(PrintEvents(j, dialect, items), j.m.comments[k].0) ==
      TimesPrinted(items, |items|, j.m.comments[k].0)
  {
    var o, steps := j.m.comments[k].0, Concat(Steps(j, items), |items|);
    var prologue, end := PrologueEvents(dialect), EndEvents(j, Cursor(items, |items|));
    EndsHaveNoAnnotation(j, dialect, Cursor(items, |items|));
    CountNone(prologue, o);
    CountNone(end, o);
    StepsComments(j, items, k, o, Steps(j, items));
    CountConcat(o, steps, end);
    CountConcat(o, prologue, steps + end);
  }
}
