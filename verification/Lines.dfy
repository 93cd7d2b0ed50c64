/**
 How an assembler reads the lines of a run. A warning does not end its line, so that what is printed
 next is in the comment too.
 */
module Lines {
  import opened Common
  import opened Folds
  import opened Numerals
  import opened Program
  import opened Events
  import opened Greedy
  import opened Labels
  import opened Notes

  // ---- lines ----

  /**
   The event begins with a line end or with a comment of its own: section brackets and function headers
   begin with a bar or a line of comment.
   */
  predicate StartsLine(e: Event) {
    e.BlankLine? || e.SectionHeader? || e.SectionFooter? || e.Comment? || e.Align? || e.Global?
  }

  /** The line is in a comment after the event. A group without symbols prints nothing. */
  predicate StaysOpen(open: bool, e: Event) {
    match e
    case Warning(_) => true
    case AddressNote(_, _) => open
    case Labels(_, names) => open && names == []
    case _ => false
  }

  /** What is left of the event if the line before it is in a comment: a group loses its first label. */
  function Seen(open: bool, e: Event): seq<Event> {
    if !open || StartsLine(e) then [e]
    else match e
      case Labels(ea, names) => if names == [] then [e] else [Labels(ea, names[1..])]
      case _ => []
  }

  function OpenAfter(open: bool, es: seq<Event>): bool {
    Fold(StaysOpen, open, es)
  }

  /** What an assembler sees. */
  function SeenOf(open: bool, es: seq<Event>): seq<Event> {
    if es == [] then []
    else
      var init, last := es[..|es| - 1], es[|es| - 1];
      SeenOf(open, init) + Seen(OpenAfter(open, init), last)
  }

  lemma {:induction false} SeenConcat(open: bool, a: seq<Event>, b: seq<Event>)
    ensures SeenOf(open, a + b) == SeenOf(open, a) + SeenOf(OpenAfter(open, a), b)
  {
    if b == [] {
      assert a + b == a;
    } else {
      var init, last := b[..|b| - 1], b[|b| - 1];
      SeenConcat(open, a, init);
      FoldConcat(StaysOpen, open, a, init);
      assert (a + b)[..|a + b| - 1] == a + init;
      Associate(SeenOf(open, a), SeenOf(OpenAfter(open, a), init), Seen(OpenAfter(open, a + init), last));
    }
  }

  lemma SeenOne(open: bool, e: Event)
    ensures SeenOf(open, [e]) == Seen(open, e)
  {
    assert [e][..0] == [];
  }

  predicate NoWarning(es: seq<Event>) {
    forall e :: e in es ==> !e.Warning?
  }

  lemma {:induction false} SeenAll(es: seq<Event>)
    requires NoWarning(es)
    ensures SeenOf(false, es) == es && !OpenAfter(false, es)
  {
    if es != [] {
      var init, last := es[..|es| - 1], es[|es| - 1];
      assert last in es && init + [last] == es;
      SeenAll(init);
    }
  }

  /** What starts a line of its own is seen, whatever is before it. */
  lemma SeenFresh(open: bool, es: seq<Event>)
    requires es != [] && StartsLine(es[0]) && NoWarning(es)
    ensures SeenOf(open, es) == es && !OpenAfter(open, es)
  {
    var e, rest := es[0], es[1..];
    assert [e] + rest == es;
    SeenOne(open, e);
    FoldOne(StaysOpen, open, e);
    SeenConcat(open, [e], rest);
    FoldConcat(StaysOpen, open, [e], rest);
    SeenAll(rest);
  }

  lemma {:induction false} SeenIsPrinted(open: bool, es: seq<Event>, e: Event)
    requires e in SeenOf(open, es) && !e.Labels?
    ensures e in es
  {
    var init, last := es[..|es| - 1], es[|es| - 1];
    if e in SeenOf(open, init) {
      SeenIsPrinted(open, init, e);
    }
  }

  // ---- what is defined ----

  /** The address that an assembler gives to a name on account of one event. */
  predicate DefinesAt(e: Event, name: string, a: nat) {
    match e
    case Labels(ea, names) => name in names && ea == a
    case FunctionLabel(ea, own) => own == name && ea == a
    case AddressNote(ea, text) => IsLabel(name) && NoteName(text) == name && ea == a
    case _ => false
  }

  /** What one looks for in the output: the definition of a name, or an address note. */
  datatype Mark = Name(name: string) | Note

  predicate Marks(e: Event, mark: Mark, a: nat) {
    match mark
    case Name(name) => DefinesAt(e, name, a)
    case Note => e.AddressNote? && e.ea == a
  }

  predicate Has(es: seq<Event>, mark: Mark, a: nat) {
    exists e :: e in es && Marks(e, mark, a)
  }

  /** An assembler sees the mark. */
  predicate Shows(open: bool, es: seq<Event>, mark: Mark, a: nat) {
    Has(SeenOf(open, es), mark, a)
  }

  lemma HasConcat(a: seq<Event>, b: seq<Event>, mark: Mark, x: nat)
    ensures Has(a + b, mark, x) <==> Has(a, mark, x) || Has(b, mark, x)
  {
    if e :| e in a && Marks(e, mark, x) {
      assert e in a + b;
    }
    if e :| e in b && Marks(e, mark, x) {
      assert e in a + b;
    }
  }

  lemma HasOne(e: Event, mark: Mark, x: nat)
    ensures Has([e], mark, x) <==> Marks(e, mark, x)
  {
    assert e in [e];
  }

  lemma ShowsConcat(open: bool, a: seq<Event>, b: seq<Event>, mark: Mark, x: nat)
    ensures Shows(open, a + b, mark, x) <==> Shows(open, a, mark, x) || Shows(OpenAfter(open, a), b, mark, x)
    ensures OpenAfter(open, a + b) == OpenAfter(OpenAfter(open, a), b)
  {
    SeenConcat(open, a, b);
    HasConcat(SeenOf(open, a), SeenOf(OpenAfter(open, a), b), mark, x);
    FoldConcat(StaysOpen, open, a, b);
  }

  /** One of the first n parts shows the mark. */
  predicate PartShows(parts: seq<seq<Event>>, opens: seq<bool>, n: nat, mark: Mark, x: nat)
    requires n <= |parts| && n <= |opens|
  {
    exists k :: 0 <= k < n && Shows(opens[k], parts[k], mark, x)
  }

  lemma PartShowsNext(parts: seq<seq<Event>>, opens: seq<bool>, n: nat, mark: Mark, x: nat)
    requires 0 < n <= |parts| && n <= |opens|
    ensures PartShows(parts, opens, n, mark, x) <==>
      PartShows(parts, opens, n - 1, mark, x) || Shows(opens[n - 1], parts[n - 1], mark, x)
  {
  }

  lemma {:induction false} ShowsParts(parts: seq<seq<Event>>, opens: seq<bool>, n: nat, mark: Mark, x: nat)
    requires Leads(StaysOpen, parts, opens, n)
    ensures Shows(opens[0], Concat(parts, n), mark, x) <==> PartShows(parts, opens, n, mark, x)
    ensures OpenAfter(opens[0], Concat(parts, n)) == opens[n]
  {
    FoldParts(StaysOpen, parts, opens, n);
    if n > 0 {
      ShowsParts(parts, opens, n - 1, mark, x);
      ShowsConcat(opens[0], Concat(parts, n - 1), parts[n - 1], mark, x);
      PartShowsNext(parts, opens, n, mark, x);
    }
  }

  // ---- what is shown of a label group ----

  /** The labels that are seen. */
  function KeptOf(names: seq<string>, open: bool): seq<string> {
    if open && names != [] then names[1..] else names
  }

  function Kept(m: Module, a: nat, open: bool): seq<string> {
    KeptOf(LabelGroup(m, a).names, open)
  }

  lemma LabelsShown(ea: nat, names: seq<string>, open: bool, mark: Mark, x: nat)
    ensures Shows(open, [Labels(ea, names)], mark, x) <==> mark.Name? && mark.name in KeptOf(names, open) && x == ea
    ensures OpenAfter(open, [Labels(ea, names)]) == (open && names == [])
  {
    SeenOne(open, Labels(ea, names));
    FoldOne(StaysOpen, open, Labels(ea, names));
    HasOne(Labels(ea, KeptOf(names, open)), mark, x);
  }

  lemma GroupShown(m: Module, a: nat, open: bool, mark: Mark, x: nat)
    ensures Shows(open, [LabelGroup(m, a)], mark, x) <==> mark.Name? && mark.name in Kept(m, a, open) && x == a
    ensures OpenAfter(open, [LabelGroup(m, a)]) == (open && LabelGroup(m, a).names == [])
  {
    LabelsShown(a, LabelGroup(m, a).names, open, mark, x);
  }
}
