/** Inputs for which the output is not what one would expect, one for each condition that can fail. */
module Witnesses {
  import opened Common
  import opened Numerals
  import opened Escapes
  import opened Folds
  import opened Program
  import opened Events
  import opened Greedy
  import opened Notes
  import opened Labels
  import opened LabelOrder
  import opened Names
  import opened Lines
  import opened SymbolTable
  import opened References
  import opened Bracketing
  import opened DataImage
  import opened LocationCounter

  /** A module with one symbol. */
  function OneSymbol(s: Symbol, entries: seq<nat>, debug: bool): Job {
    Job(Module(0, [s], [], map[], entries, [], None, map[], map[]), Policy({}, {}, {}, debug))
  }

  function Ret(id: Identifier, a: nat, size: nat): Item {
    Code(CodeBlock(id, 0, a, size, [Insn(size, OtherInsn, "ret", [])]))
  }

  lemma NothingSkipped(s: Symbol, entries: seq<nat>, debug: bool, x: nat)
    ensures !SkipEA(OneSymbol(s, entries, debug), x)
  {
  }

  lemma OnlySymbol(s: Symbol, entries: seq<nat>, debug: bool, a: nat)
    requires s.address == Some(a) && s.name !in RESERVED
    ensures !IsAmbiguous(OneSymbol(s, entries, debug).m, s.name)
    ensures LabelName(OneSymbol(s, entries, debug).m, s, a) == s.name
    ensures LabelGroup(OneSymbol(s, entries, debug).m, a).names == [s.name]
    ensures ByName(OneSymbol(s, entries, debug), s, a)
  {
    var m := OneSymbol(s, entries, debug).m;
    assert [s][1..] == [];
    assert SymbolsAt(m.symbols, a) == [s];
    assert NameCount(m.symbols, s.name) == 1 + NameCount([s][1..], s.name);
    assert LabelName(m, s, a) == s.name;
    assert LabelNames(m, [s], a, 0) == [] && LabelNames(m, [s], a, 1) == [] + [LabelName(m, s, a)];
    NothingSkipped(s, entries, debug, a);
  }

  lemma ByNameOnly(s: Symbol, entries: seq<nat>, debug: bool)
    requires s.name != "" && s.name[0] != '.' && forall r :: r in RESERVED ==> s.name != r + "_renamed"
    ensures NamesAreFree(OneSymbol(s, entries, debug).m)
  {
    forall x: nat
      ensures s.name != AddressName(x)
    {
      assert AddressName(x)[0] == '.';
    }
  }

  lemma RunsAt(a: nat, size: nat, id: Identifier)
    requires a < ADDRESS_SPACE
    ensures InsnAddress(Ret(id, a, size).block, 0) == a
  {
    assert SizeUpTo(Ret(id, a, size).block.insns, 0) == 0;
  }

  lemma CollisionFails(j: Job, dialect: Dialect, items: seq<Item>, s: Symbol, a: nat, k: nat)
    requires NamesAreFree(j.m) && ByName(j, s, a) && k < |items| && Collides(j, items, LabelName(j.m, s, a), a, k)
    ensures !Resolves(PrintEvents(j, dialect, items), Reference(j, s).name, a)
  {
    ReferencesResolve(j, dialect, items, s, a);
  }

  lemma HiddenFails(j: Job, dialect: Dialect, items: seq<Item>, s: Symbol, a: nat)
    requires NamesAreFree(j.m) && ByName(j, s, a) && !RunShows(j, items, Name(LabelName(j.m, s, a)), a)
    ensures !Resolves(PrintEvents(j, dialect, items), Reference(j, s).name, a)
  {
    ReferencesResolve(j, dialect, items, s, a);
  }

  // ---- a made-up function name ----

  const STRAY: Symbol := Symbol(1, "unknown_function_10", Some(32))

  /** A function without a symbol at 16, and a symbol that happens to have its made-up name at 32. */
  function StrayItems(): seq<Item> {
    [Ret(2, 16, 1), Ret(3, 32, 1)]
  }

  lemma MadeUpName(j: Job)
    requires j == OneSymbol(STRAY, [16], false)
    ensures FunctionName(j.m, 16) == STRAY.name && HasMadeUpName(j.m, 16)
  {
    assert ShowNat(1, true) == "1" && ShowNat(16, true) == ShowNat(1, true) + "0";
    assert "unknown_function" + "_" + ShowNat(16, true) == "unknown_function_10";
    assert SymbolsAt([STRAY][1..], 16) == [];
  }

  lemma StrayCollides(j: Job)
    requires j == OneSymbol(STRAY, [16], false)
    ensures Collides(j, StrayItems(), STRAY.name, 32, 0)
  {
    MadeUpName(j);
    NothingSkipped(STRAY, [16], false, 16);
    assert DefinesOtherwise(j, StrayItems(), 0, STRAY.name, 16);
  }

  lemma StrayIsLocal(j: Job)
    requires j == OneSymbol(STRAY, [16], false)
    ensures NoOverlap(StrayItems()) && Place(j, StrayItems(), 32)
  {
    var items := StrayItems();
    assert Cursor(items, 0) == 0 && Cursor(items, 1) == 17;
    RunsAt(32, 1, 3);
    NothingSkipped(STRAY, [16], false, 32);
    assert StepPlace(j, items, 1, 32);
  }

  lemma StrayIsFree(j: Job)
    requires j == OneSymbol(STRAY, [16], false)
    ensures NamesAreFree(j.m)
  {
    forall r | r in RESERVED
      ensures STRAY.name != r + "_renamed"
    {
      assert STRAY.name[0] == 'u';
    }
    ByNameOnly(STRAY, [16], false);
  }

  /** A symbol at the start of a printed block, without overlap, does not resolve: a function has its name. */
  lemma MadeUpNameCollides(dialect: Dialect)
    ensures var j, items := OneSymbol(STRAY, [16], false), StrayItems();
      && NamesAreFree(j.m) && Local(j, items, STRAY, 32) && NoOverlap(items)
      && !Resolves(PrintEvents(j, dialect, items), Reference(j, STRAY).name, 32)
  {
    var j, items := OneSymbol(STRAY, [16], false), StrayItems();
    StrayIsFree(j);
    OnlySymbol(STRAY, [16], false, 32);
    StrayIsLocal(j);
    StrayCollides(j);
    CollisionFails(j, dialect, items, STRAY, 32, 0);
  }

  // ---- a label in a comment ----

  const FOO: Symbol := Symbol(1, "foo", Some(4))

  /** A block of four bytes, data inside it, and data with a symbol right behind it. */
  function CoveredItems(): seq<Item> {
    [Ret(2, 0, 4), Data(DataBlock(3, 2, [0])), Data(DataBlock(4, 4, [1]))]
  }

  lemma CoveredCursors(j: Job)
    requires j == OneSymbol(FOO, [], false)
    ensures var items := CoveredItems();
      && Cursor(items, 1) == 4 && Cursor(items, 2) == 4 && Cursor(items, 3) == 5
      && IsPrinted(items, 0) && !IsPrinted(items, 1) && IsPrinted(items, 2) && Open(j, items, 2)
  {
    var items := CoveredItems();
    assert Cursor(items, 0) == 0 && Cursor(items, 1) == 4;
  }

  lemma FooIsLost(j: Job)
    requires j == OneSymbol(FOO, [], false)
    ensures !RunShows(j, CoveredItems(), Name("foo"), 4)
  {
    var items := CoveredItems();
    CoveredCursors(j);
    OnlySymbol(FOO, [], false, 4);
    RunsAt(0, 4, 2);
    assert SilentLead(j, items[2], 4);
    forall k | 0 <= k < 3
      ensures !StepShows(j, items, k, Name("foo"), 4)
    {
    }
  }

  lemma FooIsFree(j: Job)
    requires j == OneSymbol(FOO, [], false)
    ensures NamesAreFree(j.m)
  {
    forall r | r in RESERVED
      ensures FOO.name != r + "_renamed"
    {
    }
    ByNameOnly(FOO, [], false);
  }

  /**
   A symbol at the start of printed data, whose name nothing else has, does not resolve: its label is
   in the comment of a warning.
   */
  lemma WarningHidesLabel(dialect: Dialect)
    ensures var j, items := OneSymbol(FOO, [], false), CoveredItems();
      && NamesAreFree(j.m) && Local(j, items, FOO, 4)
      && (forall k :: 0 <= k < |items| ==> !Collides(j, items, FOO.name, 4, k))
      && !Resolves(PrintEvents(j, dialect, items), Reference(j, FOO).name, 4)
  {
    var j, items := OneSymbol(FOO, [], false), CoveredItems();
    FooIsFree(j);
    OnlySymbol(FOO, [], false, 4);
    CoveredCursors(j);
    assert ItemPlace(j, items[2], 4) && StepPlace(j, items, 2, 4);
    FooIsLost(j);
    forall k | 0 <= k < |items|
      ensures !Collides(j, items, FOO.name, 4, k)
    {
      forall x: nat
        ensures !DefinesOtherwise(j, items, k, FOO.name, x)
      {
        NothingNoted(j, items, k, x);
      }
    }
    HiddenFails(j, dialect, items, FOO, 4);
  }

  // ---- an address note ----

  const HEX: Symbol := Symbol(1, "a0", Some(32))

  function NotedItems(): seq<Item> {
    [Ret(2, 32, 1), Ret(3, 160, 1)]
  }

  lemma HexIsFree(j: Job)
    requires j == OneSymbol(HEX, [], true)
    ensures NamesAreFree(j.m)
  {
    forall r | r in RESERVED
      ensures HEX.name != r + "_renamed"
    {
    }
    ByNameOnly(HEX, [], true);
  }

  lemma HexIsLocal(j: Job)
    requires j == OneSymbol(HEX, [], true)
    ensures NoOverlap(NotedItems()) && Place(j, NotedItems(), 32)
  {
    var items := NotedItems();
    assert Cursor(items, 0) == 0 && Cursor(items, 1) == 33;
    RunsAt(32, 1, 2);
    NothingSkipped(HEX, [], true, 32);
    assert StepPlace(j, items, 0, 32);
  }

  lemma NoteAt160(j: Job)
    requires j == OneSymbol(HEX, [], true)
    ensures Collides(j, NotedItems(), HEX.name, 32, 1)
  {
    var items := NotedItems();
    var b := items[1].block;
    RunsAt(160, 1, 3);
    NothingSkipped(HEX, [], true, 160);
    assert Cursor(items, 0) == 0 && Cursor(items, 1) == 33;
    assert LineAddress(160, 0) == 160 && InsnNoted(Fixup(b.insns[0]), 160, 160);
    assert InsnShows(j, Fixup(b.insns[0]), InsnAddress(b, 0), Note, 160);
    assert StepShows(j, items, 1, Note, 160);
    assert ShowNat(10, true) == "a" && ShowNat(160, true) == ShowNat(10, true) + "0";
    assert NoteDefines(160, "a0");
    assert DefinesOtherwise(j, items, 1, HEX.name, 160);
  }

  /** In debug mode the address column defines labels: a symbol with such a name does not resolve. */
  lemma NoteIsALabel(dialect: Dialect)
    ensures var j, items := OneSymbol(HEX, [], true), NotedItems();
      && NamesAreFree(j.m) && Local(j, items, HEX, 32) && NoOverlap(items)
      && !Resolves(PrintEvents(j, dialect, items), Reference(j, HEX).name, 32)
  {
    var j, items := OneSymbol(HEX, [], true), NotedItems();
    HexIsFree(j);
    OnlySymbol(HEX, [], true, 32);
    HexIsLocal(j);
    NoteAt160(j);
    CollisionFails(j, dialect, items, HEX, 32, 1);
  }

  // ---- empty data ----

  /** Empty data at 4, right at its symbol: its label is printed twice. */
  lemma EmptyDataRepeats(dialect: Dialect)
    ensures var j, items := OneSymbol(FOO, [], false), [Data(DataBlock(2, 4, []))];
      AllFit(items) && AllHaveInsns(items) && !LabelsAscend(PrintEvents(j, dialect, items), 0, ADDRESS_SPACE)
  {
    var j, items := OneSymbol(FOO, [], false), [Data(DataBlock(2, 4, []))];
    NothingSkipped(FOO, [], false, 4);
    assert Cursor(items, 0) == 0 && Stalls(j, items[0], Cursor(items, 0));
    LabelsIncreaseExactly(j, dialect, items);
  }

  // ---- a section that begins with a gap ----

  /** The first item of a section is past its start: there is a footer without a header. */
  lemma GapAtStart(dialect: Dialect) returns (j: Job, items: seq<Item>, at: seq<SectionRange>)
    ensures Housed(j.m.sections, items, at)
    ensures items == [Data(DataBlock(1, 1, [0]))] && at == [SectionRange(".data", 0, 2)]
    ensures RegionAfter(Outside, PrintEvents(j, dialect, items)) != Outside
  {
    var s := SectionRange(".data", 0, 2);
    j := Job(Module(0, [], [s], map[], [], [], None, map[], map[]), Policy({}, {}, {}, false));
    items, at := [Data(DataBlock(1, 1, [0]))], [s];
    assert !BeginsWell(j, items, at, 0);
    BracketedExactly(j, dialect, items, at);
  }

  // ---- a function off its alignment ----

  /** A function at 16, printed behind one byte: its header adds padding. */
  lemma HeaderPads(name: string)
    ensures var j, item := OneSymbol(Symbol(1, "main", Some(16)), [16], false), Ret(2, 16, 1);
      && Assembled(j, item)
      && Assemble(Spot(name, true, 1), ItemEvents(j, item)) != Spot(name, true, 1 + item.Size())
  {
    var s := Symbol(1, "main", Some(16));
    MainIsAt16(s);
    NothingSkipped(s, [16], false, 16);
    PaddedAt(OneSymbol(s, [16], false), name);
  }

  lemma MainIsAt16(s: Symbol)
    requires s == Symbol(1, "main", Some(16))
    ensures FunctionName(OneSymbol(s, [16], false).m, 16) == "main"
  {
    OnlySymbol(s, [16], false, 16);
    assert [s][1..] == [];
    assert SymbolsAt([s], 16) == [s];
  }

  lemma PaddedAt(j: Job, name: string)
    requires FunctionName(j.m, 16) == "main" && !SkipEA(j, 16) && !j.policy.debug
    ensures Assembled(j, Ret(2, 16, 1))
    ensures Assemble(Spot(name, true, 1), ItemEvents(j, Ret(2, 16, 1))) != Spot(name, true, 2)
  {
    var item := Ret(2, 16, 1);
    assert SizeUpTo(item.block.insns, 0) == 0 && SizeUpTo(item.block.insns, 1) == 1;
    assert RoundUp(1, Alignment(16)) == 16;
    ItemAdvances(j, item, name, 1);
  }

  // ---- a string without its end ----

  /** A block that is encoded as a string, and is the letter A only: it becomes two bytes. */
  lemma StringGrows()
    ensures var j, d := StringJob(), DataBlock(2, 0, [65]);
      Image(Some([]), DataEvents(j, d)) == Some([65, 0])
  {
    var j, d := StringJob(), DataBlock(2, 0, [65]);
    DataRestored(j, d, []);
    LetterIsKept(65);
    assert IsStringEncoded(j.m, d);
    assert ContentImage(j.m, d) == [65] + [0] == [65, 0];
    Empty(ContentImage(j.m, d));
  }

  lemma LetterIsKept(b: Byte)
    requires b != 0
    ensures NonZero([b]) == [b] && !AllZero([b])
  {
    assert [b][1..] == [] && [b][..0] == [];
    assert [b][0] == b;
  }

  function StringJob(): Job {
    Job(Module(0, [], [], map[], [], [], None, map[2 := "string"], map[]), Policy({}, {}, {}, false))
  }
}
