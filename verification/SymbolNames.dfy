/** The queries on symbols and the names made from them, said by positions in the list of symbols. */
module SymbolNames {
  import opened Common
  import opened Numerals
  import opened Program

  // ---- selections ----

  lemma PickedBefore<T>(x: T, all: seq<T>, picked: seq<T>, at: seq<nat>, taken: bool) returns (r: seq<nat>)
    requires PickedAt(all, picked, at)
    ensures PickedAt([x] + all, (if taken then [x] else []) + picked, r)
    ensures forall k :: 0 <= k < |all| && k in at ==> k + 1 in r
    ensures taken ==> 0 in r
  {
    var moved := seq(|at|, i requires 0 <= i < |at| => at[i] + 1);
    r := (if taken then [0] else []) + moved;
    forall k | 0 <= k < |all| && k in at
      ensures k + 1 in r
    {
      var i :| 0 <= i < |at| && at[i] == k;
      assert moved[i] == k + 1 && moved[i] in moved;
    }
  }

  /** The symbols at an address, in their order: every position of one is picked, and no other. */
  lemma {:induction false} SymbolsInOrder(symbols: seq<Symbol>, a: nat) returns (at: seq<nat>)
    ensures PickedAt(symbols, SymbolsAt(symbols, a), at)
    ensures forall k :: 0 <= k < |symbols| ==> (k in at <==> symbols[k].address == Some(a))
  {
    if symbols == [] {
      at := [];
    } else {
      var rest := SymbolsInOrder(symbols[1..], a);
      at := PickedBefore(symbols[0], symbols[1..], SymbolsAt(symbols[1..], a), rest, symbols[0].address == Some(a));
      assert [symbols[0]] + symbols[1..] == symbols;
      forall k | 0 <= k < |symbols|
        ensures k in at <==> symbols[k].address == Some(a)
      {
        if symbols[k].address == Some(a) && k > 0 {
          assert symbols[1..][k - 1] == symbols[k];
        }
        if k in at {
          var i :| 0 <= i < |at| && at[i] == k;
          SymbolsAtAddress(symbols, a, SymbolsAt(symbols, a)[i]);
        }
      }
    }
  }

  predicate FirstWithId(symbols: seq<Symbol>, id: Identifier, k: nat) {
    k < |symbols| && symbols[k].id == id && forall l :: 0 <= l < k ==> symbols[l].id != id
  }

  /** The first symbol with the identifier is found, if there is one. */
  lemma {:induction false} FoundById(symbols: seq<Symbol>, id: Identifier)
    ensures match SymbolById(symbols, id)
      case None => forall k :: 0 <= k < |symbols| ==> symbols[k].id != id
      case Some(s) => exists k: nat :: FirstWithId(symbols, id, k) && symbols[k] == s
  {
    if symbols != [] {
      if symbols[0].id == id {
        assert FirstWithId(symbols, id, 0);
      } else {
        FoundById(symbols[1..], id);
        if k: nat :| FirstWithId(symbols[1..], id, k) && SymbolById(symbols[1..], id) == Some(symbols[1..][k]) {
          FoundLater(symbols, id, k);
        }
      }
    }
  }

  lemma FoundLater(symbols: seq<Symbol>, id: Identifier, k: nat)
    requires symbols != [] && symbols[0].id != id && FirstWithId(symbols[1..], id, k)
    ensures FirstWithId(symbols, id, k + 1) && symbols[k + 1] == symbols[1..][k]
  {
    forall l | 0 <= l < k + 1
      ensures symbols[l].id != id
    {
      if l > 0 {
        assert symbols[1..][l - 1].id != id;
      }
    }
  }

  // ---- ambiguous names ----

  /** Two symbols have the name. */
  ghost predicate Shared(m: Module, name: string) {
    exists k, l :: 0 <= k < l < |m.symbols| && m.symbols[k].name == name && m.symbols[l].name == name
  }

  lemma {:induction false} CountedOnce(symbols: seq<Symbol>, name: string) returns (k: nat)
    requires NameCount(symbols, name) >= 1
    ensures k < |symbols| && symbols[k].name == name
  {
    if symbols[0].name == name {
      k := 0;
    } else {
      var n := CountedOnce(symbols[1..], name);
      k := n + 1;
    }
  }

  lemma {:induction false} CountedTwice(symbols: seq<Symbol>, name: string) returns (k: nat, l: nat)
    requires NameCount(symbols, name) >= 2
    ensures k < l < |symbols| && symbols[k].name == name && symbols[l].name == name
  {
    if symbols[0].name == name {
      var n := CountedOnce(symbols[1..], name);
      k, l := 0, n + 1;
    } else {
      var i, n := CountedTwice(symbols[1..], name);
      k, l := i + 1, n + 1;
    }
  }

  /** A name is ambiguous if and only if two symbols have it. */
  lemma AmbiguousExactly(m: Module, name: string)
    ensures IsAmbiguous(m, name) <==> Shared(m, name)
  {
    if IsAmbiguous(m, name) {
      var k, l := CountedTwice(m.symbols, name);
    }
    if Shared(m, name) {
      var k, l :| 0 <= k < l < |m.symbols| && m.symbols[k].name == name && m.symbols[l].name == name;
      NameCountTwice(m.symbols, k, l);
    }
  }

  // ---- the names of functions ----

  /** The first symbol at address x. */
  predicate FirstSymbolAt(m: Module, x: nat, k: nat) {
    && k < |m.symbols| && m.symbols[k].address == Some(x)
    && forall l :: 0 <= l < k ==> m.symbols[l].address != Some(x)
  }

  predicate HasSymbol(m: Module, x: nat) {
    exists k :: 0 <= k < |m.symbols| && m.symbols[k].address == Some(x)
  }

  /** The name of a function at address x, written hex, whose first symbol is the k-th. */
  ghost predicate NamedAfter(m: Module, k: nat, hex: string, name: string) {
    k < |m.symbols| &&
    name == if Shared(m, m.symbols[k].name) then m.symbols[k].name + ("_" + hex) else m.symbols[k].name
  }

  /**
   The name of the function at the entry x: that of its first symbol, with the address behind it if
   another symbol has the same name; without a symbol, a name made from the address.
   */
  ghost predicate IsFunctionName(m: Module, x: nat, name: string) {
    if HasSymbol(m, x) then
      exists hex, k: nat :: IsNumeral(hex, x, true) && FirstSymbolAt(m, x, k) && NamedAfter(m, k, hex, name)
    else exists hex :: IsNumeral(hex, x, true) && name == "unknown_function_" + hex
  }

  lemma FirstOfSymbols(m: Module, x: nat) returns (k: nat)
    requires SymbolsAt(m.symbols, x) != []
    ensures FirstSymbolAt(m, x, k) && m.symbols[k] == SymbolsAt(m.symbols, x)[0]
  {
    var at := SymbolsInOrder(m.symbols, x);
    k := at[0];
    assert k in at;
    forall l | l in at
      ensures k <= l
    {
      var i :| 0 <= i < |at| && at[i] == l;
    }
  }

  lemma NoSymbols(m: Module, x: nat)
    ensures SymbolsAt(m.symbols, x) == [] <==> !HasSymbol(m, x)
  {
    var at := SymbolsInOrder(m.symbols, x);
    if SymbolsAt(m.symbols, x) != [] {
      assert at[0] in at;
    }
  }

  /** A function entry has exactly this name. */
  lemma FunctionNameExactly(m: Module, x: nat, name: string)
    requires x in m.entries
    ensures FunctionName(m, x) == name <==> IsFunctionName(m, x, name)
  {
    var hex := ShowNat(x, true);
    ShownNumeral(x, true);
    NoSymbols(m, x);
    if SymbolsAt(m.symbols, x) == [] {
      UnknownName(m, x, name, hex);
    } else {
      var k := FirstOfSymbols(m, x);
      AmbiguousExactly(m, m.symbols[k].name);
      KnownName(m, x, name, hex, k);
      assert m.symbols[k].name + "_" + hex == m.symbols[k].name + ("_" + hex);
    }
  }

  lemma UnknownName(m: Module, x: nat, name: string, hex: string)
    requires !HasSymbol(m, x) && hex == ShowNat(x, true) && IsNumeral(hex, x, true)
    ensures IsFunctionName(m, x, name) <==> name == "unknown_function" + "_" + hex
  {
    assert "unknown_function" + "_" + hex == "unknown_function_" + hex;
    if IsFunctionName(m, x, name) {
      var h :| IsNumeral(h, x, true) && name == "unknown_function_" + h;
      NumeralIsShown(h, x, true);
    }
  }

  lemma KnownName(m: Module, x: nat, name: string, hex: string, k: nat)
    requires FirstSymbolAt(m, x, k) && hex == ShowNat(x, true) && IsNumeral(hex, x, true)
    ensures IsFunctionName(m, x, name) <==> NamedAfter(m, k, hex, name)
  {
    assert HasSymbol(m, x);
    if IsFunctionName(m, x, name) {
      var h, l: nat :| IsNumeral(h, x, true) && FirstSymbolAt(m, x, l) && NamedAfter(m, l, h, name);
      NumeralIsShown(h, x, true);
      FirstIsUnique(m, x, k, l);
    }
  }

  lemma FirstIsUnique(m: Module, x: nat, k: nat, l: nat)
    requires FirstSymbolAt(m, x, k) && FirstSymbolAt(m, x, l)
    ensures k == l
  {
  }

  // ---- the labels of symbols ----

  /** Names that an assembler would take for registers or operators. */
  predicate IsReservedWord(name: string) {
    || name == "FS" || name == "MOD" || name == "DIV" || name == "NOT" || name == "mod" || name == "div"
    || name == "not" || name == "and" || name == "or" || name == "shr" || name == "Si"
  }

  /** A reserved word is marked; any other name is printed as it is, so that no reserved word is. */
  lemma Renaming(name: string)
    ensures !IsReservedWord(FormatSymbolName(name))
    ensures FormatSymbolName(name) == if IsReservedWord(name) then name + "_renamed" else name
  {
    assert name in RESERVED <==> IsReservedWord(name);
  }

  /** The label of a symbol at address a: its name, or one made from the address if another symbol has its name. */
  ghost predicate IsLabel(m: Module, s: Symbol, a: nat, text: string) {
    if Shared(m, s.name) then exists hex :: IsNumeral(hex, a, true) && text == ".L_" + hex
    else text == if IsReservedWord(s.name) then s.name + "_renamed" else s.name
  }

  lemma AddressNameExactly(a: nat, text: string)
    ensures text == AddressName(a) <==> exists hex :: IsNumeral(hex, a, true) && text == ".L_" + hex
  {
    ShownNumeral(a, true);
    assert AddressName(a) == ".L_" + ShowNat(a, true);
    if hex :| IsNumeral(hex, a, true) && text == ".L_" + hex {
      NumeralIsShown(hex, a, true);
    }
  }

  lemma LabelExactly(m: Module, s: Symbol, a: nat, text: string)
    ensures LabelName(m, s, a) == text <==> IsLabel(m, s, a, text)
  {
    AmbiguousExactly(m, s.name);
    Renaming(s.name);
    AddressNameExactly(a, text);
  }

  /**
   The name of a function is kept even if it is a reserved word, which a label is not: the function is
   declared under a name that nothing refers to.
   */
  lemma ReservedFunction(m: Module, x: nat, k: nat)
    requires x in m.entries && FirstSymbolAt(m, x, k)
    requires IsReservedWord(m.symbols[k].name) && !Shared(m, m.symbols[k].name)
    ensures FunctionName(m, x) == m.symbols[k].name
    ensures LabelName(m, m.symbols[k], x) == m.symbols[k].name + "_renamed"
  {
    ShownNumeral(x, true);
    assert HasSymbol(m, x);
    assert NamedAfter(m, k, ShowNat(x, true), m.symbols[k].name);
    FunctionNameExactly(m, x, m.symbols[k].name);
    LabelExactly(m, m.symbols[k], x, m.symbols[k].name + "_renamed");
  }
}
