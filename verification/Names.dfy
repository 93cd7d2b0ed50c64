/** Generated names do not collide with each other, nor with the names of symbols that look like none of them. */
module Names {
  import opened Common
  import opened Numerals
  import opened Program

  lemma LastUnderscoreNotAfter(p: string, h: string, q: string, g: string)
    requires p + "_" + h == q + "_" + g && '_' !in h
    ensures |q| <= |p|
  {
    var s := p + "_" + h;
    assert (q + "_" + g)[|q|] == '_';
    forall k | |p| < k < |s|
      ensures s[k] != '_'
    {
      assert s[k] == h[k - |p| - 1];
    }
  }

  /** A name splits at its last underscore in one way. */
  lemma LastUnderscore(p: string, h: string, q: string, g: string)
    requires p + "_" + h == q + "_" + g && '_' !in h && '_' !in g
    ensures p == q && h == g
  {
    var s := p + "_" + h;
    LastUnderscoreNotAfter(p, h, q, g);
    LastUnderscoreNotAfter(q, g, p, h);
    assert p == s[..|p|] && q == s[..|p|];
    assert h == s[|p| + 1..] && g == s[|p| + 1..];
  }

  lemma DigitsOnly(x: nat)
    ensures '_' !in ShowNat(x, true) && 'r' !in ShowNat(x, true)
  {
    ReadShow(x, true);
  }

  /** Names that end in an address tell the address and what comes before it. */
  lemma AddressSuffix(p: string, x: nat, q: string, y: nat)
    requires p + "_" + ShowNat(x, true) == q + "_" + ShowNat(y, true)
    ensures p == q && x == y
  {
    DigitsOnly(x);
    DigitsOnly(y);
    LastUnderscore(p, ShowNat(x, true), q, ShowNat(y, true));
    ShowNatInjective(x, y, true);
  }

  lemma RenamedHasNoAddress(p: string, x: nat, q: string)
    ensures p + "_" + ShowNat(x, true) != q + "_renamed"
  {
    DigitsOnly(x);
    assert "renamed"[0] == 'r';
    assert q + "_renamed" == q + "_" + "renamed";
    if p + "_" + ShowNat(x, true) == q + "_renamed" {
      LastUnderscore(p, ShowNat(x, true), q, "renamed");
    }
  }

  lemma RenamedOnce(p: string, q: string)
    requires p + "_renamed" == q + "_renamed"
    ensures p == q
  {
    assert |p| == |q|;
    assert p == (p + "_renamed")[..|p|] && q == (q + "_renamed")[..|p|];
  }

  /** No symbol has a name that the printer makes up for a label: that of an address, or a renamed reserved name. */
  ghost predicate NamesAreFree(m: Module) {
    && (forall s, x: nat :: s in m.symbols ==> s.name != AddressName(x))
    && (forall s, r :: s in m.symbols && r in RESERVED ==> s.name != r + "_renamed")
  }

  /** Symbols with the same label are at the same address. */
  lemma LabelTellsAddress(m: Module, s: Symbol, a: nat, t: Symbol, ea: nat)
    requires NamesAreFree(m) && s in m.symbols && t in m.symbols
    requires s.address == Some(a) && t.address == Some(ea)
    requires LabelName(m, s, a) == LabelName(m, t, ea)
    ensures a == ea
  {
    if IsAmbiguous(m, s.name) && IsAmbiguous(m, t.name) {
      AddressSuffix(".L", a, ".L", ea);
    } else if IsAmbiguous(m, s.name) {
      AddressIsNoPlainName(m, t, a);
    } else if IsAmbiguous(m, t.name) {
      AddressIsNoPlainName(m, s, ea);
    } else {
      if s.name in RESERVED && t.name in RESERVED {
        RenamedOnce(s.name, t.name);
      }
      UnambiguousName(m, s, t);
    }
  }

  lemma AddressIsNoPlainName(m: Module, s: Symbol, x: nat)
    requires NamesAreFree(m) && s in m.symbols
    ensures AddressName(x) != FormatSymbolName(s.name)
  {
    if s.name in RESERVED {
      RenamedHasNoAddress(".L", x, s.name);
    }
  }

  /** The function has no symbol of its own, or one whose name is ambiguous: its name is made up. */
  predicate HasMadeUpName(m: Module, x: nat) {
    var found := SymbolsAt(m.symbols, x);
    found == [] || IsAmbiguous(m, found[0].name)
  }

  /**
   The label of a function header is that of a symbol elsewhere only if the name of the function is
   made up, and the symbol happens to be called so.
   */
  lemma OnlyMadeUpNamesCollide(m: Module, s: Symbol, a: nat, x: nat)
    requires NamesAreFree(m) && s in m.symbols && s.address == Some(a) && x in m.entries
    requires FunctionName(m, x) == LabelName(m, s, a) && x != a
    ensures HasMadeUpName(m, x) && s.name == FunctionName(m, x)
  {
    var found := SymbolsAt(m.symbols, x);
    if found != [] {
      SymbolsAtAddress(m.symbols, x, found[0]);
    }
    if IsAmbiguous(m, s.name) {
      if found == [] {
        AddressSuffix("unknown_function", x, ".L", a);
      } else if IsAmbiguous(m, found[0].name) {
        AddressSuffix(found[0].name, x, ".L", a);
      }
    } else if s.name in RESERVED {
      if found == [] {
        RenamedHasNoAddress("unknown_function", x, s.name);
      } else if IsAmbiguous(m, found[0].name) {
        RenamedHasNoAddress(found[0].name, x, s.name);
      }
    } else if !HasMadeUpName(m, x) {
      UnambiguousName(m, s, found[0]);
    }
  }
}
