/** Tiling, stability and conservation of the layout. */
module LayoutTheorems {
  import opened Common
  import opened Intervals
  import opened Packings
  import opened MergeTheorems
  import opened LayoutSpec

  // ---- addresses do not matter to the merge ----

  lemma {:induction false} OwnerIgnoresAddresses(s: seq<Interval>, block: Identifier, i: nat)
    requires i <= |s|
    ensures OwnerFrom(EraseAll(s), block, i) == OwnerFrom(s, block, i)
    decreases |s| - i
  {
    if i < |s| {
      OwnerIgnoresAddresses(s, block, i + 1);
    }
  }

  lemma {:induction false} JudgeIgnoresAddresses(s: seq<Interval>, i: nat, es: seq<Edge>)
    requires i < |s| && s[i].code != []
    ensures JudgeAll(EraseAll(s), i, es) == JudgeAll(s, i, es)
  {
    if es != [] {
      if es[0].target.CodeNode? {
        OwnerIgnoresAddresses(s, es[0].target.block, 0);
      }
      assert Judge(EraseAll(s), i, es[0]) == Judge(s, i, es[0]);
      JudgeIgnoresAddresses(s, i, es[1..]);
    }
  }

  lemma {:induction false} ScanIgnoresAddresses(s: seq<Interval>, cfg: Cfg, i: nat)
    requires i <= |s|
    ensures ScanFrom(EraseAll(s), cfg, i) == ScanFrom(s, cfg, i)
    decreases |s| - i
  {
    if i < |s| {
      ScanIgnoresAddresses(s, cfg, i + 1);
      if s[i].code != [] {
        JudgeIgnoresAddresses(s, i, ScannedEdges(s, cfg, i));
      }
    }
  }

  lemma AbsorbIgnoresAddresses(s: seq<Interval>, i: nat, j: nat)
    requires AllFilled(s) && CanFuse(s, i, j)
    ensures Absorb(EraseAll(s), i, j) == EraseAll(Absorb(s, i, j))
  {
  }

  lemma {:induction false} MergeIgnoresAddresses(s: seq<Interval>, cfg: Cfg)
    requires Fusable(s, cfg)
    ensures Fusable(EraseAll(s), cfg)
    ensures var r := FindAndMerge(s, cfg);
      FindAndMerge(EraseAll(s), cfg) == Merged(r.ok, EraseAll(r.intervals))
    decreases |s|
  {
    ScanIgnoresAddresses(s, cfg, 0);
    match ScanFrom(s, cfg, 0)
    case Fuse(i, j) =>
      AbsorbIgnoresAddresses(s, i, j);
      MergeIgnoresAddresses(Absorb(s, i, j), cfg);
    case _ =>
  }

  // ---- end-to-end placement ----

  lemma {:induction false} AssignTwice(s: seq<Interval>, t: seq<Interval>, a: nat)
    requires EraseAll(s) == EraseAll(t)
    ensures AssignFrom(s, a) == AssignFrom(t, a)
    decreases |s|
  {
    assert |s| == |t|;
    if s != [] {
      assert s[0].(address := None) == EraseAll(s)[0] == EraseAll(t)[0] == t[0].(address := None);
      assert EraseAll(s[1..]) == EraseAll(s)[1..];
      assert EraseAll(t[1..]) == EraseAll(t)[1..];
      assert s[0].(address := Some(a)) == s[0].(address := None).(address := Some(a));
      AssignTwice(s[1..], t[1..], Wrap(a + s[0].size));
    }
  }

  lemma {:induction false} EraseAssigned(s: seq<Interval>, a: nat)
    ensures EraseAll(AssignFrom(s, a)) == EraseAll(s)
    decreases |s|
  {
    if s != [] {
      var t := Wrap(a + s[0].size);
      EraseAssigned(s[1..], t);
      var r := AssignFrom(s, a);
      assert r[1..] == AssignFrom(s[1..], t);
      forall k | 0 <= k < |s|
        ensures EraseAll(r)[k] == EraseAll(s)[k]
      {
        if k > 0 {
          assert EraseAll(r[1..])[k - 1] == EraseAll(s[1..])[k - 1];
        }
      }
    }
  }

  lemma {:induction false} EraseKeepsSize(s: seq<Interval>)
    ensures SizeSum(EraseAll(s)) == SizeSum(s)
  {
    if s != [] {
      EraseKeepsSize(s[1..]);
      assert EraseAll(s)[1..] == EraseAll(s[1..]);
    }
  }

  lemma {:induction false} AssignConcat(s: seq<Interval>, t: seq<Interval>, a: nat)
    ensures AssignFrom(s + t, Wrap(a)) == AssignFrom(s, Wrap(a)) + AssignFrom(t, EndAddress(s, a))
    decreases |s|
  {
    if s == [] {
      assert s + t == t;
    } else {
      WrapSum(a, s[0].size);
      AssignConcat(s[1..], t, a + s[0].size);
      assert (s + t)[1..] == s[1..] + t;
    }
  }

  lemma PlacedAgain(s: seq<Interval>, a: nat)
    ensures AssignFrom(AssignFrom(s, a), a) == AssignFrom(s, a)
    ensures SizeSum(AssignFrom(s, a)) == SizeSum(s)
  {
    EraseAssigned(s, a);
    AssignTwice(s, AssignFrom(s, a), a);
    EraseKeepsSize(s);
    EraseKeepsSize(AssignFrom(s, a));
  }

  lemma FlatCons(s: seq<Interval>, rest: Sections)
    ensures Flat([s] + rest) == s + Flat(rest)
  {
    assert ([s] + rest)[1..] == rest;
  }

  /** The first section, then a placement of the others. */
  lemma OnePlacementMore(s: seq<Interval>, rest: Sections, x: seq<Interval>, a: nat)
    requires a < ADDRESS_SPACE && Flat(rest) == AssignFrom(x, EndAddress(s, a))
    ensures Flat([AssignFrom(s, a)] + rest) == AssignFrom(s + x, a)
  {
    assert Wrap(a) == a;
    AssignConcat(s, x, a);
    FlatCons(AssignFrom(s, a), rest);
  }

  lemma {:induction false} LayoutPlaces(ms: Sections, cfg: Cfg, a: nat) returns (x: seq<Interval>)
    requires SectionsFusable(ms, cfg) && LayoutFrom(ms, cfg, a).ok && a < ADDRESS_SPACE
    ensures Flat(LayoutFrom(ms, cfg, a).sections) == AssignFrom(x, a)
    decreases |ms|
  {
    if ms == [] {
      x := [];
    } else {
      var s := FindAndMerge(ms[0], cfg).intervals;
      LayoutTurn(ms, cfg, a, s);
      var y := LayoutPlaces(ms[1..], cfg, EndAddress(s, a));
      OnePlacementMore(s, LayoutFrom(ms[1..], cfg, EndAddress(s, a)).sections, y, a);
      x := s + y;
    }
  }

  /** A successful layout is one placement of all intervals, across section boundaries. */
  lemma LayoutIsOnePlacement(ms: Sections, cfg: Cfg, a: nat)
    requires SectionsFusable(ms, cfg) && LayoutFrom(ms, cfg, a).ok && a < ADDRESS_SPACE
    ensures var r := Flat(LayoutFrom(ms, cfg, a).sections); r == AssignFrom(r, a)
  {
    var x := LayoutPlaces(ms, cfg, a);
    PlacedAgain(x, a);
  }

  lemma PlacedAddress(s: seq<Interval>, placed: seq<Interval>, a: nat, n: nat)
    requires placed == AssignFrom(s, a) && a < ADDRESS_SPACE && n < |s|
    ensures placed[n].address == Some(EndAddress(s[..n], a))
  {
    AssignStep(s, a, n);
  }

  /** The address of an interval is the remainder of the sizes before it, however large they are. */
  lemma AddressIsRemainder(ms: Sections, cfg: Cfg, n: nat)
    requires SectionsFusable(ms, cfg) && LayoutModule(ms, cfg).ok && n < |Flat(LayoutModule(ms, cfg).sections)|
    ensures var r := Flat(LayoutModule(ms, cfg).sections);
      r[n].address == Some(SizeSum(r[..n]) % ADDRESS_SPACE)
  {
    var r := Flat(LayoutModule(ms, cfg).sections);
    LayoutIsOnePlacement(ms, cfg, 0);
    PlacedAddress(r, r, 0, n);
    WrapIsRemainder(SizeSum(r[..n]));
  }

  lemma SizeSumOrder(s: seq<Interval>, n: nat, l: nat)
    requires n < l < |s|
    ensures SizeSum(s[..n]) + s[n].size <= SizeSum(s[..l])
  {
    SizeSumPrefix(s[..l], n);
    assert s[..l][..n] == s[..n];
  }

  /** Interval n of s occupies the addresses from the sum of the sizes before it on, unwrapped. */
  predicate Placed64(s: seq<Interval>, n: nat)
    requires n < |s|
  {
    s[n].address == Some(SizeSum(s[..n])) && SizeSum(s[..n]) + s[n].size <= ADDRESS_SPACE
  }

  predicate Tiled(s: seq<Interval>) {
    forall n :: 0 <= n < |s| && s[n].size > 0 ==> Placed64(s, n)
  }

  lemma {:induction false} OverflowWitness(s: seq<Interval>, limit: nat)
    requires SizeSum(s) > limit
    ensures exists n :: 0 <= n < |s| && s[n].size > 0 && SizeSum(s[..n]) + s[n].size > limit
    decreases |s|
  {
    var last := |s| - 1;
    SizeSumPrefix(s, last);
    assert s[..last + 1] == s;
    if s[last].size == 0 {
      OverflowWitness(s[..last], limit);
      var n :| 0 <= n < last && s[n].size > 0 && SizeSum(s[..last][..n]) + s[n].size > limit;
      assert s[..last][..n] == s[..n];
    }
  }

  lemma TileAt(r: seq<Interval>, n: nat)
    requires SizeSum(r) <= ADDRESS_SPACE && n < |r| && r[n].size > 0
    requires r[n].address == Some(Wrap(SizeSum(r[..n])))
    ensures Placed64(r, n)
  {
    SizeSumPrefix(r, n);
  }

  /** The intervals tile the address space from 0 on exactly when they fit into it. */
  lemma LayoutTiles(ms: Sections, cfg: Cfg)
    requires SectionsFusable(ms, cfg) && LayoutModule(ms, cfg).ok
    ensures var r := Flat(LayoutModule(ms, cfg).sections);
      Tiled(r) <==> SizeSum(r) <= ADDRESS_SPACE
  {
    var r := Flat(LayoutModule(ms, cfg).sections);
    LayoutIsOnePlacement(ms, cfg, 0);
    if SizeSum(r) <= ADDRESS_SPACE {
      forall n | 0 <= n < |r| && r[n].size > 0
        ensures Placed64(r, n)
      {
        PlacedAddress(r, r, 0, n);
        TileAt(r, n);
      }
    } else {
      OverflowWitness(r, ADDRESS_SPACE);
    }
  }

  /** In a tiling, a later interval starts at or after the end of an earlier one. */
  lemma TilesAreDisjoint(s: seq<Interval>, n: nat, l: nat)
    requires Tiled(s) && n < l < |s| && s[n].size > 0 && s[l].size > 0
    ensures s[n].address.Some? && s[l].address.Some?
    ensures s[n].address.value + s[n].size <= s[l].address.value
  {
    SizeSumOrder(s, n, l);
    assert Placed64(s, n) && Placed64(s, l);
  }

  // ---- sections ----

  lemma {:induction false} FlatConcat(ms: Sections, ns: Sections)
    ensures Flat(ms + ns) == Flat(ms) + Flat(ns)
  {
    if ms == [] {
      assert ms + ns == ns;
    } else {
      FlatConcat(ms[1..], ns);
      assert (ms + ns)[1..] == ms[1..] + ns;
      Associate(ms[0], Flat(ms[1..]), Flat(ns));
    }
  }

  /** The address at which section m starts once all sections are laid out. */
  function SectionStart(ms: Sections, m: nat): nat
    requires m <= |ms|
  {
    SizeSum(Flat(ms[..m]))
  }

  lemma FlatAppend(ms: Sections, s: seq<Interval>)
    ensures Flat(ms + [s]) == Flat(ms) + s
  {
    FlatConcat(ms, [s]);
    assert [s][1..] == [];
  }

  lemma SectionSplit(ms: Sections, m: nat)
    requires m < |ms|
    ensures Flat(ms[..m + 1]) == Flat(ms[..m]) + ms[m]
    ensures Flat(ms) == Flat(ms[..m + 1]) + Flat(ms[m + 1..])
  {
    SplitAt(ms, m);
    FlatAppend(ms[..m], ms[m]);
    FlatConcat(ms[..m + 1], ms[m + 1..]);
  }

  lemma SectionEnd(ms: Sections, m: nat)
    requires m < |ms|
    ensures SectionStart(ms, m + 1) == SectionStart(ms, m) + SizeSum(ms[m])
    ensures SectionStart(ms, m + 1) <= SizeSum(Flat(ms))
  {
    SectionSplit(ms, m);
    SizeSumConcat(Flat(ms[..m]), ms[m]);
    SizeSumConcat(Flat(ms[..m + 1]), Flat(ms[m + 1..]));
  }

  lemma SectionOrder(ms: Sections, m: nat, n: nat)
    requires m <= n <= |ms|
    ensures SectionStart(ms, m) <= SectionStart(ms, n)
    decreases n - m
  {
    if m < n {
      SectionEnd(ms, m);
      SectionOrder(ms, m + 1, n);
    }
  }

  /** Where interval k of section m is among all intervals, and what precedes it. */
  lemma PlaceInFlat(ms: Sections, m: nat, k: nat) returns (n: nat)
    requires m < |ms| && k < |ms[m]|
    ensures n < |Flat(ms)| && Flat(ms)[n] == ms[m][k]
    ensures SizeSum(Flat(ms)[..n]) == SectionStart(ms, m) + SizeSum(ms[m][..k])
  {
    var before := Flat(ms[..m]);
    n := |before| + k;
    SectionSplit(ms, m);
    assert Flat(ms)[..n] == before + ms[m][..k];
    SizeSumConcat(before, ms[m][..k]);
  }

  /** Interval k of section m lies inside the one range of addresses of its section. */
  lemma SectionIsContiguous(ms: Sections, m: nat, k: nat)
    requires Tiled(Flat(ms)) && m < |ms| && k < |ms[m]| && ms[m][k].size > 0
    ensures ms[m][k].address == Some(SectionStart(ms, m) + SizeSum(ms[m][..k]))
    ensures SectionStart(ms, m) + SizeSum(ms[m][..k]) + ms[m][k].size <= SectionStart(ms, m + 1)
    ensures SectionStart(ms, m) + SizeSum(ms[m][..k]) + ms[m][k].size <= ADDRESS_SPACE
  {
    var n := PlaceInFlat(ms, m, k);
    assert Placed64(Flat(ms), n);
    SectionEnd(ms, m);
    SizeSumPrefix(ms[m], k);
  }

  // ---- stability ----

  lemma ErasedSection(s: seq<Interval>, cfg: Cfg, a: nat)
    requires Fusable(s, cfg) && FindAndMerge(s, cfg).ok
    ensures Fusable(EraseAll(s), cfg)
    ensures var t := FindAndMerge(s, cfg).intervals;
      && FindAndMerge(EraseAll(s), cfg) == Merged(true, EraseAll(t))
      && AssignFrom(EraseAll(t), a) == AssignFrom(t, a)
      && EndAddress(EraseAll(t), a) == EndAddress(t, a)
  {
    var t := FindAndMerge(s, cfg).intervals;
    MergeIgnoresAddresses(s, cfg);
    EraseKeepsSize(t);
    assert EraseAll(EraseAll(t)) == EraseAll(t);
    AssignTwice(EraseAll(t), t, a);
  }

  lemma RemoveLayoutFusable(ms: Sections, cfg: Cfg)
    requires SectionsFusable(ms, cfg)
    ensures SectionsFusable(RemoveLayout(ms), cfg)
  {
    forall m | 0 <= m < |ms|
      ensures Fusable(RemoveLayout(ms)[m], cfg)
    {
      MergeIgnoresAddresses(ms[m], cfg);
    }
  }

  /** Former addresses have no influence on a successful layout. */
  lemma {:induction false} LayoutIgnoresAddresses(ms: Sections, cfg: Cfg, a: nat)
    requires SectionsFusable(ms, cfg) && LayoutFrom(ms, cfg, a).ok
    ensures SectionsFusable(RemoveLayout(ms), cfg)
    ensures LayoutFrom(RemoveLayout(ms), cfg, a) == LayoutFrom(ms, cfg, a)
    decreases |ms|
  {
    RemoveLayoutFusable(ms, cfg);
    if ms != [] {
      var s := FindAndMerge(ms[0], cfg).intervals;
      LayoutTurn(ms, cfg, a, s);
      LayoutIgnoresAddresses(ms[1..], cfg, EndAddress(s, a));
      ErasedSection(ms[0], cfg, a);
      assert RemoveLayout(ms)[1..] == RemoveLayout(ms[1..]);
      LayoutTurn(RemoveLayout(ms), cfg, a, EraseAll(s));
    }
  }

  /** A settled list, wherever it is placed, is left alone by a further merge. */
  lemma MergeAgain(s: seq<Interval>, cfg: Cfg, a: nat)
    requires Fusable(s, cfg) && FindAndMerge(s, cfg).ok
    ensures var r := AssignFrom(FindAndMerge(s, cfg).intervals, a);
      Fusable(r, cfg) && FindAndMerge(r, cfg) == Merged(true, r)
  {
    var t := FindAndMerge(s, cfg).intervals;
    var r := AssignFrom(t, a);
    EraseAssigned(t, a);
    forall k | 0 <= k < |r|
      ensures Filled(r[k])
    {
      assert EraseAll(r)[k] == EraseAll(t)[k];
    }
    MergeFixpoint(s, cfg);
    ScanSettles(t, cfg, 0);
    ScanIgnoresAddresses(t, cfg, 0);
    ScanIgnoresAddresses(r, cfg, 0);
  }

  lemma PlacedTurn(s: seq<Interval>, rest: Sections, cfg: Cfg, a: nat, next: nat)
    requires Fusable(s, cfg) && SectionsFusable(rest, cfg) && FindAndMerge(s, cfg) == Merged(true, s)
    requires AssignFrom(s, a) == s && next == EndAddress(s, a)
    requires LayoutFrom(rest, cfg, next) == Layout(true, rest)
    ensures SectionsFusable([s] + rest, cfg)
    ensures LayoutFrom([s] + rest, cfg, a) == Layout(true, [s] + rest)
  {
    assert ([s] + rest)[1..] == rest;
    LayoutTurn([s] + rest, cfg, a, s);
  }

  /** A merged section, placed at a, is left alone by merging and by placing it again. */
  lemma PlacedIsStable(s: seq<Interval>, t: seq<Interval>, cfg: Cfg, a: nat) returns (placed: seq<Interval>)
    requires Fusable(s, cfg) && FindAndMerge(s, cfg) == Merged(true, t)
    ensures placed == AssignFrom(t, a) == AssignFrom(placed, a) && EndAddress(placed, a) == EndAddress(t, a)
    ensures Fusable(placed, cfg) && FindAndMerge(placed, cfg) == Merged(true, placed)
  {
    MergeAgain(s, cfg, a);
    PlacedAgain(t, a);
    placed := AssignFrom(t, a);
  }

  /** Laying out again after a success changes nothing at all. */
  lemma {:induction false} LayoutIsIdempotent(ms: Sections, cfg: Cfg, a: nat)
    requires SectionsFusable(ms, cfg) && LayoutFrom(ms, cfg, a).ok
    ensures SectionsFusable(LayoutFrom(ms, cfg, a).sections, cfg)
    ensures LayoutFrom(LayoutFrom(ms, cfg, a).sections, cfg, a) == LayoutFrom(ms, cfg, a)
    decreases |ms|
  {
    if ms != [] {
      var t := FindAndMerge(ms[0], cfg).intervals;
      LayoutTurn(ms, cfg, a, t);
      LayoutIsIdempotent(ms[1..], cfg, EndAddress(t, a));
      var placed := PlacedIsStable(ms[0], t, cfg, a);
      PlacedTurn(placed, LayoutFrom(ms[1..], cfg, EndAddress(t, a)).sections, cfg, a, EndAddress(t, a));
    }
  }

  /** Removing a layout and laying out again restores every address. */
  lemma LayoutAfterRemoval(ms: Sections, cfg: Cfg)
    requires SectionsFusable(ms, cfg) && LayoutModule(ms, cfg).ok
    ensures var r := LayoutModule(ms, cfg);
      SectionsFusable(RemoveLayout(r.sections), cfg) && LayoutModule(RemoveLayout(r.sections), cfg) == r
  {
    LayoutIsIdempotent(ms, cfg, 0);
    LayoutIgnoresAddresses(LayoutModule(ms, cfg).sections, cfg, 0);
  }

  // ---- conservation, for the module ----

  /** The section was merged and, if that succeeded, placed at some address. */
  ghost predicate LaidOutAs(s: seq<Interval>, cfg: Cfg, r: seq<Interval>)
    requires Fusable(s, cfg)
  {
    exists a :: r == SectionLayout(s, cfg, a)
  }

  /** What a layout leaves of a section: it was merged, or it was not touched and the layout failed. */
  ghost predicate Leaves(s: seq<Interval>, cfg: Cfg, r: seq<Interval>, ok: bool)
    requires Fusable(s, cfg)
  {
    && (r == s || LaidOutAs(s, cfg, r))
    && (ok ==> FindAndMerge(s, cfg).ok && LaidOutAs(s, cfg, r))
  }

  lemma LaidOutAt(s: seq<Interval>, cfg: Cfg, a: nat)
    requires Fusable(s, cfg)
    ensures Leaves(s, cfg, SectionLayout(s, cfg, a), FindAndMerge(s, cfg).ok)
  {
  }

  lemma {:induction false} LayoutMergesSections(ms: Sections, cfg: Cfg, a: nat, m: nat)
    requires SectionsFusable(ms, cfg) && m < |ms|
    ensures Leaves(ms[m], cfg, LayoutFrom(ms, cfg, a).sections[m], LayoutFrom(ms, cfg, a).ok)
    decreases |ms|
  {
    var s := FindAndMerge(ms[0], cfg).intervals;
    LaidOutAt(ms[0], cfg, a);
    if FindAndMerge(ms[0], cfg).ok {
      LayoutTurn(ms, cfg, a, s);
      if m > 0 {
        LayoutMergesSections(ms[1..], cfg, EndAddress(s, a), m - 1);
      }
    } else {
      LayoutStops(ms, cfg, a, s);
    }
  }

  lemma SectionLayoutMerges(s: seq<Interval>, cfg: Cfg, a: nat)
    requires Fusable(s, cfg)
    ensures EraseAll(SectionLayout(s, cfg, a)) == EraseAll(FindAndMerge(s, cfg).intervals)
  {
    EraseAssigned(FindAndMerge(s, cfg).intervals, a);
  }

  lemma PackingIgnoresAddresses(s: seq<Interval>, t: seq<Interval>, r: seq<Interval>, homes: seq<Home>)
    requires Packing(s, t, homes) && EraseAll(r) == EraseAll(t)
    ensures Packing(s, r, homes)
  {
    assert |r| == |t|;
    forall k | 0 <= k < |s|
      ensures homes[k].index < |r| && Embeds(s[k], r[homes[k].index], homes[k].base)
    {
      var n := homes[k].index;
      assert Embeds(s[k], t[n], homes[k].base);
      SameButAddress(r, t, n);
    }
  }

  lemma SameButAddress(r: seq<Interval>, t: seq<Interval>, n: nat)
    requires EraseAll(r) == EraseAll(t) && n < |t|
    ensures n < |r| && r[n].(address := None) == t[n].(address := None)
  {
    assert |EraseAll(r)| == |EraseAll(t)|;
    assert EraseAll(r)[n] == EraseAll(t)[n];
  }

  lemma {:induction false} StockIgnoresAddresses(s: seq<Interval>)
    ensures TotalStock(EraseAll(s)) == TotalStock(s)
  {
    if s != [] {
      StockIgnoresAddresses(s[1..]);
      assert EraseAll(s)[1..] == EraseAll(s[1..]);
    }
  }

  lemma PackingSelf(s: seq<Interval>)
    ensures exists homes :: Packing(s, s, homes)
  {
    var homes := seq(|s|, k requires 0 <= k < |s| => Home(k, 0));
    forall k | 0 <= k < |s|
      ensures homes[k].index < |s| && Embeds(s[k], s[homes[k].index], homes[k].base)
    {
      EmbedsSelf(s[k]);
    }
    assert Packing(s, s, homes);
  }

  /**
   Whether or not the layout succeeds, every section keeps its blocks and its bytes, and its
   intervals have been packed without overlap.
   */
  lemma LayoutConserves(ms: Sections, cfg: Cfg, m: nat)
    requires SectionsFusable(ms, cfg) && m < |ms| && Sound(ms[m])
    ensures var r := LayoutModule(ms, cfg).sections[m];
      TotalStock(r) == TotalStock(ms[m]) && exists homes :: Packing(ms[m], r, homes)
  {
    var s, r := ms[m], LayoutModule(ms, cfg).sections[m];
    LayoutMergesSections(ms, cfg, 0, m);
    StockIgnoresAddresses(r);
    if r == s {
      PackingSelf(s);
    } else {
      var a :| r == SectionLayout(s, cfg, a);
      var t := FindAndMerge(s, cfg).intervals;
      SectionLayoutMerges(s, cfg, a);
      MergeConservesStock(s, cfg);
      StockIgnoresAddresses(t);
      MergePacks(s, cfg);
      PackingIgnoresAddresses(s, t, r, Homes(s, cfg));
    }
  }
}
