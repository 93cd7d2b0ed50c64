/**
 What merging conserves. A packing says where every interval of the list before
 went in the list after: inside one interval, from some base offset on. Packings
 compose, so a whole run of merges is one packing.
 */
module Packings {
  import opened Common
  import opened Intervals

  // ---- one interval inside another ----

  function SymAt(iv: Interval, offset: nat): Option<SymExpr> {
    if offset in iv.symexprs then Some(iv.symexprs[offset]) else None
  }

  predicate SymsInside(iv: Interval) {
    forall o :: o in iv.symexprs ==> o < iv.size
  }

  predicate Sound(s: seq<Interval>) {
    forall k :: 0 <= k < |s| ==> Filled(s[k]) && SymsInside(s[k])
  }

  /** What is not initialised reads as zero. */
  function ByteAt(iv: Interval, offset: nat): Byte {
    if offset < |iv.bytes| then iv.bytes[offset] else 0
  }

  /** Bytes, blocks and symbolic expressions of a appear in z, all moved by base. */
  ghost predicate Embeds(a: Interval, z: Interval, base: nat) {
    && base + a.size <= z.size
    && (forall o: nat :: o < a.size ==> ByteAt(a, o) == ByteAt(z, Moved(o, base)))
    && (forall p :: p in a.code ==> p.Shift(base) in z.code)
    && (forall p :: p in a.data ==> p.Shift(base) in z.data)
    && (forall o: nat :: o < a.size ==> SymAt(a, o) == SymAt(z, Moved(o, base)))
  }

  lemma EmbedsTransitive(a: Interval, m: Interval, z: Interval, inner: nat, outer: nat)
    requires Embeds(a, m, inner) && Embeds(m, z, outer)
    ensures Embeds(a, z, outer + inner)
  {
    forall p | p in a.code
      ensures p.Shift(outer + inner) in z.code
    {
      assert p.Shift(inner).Shift(outer) == p.Shift(outer + inner);
    }
    forall p | p in a.data
      ensures p.Shift(outer + inner) in z.data
    {
      assert p.Shift(inner).Shift(outer) == p.Shift(outer + inner);
    }
    forall o: nat | o < a.size
      ensures ByteAt(a, o) == ByteAt(z, Moved(o, outer + inner))
      ensures SymAt(a, o) == SymAt(z, Moved(o, outer + inner))
    {
      assert Moved(Moved(o, inner), outer) == Moved(o, outer + inner);
    }
  }

  // ---- re-homing blocks loses and invents none ----

  function Sizes(ps: seq<Placed>): multiset<(Identifier, nat)> {
    if ps == [] then multiset{} else multiset{(ps[0].block, ps[0].size)} + Sizes(ps[1..])
  }

  lemma {:induction false} InsertKeeps(ps: seq<Placed>, p: Placed)
    ensures Sizes(InsertByOffset(ps, p)) == Sizes(ps) + multiset{(p.block, p.size)}
    ensures forall q :: q in InsertByOffset(ps, p) <==> q == p || q in ps
  {
    if ps == [] {
    } else if p.offset < ps[0].offset {
      assert ([p] + ps)[1..] == ps;
    } else {
      InsertKeeps(ps[1..], p);
      assert ([ps[0]] + InsertByOffset(ps[1..], p))[1..] == InsertByOffset(ps[1..], p);
      assert forall q :: q in ps <==> q == ps[0] || q in ps[1..];
    }
  }

  lemma {:induction false} RehomeKeeps(ps: seq<Placed>, qs: seq<Placed>, base: nat)
    ensures Sizes(Rehome(ps, qs, base)) == Sizes(ps) + Sizes(qs)
    ensures forall p :: p in ps ==> p in Rehome(ps, qs, base)
    ensures forall q :: q in qs ==> q.Shift(base) in Rehome(ps, qs, base)
    decreases |qs|
  {
    if qs != [] {
      var q := qs[0].Shift(base);
      InsertKeeps(ps, q);
      RehomeKeeps(InsertByOffset(ps, q), qs[1..], base);
      forall x | x in qs
        ensures x.Shift(base) in Rehome(ps, qs, base)
      {
        assert x == qs[0] || x in qs[1..];
      }
    }
  }

  lemma ShiftedSymExprs(m: map<nat, SymExpr>, base: nat, o: nat)
    ensures o < base ==> o !in ShiftSymExprs(m, base)
    ensures Moved(o, base) in ShiftSymExprs(m, base) <==> o in m
    ensures o in m ==> ShiftSymExprs(m, base)[Moved(o, base)] == m[o]
  {
    assert Moved(o, base) - base == o;
  }

  lemma JoinSymExprs(a: Interval, b: Interval, o: nat)
    requires Full(a) && Full(b) && SymsInside(a) && SymsInside(b)
    ensures o < a.size ==> SymAt(a, o) == SymAt(Join(a, b), Moved(o, 0))
    ensures o < b.size ==> SymAt(b, o) == SymAt(Join(a, b), Moved(o, a.size))
    ensures o in Join(a, b).symexprs ==> o < a.size + b.size
  {
    ShiftedSymExprs(b.symexprs, a.size, o);
  }

  lemma ShiftZero(p: Placed)
    ensures p.Shift(0) == p
  {
  }

  lemma JoinEmbedsSource(a: Interval, b: Interval)
    requires Full(a) && Full(b) && SymsInside(a) && SymsInside(b)
    ensures Embeds(a, Join(a, b), 0)
  {
    RehomeKeeps(a.code, b.code, a.size);
    RehomeKeeps(a.data, b.data, a.size);
    forall p: Placed {
      ShiftZero(p);
    }
    forall o: nat | o < a.size
      ensures SymAt(a, o) == SymAt(Join(a, b), Moved(o, 0))
    {
      JoinSymExprs(a, b, o);
    }
  }

  lemma JoinEmbedsTarget(a: Interval, b: Interval)
    requires Full(a) && Full(b) && SymsInside(a) && SymsInside(b)
    ensures Embeds(b, Join(a, b), a.size)
  {
    RehomeKeeps(a.code, b.code, a.size);
    RehomeKeeps(a.data, b.data, a.size);
    forall o: nat | o < b.size
      ensures SymAt(b, o) == SymAt(Join(a, b), Moved(o, a.size))
    {
      JoinSymExprs(a, b, o);
    }
  }

  lemma JoinSound(a: Interval, b: Interval)
    requires Full(a) && Full(b) && SymsInside(a) && SymsInside(b)
    ensures SymsInside(Join(a, b))
  {
    forall o | o in Join(a, b).symexprs
      ensures o < a.size + b.size
    {
      JoinSymExprs(a, b, o);
    }
  }

  // ---- packings ----

  datatype Home = Home(index: nat, base: nat)

  ghost predicate Packing(s: seq<Interval>, r: seq<Interval>, homes: seq<Home>) {
    && |homes| == |s|
    && (forall k :: 0 <= k < |s| ==> homes[k].index < |r| && Embeds(s[k], r[homes[k].index], homes[k].base))
    && (forall k, l :: 0 <= k < |s| && 0 <= l < |s| && k != l && homes[k].index == homes[l].index ==>
          Apart(s[k], homes[k], s[l], homes[l]))
  }

  predicate Apart(a: Interval, ha: Home, b: Interval, hb: Home) {
    ha.base + a.size <= hb.base || hb.base + b.size <= ha.base
  }

  function Compose(first: seq<Home>, second: seq<Home>): (r: seq<Home>)
    requires forall k :: 0 <= k < |first| ==> first[k].index < |second|
    ensures |r| == |first|
    ensures forall k :: 0 <= k < |first| ==>
      r[k] == Home(second[first[k].index].index, second[first[k].index].base + first[k].base)
  {
    seq(|first|, k requires 0 <= k < |first| =>
      Home(second[first[k].index].index, second[first[k].index].base + first[k].base))
  }

  lemma ComposedEmbeds(s: seq<Interval>, m: seq<Interval>, r: seq<Interval>, first: seq<Home>, second: seq<Home>,
      k: nat)
    requires Packing(s, m, first) && Packing(m, r, second) && k < |s|
    ensures var h := Compose(first, second)[k]; h.index < |r| && Embeds(s[k], r[h.index], h.base)
  {
    EmbedsTransitive(s[k], m[first[k].index], r[second[first[k].index].index], first[k].base,
      second[first[k].index].base);
  }

  lemma ComposedApart(s: seq<Interval>, m: seq<Interval>, r: seq<Interval>, first: seq<Home>, second: seq<Home>,
      k: nat, l: nat)
    requires Packing(s, m, first) && Packing(m, r, second) && k < |s| && l < |s| && k != l
    requires Compose(first, second)[k].index == Compose(first, second)[l].index
    ensures Apart(s[k], Compose(first, second)[k], s[l], Compose(first, second)[l])
  {
    var x, y := first[k].index, first[l].index;
    assert Embeds(s[k], m[x], first[k].base) && Embeds(s[l], m[y], first[l].base);
    if x != y {
      assert Apart(m[x], second[x], m[y], second[y]);
    }
  }

  lemma PackingsCompose(s: seq<Interval>, m: seq<Interval>, r: seq<Interval>, first: seq<Home>, second: seq<Home>)
    requires Packing(s, m, first) && Packing(m, r, second)
    ensures Packing(s, r, Compose(first, second))
  {
    var homes := Compose(first, second);
    forall k | 0 <= k < |s|
      ensures homes[k].index < |r| && Embeds(s[k], r[homes[k].index], homes[k].base)
    {
      ComposedEmbeds(s, m, r, first, second, k);
    }
    forall k, l | 0 <= k < |s| && 0 <= l < |s| && k != l && homes[k].index == homes[l].index
      ensures Apart(s[k], homes[k], s[l], homes[l])
    {
      ComposedApart(s, m, r, first, second, k, l);
    }
  }

  /** Where interval k sits after interval j was absorbed by interval i. */
  function HomesOfAbsorb(s: seq<Interval>, i: nat, j: nat): (r: seq<Home>)
    requires i < |s| && j < |s| && i != j
    ensures |r| == |s|
  {
    seq(|s|, k requires 0 <= k < |s| => Home(After(k, i, j), if k == j then s[i].size else 0))
  }

  lemma EmbedsSelf(a: Interval)
    ensures Embeds(a, a, 0)
  {
    forall p: Placed
      ensures p.Shift(0) == p
    {
    }
    assert forall o: nat :: Moved(o, 0) == o;
  }

  lemma AbsorbSound(s: seq<Interval>, i: nat, j: nat)
    requires Sound(s) && CanFuse(s, i, j)
    ensures Sound(Absorb(s, i, j))
  {
    JoinSound(s[i], s[j]);
    var t := s[i := Join(s[i], s[j])];
    assert forall k :: 0 <= k < |t| ==> Filled(t[k]) && SymsInside(t[k]);
  }

  lemma AbsorbEmbeds(s: seq<Interval>, i: nat, j: nat, k: nat)
    requires Sound(s) && CanFuse(s, i, j) && k < |s|
    ensures var home := HomesOfAbsorb(s, i, j)[k];
      home.index < |s| - 1 && Embeds(s[k], Absorb(s, i, j)[home.index], home.base)
  {
    if k == i {
      JoinEmbedsSource(s[i], s[j]);
    } else if k == j {
      JoinEmbedsTarget(s[i], s[j]);
    } else {
      EmbedsSelf(s[k]);
    }
  }

  lemma AbsorbApart(s: seq<Interval>, i: nat, j: nat, k: nat, l: nat)
    requires Sound(s) && CanFuse(s, i, j) && k < |s| && l < |s| && k != l
    ensures var homes := HomesOfAbsorb(s, i, j);
      homes[k].index == homes[l].index ==> Apart(s[k], homes[k], s[l], homes[l])
  {
  }

  lemma AbsorbPacks(s: seq<Interval>, i: nat, j: nat)
    requires Sound(s) && CanFuse(s, i, j)
    ensures Packing(s, Absorb(s, i, j), HomesOfAbsorb(s, i, j))
  {
    var r, homes := Absorb(s, i, j), HomesOfAbsorb(s, i, j);
    forall k | 0 <= k < |s|
      ensures homes[k].index < |r| && Embeds(s[k], r[homes[k].index], homes[k].base)
    {
      AbsorbEmbeds(s, i, j, k);
    }
    forall k, l | 0 <= k < |s| && 0 <= l < |s| && k != l && homes[k].index == homes[l].index
      ensures Apart(s[k], homes[k], s[l], homes[l])
    {
      AbsorbApart(s, i, j, k, l);
    }
  }

  /** Where every interval sits at the end of the whole run of merges. */
  ghost function Homes(s: seq<Interval>, cfg: Cfg): (r: seq<Home>)
    requires Fusable(s, cfg)
    ensures |r| == |s|
    ensures forall k :: 0 <= k < |s| ==> r[k].index < |FindAndMerge(s, cfg).intervals|
    decreases |s|
  {
    match ScanFrom(s, cfg, 0)
    case Settled => seq(|s|, k requires 0 <= k < |s| => Home(k, 0))
    case Stuck => seq(|s|, k requires 0 <= k < |s| => Home(k, 0))
    case Fuse(i, j) => Compose(HomesOfAbsorb(s, i, j), Homes(Absorb(s, i, j), cfg))
  }

  /** Successful or not, a run of merges packs the intervals it was given. */
  lemma {:induction false} MergePacks(s: seq<Interval>, cfg: Cfg)
    requires Sound(s) && Fusable(s, cfg)
    ensures Sound(FindAndMerge(s, cfg).intervals)
    ensures Packing(s, FindAndMerge(s, cfg).intervals, Homes(s, cfg))
    decreases |s|
  {
    match ScanFrom(s, cfg, 0)
    case Fuse(i, j) =>
      AbsorbSound(s, i, j);
      AbsorbPacks(s, i, j);
      MergePacks(Absorb(s, i, j), cfg);
      PackingsCompose(s, Absorb(s, i, j), FindAndMerge(s, cfg).intervals,
        HomesOfAbsorb(s, i, j), Homes(Absorb(s, i, j), cfg));
    case _ =>
      forall k | 0 <= k < |s|
        ensures Embeds(s[k], s[k], 0)
      {
        EmbedsSelf(s[k]);
      }
  }
}
