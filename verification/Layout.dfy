/** The layout engine: byte intervals are resized, filled, placed and removed in place. */
module Layout {
  import opened Common
  import opened Intervals
  import opened LayoutSpec

  class ByteInterval {
    var address: Option<nat>
    var size: nat
    var bytes: seq<Byte>
    var code: seq<Placed>
    var data: seq<Placed>
    var symexprs: map<nat, SymExpr>

    constructor (value: Interval)
      ensures Value() == value
    {
      address, size, bytes := value.address, value.size, value.bytes;
      code, data, symexprs := value.code, value.data, value.symexprs;
    }

    ghost function Value(): Interval
      reads this
    {
      Interval(address, size, bytes, code, data, symexprs)
    }

    method SetAddress(a: Option<nat>)
      modifies this`address
      ensures Value() == old(Value()).(address := a)
    {
      address := a;
    }

    /** Re-homes a code block of another interval here. */
    method AddCodeBlock(offset: nat, p: Placed)
      modifies this`code
      ensures code == InsertByOffset(old(code), Placed(p.block, offset, p.size))
    {
      code := InsertByOffset(code, Placed(p.block, offset, p.size));
    }

    method AddDataBlock(offset: nat, p: Placed)
      modifies this`data
      ensures data == InsertByOffset(old(data), Placed(p.block, offset, p.size))
    {
      data := InsertByOffset(data, Placed(p.block, offset, p.size));
    }

    method AddSymbolicExpression(offset: nat, e: SymExpr)
      modifies this`symexprs
      ensures symexprs == old(symexprs)[offset := e]
    {
      symexprs := symexprs[offset := e];
    }

    method InsertBytes(position: nat, more: seq<Byte>)
      requires position <= |bytes|
      modifies this`bytes
      ensures bytes == old(bytes)[..position] + more + old(bytes)[position..]
    {
      bytes := bytes[..position] + more + bytes[position..];
    }

    /** Moves every block, symbolic expression and byte of target to the end of this interval. */
    method TakeOver(target: ByteInterval)
      requires target != this
      requires Full(Value()) && Full(target.Value())
      modifies this
      ensures Value() == Join(old(Value()), target.Value())
    {
      ghost var was := Value();
      var baseOffset := size;
      size := size + target.size;
      var snapshot := target.code;
      for k := 0 to |snapshot|
        invariant Rehome(code, snapshot[k..], baseOffset) == Rehome(was.code, snapshot, baseOffset)
        invariant Value() == was.(size := was.size + target.size, code := code)
      {
        assert snapshot[k..][1..] == snapshot[k + 1..];
        AddCodeBlock(baseOffset + snapshot[k].offset, snapshot[k]);
      }
      assert snapshot[|snapshot|..] == [];
      ghost var moved := code;
      snapshot := target.data;
      for k := 0 to |snapshot|
        invariant Rehome(data, snapshot[k..], baseOffset) == Rehome(was.data, snapshot, baseOffset)
        invariant Value() == was.(size := was.size + target.size, code := moved, data := data)
      {
        assert snapshot[k..][1..] == snapshot[k + 1..];
        AddDataBlock(baseOffset + snapshot[k].offset, snapshot[k]);
      }
      assert snapshot[|snapshot|..] == [];
      TakeOverSymbolicExpressions(target, baseOffset);
      InsertBytes(baseOffset, target.bytes);
      assert bytes == was.bytes + target.bytes;
    }

    method TakeOverSymbolicExpressions(target: ByteInterval, baseOffset: nat)
      requires target != this
      modifies this`symexprs
      ensures symexprs == old(symexprs) + ShiftSymExprs(target.symexprs, baseOffset)
    {
      ghost var was := symexprs;
      var rest := target.symexprs.Keys;
      ShiftNone(baseOffset);
      assert target.symexprs - rest == map[];
      while rest != {}
        invariant rest <= target.symexprs.Keys
        invariant symexprs == WithShifted(was, target.symexprs, rest, baseOffset)
        decreases |rest|
      {
        var o :| o in rest;
        OneMoreSymExpr(was, target.symexprs, rest, o, baseOffset);
        AddSymbolicExpression(baseOffset + o, target.symexprs[o]);
        rest := rest - {o};
      }
      assert target.symexprs - {} == target.symexprs;
    }
  }

  class Section {
    var intervals: seq<ByteInterval>

    constructor (intervals: seq<ByteInterval>)
      ensures this.intervals == intervals
    {
      this.intervals := intervals;
    }

    ghost function Values(): (r: seq<Interval>)
      reads this, intervals
      ensures |r| == |intervals|
      ensures forall k :: 0 <= k < |r| ==> r[k] == intervals[k].Value()
    {
      seq(|intervals|, k requires 0 <= k < |intervals| reads this, intervals => intervals[k].Value())
    }

    /** The intervals are different objects. */
    ghost predicate Distinct()
      reads this
    {
      forall k, l :: 0 <= k < l < |intervals| ==> intervals[k] != intervals[l]
    }

    /** In addition, intervals with code are full, so that they can be fused. */
    ghost predicate Valid()
      reads this, intervals
    {
      Distinct() && AllFilled(Values())
    }

    /** The interval that owns the code block, if it belongs to this section. */
    method FindOwner(block: Identifier) returns (r: Option<nat>)
      ensures r == OwnerOf(Values(), block)
    {
      for k := 0 to |intervals|
        invariant OwnerOf(Values(), block) == OwnerFrom(Values(), block, k)
      {
        if exists l :: 0 <= l < |intervals[k].code| && intervals[k].code[l].block == block {
          return Some(k);
        }
      }
      return None;
    }

    method JudgeEdge(i: nat, e: Edge) returns (v: Verdict)
      requires Valid() && i < |intervals| && intervals[i].code != []
      ensures v == Judge(Values(), i, e)
    {
      var sourceBI := intervals[i];
      var source := sourceBI.code[|sourceBI.code| - 1];
      if e.kind != Fallthrough {
        return Skip;
      }
      if e.target == ProxyNode {
        return Reject;
      }
      var owner := FindOwner(e.target.block);
      if owner == None {
        return Reject;
      }
      var targetBI := intervals[owner.value];
      if targetBI == sourceBI {
        return Skip;
      }
      if source.offset + source.size != sourceBI.size {
        return Reject;
      }
      if OffsetOf(targetBI.code, e.target.block) != 0 {
        return Reject;
      }
      return Accept(owner.value);
    }

    /** Walks the edges of the first code block of interval i up to the first one that decides. */
    method JudgeEdges(cfg: Cfg, i: nat) returns (v: Verdict)
      requires Valid() && i < |intervals| && intervals[i].code != []
      ensures v == JudgeAll(Values(), i, ScannedEdges(Values(), cfg, i))
    {
      var edges := OutEdges(cfg, intervals[i].code[0].block);
      for n := 0 to |edges|
        invariant JudgeAll(Values(), i, edges) == JudgeAll(Values(), i, edges[n..])
      {
        assert edges[n..][0] == edges[n] && edges[n..][1..] == edges[n + 1..];
        v := JudgeEdge(i, edges[n]);
        if v != Skip {
          return;
        }
      }
      return Skip;
    }

    /** Interval i takes over interval j, which leaves the section. */
    method Fuse(i: nat, j: nat)
      requires Valid() && CanFuse(Values(), i, j)
      modifies this, intervals[i]
      ensures Valid()
      ensures intervals == RemoveAt(old(intervals), j)
      ensures Values() == Absorb(old(Values()), i, j)
    {
      ghost var s := Values();
      intervals[i].TakeOver(intervals[j]);
      assert Values() == s[i := Join(s[i], s[j])];
      intervals := RemoveAt(intervals, j);
      assert Values() == Absorb(s, i, j);
    }

    /** Fuses intervals along fallthrough edges until none is left to fuse. */
    method FindAndMergeBIs(cfg: Cfg) returns (ok: bool)
      requires Valid() && Fusable(Values(), cfg)
      modifies this, intervals
      ensures Valid()
      ensures forall b :: b in intervals ==> b in old(intervals)
      ensures Merged(ok, Values()) == FindAndMerge(old(Values()), cfg)
      decreases |intervals|, 1
    {
      ghost var s := Values();
      for i := 0 to |intervals|
        invariant Values() == s && intervals == old(intervals) && Valid()
        invariant ScanFrom(s, cfg, 0) == ScanFrom(s, cfg, i)
      {
        if intervals[i].code == [] {
          continue;
        }
        var verdict := JudgeEdges(cfg, i);
        match verdict
        case Skip =>
        case Reject =>
          ScanRejects(s, cfg, i);
          return false;
        case Accept(j) =>
          ScanAccepts(s, cfg, i, j);
          ok := FuseAndRestart(cfg, i, j);
          return;
      }
      return true;
    }

    method FuseAndRestart(cfg: Cfg, i: nat, j: nat) returns (ok: bool)
      requires Valid() && CanFuse(Values(), i, j) && Fusable(Absorb(Values(), i, j), cfg)
      modifies this, intervals
      ensures Valid()
      ensures forall b :: b in intervals ==> b in old(intervals)
      ensures Merged(ok, Values()) == FindAndMerge(Absorb(old(Values()), i, j), cfg)
      decreases |intervals|, 0
    {
      Fuse(i, j);
      ok := FindAndMergeBIs(cfg);
    }

    /** Places the intervals end to end from address a on; next is the address after the last. */
    method AssignAddresses(a: nat) returns (next: nat)
      requires Distinct() && a < ADDRESS_SPACE
      modifies intervals
      ensures Distinct()
      ensures Values() == AssignFrom(old(Values()), a)
      ensures next == EndAddress(old(Values()), a)
    {
      ghost var s := Values();
      next := a;
      for k := 0 to |intervals|
        invariant forall l :: 0 <= l < k ==> intervals[l].Value() == AssignFrom(s, a)[l]
        invariant forall l :: k <= l < |intervals| ==> intervals[l].Value() == s[l]
        invariant next == EndAddress(s[..k], a)
      {
        AssignStep(s, a, k);
        intervals[k].SetAddress(Some(next));
        next := Wrap(next + intervals[k].size);
      }
      assert s[..|intervals|] == s;
      assert Values() == AssignFrom(s, a);
    }

    /** Merges the section and, if that succeeds, places it from address a on. */
    method LayOut(cfg: Cfg, a: nat) returns (ok: bool, next: nat)
      requires Valid() && Fusable(Values(), cfg) && a < ADDRESS_SPACE
      modifies this, intervals
      ensures Valid()
      ensures forall b :: b in intervals ==> b in old(intervals)
      ensures ok == FindAndMerge(old(Values()), cfg).ok
      ensures Values() == SectionLayout(old(Values()), cfg, a)
      ensures ok ==> next == AddressAfter(old(Values()), cfg, a)
      ensures next < ADDRESS_SPACE
    {
      ghost var merged := FindAndMerge(Values(), cfg);
      next := a;
      ok := FindAndMergeBIs(cfg);
      assert Values() == merged.intervals && ok == merged.ok;
      if ok {
        assert forall k :: 0 <= k < |intervals| ==> intervals[k] in old(intervals);
        ghost var s := Values();
        next := AssignAddresses(a);
        AssignKeepsFilled(s, a);
      }
    }

    method RemoveAddresses()
      requires Distinct()
      modifies intervals
      ensures Distinct()
      ensures Values() == EraseAll(old(Values()))
    {
      ghost var s := Values();
      for k := 0 to |intervals|
        invariant forall l :: 0 <= l < k ==> intervals[l].Value() == s[l].(address := None)
        invariant forall l :: k <= l < |intervals| ==> intervals[l].Value() == s[l]
      {
        intervals[k].SetAddress(None);
      }
      assert Values() == EraseAll(s);
    }
  }

  // ---- the module ----

  /** All intervals of the module. */
  ghost function Footprint(sections: seq<Section>): (r: set<ByteInterval>)
    reads sections
    ensures forall m, b :: 0 <= m < |sections| && b in sections[m].intervals ==> b in r
  {
    set m, b | 0 <= m < |sections| && b in sections[m].intervals :: b
  }

  /** Sections, and all intervals, are different objects. */
  ghost predicate DistinctModule(sections: seq<Section>)
    reads sections
  {
    && (forall m :: 0 <= m < |sections| ==> sections[m].Distinct())
    && (forall m, n :: 0 <= m < n < |sections| ==> sections[m] != sections[n])
    && (forall m, n, b :: 0 <= m < |sections| && 0 <= n < |sections| && m != n && b in sections[m].intervals ==>
          b !in sections[n].intervals)
  }

  ghost predicate ValidModule(sections: seq<Section>)
    reads sections, Footprint(sections)
  {
    DistinctModule(sections) && forall m :: 0 <= m < |sections| ==> sections[m].Valid()
  }

  ghost function ModuleValue(sections: seq<Section>): (r: Sections)
    reads sections, Footprint(sections)
    ensures |r| == |sections|
    ensures forall m :: 0 <= m < |r| ==> r[m] == sections[m].Values()
  {
    seq(|sections|, m requires 0 <= m < |sections| reads sections, Footprint(sections) => sections[m].Values())
  }

  /** Lays out section m, which has the value s; the other sections do not change. */
  method LayoutSection(sections: seq<Section>, m: nat, cfg: Cfg, a: nat, ghost s: seq<Interval>)
    returns (ok: bool, next: nat)
    requires ValidModule(sections) && m < |sections| && a < ADDRESS_SPACE
    requires sections[m].Values() == s && Fusable(s, cfg)
    modifies sections[m], sections[m].intervals
    ensures ValidModule(sections) && next < ADDRESS_SPACE
    ensures forall b :: b in sections[m].intervals ==> b in old(sections[m].intervals)
    ensures forall n :: 0 <= n < |sections| && n != m ==>
      sections[n].intervals == old(sections[n].intervals) && sections[n].Values() == old(sections[n].Values())
    ensures sections[m].Values() == SectionLayout(s, cfg, a)
    ensures ok == FindAndMerge(s, cfg).ok
    ensures ok ==> next == AddressAfter(s, cfg, a)
  {
    ok, next := sections[m].LayOut(cfg, a);
    forall n | 0 <= n < |sections| && n != m
      ensures sections[n].Values() == old(sections[n].Values())
    {
      assert forall k :: 0 <= k < |sections[n].intervals| ==> sections[n].intervals[k] !in old(sections[m].intervals);
    }
  }

  /** The first sections have the values in done, the others those in ms. */
  ghost predicate Halfway(sections: seq<Section>, done: Sections, ms: Sections)
    reads sections, Footprint(sections)
  {
    && |done| <= |ms| == |sections|
    && (forall n :: 0 <= n < |done| ==> sections[n].Values() == done[n])
    && (forall n :: |done| <= n < |sections| ==> sections[n].Values() == ms[n])
  }

  /** Lays out the next section; goal is the outcome of the whole loop. */
  method LayoutNext(sections: seq<Section>, m: nat, cfg: Cfg, a: nat,
      ghost done: Sections, ghost ms: Sections, ghost goal: Layout)
    returns (ok: bool, next: nat, ghost done': Sections)
    requires ValidModule(sections) && a < ADDRESS_SPACE
    requires Halfway(sections, done, ms) && m == |done| < |sections| && SectionsFusable(ms, cfg)
    requires Resume(ms, cfg, done, a) == goal
    modifies sections[m], sections[m].intervals
    ensures ValidModule(sections) && next < ADDRESS_SPACE
    ensures forall n, b :: 0 <= n < |sections| && b in sections[n].intervals ==> b in old(sections[n].intervals)
    ensures Halfway(sections, done', ms) && |done'| == m + 1
    ensures ok ==> Resume(ms, cfg, done', next) == goal
    ensures !ok ==> Layout(false, ModuleValue(sections)) == goal
  {
    ok, next := LayoutSection(sections, m, cfg, a, ms[m]);
    done' := Turn(ms, cfg, done, a, ok, next);
    Gather(sections, done', ms);
  }

  method LayoutModule(sections: seq<Section>, cfg: Cfg) returns (ok: bool)
    requires ValidModule(sections) && SectionsFusable(ModuleValue(sections), cfg)
    modifies sections, Footprint(sections)
    ensures ValidModule(sections)
    ensures Layout(ok, ModuleValue(sections)) == LayoutSpec.LayoutModule(old(ModuleValue(sections)), cfg)
  {
    ghost var ms := ModuleValue(sections);
    ghost var done: Sections := [];
    ghost var goal := LayoutSpec.LayoutModule(ms, cfg);
    var a := 0;
    for m := 0 to |sections|
      invariant ValidModule(sections) && 0 <= a < ADDRESS_SPACE
      invariant forall n, b :: 0 <= n < |sections| && b in sections[n].intervals ==> b in old(sections[n].intervals)
      invariant |done| == m && Halfway(sections, done, ms) && Resume(ms, cfg, done, a) == goal
    {
      var merged;
      merged, a, done := LayoutNext(sections, m, cfg, a, done, ms, goal);
      if !merged {
        return false;
      }
    }
    Gather(sections, done, ms);
    return true;
  }

  lemma Gather(sections: seq<Section>, done: Sections, ms: Sections)
    requires Halfway(sections, done, ms)
    ensures ModuleValue(sections) == done + ms[|done|..]
  {
  }

  /** The outcome if, with the first sections done, the layout goes on from address a. */
  ghost function Resume(ms: Sections, cfg: Cfg, done: Sections, a: nat): Layout
    requires SectionsFusable(ms, cfg) && |done| <= |ms|
  {
    var rest := LayoutFrom(ms[|done|..], cfg, a);
    Layout(rest.ok, done + rest.sections)
  }

  /** One turn of the loop: section |done| was merged and, on success, placed. */
  lemma Turn(ms: Sections, cfg: Cfg, done: Sections, a: nat, ok: bool, next: nat) returns (done': Sections)
    requires SectionsFusable(ms, cfg) && |done| < |ms|
    requires ok == FindAndMerge(ms[|done|], cfg).ok
    requires ok ==> next == AddressAfter(ms[|done|], cfg, a)
    ensures done' == done + [SectionLayout(ms[|done|], cfg, a)]
    ensures ok ==> Resume(ms, cfg, done, a) == Resume(ms, cfg, done', next)
    ensures !ok ==> Resume(ms, cfg, done, a) == Layout(false, done' + ms[|done'|..])
  {
    var m := |done|;
    var s := FindAndMerge(ms[m], cfg).intervals;
    done' := done + [SectionLayout(ms[m], cfg, a)];
    assert ms[m..][0] == ms[m] && ms[m..][1..] == ms[m + 1..];
    if ok {
      LayoutTurn(ms[m..], cfg, a, s);
      Append(done, AssignFrom(s, a), LayoutFrom(ms[m + 1..], cfg, next).sections);
    } else {
      LayoutStops(ms[m..], cfg, a, s);
      Append(done, s, ms[m + 1..]);
    }
  }

  method RemoveModuleLayout(sections: seq<Section>)
    requires DistinctModule(sections)
    modifies Footprint(sections)
    ensures DistinctModule(sections)
    ensures ModuleValue(sections) == RemoveLayout(old(ModuleValue(sections)))
  {
    ghost var ms := ModuleValue(sections);
    for m := 0 to |sections|
      invariant DistinctModule(sections)
      invariant forall n :: 0 <= n < m ==> sections[n].Values() == EraseAll(ms[n])
      invariant forall n :: m <= n < |sections| ==> sections[n].Values() == ms[n]
    {
      UnplaceSection(sections, m);
    }
    assert ModuleValue(sections) == RemoveLayout(ms);
  }

  method UnplaceSection(sections: seq<Section>, m: nat)
    requires DistinctModule(sections) && m < |sections|
    modifies sections[m].intervals
    ensures DistinctModule(sections)
    ensures forall n :: 0 <= n < |sections| && n != m ==> sections[n].Values() == old(sections[n].Values())
    ensures sections[m].Values() == EraseAll(old(sections[m].Values()))
  {
    sections[m].RemoveAddresses();
    forall n | 0 <= n < |sections| && n != m
      ensures sections[n].Values() == old(sections[n].Values())
    {
      assert forall k :: 0 <= k < |sections[n].intervals| ==> sections[n].intervals[k] !in sections[m].intervals;
    }
  }

  // ---- the outcome of a scan ----

  lemma ScanRejects(s: seq<Interval>, cfg: Cfg, i: nat)
    requires Fusable(s, cfg) && i < |s| && s[i].code != []
    requires ScanFrom(s, cfg, 0) == ScanFrom(s, cfg, i) && JudgeAll(s, i, ScannedEdges(s, cfg, i)) == Reject
    ensures FindAndMerge(s, cfg) == Merged(false, s)
  {
  }

  lemma ScanAccepts(s: seq<Interval>, cfg: Cfg, i: nat, j: nat)
    requires Fusable(s, cfg) && i < |s| && s[i].code != []
    requires ScanFrom(s, cfg, 0) == ScanFrom(s, cfg, i) && JudgeAll(s, i, ScannedEdges(s, cfg, i)) == Accept(j)
    ensures CanFuse(s, i, j) && Fusable(Absorb(s, i, j), cfg)
    ensures FindAndMerge(s, cfg) == FindAndMerge(Absorb(s, i, j), cfg)
  {
  }

  // ---- shifted maps ----

  lemma ShiftNone(base: nat)
    ensures ShiftSymExprs(map[], base) == map[]
  {
  }

  lemma ShiftedKey(m: map<nat, SymExpr>, base: nat, k: nat)
    ensures k in ShiftSymExprs(m, base) <==> base <= k && k - base in m
    ensures base <= k && k - base in m ==> ShiftSymExprs(m, base)[k] == m[k - base]
  {
    if base <= k {
      assert Moved(k - base, base) == k;
    }
  }

  lemma OneMoreKey(m: map<nat, SymExpr>, o: nat, e: SymExpr, base: nat, k: nat)
    ensures k in ShiftSymExprs(m[o := e], base) <==> k in ShiftSymExprs(m, base)[base + o := e]
    ensures k in ShiftSymExprs(m[o := e], base) ==>
      ShiftSymExprs(m[o := e], base)[k] == ShiftSymExprs(m, base)[base + o := e][k]
  {
    var more := m[o := e];
    ShiftedKey(more, base, k);
    ShiftedKey(m, base, k);
    SameKeys(m, o, e, base, k);
  }

  lemma SameKeys(m: map<nat, SymExpr>, o: nat, e: SymExpr, base: nat, k: nat)
    ensures base <= k && k - base in m[o := e] <==> k == base + o || (base <= k && k - base in m)
    ensures base <= k && k != base + o && k - base in m ==> m[o := e][k - base] == m[k - base]
  {
  }

  lemma SameMap(l: map<nat, SymExpr>, r: map<nat, SymExpr>)
    requires forall k: nat {:trigger k in l} {:trigger k in r} :: k in l <==> k in r
    requires forall k: nat :: k in l ==> l[k] == r[k]
    ensures l == r
  {
  }

  lemma ShiftOneMore(m: map<nat, SymExpr>, o: nat, e: SymExpr, base: nat)
    ensures ShiftSymExprs(m[o := e], base) == ShiftSymExprs(m, base)[base + o := e]
  {
    var l, r := ShiftSymExprs(m[o := e], base), ShiftSymExprs(m, base)[base + o := e];
    forall k: nat
      ensures k in l <==> k in r
      ensures k in l ==> l[k] == r[k]
    {
      OneMoreKey(m, o, e, base, k);
    }
    SameMap(l, r);
  }

  /** The map was, with all of m but the keys in rest added to it at their new offsets. */
  ghost function WithShifted(was: map<nat, SymExpr>, m: map<nat, SymExpr>, rest: set<nat>, base: nat)
      : map<nat, SymExpr>
  {
    was + ShiftSymExprs(m - rest, base)
  }

  lemma OneMoreSymExpr(was: map<nat, SymExpr>, m: map<nat, SymExpr>, rest: set<nat>, o: nat, base: nat)
    requires o in rest && rest <= m.Keys
    ensures WithShifted(was, m, rest - {o}, base) == WithShifted(was, m, rest, base)[base + o := m[o]]
  {
    assert m - (rest - {o}) == (m - rest)[o := m[o]];
    ShiftOneMore(m - rest, o, m[o], base);
    UpdateSum(was, ShiftSymExprs(m - rest, base), base + o, m[o]);
  }

  lemma UpdateSum(l: map<nat, SymExpr>, r: map<nat, SymExpr>, k: nat, e: SymExpr)
    ensures l + r[k := e] == (l + r)[k := e]
  {
  }
}
