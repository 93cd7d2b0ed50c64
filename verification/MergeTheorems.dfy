/** What a run of merges guarantees, whether it succeeds or gives up half way. */
module MergeTheorems {
  import opened Common
  import opened Intervals
  import opened Packings

  // ---- nothing is lost or invented ----

  /** The blocks and bytes a list of intervals holds. */
  datatype Stock = Stock(code: multiset<(Identifier, nat)>, data: multiset<(Identifier, nat)>, size: nat) {
    function Plus(other: Stock): Stock {
      Stock(code + other.code, data + other.data, size + other.size)
    }
  }

  function StockOf(iv: Interval): Stock {
    Stock(Sizes(iv.code), Sizes(iv.data), iv.size)
  }

  function TotalStock(s: seq<Interval>): Stock {
    if s == [] then Stock(multiset{}, multiset{}, 0) else StockOf(s[0]).Plus(TotalStock(s[1..]))
  }

  lemma PlusSwaps(x: Stock, y: Stock, z: Stock)
    ensures x.Plus(y.Plus(z)) == y.Plus(x.Plus(z))
    ensures x.Plus(y.Plus(z)) == x.Plus(y).Plus(z)
  {
  }

  lemma {:induction false} StockWithout(s: seq<Interval>, j: nat)
    requires j < |s|
    ensures TotalStock(s) == StockOf(s[j]).Plus(TotalStock(RemoveAt(s, j)))
  {
    var r := RemoveAt(s, j);
    if j == 0 {
      assert r == s[1..];
    } else {
      StockWithout(s[1..], j - 1);
      assert r[1..] == RemoveAt(s[1..], j - 1);
      assert r[0] == s[0];
      PlusSwaps(StockOf(s[0]), StockOf(s[j]), TotalStock(r[1..]));
    }
  }

  lemma StockOfJoin(a: Interval, b: Interval)
    requires Full(a) && Full(b)
    ensures StockOf(Join(a, b)) == StockOf(a).Plus(StockOf(b))
  {
    RehomeKeeps(a.code, b.code, a.size);
    RehomeKeeps(a.data, b.data, a.size);
  }

  /** An expression of the absorbed interval is found at its shifted offset, whatever was there; the others stay. */
  lemma JoinExpressions(a: Interval, b: Interval, o: nat)
    requires Full(a) && Full(b)
    ensures var r, moved := Join(a, b).symexprs, o >= a.size && o - a.size in b.symexprs;
      && (o in r <==> o in a.symexprs || moved)
      && (o in r ==> r[o] == if moved then b.symexprs[o - a.size] else a.symexprs[o])
  {
    assert o in ShiftSymExprs(b.symexprs, a.size) <==> ShiftedInto(b.symexprs.Keys, o, a.size);
  }

  lemma StockWithoutTwo(s: seq<Interval>, i: nat, j: nat)
    requires i < |s| && j < |s| && i != j
    ensures TotalStock(s) ==
      StockOf(s[i]).Plus(StockOf(s[j])).Plus(TotalStock(RemoveAt(RemoveAt(s, j), Shifted(i, j))))
  {
    var rest := RemoveAt(RemoveAt(s, j), Shifted(i, j));
    StockWithout(s, j);
    StockWithout(RemoveAt(s, j), Shifted(i, j));
    assert RemoveAt(s, j)[Shifted(i, j)] == s[i];
    PlusSwaps(StockOf(s[i]), StockOf(s[j]), TotalStock(rest));
  }

  lemma AbsorbReplacesTwo(s: seq<Interval>, i: nat, j: nat)
    requires AllFilled(s) && CanFuse(s, i, j)
    ensures Absorb(s, i, j)[Shifted(i, j)] == Join(s[i], s[j])
    ensures RemoveAt(Absorb(s, i, j), Shifted(i, j)) == RemoveAt(RemoveAt(s, j), Shifted(i, j))
  {
    var r, t := Absorb(s, i, j), RemoveAt(s, j);
    forall k | 0 <= k < |r| && k != Shifted(i, j)
      ensures r[k] == t[k]
    {
    }
  }

  lemma StockAfterAbsorb(s: seq<Interval>, i: nat, j: nat)
    requires AllFilled(s) && CanFuse(s, i, j)
    ensures TotalStock(Absorb(s, i, j)) == TotalStock(s)
  {
    AbsorbReplacesTwo(s, i, j);
    StockOfJoin(s[i], s[j]);
    StockWithoutTwo(s, i, j);
    StockWithout(Absorb(s, i, j), Shifted(i, j));
  }

  lemma {:induction false} MergeConservesStock(s: seq<Interval>, cfg: Cfg)
    requires Fusable(s, cfg)
    ensures TotalStock(FindAndMerge(s, cfg).intervals) == TotalStock(s)
    decreases |s|
  {
    match ScanFrom(s, cfg, 0)
    case Fuse(i, j) =>
      StockAfterAbsorb(s, i, j);
      MergeConservesStock(Absorb(s, i, j), cfg);
    case _ =>
  }

  function BytesOf(iv: Interval, p: Placed): (r: seq<Byte>)
    ensures |r| == p.size
  {
    seq(p.size, d requires 0 <= d < p.size => ByteAt(iv, Moved(d, p.offset)))
  }

  lemma EmbeddedBlock(a: Interval, z: Interval, base: nat, p: Placed)
    requires Embeds(a, z, base) && p.End() <= a.size
    ensures p.Shift(base).End() <= z.size
    ensures BytesOf(z, p.Shift(base)) == BytesOf(a, p)
    ensures forall d: nat :: d < p.size ==> SymAt(z, Moved(d, p.Shift(base).offset)) == SymAt(a, Moved(d, p.offset))
  {
    forall d: nat | d < p.size
      ensures ByteAt(z, Moved(d, p.Shift(base).offset)) == ByteAt(a, Moved(d, p.offset))
      ensures SymAt(z, Moved(d, p.Shift(base).offset)) == SymAt(a, Moved(d, p.offset))
    {
      assert Moved(d, p.Shift(base).offset) == Moved(Moved(d, p.offset), base);
    }
  }

  /**
   Every block keeps its bytes and the symbolic expressions inside it, and two
   blocks of one interval stay in one interval, at the same distance.
   */
  lemma MergeConservesBlocks(s: seq<Interval>, cfg: Cfg, k: nat, p: Placed, q: Placed)
    requires Sound(s) && Fusable(s, cfg) && k < |s|
    requires p in s[k].code + s[k].data && q in s[k].code + s[k].data
    requires p.End() <= s[k].size
    ensures var home := Homes(s, cfg)[k];
      var z := FindAndMerge(s, cfg).intervals[home.index];
      var p', q' := p.Shift(home.base), q.Shift(home.base);
      && (p in s[k].code ==> p' in z.code) && (p in s[k].data ==> p' in z.data)
      && (q in s[k].code ==> q' in z.code) && (q in s[k].data ==> q' in z.data)
      && q'.offset - p'.offset == q.offset - p.offset
      && p'.End() <= z.size
      && BytesOf(z, p') == BytesOf(s[k], p)
      && forall d: nat :: d < p.size ==> SymAt(z, Moved(d, p'.offset)) == SymAt(s[k], Moved(d, p.offset))
  {
    MergePacks(s, cfg);
    var home := Homes(s, cfg)[k];
    EmbeddedBlock(s[k], FindAndMerge(s, cfg).intervals[home.index], home.base, p);
  }

  lemma ApartBlocks(a: Interval, ha: Home, b: Interval, hb: Home, p: Placed, q: Placed)
    requires Apart(a, ha, b, hb) && ha.index == hb.index && p.End() <= a.size && q.End() <= b.size
    ensures p.Shift(ha.base).End() <= q.Shift(hb.base).offset || q.Shift(hb.base).End() <= p.Shift(ha.base).offset
  {
  }

  /** Blocks of different intervals never come to overlap. */
  lemma MergeKeepsIntervalsApart(s: seq<Interval>, cfg: Cfg, k: nat, l: nat, p: Placed, q: Placed)
    requires Sound(s) && Fusable(s, cfg) && k < |s| && l < |s| && k != l
    requires p.End() <= s[k].size && q.End() <= s[l].size
    ensures var h, g := Homes(s, cfg)[k], Homes(s, cfg)[l];
      h.index == g.index ==>
        p.Shift(h.base).End() <= q.Shift(g.base).offset || q.Shift(g.base).End() <= p.Shift(h.base).offset
  {
    var homes, r := Homes(s, cfg), FindAndMerge(s, cfg).intervals;
    MergePacks(s, cfg);
    if homes[k].index == homes[l].index {
      PackedApart(s, r, homes, k, l);
      ApartBlocks(s[k], homes[k], s[l], homes[l], p, q);
    }
  }

  lemma PackedApart(s: seq<Interval>, r: seq<Interval>, homes: seq<Home>, k: nat, l: nat)
    requires Packing(s, r, homes) && k < |s| && l < |s| && k != l && homes[k].index == homes[l].index
    ensures Apart(s[k], homes[k], s[l], homes[l])
  {
  }

  // ---- when the merge stops ----

  /** A fallthrough edge that stays inside interval i. */
  predicate StaysIn(s: seq<Interval>, i: nat, e: Edge) {
    e.kind == Fallthrough ==> e.target.CodeNode? && OwnerOf(s, e.target.block) == Some(i)
  }

  ghost predicate LeaderClosed(s: seq<Interval>, cfg: Cfg, i: nat)
    requires i < |s|
  {
    s[i].code != [] ==> forall e :: e in ScannedEdges(s, cfg, i) ==> StaysIn(s, i, e)
  }

  lemma {:induction false} JudgeAllSkips(s: seq<Interval>, i: nat, es: seq<Edge>)
    requires i < |s| && s[i].code != []
    ensures JudgeAll(s, i, es) == Skip <==> forall e :: e in es ==> StaysIn(s, i, e)
  {
    if es != [] {
      JudgeAllSkips(s, i, es[1..]);
      assert Judge(s, i, es[0]) == Skip <==> StaysIn(s, i, es[0]);
      assert forall e :: e in es <==> e == es[0] || e in es[1..];
    }
  }

  lemma {:induction false} ScanSettles(s: seq<Interval>, cfg: Cfg, i: nat)
    requires i <= |s|
    ensures ScanFrom(s, cfg, i) == Settled <==> forall k :: i <= k < |s| ==> LeaderClosed(s, cfg, k)
    decreases |s| - i
  {
    if i < |s| {
      ScanSettles(s, cfg, i + 1);
      if s[i].code != [] {
        JudgeAllSkips(s, i, ScannedEdges(s, cfg, i));
      }
      assert (forall k :: i <= k < |s| ==> LeaderClosed(s, cfg, k)) <==>
        LeaderClosed(s, cfg, i) && forall k :: i + 1 <= k < |s| ==> LeaderClosed(s, cfg, k);
    }
  }

  /** The merge reports success exactly when every first block's fallthroughs stay inside. */
  lemma {:induction false} MergeFixpoint(s: seq<Interval>, cfg: Cfg)
    requires Fusable(s, cfg)
    ensures var r := FindAndMerge(s, cfg);
      r.ok <==> forall k :: 0 <= k < |r.intervals| ==> LeaderClosed(r.intervals, cfg, k)
    decreases |s|
  {
    ScanSettles(s, cfg, 0);
    match ScanFrom(s, cfg, 0)
    case Fuse(i, j) => MergeFixpoint(Absorb(s, i, j), cfg);
    case _ =>
  }

  // ---- when a merge fails ----

  /**
   Interval i cannot be fused along a fallthrough edge of its first block: the edge leads to a proxy or
   to a block that no interval of the section holds, or to another interval although the last code block
   does not end with this one, or to a block that is not at the start of its interval.
   */
  ghost predicate CannotFollow(s: seq<Interval>, i: nat, e: Edge)
    requires i < |s| && s[i].code != []
  {
    e.kind == Fallthrough &&
    match e.target
    case ProxyNode => true
    case CodeNode(block) =>
      || (forall k :: 0 <= k < |s| ==> !Holds(s[k].code, block))
      || exists j :: 0 <= j < |s| && j != i && Holds(s[j].code, block) && (
           || s[i].code[|s[i].code| - 1].End() != s[i].size
           || exists q :: q in s[j].code && q.block == block && q.offset != 0)
  }

  /** One of the intervals cannot be fused along a fallthrough edge of its first block. */
  ghost predicate HasObstacle(s: seq<Interval>, cfg: Cfg) {
    exists i: nat, e :: i < |s| && s[i].code != [] && e in OutEdges(cfg, s[i].code[0].block) && CannotFollow(s, i, e)
  }

  lemma RejectedEdge(s: seq<Interval>, i: nat, e: Edge)
    requires i < |s| && s[i].code != [] && Judge(s, i, e) == Reject
    ensures CannotFollow(s, i, e)
  {
    if e.target.CodeNode? && OwnerOf(s, e.target.block).Some? {
      var j := OwnerOf(s, e.target.block).value;
      var k :| 0 <= k < |s[j].code| && s[j].code[k].block == e.target.block &&
        s[j].code[k].offset == OffsetOf(s[j].code, e.target.block);
      assert s[j].code[k] in s[j].code;
    }
  }

  lemma {:induction false} FirstRejected(s: seq<Interval>, i: nat, es: seq<Edge>) returns (e: Edge)
    requires i < |s| && s[i].code != [] && JudgeAll(s, i, es) == Reject
    ensures e in es && Judge(s, i, e) == Reject
  {
    e := es[0];
    if Judge(s, i, es[0]) == Skip {
      e := FirstRejected(s, i, es[1..]);
    }
  }

  lemma {:induction false} StuckAt(s: seq<Interval>, cfg: Cfg, n: nat) returns (i: nat, e: Edge)
    requires n <= |s| && ScanFrom(s, cfg, n) == Stuck
    ensures i < |s| && s[i].code != [] && e in OutEdges(cfg, s[i].code[0].block) && Judge(s, i, e) == Reject
    decreases |s| - n
  {
    if s[n].code != [] && JudgeAll(s, n, ScannedEdges(s, cfg, n)) == Reject {
      i := n;
      e := FirstRejected(s, n, ScannedEdges(s, cfg, n));
    } else {
      i, e := StuckAt(s, cfg, n + 1);
    }
  }

  /** A merge gives up only where it leaves an interval that cannot be fused along an edge of its first block. */
  lemma {:induction false} FailureHasReason(s: seq<Interval>, cfg: Cfg)
    requires Fusable(s, cfg) && !FindAndMerge(s, cfg).ok
    ensures HasObstacle(FindAndMerge(s, cfg).intervals, cfg)
    decreases |s|
  {
    match ScanFrom(s, cfg, 0)
    case Fuse(i, j) => FailureHasReason(Absorb(s, i, j), cfg);
    case Stuck =>
      var i, e := StuckAt(s, cfg, 0);
      RejectedEdge(s, i, e);
    case Settled =>
  }

  lemma {:induction false} AcceptedEdge(s: seq<Interval>, i: nat, es: seq<Edge>) returns (e: Edge)
    requires i < |s| && s[i].code != [] && JudgeAll(s, i, es).Accept?
    ensures e in es && Judge(s, i, e) == JudgeAll(s, i, es)
  {
    e := es[0];
    if Judge(s, i, es[0]) == Skip {
      e := AcceptedEdge(s, i, es[1..]);
    }
  }

  lemma {:induction false} FusedPair(s: seq<Interval>, cfg: Cfg, n: nat)
    requires n <= |s| && ScanFrom(s, cfg, n).Fuse?
    ensures var f := ScanFrom(s, cfg, n);
      s[f.source].code != [] &&
      exists e :: e in ScannedEdges(s, cfg, f.source) && Judge(s, f.source, e) == Accept(f.target)
    decreases |s| - n
  {
    if s[n].code != [] && JudgeAll(s, n, ScannedEdges(s, cfg, n)).Accept? {
      var e := AcceptedEdge(s, n, ScannedEdges(s, cfg, n));
    } else {
      FusedPair(s, cfg, n + 1);
    }
  }

  /** A fallthrough edge leaves the first block of the interval, or leads to one of its blocks. */
  ghost predicate TakesPart(iv: Interval, cfg: Cfg) {
    iv.code != [] && (
      || (exists e :: e in OutEdges(cfg, iv.code[0].block) && e.kind == Fallthrough)
      || (exists b, e :: e in OutEdges(cfg, b) && e.kind == Fallthrough && e.target.CodeNode? &&
            Holds(iv.code, e.target.block)))
  }

  ghost predicate PartsFull(s: seq<Interval>, cfg: Cfg) {
    forall k :: 0 <= k < |s| && TakesPart(s[k], cfg) ==> Full(s[k])
  }

  lemma FusedTakePart(s: seq<Interval>, cfg: Cfg, i: nat, j: nat)
    requires ScanFrom(s, cfg, 0) == Fuse(i, j)
    ensures TakesPart(s[i], cfg) && TakesPart(s[j], cfg)
  {
    FusedPair(s, cfg, 0);
    var e :| e in ScannedEdges(s, cfg, i) && Judge(s, i, e) == Accept(j);
    assert e in OutEdges(cfg, s[i].code[0].block) && Holds(s[j].code, e.target.block);
  }

  lemma StillPartsFull(s: seq<Interval>, cfg: Cfg, i: nat, j: nat)
    requires AllFilled(s) && PartsFull(s, cfg) && CanFuse(s, i, j)
    ensures PartsFull(Absorb(s, i, j), cfg)
  {
    var r := Absorb(s, i, j);
    forall k | 0 <= k < |r| && TakesPart(r[k], cfg)
      ensures Full(r[k])
    {
      if k != Shifted(i, j) {
        assert r[k] == s[if k < j then k else k + 1];
      }
    }
  }

  /** The merge can do its work if intervals that take part in fallthroughs have all their bytes. */
  lemma {:induction false} FullPartsAreFusable(s: seq<Interval>, cfg: Cfg)
    requires AllFilled(s) && PartsFull(s, cfg)
    ensures Fusable(s, cfg)
    decreases |s|
  {
    match ScanFrom(s, cfg, 0)
    case Fuse(i, j) =>
      FusedTakePart(s, cfg, i, j);
      StillPartsFull(s, cfg, i, j);
      FullPartsAreFusable(Absorb(s, i, j), cfg);
    case _ =>
  }

  /** Execution falls from interval i into block p of interval j, and will do so without a gap. */
  ghost predicate FallsInto(s: seq<Interval>, cfg: Cfg, i: nat, j: nat, p: Placed)
    requires CanFuse(s, i, j) && s[i].code != []
  {
    && Edge(CodeNode(p.block), Fallthrough) in ScannedEdges(s, cfg, i)
    && p.Shift(s[i].size) in Join(s[i], s[j]).code
    && p.Shift(s[i].size).offset == s[i].code[|s[i].code| - 1].End()
  }

  /**
   Two intervals are fused only where execution falls from one into the other: the
   last code block of the first ends where the target of the fallthrough edge now starts.
   */
  lemma FusedBlocksAreAdjacent(s: seq<Interval>, cfg: Cfg, i: nat, j: nat)
    requires Fusable(s, cfg) && ScanFrom(s, cfg, 0) == Fuse(i, j)
    ensures CanFuse(s, i, j) && s[i].code != []
    ensures exists p :: p in s[j].code && FallsInto(s, cfg, i, j, p)
  {
    FusedPair(s, cfg, 0);
    var e :| e in ScannedEdges(s, cfg, i) && Judge(s, i, e) == Accept(j);
    var block := e.target.block;
    assert OffsetOf(s[j].code, block) == 0;
    var k :| 0 <= k < |s[j].code| && s[j].code[k].block == block && s[j].code[k].offset == 0;
    RehomeKeeps(s[i].code, s[j].code, s[i].size);
    assert s[j].code[k] in s[j].code && FallsInto(s, cfg, i, j, s[j].code[k]);
  }

  // ---- blocks that are disjoint stay disjoint ----

  /** Positive-sized blocks, one after the other. */
  predicate Chain(ps: seq<Placed>) {
    && (forall k :: 0 <= k < |ps| ==> ps[k].size > 0)
    && (forall k, l :: 0 <= k < l < |ps| ==> ps[k].End() <= ps[l].offset)
  }

  predicate Below(ps: seq<Placed>, limit: nat) {
    forall k :: 0 <= k < |ps| ==> ps[k].End() <= limit
  }

  predicate Beside(ps: seq<Placed>, qs: seq<Placed>) {
    forall k, l :: 0 <= k < |ps| && 0 <= l < |qs| ==>
      ps[k].End() <= qs[l].offset || qs[l].End() <= ps[k].offset
  }

  /** The blocks of the interval lie inside it and do not overlap. */
  predicate Tidy(iv: Interval) {
    && Filled(iv) && SymsInside(iv)
    && Chain(iv.code) && Chain(iv.data) && Beside(iv.code, iv.data)
    && Below(iv.code, iv.size) && Below(iv.data, iv.size)
  }

  predicate AllTidy(s: seq<Interval>) {
    forall k :: 0 <= k < |s| ==> Tidy(s[k])
  }

  lemma {:induction false} InsertAppends(ps: seq<Placed>, p: Placed)
    requires forall k :: 0 <= k < |ps| ==> ps[k].offset <= p.offset
    ensures InsertByOffset(ps, p) == ps + [p]
  {
    if ps != [] {
      InsertAppends(ps[1..], p);
    }
  }

  lemma ShiftHead(qs: seq<Placed>, base: nat)
    requires qs != []
    ensures ShiftAll(qs, base) == [qs[0].Shift(base)] + ShiftAll(qs[1..], base)
  {
  }

  lemma {:induction false} RehomeAppends(ps: seq<Placed>, qs: seq<Placed>, base: nat)
    requires forall k, l :: 0 <= k < |ps| && 0 <= l < |qs| ==> ps[k].offset <= base + qs[l].offset
    requires forall k, l :: 0 <= k < l < |qs| ==> qs[k].offset <= qs[l].offset
    ensures Rehome(ps, qs, base) == ps + ShiftAll(qs, base)
    decreases |qs|
  {
    if qs != [] {
      var p := qs[0].Shift(base);
      InsertAppends(ps, p);
      RehomeAppends(ps + [p], qs[1..], base);
      ShiftHead(qs, base);
      Append(ps, p, ShiftAll(qs[1..], base));
    }
  }

  lemma JoinAppends(a: Interval, b: Interval)
    requires Full(a) && Full(b) && Below(a.code, a.size) && Below(a.data, a.size)
    requires Chain(b.code) && Chain(b.data)
    ensures Join(a, b).code == a.code + ShiftAll(b.code, a.size)
    ensures Join(a, b).data == a.data + ShiftAll(b.data, a.size)
  {
    RehomeAppends(a.code, b.code, a.size);
    RehomeAppends(a.data, b.data, a.size);
  }

  lemma AppendChains(ps: seq<Placed>, qs: seq<Placed>, base: nat, size: nat)
    requires Chain(ps) && Below(ps, base) && Chain(qs) && Below(qs, size)
    ensures Chain(ps + ShiftAll(qs, base))
    ensures Below(ps + ShiftAll(qs, base), base + size)
  {
  }

  lemma AppendBeside(ps: seq<Placed>, qs: seq<Placed>, ps': seq<Placed>, qs': seq<Placed>, base: nat)
    requires Below(ps, base) && Below(qs, base) && Beside(ps, qs) && Beside(ps', qs')
    ensures Beside(ps + ShiftAll(ps', base), qs + ShiftAll(qs', base))
  {
  }

  lemma TidyJoin(a: Interval, b: Interval)
    requires Tidy(a) && Tidy(b) && Full(a) && Full(b)
    ensures Tidy(Join(a, b))
  {
    JoinAppends(a, b);
    JoinSound(a, b);
    AppendChains(a.code, b.code, a.size, b.size);
    AppendChains(a.data, b.data, a.size, b.size);
    AppendBeside(a.code, a.data, b.code, b.data, a.size);
  }

  lemma TidyAbsorb(s: seq<Interval>, i: nat, j: nat)
    requires AllTidy(s) && CanFuse(s, i, j)
    ensures AllTidy(Absorb(s, i, j))
  {
    TidyJoin(s[i], s[j]);
    var t := s[i := Join(s[i], s[j])];
    assert forall k :: 0 <= k < |t| ==> Tidy(t[k]);
  }

  lemma {:induction false} MergeStaysTidy(s: seq<Interval>, cfg: Cfg)
    requires AllTidy(s) && Fusable(s, cfg)
    ensures AllTidy(FindAndMerge(s, cfg).intervals)
    decreases |s|
  {
    match ScanFrom(s, cfg, 0)
    case Fuse(i, j) =>
      TidyAbsorb(s, i, j);
      MergeStaysTidy(Absorb(s, i, j), cfg);
    case _ =>
  }
}
