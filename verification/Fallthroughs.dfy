/**
 The merge follows the fallthrough edges of first blocks only. This module says what
 that means for all fallthrough edges of a section.
 */
module Fallthroughs {
  import opened Common
  import opened Intervals
  import opened Packings
  import opened MergeTheorems

  /** A fallthrough edge from a code block of interval i into interval j. */
  ghost predicate Falls(s: seq<Interval>, cfg: Cfg, i: nat, p: Placed, e: Edge, j: nat) {
    && i < |s| && p in s[i].code && e in OutEdges(cfg, p.block)
    && e.kind == Fallthrough && e.target.CodeNode? && OwnerOf(s, e.target.block) == Some(j)
  }

  /** No fallthrough edge leaves its interval for another one of the section. */
  ghost predicate AllInside(s: seq<Interval>, cfg: Cfg) {
    forall i: nat, p, e, j: nat :: Falls(s, cfg, i, p, e, j) ==> i == j
  }

  /** Interval i is left by a fallthrough edge of its first block. */
  ghost predicate LeaderLeaves(s: seq<Interval>, cfg: Cfg, i: nat) {
    exists e, j: nat :: i < |s| && s[i].code != [] && Falls(s, cfg, i, s[i].code[0], e, j) && i != j
  }

  /**
   Only first blocks fall out of their interval, and what they fall into comes earlier
   in the list or does not go on falling.
   */
  ghost predicate Mergeable(s: seq<Interval>, cfg: Cfg) {
    forall i: nat, p, e, j: nat :: Falls(s, cfg, i, p, e, j) && i != j ==>
      p == s[i].code[0] && (j < i || !LeaderLeaves(s, cfg, j))
  }

  /** A block belongs to one interval only. */
  ghost predicate OwnedOnce(s: seq<Interval>) {
    forall i, j, p, q :: 0 <= i < |s| && 0 <= j < |s| && p in s[i].code && q in s[j].code && p.block == q.block ==>
      i == j
  }

  // ---- a chain of three blocks ----

  const CHAIN_CFG: Cfg := map[1 := [Edge(CodeNode(2), Fallthrough)], 2 := [Edge(CodeNode(3), Fallthrough)]]

  /** A block of one byte, alone in its interval. */
  function OneBlock(block: Identifier, b: Byte): Interval {
    Interval(None, 1, [b], [Placed(block, 0, 1)], [], map[])
  }

  function Chain3(b: Byte): seq<Interval> {
    [OneBlock(1, b), OneBlock(2, b), OneBlock(3, b)]
  }

  function Chain2(b: Byte): seq<Interval> {
    [Interval(None, 2, [b, b], [Placed(1, 0, 1), Placed(2, 1, 1)], [], map[]), OneBlock(3, b)]
  }

  lemma FirstTwoFuse(s: seq<Interval>, cfg: Cfg, p: Placed, q: Placed)
    requires |s| >= 2 && p.block != q.block
    requires s[0].code == [p] && p.End() == s[0].size && s[1].code == [q] && q.offset == 0
    requires OutEdges(cfg, p.block) == [Edge(CodeNode(q.block), Fallthrough)]
    ensures ScanFrom(s, cfg, 0) == Fuse(0, 1)
  {
    assert s[1].code[0].block == q.block;
    OwnerLater(s, q.block, 0, 1);
    assert OffsetOf(s[1].code, q.block) == 0;
    assert Judge(s, 0, Edge(CodeNode(q.block), Fallthrough)) == Accept(1);
  }

  lemma ChainAbsorbs(b: Byte)
    ensures Absorb(Chain3(b), 0, 1) == Chain2(b)
  {
    var s := Chain3(b);
    RehomeAppends(s[0].code, s[1].code, 1);
    RehomeAppends(s[0].data, s[1].data, 1);
    assert s[0].code + ShiftAll(s[1].code, 1) == [Placed(1, 0, 1), Placed(2, 1, 1)];
    assert ShiftKeys({}, 1) == {};
    assert s[0].symexprs + ShiftSymExprs(s[1].symexprs, 1) == map[];
    assert Join(s[0], s[1]) == Chain2(b)[0];
  }

  lemma ChainSettles(b: Byte)
    ensures ScanFrom(Chain2(b), CHAIN_CFG, 0) == Settled
  {
    var r := Chain2(b);
    assert r[0].code[1].block == 2;
    OwnerLater(r, 2, 0, 0);
    assert ScannedEdges(r, CHAIN_CFG, 0) == [Edge(CodeNode(2), Fallthrough)];
    JudgeAllSkips(r, 0, ScannedEdges(r, CHAIN_CFG, 0));
    assert ScannedEdges(r, CHAIN_CFG, 1) == [];
    ScanSettles(r, CHAIN_CFG, 0);
  }

  lemma FusedOnce(s: seq<Interval>, r: seq<Interval>, cfg: Cfg)
    requires Fusable(s, cfg) && |s| > 1 && ScanFrom(s, cfg, 0) == Fuse(0, 1)
    requires r == Absorb(s, 0, 1) && ScanFrom(r, cfg, 0) == Settled && !AllInside(r, cfg)
    ensures FindAndMerge(s, cfg).ok && !AllInside(FindAndMerge(s, cfg).intervals, cfg)
  {
    assert FindAndMerge(s, cfg) == FindAndMerge(r, cfg);
    assert FindAndMerge(r, cfg) == Merged(true, r);
  }

  lemma ChainLeavesAnEdge(b: Byte)
    ensures !AllInside(Chain2(b), CHAIN_CFG)
  {
    var r := Chain2(b);
    assert r[1].code[0].block == 3;
    OwnerLater(r, 3, 0, 1);
    assert r[0].code[1] in r[0].code;
    assert Falls(r, CHAIN_CFG, 0, r[0].code[1], Edge(CodeNode(3), Fallthrough), 1);
  }

  lemma ChainIsFusable(b: Byte)
    ensures ScanFrom(Chain3(b), CHAIN_CFG, 0) == Fuse(0, 1) && Fusable(Chain3(b), CHAIN_CFG)
  {
    FirstTwoFuse(Chain3(b), CHAIN_CFG, Placed(1, 0, 1), Placed(2, 0, 1));
    ChainAbsorbs(b);
    ChainSettles(b);
    FusableOnce(Chain3(b), Chain2(b), CHAIN_CFG);
  }

  lemma FusableOnce(s: seq<Interval>, r: seq<Interval>, cfg: Cfg)
    requires AllFilled(s) && CanFuse(s, 0, 1) && ScanFrom(s, cfg, 0) == Fuse(0, 1)
    requires r == Absorb(s, 0, 1) && ScanFrom(r, cfg, 0) == Settled
    ensures Fusable(s, cfg)
  {
    assert Fusable(r, cfg);
  }

  /** Blocks 1, 2 and 3 fall into each other, one interval each, in this order: 3 is not merged. */
  lemma ChainIsNotMerged(b: Byte)
    ensures Fusable(Chain3(b), CHAIN_CFG)
    ensures var r := FindAndMerge(Chain3(b), CHAIN_CFG); r.ok && !AllInside(r.intervals, CHAIN_CFG)
  {
    ChainIsFusable(b);
    ChainAbsorbs(b);
    ChainSettles(b);
    ChainLeavesAnEdge(b);
    FusedOnce(Chain3(b), Chain2(b), CHAIN_CFG);
  }

  lemma {:induction false} OwnerLater(s: seq<Interval>, block: Identifier, n: nat, i: nat)
    requires n <= i < |s| && Holds(s[i].code, block)
    requires forall k :: n <= k < i ==> !Holds(s[k].code, block)
    ensures OwnerFrom(s, block, n) == Some(i)
    decreases i - n
  {
    if n < i {
      OwnerLater(s, block, n + 1, i);
    }
  }

  // ---- when every fallthrough edge is merged ----

  lemma OwnerIsUnique(s: seq<Interval>, block: Identifier, k: nat)
    requires OwnedOnce(s) && k < |s| && Holds(s[k].code, block)
    ensures OwnerOf(s, block) == Some(k)
  {
    var l := OwnerOf(s, block).value;
    var p :| 0 <= p < |s[k].code| && s[k].code[p].block == block;
    var q :| 0 <= q < |s[l].code| && s[l].code[q].block == block;
    assert s[k].code[p] in s[k].code && s[l].code[q] in s[l].code;
  }

  /** The code of interval k, moved, is where After says. */
  lemma CodeAfter(s: seq<Interval>, i: nat, j: nat, k: nat)
    requires AllTidy(s) && CanFuse(s, i, j) && k < |s|
    ensures var r := Absorb(s, i, j); var x := After(k, i, j);
      && x < |r|
      && r[x].code == (if k == i || k == j then s[i].code + ShiftAll(s[j].code, s[i].size) else s[k].code)
  {
    JoinAppends(s[i], s[j]);
  }

  lemma BlockBefore(s: seq<Interval>, i: nat, j: nat, x: nat, p: Placed) returns (k: nat, q: Placed)
    requires AllTidy(s) && CanFuse(s, i, j)
    requires x < |s| - 1 && p in Absorb(s, i, j)[x].code
    ensures k < |s| && q in s[k].code && After(k, i, j) == x
    ensures p == if k == j then q.Shift(s[i].size) else q
  {
    if x == Shifted(i, j) {
      CodeAfter(s, i, j, i);
      if p in s[i].code {
        k, q := i, p;
      } else {
        var n :| 0 <= n < |s[j].code| && ShiftAll(s[j].code, s[i].size)[n] == p;
        k, q := j, s[j].code[n];
      }
    } else {
      k, q := if x < j then x else x + 1, p;
      CodeAfter(s, i, j, k);
    }
  }

  lemma StillOwnedOnce(s: seq<Interval>, i: nat, j: nat)
    requires AllTidy(s) && OwnedOnce(s) && CanFuse(s, i, j)
    ensures OwnedOnce(Absorb(s, i, j))
  {
    var r := Absorb(s, i, j);
    forall x, y, p, q | 0 <= x < |r| && 0 <= y < |r| && p in r[x].code && q in r[y].code && p.block == q.block
      ensures x == y
    {
      var k, p' := BlockBefore(s, i, j, x, p);
      var l, q' := BlockBefore(s, i, j, y, q);
    }
  }

  /** The owner of a block before the two intervals were fused. */
  lemma OwnerBefore(s: seq<Interval>, i: nat, j: nat, y: nat, block: Identifier) returns (l: nat)
    requires AllTidy(s) && OwnedOnce(s) && CanFuse(s, i, j)
    requires OwnerOf(Absorb(s, i, j), block) == Some(y)
    ensures l < |s| && OwnerOf(s, block) == Some(l) && After(l, i, j) == y
  {
    var r := Absorb(s, i, j);
    var n :| 0 <= n < |r[y].code| && r[y].code[n].block == block;
    var t;
    l, t := BlockBefore(s, i, j, y, r[y].code[n]);
    var m :| 0 <= m < |s[l].code| && s[l].code[m] == t;
    OwnerIsUnique(s, block, l);
  }

  /** Every fallthrough edge between intervals was there before the two intervals were fused. */
  lemma FallsBefore(s: seq<Interval>, cfg: Cfg, i: nat, j: nat, x: nat, p: Placed, e: Edge, y: nat)
    returns (k: nat, q: Placed, l: nat)
    requires AllTidy(s) && OwnedOnce(s) && CanFuse(s, i, j)
    requires Falls(Absorb(s, i, j), cfg, x, p, e, y) && x != y
    ensures Falls(s, cfg, k, q, e, l) && k != l
    ensures After(k, i, j) == x && After(l, i, j) == y
    ensures p == if k == j then q.Shift(s[i].size) else q
  {
    k, q := BlockBefore(s, i, j, x, p);
    l := OwnerBefore(s, i, j, y, e.target.block);
  }

  /** Intervals scanned before the first fusion are not left by their first block. */
  lemma {:induction false} ScannedLeadersStay(s: seq<Interval>, cfg: Cfg, n: nat, i: nat)
    requires n <= i < |s| && ScanFrom(s, cfg, n).Fuse? && i < ScanFrom(s, cfg, n).source
    ensures LeaderClosed(s, cfg, i)
    decreases |s| - n
  {
    if s[n].code != [] {
      JudgeAllSkips(s, n, ScannedEdges(s, cfg, n));
    }
    if n < i {
      ScannedLeadersStay(s, cfg, n + 1, i);
    }
  }

  lemma ClosedDoesNotLeave(s: seq<Interval>, cfg: Cfg, i: nat)
    requires i < |s| && LeaderClosed(s, cfg, i)
    ensures !LeaderLeaves(s, cfg, i)
  {
    if LeaderLeaves(s, cfg, i) {
      var e, j: nat :| Falls(s, cfg, i, s[i].code[0], e, j) && i != j;
      var stays := StaysIn(s, i, e);
      assert false;
    }
  }

  /** A leader's fallthrough edges out of its interval are those it had before the fusion. */
  lemma LeaderLeavesBefore(s: seq<Interval>, cfg: Cfg, i: nat, j: nat, k: nat)
    requires AllTidy(s) && OwnedOnce(s) && CanFuse(s, i, j) && k < |s| && k != j && k != i
    requires LeaderLeaves(Absorb(s, i, j), cfg, After(k, i, j))
    ensures LeaderLeaves(s, cfg, k)
  {
    var r, x := Absorb(s, i, j), After(k, i, j);
    var e, y: nat :| Falls(r, cfg, x, r[x].code[0], e, y) && x != y;
    var k', q, l := FallsBefore(s, cfg, i, j, x, r[x].code[0], e, y);
    CodeAfter(s, i, j, k);
    assert k' == k;
    LeavesByLeader(s, cfg, k, e, l);
  }

  lemma LeavesByLeader(s: seq<Interval>, cfg: Cfg, k: nat, e: Edge, l: nat)
    requires k < |s| && s[k].code != [] && Falls(s, cfg, k, s[k].code[0], e, l) && k != l
    ensures LeaderLeaves(s, cfg, k)
  {
  }

  /** The edge along which two intervals are fused. */
  lemma FusedEdge(s: seq<Interval>, cfg: Cfg, i: nat, j: nat) returns (d: Edge)
    requires ScanFrom(s, cfg, 0) == Fuse(i, j)
    ensures i < |s| && j < |s| && i != j && s[i].code != [] && Falls(s, cfg, i, s[i].code[0], d, j)
  {
    FusedPair(s, cfg, 0);
    d :| d in ScannedEdges(s, cfg, i) && Judge(s, i, d) == Accept(j);
  }

  lemma OnlyLeaders(s: seq<Interval>, cfg: Cfg, i: nat, p: Placed, e: Edge, j: nat)
    requires Mergeable(s, cfg) && Falls(s, cfg, i, p, e, j) && i != j
    ensures s[i].code != [] && p == s[i].code[0] && (j < i || !LeaderLeaves(s, cfg, j)) && LeaderLeaves(s, cfg, i)
  {
    LeavesByLeader(s, cfg, i, e, j);
  }

  lemma FusedTargetStays(s: seq<Interval>, cfg: Cfg, i: nat, j: nat)
    requires Mergeable(s, cfg) && ScanFrom(s, cfg, 0) == Fuse(i, j)
    ensures LeaderLeaves(s, cfg, i) && !LeaderLeaves(s, cfg, j)
  {
    var d := FusedEdge(s, cfg, i, j);
    OnlyLeaders(s, cfg, i, s[i].code[0], d, j);
    if j < i {
      ScannedLeadersStay(s, cfg, 0, j);
      ClosedDoesNotLeave(s, cfg, j);
    }
  }

  /** Before the source of the first fusion no interval is left by its first block. */
  lemma NoneLeavesBefore(s: seq<Interval>, cfg: Cfg, i: nat, j: nat, k: nat)
    requires ScanFrom(s, cfg, 0) == Fuse(i, j) && k < |s| && LeaderLeaves(s, cfg, k)
    ensures i <= k
  {
    if k < i {
      ScannedLeadersStay(s, cfg, 0, k);
      ClosedDoesNotLeave(s, cfg, k);
    }
  }

  /** What an interval falls into after the fusion is further up or does not go on falling, as before. */
  lemma TargetStillEnds(s: seq<Interval>, cfg: Cfg, i: nat, j: nat, k: nat, l: nat)
    requires AllTidy(s) && OwnedOnce(s) && CanFuse(s, i, j) && i <= k < |s| && l < |s| && k != j
    requires !LeaderLeaves(s, cfg, j) && (l < k || !LeaderLeaves(s, cfg, l)) && After(k, i, j) != After(l, i, j)
    ensures After(l, i, j) < After(k, i, j) || !LeaderLeaves(Absorb(s, i, j), cfg, After(l, i, j))
  {
    if l != i && l != j && LeaderLeaves(Absorb(s, i, j), cfg, After(l, i, j)) {
      LeaderLeavesBefore(s, cfg, i, j, l);
    }
  }

  /** An edge between intervals after the fusion meets the condition, as it did before. */
  lemma EdgeStays(s: seq<Interval>, cfg: Cfg, i: nat, j: nat, x: nat, p: Placed, e: Edge, y: nat)
    requires AllTidy(s) && OwnedOnce(s) && Mergeable(s, cfg) && ScanFrom(s, cfg, 0) == Fuse(i, j) && CanFuse(s, i, j)
    requires Falls(Absorb(s, i, j), cfg, x, p, e, y) && x != y
    ensures p == Absorb(s, i, j)[x].code[0] && (y < x || !LeaderLeaves(Absorb(s, i, j), cfg, y))
  {
    FusedTargetStays(s, cfg, i, j);
    var k, q, l := FallsBefore(s, cfg, i, j, x, p, e, y);
    OnlyLeaders(s, cfg, k, q, e, l);
    NoneLeavesBefore(s, cfg, i, j, k);
    CodeAfter(s, i, j, k);
    TargetStillEnds(s, cfg, i, j, k, l);
  }

  lemma FusionStaysMergeable(s: seq<Interval>, cfg: Cfg, i: nat, j: nat)
    requires AllTidy(s) && OwnedOnce(s) && Mergeable(s, cfg) && ScanFrom(s, cfg, 0) == Fuse(i, j) && CanFuse(s, i, j)
    ensures Mergeable(Absorb(s, i, j), cfg)
  {
    forall x: nat, p, e, y: nat | Falls(Absorb(s, i, j), cfg, x, p, e, y) && x != y
      ensures p == Absorb(s, i, j)[x].code[0] && (y < x || !LeaderLeaves(Absorb(s, i, j), cfg, y))
    {
      EdgeStays(s, cfg, i, j, x, p, e, y);
    }
  }

  /**
   If only first blocks fall out of their interval, and never into an interval further down
   the list that goes on falling, then a successful merge leaves no fallthrough edge outside.
   */
  lemma {:induction false} MergeTakesAllFallthroughs(s: seq<Interval>, cfg: Cfg)
    requires AllTidy(s) && Fusable(s, cfg) && OwnedOnce(s) && Mergeable(s, cfg) && FindAndMerge(s, cfg).ok
    ensures AllInside(FindAndMerge(s, cfg).intervals, cfg)
    decreases |s|
  {
    match ScanFrom(s, cfg, 0)
    case Fuse(i, j) =>
      TidyAbsorb(s, i, j);
      StillOwnedOnce(s, i, j);
      FusionStaysMergeable(s, cfg, i, j);
      MergeTakesAllFallthroughs(Absorb(s, i, j), cfg);
    case Stuck =>
    case Settled => SettledIsInside(s, cfg);
  }

  lemma SettledIsInside(s: seq<Interval>, cfg: Cfg)
    requires Mergeable(s, cfg) && ScanFrom(s, cfg, 0) == Settled
    ensures AllInside(s, cfg)
  {
    ScanSettles(s, cfg, 0);
    forall i: nat, p, e, j: nat | Falls(s, cfg, i, p, e, j)
      ensures i == j
    {
      if i != j {
        ClosedDoesNotLeave(s, cfg, i);
        assert false;
      }
    }
  }

  // ---- the condition is exact ----

  /** At most one fallthrough edge leaves each interval. */
  ghost predicate OneExit(s: seq<Interval>, cfg: Cfg) {
    forall i: nat, p, e, j: nat, p', e', j': nat ::
      Falls(s, cfg, i, p, e, j) && i != j && Falls(s, cfg, i, p', e', j') && i != j' ==> p == p' && e == e'
  }

  /** The rank increases along every fallthrough edge between intervals: execution falls nowhere in a circle. */
  ghost predicate Ranked(s: seq<Interval>, cfg: Cfg, rank: seq<nat>) {
    && |rank| == |s|
    && forall i: nat, p, e, j: nat :: Falls(s, cfg, i, p, e, j) && i != j ==> j < |s| && rank[i] < rank[j]
  }

  lemma BlockAfter(s: seq<Interval>, i: nat, j: nat, k: nat, q: Placed) returns (p: Placed)
    requires AllTidy(s) && CanFuse(s, i, j) && k < |s| && q in s[k].code
    ensures p == if k == j then q.Shift(s[i].size) else q
    ensures After(k, i, j) < |s| - 1 && p in Absorb(s, i, j)[After(k, i, j)].code
  {
    p := if k == j then q.Shift(s[i].size) else q;
    CodeAfter(s, i, j, k);
    if k == j {
      var n :| 0 <= n < |s[j].code| && s[j].code[n] == q;
      assert ShiftAll(s[j].code, s[i].size)[n] == p;
    }
  }

  /** A fallthrough edge that stays between intervals is still there after the fusion. */
  lemma FallsAfter(s: seq<Interval>, cfg: Cfg, i: nat, j: nat, k: nat, q: Placed, e: Edge, l: nat) returns (p: Placed)
    requires AllTidy(s) && OwnedOnce(s) && CanFuse(s, i, j)
    requires Falls(s, cfg, k, q, e, l) && l < |s|
    ensures p == if k == j then q.Shift(s[i].size) else q
    ensures Falls(Absorb(s, i, j), cfg, After(k, i, j), p, e, After(l, i, j))
  {
    var r := Absorb(s, i, j);
    p := BlockAfter(s, i, j, k, q);
    StillOwnedOnce(s, i, j);
    HeldAfter(s, i, j, l, e.target.block);
    OwnerIsUnique(r, e.target.block, After(l, i, j));
  }

  lemma HeldAfter(s: seq<Interval>, i: nat, j: nat, l: nat, block: Identifier)
    requires AllTidy(s) && CanFuse(s, i, j) && l < |s| && Holds(s[l].code, block)
    ensures After(l, i, j) < |s| - 1 && Holds(Absorb(s, i, j)[After(l, i, j)].code, block)
  {
    var n :| 0 <= n < |s[l].code| && s[l].code[n].block == block;
    var p := BlockAfter(s, i, j, l, s[l].code[n]);
    var m :| 0 <= m < |Absorb(s, i, j)[After(l, i, j)].code| && Absorb(s, i, j)[After(l, i, j)].code[m] == p;
  }

  /** The edge along which two intervals are fused is the only one out of the first. */
  lemma FusedExit(s: seq<Interval>, cfg: Cfg, i: nat, j: nat, p: Placed, e: Edge, l: nat)
    requires OneExit(s, cfg) && ScanFrom(s, cfg, 0) == Fuse(i, j)
    requires Falls(s, cfg, i, p, e, l) && i != l
    ensures s[i].code != [] && p == s[i].code[0] && l == j
  {
    var d := FusedEdge(s, cfg, i, j);
  }

  /** An edge out of the absorbed interval would leave the fused one from a block that is not first. */
  lemma AbsorbedExit(s: seq<Interval>, cfg: Cfg, i: nat, j: nat, p: Placed, e: Edge, l: nat)
    requires AllTidy(s) && OwnedOnce(s) && CanFuse(s, i, j) && s[i].code != []
    requires Falls(s, cfg, j, p, e, l) && l < |s| && l != i && l != j
    ensures !Mergeable(Absorb(s, i, j), cfg)
  {
    var p' := FallsAfter(s, cfg, i, j, j, p, e, l);
    CodeAfter(s, i, j, i);
    assert s[i].code[0].End() <= s[i].size;
    if Mergeable(Absorb(s, i, j), cfg) {
      OnlyLeaders(Absorb(s, i, j), cfg, After(j, i, j), p', e, After(l, i, j));
    }
  }

  lemma TargetStays(s: seq<Interval>, cfg: Cfg, i: nat, j: nat, rank: seq<nat>, p: Placed, e: Edge, l: nat)
    requires AllTidy(s) && OwnedOnce(s) && Ranked(s, cfg, rank) && ScanFrom(s, cfg, 0) == Fuse(i, j)
    requires CanFuse(s, i, j) && Mergeable(Absorb(s, i, j), cfg)
    ensures !(Falls(s, cfg, j, p, e, l) && j != l)
  {
    var d := FusedEdge(s, cfg, i, j);
    RankRises(s, cfg, rank, i, s[i].code[0], d, j);
    if Falls(s, cfg, j, p, e, l) && j != l {
      RankRises(s, cfg, rank, j, p, e, l);
      AbsorbedExit(s, cfg, i, j, p, e, l);
    }
  }

  lemma RankRises(s: seq<Interval>, cfg: Cfg, rank: seq<nat>, i: nat, p: Placed, e: Edge, j: nat)
    requires Ranked(s, cfg, rank) && Falls(s, cfg, i, p, e, j) && i != j
    ensures i < |rank| && j < |rank| && rank[i] < rank[j]
  {
  }

  lemma MergeableBefore(s: seq<Interval>, cfg: Cfg, i: nat, j: nat, rank: seq<nat>)
    requires AllTidy(s) && OwnedOnce(s) && OneExit(s, cfg) && Ranked(s, cfg, rank)
    requires ScanFrom(s, cfg, 0) == Fuse(i, j) && CanFuse(s, i, j) && Mergeable(Absorb(s, i, j), cfg)
    ensures Mergeable(s, cfg)
  {
    forall k: nat, p, e, l: nat | Falls(s, cfg, k, p, e, l) && k != l
      ensures p == s[k].code[0] && (l < k || !LeaderLeaves(s, cfg, l))
    {
      TargetStays(s, cfg, i, j, rank, p, e, l);
      if k == i {
        FusedExit(s, cfg, i, j, p, e, l);
        TargetHasNoExit(s, cfg, i, j, rank);
      } else {
        EdgeBefore(s, cfg, i, j, rank, k, p, e, l);
      }
    }
  }

  lemma TargetHasNoExit(s: seq<Interval>, cfg: Cfg, i: nat, j: nat, rank: seq<nat>)
    requires AllTidy(s) && OwnedOnce(s) && Ranked(s, cfg, rank) && ScanFrom(s, cfg, 0) == Fuse(i, j)
    requires CanFuse(s, i, j) && Mergeable(Absorb(s, i, j), cfg)
    ensures !LeaderLeaves(s, cfg, j)
  {
    if LeaderLeaves(s, cfg, j) {
      var e, l: nat :| Falls(s, cfg, j, s[j].code[0], e, l) && j != l;
      TargetStays(s, cfg, i, j, rank, s[j].code[0], e, l);
    }
  }

  /** An edge between other intervals meets the condition as it does after the fusion. */
  lemma EdgeBefore(s: seq<Interval>, cfg: Cfg, i: nat, j: nat, rank: seq<nat>, k: nat, p: Placed, e: Edge, l: nat)
    requires AllTidy(s) && OwnedOnce(s) && OneExit(s, cfg) && Ranked(s, cfg, rank)
    requires ScanFrom(s, cfg, 0) == Fuse(i, j) && CanFuse(s, i, j) && Mergeable(Absorb(s, i, j), cfg)
    requires Falls(s, cfg, k, p, e, l) && k != l && k != i && k != j
    ensures p == s[k].code[0] && (l < k || !LeaderLeaves(s, cfg, l))
  {
    var p' := FallsAfter(s, cfg, i, j, k, p, e, l);
    CodeAfter(s, i, j, k);
    OnlyLeaders(Absorb(s, i, j), cfg, After(k, i, j), p', e, After(l, i, j));
    LeavesByLeader(s, cfg, k, e, l);
    NoneLeavesBefore(s, cfg, i, j, k);
    TargetHasNoExit(s, cfg, i, j, rank);
    if l != i && l != j && LeaderLeaves(s, cfg, l) {
      StillLeaves(s, cfg, i, j, l);
    }
  }

  lemma StillLeaves(s: seq<Interval>, cfg: Cfg, i: nat, j: nat, l: nat)
    requires AllTidy(s) && OwnedOnce(s) && CanFuse(s, i, j) && l < |s| && l != i && l != j && LeaderLeaves(s, cfg, l)
    ensures LeaderLeaves(Absorb(s, i, j), cfg, After(l, i, j))
  {
    var e, m: nat :| Falls(s, cfg, l, s[l].code[0], e, m) && l != m;
    StillLeavesBy(s, cfg, i, j, l, e, m);
  }

  lemma StillLeavesBy(s: seq<Interval>, cfg: Cfg, i: nat, j: nat, l: nat, e: Edge, m: nat)
    requires AllTidy(s) && OwnedOnce(s) && CanFuse(s, i, j) && l < |s| && l != i && l != j && s[l].code != []
    requires Falls(s, cfg, l, s[l].code[0], e, m) && l != m
    ensures LeaderLeaves(Absorb(s, i, j), cfg, After(l, i, j))
  {
    var r, p := Absorb(s, i, j), s[l].code[0];
    var p' := FallsAfter(s, cfg, i, j, l, p, e, m);
    CodeAfter(s, i, j, l);
    assert r[After(l, i, j)].code[0] == p';
    LeavesByLeader(r, cfg, After(l, i, j), e, After(m, i, j));
  }

  lemma SameExit(s: seq<Interval>, cfg: Cfg, k: nat, q: Placed, e: Edge, l: nat, q': Placed, e': Edge, l': nat)
    requires OneExit(s, cfg) && Falls(s, cfg, k, q, e, l) && k != l && Falls(s, cfg, k, q', e', l') && k != l'
    ensures q == q' && e == e'
  {
  }

  lemma StillOneExit(s: seq<Interval>, cfg: Cfg, i: nat, j: nat)
    requires AllTidy(s) && OwnedOnce(s) && OneExit(s, cfg) && CanFuse(s, i, j) && ScanFrom(s, cfg, 0) == Fuse(i, j)
    ensures OneExit(Absorb(s, i, j), cfg)
  {
    forall x: nat, p, e, y: nat, p', e', y': nat |
      Falls(Absorb(s, i, j), cfg, x, p, e, y) && x != y && Falls(Absorb(s, i, j), cfg, x, p', e', y') && x != y'
      ensures p == p' && e == e'
    {
      ExitsAgree(s, cfg, i, j, x, p, e, y, p', e', y');
    }
  }

  /** Of intervals other than the one that absorbs another, the new position tells the former one. */
  lemma AfterTells(k: nat, k': nat, i: nat, j: nat)
    requires i != j && k != i && k' != i && After(k, i, j) == After(k', i, j)
    ensures k == k'
  {
  }

  lemma ExitsAgree(s: seq<Interval>, cfg: Cfg, i: nat, j: nat, x: nat, p: Placed, e: Edge, y: nat,
      p': Placed, e': Edge, y': nat)
    requires AllTidy(s) && OwnedOnce(s) && OneExit(s, cfg) && CanFuse(s, i, j) && ScanFrom(s, cfg, 0) == Fuse(i, j)
    requires Falls(Absorb(s, i, j), cfg, x, p, e, y) && x != y
    requires Falls(Absorb(s, i, j), cfg, x, p', e', y') && x != y'
    ensures p == p' && e == e'
  {
    var k, q, l := ExitBefore(s, cfg, i, j, x, p, e, y);
    var k', q', l' := ExitBefore(s, cfg, i, j, x, p', e', y');
    AfterTells(k, k', i, j);
    SameExit(s, cfg, k, q, e, l, q', e', l');
  }

  /** An edge out of the fused interval comes from the absorbed one. */
  lemma ExitBefore(s: seq<Interval>, cfg: Cfg, i: nat, j: nat, x: nat, p: Placed, e: Edge, y: nat)
    returns (k: nat, q: Placed, l: nat)
    requires AllTidy(s) && OwnedOnce(s) && OneExit(s, cfg) && CanFuse(s, i, j) && ScanFrom(s, cfg, 0) == Fuse(i, j)
    requires Falls(Absorb(s, i, j), cfg, x, p, e, y) && x != y
    ensures Falls(s, cfg, k, q, e, l) && k != l && k != i
    ensures After(k, i, j) == x && After(l, i, j) == y
    ensures p == if k == j then q.Shift(s[i].size) else q
  {
    k, q, l := FallsBefore(s, cfg, i, j, x, p, e, y);
    if k == i {
      FusedExit(s, cfg, i, j, q, e, l);
    }
  }

  function RankAfter(rank: seq<nat>, i: nat, j: nat): (r: seq<nat>)
    requires i < |rank| && j < |rank| && i != j
    ensures |r| == |rank| - 1
  {
    RemoveAt(rank[i := rank[j]], j)
  }

  lemma StillRanked(s: seq<Interval>, cfg: Cfg, i: nat, j: nat, rank: seq<nat>)
    requires AllTidy(s) && OwnedOnce(s) && OneExit(s, cfg) && CanFuse(s, i, j) && ScanFrom(s, cfg, 0) == Fuse(i, j)
    requires Ranked(s, cfg, rank)
    ensures Ranked(Absorb(s, i, j), cfg, RankAfter(rank, i, j))
  {
    forall x: nat, p, e, y: nat | Falls(Absorb(s, i, j), cfg, x, p, e, y) && x != y
      ensures y < |rank| - 1 && RankAfter(rank, i, j)[x] < RankAfter(rank, i, j)[y]
    {
      RankStillRises(s, cfg, i, j, rank, x, p, e, y);
    }
  }

  lemma RankStillRises(s: seq<Interval>, cfg: Cfg, i: nat, j: nat, rank: seq<nat>, x: nat, p: Placed, e: Edge, y: nat)
    requires AllTidy(s) && OwnedOnce(s) && OneExit(s, cfg) && CanFuse(s, i, j) && ScanFrom(s, cfg, 0) == Fuse(i, j)
    requires Ranked(s, cfg, rank) && Falls(Absorb(s, i, j), cfg, x, p, e, y) && x != y
    ensures y < |rank| - 1 && RankAfter(rank, i, j)[x] < RankAfter(rank, i, j)[y]
  {
    var k, q, l := ExitBefore(s, cfg, i, j, x, p, e, y);
    var d := FusedEdge(s, cfg, i, j);
    RankRises(s, cfg, rank, i, s[i].code[0], d, j);
    RankRises(s, cfg, rank, k, q, e, l);
    RankOf(rank, i, j, k);
    RankOf(rank, i, j, l);
  }

  lemma RankOf(rank: seq<nat>, i: nat, j: nat, k: nat)
    requires i < |rank| && j < |rank| && i != j && k < |rank|
    ensures After(k, i, j) < |rank| - 1
    ensures RankAfter(rank, i, j)[After(k, i, j)] == if k == i then rank[j] else rank[k]
  {
  }

  /**
   Where at most one fallthrough edge leaves each interval and execution falls nowhere in a circle, a
   successful merge leaves no fallthrough edge between intervals if and only if, before it, only
   first blocks fall out of their interval, and never into one further down the list that goes on
   falling.
   */
  lemma {:induction false} MergesAllExactly(s: seq<Interval>, cfg: Cfg, rank: seq<nat>)
    requires AllTidy(s) && Fusable(s, cfg) && OwnedOnce(s) && OneExit(s, cfg) && Ranked(s, cfg, rank)
    requires FindAndMerge(s, cfg).ok
    ensures AllInside(FindAndMerge(s, cfg).intervals, cfg) <==> Mergeable(s, cfg)
    decreases |s|
  {
    match ScanFrom(s, cfg, 0)
    case Fuse(i, j) =>
      TidyAbsorb(s, i, j);
      StillOwnedOnce(s, i, j);
      StillOneExit(s, cfg, i, j);
      StillRanked(s, cfg, i, j, rank);
      MergesAllExactly(Absorb(s, i, j), cfg, RankAfter(rank, i, j));
      if Mergeable(s, cfg) {
        FusionStaysMergeable(s, cfg, i, j);
      }
      if Mergeable(Absorb(s, i, j), cfg) {
        MergeableBefore(s, cfg, i, j, rank);
      }
    case Stuck =>
    case Settled =>
      if Mergeable(s, cfg) {
        SettledIsInside(s, cfg);
      }
  }
}
