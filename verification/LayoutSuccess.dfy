/** When the merge of a section, and with it the layout of a module, succeeds. */
module LayoutSuccess {
  import opened Common
  import opened Intervals
  import opened Packings
  import opened MergeTheorems
  import opened Fallthroughs
  import opened LayoutSpec
  import opened LayoutTheorems

  // ---- why a merge fails ----

  lemma {:induction false} MergeKeepsOwners(s: seq<Interval>, cfg: Cfg)
    requires AllTidy(s) && Fusable(s, cfg) && OwnedOnce(s)
    ensures OwnedOnce(FindAndMerge(s, cfg).intervals)
    decreases |s|
  {
    match ScanFrom(s, cfg, 0)
    case Fuse(i, j) =>
      TidyAbsorb(s, i, j);
      StillOwnedOnce(s, i, j);
      MergeKeepsOwners(Absorb(s, i, j), cfg);
    case _ =>
  }

  lemma ObstacleLeaves(s: seq<Interval>, i: nat, e: Edge)
    requires OwnedOnce(s) && i < |s| && s[i].code != [] && CannotFollow(s, i, e)
    ensures !StaysIn(s, i, e)
  {
    if e.target.CodeNode? && OwnerOf(s, e.target.block) == Some(i) {
      var j :| 0 <= j < |s| && j != i && Holds(s[j].code, e.target.block);
      OwnerIsUnique(s, e.target.block, j);
    }
  }

  lemma ObstacleIsOpen(s: seq<Interval>, cfg: Cfg)
    requires OwnedOnce(s) && HasObstacle(s, cfg)
    ensures exists i :: 0 <= i < |s| && !LeaderClosed(s, cfg, i)
  {
    var i: nat, e :| i < |s| && s[i].code != [] && e in OutEdges(cfg, s[i].code[0].block) && CannotFollow(s, i, e);
    ObstacleLeaves(s, i, e);
    assert e in ScannedEdges(s, cfg, i) && !LeaderClosed(s, cfg, i);
  }

  /**
   The merge fails if and only if an interval it leaves cannot be fused along a fallthrough edge of its
   first block; whatever can be fused is fused.
   */
  lemma FailsExactly(s: seq<Interval>, cfg: Cfg)
    requires AllTidy(s) && Fusable(s, cfg) && OwnedOnce(s)
    ensures !FindAndMerge(s, cfg).ok <==> HasObstacle(FindAndMerge(s, cfg).intervals, cfg)
  {
    if FindAndMerge(s, cfg).ok {
      MergeFixpoint(s, cfg);
      MergeKeepsOwners(s, cfg);
      if HasObstacle(FindAndMerge(s, cfg).intervals, cfg) {
        ObstacleIsOpen(FindAndMerge(s, cfg).intervals, cfg);
      }
    } else {
      FailureHasReason(s, cfg);
    }
  }

  // ---- inputs whose merge succeeds ----

  /** Code ends where its interval ends. */
  ghost predicate Flush(s: seq<Interval>) {
    forall i :: 0 <= i < |s| ==> FlushAt(s[i])
  }

  ghost predicate FlushAt(iv: Interval) {
    iv.code != [] ==> iv.code[|iv.code| - 1].End() == iv.size
  }

  /** The block is in interval i, or at the start of another one. */
  ghost predicate LandsWell(s: seq<Interval>, i: nat, block: Identifier) {
    exists j, q :: 0 <= j < |s| && q in s[j].code && q.block == block && (j == i || q.offset == 0)
  }

  /** First blocks fall into their own interval, or to the start of another one. */
  ghost predicate LeadersLand(s: seq<Interval>, cfg: Cfg) {
    forall i: nat, e :: i < |s| && s[i].code != [] && e in OutEdges(cfg, s[i].code[0].block) ==>
      e.kind == Fallthrough ==> e.target.CodeNode? && LandsWell(s, i, e.target.block)
  }

  /** The first block of interval i falls into interval j. */
  ghost predicate LeaderFalls(s: seq<Interval>, cfg: Cfg, i: nat, j: nat) {
    exists e :: i < |s| && s[i].code != [] && Falls(s, cfg, i, s[i].code[0], e, j) && i != j
  }

  /** No two intervals fall into the same one. */
  ghost predicate OneSource(s: seq<Interval>, cfg: Cfg) {
    forall i: nat, k: nat, j: nat :: LeaderFalls(s, cfg, i, j) && LeaderFalls(s, cfg, k, j) ==> i == k
  }

  /** What the layout asks of a section. */
  ghost predicate Layable(s: seq<Interval>, cfg: Cfg) {
    AllTidy(s) && OwnedOnce(s) && Flush(s) && LeadersLand(s, cfg) && OneSource(s, cfg)
  }

  /** A block at the start of its interval, where code does not overlap, is found there. */
  lemma Landed(s: seq<Interval>, i: nat, j: nat, q: Placed, block: Identifier)
    requires AllTidy(s) && OwnedOnce(s) && j < |s| && q in s[j].code && q.block == block && (j == i || q.offset == 0)
    ensures OwnerOf(s, block) == Some(j)
    ensures j != i ==> OffsetOf(s[j].code, block) == 0
  {
    var n :| 0 <= n < |s[j].code| && s[j].code[n] == q;
    OwnerIsUnique(s, block, j);
    if j != i {
      FirstIsAtStart(s[j], n);
    }
  }

  lemma FirstIsAtStart(iv: Interval, n: nat)
    requires Tidy(iv) && n < |iv.code| && iv.code[n].offset == 0
    ensures OffsetOf(iv.code, iv.code[n].block) == 0
  {
    if n > 0 {
      BehindFirst(iv, n);
    }
  }

  lemma BehindFirst(iv: Interval, n: nat)
    requires Tidy(iv) && 0 < n < |iv.code|
    ensures iv.code[n].offset > 0
  {
    assert iv.code[0].End() <= iv.code[n].offset;
  }

  lemma FoundIsAccepted(s: seq<Interval>, i: nat, j: nat, e: Edge)
    requires i < |s| && s[i].code != [] && FlushAt(s[i]) && e.kind == Fallthrough && e.target.CodeNode?
    requires OwnerOf(s, e.target.block) == Some(j)
    requires j != i ==> OffsetOf(s[j].code, e.target.block) == 0
    ensures Judge(s, i, e) != Reject
  {
  }

  lemma LandingIsAccepted(s: seq<Interval>, i: nat, e: Edge)
    requires AllTidy(s) && OwnedOnce(s) && i < |s| && s[i].code != [] && FlushAt(s[i])
    requires e.kind == Fallthrough && e.target.CodeNode? && LandsWell(s, i, e.target.block)
    ensures Judge(s, i, e) != Reject
  {
    var j, q :| 0 <= j < |s| && q in s[j].code && q.block == e.target.block && (j == i || q.offset == 0);
    Landed(s, i, j, q, e.target.block);
    FoundIsAccepted(s, i, j, e);
  }

  lemma NothingRejected(s: seq<Interval>, cfg: Cfg)
    requires Layable(s, cfg)
    ensures ScanFrom(s, cfg, 0) != Stuck
  {
    if ScanFrom(s, cfg, 0) == Stuck {
      var i, e := StuckAt(s, cfg, 0);
      LandingIsAccepted(s, i, e);
    }
  }

  // ---- the condition survives a fusion ----

  lemma JoinIsFlush(a: Interval, b: Interval)
    requires Tidy(a) && Tidy(b) && Full(a) && Full(b) && FlushAt(b) && b.code != []
    ensures FlushAt(Join(a, b))
  {
    JoinAppends(a, b);
    LastMoves(a.code, b.code, a.size);
  }

  lemma StillFlush(s: seq<Interval>, i: nat, j: nat)
    requires AllTidy(s) && CanFuse(s, i, j) && Flush(s) && s[j].code != []
    ensures Flush(Absorb(s, i, j))
  {
    var r := Absorb(s, i, j);
    assert FlushAt(s[j]);
    JoinIsFlush(s[i], s[j]);
    forall x | 0 <= x < |r|
      ensures FlushAt(r[x])
    {
      if x != Shifted(i, j) {
        assert r[x] == s[if x < j then x else x + 1];
      }
    }
  }

  lemma LastMoves(a: seq<Placed>, b: seq<Placed>, base: nat)
    requires b != []
    ensures var r := a + ShiftAll(b, base); r != [] && r[|r| - 1].End() == base + b[|b| - 1].End()
  {
  }

  /** The first block of an interval is that of the former interval there. */
  lemma LeaderBefore(s: seq<Interval>, i: nat, j: nat, x: nat) returns (k: nat)
    requires AllTidy(s) && CanFuse(s, i, j) && s[i].code != [] && x < |Absorb(s, i, j)| && Absorb(s, i, j)[x].code != []
    ensures k < |s| && k != j && After(k, i, j) == x && s[k].code != [] && Absorb(s, i, j)[x].code[0] == s[k].code[0]
  {
    k := if x == Shifted(i, j) then i else if x < j then x else x + 1;
    CodeAfter(s, i, j, k);
  }

  /** What leads from a first block into another interval did so before the fusion. */
  lemma LeaderEdgeBefore(s: seq<Interval>, cfg: Cfg, i: nat, j: nat, x: nat, e: Edge, y: nat) returns (k: nat, l: nat)
    requires AllTidy(s) && OwnedOnce(s) && CanFuse(s, i, j) && s[i].code != []
    requires x < |Absorb(s, i, j)| && Absorb(s, i, j)[x].code != [] && x != y
    requires Falls(Absorb(s, i, j), cfg, x, Absorb(s, i, j)[x].code[0], e, y)
    ensures k < |s| && k != j && s[k].code != [] && Falls(s, cfg, k, s[k].code[0], e, l) && k != l
    ensures After(k, i, j) == x && After(l, i, j) == y
  {
    k := LeaderBefore(s, i, j, x);
    var k', q, l' := FallsBefore(s, cfg, i, j, x, Absorb(s, i, j)[x].code[0], e, y);
    SameLeader(s, i, j, k, k', q);
    l := l';
  }

  lemma LeaderFallsBefore(s: seq<Interval>, cfg: Cfg, i: nat, j: nat, x: nat, y: nat) returns (k: nat, l: nat)
    requires AllTidy(s) && OwnedOnce(s) && CanFuse(s, i, j) && s[i].code != []
    requires LeaderFalls(Absorb(s, i, j), cfg, x, y)
    ensures k != j && LeaderFalls(s, cfg, k, l) && After(k, i, j) == x && After(l, i, j) == y && x != y
  {
    var r := Absorb(s, i, j);
    var e :| x < |r| && r[x].code != [] && Falls(r, cfg, x, r[x].code[0], e, y) && x != y;
    k, l := LeaderEdgeBefore(s, cfg, i, j, x, e, y);
  }

  lemma SourceIsUnique(s: seq<Interval>, cfg: Cfg, i: nat, k: nat, j: nat)
    requires OneSource(s, cfg) && LeaderFalls(s, cfg, i, j) && LeaderFalls(s, cfg, k, j)
    ensures i == k
  {
  }

  /** What no longer leads into the absorbed interval never did. */
  lemma PastAbsorbed(s: seq<Interval>, cfg: Cfg, i: nat, j: nat, k: nat, l: nat)
    requires OneSource(s, cfg) && i != j && LeaderFalls(s, cfg, i, j) && LeaderFalls(s, cfg, k, l)
    requires After(k, i, j) != After(l, i, j)
    ensures l != j
  {
    if l == j {
      SourceIsUnique(s, cfg, i, k, j);
    }
  }

  /** Of the two intervals that were fused only the first still has a first block. */
  lemma SameLeader(s: seq<Interval>, i: nat, j: nat, k: nat, k': nat, q: Placed)
    requires AllTidy(s) && OwnedOnce(s) && CanFuse(s, i, j) && k < |s| && k != j && k' < |s| && s[k].code != []
    requires After(k, i, j) == After(k', i, j) && q in s[k'].code
    requires s[k].code[0] == if k' == j then q.Shift(s[i].size) else q
    ensures k' == k && q == s[k].code[0]
  {
    assert s[k].code[0] in s[k].code;
  }

  lemma SourcesAgree(s: seq<Interval>, cfg: Cfg, i: nat, j: nat, k: nat, l: nat, k': nat, l': nat)
    requires OneSource(s, cfg) && i != j && LeaderFalls(s, cfg, i, j)
    requires LeaderFalls(s, cfg, k, l) && After(k, i, j) != After(l, i, j)
    requires LeaderFalls(s, cfg, k', l') && After(k', i, j) != After(l', i, j) && After(l', i, j) == After(l, i, j)
    ensures k == k'
  {
    PastAbsorbed(s, cfg, i, j, k, l);
    PastAbsorbed(s, cfg, i, j, k', l');
    SourceIsUnique(s, cfg, k, k', l);
  }

  lemma SameSource(s: seq<Interval>, cfg: Cfg, i: nat, j: nat, x: nat, x': nat, y: nat)
    requires AllTidy(s) && OwnedOnce(s) && OneSource(s, cfg)
    requires CanFuse(s, i, j) && s[i].code != [] && LeaderFalls(s, cfg, i, j)
    requires LeaderFalls(Absorb(s, i, j), cfg, x, y) && LeaderFalls(Absorb(s, i, j), cfg, x', y)
    ensures x == x'
  {
    var k, l := LeaderFallsBefore(s, cfg, i, j, x, y);
    var k', l' := LeaderFallsBefore(s, cfg, i, j, x', y);
    SourcesAgree(s, cfg, i, j, k, l, k', l');
  }

  lemma StillOneSource(s: seq<Interval>, cfg: Cfg, i: nat, j: nat)
    requires Layable(s, cfg) && CanFuse(s, i, j) && s[i].code != [] && LeaderFalls(s, cfg, i, j)
    ensures OneSource(Absorb(s, i, j), cfg)
  {
    forall x: nat, x': nat, y: nat | LeaderFalls(Absorb(s, i, j), cfg, x, y) && LeaderFalls(Absorb(s, i, j), cfg, x', y)
      ensures x == x'
    {
      SameSource(s, cfg, i, j, x, x', y);
    }
  }

  /** Only the interval that is fused with it falls into the one that is absorbed. */
  lemma NotIntoAbsorbed(s: seq<Interval>, cfg: Cfg, i: nat, j: nat, k: nat, l: nat, e: Edge)
    requires OneSource(s, cfg) && LeaderFalls(s, cfg, i, j)
    requires k < |s| && s[k].code != [] && Falls(s, cfg, k, s[k].code[0], e, l)
    ensures l == j ==> k == i || k == j
  {
    if l == j && k != j {
      assert LeaderFalls(s, cfg, k, j);
    }
  }

  /** Where the first block of interval k falls to. */
  lemma LeaderLandsAt(s: seq<Interval>, cfg: Cfg, k: nat, e: Edge) returns (l: nat, q: Placed)
    requires Layable(s, cfg) && k < |s| && s[k].code != []
    requires e in OutEdges(cfg, s[k].code[0].block) && e.kind == Fallthrough
    ensures e.target.CodeNode? && l < |s| && q in s[l].code && q.block == e.target.block && (l == k || q.offset == 0)
    ensures Falls(s, cfg, k, s[k].code[0], e, l)
  {
    assert LandsWell(s, k, e.target.block);
    l, q :| 0 <= l < |s| && q in s[l].code && q.block == e.target.block && (l == k || q.offset == 0);
    Landed(s, k, l, q, e.target.block);
  }

  lemma StillLands(s: seq<Interval>, cfg: Cfg, i: nat, j: nat, x: nat, e: Edge)
    requires Layable(s, cfg) && CanFuse(s, i, j) && s[i].code != [] && LeaderFalls(s, cfg, i, j)
    requires x < |Absorb(s, i, j)| && Absorb(s, i, j)[x].code != []
    requires e in OutEdges(cfg, Absorb(s, i, j)[x].code[0].block) && e.kind == Fallthrough
    ensures e.target.CodeNode? && LandsWell(Absorb(s, i, j), x, e.target.block)
  {
    var k := LeaderBefore(s, i, j, x);
    var l, q := LeaderLandsAt(s, cfg, k, e);
    NotIntoAbsorbed(s, cfg, i, j, k, l, e);
    var p := BlockAfter(s, i, j, l, q);
    LandsAt(Absorb(s, i, j), x, After(l, i, j), p, e.target.block);
  }

  lemma LandsAt(s: seq<Interval>, i: nat, j: nat, q: Placed, block: Identifier)
    requires j < |s| && q in s[j].code && q.block == block && (j == i || q.offset == 0)
    ensures LandsWell(s, i, block)
  {
  }

  lemma StillLeadersLand(s: seq<Interval>, cfg: Cfg, i: nat, j: nat)
    requires Layable(s, cfg) && CanFuse(s, i, j) && s[i].code != [] && LeaderFalls(s, cfg, i, j)
    ensures LeadersLand(Absorb(s, i, j), cfg)
  {
    var r := Absorb(s, i, j);
    forall x: nat, e | x < |r| && r[x].code != [] && e in OutEdges(cfg, r[x].code[0].block) && e.kind == Fallthrough
      ensures e.target.CodeNode? && LandsWell(r, x, e.target.block)
    {
      StillLands(s, cfg, i, j, x, e);
    }
  }

  lemma StillLayable(s: seq<Interval>, cfg: Cfg, i: nat, j: nat)
    requires Layable(s, cfg) && CanFuse(s, i, j) && ScanFrom(s, cfg, 0) == Fuse(i, j)
    ensures Layable(Absorb(s, i, j), cfg)
  {
    var d := FusedEdge(s, cfg, i, j);
    assert LeaderFalls(s, cfg, i, j);
    TidyAbsorb(s, i, j);
    StillOwnedOnce(s, i, j);
    StillFlush(s, i, j);
    StillLeadersLand(s, cfg, i, j);
    StillOneSource(s, cfg, i, j);
  }

  /**
   If code ends with its interval, first blocks fall into their own interval or to the start of another
   one of the section, and no two intervals fall into the same one, then the merge succeeds.
   */
  lemma {:induction false} LayableIsMerged(s: seq<Interval>, cfg: Cfg)
    requires Layable(s, cfg) && Fusable(s, cfg)
    ensures FindAndMerge(s, cfg).ok
    decreases |s|
  {
    NothingRejected(s, cfg);
    match ScanFrom(s, cfg, 0)
    case Fuse(i, j) =>
      StillLayable(s, cfg, i, j);
      LayableIsMerged(Absorb(s, i, j), cfg);
    case _ =>
  }

  // ---- the merge, step by step ----

  /** A fallthrough edge from interval i that leads to no block of it. */
  ghost predicate LeadsOut(s: seq<Interval>, i: nat, e: Edge)
    requires i < |s|
  {
    e.kind == Fallthrough && (e.target.CodeNode? ==> !Holds(s[i].code, e.target.block))
  }

  /** The edge leads to the start of interval j, and code ends with interval i. */
  ghost predicate CanFollow(s: seq<Interval>, i: nat, e: Edge, j: nat)
    requires i < |s|
  {
    && e.target.CodeNode? && j < |s| && j != i && FlushAt(s[i])
    && exists q :: q in s[j].code && q.block == e.target.block && q.offset == 0
  }

  /** No fallthrough edge of the first block of interval i leads out of it. */
  ghost predicate KeepsIn(s: seq<Interval>, cfg: Cfg, i: nat)
    requires i < |s|
  {
    s[i].code != [] ==> forall e :: e in OutEdges(cfg, s[i].code[0].block) ==> !LeadsOut(s, i, e)
  }

  /** Edge n of the first block of interval i is the first one, interval after interval, that leads out. */
  ghost predicate FirstOut(s: seq<Interval>, cfg: Cfg, i: nat, n: nat) {
    && i < |s| && s[i].code != [] && (forall l :: 0 <= l < i ==> KeepsIn(s, cfg, l))
    && var es := OutEdges(cfg, s[i].code[0].block);
       n < |es| && LeadsOut(s, i, es[n]) && forall m :: 0 <= m < n ==> !LeadsOut(s, i, es[m])
  }

  lemma SkippedExactly(s: seq<Interval>, i: nat, e: Edge)
    requires OwnedOnce(s) && i < |s| && s[i].code != []
    ensures Judge(s, i, e) == Skip <==> !LeadsOut(s, i, e)
  {
    if e.kind == Fallthrough && e.target.CodeNode? && Holds(s[i].code, e.target.block) {
      OwnerIsUnique(s, e.target.block, i);
    }
  }

  lemma AcceptedExactly(s: seq<Interval>, i: nat, e: Edge, j: nat)
    requires AllTidy(s) && OwnedOnce(s) && i < |s| && s[i].code != [] && LeadsOut(s, i, e)
    ensures Judge(s, i, e) == Accept(j) <==> CanFollow(s, i, e, j)
  {
    if Judge(s, i, e) == Accept(j) {
      var k :| 0 <= k < |s[j].code| && s[j].code[k].block == e.target.block && s[j].code[k].offset == 0;
      assert s[j].code[k] in s[j].code;
    }
    if CanFollow(s, i, e, j) {
      var q :| q in s[j].code && q.block == e.target.block && q.offset == 0;
      Landed(s, i, j, q, e.target.block);
    }
  }

  lemma {:induction false} FirstDecides(s: seq<Interval>, i: nat, es: seq<Edge>, n: nat)
    requires i < |s| && s[i].code != [] && n < |es| && Judge(s, i, es[n]) != Skip
    requires forall m :: 0 <= m < n ==> Judge(s, i, es[m]) == Skip
    ensures JudgeAll(s, i, es) == Judge(s, i, es[n])
  {
    if n > 0 {
      FirstDecides(s, i, es[1..], n - 1);
    }
  }

  lemma ClosedIsPassed(s: seq<Interval>, cfg: Cfg, l: nat)
    requires l < |s| && LeaderClosed(s, cfg, l)
    ensures ScanFrom(s, cfg, l) == ScanFrom(s, cfg, l + 1)
  {
    if s[l].code != [] {
      JudgeAllSkips(s, l, ScannedEdges(s, cfg, l));
    }
  }

  lemma {:induction false} FirstScanned(s: seq<Interval>, cfg: Cfg, from: nat, i: nat)
    requires from <= i < |s| && forall l :: from <= l < i ==> LeaderClosed(s, cfg, l)
    ensures ScanFrom(s, cfg, from) == ScanFrom(s, cfg, i)
    decreases i - from
  {
    if from < i {
      ClosedIsPassed(s, cfg, from);
      FirstScanned(s, cfg, from + 1, i);
    }
  }

  lemma KeptIsClosed(s: seq<Interval>, cfg: Cfg, l: nat)
    requires OwnedOnce(s) && l < |s| && KeepsIn(s, cfg, l)
    ensures LeaderClosed(s, cfg, l)
  {
    if s[l].code != [] {
      forall e | e in ScannedEdges(s, cfg, l)
        ensures StaysIn(s, l, e)
      {
        SkippedExactly(s, l, e);
      }
    }
  }

  /** The first edge that leads out decides: the merge gives up, or fuses and goes on. */
  lemma ScanFirstOut(s: seq<Interval>, cfg: Cfg, i: nat, n: nat, e: Edge)
    requires OwnedOnce(s) && FirstOut(s, cfg, i, n) && e == OutEdges(cfg, s[i].code[0].block)[n]
    ensures match Judge(s, i, e)
      case Accept(j) => ScanFrom(s, cfg, 0) == Fuse(i, j)
      case _ => ScanFrom(s, cfg, 0) == Stuck
  {
    var es := OutEdges(cfg, s[i].code[0].block);
    forall l | 0 <= l < i
      ensures LeaderClosed(s, cfg, l)
    {
      KeptIsClosed(s, cfg, l);
    }
    forall m | 0 <= m <= n
      ensures Judge(s, i, es[m]) == Skip <==> m < n
    {
      SkippedExactly(s, i, es[m]);
    }
    FirstDecides(s, i, es, n);
    FirstScanned(s, cfg, 0, i);
  }

  /**
   The first fallthrough edge that leads a first block out of its interval decides: if it can be followed
   to another interval, that one is absorbed and the merge goes on; if not, the merge fails at once.
   */
  lemma MergeInTurn(s: seq<Interval>, cfg: Cfg, i: nat, n: nat, e: Edge)
    requires AllTidy(s) && OwnedOnce(s) && Fusable(s, cfg)
    requires FirstOut(s, cfg, i, n) && e == OutEdges(cfg, s[i].code[0].block)[n]
    ensures forall j: nat :: CanFollow(s, i, e, j) ==>
      CanFuse(s, i, j) && Fusable(Absorb(s, i, j), cfg) && FindAndMerge(s, cfg) == FindAndMerge(Absorb(s, i, j), cfg)
    ensures (forall j: nat :: !CanFollow(s, i, e, j)) ==> FindAndMerge(s, cfg) == Merged(false, s)
  {
    ScanFirstOut(s, cfg, i, n, e);
    SkippedExactly(s, i, e);
    forall j: nat
      ensures Judge(s, i, e) == Accept(j) <==> CanFollow(s, i, e, j)
    {
      AcceptedExactly(s, i, e, j);
    }
  }

  /** Without such an edge the merge is done. */
  lemma NothingLeft(s: seq<Interval>, cfg: Cfg)
    requires OwnedOnce(s) && Fusable(s, cfg) && forall i :: 0 <= i < |s| ==> KeepsIn(s, cfg, i)
    ensures FindAndMerge(s, cfg) == Merged(true, s)
  {
    forall l | 0 <= l < |s|
      ensures LeaderClosed(s, cfg, l)
    {
      KeptIsClosed(s, cfg, l);
    }
    ScanSettles(s, cfg, 0);
  }

  // ---- the whole module ----

  lemma TailFusable(ms: Sections, cfg: Cfg)
    requires ms != [] && SectionsFusable(ms, cfg)
    ensures SectionsFusable(ms[1..], cfg)
  {
    assert forall l :: 0 <= l < |ms| - 1 ==> ms[1..][l] == ms[l + 1];
  }

  /** Once the first section is merged, the layout goes on with the others. */
  lemma GoesOn(ms: Sections, cfg: Cfg, a: nat) returns (b: nat)
    requires ms != [] && SectionsFusable(ms, cfg) && FindAndMerge(ms[0], cfg).ok
    ensures SectionsFusable(ms[1..], cfg)
    ensures LayoutFrom(ms, cfg, a).ok == LayoutFrom(ms[1..], cfg, b).ok
    ensures LayoutFrom(ms, cfg, a).sections[1..] == LayoutFrom(ms[1..], cfg, b).sections
  {
    TailFusable(ms, cfg);
    b := EndAddress(FindAndMerge(ms[0], cfg).intervals, a);
    LayoutTurn(ms, cfg, a, FindAndMerge(ms[0], cfg).intervals);
  }

  /** The layout succeeds if and only if the merge of every section does. */
  lemma {:induction false} LayoutSucceedsExactly(ms: Sections, cfg: Cfg, a: nat)
    requires SectionsFusable(ms, cfg)
    ensures LayoutFrom(ms, cfg, a).ok <==> forall m :: 0 <= m < |ms| ==> FindAndMerge(ms[m], cfg).ok
    decreases |ms|
  {
    if ms != [] {
      if FindAndMerge(ms[0], cfg).ok {
        var b := GoesOn(ms, cfg, a);
        LayoutSucceedsExactly(ms[1..], cfg, b);
        assert forall m :: 0 < m < |ms| ==> ms[m] == ms[1..][m - 1];
      } else {
        LayoutStops(ms, cfg, a, FindAndMerge(ms[0], cfg).intervals);
      }
    }
  }

  /** The section x is laid out in front of the others. */
  function Prepend(x: seq<Interval>, r: Layout): Layout {
    Layout(r.ok, [x] + r.sections)
  }

  /** The layout gives up at the first of the sections, wherever it begins. */
  ghost predicate GivesUp(ms: Sections, cfg: Cfg, r: Sections)
    requires SectionsFusable(ms, cfg)
  {
    forall a :: LayoutFrom(ms, cfg, a) == Layout(false, r)
  }

  /** The first turn of a layout that begins with the sections front. */
  lemma FrontTurn(front: Sections, back: Sections, cfg: Cfg, a: nat, placed: Sections) returns (b: nat)
    requires SectionsFusable(front, cfg) && SectionsFusable(front + back, cfg)
    requires front != [] && LayoutFrom(front, cfg, a) == Layout(true, placed)
    ensures SectionsFusable(front[1..], cfg) && SectionsFusable(front[1..] + back, cfg)
    ensures LayoutFrom(front[1..], cfg, b) == Layout(true, placed[1..])
    ensures LayoutFrom(front + back, cfg, a) == Prepend(placed[0], LayoutFrom(front[1..] + back, cfg, b))
  {
    TailFusable(front, cfg);
    TailFusable(front + back, cfg);
    assert (front + back)[1..] == front[1..] + back;
    var s := FindAndMerge(front[0], cfg).intervals;
    b := EndAddress(s, a);
    LayoutTurn(front, cfg, a, s);
    LayoutTurn(front + back, cfg, a, s);
  }

  lemma PrependAppends(placed: Sections, r: Sections)
    requires placed != []
    ensures Prepend(placed[0], Layout(false, placed[1..] + r)) == Layout(false, placed + r)
  {
    assert [placed[0]] + (placed[1..] + r) == placed + r;
  }

  lemma {:induction false} GivesUpLater(front: Sections, back: Sections, cfg: Cfg, a: nat, placed: Sections,
      r: Sections)
    requires SectionsFusable(front, cfg) && SectionsFusable(back, cfg) && SectionsFusable(front + back, cfg)
    requires LayoutFrom(front, cfg, a) == Layout(true, placed) && GivesUp(back, cfg, r)
    ensures LayoutFrom(front + back, cfg, a) == Layout(false, placed + r)
    decreases |front|
  {
    if front == [] {
      assert front + back == back;
    } else {
      var b := FrontTurn(front, back, cfg, a, placed);
      GivesUpLater(front[1..], back, cfg, b, placed[1..], r);
      PrependAppends(placed, r);
    }
  }

  /**
   A layout that fails has laid out the sections before the first whose merge fails, as if they were the
   whole module; it has merged that one but not placed it, and the later ones are as they were.
   */
  lemma LayoutStopsAtFirst(front: Sections, s: seq<Interval>, back: Sections, cfg: Cfg)
    requires SectionsFusable(front, cfg) && SectionsFusable([s] + back, cfg)
    requires SectionsFusable(front + ([s] + back), cfg)
    requires LayoutModule(front, cfg).ok && Fusable(s, cfg) && !FindAndMerge(s, cfg).ok
    ensures LayoutModule(front + ([s] + back), cfg) ==
      Layout(false, LayoutModule(front, cfg).sections + ([FindAndMerge(s, cfg).intervals] + back))
  {
    var r := [FindAndMerge(s, cfg).intervals] + back;
    forall a
      ensures LayoutFrom([s] + back, cfg, a) == Layout(false, r)
    {
      LayoutStops([s] + back, cfg, a, FindAndMerge(s, cfg).intervals);
    }
    assert GivesUp([s] + back, cfg, r);
    GivesUpLater(front, [s] + back, cfg, 0, LayoutModule(front, cfg).sections, r);
  }

  lemma ObstacleIgnoresAddresses(s: seq<Interval>, t: seq<Interval>, cfg: Cfg)
    requires EraseAll(s) == EraseAll(t) && HasObstacle(s, cfg)
    ensures HasObstacle(t, cfg)
  {
    var i: nat, e :| i < |s| && s[i].code != [] && e in OutEdges(cfg, s[i].code[0].block) && CannotFollow(s, i, e);
    forall k | 0 <= k < |s|
      ensures k < |t| && t[k].(address := None) == s[k].(address := None)
    {
      SameButAddress(t, s, k);
    }
    SameObstacle(s, t, i, e);
  }

  lemma SameObstacle(s: seq<Interval>, t: seq<Interval>, i: nat, e: Edge)
    requires |s| == |t| && forall k :: 0 <= k < |s| ==> t[k].(address := None) == s[k].(address := None)
    requires i < |s| && s[i].code != [] && CannotFollow(s, i, e)
    ensures t[i].code == s[i].code && CannotFollow(t, i, e)
  {
    assert forall k :: 0 <= k < |s| ==> t[k].code == s[k].code && t[k].size == s[k].size;
  }

  /** What a section must be for its obstacles to be told from its result. */
  ghost predicate SectionsTidy(ms: Sections, cfg: Cfg) {
    SectionsFusable(ms, cfg) && forall m :: 0 <= m < |ms| ==> AllTidy(ms[m]) && OwnedOnce(ms[m])
  }

  /** A layout that fails leaves a section merged, but not completely. */
  lemma {:induction false} FailingSection(ms: Sections, cfg: Cfg, a: nat) returns (m: nat)
    requires SectionsFusable(ms, cfg) && !LayoutFrom(ms, cfg, a).ok
    ensures m < |ms| && !FindAndMerge(ms[m], cfg).ok
    ensures LayoutFrom(ms, cfg, a).sections[m] == FindAndMerge(ms[m], cfg).intervals
    decreases |ms|
  {
    if FindAndMerge(ms[0], cfg).ok {
      var b := GoesOn(ms, cfg, a);
      var n := FailingSection(ms[1..], cfg, b);
      m := n + 1;
      assert ms[m] == ms[1..][n] && LayoutFrom(ms, cfg, a).sections[m] == LayoutFrom(ms, cfg, a).sections[1..][n];
    } else {
      LayoutStops(ms, cfg, a, FindAndMerge(ms[0], cfg).intervals);
      m := 0;
    }
  }

  lemma NoObstacleAfterSuccess(ms: Sections, cfg: Cfg, m: nat)
    requires SectionsTidy(ms, cfg) && LayoutModule(ms, cfg).ok && m < |ms|
    ensures !HasObstacle(LayoutModule(ms, cfg).sections[m], cfg)
  {
    var s, r := ms[m], LayoutModule(ms, cfg).sections[m];
    LayoutMergesSections(ms, cfg, 0, m);
    var a :| r == SectionLayout(s, cfg, a);
    SectionLayoutMerges(s, cfg, a);
    FailsExactly(s, cfg);
    if HasObstacle(r, cfg) {
      ObstacleIgnoresAddresses(r, FindAndMerge(s, cfg).intervals, cfg);
    }
  }

  /**
   A layout fails if and only if it leaves a section with an interval that cannot be fused along a
   fallthrough edge of its first block, although all sections up to it were merged.
   */
  lemma LayoutFailsExactly(ms: Sections, cfg: Cfg)
    requires SectionsTidy(ms, cfg)
    ensures !LayoutModule(ms, cfg).ok <==>
      exists m :: 0 <= m < |ms| && HasObstacle(LayoutModule(ms, cfg).sections[m], cfg)
  {
    if LayoutModule(ms, cfg).ok {
      forall m | 0 <= m < |ms|
        ensures !HasObstacle(LayoutModule(ms, cfg).sections[m], cfg)
      {
        NoObstacleAfterSuccess(ms, cfg, m);
      }
    } else {
      var m := FailingSection(ms, cfg, 0);
      FailsExactly(ms[m], cfg);
    }
  }

  /** A module of such sections is laid out. */
  lemma LayableIsLaidOut(ms: Sections, cfg: Cfg)
    requires SectionsFusable(ms, cfg) && forall m :: 0 <= m < |ms| ==> Layable(ms[m], cfg)
    ensures LayoutModule(ms, cfg).ok
  {
    forall m | 0 <= m < |ms|
      ensures FindAndMerge(ms[m], cfg).ok
    {
      LayableIsMerged(ms[m], cfg);
    }
    LayoutSucceedsExactly(ms, cfg, 0);
  }
}
