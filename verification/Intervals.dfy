/**
 Byte intervals as values, and the merge performed by the layout engine as a
 function on the list of intervals of one section.
 */
module Intervals {
  import opened Common

  /** A block together with its position inside the interval that owns it. */
  datatype Placed = Placed(block: Identifier, offset: nat, size: nat) {
    function End(): nat {
      offset + size
    }

    function Shift(base: nat): Placed {
      Placed(block, base + offset, size)
    }
  }

  datatype Interval = Interval(
    address: Option<nat>,
    size: nat,
    bytes: seq<Byte>,
    code: seq<Placed>,
    data: seq<Placed>,
    symexprs: map<nat, SymExpr>)

  datatype EdgeKind = Fallthrough | Branch | Call | Return | Syscall | Sysret

  datatype Node = CodeNode(block: Identifier) | ProxyNode

  datatype Edge = Edge(target: Node, kind: EdgeKind)

  type Cfg = map<Identifier, seq<Edge>>

  function OutEdges(cfg: Cfg, block: Identifier): seq<Edge> {
    if block in cfg then cfg[block] else []
  }

  /** All bytes of the interval are initialised: nothing can be inserted at its end otherwise. */
  predicate Full(iv: Interval) {
    |iv.bytes| == iv.size
  }

  /** An interval may end in bytes that are not initialised. */
  predicate Filled(iv: Interval) {
    |iv.bytes| <= iv.size
  }

  predicate AllFilled(s: seq<Interval>) {
    forall k :: 0 <= k < |s| ==> Filled(s[k])
  }

  // ---- placing blocks ----

  /** Blocks stay ordered by offset; equal offsets keep insertion order. */
  function InsertByOffset(ps: seq<Placed>, p: Placed): seq<Placed> {
    if ps == [] then [p]
    else if p.offset < ps[0].offset then [p] + ps
    else [ps[0]] + InsertByOffset(ps[1..], p)
  }

  /** Re-homes the blocks qs, one after the other, at offsets from base on. */
  function Rehome(ps: seq<Placed>, qs: seq<Placed>, base: nat): seq<Placed>
    decreases |qs|
  {
    if qs == [] then ps
    else Rehome(InsertByOffset(ps, qs[0].Shift(base)), qs[1..], base)
  }

  function ShiftAll(qs: seq<Placed>, base: nat): (r: seq<Placed>)
    ensures |r| == |qs|
    ensures forall k :: 0 <= k < |qs| ==> r[k] == qs[k].Shift(base)
  {
    seq(|qs|, k requires 0 <= k < |qs| => qs[k].Shift(base))
  }

  function Moved(offset: nat, base: nat): nat {
    base + offset
  }

  predicate ShiftedInto(keys: set<nat>, k: nat, base: nat) {
    base <= k && k - base in keys
  }

  ghost function ShiftKeys(keys: set<nat>, base: nat): (r: set<nat>)
    ensures forall k :: k in r <==> ShiftedInto(keys, k, base)
  {
    if keys == {} then {}
    else
      var o :| o in keys;
      ShiftKeys(keys - {o}, base) + {Moved(o, base)}
  }

  ghost function ShiftSymExprs(m: map<nat, SymExpr>, base: nat): map<nat, SymExpr> {
    map k | k in ShiftKeys(m.Keys, base) :: m[k - base]
  }

  /** The interval a after it has absorbed b at its end. */
  ghost function Join(a: Interval, b: Interval): (r: Interval)
    requires Full(a) && Full(b)
    ensures Full(r)
  {
    a.(size := a.size + b.size,
       code := Rehome(a.code, b.code, a.size),
       data := Rehome(a.data, b.data, a.size),
       symexprs := a.symexprs + ShiftSymExprs(b.symexprs, a.size),
       bytes := a.bytes + b.bytes)
  }

  // ---- finding the next pair to merge ----

  predicate Holds(ps: seq<Placed>, block: Identifier) {
    exists k :: 0 <= k < |ps| && ps[k].block == block
  }

  function OffsetOf(ps: seq<Placed>, block: Identifier): (r: nat)
    requires Holds(ps, block)
    ensures exists k :: 0 <= k < |ps| && ps[k].block == block && ps[k].offset == r
  {
    if ps[0].block == block then ps[0].offset
    else
      assert exists k :: 0 <= k < |ps[1..]| && ps[1..][k].block == block by {
        var k :| 0 <= k < |ps| && ps[k].block == block;
        assert ps[1..][k - 1].block == block;
      }
      OffsetOf(ps[1..], block)
  }

  /** The interval, among those of the section from position i on, that owns the code block. */
  function OwnerFrom(s: seq<Interval>, block: Identifier, i: nat): (r: Option<nat>)
    requires i <= |s|
    ensures r.Some? ==> i <= r.value < |s| && Holds(s[r.value].code, block)
    ensures r.None? ==> forall k :: i <= k < |s| ==> !Holds(s[k].code, block)
    decreases |s| - i
  {
    if i == |s| then None
    else if Holds(s[i].code, block) then Some(i)
    else OwnerFrom(s, block, i + 1)
  }

  function OwnerOf(s: seq<Interval>, block: Identifier): (r: Option<nat>)
    ensures r.Some? ==> r.value < |s| && Holds(s[r.value].code, block)
    ensures r.None? ==> forall k :: 0 <= k < |s| ==> !Holds(s[k].code, block)
  {
    OwnerFrom(s, block, 0)
  }

  datatype Verdict = Skip | Reject | Accept(target: nat)

  predicate Accepted(s: seq<Interval>, i: nat, v: Verdict) {
    v.Accept? ==> v.target < |s| && v.target != i && s[v.target].code != []
  }

  /** What the scan does with edge e, seen from interval i. */
  function Judge(s: seq<Interval>, i: nat, e: Edge): (v: Verdict)
    requires i < |s| && s[i].code != []
    ensures Accepted(s, i, v)
  {
    if e.kind != Fallthrough then Skip
    else match e.target
      case ProxyNode => Reject
      case CodeNode(block) =>
        match OwnerOf(s, block)
        case None => Reject
        case Some(j) =>
          if j == i then Skip
          else if s[i].code[|s[i].code| - 1].End() != s[i].size then Reject
          else if OffsetOf(s[j].code, block) != 0 then Reject
          else Accept(j)
  }

  /** The first edge that is not skipped decides. */
  function JudgeAll(s: seq<Interval>, i: nat, es: seq<Edge>): (v: Verdict)
    requires i < |s| && s[i].code != []
    ensures Accepted(s, i, v)
  {
    if es == [] then Skip
    else match Judge(s, i, es[0])
      case Skip => JudgeAll(s, i, es[1..])
      case Reject => Reject
      case Accept(j) => Accept(j)
  }

  /** The edges the scan walks for interval i: those of its first code block. */
  function ScannedEdges(s: seq<Interval>, cfg: Cfg, i: nat): seq<Edge>
    requires i < |s| && s[i].code != []
  {
    OutEdges(cfg, s[i].code[0].block)
  }

  datatype Scan = Settled | Stuck | Fuse(source: nat, target: nat)

  function ScanFrom(s: seq<Interval>, cfg: Cfg, i: nat): (r: Scan)
    requires i <= |s|
    ensures r.Fuse? ==> r.source < |s| && r.target < |s| && r.source != r.target
    ensures r.Fuse? ==> i <= r.source && s[r.source].code != [] && s[r.target].code != []
    decreases |s| - i
  {
    if i == |s| then Settled
    else if s[i].code == [] then ScanFrom(s, cfg, i + 1)
    else match JudgeAll(s, i, ScannedEdges(s, cfg, i))
      case Skip => ScanFrom(s, cfg, i + 1)
      case Reject => Stuck
      case Accept(j) => Fuse(i, j)
  }

  // ---- merging until nothing is left to merge ----

  /** Different intervals, both full. */
  predicate CanFuse(s: seq<Interval>, i: nat, j: nat) {
    i < |s| && j < |s| && i != j && Full(s[i]) && Full(s[j])
  }

  /** The position of interval i once interval j is gone. */
  function Shifted(i: nat, j: nat): (r: nat)
    requires i != j
  {
    if i < j then i else i - 1
  }

  /** The position of interval k after interval i has absorbed interval j. */
  function After(k: nat, i: nat, j: nat): nat
    requires i != j
  {
    Shifted(if k == j then i else k, j)
  }

  ghost function Absorb(s: seq<Interval>, i: nat, j: nat): (r: seq<Interval>)
    requires CanFuse(s, i, j) && AllFilled(s)
    ensures |r| == |s| - 1 && AllFilled(r)
  {
    RemoveAt(s[i := Join(s[i], s[j])], j)
  }

  /** Whatever is fused is full at that time. */
  ghost predicate Fusable(s: seq<Interval>, cfg: Cfg)
    decreases |s|
  {
    AllFilled(s) &&
    match ScanFrom(s, cfg, 0)
    case Fuse(i, j) => CanFuse(s, i, j) && Fusable(Absorb(s, i, j), cfg)
    case _ => true
  }

  datatype Merged = Merged(ok: bool, intervals: seq<Interval>)

  /** Every recursive call has one interval less: the merge terminates. */
  ghost function FindAndMerge(s: seq<Interval>, cfg: Cfg): (r: Merged)
    requires Fusable(s, cfg)
    ensures AllFilled(r.intervals) && |r.intervals| <= |s|
    decreases |s|
  {
    match ScanFrom(s, cfg, 0)
    case Settled => Merged(true, s)
    case Stuck => Merged(false, s)
    case Fuse(i, j) => FindAndMerge(Absorb(s, i, j), cfg)
  }
}
