/** The layout of a whole module as a function on the interval lists of its sections. */
module LayoutSpec {
  import opened Common
  import opened Intervals

  type Sections = seq<seq<Interval>>

  ghost predicate SectionsFusable(ms: Sections, cfg: Cfg) {
    forall m :: 0 <= m < |ms| ==> Fusable(ms[m], cfg)
  }

  function SizeSum(s: seq<Interval>): nat {
    if s == [] then 0 else s[0].size + SizeSum(s[1..])
  }

  /** Places the intervals end to end, the first one at address a. */
  function AssignFrom(s: seq<Interval>, a: nat): (r: seq<Interval>)
    ensures |r| == |s|
    decreases |s|
  {
    if s == [] then []
    else [s[0].(address := Some(a))] + AssignFrom(s[1..], Wrap(a + s[0].size))
  }

  /** A section that cannot be merged completely is not placed. */
  ghost function SectionLayout(s: seq<Interval>, cfg: Cfg, a: nat): seq<Interval>
    requires Fusable(s, cfg)
  {
    var merged := FindAndMerge(s, cfg);
    if merged.ok then AssignFrom(merged.intervals, a) else merged.intervals
  }

  ghost function AddressAfter(s: seq<Interval>, cfg: Cfg, a: nat): nat
    requires Fusable(s, cfg)
  {
    EndAddress(FindAndMerge(s, cfg).intervals, a)
  }

  /** The address after the last interval, if the first one is placed at a. */
  function EndAddress(s: seq<Interval>, a: nat): nat {
    Wrap(a + SizeSum(s))
  }

  datatype Layout = Layout(ok: bool, sections: Sections)

  /** Merges and places the sections in turn, and gives up at the first that cannot be merged. */
  ghost function LayoutFrom(ms: Sections, cfg: Cfg, a: nat): (r: Layout)
    requires SectionsFusable(ms, cfg)
    ensures |r.sections| == |ms|
    decreases |ms|
  {
    if ms == [] then Layout(true, [])
    else
      var merged := FindAndMerge(ms[0], cfg);
      if !merged.ok then Layout(false, [merged.intervals] + ms[1..])
      else
        var rest := LayoutFrom(ms[1..], cfg, EndAddress(merged.intervals, a));
        Layout(rest.ok, [AssignFrom(merged.intervals, a)] + rest.sections)
  }

  ghost function LayoutModule(ms: Sections, cfg: Cfg): (r: Layout)
    requires SectionsFusable(ms, cfg)
    ensures |r.sections| == |ms|
  {
    LayoutFrom(ms, cfg, 0)
  }

  function EraseAll(s: seq<Interval>): (r: seq<Interval>)
    ensures |r| == |s|
    ensures forall k :: 0 <= k < |s| ==> r[k] == s[k].(address := None)
  {
    seq(|s|, k requires 0 <= k < |s| => s[k].(address := None))
  }

  function RemoveLayout(ms: Sections): (r: Sections)
    ensures |r| == |ms|
    ensures forall m :: 0 <= m < |ms| ==> r[m] == EraseAll(ms[m])
  {
    seq(|ms|, m requires 0 <= m < |ms| => EraseAll(ms[m]))
  }

  /** All intervals of the module, section after section. */
  function Flat(ms: Sections): seq<Interval> {
    if ms == [] then [] else ms[0] + Flat(ms[1..])
  }

  // ---- addresses are sums of sizes ----

  lemma {:induction false} SizeSumConcat(s: seq<Interval>, t: seq<Interval>)
    ensures SizeSum(s + t) == SizeSum(s) + SizeSum(t)
  {
    if s == [] {
      assert s + t == t;
    } else {
      SizeSumConcat(s[1..], t);
      assert (s + t)[1..] == s[1..] + t;
    }
  }

  lemma SizeSumPrefix(s: seq<Interval>, n: nat)
    requires n < |s|
    ensures SizeSum(s[..n]) + s[n].size == SizeSum(s[..n + 1]) <= SizeSum(s)
  {
    SizeSumConcat(s[..n], [s[n]]);
    assert s[..n] + [s[n]] == s[..n + 1];
    SizeSumConcat(s[..n + 1], s[n + 1..]);
    assert s[..n + 1] + s[n + 1..] == s;
  }

  /** Interval n gets the sum of the sizes before it. */
  lemma {:induction false} AssignedAddress(s: seq<Interval>, a: nat, n: nat)
    requires n < |s|
    ensures AssignFrom(s, Wrap(a))[n] == s[n].(address := Some(Wrap(a + SizeSum(s[..n]))))
    decreases n
  {
    if n > 0 {
      WrapSum(a, s[0].size);
      AssignedAddress(s[1..], a + s[0].size, n - 1);
      assert s[..n][0] == s[0] && s[..n][1..] == s[1..][..n - 1];
    }
  }

  lemma AssignStep(s: seq<Interval>, a: nat, n: nat)
    requires n < |s| && a < ADDRESS_SPACE
    ensures AssignFrom(s, a)[n] == s[n].(address := Some(EndAddress(s[..n], a)))
    ensures Wrap(EndAddress(s[..n], a) + s[n].size) == EndAddress(s[..n + 1], a)
  {
    AssignedAddress(s, a, n);
    SizeSumPrefix(s, n);
    WrapSum(a + SizeSum(s[..n]), s[n].size);
  }

  lemma AssignKeepsFilled(s: seq<Interval>, a: nat)
    requires AllFilled(s) && a < ADDRESS_SPACE
    ensures AllFilled(AssignFrom(s, a))
  {
    forall n | 0 <= n < |s|
      ensures Filled(AssignFrom(s, a)[n])
    {
      AssignedAddress(s, a, n);
    }
  }

  // ---- one turn of the layout loop ----

  /** A section whose merge succeeds is placed, and the loop goes on behind it. */
  lemma LayoutTurn(ms: Sections, cfg: Cfg, a: nat, s: seq<Interval>)
    requires ms != [] && SectionsFusable(ms, cfg) && FindAndMerge(ms[0], cfg) == Merged(true, s)
    ensures var rest := LayoutFrom(ms[1..], cfg, EndAddress(s, a));
      LayoutFrom(ms, cfg, a) == Layout(rest.ok, [AssignFrom(s, a)] + rest.sections)
  {
  }

  /** A section whose merge fails ends the loop: it is not placed, and no later section is touched. */
  lemma LayoutStops(ms: Sections, cfg: Cfg, a: nat, s: seq<Interval>)
    requires ms != [] && SectionsFusable(ms, cfg) && FindAndMerge(ms[0], cfg) == Merged(false, s)
    ensures LayoutFrom(ms, cfg, a) == Layout(false, [s] + ms[1..])
  {
  }
}
