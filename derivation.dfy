/**
 * The derivation run whenever the radial snapshot changes (src/App.tsx:356-392).
 *
 * A level-3 node is a fund; its level-4 children are the amounts held in
 * it, and its own `value` is the percentage of the whole the fund should
 * take. Each fund therefore implies a total `sum / (value / 100)`; the
 * largest of these is the expected total. When it is positive, every leaf
 * of a fund with a non-zero sum remembers its amount as `price` and its
 * `value` becomes its share of the expected total in percent. Finally the
 * prices of all level-4 nodes are summed as the current total.
 *
 * The snapshot is mutated in place, so the run is a method of
 * `RadialSnapshot`; the functions below specify it.
 */
module Derivation {
  import opened DataModel
  import opened KeyCodec
  import opened Converter

  // ---------------------------------------------------------------------------
  // Levels of the snapshot
  // ---------------------------------------------------------------------------

  /** The nodes one ring further in, in traversal order; an absent `children` adds none. */
  function ConcatRings(xs: seq<SunBurstData>): seq<SunBurstData> {
    if xs == [] then [] else ConcatRings(xs[..|xs| - 1]) + RingsOf(xs[|xs| - 1])
  }

  function Level2(roots: seq<SunBurstData>): seq<SunBurstData> {
    ConcatRings(roots)
  }

  function Level3(roots: seq<SunBurstData>): seq<SunBurstData> {
    ConcatRings(Level2(roots))
  }

  /** The level-4 nodes, in the order the scan pushes them onto `result`. */
  function Level4(roots: seq<SunBurstData>): seq<SunBurstData> {
    ConcatRings(Level3(roots))
  }

  lemma {:induction false} ConcatRingsAppend(a: seq<SunBurstData>, b: seq<SunBurstData>)
    ensures ConcatRings(a + b) == ConcatRings(a) + ConcatRings(b)
  {
    if b == [] {
      assert a + b == a;
    } else {
      var front, x := b[..|b| - 1], b[|b| - 1];
      ConcatRingsAppend(a, front);
      assert (a + b)[..|a + b| - 1] == a + front;
      assert (a + b)[|a + b| - 1] == x;
      calc {
        ConcatRings(a + b);
        ConcatRings(a + front) + RingsOf(x);
        ConcatRings(a) + ConcatRings(front) + RingsOf(x);
        { Associative(ConcatRings(a), ConcatRings(front), RingsOf(x)); }
        ConcatRings(a) + (ConcatRings(front) + RingsOf(x));
      }
    }
  }

  /** One step of a left-to-right walk over `xs`. */
  lemma ConcatRingsStep(xs: seq<SunBurstData>, i: nat)
    requires i < |xs|
    ensures ConcatRings(xs[..i + 1]) == ConcatRings(xs[..i]) + RingsOf(xs[i])
  {
    assert xs[..i + 1][..i] == xs[..i];
  }

  /** The rings of `xs[j]` sit between those of the nodes before and after it. */
  lemma ConcatRingsSplit(xs: seq<SunBurstData>, j: nat)
    requires j < |xs|
    ensures ConcatRings(xs) == ConcatRings(xs[..j]) + RingsOf(xs[j]) + ConcatRings(xs[j + 1..])
  {
    assert xs == xs[..j + 1] + xs[j + 1..];
    ConcatRingsAppend(xs[..j + 1], xs[j + 1..]);
    ConcatRingsStep(xs, j);
  }

  /** Nothing one ring further in means every node of `xs` has no children to offer. */
  lemma ConcatRingsEmpty(xs: seq<SunBurstData>, j: nat)
    requires j < |xs| && ConcatRings(xs) == []
    ensures RingsOf(xs[j]) == []
  {
    ConcatRingsSplit(xs, j);
  }

  // ---------------------------------------------------------------------------
  // The scan: expected total and level-4 nodes
  // ---------------------------------------------------------------------------

  /** `children.map(v => v.value).reduce((p, v) => p + v)`, summed left to right. */
  function ValueSum(leaves: seq<SunBurstData>): real {
    if leaves == [] then 0.0 else ValueSum(leaves[..|leaves| - 1]) + leaves[|leaves| - 1].value
  }

  /** A fund's `total`: undefined when it has no `children` array. */
  function GroupTotal(g: SunBurstData): Option<real> {
    match g.children
    case NoRings => None
    case Rings(leaves) => Some(ValueSum(leaves))
  }

  /** `total` is truthy: present and non-zero. */
  predicate Contributes(g: SunBurstData) {
    GroupTotal(g).Some? && GroupTotal(g).value != 0.0
  }

  /**
   * A present `children` array is non-empty: `reduce` without an initial
   * value throws on `[]`.
   */
  predicate HoldingsPresent(g: SunBurstData) {
    g.children.Rings? ==> |g.children.nodes| > 0
  }

  /**
   * A fund with a positive total has a non-zero target: otherwise the
   * division yields Infinity, and `maxTotal` with it. A negative total over
   * a zero target yields -Infinity, which never exceeds `maxTotal`, so the
   * scan skips that fund without harm.
   */
  predicate FiniteTarget(g: SunBurstData) {
    GroupTotal(g).Some? && GroupTotal(g).value > 0.0 ==> g.value != 0.0
  }

  /** What the source needs of a level-3 node to finish with finite figures. */
  predicate Derivable(g: SunBurstData) {
    HoldingsPresent(g) && FiniteTarget(g)
  }

  predicate AllPresent(gs: seq<SunBurstData>) {
    forall k :: 0 <= k < |gs| ==> HoldingsPresent(gs[k])
  }

  predicate AllFinite(gs: seq<SunBurstData>) {
    forall k :: 0 <= k < |gs| ==> FiniteTarget(gs[k])
  }

  predicate AllDerivable(gs: seq<SunBurstData>) {
    AllPresent(gs) && AllFinite(gs)
  }

  lemma AllDerivableConcat(a: seq<SunBurstData>, b: seq<SunBurstData>)
    ensures AllPresent(a + b) <==> AllPresent(a) && AllPresent(b)
    ensures AllFinite(a + b) <==> AllFinite(a) && AllFinite(b)
    ensures AllDerivable(a + b) <==> AllDerivable(a) && AllDerivable(b)
  {
    assert forall k :: 0 <= k < |a| ==> (a + b)[k] == a[k];
    assert forall k :: 0 <= k < |b| ==> (a + b)[|a| + k] == b[k];
    if AllPresent(a) && AllPresent(b) {
      forall k | 0 <= k < |a + b| ensures HoldingsPresent((a + b)[k]) {
        if k >= |a| {
          assert (a + b)[k] == b[k - |a|];
        }
      }
    }
    if AllFinite(a) && AllFinite(b) {
      forall k | 0 <= k < |a + b| ensures FiniteTarget((a + b)[k]) {
        if k >= |a| {
          assert (a + b)[k] == b[k - |a|];
        }
      }
    }
  }

  /**
   * A fund the scan can weigh: truthy total and non-zero target. A zero
   * target with a negative total is the -Infinity the scan skips.
   */
  predicate Funded(g: SunBurstData) {
    Contributes(g) && g.value != 0.0
  }

  /** The total a fund implies: `total / (value / 100)`. */
  function Implied(g: SunBurstData): real
    requires Funded(g)
  {
    GroupTotal(g).value / (g.value / 100.0)
  }

  /** The running maximum of the scan, starting from `acc`. */
  function FoldMax(acc: real, gs: seq<SunBurstData>): real {
    if gs == [] then acc
    else
      var m := FoldMax(acc, gs[..|gs| - 1]);
      var g := gs[|gs| - 1];
      if Funded(g) && Implied(g) > m then Implied(g) else m
  }

  lemma {:induction false} FoldMaxAppend(acc: real, a: seq<SunBurstData>, b: seq<SunBurstData>)
    ensures FoldMax(acc, a + b) == FoldMax(FoldMax(acc, a), b)
  {
    if b == [] {
      assert a + b == a;
    } else {
      FoldMaxAppend(acc, a, b[..|b| - 1]);
      assert (a + b)[..|a + b| - 1] == a + b[..|b| - 1];
    }
  }

  /**
   * The fold is a maximum: never below its start, at least every implied
   * total, and either its start or one of those totals.
   */
  lemma {:induction false} FoldMaxBounds(acc: real, gs: seq<SunBurstData>)
    ensures FoldMax(acc, gs) >= acc
    ensures forall k :: 0 <= k < |gs| && Funded(gs[k]) ==> Implied(gs[k]) <= FoldMax(acc, gs)
    ensures FoldMax(acc, gs) == acc ||
            exists k :: 0 <= k < |gs| && Funded(gs[k]) && Implied(gs[k]) == FoldMax(acc, gs)
  {
    if gs != [] {
      var n := |gs| - 1;
      var init := gs[..n];
      FoldMaxBounds(acc, init);
      var m := FoldMax(acc, init);
      assert forall k :: 0 <= k < n ==> init[k] == gs[k];
      if !(Funded(gs[n]) && Implied(gs[n]) > m) {
        if m != acc {
          var k :| 0 <= k < n && Funded(init[k]) && Implied(init[k]) == m;
          assert Funded(gs[k]) && Implied(gs[k]) == FoldMax(acc, gs);
        }
      }
    }
  }

  /** `maxTotal`: the largest implied total over all level-3 nodes, 0 when none is positive. */
  function MaxTotal(roots: seq<SunBurstData>): real {
    FoldMax(0.0, Level3(roots))
  }

  /** The expected total is non-negative, bounds every fund's implied total, and is 0 or attained. */
  lemma MaxTotalIsMaximum(roots: seq<SunBurstData>)
    ensures MaxTotal(roots) >= 0.0
    ensures forall k :: 0 <= k < |Level3(roots)| && Funded(Level3(roots)[k]) ==>
              Implied(Level3(roots)[k]) <= MaxTotal(roots)
    ensures MaxTotal(roots) == 0.0 ||
            exists k :: 0 <= k < |Level3(roots)| && Funded(Level3(roots)[k]) &&
                        Implied(Level3(roots)[k]) == MaxTotal(roots)
  {
    FoldMaxBounds(0.0, Level3(roots));
  }

  /** Derivability of the funds below one root, or below one level-1/2 node. */
  lemma DerivableBelow(xs: seq<SunBurstData>, j: nat)
    requires j < |xs|
    ensures AllPresent(ConcatRings(xs)) ==> AllPresent(RingsOf(xs[j]))
    ensures AllFinite(ConcatRings(xs)) ==> AllFinite(RingsOf(xs[j]))
  {
    ConcatRingsSplit(xs, j);
    AllDerivableConcat(ConcatRings(xs[..j]) + RingsOf(xs[j]), ConcatRings(xs[j + 1..]));
    AllDerivableConcat(ConcatRings(xs[..j]), RingsOf(xs[j]));
  }

  lemma DerivableBelowRoot(roots: seq<SunBurstData>, i: nat)
    requires i < |roots|
    ensures AllPresent(Level3(roots)) ==> AllPresent(ConcatRings(RingsOf(roots[i])))
    ensures AllFinite(Level3(roots)) ==> AllFinite(ConcatRings(RingsOf(roots[i])))
  {
    var before, mid, after := ConcatRings(roots[..i]), RingsOf(roots[i]), ConcatRings(roots[i + 1..]);
    ConcatRingsSplit(roots, i);
    ConcatRingsAppend(before + mid, after);
    ConcatRingsAppend(before, mid);
    AllDerivableConcat(ConcatRings(before) + ConcatRings(mid), ConcatRings(after));
    AllDerivableConcat(ConcatRings(before), ConcatRings(mid));
  }

  /** One step of the running maximum. */
  lemma FoldMaxStep(acc: real, gs: seq<SunBurstData>, i: nat)
    requires i < |gs|
    ensures FoldMax(acc, gs[..i + 1]) ==
            var m := FoldMax(acc, gs[..i]);
            if Funded(gs[i]) && Implied(gs[i]) > m then Implied(gs[i]) else m
  {
    assert gs[..i + 1][..i] == gs[..i];
  }

  /**
   * The innermost `forEach` of the scan over the funds of one level-2 node.
   * `thrown` is the TypeError of `reduce` on an empty holdings array, which
   * ends the whole effect.
   */
  method ScanFunds(funds: seq<SunBurstData>, acc: real, pushed: seq<SunBurstData>)
    returns (maxTotal: real, result: seq<SunBurstData>, thrown: bool)
    requires AllFinite(funds)
    ensures thrown <==> !AllPresent(funds)
    ensures !thrown ==> maxTotal == FoldMax(acc, funds) && result == pushed + ConcatRings(funds)
  {
    maxTotal, result, thrown := acc, pushed, false;
    var i := 0;
    while i < |funds|
      invariant 0 <= i <= |funds|
      invariant AllPresent(funds[..i])
      invariant maxTotal == FoldMax(acc, funds[..i])
      invariant result == pushed + ConcatRings(funds[..i])
    {
      var g := funds[i];
      FoldMaxStep(acc, funds, i);
      ConcatRingsStep(funds, i);
      assert FiniteTarget(g);
      match g.children {
        case Rings(leaves) =>
          if leaves == [] {
            thrown := true;
            assert !HoldingsPresent(funds[i]);
            return;
          }
          var total := ValueSum(leaves);
          assert GroupTotal(g) == Some(total);
          assert Funded(g) <==> total != 0.0 && g.value != 0.0;
          // A zero target can only meet a negative total here: `-Infinity > maxTotal` is false.
          if total != 0.0 && g.value != 0.0 && total / (g.value / 100.0) > maxTotal {
            assert Implied(g) == total / (g.value / 100.0);
            maxTotal := total / (g.value / 100.0);
          }
          Associative(pushed, ConcatRings(funds[..i]), leaves);
          result := PushAll(result, leaves);
        case NoRings =>
          assert !Funded(g) && RingsOf(g) == [];
      }
      assert AllPresent(funds[..i + 1]) by {
        assert forall k :: 0 <= k < i ==> funds[..i + 1][k] == funds[..i][k];
      }
      i := i + 1;
    }
    assert funds[..|funds|] == funds;
  }

  /** What the scan of the `i`-th level-2 node adds to the fold and to the pushed nodes. */
  lemma ScanStep(items: seq<SunBurstData>, i: nat, acc: real, done: seq<SunBurstData>)
    requires i < |items| && done == ConcatRings(items[..i])
    ensures AllFinite(ConcatRings(items)) ==> AllFinite(RingsOf(items[i]))
    ensures AllPresent(ConcatRings(items)) ==> AllPresent(RingsOf(items[i]))
    ensures done + RingsOf(items[i]) == ConcatRings(items[..i + 1])
    ensures FoldMax(acc, done + RingsOf(items[i])) == FoldMax(FoldMax(acc, done), RingsOf(items[i]))
    ensures ConcatRings(done + RingsOf(items[i])) == ConcatRings(done) + ConcatRings(RingsOf(items[i]))
  {
    DerivableBelow(items, i);
    ConcatRingsStep(items, i);
    FoldMaxAppend(acc, done, RingsOf(items[i]));
    ConcatRingsAppend(done, RingsOf(items[i]));
  }

  /** The middle `forEach` of the scan over the level-2 nodes of one root. */
  method ScanLevel2(items: seq<SunBurstData>, acc: real, pushed: seq<SunBurstData>)
    returns (maxTotal: real, result: seq<SunBurstData>, thrown: bool)
    requires AllFinite(ConcatRings(items))
    ensures thrown <==> !AllPresent(ConcatRings(items))
    ensures !thrown ==> maxTotal == FoldMax(acc, ConcatRings(items)) && result == pushed + ConcatRings(ConcatRings(items))
  {
    maxTotal, result, thrown := acc, pushed, false;
    ghost var done: seq<SunBurstData> := [];
    var i := 0;
    while i < |items|
      invariant 0 <= i <= |items|
      invariant done == ConcatRings(items[..i]) && AllPresent(done)
      invariant maxTotal == FoldMax(acc, done)
      invariant result == pushed + ConcatRings(done)
    {
      var funds := RingsOf(items[i]);
      ScanStep(items, i, acc, done);
      maxTotal, result, thrown := ScanFunds(funds, maxTotal, result);
      if thrown {
        return;
      }
      AllDerivableConcat(done, funds);
      Associative(pushed, ConcatRings(done), ConcatRings(funds));
      done := done + funds;
      i := i + 1;
    }
    assert items[..|items|] == items;
  }

  /**
   * The whole scan (src/App.tsx:356-366): the expected total and the
   * level-4 nodes, or the TypeError of a fund with an empty holdings array.
   */
  method Scan(roots: seq<SunBurstData>) returns (maxTotal: real, result: seq<SunBurstData>, thrown: bool)
    requires AllFinite(Level3(roots))
    ensures thrown <==> !AllPresent(Level3(roots))
    ensures !thrown ==> maxTotal == MaxTotal(roots) && result == Level4(roots)
  {
    maxTotal, result, thrown := 0.0, [], false;
    var i := 0;
    while i < |roots|
      invariant 0 <= i <= |roots|
      invariant AllPresent(Level3(roots[..i]))
      invariant maxTotal == FoldMax(0.0, Level3(roots[..i]))
      invariant result == Level4(roots[..i])
    {
      var items := RingsOf(roots[i]);
      DerivableBelowRoot(roots, i);
      ConcatRingsStep(roots, i);
      ConcatRingsAppend(ConcatRings(roots[..i]), items);
      FoldMaxAppend(0.0, Level3(roots[..i]), ConcatRings(items));
      ConcatRingsAppend(Level3(roots[..i]), ConcatRings(items));
      maxTotal, result, thrown := ScanLevel2(items, maxTotal, result);
      if thrown {
        return;
      }
      AllDerivableConcat(Level3(roots[..i]), ConcatRings(items));
      i := i + 1;
    }
    assert roots[..|roots|] == roots;
  }

  // ---------------------------------------------------------------------------
  // The rewrite
  // ---------------------------------------------------------------------------

  /** `data.price = data.value; data.value = data.value * 100 / maxTotal`. */
  function RewrittenLeaf(leaf: SunBurstData, m: real): SunBurstData
    requires m != 0.0
  {
    leaf.(price := Some(leaf.value), value := leaf.value * 100.0 / m)
  }

  function RewrittenLeaves(leaves: seq<SunBurstData>, m: real): (r: seq<SunBurstData>)
    requires m != 0.0
    ensures |r| == |leaves|
  {
    seq(|leaves|, j requires 0 <= j < |leaves| => RewrittenLeaf(leaves[j], m))
  }

  /** A level-3 node: its leaves are rewritten only when their total is truthy. */
  function RewrittenFund(g: SunBurstData, m: real): SunBurstData
    requires m != 0.0
  {
    match g.children
    case NoRings => g
    case Rings(leaves) =>
      if ValueSum(leaves) != 0.0 then g.(children := Rings(RewrittenLeaves(leaves, m))) else g
  }

  function RewrittenFunds(funds: seq<SunBurstData>, m: real): (r: seq<SunBurstData>)
    requires m != 0.0
    ensures |r| == |funds|
  {
    seq(|funds|, k requires 0 <= k < |funds| => RewrittenFund(funds[k], m))
  }

  function RewrittenLevel2(n: SunBurstData, m: real): SunBurstData
    requires m != 0.0
  {
    match n.children
    case NoRings => n
    case Rings(funds) => n.(children := Rings(RewrittenFunds(funds, m)))
  }

  function RewrittenItems(items: seq<SunBurstData>, m: real): (r: seq<SunBurstData>)
    requires m != 0.0
    ensures |r| == |items|
  {
    seq(|items|, k requires 0 <= k < |items| => RewrittenLevel2(items[k], m))
  }

  function RewrittenRoot(n: SunBurstData, m: real): SunBurstData
    requires m != 0.0
  {
    match n.children
    case NoRings => n
    case Rings(items) => n.(children := Rings(RewrittenItems(items, m)))
  }

  /** The whole rewrite of src/App.tsx:367-385 with expected total `m`. */
  function Rewrite(roots: seq<SunBurstData>, m: real): (r: seq<SunBurstData>)
    requires m != 0.0
    ensures |r| == |roots|
  {
    seq(|roots|, k requires 0 <= k < |roots| => RewrittenRoot(roots[k], m))
  }

  /** The rewrite keeps names, values, prices and levels of levels 1-3, and their order. */
  predicate SameHead(a: SunBurstData, b: SunBurstData) {
    a.name == b.name && a.value == b.value && a.price == b.price && a.level == b.level &&
    a.children.Rings? == b.children.Rings?
  }

  lemma RewrittenItemsAppend(a: seq<SunBurstData>, b: seq<SunBurstData>, m: real)
    requires m != 0.0
    ensures RewrittenItems(a + b, m) == RewrittenItems(a, m) + RewrittenItems(b, m)
  {
  }

  lemma RewrittenFundsAppend(a: seq<SunBurstData>, b: seq<SunBurstData>, m: real)
    requires m != 0.0
    ensures RewrittenFunds(a + b, m) == RewrittenFunds(a, m) + RewrittenFunds(b, m)
  {
  }

  lemma {:induction false} RewriteLevel2Commutes(roots: seq<SunBurstData>, m: real)
    requires m != 0.0
    ensures ConcatRings(Rewrite(roots, m)) == RewrittenItems(ConcatRings(roots), m)
  {
    if roots != [] {
      var n := |roots| - 1;
      RewriteLevel2Commutes(roots[..n], m);
      assert Rewrite(roots, m)[..n] == Rewrite(roots[..n], m);
      assert RingsOf(RewrittenRoot(roots[n], m)) == RewrittenItems(RingsOf(roots[n]), m);
      RewrittenItemsAppend(ConcatRings(roots[..n]), RingsOf(roots[n]), m);
    }
  }

  lemma {:induction false} RewriteFundsCommutes(items: seq<SunBurstData>, m: real)
    requires m != 0.0
    ensures ConcatRings(RewrittenItems(items, m)) == RewrittenFunds(ConcatRings(items), m)
  {
    if items != [] {
      var n := |items| - 1;
      RewriteFundsCommutes(items[..n], m);
      assert RewrittenItems(items, m)[..n] == RewrittenItems(items[..n], m);
      assert RingsOf(RewrittenLevel2(items[n], m)) == RewrittenFunds(RingsOf(items[n]), m);
      RewrittenFundsAppend(ConcatRings(items[..n]), RingsOf(items[n]), m);
    }
  }

  /**
   * Seen level by level, the rewrite leaves levels 1 and 2 as they were and
   * rewrites each level-3 node on its own, in place and order.
   */
  lemma RewriteByLevel(roots: seq<SunBurstData>, m: real)
    requires m != 0.0
    ensures var r := Rewrite(roots, m);
      && |r| == |roots|
      && (forall k :: 0 <= k < |roots| ==> SameHead(r[k], roots[k]))
      && |Level2(r)| == |Level2(roots)|
      && (forall k :: 0 <= k < |Level2(roots)| ==> SameHead(Level2(r)[k], Level2(roots)[k]))
      && Level3(r) == RewrittenFunds(Level3(roots), m)
      && Level4(r) == ConcatRings(RewrittenFunds(Level3(roots), m))
  {
    RewriteLevel2Commutes(roots, m);
    RewriteFundsCommutes(Level2(roots), m);
  }

  lemma ScaleAdd(s: real, v: real, m: real)
    requires m != 0.0
    ensures s * 100.0 / m + v * 100.0 / m == (s + v) * 100.0 / m
  {
  }

  lemma {:induction false} ValueSumScales(leaves: seq<SunBurstData>, m: real)
    requires m != 0.0
    ensures ValueSum(RewrittenLeaves(leaves, m)) == ValueSum(leaves) * 100.0 / m
  {
    if leaves != [] {
      var n := |leaves| - 1;
      ValueSumScales(leaves[..n], m);
      assert RewrittenLeaves(leaves, m)[..n] == RewrittenLeaves(leaves[..n], m);
      ScaleAdd(ValueSum(leaves[..n]), leaves[n].value, m);
    }
  }

  /**
   * The fund that sets the expected total is rewritten to exactly its target
   * percentage; every other fund with positive target and sum ends at or
   * below its target.
   */
  lemma FundShares(roots: seq<SunBurstData>, k: nat)
    requires MaxTotal(roots) > 0.0
    requires k < |Level3(roots)| && Funded(Level3(roots)[k])
    ensures var g, m := Level3(roots)[k], MaxTotal(roots);
      && (Implied(g) == m ==> ValueSum(RingsOf(RewrittenFund(g, m))) == g.value)
      && (g.value > 0.0 && GroupTotal(g).value > 0.0 ==>
            ValueSum(RingsOf(RewrittenFund(g, m))) <= g.value)
  {
    var g, m := Level3(roots)[k], MaxTotal(roots);
    assert Implied(g) <= m by {
      MaxTotalIsMaximum(roots);
    }
    assert RingsOf(RewrittenFund(g, m)) == RewrittenLeaves(RingsOf(g), m);
    ValueSumScales(RingsOf(g), m);
    ShareOfTarget(GroupTotal(g).value, g.value, m);
  }

  /** Arithmetic of a share: `t * 100 / m` against the target `v` when `t / (v / 100)` is, or is below, `m`. */
  lemma ShareOfTarget(t: real, v: real, m: real)
    requires v != 0.0 && m > 0.0
    ensures t / (v / 100.0) == m ==> t * 100.0 / m == v
    ensures v > 0.0 && t > 0.0 && t / (v / 100.0) <= m ==> t * 100.0 / m <= v
  {
    var i := t / (v / 100.0);
    assert i * v == t * 100.0;
    if i == m {
      assert t * 100.0 == m * v;
    }
    if v > 0.0 && t > 0.0 && i <= m {
      assert t * 100.0 <= m * v;
    }
  }

  /** The innermost rewrite loop: each leaf of a fund, in place. */
  method RewriteLeaves(leaves: seq<SunBurstData>, m: real) returns (out: seq<SunBurstData>)
    requires m != 0.0
    ensures out == RewrittenLeaves(leaves, m)
  {
    out := leaves;
    var j := 0;
    while j < |out|
      invariant 0 <= j <= |out| == |leaves|
      invariant forall q :: 0 <= q < j ==> out[q] == RewrittenLeaf(leaves[q], m)
      invariant forall q :: j <= q < |out| ==> out[q] == leaves[q]
    {
      var data := out[j];
      data := data.(price := Some(data.value));
      data := data.(value := data.value * 100.0 / m);
      out := out[j := data];
      j := j + 1;
    }
  }

  /** The level-3 loop of the rewrite over the funds of one level-2 node. */
  method RewriteFunds(funds: seq<SunBurstData>, m: real) returns (out: seq<SunBurstData>)
    requires m != 0.0 && AllDerivable(funds)
    ensures out == RewrittenFunds(funds, m)
  {
    out := funds;
    var k := 0;
    while k < |out|
      invariant 0 <= k <= |out| == |funds|
      invariant forall q :: 0 <= q < k ==> out[q] == RewrittenFund(funds[q], m)
      invariant forall q :: k <= q < |out| ==> out[q] == funds[q]
    {
      var g := out[k];
      match g.children {
        case Rings(leaves) =>
          var total := ValueSum(leaves);
          if total != 0.0 {
            var rewritten := RewriteLeaves(leaves, m);
            out := out[k := g.(children := Rings(rewritten))];
          }
        case NoRings =>
      }
      k := k + 1;
    }
  }

  /** The level-2 loop of the rewrite over the level-2 nodes of one root. */
  method RewriteItems(items: seq<SunBurstData>, m: real) returns (out: seq<SunBurstData>)
    requires m != 0.0 && AllDerivable(ConcatRings(items))
    ensures out == RewrittenItems(items, m)
  {
    out := items;
    var k := 0;
    while k < |out|
      invariant 0 <= k <= |out| == |items|
      invariant forall q :: 0 <= q < k ==> out[q] == RewrittenLevel2(items[q], m)
      invariant forall q :: k <= q < |out| ==> out[q] == items[q]
    {
      var n := out[k];
      match n.children {
        case Rings(funds) =>
          DerivableBelow(items, k);
          var rewritten := RewriteFunds(funds, m);
          out := out[k := n.(children := Rings(rewritten))];
        case NoRings =>
      }
      k := k + 1;
    }
  }

  // ---------------------------------------------------------------------------
  // The summary and the whole run
  // ---------------------------------------------------------------------------

  /** `price || 0`. */
  function PriceOrZero(leaf: SunBurstData): real {
    match leaf.price
    case None => 0.0
    case Some(p) => p
  }

  /** `result.map(item => item.price).reduce((p, v) => (p || 0) + (v || 0)) || 0`. */
  function PriceSum(leaves: seq<SunBurstData>): real {
    if leaves == [] then 0.0 else PriceSum(leaves[..|leaves| - 1]) + PriceOrZero(leaves[|leaves| - 1])
  }

  /** The current holdings line of the subtitle: current total and what is still missing. */
  datatype Holdings = Holdings(currentTotal: real, remaining: real)

  /** The numbers the run reports: the expected total and, when there are level-4 nodes, the holdings. */
  datatype Summary = Summary(maxTotal: real, holdings: Option<Holdings>)

  /** The snapshot after a run: rewritten when the expected total is positive. */
  function Derived(roots: seq<SunBurstData>): seq<SunBurstData> {
    var m := MaxTotal(roots);
    if m > 0.0 then Rewrite(roots, m) else roots
  }

  /** What a run reports; the holdings sum the prices of the level-4 nodes after the rewrite. */
  function DerivedSummary(roots: seq<SunBurstData>): Summary {
    var m := MaxTotal(roots);
    if |Level4(roots)| > 0 then
      var current := PriceSum(Level4(Derived(roots)));
      Summary(m, Some(Holdings(current, m - current)))
    else Summary(m, None)
  }

  /** The radial snapshot `sunBurstData`, which the chart options share and the run mutates. */
  class RadialSnapshot {
    var nodes: seq<SunBurstData>

    constructor (data: seq<SunBurstData>)
      ensures nodes == data
    {
      nodes := data;
    }

    /** The outer `forEach` of the rewrite (src/App.tsx:369-386), root by root in place. */
    method RewriteRoots(m: real)
      requires m != 0.0 && AllDerivable(Level3(nodes))
      modifies this
      ensures nodes == Rewrite(old(nodes), m)
    {
      ghost var before := nodes;
      var i := 0;
      while i < |nodes|
        invariant 0 <= i <= |nodes| == |before|
        invariant forall q :: 0 <= q < i ==> nodes[q] == RewrittenRoot(before[q], m)
        invariant forall q :: i <= q < |nodes| ==> nodes[q] == before[q]
      {
        var item := nodes[i];
        match item.children {
          case Rings(items) =>
            DerivableBelowRoot(before, i);
            var rewritten := RewriteItems(items, m);
            nodes := nodes[i := item.(children := Rings(rewritten))];
          case NoRings =>
        }
        i := i + 1;
      }
    }

    /**
     * The effect body of src/App.tsx:356-392, without its chart and storage
     * calls. `None` is the TypeError the scan throws on a fund with an empty
     * holdings array: the effect stops before it changes anything.
     */
    method Derive() returns (summary: Option<Summary>)
      requires AllFinite(Level3(nodes))
      modifies this
      ensures AllPresent(Level3(old(nodes))) ==> nodes == Derived(old(nodes)) && summary == Some(DerivedSummary(old(nodes)))
      ensures !AllPresent(Level3(old(nodes))) ==> nodes == old(nodes) && summary == None
    {
      ghost var before := nodes;
      var maxTotal, result, thrown := Scan(nodes);
      if thrown {
        return None;
      }
      assert maxTotal == MaxTotal(before) && result == Level4(before);
      if maxTotal > 0.0 {
        RewriteRoots(maxTotal);
      }
      assert nodes == Derived(before);
      if |result| > 0 {
        // `result` holds the very leaf objects the rewrite changed.
        var total := PriceSum(Level4(nodes));
        summary := Some(Summary(maxTotal, Some(Holdings(total, maxTotal - total))));
      } else {
        summary := Some(Summary(maxTotal, None));
      }
    }
  }

  // ---------------------------------------------------------------------------
  // Properties of a run
  // ---------------------------------------------------------------------------

  predicate PriceFree(leaves: seq<SunBurstData>) {
    forall j :: 0 <= j < |leaves| ==> leaves[j].price == None
  }

  lemma {:induction false} PriceSumAppend(a: seq<SunBurstData>, b: seq<SunBurstData>)
    ensures PriceSum(a + b) == PriceSum(a) + PriceSum(b)
  {
    if b == [] {
      assert a + b == a;
    } else {
      PriceSumAppend(a, b[..|b| - 1]);
      assert (a + b)[..|a + b| - 1] == a + b[..|b| - 1];
    }
  }

  lemma {:induction false} ValueSumAppend(a: seq<SunBurstData>, b: seq<SunBurstData>)
    ensures ValueSum(a + b) == ValueSum(a) + ValueSum(b)
  {
    if b == [] {
      assert a + b == a;
    } else {
      ValueSumAppend(a, b[..|b| - 1]);
      assert (a + b)[..|a + b| - 1] == a + b[..|b| - 1];
    }
  }

  lemma {:induction false} PriceSumRewritten(leaves: seq<SunBurstData>, m: real)
    requires m != 0.0
    ensures PriceSum(RewrittenLeaves(leaves, m)) == ValueSum(leaves)
  {
    if leaves != [] {
      var n := |leaves| - 1;
      PriceSumRewritten(leaves[..n], m);
      assert RewrittenLeaves(leaves, m)[..n] == RewrittenLeaves(leaves[..n], m);
    }
  }

  lemma {:induction false} PriceSumFree(leaves: seq<SunBurstData>)
    requires PriceFree(leaves)
    ensures PriceSum(leaves) == 0.0
  {
    if leaves != [] {
      PriceSumFree(leaves[..|leaves| - 1]);
    }
  }

  lemma PriceFreeConcat(a: seq<SunBurstData>, b: seq<SunBurstData>)
    requires PriceFree(a + b)
    ensures PriceFree(a) && PriceFree(b)
  {
    assert forall j :: 0 <= j < |a| ==> a[j] == (a + b)[j];
    assert forall j :: 0 <= j < |b| ==> b[j] == (a + b)[|a| + j];
  }

  /** A price-free fund's rewritten prices add up to its amounts, rewritten or not. */
  lemma PriceSumOfRewrittenFund(g: SunBurstData, m: real)
    requires m != 0.0 && PriceFree(RingsOf(g))
    ensures PriceSum(RingsOf(RewrittenFund(g, m))) == ValueSum(RingsOf(g))
  {
    match g.children
    case NoRings =>
    case Rings(leaves) =>
      if ValueSum(leaves) != 0.0 {
        PriceSumRewritten(leaves, m);
      } else {
        PriceSumFree(leaves);
      }
  }

  /** Over price-free funds, the rewritten prices add up to the amounts held. */
  lemma {:induction false} PriceSumOfRewrittenFunds(funds: seq<SunBurstData>, m: real)
    requires m != 0.0 && PriceFree(ConcatRings(funds))
    ensures PriceSum(ConcatRings(RewrittenFunds(funds, m))) == ValueSum(ConcatRings(funds))
  {
    if funds != [] {
      var n := |funds| - 1;
      var g := funds[n];
      var before := ConcatRings(funds[..n]);
      PriceFreeConcat(before, RingsOf(g));
      PriceSumOfRewrittenFunds(funds[..n], m);
      assert RewrittenFunds(funds, m)[..n] == RewrittenFunds(funds[..n], m);
      PriceSumAppend(ConcatRings(RewrittenFunds(funds[..n], m)), RingsOf(RewrittenFund(g, m)));
      ValueSumAppend(before, RingsOf(g));
      PriceSumOfRewrittenFund(g, m);
    }
  }

  /**
   * On a snapshot that carries no prices yet (as the tree-to-radial step
   * writes it), the current total is the sum of the level-4 amounts once
   * the expected total is positive, and 0 otherwise.
   */
  lemma FirstRunCurrentTotal(roots: seq<SunBurstData>)
    requires PriceFree(Level4(roots)) && |Level4(roots)| > 0
    ensures var s := DerivedSummary(roots);
      && s.holdings.Some?
      && s.holdings.value.currentTotal == (if MaxTotal(roots) > 0.0 then ValueSum(Level4(roots)) else 0.0)
      && s.holdings.value.remaining == MaxTotal(roots) - s.holdings.value.currentTotal
  {
    var m := MaxTotal(roots);
    if m > 0.0 {
      RewriteByLevel(roots, m);
      PriceSumOfRewrittenFunds(Level3(roots), m);
    } else {
      PriceSumFree(Level4(roots));
    }
  }

  /** Without any level-4 node nothing is rewritten and no holdings are reported. */
  lemma NoLeavesNoChange(roots: seq<SunBurstData>)
    requires Level4(roots) == []
    ensures MaxTotal(roots) == 0.0
    ensures Derived(roots) == roots
    ensures DerivedSummary(roots) == Summary(0.0, None)
  {
    var gs := Level3(roots);
    forall k | 0 <= k < |gs| ensures !Funded(gs[k]) {
      ConcatRingsEmpty(gs, k);
    }
    MaxTotalIsMaximum(roots);
  }

  /**
   * Storing the derived snapshot and loading it again gives every level-4
   * node back its amount: the price when it is non-zero, and otherwise the
   * rewritten value, which is then 0 as well.
   */
  lemma ReloadShowsAmount(parentKey: string, index: nat, leaf: SunBurstData, m: real)
    requires m > 0.0 && ParseKey(ChildKey(parentKey, index)) == 4
    ensures ToTree(parentKey, index, RewrittenLeaf(leaf, m)).data.value == leaf.value
  {
    var r := RewrittenLeaf(leaf, m);
    ChildKeyLevel(parentKey, index);
    LoadedValueChoice(parentKey, index, r);
    if leaf.value == 0.0 {
      assert r.value == 0.0;
    }
  }

  // ---------------------------------------------------------------------------
  // A worked example: one fund with target 50% holding 100, 100 and 100
  // ---------------------------------------------------------------------------

  function Holding(amount: real): SunBurstData {
    SunBurstData("holding", amount, None, Some(4), NoRings)
  }

  function ExampleFund(leaves: seq<SunBurstData>): SunBurstData {
    SunBurstData("fund", 50.0, None, Some(3), Rings(leaves))
  }

  function ExampleRoots(leaves: seq<SunBurstData>): seq<SunBurstData> {
    [SunBurstData("class", 100.0, None, Some(1), Rings(
      [SunBurstData("market", 100.0, None, Some(2), Rings([ExampleFund(leaves)]))]))]
  }

  lemma ConcatRingsSingle(x: SunBurstData)
    ensures ConcatRings([x]) == RingsOf(x)
  {
    assert [x][..0] == [];
  }

  lemma ExampleLevels(leaves: seq<SunBurstData>)
    ensures Level3(ExampleRoots(leaves)) == [ExampleFund(leaves)]
    ensures Level4(ExampleRoots(leaves)) == leaves
  {
    var r := ExampleRoots(leaves);
    ConcatRingsSingle(r[0]);
    ConcatRingsSingle(RingsOf(r[0])[0]);
    ConcatRingsSingle(ExampleFund(leaves));
  }

  lemma SingleFundMax(leaves: seq<SunBurstData>)
    requires ValueSum(leaves) > 0.0
    ensures MaxTotal(ExampleRoots(leaves)) == 2.0 * ValueSum(leaves)
  {
    var g := ExampleFund(leaves);
    ExampleLevels(leaves);
    assert [g][..0] == [];
    assert Funded(g);
    assert Implied(g) == ValueSum(leaves) / 0.5 == 2.0 * ValueSum(leaves);
    assert FoldMax(0.0, [g][..0]) == 0.0;
    assert FoldMax(0.0, [g]) == Implied(g);
  }

  lemma SingleFundRewrite(leaves: seq<SunBurstData>, m: real)
    requires m != 0.0 && ValueSum(leaves) != 0.0
    ensures Rewrite(ExampleRoots(leaves), m) == ExampleRoots(RewrittenLeaves(leaves, m))
  {
    var after := RewrittenLeaves(leaves, m);
    var fund := ExampleFund(leaves);
    assert RewrittenFund(fund, m) == ExampleFund(after);
    var item := RingsOf(ExampleRoots(leaves)[0])[0];
    assert RewrittenFunds([fund], m) == [ExampleFund(after)];
    assert RewrittenLevel2(item, m) == RingsOf(ExampleRoots(after)[0])[0];
    assert RewrittenItems([item], m) == RingsOf(ExampleRoots(after)[0]);
  }

  /** The summary of a run that rewrote `roots` into `after`. */
  lemma RunSummary(roots: seq<SunBurstData>, after: seq<SunBurstData>)
    requires MaxTotal(roots) > 0.0 && Derived(roots) == after && |Level4(roots)| > 0
    ensures DerivedSummary(roots) ==
            Summary(MaxTotal(roots), Some(Holdings(PriceSum(Level4(after)), MaxTotal(roots) - PriceSum(Level4(after)))))
  {
  }

  function ThreeHoldings(): seq<SunBurstData> {
    [Holding(100.0), Holding(100.0), Holding(100.0)]
  }

  lemma ThreeHoldingsSum()
    ensures ValueSum(ThreeHoldings()) == 300.0
  {
    var h := Holding(100.0);
    assert [h][..0] == [];
    assert ValueSum([h]) == 100.0;
    assert [h, h][..1] == [h];
    assert ValueSum([h, h]) == 200.0;
    assert ThreeHoldings()[..2] == [h, h];
  }

  lemma ThreeHoldingsRewritten()
    ensures RewrittenLeaves(ThreeHoldings(), 600.0) == [RewrittenHolding(), RewrittenHolding(), RewrittenHolding()]
  {
    var after := RewrittenLeaves(ThreeHoldings(), 600.0);
    assert RewrittenLeaf(Holding(100.0), 600.0) == RewrittenHolding();
    assert after[0] == RewrittenHolding() && after[1] == RewrittenHolding() && after[2] == RewrittenHolding();
  }

  lemma FirstRunDerived()
    ensures MaxTotal(ExampleRoots(ThreeHoldings())) == 600.0
    ensures Derived(ExampleRoots(ThreeHoldings())) == ExampleRoots(RewrittenLeaves(ThreeHoldings(), 600.0))
  {
    ThreeHoldingsSum();
    SingleFundMax(ThreeHoldings());
    SingleFundRewrite(ThreeHoldings(), 600.0);
  }

  /**
   * The fund implies 300 / 50% = 600; each holding becomes 100 * 100 / 600
   * percent with price 100; 300 is held and 300 still missing.
   */
  lemma FirstRunExample()
    ensures var roots := ExampleRoots(ThreeHoldings());
      && MaxTotal(roots) == 600.0
      && Level4(Derived(roots)) == [RewrittenHolding(), RewrittenHolding(), RewrittenHolding()]
      && DerivedSummary(roots) == Summary(600.0, Some(Holdings(300.0, 300.0)))
  {
    var leaves := ThreeHoldings();
    var roots := ExampleRoots(leaves);
    var after := RewrittenLeaves(leaves, 600.0);
    FirstRunDerived();
    ExampleLevels(leaves);
    assert Level4(Derived(roots)) == after by {
      ExampleLevels(after);
    }
    ThreeHoldingsRewritten();
    assert PriceSum(after) == 300.0 by {
      ThreeHoldingsSum();
      PriceSumRewritten(leaves, 600.0);
    }
    RunSummary(roots, ExampleRoots(after));
  }

  /** A holding of 100 after a run that expects 600. */
  function RewrittenHolding(): SunBurstData {
    SunBurstData("holding", 100.0 / 6.0, Some(100.0), Some(4), NoRings)
  }

  /**
   * Running the derivation again on its own output does not give the same
   * result: the rewritten holdings sum to 50, so the fund now implies 100
   * and 50 is reported as held.
   */
  lemma DerivationNotIdempotent()
    ensures var roots := ExampleRoots(ThreeHoldings());
      && DerivedSummary(roots) == Summary(600.0, Some(Holdings(300.0, 300.0)))
      && DerivedSummary(Derived(roots)) == Summary(100.0, Some(Holdings(50.0, 50.0)))
  {
    var leaves := ThreeHoldings();
    var after := RewrittenLeaves(leaves, 600.0);
    FirstRunExample();
    ThreeHoldingsSum();
    SingleFundMax(leaves);
    SingleFundRewrite(leaves, 600.0);
    var roots2 := ExampleRoots(after);
    assert Derived(ExampleRoots(leaves)) == roots2;
    ValueSumScales(leaves, 600.0);
    assert ValueSum(after) == 50.0;
    SingleFundMax(after);
    SingleFundRewrite(after, 100.0);
    var again := RewrittenLeaves(after, 100.0);
    assert Derived(roots2) == ExampleRoots(again);
    ExampleLevels(after);
    ExampleLevels(again);
    PriceSumRewritten(after, 100.0);
    RunSummary(roots2, ExampleRoots(again));
  }
}
