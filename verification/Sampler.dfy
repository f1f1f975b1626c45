/** How src/bcur/fountain.rs picks the degree of a part: Vose's alias table.
    Probabilities are exact reals; the generator is a parameter, a stream of
    draws in [0, 1). */
module Sampler {

  type Draw = r: real | 0.0 <= r < 1.0 witness 0.0

  datatype DegreeSampler = DegreeSampler(probs: seq<real>, aliases: seq<nat>)

  // ----- the distribution asked for -----

  /** The weight 1/d of degree d = i + 1. */
  function Reciprocal(i: nat): (r: real)
    ensures r > 0.0
  {
    1.0 / ((i + 1) as real)
  }

  function Sum(f: nat -> real, k: nat): real {
    if k == 0 then 0.0 else Sum(f, k - 1) + f(k - 1)
  }

  /** The sum of 1/d over the degrees d up to `n`. */
  function Harmonic(n: nat): (h: real)
    ensures n > 0 ==> h > 0.0
  {
    SumOfPositive(Reciprocal, n);
    Sum(Reciprocal, n)
  }

  lemma {:induction false} SumOfPositive(f: nat -> real, k: nat)
    requires forall i :: f(i) > 0.0
    ensures Sum(f, k) >= 0.0 && (k > 0 ==> Sum(f, k) > 0.0)
  {
    if k > 0 {
      SumOfPositive(f, k - 1);
    }
  }

  /** `x` out of `h`, scaled to `m`. */
  function Scale(x: real, m: real, h: real): (r: real)
    requires h > 0.0
    ensures x > 0.0 && m > 0.0 ==> r > 0.0
  {
    var y := x * m;
    y / h
  }

  /** The weight of degree `i + 1`: `n` times its probability. */
  function Weight(n: nat, i: nat): (w: real)
    requires i < n
    ensures w > 0.0
  {
    Scale(Reciprocal(i), n as real, Harmonic(n))
  }

  // ----- the distribution the table gives -----

  /** How much of the second draw makes cell `k` of the table answer index `i`. */
  function CellShare(s: DegreeSampler, k: nat, i: nat): real
    requires k < |s.probs| == |s.aliases|
  {
    (if k == i then s.probs[k] else 0.0) + (if s.aliases[k] == i then 1.0 - s.probs[k] else 0.0)
  }

  /** The shares of index `i` in those of the first `k` cells that are `filled`. */
  ghost function Share(s: DegreeSampler, filled: seq<bool>, i: nat, k: nat): real
    requires k <= |s.probs| == |s.aliases| == |filled|
  {
    if k == 0 then 0.0
    else Share(s, filled, i, k - 1) + if filled[k - 1] then CellShare(s, k - 1, i) else 0.0
  }

  ghost function All(n: nat): (filled: seq<bool>)
    ensures |filled| == n
  {
    seq(n, _ => true)
  }

  ghost predicate WellFormed(s: DegreeSampler) {
    && |s.probs| == |s.aliases|
    && forall k :: 0 <= k < |s.probs| ==> 0.0 < s.probs[k] <= 1.0 && s.aliases[k] < |s.probs|
  }

  /** The table gives each index its weight. */
  ghost predicate Faithful(s: DegreeSampler) {
    && WellFormed(s)
    && forall i :: 0 <= i < |s.probs| ==> Share(s, All(|s.probs|), i, |s.probs|) == Weight(|s.probs|, i)
  }

  // ----- building the table -----

  /** The sum of `weights[i] - 1` over the first `k` entries not `filled`. */
  ghost function Excess(weights: seq<real>, filled: seq<bool>, k: nat): real
    requires k <= |weights| == |filled|
  {
    if k == 0 then 0.0
    else Excess(weights, filled, k - 1) + if filled[k - 1] then 0.0 else weights[k - 1] - 1.0
  }

  /** What index `i` has been given and what it still has add up to its weight. */
  ghost predicate Balanced(s: DegreeSampler, weights: seq<real>, filled: seq<bool>, i: nat)
    requires i < |s.probs| == |s.aliases| == |weights| == |filled|
  {
    Share(s, filled, i, |weights|) + (if filled[i] then 0.0 else weights[i]) == Weight(|weights|, i)
  }

  /** The state of the table under construction. */
  ghost predicate Building(s: DegreeSampler, weights: seq<real>, filled: seq<bool>) {
    && |s.probs| == |s.aliases| == |weights| == |filled|
    && (forall k :: 0 <= k < |weights| ==> s.aliases[k] < |weights| && 0.0 < weights[k])
    && (forall k :: 0 <= k < |weights| && filled[k] ==> 0.0 < s.probs[k] <= 1.0)
    && (forall i :: 0 <= i < |weights| ==> Balanced(s, weights, filled, i))
    && Excess(weights, filled, |weights|) == 0.0
  }

  ghost predicate Distinct(s: seq<nat>) {
    forall i, j :: 0 <= i < j < |s| ==> s[i] != s[j]
  }

  /** The stacks list the entries not filled, by the size of their weights. */
  ghost predicate Stacked(small: seq<nat>, large: seq<nat>, weights: seq<real>, filled: seq<bool>)
    requires |weights| == |filled|
  {
    && Distinct(small) && Distinct(large)
    && (forall j :: j in small <==> 0 <= j < |weights| && !filled[j] && weights[j] < 1.0)
    && (forall j :: j in large <==> 0 <= j < |weights| && !filled[j] && weights[j] >= 1.0)
  }

  /** Scaled values add up to their scaled sum. */
  lemma {:induction false} ScaledSum(weights: seq<real>, filled: seq<bool>, f: nat -> real, m: real, h: real, k: nat)
    requires k <= |weights| == |filled| && forall i :: 0 <= i < |filled| ==> !filled[i]
    requires h > 0.0 && forall i: nat :: i < |weights| ==> weights[i] == Scale(f(i), m, h)
    ensures Excess(weights, filled, k) == Scale(Sum(f, k), m, h) - k as real
  {
    if k == 0 {
      ScaleOfAll(m, h);
    } else {
      ScaledSum(weights, filled, f, m, h, k - 1);
      ScaleIsAdditive(Sum(f, k - 1), f(k - 1), m, h);
    }
  }

  lemma {:induction false} ScaleIsAdditive(a: real, b: real, m: real, h: real)
    requires h > 0.0
    ensures Scale(a, m, h) + Scale(b, m, h) == Scale(a + b, m, h)
  {
    var x, y := Scale(a, m, h), Scale(b, m, h);
    assert x * h == a * m && y * h == b * m;
    assert (x + y) * h == (a + b) * m;
  }

  lemma {:induction false} ScaleOfAll(m: real, h: real)
    requires h > 0.0
    ensures Scale(h, m, h) == m && Scale(0.0, m, h) == 0.0
  {
    assert h * m == m * h;
  }

  /** The weights add up to their number. */
  lemma {:induction false} WeightsAddUp(weights: seq<real>, filled: seq<bool>, n: nat)
    requires 0 < n == |weights| == |filled|
    requires forall i :: 0 <= i < n ==> weights[i] == Weight(n, i) && !filled[i]
    ensures Excess(weights, filled, n) == 0.0
  {
    var m, h := n as real, Harmonic(n);
    ScaleOfAll(m, h);
    ScaledSum(weights, filled, Reciprocal, m, h, n);
  }

  /** Filling cell `a` adds its share, and nothing else. */
  lemma {:induction false} FillCell(s: DegreeSampler, t: DegreeSampler, filled: seq<bool>, a: nat, i: nat, k: nat)
    requires k <= |s.probs| == |s.aliases| == |t.probs| == |t.aliases| == |filled| && a < |filled| && !filled[a]
    requires forall j :: 0 <= j < |s.probs| && j != a ==> s.probs[j] == t.probs[j] && s.aliases[j] == t.aliases[j]
    ensures Share(t, filled[a := true], i, k) == Share(s, filled, i, k) + if a < k then CellShare(t, a, i) else 0.0
  {
    if k > 0 {
      FillCell(s, t, filled, a, i, k - 1);
    }
  }

  /** Taking entry `a` out and setting entry `g` changes the excess by both. */
  lemma {:induction false} MoveExcess(w: seq<real>, filled: seq<bool>, a: nat, g: nat, x: real, k: nat)
    requires k <= |w| == |filled| && a < |w| && g < |w| && a != g && !filled[a] && !filled[g]
    ensures Excess(w[g := x], filled[a := true], k)
            == Excess(w, filled, k) - (if a < k then w[a] - 1.0 else 0.0) + (if g < k then x - w[g] else 0.0)
  {
    if k > 0 {
      MoveExcess(w, filled, a, g, x, k - 1);
    }
  }

  lemma {:induction false} DropExcess(w: seq<real>, filled: seq<bool>, a: nat, k: nat)
    requires k <= |w| == |filled| && a < |w| && !filled[a] && w[a] == 1.0
    ensures Excess(w, filled[a := true], k) == Excess(w, filled, k)
  {
    if k > 0 {
      DropExcess(w, filled, a, k - 1);
    }
  }

  /** Weights that are all at least, or all at most, 1 only average 1 by being 1. */
  lemma {:induction false} ExcessSign(w: seq<real>, filled: seq<bool>, k: nat, sign: real)
    requires k <= |w| == |filled| && (sign == 1.0 || sign == -1.0)
    requires forall j :: 0 <= j < k && !filled[j] ==> sign * (w[j] - 1.0) >= 0.0
    ensures sign * Excess(w, filled, k) >= 0.0
    ensures Excess(w, filled, k) == 0.0 ==> forall j :: 0 <= j < k && !filled[j] ==> w[j] == 1.0
  {
    if k > 0 {
      ExcessSign(w, filled, k - 1, sign);
    }
  }

  /** A turn of the loop: cell `a` keeps its weight and hands the rest of the
      cell, out of the weight of `g`, to `g`. */
  lemma {:induction false} FillStep(s: DegreeSampler, weights: seq<real>, filled: seq<bool>, a: nat, g: nat)
    requires Building(s, weights, filled)
    requires a < |weights| && g < |weights| && !filled[a] && !filled[g] && weights[a] < 1.0 <= weights[g]
    ensures var t := DegreeSampler(s.probs[a := weights[a]], s.aliases[a := g]);
            Building(t, weights[g := weights[g] + (weights[a] - 1.0)], filled[a := true])
  {
    var t := DegreeSampler(s.probs[a := weights[a]], s.aliases[a := g]);
    var x := weights[g] + (weights[a] - 1.0);
    var v, f := weights[g := x], filled[a := true];
    forall i | 0 <= i < |weights| ensures Balanced(t, v, f, i) {
      assert Balanced(s, weights, filled, i);
      FillCell(s, t, filled, a, i, |weights|);
    }
    MoveExcess(weights, filled, a, g, x, |weights|);
  }

  /** An entry left with a weight of 1 keeps its whole cell. */
  lemma {:induction false} FillLeft(s: DegreeSampler, weights: seq<real>, filled: seq<bool>, a: nat)
    requires Building(s, weights, filled) && a < |weights| && !filled[a] && weights[a] == 1.0
    ensures Building(DegreeSampler(s.probs[a := 1.0], s.aliases), weights, filled[a := true])
  {
    var t := DegreeSampler(s.probs[a := 1.0], s.aliases);
    var f := filled[a := true];
    forall i | 0 <= i < |weights| ensures Balanced(t, weights, f, i) {
      assert Balanced(s, weights, filled, i);
      FillCell(s, t, filled, a, i, |weights|);
    }
    DropExcess(weights, filled, a, |weights|);
  }

  /** The claim behind the comment in the source: `small` ends empty, and every
      weight left is exactly 1. */
  lemma {:induction false} LeftoversAreOnes(s: DegreeSampler, small: seq<nat>, large: seq<nat>, weights: seq<real>, filled: seq<bool>)
    requires Building(s, weights, filled) && Stacked(small, large, weights, filled)
    requires small == [] || large == []
    ensures small == [] && forall i :: i in large ==> weights[i] == 1.0
  {
    assert small == [] || small[0] in small;
    if large == [] {
      forall j | 0 <= j < |weights| && !filled[j] ensures weights[j] < 1.0 {
        assert j !in large;
      }
      ExcessSign(weights, filled, |weights|, -1.0);
    } else {
      forall j | 0 <= j < |weights| && !filled[j] ensures weights[j] >= 1.0 {
        assert j !in small;
      }
      ExcessSign(weights, filled, |weights|, 1.0);
    }
  }

  lemma {:induction false} NothingFilled(s: DegreeSampler, weights: seq<real>, filled: seq<bool>)
    requires |s.probs| == |s.aliases| == |weights| == |filled|
    requires forall i :: 0 <= i < |weights| ==> weights[i] == Weight(|weights|, i) && !filled[i] && s.aliases[i] < |weights|
    ensures Building(s, weights, filled)
  {
    var n := |weights|;
    forall i | 0 <= i < n ensures Balanced(s, weights, filled, i) {
      NoShare(s, filled, i, n);
    }
    if n > 0 {
      WeightsAddUp(weights, filled, n);
    }
  }

  lemma {:induction false} NoShare(s: DegreeSampler, filled: seq<bool>, i: nat, k: nat)
    requires k <= |s.probs| == |s.aliases| == |filled| && forall j :: 0 <= j < |filled| ==> !filled[j]
    ensures Share(s, filled, i, k) == 0.0
  {
    if k > 0 {
      NoShare(s, filled, i, k - 1);
    }
  }

  function Pop(s: seq<nat>): (r: seq<nat>)
    requires s != []
    ensures Distinct(s) ==> Distinct(r) && forall x :: x in r <==> x in s && x != s[|s| - 1]
  {
    assert s == s[..|s| - 1] + [s[|s| - 1]];
    s[..|s| - 1]
  }

  /** The weights of degrees 1 to `n`, which add up to `n`. */
  method Weights(n: nat) returns (weights: seq<real>)
    ensures |weights| == n && forall i :: 0 <= i < n ==> weights[i] == Weight(n, i)
  {
    var sum := 0.0;
    for degree := 1 to n + 1
      invariant sum == Sum(Reciprocal, degree - 1)
    {
      sum := sum + Reciprocal(degree - 1);
    }
    SumOfPositive(Reciprocal, n);
    weights := seq(n, i requires 0 <= i < n => Scale(Reciprocal(i), n as real, sum));
  }

  /** `DegreeSampler::new`. */
  method New(seqLen: nat) returns (sampler: DegreeSampler)
    ensures |sampler.probs| == seqLen && Faithful(sampler)
  {
    var n := seqLen;
    var weights := Weights(n);
    var probs: seq<real>, aliases: seq<nat> := seq(n, _ => 0.0), seq(n, _ => 0);
    ghost var filled := seq(n, _ => false);
    NothingFilled(DegreeSampler(probs, aliases), weights, filled);
    var small: seq<nat>, large: seq<nat> := Sort(weights);
    assert Stacked(small, large, weights, filled);

    while small != [] && large != []
      invariant Building(DegreeSampler(probs, aliases), weights, filled) && |weights| == n
      invariant Stacked(small, large, weights, filled)
      decreases |small| + |large|
    {
      var a: nat, g: nat := small[|small| - 1], large[|large| - 1];
      assert a in small && g in large;
      FillStep(DegreeSampler(probs, aliases), weights, filled, a, g);
      small, large := Pop(small), Pop(large);
      probs, aliases := probs[a := weights[a]], aliases[a := g];
      weights := weights[g := weights[g] + (weights[a] - 1.0)];
      filled := filled[a := true];
      if weights[g] < 1.0 {
        small := small + [g];
      } else {
        large := large + [g];
      }
    }
    LeftoversAreOnes(DegreeSampler(probs, aliases), small, large, weights, filled);

    sampler := FillRest(probs, aliases, large + small, weights, filled);
  }

  lemma {:induction false} RestIsOthers(left: seq<nat>, k: nat)
    requires Distinct(left) && k < |left|
    ensures left[k] in left[k..] && left[k] in left && forall j :: j in left[k + 1..] <==> j in left[k..] && j != left[k]
  {
    assert left[k..] == [left[k]] + left[k + 1..];
  }

  lemma {:induction false} BuildingLengths(s: DegreeSampler, weights: seq<real>, filled: seq<bool>)
    requires Building(s, weights, filled)
    ensures |s.probs| == |s.aliases| == |weights| == |filled|
  {
  }

  /** The entries left keep their whole cells. */
  method FillRest(probs0: seq<real>, aliases: seq<nat>, left: seq<nat>, ghost weights: seq<real>, ghost filled0: seq<bool>)
    returns (sampler: DegreeSampler)
    requires Building(DegreeSampler(probs0, aliases), weights, filled0) && Distinct(left)
    requires forall j :: j in left <==> 0 <= j < |weights| && !filled0[j]
    requires forall j :: j in left ==> weights[j] == 1.0
    ensures |sampler.probs| == |weights| && Faithful(sampler)
  {
    hide Building, Distinct, Weight, Share;
    BuildingLengths(DegreeSampler(probs0, aliases), weights, filled0);
    var n := |probs0|;
    var probs := probs0;
    ghost var filled := filled0;
    assert left[0..] == left;
    for k := 0 to |left|
      invariant |probs| == |aliases| == |weights| == |filled| == n
      invariant Building(DegreeSampler(probs, aliases), weights, filled)
      invariant forall j :: j in left[k..] <==> 0 <= j < n && !filled[j]
    {
      var a := left[k];
      RestIsOthers(left, k);
      FillLeft(DegreeSampler(probs, aliases), weights, filled, a);
      probs := probs[a := 1.0];
      filled := filled[a := true];
    }
    sampler := DegreeSampler(probs, aliases);
    assert left[|left|..] == [];
    assert filled == All(n);
    FilledIsFaithful(sampler, weights);
  }

  lemma {:induction false} FilledIsFaithful(s: DegreeSampler, weights: seq<real>)
    requires Building(s, weights, All(|weights|))
    ensures Faithful(s)
  {
    hide Share, Weight;
    forall i | 0 <= i < |weights| ensures Share(s, All(|weights|), i, |weights|) == Weight(|weights|, i) {
      assert Balanced(s, weights, All(|weights|), i);
    }
  }

  /** Sorts the entries into those of a weight under 1 and the others. */
  method Sort(weights: seq<real>) returns (small: seq<nat>, large: seq<nat>)
    ensures Distinct(small) && Distinct(large)
    ensures forall j :: j in small <==> 0 <= j < |weights| && weights[j] < 1.0
    ensures forall j :: j in large <==> 0 <= j < |weights| && weights[j] >= 1.0
  {
    small, large := [], [];
    for i := |weights| downto 0
      invariant Distinct(small) && Distinct(large)
      invariant forall j :: j in small <==> i <= j < |weights| && weights[j] < 1.0
      invariant forall j :: j in large <==> i <= j < |weights| && weights[j] >= 1.0
    {
      if weights[i] < 1.0 {
        small := small + [i];
      } else {
        large := large + [i];
      }
    }
  }

  // ----- drawing from the table -----

  /** The index a draw picks out of `count`. */
  function IndexOf(draw: Draw, count: nat): (i: nat)
    requires count > 0
    ensures i < count
  {
    assert draw * (count as real) < count as real;
    assert draw * (count as real) >= 0.0;
    (draw * (count as real)).Floor
  }

  /** `DegreeSampler::next`: a cell, then its own index or its alias. */
  function Next(s: DegreeSampler, r1: Draw, r2: Draw): (degree: nat)
    requires WellFormed(s) && s.probs != []
    ensures 1 <= degree <= |s.probs|
  {
    var i := IndexOf(r1, |s.probs|);
    (if r2 < s.probs[i] then i else s.aliases[i]) + 1
  }

  /** Below this, a second draw that falls in cell `k` gives index `i` as the cell's own. */
  function OwnEnd(s: DegreeSampler, k: nat, i: nat): real
    requires k < |s.probs| == |s.aliases|
  {
    if k == i then s.probs[k] else 0.0
  }

  /** From here on, it gives index `i` as the cell's alias. */
  function AliasStart(s: DegreeSampler, k: nat, i: nat): real
    requires k < |s.probs| == |s.aliases|
  {
    if s.aliases[k] == i then s.probs[k] else 1.0
  }

  /** Which draws give degree `i + 1`: those of two disjoint ranges in each of `n` cells
      of equal width. */
  lemma {:induction false} CellAnswers(s: DegreeSampler, r1: Draw, r2: Draw, i: nat)
    requires WellFormed(s) && s.probs != []
    ensures var n, k := |s.probs|, IndexOf(r1, |s.probs|);
            && (k as real) / (n as real) <= r1 < (k + 1) as real / (n as real)
            && 0.0 <= OwnEnd(s, k, i) <= AliasStart(s, k, i) <= 1.0
            && (Next(s, r1, r2) == i + 1 <==> r2 < OwnEnd(s, k, i) || AliasStart(s, k, i) <= r2)
  {
    hide IndexOf;
    var n: real, k := |s.probs| as real, IndexOf(r1, |s.probs|);
    CellOf(r1, |s.probs|);
    QuotientBounds(r1, k as real, n);
  }

  lemma {:induction false} CellOf(draw: Draw, count: nat)
    requires count > 0
    ensures IndexOf(draw, count) as real <= draw * (count as real) < (IndexOf(draw, count) + 1) as real
  {
  }

  lemma {:induction false} QuotientBounds(x: real, k: real, n: real)
    requires n > 0.0 && k <= x * n < k + 1.0
    ensures k / n <= x < (k + 1.0) / n
  {
    var q, r := k / n, (k + 1.0) / n;
    assert q * n == k && r * n == k + 1.0;
    if x < q {
      TimesKeepsOrder(x, q, n);
    }
    if r < x {
      TimesKeepsOrder(r, x, n);
    }
  }

  lemma {:induction false} TimesKeepsOrder(x: real, y: real, n: real)
    requires x < y && n > 0.0
    ensures x * n < y * n
  {
  }

  /** The area of the draws in the first `k` cells that give index `i`, in the unit square. */
  ghost function Chance(s: DegreeSampler, i: nat, k: nat): real
    requires k <= |s.probs| == |s.aliases|
  {
    if k == 0 then 0.0
    else Chance(s, i, k - 1) + (OwnEnd(s, k - 1, i) + (1.0 - AliasStart(s, k - 1, i))) / (|s.probs| as real)
  }

  lemma {:induction false} ChanceIsShare(s: DegreeSampler, i: nat, k: nat)
    requires 0 < |s.probs| == |s.aliases| && k <= |s.probs|
    ensures Chance(s, i, k) * (|s.probs| as real) == Share(s, All(|s.probs|), i, k)
    decreases k
  {
    hide OwnEnd, AliasStart, CellShare;
    var n := |s.probs| as real;
    if k == 0 {
      assert Chance(s, i, k) == 0.0;
    } else {
      ChanceIsShare(s, i, k - 1);
      Widened(Chance(s, i, k - 1), OwnEnd(s, k - 1, i) + (1.0 - AliasStart(s, k - 1, i)), n);
      RangesAreShare(s, k - 1, i);
    }
  }

  lemma {:induction false} RangesAreShare(s: DegreeSampler, k: nat, i: nat)
    requires k < |s.probs| == |s.aliases|
    ensures OwnEnd(s, k, i) + (1.0 - AliasStart(s, k, i)) == CellShare(s, k, i)
  {
  }

  lemma {:induction false} Widened(x: real, y: real, n: real)
    requires n > 0.0
    ensures (x + y / n) * n == x * n + y
  {
    var q := y / n;
    assert q * n == y;
  }

  /** Degree d comes out with a probability of 1/d over the harmonic number of `n`. */
  lemma {:induction false} DegreeHasItsProbability(s: DegreeSampler, d: nat)
    requires Faithful(s) && 1 <= d <= |s.probs|
    ensures Chance(s, d - 1, |s.probs|) == 1.0 / (d as real) / Harmonic(|s.probs|)
  {
    hide Harmonic, Chance, Share;
    var n, c := |s.probs| as real, Chance(s, d - 1, |s.probs|);
    ChanceIsShare(s, d - 1, |s.probs|);
    CancelFactor(Reciprocal(d - 1), n, Harmonic(|s.probs|));
    assert c * n / n == c by {
      var q := c * n / n;
      assert q * n == c * n && (q - c) * n == 0.0;
    }
  }

  lemma {:induction false} CancelFactor(x: real, n: real, h: real)
    requires n > 0.0 && h > 0.0
    ensures Scale(x, n, h) / n == x / h
  {
    var q := x / h;
    assert q * h == x;
    assert q * n * h == x * n;
    assert Scale(x, n, h) == q * n;
  }
}
