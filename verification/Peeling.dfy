/** The peeling decoder of src/bcur/fountain.rs as steps on values: the known
    fragments, the parts on hold, and the work queue of `reduce`. */
module Peeling {
  import opened Options
  import opened Fragments

  /** A part: the XOR `data` of the fragments `indexes`. */
  datatype Mixed = Mixed(indexes: seq<nat>, data: Frag)

  /** The decoder's knowledge. `lost` records, for the proofs only, that the cap
      on the parts on hold made the decoder drop one. */
  datatype Pool = Pool(frags: seq<Option<Frag>>, held: seq<Mixed>, lost: bool)

  const MAX_FRAGMENTS_FOR_SUBSETS := 256

  /** Whether parts on hold are XORed out of those that cover them. */
  predicate WithSubsets(n: nat) {
    n <= MAX_FRAGMENTS_FOR_SUBSETS
  }

  /** The most parts kept on hold. */
  function Cap(n: nat): nat {
    2 * n + 16
  }

  ghost predicate PartOk(n: nat, len: nat, x: Mixed) {
    x.indexes != [] && Ascending(x.indexes) && Below(x.indexes, n) && |x.data| == len
  }

  ghost predicate PartsOk(n: nat, len: nat, xs: seq<Mixed>) {
    forall x :: x in xs ==> PartOk(n, len, x)
  }

  // ----- what every state keeps -----

  /** Parts on hold do not duplicate one another and, in small messages, none
      covers another. */
  ghost predicate Apart(n: nat, a: Mixed, b: Mixed) {
    && a.indexes != b.indexes
    && (WithSubsets(n) ==> !Within(a.indexes, b.indexes) && !Within(b.indexes, a.indexes))
  }

  ghost predicate AllApart(n: nat, held: seq<Mixed>) {
    held == [] || ((forall h :: h in held[1..] ==> Apart(n, held[0], h)) && AllApart(n, held[1..]))
  }

  /** No index of `x` is known. */
  ghost predicate Unknown(frags: seq<Option<Frag>>, x: Mixed)
    requires Below(x.indexes, |frags|)
  {
    forall i :: i in x.indexes ==> frags[i].None?
  }

  ghost predicate PoolOk(p: Pool, len: nat) {
    && (forall i :: 0 <= i < |p.frags| && p.frags[i].Some? ==> |p.frags[i].value| == len)
    && PartsOk(|p.frags|, len, p.held)
    && (forall h :: h in p.held ==> |h.indexes| >= 2 && Unknown(p.frags, h))
    && AllApart(|p.frags|, p.held)
    && |p.held| <= Cap(|p.frags|)
  }

  /** Every known fragment is the message's, every part on hold the XOR of the
      message's fragments it indexes. */
  ghost predicate PartTrue(m: seq<Frag>, len: nat, x: Mixed)
    requires Uniform(m, len) && Below(x.indexes, |m|)
  {
    x.data == Mix(m, len, x.indexes)
  }

  ghost predicate PartsTrue(m: seq<Frag>, len: nat, xs: seq<Mixed>)
    requires Uniform(m, len) && PartsOk(|m|, len, xs)
  {
    forall x :: x in xs ==> PartTrue(m, len, x)
  }

  ghost predicate PoolTrue(m: seq<Frag>, len: nat, p: Pool)
    requires Uniform(m, len) && |m| == |p.frags| && PoolOk(p, len)
  {
    && (forall i :: 0 <= i < |m| && p.frags[i].Some? ==> p.frags[i].value == m[i])
    && PartsTrue(m, len, p.held)
  }

  // ----- simplifying one part -----

  ghost predicate FragsOk(frags: seq<Option<Frag>>, len: nat) {
    forall i :: 0 <= i < |frags| && frags[i].Some? ==> |frags[i].value| == len
  }

  /** `indexes.retain`: known indexes go, and their fragments out of the data. */
  ghost function StripKnown(frags: seq<Option<Frag>>, len: nat, indexes: seq<nat>, data: Frag): (r: Mixed)
    requires FragsOk(frags, len) && Below(indexes, |frags|) && |data| == len
    ensures |r.data| == len
    ensures forall i :: i in r.indexes <==> i in indexes && frags[i].None?
    ensures |r.indexes| <= |indexes|
    ensures |r.indexes| == |indexes| ==> r == Mixed(indexes, data)
    ensures Ascending(indexes) ==> Ascending(r.indexes)
  {
    if indexes == [] then Mixed([], data)
    else
      var i := indexes[0];
      HeadIsLeast(indexes);
      if frags[i].Some? then StripKnown(frags, len, indexes[1..], Xor(data, frags[i].value))
      else
        var rest := StripKnown(frags, len, indexes[1..], data);
        PrependAscending(i, rest.indexes);
        Mixed([i] + rest.indexes, rest.data)
  }

  /** `held` is shorter than `x` and all in it: it can be XORed out. */
  predicate Covers(held: Mixed, x: Mixed) {
    |held.indexes| < |x.indexes| && IsSubset(held.indexes, x.indexes)
  }

  function XorOut(held: Mixed, x: Mixed): Mixed
    requires |held.data| == |x.data|
  {
    Mixed(Without(x.indexes, held.indexes), Xor(x.data, held.data))
  }

  /** The pass over the parts on hold: each that `x`, as simplified so far,
      covers is XORed out of it. */
  ghost function StripHeld(n: nat, len: nat, held: seq<Mixed>, x: Mixed): (r: Mixed)
    requires PartsOk(n, len, held) && |x.data| == len
    requires Ascending(x.indexes)
    ensures |r.data| == len && Ascending(r.indexes) && Within(r.indexes, x.indexes)
    ensures |r.indexes| <= |x.indexes|
    ensures |r.indexes| == |x.indexes| ==> r == x
    ensures x.indexes != [] ==> r.indexes != []
    decreases |held|
  {
    if held == [] then x
    else if Covers(held[0], x) then
      assert held[0] in held;
      WithoutLength(x.indexes, held[0].indexes);
      StripHeld(n, len, held[1..], XorOut(held[0], x))
    else StripHeld(n, len, held[1..], x)
  }

  ghost function Simplify(p: Pool, len: nat, x: Mixed): (y: Mixed)
    requires PoolOk(p, len) && PartOk(|p.frags|, len, x)
    ensures |y.data| == len && Ascending(y.indexes) && Within(y.indexes, x.indexes)
    ensures forall i :: i in y.indexes ==> p.frags[i].None?
    ensures |y.indexes| <= |x.indexes|
    ensures |y.indexes| == |x.indexes| ==> y == x
  {
    var s := StripKnown(p.frags, len, x.indexes, x.data);
    if WithSubsets(|p.frags|) then StripHeld(|p.frags|, len, p.held, s) else s
  }

  /** One turn of `indexes.retain`, at index `k`. */
  lemma {:induction false} StripKnownAt(frags: seq<Option<Frag>>, len: nat, indexes: seq<nat>, k: nat, data: Frag)
    requires FragsOk(frags, len) && Below(indexes, |frags|) && |data| == len && k < |indexes|
    ensures Below(indexes[k..], |frags|) && Below(indexes[k + 1..], |frags|) && indexes[k] < |frags|
    ensures var i, f := indexes[k], frags[indexes[k]];
            StripKnown(frags, len, indexes[k..], data) ==
            if f.Some? then StripKnown(frags, len, indexes[k + 1..], Xor(data, f.value))
            else var s := StripKnown(frags, len, indexes[k + 1..], data); Mixed([i] + s.indexes, s.data)
  {
    assert indexes[k] in indexes;
    BelowDrop(indexes, |frags|, k);
    BelowDrop(indexes, |frags|, k + 1);
    assert indexes[k..][1..] == indexes[k + 1..];
  }

  /** One turn of the pass over the parts on hold, at part `k`. */
  lemma {:induction false} StripHeldAt(n: nat, len: nat, held: seq<Mixed>, k: nat, x: Mixed)
    requires PartsOk(n, len, held) && |x.data| == len && Ascending(x.indexes) && k < |held|
    ensures PartsOk(n, len, held[k..]) && PartsOk(n, len, held[k + 1..]) && |held[k].data| == len
    ensures var y := if Covers(held[k], x) then XorOut(held[k], x) else x;
            Ascending(y.indexes) && StripHeld(n, len, held[k..], x) == StripHeld(n, len, held[k + 1..], y)
  {
    assert held[k] in held;
    assert held[k..][1..] == held[k + 1..];
  }

  /** After the pass, no part on hold is left to XOR out. */
  lemma {:induction false} StripHeldLeavesNone(n: nat, len: nat, held: seq<Mixed>, x: Mixed)
    requires PartsOk(n, len, held) && |x.data| == len && Ascending(x.indexes)
    ensures forall h :: h in held ==> !Covers(h, StripHeld(n, len, held, x))
  {
    if held != [] {
      var h := held[0];
      assert h in held && held == [h] + held[1..];
      assert h.indexes[0] in h.indexes;
      if Covers(h, x) {
        WithoutLength(x.indexes, h.indexes);
        StripHeldLeavesNone(n, len, held[1..], XorOut(h, x));
      } else {
        StripHeldLeavesNone(n, len, held[1..], x);
      }
    }
  }

  lemma {:induction false} StripKnownIsTrue(m: seq<Frag>, len: nat, frags: seq<Option<Frag>>, indexes: seq<nat>, data: Frag, rest: Frag)
    requires Uniform(m, len) && |m| == |frags| && FragsOk(frags, len)
    requires forall i :: 0 <= i < |m| && frags[i].Some? ==> frags[i].value == m[i]
    requires Below(indexes, |m|) && |data| == |rest| == len
    requires data == Xor(Mix(m, len, indexes), rest)
    ensures var r := StripKnown(frags, len, indexes, data);
            Below(r.indexes, |m|) && r.data == Xor(Mix(m, len, r.indexes), rest)
  {
    if indexes != [] {
      var i := indexes[0];
      HeadIsLeast(indexes);
      var tail := Mix(m, len, indexes[1..]);
      if frags[i].Some? {
        assert Xor(data, m[i]) == Xor(tail, rest);
        StripKnownIsTrue(m, len, frags, indexes[1..], Xor(data, m[i]), rest);
      } else {
        assert data == Xor(tail, Xor(m[i], rest));
        StripKnownIsTrue(m, len, frags, indexes[1..], data, Xor(m[i], rest));
        var r := StripKnown(frags, len, indexes[1..], data);
        assert ([i] + r.indexes)[1..] == r.indexes;
        assert Xor(Mix(m, len, r.indexes), Xor(m[i], rest)) == Xor(Xor(m[i], Mix(m, len, r.indexes)), rest);
      }
    }
  }

  lemma {:induction false} StripHeldIsTrue(m: seq<Frag>, len: nat, held: seq<Mixed>, x: Mixed)
    requires Uniform(m, len) && PartsOk(|m|, len, held) && PartsTrue(m, len, held)
    requires |x.data| == len && Ascending(x.indexes) && Below(x.indexes, |m|) && PartTrue(m, len, x)
    ensures var r := StripHeld(|m|, len, held, x); Below(r.indexes, |m|) && PartTrue(m, len, r)
  {
    if held != [] {
      assert held[0] in held;
      if Covers(held[0], x) {
        MixWithout(m, len, x.indexes, held[0].indexes);
        StripHeldIsTrue(m, len, held[1..], XorOut(held[0], x));
      } else {
        StripHeldIsTrue(m, len, held[1..], x);
      }
    }
  }

  /** A part that tells the truth still does once simplified. */
  lemma {:induction false} SimplifyIsTrue(m: seq<Frag>, len: nat, p: Pool, x: Mixed)
    requires Uniform(m, len) && |m| == |p.frags| && PoolOk(p, len) && PoolTrue(m, len, p)
    requires PartOk(|m|, len, x) && PartTrue(m, len, x)
    ensures Below(Simplify(p, len, x).indexes, |m|) && PartTrue(m, len, Simplify(p, len, x))
  {
    XorZero(x.data);
    StripKnownIsTrue(m, len, p.frags, x.indexes, x.data, Zero(len));
    var s := StripKnown(p.frags, len, x.indexes, x.data);
    XorZero(Mix(m, len, s.indexes));
    if WithSubsets(|m|) {
      StripHeldIsTrue(m, len, p.held, s);
    }
  }

  // ----- one turn of the loop in `reduce` -----

  /** One side of `partition`. */
  function Select(xs: seq<Mixed>, picked: Mixed -> bool): (r: seq<Mixed>)
    ensures forall x :: x in r <==> x in xs && picked(x)
    ensures |r| <= |xs|
  {
    if xs == [] then []
    else (if picked(xs[0]) then [xs[0]] else []) + Select(xs[1..], picked)
  }

  function Mixes(i: nat): Mixed -> bool {
    (h: Mixed) => i in h.indexes
  }

  function CoveredBy(y: Mixed): Mixed -> bool {
    (h: Mixed) => Covers(y, h)
  }

  function Not(picked: Mixed -> bool): Mixed -> bool {
    (h: Mixed) => !picked(h)
  }

  /** The new state, and the parts that go back on the queue. */
  ghost function Step(p: Pool, len: nat, x: Mixed): (r: (Pool, seq<Mixed>))
    requires PoolOk(p, len) && PartOk(|p.frags|, len, x)
    ensures |r.0.frags| == |p.frags|
  {
    Settle(p, len, Simplify(p, len, x))
  }

  /** What becomes of a part once simplified. */
  ghost function Settle(p: Pool, len: nat, y: Mixed): (r: (Pool, seq<Mixed>))
    requires PoolOk(p, len) && Below(y.indexes, |p.frags|)
    ensures |r.0.frags| == |p.frags|
  {
    var n := |p.frags|;
    if y.indexes == [] then (p, [])
    else if |y.indexes| == 1 then
      var i := y.indexes[0];
      assert i in y.indexes;
      (Pool(p.frags[i := Some(y.data)], Select(p.held, Not(Mixes(i))), p.lost), Select(p.held, Mixes(i)))
    else if exists h :: h in p.held && h.indexes == y.indexes then (p, [])
    else
      var simpler := if WithSubsets(n) then Select(p.held, CoveredBy(y)) else [];
      var held := if WithSubsets(n) then Select(p.held, Not(CoveredBy(y))) else p.held;
      if |held| < Cap(n) then (Pool(p.frags, held + [y], p.lost), simpler)
      else (Pool(p.frags, held, true), simpler)
  }

  // ----- a turn keeps the state's shape -----

  lemma {:induction false} SelectApart(n: nat, xs: seq<Mixed>, picked: Mixed -> bool)
    requires AllApart(n, xs)
    ensures AllApart(n, Select(xs, picked))
  {
    if xs != [] {
      SelectApart(n, xs[1..], picked);
      var rest := Select(xs[1..], picked);
      if picked(xs[0]) {
        var r := Select(xs, picked);
        assert r == [xs[0]] + rest && r[0] == xs[0] && r[1..] == rest;
      } else {
        assert Select(xs, picked) == rest;
      }
    }
  }

  lemma {:induction false} AppendApart(n: nat, xs: seq<Mixed>, y: Mixed)
    requires AllApart(n, xs) && forall x :: x in xs ==> Apart(n, x, y)
    ensures AllApart(n, xs + [y])
  {
    if xs == [] {
      assert (xs + [y])[1..] == [];
    } else {
      assert (xs + [y])[1..] == xs[1..] + [y];
      AppendApart(n, xs[1..], y);
    }
  }

  lemma {:induction false} PartitionLength(xs: seq<Mixed>, picked: Mixed -> bool)
    ensures |Select(xs, picked)| + |Select(xs, Not(picked))| == |xs|
  {
    if xs != [] {
      PartitionLength(xs[1..], picked);
    }
  }

  /** What a simplified part that is put on hold has to do with those kept. */
  lemma {:induction false} SimplifiedIsApart(p: Pool, len: nat, x: Mixed, h: Mixed)
    requires PoolOk(p, len) && PartOk(|p.frags|, len, x) && h in p.held
    requires var y := Simplify(p, len, x);
             h.indexes != y.indexes && (WithSubsets(|p.frags|) ==> !Covers(y, h))
    ensures Apart(|p.frags|, h, Simplify(p, len, x))
  {
    var y := Simplify(p, len, x);
    if WithSubsets(|p.frags|) {
      StripHeldLeavesNone(|p.frags|, len, p.held, StripKnown(p.frags, len, x.indexes, x.data));
      assert !Covers(h, y);
      if Within(h.indexes, y.indexes) {
        SubsetLength(h.indexes, y.indexes);
      }
      if Within(y.indexes, h.indexes) {
        SubsetLength(y.indexes, h.indexes);
      }
    }
  }

  /** A fragment that becomes known takes the parts that mix it off hold. */
  lemma {:induction false} KnownKeepsPool(p: Pool, len: nat, y: Mixed)
    requires PoolOk(p, len) && Below(y.indexes, |p.frags|) && |y.indexes| == 1 && |y.data| == len
    ensures PoolOk(Settle(p, len, y).0, len)
  {
    var i := y.indexes[0];
    assert i in y.indexes;
    SelectApart(|p.frags|, p.held, Not(Mixes(i)));
    forall h | h in Select(p.held, Not(Mixes(i))) ensures Unknown(p.frags[i := Some(y.data)], h) {
      assert h in p.held && !Mixes(i)(h);
    }
  }

  /** A part put on hold is apart from those kept. */
  lemma {:induction false} HoldKeepsPool(p: Pool, len: nat, x: Mixed)
    requires PoolOk(p, len) && PartOk(|p.frags|, len, x) && |Simplify(p, len, x).indexes| >= 2
    requires !exists h :: h in p.held && h.indexes == Simplify(p, len, x).indexes
    ensures PoolOk(Step(p, len, x).0, len)
  {
    hide Simplify, Select, WithSubsets, Xor, StripKnown, Covers;
    var n, y := |p.frags|, Simplify(p, len, x);
    var held := if WithSubsets(n) then Select(p.held, Not(CoveredBy(y))) else p.held;
    SelectApart(n, p.held, Not(CoveredBy(y)));
    forall h | h in held ensures Apart(n, h, y) {
      SimplifiedIsApart(p, len, x, h);
    }
    AppendApart(n, held, y);
    assert PartOk(n, len, y) && Unknown(p.frags, y);
  }

  /** Every turn keeps: index sets on hold ascending, of two or more, free of
      known indexes, apart from one another, and at most the cap in number. */
  lemma {:induction false} StepKeepsPool(p: Pool, len: nat, x: Mixed)
    requires PoolOk(p, len) && PartOk(|p.frags|, len, x)
    ensures PoolOk(Step(p, len, x).0, len)
    ensures forall h :: h in Step(p, len, x).1 ==> h in p.held
    ensures PartsOk(|p.frags|, len, Step(p, len, x).1)
  {
    var y := Simplify(p, len, x);
    if |y.indexes| == 1 {
      KnownKeepsPool(p, len, y);
    } else if y.indexes != [] && !exists h :: h in p.held && h.indexes == y.indexes {
      HoldKeepsPool(p, len, x);
    }
  }

  /** A part simplified to one fragment is that fragment. */
  lemma {:induction false} KnownIsTrue(m: seq<Frag>, len: nat, y: Mixed)
    requires Uniform(m, len) && Below(y.indexes, |m|) && |y.indexes| == 1 && PartTrue(m, len, y)
    ensures y.indexes[0] < |m| && y.data == m[y.indexes[0]]
  {
    assert y.indexes[0] in y.indexes && y.indexes[1..] == [];
    assert Mix(m, len, y.indexes[1..]) == Zero(len);
    XorZero(m[y.indexes[0]]);
  }

  /** Every turn keeps the state true to the message. */
  lemma {:induction false} StepKeepsTruth(m: seq<Frag>, len: nat, p: Pool, x: Mixed)
    requires Uniform(m, len) && |m| == |p.frags| && PoolOk(p, len) && PoolTrue(m, len, p)
    requires PartOk(|m|, len, x) && PartTrue(m, len, x)
    ensures PoolOk(Step(p, len, x).0, len) && PoolTrue(m, len, Step(p, len, x).0)
    ensures PartsOk(|m|, len, Step(p, len, x).1) && PartsTrue(m, len, Step(p, len, x).1)
  {
    StepKeepsPool(p, len, x);
    SimplifyIsTrue(m, len, p, x);
    var y := Simplify(p, len, x);
    if |y.indexes| == 1 {
      KnownIsTrue(m, len, y);
    }
    forall h | h in Step(p, len, x).0.held ensures PartTrue(m, len, h) {
      assert h == y || h in p.held;
    }
  }

  // ----- termination -----

  /** The number of indexes over all of `xs`. */
  ghost function Total(xs: seq<Mixed>): nat {
    if xs == [] then 0 else |xs[0].indexes| + Total(xs[1..])
  }

  /** Nothing can be XORed out of `x`: none of its indexes is known, and it
      covers no part on hold. */
  ghost predicate Irreducible(p: Pool, x: Mixed) {
    && (forall i :: i in x.indexes && i < |p.frags| ==> p.frags[i].None?)
    && (WithSubsets(|p.frags|) ==> forall h :: h in p.held ==> !Covers(h, x))
  }

  ghost function CountIrreducible(p: Pool, xs: seq<Mixed>): nat {
    if xs == [] then 0
    else (if Irreducible(p, xs[0]) then 1 else 0) + CountIrreducible(p, xs[1..])
  }

  lemma {:induction false} TotalOfConcat(a: seq<Mixed>, b: seq<Mixed>)
    ensures Total(a + b) == Total(a) + Total(b)
  {
    if a == [] {
      assert a + b == b;
    } else {
      assert (a + b)[1..] == a[1..] + b;
      TotalOfConcat(a[1..], b);
    }
  }

  lemma {:induction false} CountOfConcat(p: Pool, a: seq<Mixed>, b: seq<Mixed>)
    ensures CountIrreducible(p, a + b) == CountIrreducible(p, a) + CountIrreducible(p, b)
  {
    if a == [] {
      assert a + b == b;
    } else {
      assert (a + b)[1..] == a[1..] + b;
      CountOfConcat(p, a[1..], b);
    }
  }

  lemma {:induction false} PartitionTotal(xs: seq<Mixed>, picked: Mixed -> bool)
    ensures Total(Select(xs, picked)) + Total(Select(xs, Not(picked))) == Total(xs)
  {
    if xs != [] {
      PartitionTotal(xs[1..], picked);
      TotalOfConcat(if picked(xs[0]) then [xs[0]] else [], Select(xs[1..], picked));
      TotalOfConcat(if Not(picked)(xs[0]) then [xs[0]] else [], Select(xs[1..], Not(picked)));
    }
  }

  /** Parts irreducible after a turn were so before it. */
  lemma {:induction false} CountShrinks(p: Pool, q: Pool, xs: seq<Mixed>)
    requires forall x :: x in xs && Irreducible(q, x) ==> Irreducible(p, x)
    ensures CountIrreducible(q, xs) <= CountIrreducible(p, xs)
  {
    if xs != [] {
      assert xs[0] in xs;
      CountShrinks(p, q, xs[1..]);
    }
  }

  lemma {:induction false} CountNone(p: Pool, xs: seq<Mixed>)
    requires forall x :: x in xs ==> !Irreducible(p, x)
    ensures CountIrreducible(p, xs) == 0
  {
    if xs != [] {
      assert xs[0] in xs;
      CountNone(p, xs[1..]);
    }
  }

  /** The cap never drops a part whose supersets went back on the queue. */
  lemma {:induction false} RequeueLeavesRoom(p: Pool, len: nat, y: Mixed)
    requires PoolOk(p, len) && WithSubsets(|p.frags|) && Select(p.held, CoveredBy(y)) != []
    ensures |Select(p.held, Not(CoveredBy(y)))| < Cap(|p.frags|)
  {
    PartitionLength(p.held, CoveredBy(y));
  }

  /** If a part goes on hold unchanged, whatever was reducible still is, and what
      it sent back to the queue is reducible. */
  lemma {:induction false} HeldUnchanged(p: Pool, len: nat, x: Mixed, e: Mixed)
    requires PoolOk(p, len) && PartOk(|p.frags|, len, x) && Simplify(p, len, x) == x
    requires |x.indexes| >= 2 && !exists h :: h in p.held && h.indexes == x.indexes
    requires PartOk(|p.frags|, len, e)
    requires var r := Step(p, len, x); r.0.lost == p.lost || r.1 == []
    requires x in Step(p, len, x).0.held
    ensures var r := Step(p, len, x);
            (e in r.1 ==> !Irreducible(r.0, e)) && (Irreducible(r.0, e) ==> Irreducible(p, e))
  {
    var (q, simpler) := Step(p, len, x);
    if e in simpler {
      assert Covers(x, e);
    }
    if WithSubsets(|p.frags|) {
      forall h | h in p.held && Covers(h, e) ensures exists g :: g in q.held && Covers(g, e) {
        var g := if CoveredBy(x)(h) then x else h;
        assert g in q.held && Covers(g, e);
      }
    }
  }

  /** What one turn does to the number of indexes on hold and queued. */
  lemma {:induction false} StepTotal(p: Pool, len: nat, x: Mixed)
    requires PoolOk(p, len) && PartOk(|p.frags|, len, x)
    ensures var (q, simpler), y := Step(p, len, x), Simplify(p, len, x);
            Total(q.held) + Total(simpler) <= Total(p.held) + |y.indexes|
    ensures var (q, simpler), y := Step(p, len, x), Simplify(p, len, x);
            Total(q.held) + Total(simpler) >= Total(p.held) + |x.indexes| ==>
              y == x && |y.indexes| >= 2 && x in q.held && (q.lost == p.lost || simpler == []) &&
              !exists h :: h in p.held && h.indexes == x.indexes
  {
    var n, y := |p.frags|, Simplify(p, len, x);
    if |y.indexes| == 1 {
      PartitionTotal(p.held, Mixes(y.indexes[0]));
    } else if y.indexes != [] && !exists h :: h in p.held && h.indexes == y.indexes {
      var held := if WithSubsets(n) then Select(p.held, Not(CoveredBy(y))) else p.held;
      if WithSubsets(n) {
        PartitionTotal(p.held, CoveredBy(y));
        if Select(p.held, CoveredBy(y)) != [] {
          RequeueLeavesRoom(p, len, y);
        }
      }
      TotalOfConcat(held, [y]);
      assert Total([y]) == |y.indexes|;
    }
  }

  /** The measure of `reduce`: a turn lowers the number of indexes on hold and
      queued, or keeps it and lowers the number of irreducible queued parts. */
  lemma {:induction false} StepDecreases(p: Pool, len: nat, rest: seq<Mixed>, x: Mixed)
    requires PoolOk(p, len) && PartsOk(|p.frags|, len, rest) && PartOk(|p.frags|, len, x)
    ensures var (q, simpler) := Step(p, len, x);
            var before, after := Total(p.held) + Total(rest + [x]), Total(q.held) + Total(rest + simpler);
            || after < before
            || (after == before && CountIrreducible(q, rest + simpler) < CountIrreducible(p, rest + [x]))
  {
    var (q, simpler) := Step(p, len, x);
    StepKeepsPool(p, len, x);
    StepTotal(p, len, x);
    TotalOfConcat(rest, [x]);
    TotalOfConcat(rest, simpler);
    assert Total([x]) == |x.indexes|;
    if Total(q.held) + Total(rest + simpler) >= Total(p.held) + Total(rest + [x]) {
      assert Irreducible(p, x) by {
        SimplifyUnchanged(p, len, x);
      }
      forall e | e in rest ensures Irreducible(q, e) ==> Irreducible(p, e) {
        HeldUnchanged(p, len, x, e);
      }
      forall e | e in simpler ensures !Irreducible(q, e) {
        HeldUnchanged(p, len, x, e);
      }
      CountShrinks(p, q, rest);
      CountNone(q, simpler);
      CountOfConcat(q, rest, simpler);
      CountOfConcat(p, rest, [x]);
      assert CountIrreducible(p, [x]) == 1;
    }
  }

  /** A part that nothing was XORed out of is irreducible. */
  lemma {:induction false} SimplifyUnchanged(p: Pool, len: nat, x: Mixed)
    requires PoolOk(p, len) && PartOk(|p.frags|, len, x) && Simplify(p, len, x) == x
    ensures Irreducible(p, x)
  {
    if WithSubsets(|p.frags|) {
      StripHeldLeavesNone(|p.frags|, len, p.held, StripKnown(p.frags, len, x.indexes, x.data));
    }
  }

  /** The loop of `reduce`, which takes parts from the end of the queue. */
  ghost function Drain(p: Pool, len: nat, queue: seq<Mixed>): (r: Pool)
    requires PoolOk(p, len) && PartsOk(|p.frags|, len, queue)
    ensures |r.frags| == |p.frags| && PoolOk(r, len)
    decreases Total(p.held) + Total(queue), CountIrreducible(p, queue)
  {
    if queue == [] then p
    else
      var rest, x := queue[..|queue| - 1], queue[|queue| - 1];
      assert queue == rest + [x];
      StepKeepsPool(p, len, x);
      StepDecreases(p, len, rest, x);
      Drain(Step(p, len, x).0, len, rest + Step(p, len, x).1)
  }
}
