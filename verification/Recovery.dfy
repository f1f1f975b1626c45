/** What runs of the fountain decoder recover: over the whole work queue of one
    `reduce`, and over any stream of parts. */
module Recovery {
  import opened Options
  import opened Fragments
  import opened Peeling

  // ----- over one work queue -----

  /** Draining the queue keeps the state true to the message. */
  lemma {:induction false} DrainKeepsTruth(m: seq<Frag>, len: nat, p: Pool, queue: seq<Mixed>)
    requires Uniform(m, len) && |m| == |p.frags| && PoolOk(p, len) && PoolTrue(m, len, p)
    requires PartsOk(|m|, len, queue) && PartsTrue(m, len, queue)
    ensures PoolTrue(m, len, Drain(p, len, queue))
    decreases Total(p.held) + Total(queue), CountIrreducible(p, queue)
  {
    if queue != [] {
      var rest, x := queue[..|queue| - 1], queue[|queue| - 1];
      assert queue == rest + [x];
      StepKeepsPool(p, len, x);
      StepKeepsTruth(m, len, p, x);
      StepDecreases(p, len, rest, x);
      DrainKeepsTruth(m, len, Step(p, len, x).0, rest + Step(p, len, x).1);
    }
  }

  /** What is known stays known, and a part once lost stays lost. */
  ghost predicate Extends(q: Pool, p: Pool) {
    && |q.frags| == |p.frags|
    && (forall i :: 0 <= i < |p.frags| && p.frags[i].Some? ==> q.frags[i] == p.frags[i])
    && (p.lost ==> q.lost)
  }

  lemma {:induction false} ExtendsChains(r: Pool, q: Pool, p: Pool)
    requires Extends(r, q) && Extends(q, p)
    ensures Extends(r, p)
  {
  }

  lemma {:induction false} StepExtends(p: Pool, len: nat, x: Mixed)
    requires PoolOk(p, len) && PartOk(|p.frags|, len, x)
    ensures Extends(Step(p, len, x).0, p)
  {
    var y := Simplify(p, len, x);
    assert |y.indexes| == 1 ==> y.indexes[0] in y.indexes;
  }

  lemma {:induction false} DrainExtends(p: Pool, len: nat, queue: seq<Mixed>)
    requires PoolOk(p, len) && PartsOk(|p.frags|, len, queue)
    ensures Extends(Drain(p, len, queue), p)
    decreases Total(p.held) + Total(queue), CountIrreducible(p, queue)
  {
    if queue != [] {
      var rest, x := queue[..|queue| - 1], queue[|queue| - 1];
      assert queue == rest + [x];
      var q := Step(p, len, x).0;
      StepKeepsPool(p, len, x);
      StepDecreases(p, len, rest, x);
      StepExtends(p, len, x);
      DrainExtends(q, len, rest + Step(p, len, x).1);
      ExtendsChains(Drain(p, len, queue), q, p);
    }
  }

  /** A turn never makes more parts than it takes. */
  lemma {:induction false} StepCount(p: Pool, len: nat, x: Mixed)
    requires PoolOk(p, len) && PartOk(|p.frags|, len, x)
    ensures var (q, simpler) := Step(p, len, x);
            && |q.held| + |simpler| <= |p.held| + 1
            && (|p.held| < Cap(|p.frags|) ==> q.lost == p.lost)
  {
    var y := Simplify(p, len, x);
    if |y.indexes| == 1 {
      PartitionLength(p.held, Mixes(y.indexes[0]));
    } else {
      PartitionLength(p.held, CoveredBy(y));
    }
  }

  lemma {:induction false} DrainCount(p: Pool, len: nat, queue: seq<Mixed>)
    requires PoolOk(p, len) && PartsOk(|p.frags|, len, queue)
    ensures |Drain(p, len, queue).held| <= |p.held| + |queue|
    ensures |p.held| + |queue| <= Cap(|p.frags|) ==> Drain(p, len, queue).lost == p.lost
    decreases Total(p.held) + Total(queue), CountIrreducible(p, queue)
  {
    if queue != [] {
      var rest, x := queue[..|queue| - 1], queue[|queue| - 1];
      assert queue == rest + [x];
      StepKeepsPool(p, len, x);
      StepDecreases(p, len, rest, x);
      StepCount(p, len, x);
      DrainCount(Step(p, len, x).0, len, rest + Step(p, len, x).1);
    }
  }

  // ----- nothing that can be peeled is left -----

  /** Each index of `part` is known or in a set, on hold or queued, that has only
      indexes of `part`. */
  ghost predicate Explained(p: Pool, queue: seq<Mixed>, part: seq<nat>) {
    forall i :: i in part && i < |p.frags| && p.frags[i].None? ==>
      exists h :: (h in p.held || h in queue) && i in h.indexes && Within(h.indexes, part)
  }

  /** The pass over the parts on hold only takes indexes out through a part on
      hold that has them. */
  lemma {:induction false} StripHeldExplains(n: nat, len: nat, held: seq<Mixed>, x: Mixed, i: nat)
    requires PartsOk(n, len, held) && |x.data| == len && Ascending(x.indexes) && i in x.indexes
    ensures || i in StripHeld(n, len, held, x).indexes
            || exists h :: h in held && i in h.indexes && Within(h.indexes, x.indexes)
  {
    if held != [] {
      var h := held[0];
      assert h in held && held == [h] + held[1..];
      if Covers(h, x) && i !in h.indexes {
        WithoutLength(x.indexes, h.indexes);
        StripHeldExplains(n, len, held[1..], XorOut(h, x), i);
      } else if !Covers(h, x) {
        StripHeldExplains(n, len, held[1..], x, i);
      }
    }
  }

  /** Where index `i` of part `x` is after its turn. */
  lemma {:induction false} StepPlaces(p: Pool, len: nat, x: Mixed, i: nat)
    requires PoolOk(p, len) && PartOk(|p.frags|, len, x) && i in x.indexes
    requires !Step(p, len, x).0.lost
    ensures var (q, simpler) := Step(p, len, x);
            q.frags[i].None? ==> exists h :: (h in q.held || h in simpler) && i in h.indexes && Within(h.indexes, x.indexes)
  {
    var n, y := |p.frags|, Simplify(p, len, x);
    var (q, simpler) := Step(p, len, x);
    assert |y.indexes| == 1 && i in y.indexes ==> q.frags[i].Some?;
    if q.frags[i].None? {
      assert p.frags[i].None?;
      if i in y.indexes {
        if exists h :: h in p.held && h.indexes == y.indexes {
          var h :| h in p.held && h.indexes == y.indexes;
          assert h in q.held;
        } else {
          assert y in q.held;
        }
      } else {
        StripHeldExplains(n, len, p.held, StripKnown(p.frags, len, x.indexes, x.data), i);
        var h :| h in p.held && i in h.indexes && Within(h.indexes, x.indexes);
        StepKeepsHeld(p, len, x, h);
      }
    }
  }

  /** A turn moves parts on hold to the queue, but drops none. */
  lemma {:induction false} StepKeepsHeld(p: Pool, len: nat, x: Mixed, h: Mixed)
    requires PoolOk(p, len) && PartOk(|p.frags|, len, x) && h in p.held
    ensures h in Step(p, len, x).0.held || h in Step(p, len, x).1
  {
    var y := Simplify(p, len, x);
    if |y.indexes| == 1 {
      assert Mixes(y.indexes[0])(h) || Not(Mixes(y.indexes[0]))(h);
    } else {
      assert CoveredBy(y)(h) || Not(CoveredBy(y))(h);
    }
  }

  lemma {:induction false} StepExplains(p: Pool, len: nat, rest: seq<Mixed>, x: Mixed, part: seq<nat>)
    requires PoolOk(p, len) && PartOk(|p.frags|, len, x) && !Step(p, len, x).0.lost
    requires Explained(p, rest + [x], part)
    ensures Explained(Step(p, len, x).0, rest + Step(p, len, x).1, part)
  {
    var (q, simpler) := Step(p, len, x);
    forall i | i in part && i < |q.frags| && q.frags[i].None?
      ensures exists h :: (h in q.held || h in rest + simpler) && i in h.indexes && Within(h.indexes, part)
    {
      assert p.frags[i].None?;
      var g :| (g in p.held || g in rest + [x]) && i in g.indexes && Within(g.indexes, part);
      if g in p.held {
        StepKeepsHeld(p, len, x, g);
      } else if g == x {
        StepPlaces(p, len, x, i);
      }
    }
  }

  lemma {:induction false} DrainExplains(p: Pool, len: nat, queue: seq<Mixed>, part: seq<nat>)
    requires PoolOk(p, len) && PartsOk(|p.frags|, len, queue) && !Drain(p, len, queue).lost
    requires Explained(p, queue, part)
    ensures Explained(Drain(p, len, queue), [], part)
    decreases Total(p.held) + Total(queue), CountIrreducible(p, queue)
  {
    if queue != [] {
      var rest, x := queue[..|queue| - 1], queue[|queue| - 1];
      assert queue == rest + [x];
      StepKeepsPool(p, len, x);
      StepDecreases(p, len, rest, x);
      DrainExtends(Step(p, len, x).0, len, rest + Step(p, len, x).1);
      StepExplains(p, len, rest, x, part);
      DrainExplains(Step(p, len, x).0, len, rest + Step(p, len, x).1, part);
    }
  }

  // ----- over a stream of parts -----

  /** A decoder that has received nothing. */
  ghost function Start(n: nat): (p: Pool)
    ensures |p.frags| == n && PoolOk(p, 0)
  {
    Pool(seq(n, _ => None), [], false)
  }

  /** `reduce` over every part of a stream. */
  ghost function Absorb(n: nat, len: nat, parts: seq<Mixed>): (p: Pool)
    requires PartsOk(n, len, parts)
    ensures |p.frags| == n && PoolOk(p, len)
  {
    if parts == [] then Start(n)
    else
      var k := |parts| - 1;
      assert parts[k] in parts && forall x :: x in parts[..k] ==> x in parts;
      Drain(Absorb(n, len, parts[..k]), len, [parts[k]])
  }

  /** Whatever the stream, what is known and on hold agrees with the message. */
  lemma {:induction false} AbsorbIsTrue(m: seq<Frag>, len: nat, parts: seq<Mixed>)
    requires Uniform(m, len) && PartsOk(|m|, len, parts) && PartsTrue(m, len, parts)
    ensures PoolTrue(m, len, Absorb(|m|, len, parts))
  {
    if parts != [] {
      var k := |parts| - 1;
      assert parts[k] in parts && forall x :: x in parts[..k] ==> x in parts;
      AbsorbIsTrue(m, len, parts[..k]);
      DrainKeepsTruth(m, len, Absorb(|m|, len, parts[..k]), [parts[k]]);
    }
  }

  lemma {:induction false} LastExtends(n: nat, len: nat, parts: seq<Mixed>)
    requires PartsOk(n, len, parts) && parts != []
    ensures PartsOk(n, len, parts[..|parts| - 1])
    ensures Extends(Absorb(n, len, parts), Absorb(n, len, parts[..|parts| - 1]))
  {
    var k := |parts| - 1;
    assert parts[k] in parts && forall x :: x in parts[..k] ==> x in parts;
    DrainExtends(Absorb(n, len, parts[..k]), len, [parts[k]]);
  }

  lemma {:induction false} AbsorbExtends(n: nat, len: nat, parts: seq<Mixed>, k: nat)
    requires PartsOk(n, len, parts) && k <= |parts|
    ensures PartsOk(n, len, parts[..k]) && Extends(Absorb(n, len, parts), Absorb(n, len, parts[..k]))
    decreases |parts|
  {
    if k == |parts| {
      assert parts[..k] == parts;
    } else {
      var most := parts[..|parts| - 1];
      LastExtends(n, len, parts);
      AbsorbExtends(n, len, most, k);
      assert most[..k] == parts[..k];
      ExtendsChains(Absorb(n, len, parts), Absorb(n, len, most), Absorb(n, len, most[..k]));
    }
  }

  lemma {:induction false} ApartEach(n: nat, held: seq<Mixed>, j: nat, k: nat)
    requires AllApart(n, held) && j < k < |held|
    ensures Apart(n, held[j], held[k])
  {
    if j == 0 {
      assert held[1..][k - 1] in held[1..];
    } else {
      ApartEach(n, held[1..], j - 1, k - 1);
    }
  }

  /** What `PoolOk` says of the parts on hold: their index sets are ascending, of
      two or more, free of known indexes, pairwise distinct, at most `2n + 16` in
      number and, for up to 256 fragments, an antichain under inclusion. */
  lemma {:induction false} OnHoldIsAntichain(p: Pool, len: nat, j: nat, k: nat)
    requires PoolOk(p, len) && j < |p.held| && k < |p.held|
    ensures |p.held| <= 2 * |p.frags| + 16
    ensures |p.held[j].indexes| >= 2 && Ascending(p.held[j].indexes)
    ensures forall i :: i in p.held[j].indexes ==> i < |p.frags| && p.frags[i].None?
    ensures j != k ==> p.held[j].indexes != p.held[k].indexes
    ensures j != k && |p.frags| <= 256 ==> !Within(p.held[j].indexes, p.held[k].indexes)
  {
    assert p.held[j] in p.held;
    if j < k {
      ApartEach(|p.frags|, p.held, j, k);
    } else if k < j {
      ApartEach(|p.frags|, p.held, k, j);
    }
  }

  /** A stream of no more parts than the cap loses none. */
  lemma {:induction false} ShortStreamsLoseNothing(n: nat, len: nat, parts: seq<Mixed>)
    requires PartsOk(n, len, parts) && |parts| <= Cap(n)
    ensures !Absorb(n, len, parts).lost && |Absorb(n, len, parts).held| <= |parts|
  {
    if parts != [] {
      var k := |parts| - 1;
      assert parts[k] in parts && forall x :: x in parts[..k] ==> x in parts;
      ShortStreamsLoseNothing(n, len, parts[..k]);
      DrainCount(Absorb(n, len, parts[..k]), len, [parts[k]]);
    }
  }

  lemma {:induction false} AbsorbExplains(n: nat, len: nat, parts: seq<Mixed>, x: Mixed)
    requires PartsOk(n, len, parts) && x in parts && !Absorb(n, len, parts).lost
    ensures Explained(Absorb(n, len, parts), [], x.indexes)
  {
    var k := |parts| - 1;
    assert parts[k] in parts && forall x :: x in parts[..k] ==> x in parts;
    var p := Absorb(n, len, parts[..k]);
    DrainExtends(p, len, [parts[k]]);
    if x != parts[k] {
      AbsorbExplains(n, len, parts[..k], x);
    }
    DrainExplains(p, len, [parts[k]], x.indexes);
  }

  /** Of no received part is exactly one fragment missing: peeling has run to its
      end, whatever order the parts came in. */
  lemma {:induction false} PeelingIsExhausted(n: nat, len: nat, parts: seq<Mixed>, x: Mixed, i: nat)
    requires PartsOk(n, len, parts) && x in parts && !Absorb(n, len, parts).lost
    requires i in x.indexes
    requires forall j :: j in x.indexes && j != i ==> Absorb(n, len, parts).frags[j].Some?
    ensures Absorb(n, len, parts).frags[i].Some?
  {
    var p := Absorb(n, len, parts);
    AbsorbExplains(n, len, parts, x);
    forall h | h in p.held && i in h.indexes
      ensures exists j :: j in h.indexes && j != i && p.frags[j].None?
    {
      var j := if h.indexes[0] == i then h.indexes[1] else h.indexes[0];
      assert j in h.indexes;
    }
  }

  /** Fragment `i` can be had from `parts` in `rounds` rounds of belief
      propagation: some part mixes it with fragments had in fewer. */
  ghost predicate Peelable(parts: seq<Mixed>, i: nat, rounds: nat)
    decreases rounds
  {
    rounds > 0 &&
    exists x :: x in parts && i in x.indexes && (forall j :: j in x.indexes && j != i ==> Peelable(parts, j, rounds - 1))
  }

  /** Every fragment that belief propagation gets from the parts is known. */
  lemma {:induction false} PeelableIsKnown(n: nat, len: nat, parts: seq<Mixed>, i: nat, rounds: nat)
    requires PartsOk(n, len, parts) && !Absorb(n, len, parts).lost && Peelable(parts, i, rounds)
    ensures i < n && Absorb(n, len, parts).frags[i].Some?
    decreases rounds
  {
    var x :| x in parts && i in x.indexes && (forall j :: j in x.indexes && j != i ==> Peelable(parts, j, rounds - 1));
    forall j | j in x.indexes && j != i ensures Absorb(n, len, parts).frags[j].Some? {
      PeelableIsKnown(n, len, parts, j, rounds - 1);
    }
    PeelingIsExhausted(n, len, parts, x, i);
  }

  /** A part of one fragment makes it known, cap or no cap. */
  lemma {:induction false} SingletonBecomesKnown(p: Pool, len: nat, x: Mixed)
    requires PoolOk(p, len) && PartOk(|p.frags|, len, x) && |x.indexes| == 1
    ensures Drain(p, len, [x]).frags[x.indexes[0]].Some?
  {
    hide StripKnown, StripHeld, Select, CoveredBy, Not, Total, CountIrreducible;
    var i := x.indexes[0];
    assert i in x.indexes && x.indexes == [i];
    var y := Simplify(p, len, x);
    var (q, simpler) := Step(p, len, x);
    StepKeepsPool(p, len, x);
    StepDecreases(p, len, [], x);
    assert q.frags[i].Some? by {
      if p.frags[i].None? {
        var s := StripKnown(p.frags, len, x.indexes, x.data);
        assert i in s.indexes && |s.indexes| == 1;
        if WithSubsets(|p.frags|) {
          StripHeldExplains(|p.frags|, len, p.held, s, i);
          forall h | h in p.held && Within(h.indexes, s.indexes) ensures false {
            SubsetLength(h.indexes, s.indexes);
          }
        }
        assert |y.indexes| == 1 && y.indexes[0] == i;
      }
    }
    assert [x][..0] + [] == [] && [] + simpler == simpler;
    assert Drain(p, len, [x]) == Drain(q, len, [x][..0] + simpler);
    assert [x][..0] + simpler == simpler;
    DrainExtends(q, len, simpler);
  }

  /** A stream with every fragment on its own makes them all known. */
  lemma {:induction false} SingletonsSuffice(n: nat, len: nat, parts: seq<Mixed>, i: nat, k: nat)
    requires PartsOk(n, len, parts) && k < |parts| && parts[k].indexes == [i]
    ensures i < n && Absorb(n, len, parts).frags[i].Some?
  {
    assert i in parts[k].indexes && parts[k] in parts;
    AbsorbExtends(n, len, parts, k + 1);
    assert parts[..k + 1][..k] == parts[..k];
    assert parts[..k + 1][k] in parts && forall x :: x in parts[..k] ==> x in parts;
    SingletonBecomesKnown(Absorb(n, len, parts[..k]), len, parts[k]);
  }
}
