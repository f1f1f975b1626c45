/** `choose_fragments` of src/bcur/fountain.rs: the fragments a part mixes. */
module Choice {
  import opened Fragments
  import opened Sampler

  /** The draws of the generator seeded for one part. */
  type Draws = nat -> Draw

  /** How parts are told which fragments they mix, by sequence number, number of
      fragments and checksum: what sender and receiver share. */
  type Chooser = (nat, nat, bv32) -> seq<nat>

  /** Every part mixes a nonempty set of fragments, and the first ones a single
      fragment each, in order. */
  ghost predicate ChooserOk(choose: Chooser) {
    forall seqNum: nat, seqLen: nat, checksum: bv32 :: 1 <= seqNum && 1 <= seqLen ==>
      IndexSet(choose(seqNum, seqLen, checksum), seqLen)
      && (seqNum <= seqLen ==> choose(seqNum, seqLen, checksum) == [seqNum - 1])
  }

  ghost predicate IndexSet(s: seq<nat>, n: nat) {
    s != [] && Ascending(s) && Below(s, n)
  }

  function RemoveAt(s: seq<nat>, i: nat): (r: seq<nat>)
    requires i < |s|
    ensures |r| == |s| - 1
    ensures Distinct(s) ==> Distinct(r) && forall x :: x in r <==> x in s && x != s[i]
  {
    assert s == s[..i] + [s[i]] + s[i + 1..];
    s[..i] + s[i + 1..]
  }

  /** `count` elements of `remaining` picked at random one after the other, with
      the draws from `at` on. */
  function Picks(remaining: seq<nat>, draws: Draws, at: nat, count: nat): (r: seq<nat>)
    requires count <= |remaining|
    ensures |r| == count
    ensures Distinct(remaining) ==> Distinct(r) && Within(r, remaining)
    decreases count
  {
    if count == 0 then []
    else
      var i := IndexOf(draws(at), |remaining|);
      var rest := Picks(RemoveAt(remaining, i), draws, at + 1, count - 1);
      assert forall k :: 0 <= k < |rest| ==> rest[k] in rest;
      [remaining[i]] + rest
  }

  function Insert(x: nat, s: seq<nat>): (r: seq<nat>)
    ensures |r| == |s| + 1
    ensures forall y :: y in r <==> y == x || y in s
    ensures Ascending(s) && x !in s ==> Ascending(r)
  {
    if s == [] then [x]
    else if x <= s[0] then
      assert [x] + s == [x] + s[..];
      [x] + s
    else
      var rest := Insert(x, s[1..]);
      assert forall k :: 0 <= k < |rest| ==> rest[k] in rest;
      [s[0]] + rest
  }

  /** `sort_unstable`. */
  function Sorted(s: seq<nat>): (r: seq<nat>)
    ensures |r| == |s|
    ensures forall y :: y in r <==> y in s
    ensures Distinct(s) ==> Ascending(r)
  {
    if s == [] then [] else Insert(s[0], Sorted(s[1..]))
  }

  function UpTo(n: nat): (s: seq<nat>)
    ensures |s| == n && Distinct(s) && forall i :: 0 <= i < n ==> s[i] == i
  {
    seq(n, i => i)
  }

  /** The indexes of the fragments in part `seqNum`. */
  function Chosen(seqNum: nat, seqLen: nat, sampler: DegreeSampler, draws: Draws): (s: seq<nat>)
    requires 1 <= seqNum && 1 <= seqLen == |sampler.probs| && WellFormed(sampler)
    ensures IndexSet(s, seqLen)
    ensures |s| == if seqNum <= seqLen then 1 else Next(sampler, draws(0), draws(1))
  {
    if seqNum <= seqLen then [seqNum - 1]
    else
      var picks := Picks(UpTo(seqLen), draws, 2, Next(sampler, draws(0), draws(1)));
      assert Within(Sorted(picks), UpTo(seqLen));
      Sorted(picks)
  }

  /** The loop of `choose_fragments`: indexes leave `remaining` one by one. */
  method ChooseFragments(seqNum: nat, seqLen: nat, sampler: DegreeSampler, draws: Draws) returns (indexes: seq<nat>)
    requires 1 <= seqNum && 1 <= seqLen == |sampler.probs| && WellFormed(sampler)
    ensures indexes == Chosen(seqNum, seqLen, sampler, draws)
  {
    if seqNum <= seqLen {
      return [seqNum - 1];
    }
    var degree := Next(sampler, draws(0), draws(1));
    var remaining: seq<nat>, chosen: seq<nat> := UpTo(seqLen), [];
    ghost var picks := Picks(remaining, draws, 2, degree);
    for k := 0 to degree
      invariant |remaining| == seqLen - k
      invariant picks == chosen + Picks(remaining, draws, 2 + k, degree - k)
    {
      var i := IndexOf(draws(2 + k), |remaining|);
      chosen := chosen + [remaining[i]];
      remaining := RemoveAt(remaining, i);
    }
    assert picks == chosen;
    indexes := Sorted(chosen);
  }

  // ----- which index a draw stands for -----

  /** The numbers below `n` that come before `x` and are not picked. */
  ghost function FreeBefore(n: nat, picked: seq<nat>, x: nat): set<nat> {
    set y: nat | y < x && y < n && y !in picked
  }

  /** What draw `r` makes of `count` choices: `r * count`, rounded down. */
  ghost predicate Lands(r: Draw, count: nat, i: nat) {
    i as real <= r * (count as real) < (i + 1) as real
  }

  /** Among the indexes not picked yet, in ascending order, each draw picks the one it lands
      on. */
  ghost predicate DrawnInTurn(n: nat, draws: Draws, at: nat, picks: seq<nat>) {
    |picks| <= n && forall k :: 0 <= k < |picks| ==>
      && picks[k] < n && picks[k] !in picks[..k]
      && Lands(draws(at + k), n - k, |FreeBefore(n, picks[..k], picks[k])|)
  }

  /** `remaining` is what is left of the first `n` numbers after `picked`. */
  ghost predicate Left(n: nat, picked: seq<nat>, remaining: seq<nat>) {
    && Ascending(remaining) && |remaining| + |picked| == n
    && forall x :: x in remaining <==> 0 <= x < n && x !in picked
  }

  ghost function Elements(s: seq<nat>): set<nat> {
    set x | x in s
  }

  lemma {:induction false} ElementsCount(s: seq<nat>)
    requires Ascending(s)
    ensures |Elements(s)| == |s|
  {
    if s != [] {
      var front, last := s[..|s| - 1], s[|s| - 1];
      ElementsCount(front);
      assert last !in front;
      assert s == front + [last];
      assert Elements(s) == Elements(front) + {last};
    }
  }

  lemma {:induction false} FreeBeforeAt(n: nat, picked: seq<nat>, remaining: seq<nat>, i: nat)
    requires Left(n, picked, remaining) && i < |remaining|
    ensures |FreeBefore(n, picked, remaining[i])| == i
  {
    var front := remaining[..i];
    ElementsCount(front);
    forall y: nat ensures y in FreeBefore(n, picked, remaining[i]) <==> y in front {
      if y in remaining {
        var k :| 0 <= k < |remaining| && remaining[k] == y;
        assert k < i ==> front[k] == y;
      }
    }
    assert FreeBefore(n, picked, remaining[i]) == Elements(front);
  }

  lemma {:induction false} LeftAfter(n: nat, picked: seq<nat>, remaining: seq<nat>, i: nat)
    requires Left(n, picked, remaining) && i < |remaining|
    ensures remaining[i] < n && remaining[i] !in picked
    ensures Left(n, picked + [remaining[i]], RemoveAt(remaining, i))
  {
    var r := RemoveAt(remaining, i);
    assert remaining[i] in remaining;
    assert Distinct(remaining);
    assert forall k :: 0 <= k < |r| ==> r[k] == if k < i then remaining[k] else remaining[k + 1];
  }

  /** The picks made after `picked`, appended to it. */
  lemma {:induction false} PicksInTurn(n: nat, picked: seq<nat>, remaining: seq<nat>, draws: Draws, at: nat, count: nat)
    requires Left(n, picked, remaining) && count <= |remaining| == n - |picked| && DrawnInTurn(n, draws, at, picked)
    ensures DrawnInTurn(n, draws, at, picked + Picks(remaining, draws, at + |picked|, count))
    decreases count
  {
    hide FreeBefore, DrawnInTurn, Left, IndexOf, RemoveAt, Lands, Distinct, Within, Picks;
    if count == 0 {
      assert picked + [] == picked;
    } else {
      var i := IndexOf(draws(at + |picked|), |remaining|);
      var next := picked + [remaining[i]];
      FreeBeforeAt(n, picked, remaining, i);
      LeftAfter(n, picked, remaining, i);
      DrawLands(draws(at + |picked|), |remaining|);
      NextInTurn(n, draws, at, picked, remaining[i]);
      PicksInTurn(n, next, RemoveAt(remaining, i), draws, at, count - 1);
      PicksStep(remaining, draws, at + |picked|, count);
      Reassociate(picked, remaining[i], Picks(RemoveAt(remaining, i), draws, at + |next|, count - 1));
    }
  }

  lemma {:induction false} PicksStep(remaining: seq<nat>, draws: Draws, at: nat, count: nat)
    requires 0 < count <= |remaining|
    ensures var i := IndexOf(draws(at), |remaining|);
            Picks(remaining, draws, at, count) == [remaining[i]] + Picks(RemoveAt(remaining, i), draws, at + 1, count - 1)
  {
  }

  lemma {:induction false} Reassociate(a: seq<nat>, x: nat, b: seq<nat>)
    ensures a + ([x] + b) == a + [x] + b
  {
  }

  lemma {:induction false} DrawLands(r: Draw, count: nat)
    requires count > 0
    ensures Lands(r, count, IndexOf(r, count))
  {
    CellOf(r, count);
  }

  lemma {:induction false} NextInTurn(n: nat, draws: Draws, at: nat, picked: seq<nat>, x: nat)
    requires DrawnInTurn(n, draws, at, picked) && |picked| < n && x < n && x !in picked
    requires Lands(draws(at + |picked|), n - |picked|, |FreeBefore(n, picked, x)|)
    ensures DrawnInTurn(n, draws, at, picked + [x])
  {
    hide FreeBefore, Lands;
    var next := picked + [x];
    assert next[..|picked|] == picked;
    assert forall k :: 0 <= k < |picked| ==> next[..k] == picked[..k];
  }

  lemma {:induction false} NothingPicked(all: seq<nat>)
    requires forall i :: 0 <= i < |all| ==> all[i] == i
    ensures Left(|all|, [], all)
  {
    forall x ensures x in all <==> 0 <= x < |all| {
      if 0 <= x < |all| {
        assert all[x] == x;
      }
    }
  }

  /** Past the first parts, the indexes are those that as many draws as the degree pick, one
      after the other, from the third draw on; the first two draws pick the degree. */
  lemma {:induction false} ChosenAreDrawn(seqNum: nat, seqLen: nat, sampler: DegreeSampler, draws: Draws)
    requires 1 <= seqLen < seqNum && seqLen == |sampler.probs| && WellFormed(sampler)
    ensures exists picks ::
              && |picks| == Next(sampler, draws(0), draws(1)) && DrawnInTurn(seqLen, draws, 2, picks)
              && Elements(Chosen(seqNum, seqLen, sampler, draws)) == Elements(picks)
  {
    hide Next, WellFormed, Picks, FreeBefore, Lands;
    var picks := Picks(UpTo(seqLen), draws, 2, Next(sampler, draws(0), draws(1)));
    var all := UpTo(seqLen);
    NothingPicked(all);
    assert DrawnInTurn(seqLen, draws, 2, []);
    PicksInTurn(seqLen, [], all, draws, 2, |picks|);
    assert [] + picks == picks;
  }

  /** Whatever well-formed tables and draws it is given, the choice is one that
      encoder and decoder can rely on. */
  lemma {:induction false} ChosenIsAChooser(tables: nat -> DegreeSampler, draws: (nat, bv32) -> Draws)
    requires forall n :: |tables(n).probs| == n && WellFormed(tables(n))
    ensures var choose := (seqNum: nat, seqLen: nat, checksum: bv32) =>
              if 1 <= seqNum && 1 <= seqLen then Chosen(seqNum, seqLen, tables(seqLen), draws(seqNum, checksum)) else [];
            ChooserOk(choose)
  {
    forall seqNum: nat, seqLen: nat, checksum: bv32 | 1 <= seqNum && 1 <= seqLen
      ensures IndexSet(Chosen(seqNum, seqLen, tables(seqLen), draws(seqNum, checksum)), seqLen)
    {
    }
  }
}
