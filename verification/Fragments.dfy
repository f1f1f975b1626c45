/** Fragments of a message as byte vectors under XOR, and the sets of fragment
    indexes that fountain parts mix.

    An index set is kept as the strictly ascending list of its elements, as
    src/bcur/fountain.rs keeps it. */
module Fragments {
  import opened Options

  type Frag = seq<bv8>

  function Zero(len: nat): (f: Frag)
    ensures |f| == len
  {
    seq(len, _ => 0)
  }

  function Xor(a: Frag, b: Frag): (c: Frag)
    requires |a| == |b|
    ensures |c| == |a|
  {
    seq(|a|, i requires 0 <= i < |a| => a[i] ^ b[i])
  }

  lemma {:induction false} XorZero(a: Frag)
    ensures Xor(a, Zero(|a|)) == a && Xor(Zero(|a|), a) == a
  {
  }

  lemma {:induction false} XorSelf(a: Frag)
    ensures Xor(a, a) == Zero(|a|)
  {
  }

  lemma {:induction false} XorCommutes(a: Frag, b: Frag)
    requires |a| == |b|
    ensures Xor(a, b) == Xor(b, a)
  {
  }

  lemma {:induction false} XorAssociates(a: Frag, b: Frag, c: Frag)
    requires |a| == |b| == |c|
    ensures Xor(Xor(a, b), c) == Xor(a, Xor(b, c))
  {
  }

  /** XORing the same vector in twice takes it out again. */
  lemma {:induction false} XorCancels(a: Frag, b: Frag)
    requires |a| == |b|
    ensures Xor(Xor(a, b), a) == b && Xor(Xor(b, a), a) == b
  {
  }

  // ----- ascending index lists -----

  ghost predicate Ascending(s: seq<nat>) {
    forall i, j :: 0 <= i < j < |s| ==> s[i] < s[j]
  }

  ghost predicate Below(s: seq<nat>, n: nat) {
    forall x :: x in s ==> x < n
  }

  lemma {:induction false} BelowDrop(s: seq<nat>, n: nat, k: nat)
    requires Below(s, n) && k <= |s|
    ensures Below(s[k..], n)
  {
    forall x | x in s[k..] ensures x < n {
      var i :| 0 <= i < |s[k..]| && s[k..][i] == x;
      assert s[k + i] in s;
    }
  }

  /** Every element of `inner` is one of `outer`. */
  ghost predicate Within(inner: seq<nat>, outer: seq<nat>) {
    forall x :: x in inner ==> x in outer
  }

  /** An element below all others goes in front. */
  lemma {:induction false} PrependAscending(x: nat, rest: seq<nat>)
    ensures Ascending(rest) && (forall y :: y in rest ==> x < y) ==> Ascending([x] + rest)
  {
    assert forall k :: 0 <= k < |rest| ==> rest[k] in rest;
  }

  lemma {:induction false} HeadIsLeast(s: seq<nat>)
    requires s != []
    ensures s[0] in s && s == [s[0]] + s[1..]
    ensures forall x :: x in s <==> x == s[0] || x in s[1..]
    ensures Ascending(s) ==> Ascending(s[1..]) && forall y :: y in s[1..] ==> s[0] < y
  {
    assert s == [s[0]] + s[1..];
  }

  /** The elements of `s` that are not in `t`, in order. */
  function Without(s: seq<nat>, t: seq<nat>): (r: seq<nat>)
    ensures forall x :: x in r <==> x in s && x !in t
    ensures |r| <= |s|
    ensures Ascending(s) ==> Ascending(r)
  {
    if s == [] then []
    else
      var rest := Without(s[1..], t);
      HeadIsLeast(s);
      PrependAscending(s[0], rest);
      if s[0] in t then rest else [s[0]] + rest
  }

  /** The elements of `s` that are in `t`, in order. */
  ghost function Meet(s: seq<nat>, t: seq<nat>): (r: seq<nat>)
    ensures forall x :: x in r <==> x in s && x in t
    ensures Ascending(s) ==> Ascending(r)
  {
    if s == [] then []
    else
      var rest := Meet(s[1..], t);
      HeadIsLeast(s);
      PrependAscending(s[0], rest);
      if s[0] in t then [s[0]] + rest else rest
  }

  /** An ascending list is determined by its elements. */
  lemma {:induction false} AscendingIsCanonical(a: seq<nat>, b: seq<nat>)
    requires Ascending(a) && Ascending(b)
    requires Within(a, b) && Within(b, a)
    ensures a == b
  {
    assert b != [] ==> b[0] in b;
    if a != [] {
      assert a[0] in a && a[0] in b && b[0] in a;
      assert a[0] == b[0];
      RestWithin(a, b);
      RestWithin(b, a);
      AscendingIsCanonical(a[1..], b[1..]);
      assert a == [a[0]] + a[1..] && b == [b[0]] + b[1..];
    }
  }

  lemma {:induction false} RestWithin(a: seq<nat>, b: seq<nat>)
    requires a != [] && b != [] && a[0] == b[0] && Ascending(a) && Within(a, b)
    ensures Within(a[1..], b[1..])
  {
    forall x | x in a[1..] ensures x in b[1..] {
      assert x in a && x in b && x > a[0];
      var k :| 0 <= k < |b| && b[k] == x;
      assert b[1..][k - 1] == x;
    }
  }

  lemma {:induction false} SplitLength(s: seq<nat>, t: seq<nat>)
    ensures |Without(s, t)| + |Meet(s, t)| == |s|
  {
    if s != [] {
      SplitLength(s[1..], t);
    }
  }

  /** A list taken out of one that has all its elements leaves the difference. */
  lemma {:induction false} WithoutLength(s: seq<nat>, t: seq<nat>)
    requires Ascending(s) && Ascending(t) && Within(t, s)
    ensures |Without(s, t)| == |s| - |t|
  {
    SplitLength(s, t);
    AscendingIsCanonical(Meet(s, t), t);
  }

  /** A subset is no longer than the whole, and as long only if it is the whole. */
  lemma {:induction false} SubsetLength(inner: seq<nat>, outer: seq<nat>)
    requires Ascending(inner) && Ascending(outer) && Within(inner, outer)
    ensures |inner| <= |outer|
    ensures |inner| == |outer| ==> inner == outer
  {
    WithoutLength(outer, inner);
    if |inner| == |outer| {
      assert Without(outer, inner) == [];
      assert forall x :: x in outer && x !in inner ==> x in Without(outer, inner);
      AscendingIsCanonical(inner, outer);
    }
  }

  /** The merge scan of `is_subset`: each element of `inner` is searched for in
      what the previous searches left of `outer`. */
  function IsSubset(inner: seq<nat>, outer: seq<nat>): (r: bool)
    ensures Ascending(inner) && Ascending(outer) ==> (r <==> Within(inner, outer))
    decreases |outer|
  {
    if inner == [] then true
    else if outer == [] then
      assert inner[0] in inner;
      false
    else if outer[0] < inner[0] then
      assert outer == [outer[0]] + outer[1..];
      assert Ascending(inner) && Ascending(outer) ==> (Within(inner, outer) <==> Within(inner, outer[1..])) by {
        if Ascending(inner) && Ascending(outer) {
          assert forall x :: x in inner ==> x >= inner[0];
        }
      }
      IsSubset(inner, outer[1..])
    else
      assert inner[0] in inner;
      assert outer == [outer[0]] + outer[1..] && inner == [inner[0]] + inner[1..];
      assert Ascending(inner) && Ascending(outer) && outer[0] == inner[0] ==>
          (Within(inner, outer) <==> Within(inner[1..], outer[1..])) by {
        if Ascending(inner) && Ascending(outer) && outer[0] == inner[0] {
          assert forall x :: x in inner[1..] ==> x != outer[0];
          assert forall x :: x in inner <==> x == inner[0] || x in inner[1..];
          assert forall x :: x in outer <==> x == outer[0] || x in outer[1..];
        }
      }
      assert Ascending(inner) && Ascending(outer) && outer[0] > inner[0] ==> inner[0] !in outer;
      outer[0] == inner[0] && IsSubset(inner[1..], outer[1..])
  }

  // ----- what a part mixes -----

  /** All fragments of `m` have `len` bytes. */
  ghost predicate Uniform(m: seq<Frag>, len: nat) {
    forall i :: 0 <= i < |m| ==> |m[i]| == len
  }

  /** The XOR of the fragments of `m` that `indexes` lists. */
  ghost function Mix(m: seq<Frag>, len: nat, indexes: seq<nat>): (f: Frag)
    requires Uniform(m, len) && Below(indexes, |m|)
    ensures |f| == len
  {
    if indexes == [] then Zero(len)
    else
      assert indexes[0] in indexes;
      assert forall x :: x in indexes[1..] ==> x in indexes;
      Xor(m[indexes[0]], Mix(m, len, indexes[1..]))
  }

  /** A mix is the XOR of the mixes of two complementary parts of its indexes. */
  lemma {:induction false} MixSplits(m: seq<Frag>, len: nat, s: seq<nat>, t: seq<nat>)
    requires Uniform(m, len) && Below(s, |m|)
    ensures Below(Without(s, t), |m|) && Below(Meet(s, t), |m|)
    ensures Mix(m, len, s) == Xor(Mix(m, len, Without(s, t)), Mix(m, len, Meet(s, t)))
  {
    if s == [] {
      XorZero(Zero(len));
    } else {
      assert s[0] in s;
      assert forall x :: x in s[1..] ==> x in s;
      MixSplits(m, len, s[1..], t);
      var a, w, p := m[s[0]], Mix(m, len, Without(s[1..], t)), Mix(m, len, Meet(s[1..], t));
      assert Mix(m, len, s) == Xor(a, Xor(w, p));
      if s[0] in t {
        assert Meet(s, t)[1..] == Meet(s[1..], t);
        assert Xor(w, Xor(a, p)) == Xor(a, Xor(w, p)) by {
          XorAssociates(w, a, p);
          XorCommutes(w, a);
          XorAssociates(a, w, p);
        }
      } else {
        assert Without(s, t)[1..] == Without(s[1..], t);
        XorAssociates(a, w, p);
      }
    }
  }

  /** XORing a covered mix out of a mix leaves the mix of the difference. */
  lemma {:induction false} MixWithout(m: seq<Frag>, len: nat, s: seq<nat>, t: seq<nat>)
    requires Uniform(m, len) && Below(s, |m|)
    requires Ascending(s) && Ascending(t) && Within(t, s)
    ensures Below(Without(s, t), |m|)
    ensures Mix(m, len, Without(s, t)) == Xor(Mix(m, len, s), Mix(m, len, t))
  {
    MixSplits(m, len, s, t);
    AscendingIsCanonical(Meet(s, t), t);
    XorCancels(Mix(m, len, t), Mix(m, len, Without(s, t)));
  }
}
