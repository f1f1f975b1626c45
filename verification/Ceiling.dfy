/** Rounding up a division, and the even cut of a length into pieces that
    src/bcur/fountain.rs and src/bbqr.rs make. */
module Ceiling {

  /** `q` is the least number of `b`s that cover `a`. */
  predicate IsCeil(q: nat, a: nat, b: nat) {
    q * b >= a && (q > 0 ==> (q - 1) * b < a)
  }

  /** `div_ceil`. */
  function CeilDiv(a: nat, b: nat): (q: nat)
    requires b > 0
    ensures IsCeil(q, a, b)
  {
    (a + b - 1) / b
  }

  lemma {:induction false} CeilIsPositive(q: nat, a: nat, b: nat)
    requires a > 0 && IsCeil(q, a, b)
    ensures q > 0
  {
    assert q == 0 ==> q * b == 0;
  }

  lemma {:induction false} CeilIsLeast(q: nat, a: nat, b: nat, other: nat)
    requires IsCeil(q, a, b) && other * b >= a
    ensures q <= other
  {
    assert q > other ==> (q - 1) * b >= other * b;
  }

  /** The arithmetic of the cut: `n` fragments, evened out to length `f`, make
      `c` fragments. */
  lemma {:induction false} EvenCut(len: nat, maxLen: nat, n: nat, f: nat, c: nat)
    requires len > 0 && IsCeil(n, len, maxLen) && IsCeil(f, len, n) && IsCeil(c, len, f)
    ensures 0 < f <= maxLen && c == n
  {
    CeilIsPositive(n, len, maxLen);
    CeilIsPositive(f, len, n);
    assert maxLen * n == n * maxLen && f * n == n * f;
    CeilIsLeast(f, len, n, maxLen);
    CeilIsLeast(c, len, f, n);
    assert c < n ==> c * f <= (n - 1) * f;
    assert (n - 1) * f <= (n - 1) * maxLen;
  }

  /** No length shorter than `f` gives as few as `n` fragments. */
  lemma {:induction false} ShortestCut(len: nat, n: nat, f: nat, other: nat, k: nat)
    requires IsCeil(f, len, n) && IsCeil(k, len, other) && k <= n
    ensures f <= other
  {
    assert k * other <= n * other;
    assert other * n == n * other;
    CeilIsLeast(f, len, n, other);
  }

  lemma {:induction false} CeilDivPositive(a: nat, b: nat)
    requires a > 0 && b > 0
    ensures CeilDiv(a, b) > 0
  {
    CeilIsPositive(CeilDiv(a, b), a, b);
  }

  lemma {:induction false} CeilDivAtMost(a: nat, b: nat)
    requires b > 0
    ensures CeilDiv(a, b) <= a
  {
    assert a * b >= a * 1;
    CeilIsLeast(CeilDiv(a, b), a, b, a);
  }

  /** Evening out the fragments leaves their number at the fewest that
      `maxFragmentLen` allows, none longer than that, and no shorter length would
      give as few. */
  lemma {:induction false} CutIsFewestAndShortest(len: nat, maxLen: nat, other: nat)
    requires len > 0 && maxLen > 0 && other > 0
    ensures CeilDiv(len, maxLen) > 0
    ensures var fragmentLen := CeilDiv(len, CeilDiv(len, maxLen));
            && 0 < fragmentLen <= maxLen
            && CeilDiv(len, fragmentLen) == CeilDiv(len, maxLen)
            && (CeilDiv(len, other) <= CeilDiv(len, maxLen) ==> fragmentLen <= other)
  {
    CeilDivPositive(len, maxLen);
    var n := CeilDiv(len, maxLen);
    CeilDivPositive(len, n);
    var f := CeilDiv(len, n);
    EvenCut(len, maxLen, n, f, CeilDiv(len, f));
    if CeilDiv(len, other) <= n {
      ShortestCut(len, n, f, other, CeilDiv(len, other));
    }
  }
}
