/** Positional notation in any base up to 256, and the in-place
    multiply-and-carry loop that src/base58.rs converts bases with. */
module Radix {
  import opened Bytes

  // ----- powers -----

  function Pow(b: nat, n: nat): (p: nat)
    ensures b > 0 ==> p > 0
  {
    if n == 0 then 1 else b * Pow(b, n - 1)
  }

  lemma {:induction false} PowStep(b: nat, n: nat)
    requires n > 0
    ensures Pow(b, n) == b * Pow(b, n - 1)
  {
  }

  lemma {:induction false} PowAdd(b: nat, m: nat, n: nat)
    ensures Pow(b, m + n) == Pow(b, m) * Pow(b, n)
  {
    if m > 0 {
      PowAdd(b, m - 1, n);
      MulAssoc(b, Pow(b, m - 1), Pow(b, n));
    }
  }

  lemma {:induction false} PowMul(b: nat, m: nat, n: nat)
    ensures Pow(Pow(b, m), n) == Pow(b, m * n)
  {
    if n > 0 {
      PowMul(b, m, n - 1);
      assert m * n == m + m * (n - 1);
      PowAdd(b, m, m * (n - 1));
    }
  }

  lemma {:induction false} MulAssoc(a: int, b: int, c: int)
    ensures a * (b * c) == (a * b) * c
  {
  }

  lemma {:induction false} Distribute(a: int, b: int, c: int)
    ensures a * (b + c) == a * b + a * c
  {
  }

  lemma {:induction false} MulMonotone(a: nat, b: nat, c: nat, d: nat)
    requires a <= b && c <= d
    ensures a * c <= b * d
  {
    assert a * c <= b * c && b * c <= b * d;
  }

  lemma {:induction false} PowMonotone(a: nat, b: nat, n: nat)
    requires a <= b
    ensures Pow(a, n) <= Pow(b, n)
  {
    if n > 0 {
      PowMonotone(a, b, n - 1);
      MulMonotone(a, b, Pow(a, n - 1), Pow(b, n - 1));
    }
  }

  lemma {:induction false} PowGrows(b: nat, m: nat, n: nat)
    requires b > 1
    ensures m <= n ==> Pow(b, m) <= Pow(b, n)
    ensures m < n ==> Pow(b, m) < Pow(b, n)
  {
    if m <= n {
      PowAdd(b, m, n - m);
      if m < n {
        assert Pow(b, n - m) >= b by {
          MulMonotone(b, b, 1, Pow(b, n - m - 1));
        }
        MulMonotone(Pow(b, m), Pow(b, m), 2, Pow(b, n - m));
      }
    }
  }

  type Base = b: nat | 2 <= b <= 256 witness 2

  lemma {:induction false} SameQuotient(b: nat, p: nat, q: nat, r: nat, s: nat)
    requires b * p + r == b * q + s && r < b && s < b
    ensures p == q && r == s
  {
    if p > q {
      MulMonotone(b, b, q + 1, p);
      Distribute(b, q, 1);
    } else if p < q {
      MulMonotone(b, b, p + 1, q);
      Distribute(b, p, 1);
    }
  }

  lemma {:induction false} DivMod(b: nat, q: nat, r: nat)
    requires r < b
    ensures (r + b * q) % b == r && (r + b * q) / b == q
    ensures q > 0 ==> r + b * q > 0
  {
    var x := r + b * q;
    SameQuotient(b, x / b, q, x % b, r);
    if q > 0 {
      MulMonotone(1, b, 1, q);
    }
  }

  lemma {:induction false} Commute(a: int, b: int)
    ensures a * b == b * a
  {
  }

  lemma {:induction false} DivModLeft(b: nat, q: nat, r: nat)
    requires r < b
    ensures (q * b + r) / b == q && (q * b + r) % b == r
  {
    Commute(b, q);
    DivMod(b, q, r);
  }

  /** What dividing by the base leaves. */
  lemma {:induction false} Divided(b: Base, v: nat)
    ensures v == v % b + b * (v / b) && v % b < b
    ensures v > 0 ==> v / b < v
    ensures v < b ==> v / b == 0
  {
    if v > 0 && v / b > 0 {
      MulMonotone(2, b, v / b, v / b);
    }
  }

  // ----- digits, least significant first -----

  function Value(b: Base, s: seq<byte>): nat {
    if s == [] then 0 else s[0] as nat + b * Value(b, s[1..])
  }

  /** The digits of `v`, without leading zeros. */
  function Digits(b: Base, v: nat): (s: seq<byte>)
    ensures v > 0 <==> s != []
    decreases v
  {
    Divided(b, v);
    if v == 0 then [] else [(v % b) as byte] + Digits(b, v / b)
  }

  ghost predicate Below(b: Base, s: seq<byte>) {
    forall i :: 0 <= i < |s| ==> s[i] as nat < b
  }

  /** Digits of base `b`, the most significant not zero. */
  ghost predicate Canonical(b: Base, s: seq<byte>) {
    Below(b, s) && (s != [] ==> s[|s| - 1] != 0)
  }

  lemma {:induction false} DigitsDenote(b: Base, v: nat)
    ensures Value(b, Digits(b, v)) == v && Canonical(b, Digits(b, v))
    decreases v
  {
    Divided(b, v);
    if v > 0 {
      DigitsDenote(b, v / b);
      var x, rest := (v % b) as byte, Digits(b, v / b);
      assert Digits(b, v) == [x] + rest && ([x] + rest)[1..] == rest;
      assert Value(b, [x] + rest) == x as nat + b * (v / b);
    }
  }

  /** Canonical digits are the digits of their value. */
  lemma {:induction false} DigitsAreUnique(b: Base, s: seq<byte>)
    requires Canonical(b, s)
    ensures Digits(b, Value(b, s)) == s && (s != [] ==> Value(b, s) > 0)
  {
    if s != [] {
      var rest := s[1..];
      DigitsAreUnique(b, rest);
      if rest == [] {
        assert Value(b, s) == s[0] as nat + b * 0;
      }
      DivMod(b, Value(b, rest), s[0] as nat);
      assert s == [s[0]] + rest;
    }
  }

  lemma {:induction false} ValueAppend(b: Base, s: seq<byte>, t: seq<byte>)
    ensures Value(b, s + t) == Value(b, s) + Pow(b, |s|) * Value(b, t)
  {
    if s == [] {
      assert s + t == t;
    } else {
      hide Pow;
      var rest, p, w := s[1..], Pow(b, |s| - 1), Value(b, t);
      assert (s + t)[1..] == rest + t;
      ValueAppend(b, rest, t);
      PowStep(b, |s|);
      Distribute(b, Value(b, rest), p * w);
      MulAssoc(b, p, w);
      assert Value(b, s + t) == s[0] as nat + b * Value(b, rest + t);
    }
  }

  lemma {:induction false} ValueBelow(b: Base, s: seq<byte>)
    requires Below(b, s)
    ensures Value(b, s) < Pow(b, |s|)
  {
    if s != [] {
      ValueBelow(b, s[1..]);
      MulMonotone(b, b, Value(b, s[1..]) + 1, Pow(b, |s| - 1));
    }
  }

  /** How many digits a value takes. */
  lemma {:induction false} DigitCount(b: Base, v: nat)
    ensures v < Pow(b, |Digits(b, v)|)
    ensures v > 0 ==> Digits(b, v) != [] && Pow(b, |Digits(b, v)| - 1) <= v
    decreases v
  {
    DigitsDenote(b, v);
    ValueBelow(b, Digits(b, v));
    if v > 0 {
      Divided(b, v);
      DigitCount(b, v / b);
      var n := |Digits(b, v)|;
      assert n == 1 + |Digits(b, v / b)|;
      if v / b > 0 {
        hide Pow;
        PowStep(b, n - 1);
        MulMonotone(b, b, Pow(b, n - 2), v / b);
      }
    }
  }

  lemma {:induction false} FewDigits(b: Base, v: nat, n: nat)
    ensures |Digits(b, v)| <= n <==> v < Pow(b, n)
  {
    DigitCount(b, v);
    PowGrows(b, |Digits(b, v)|, n);
    if v > 0 {
      PowGrows(b, n, |Digits(b, v)| - 1);
    }
  }

  lemma {:induction false} MoreDigits(b: Base, v: nat, w: nat)
    requires v <= w
    ensures |Digits(b, v)| <= |Digits(b, w)|
  {
    FewDigits(b, w, |Digits(b, w)|);
    FewDigits(b, v, |Digits(b, w)|);
  }

  // ----- most significant first -----

  function Rev(s: seq<byte>): (r: seq<byte>)
    ensures |r| == |s|
    ensures forall i :: 0 <= i < |s| ==> r[i] == s[|s| - 1 - i]
  {
    if s == [] then [] else [s[|s| - 1]] + Rev(s[..|s| - 1])
  }

  lemma {:induction false} RevTwice(s: seq<byte>)
    ensures Rev(Rev(s)) == s
  {
  }

  /** The value of a string of digits, read from the front. */
  function BigValue(b: Base, s: seq<byte>): nat {
    if s == [] then 0 else BigValue(b, s[..|s| - 1]) * b + s[|s| - 1] as nat
  }

  lemma {:induction false} BigValueIsValue(b: Base, s: seq<byte>)
    ensures BigValue(b, s) == Value(b, Rev(s))
  {
    if s != [] {
      BigValueIsValue(b, s[..|s| - 1]);
      assert Rev(s)[1..] == Rev(s[..|s| - 1]);
    }
  }

  /** A string of digits not starting with zero is read back from its value. */
  lemma {:induction false} BigDigits(b: Base, s: seq<byte>)
    requires Below(b, s) && (s != [] ==> s[0] != 0)
    ensures Rev(Digits(b, BigValue(b, s))) == s
  {
    BigValueIsValue(b, s);
    DigitsAreUnique(b, Rev(s));
    RevTwice(s);
  }

  lemma {:induction false} BigOfDigits(b: Base, v: nat)
    ensures BigValue(b, Rev(Digits(b, v))) == v
  {
    DigitsDenote(b, v);
    BigValueIsValue(b, Rev(Digits(b, v)));
    RevTwice(Digits(b, v));
  }

  lemma {:induction false} BigValueBelow(b: Base, s: seq<byte>)
    requires Below(b, s)
    ensures BigValue(b, s) < Pow(b, |s|)
  {
    BigValueIsValue(b, s);
    ValueBelow(b, Rev(s));
  }

  /** Reading on only makes the value larger. */
  lemma {:induction false} BigValueGrows(b: Base, s: seq<byte>, k: nat)
    requires k <= |s|
    ensures BigValue(b, s[..k]) <= BigValue(b, s)
  {
    hide BigValue;
    if k < |s| {
      BigValueGrows(b, s[..|s| - 1], k);
      assert s[..|s| - 1][..k] == s[..k];
      BigStep(b, s);
    } else {
      assert s[..k] == s;
    }
  }

  lemma {:induction false} BigStep(b: Base, s: seq<byte>)
    requires s != []
    ensures BigValue(b, s[..|s| - 1]) <= BigValue(b, s)
  {
    MulMonotone(BigValue(b, s[..|s| - 1]), BigValue(b, s[..|s| - 1]), 1, b);
  }

  // ----- the conversion, in place -----

  /** Multiplies the `len` digits at `out[from..]` by `m`, and adds `c`; what is left
      over is the carry. */
  method MultiplyAdd(out: array<byte>, from: nat, len: nat, b: Base, m: Base, c: nat) returns (carry: nat)
    requires from + len <= out.Length && c < m && Below(b, out[from..from + len])
    modifies out
    ensures carry < m && Below(b, out[from..from + len])
    ensures Value(b, out[from..from + len]) + Pow(b, len) * carry == Value(b, old(out[from..from + len])) * m + c
    ensures out[..from] == old(out[..from])
  {
    hide Value, Pow;
    carry := c;
    ghost var was := out[from..from + len];
    NothingYet(b, m, c);
    for i := 0 to len
      invariant carry < m
      invariant forall j :: from + i <= j < from + len ==> out[j] == was[j - from]
      invariant forall j :: 0 <= j < from ==> out[j] == old(out[j])
      invariant Below(b, out[from..from + i])
      invariant Value(b, out[from..from + i]) + Pow(b, i) * carry == Value(b, was[..i]) * m + c
    {
      ghost var done, before := out[from..from + i], carry;
      var d := out[from + i] as nat;
      assert d == was[i] as nat && d < b;
      var sum := carry + d * m;
      CarryBelow(b, m, carry, d);
      Divided(b, sum);
      out[from + i] := (sum % b) as byte;
      carry := sum / b;
      assert out[from..from + i] == done;
      assert out[from..from + i + 1] == done + [out[from + i]] && was[..i + 1] == was[..i] + [was[i]];
      OneMoreDigit(b, m, done, was[..i], out[from + i], was[i], before, carry, c);
    }
    assert was[..len] == was;
  }

  lemma {:induction false} NothingYet(b: Base, m: nat, c: nat)
    ensures Value(b, []) + Pow(b, 0) * c == Value(b, []) * m + c
  {
  }

  lemma {:induction false} CarryBelow(b: nat, m: nat, carry: nat, d: nat)
    requires 0 < m && d < b && carry < m
    ensures (carry + d * m) / b < m
  {
    assert carry + d * m < b * m by {
      MulMonotone(d + 1, b, m, m);
      assert (d + 1) * m == d * m + m;
    }
    assert (carry + d * m) / b < m by {
      var q := (carry + d * m) / b;
      if q >= m {
        MulMonotone(b, b, m, q);
      }
    }
  }

  lemma {:induction false} OneMoreDigit(b: Base, m: nat, done: seq<byte>, was: seq<byte>, x: byte, d: byte, before: nat, carry: nat, c: nat)
    requires |done| == |was| && Value(b, done) + Pow(b, |done|) * before == Value(b, was) * m + c
    requires x as nat + b * carry == before + d as nat * m
    ensures Value(b, done + [x]) + Pow(b, |done| + 1) * carry == Value(b, was + [d]) * m + c
  {
    hide Value, Pow;
    var p := Pow(b, |done|);
    AppendDigit(b, done, x);
    AppendDigit(b, was, d);
    PowStep(b, |done| + 1);
    Regrouped(p, b, x as nat, carry, before, d as nat, m, Value(b, was), Value(b, done), c);
  }

  lemma {:induction false} AppendDigit(b: Base, s: seq<byte>, x: byte)
    ensures Value(b, s + [x]) == Value(b, s) + Pow(b, |s|) * x as nat
  {
    ValueAppend(b, s, [x]);
    assert Value(b, [x]) == x as nat;
  }

  lemma {:induction false} Regrouped(p: nat, b: nat, x: nat, carry: nat, before: nat, d: nat, m: nat, v: nat, w: nat, c: nat)
    requires w + p * before == v * m + c && x + b * carry == before + d * m
    ensures (w + p * x) + (b * p) * carry == (v + p * d) * m + c
  {
    assert (b * p) * carry == p * (b * carry) by {
      MulAssoc(p, b, carry);
    }
    assert p * x + p * (b * carry) == p * (x + b * carry);
    assert p * (before + d * m) == p * before + p * (d * m);
    assert (v + p * d) * m == v * m + p * (d * m) by {
      MulAssoc(p, d, m);
    }
  }

  /** Appends the digits of the carry. Tells whether they fitted. */
  method AppendCarry(out: array<byte>, from: nat, len0: nat, b: Base, carry0: nat) returns (len: nat, fits: bool)
    requires from + len0 <= out.Length && Below(b, out[from..from + len0])
    modifies out
    ensures from + len0 <= from + len <= out.Length && out[..from] == old(out[..from])
    ensures fits ==> Below(b, out[from..from + len])
    ensures fits ==> Value(b, out[from..from + len]) == Value(b, old(out[from..from + len0])) + Pow(b, len0) * carry0
    ensures fits ==> len == len0 || out[from + len - 1] != 0
    ensures !fits ==> Value(b, old(out[from..from + len0])) + Pow(b, len0) * carry0 >= Pow(b, out.Length - from)
  {
    hide Value, Pow;
    len := len0;
    var carry: nat := carry0;
    ghost var total := Value(b, out[from..from + len0]) + Pow(b, len0) * carry0;
    while carry > 0
      invariant from + len0 <= from + len <= out.Length && Below(b, out[from..from + len])
      invariant forall j :: 0 <= j < from ==> out[j] == old(out[j])
      invariant Value(b, out[from..from + len]) + Pow(b, len) * carry == total
      invariant carry == 0 ==> len == len0 || out[from + len - 1] != 0
      decreases carry
    {
      if from + len == out.Length {
        MulMonotone(Pow(b, len), Pow(b, len), 1, carry);
        return len, false;
      }
      ghost var done, before := out[from..from + len], carry;
      Divided(b, carry);
      out[from + len] := (carry % b) as byte;
      carry := carry / b;
      assert out[from..from + len] == done && out[from..from + len + 1] == done + [out[from + len]];
      CarryDigit(b, done, out[from + len], before, carry);
      len := len + 1;
    }
    assert Pow(b, len) * carry == 0;
    fits := true;
  }

  lemma {:induction false} CarryDigit(b: Base, done: seq<byte>, x: byte, before: nat, carry: nat)
    requires before == x as nat + b * carry
    ensures Value(b, done + [x]) + Pow(b, |done| + 1) * carry == Value(b, done) + Pow(b, |done|) * before
  {
    hide Value, Pow;
    var p := Pow(b, |done|);
    AppendDigit(b, done, x);
    PowStep(b, |done| + 1);
    MulAssoc(p, b, carry);
    assert p * (x as nat + b * carry) == p * (x as nat) + p * (b * carry);
  }

  /** One more digit, of base `m`, of what is converted: the digits at `out[from..]`
      denote the value read so far, and go on doing so. */
  method Push(out: array<byte>, from: nat, len0: nat, b: Base, m: Base, c: byte, ghost v: nat) returns (len: nat, fits: bool)
    requires from + len0 <= out.Length && c as nat < m && out[from..from + len0] == Digits(b, v)
    modifies out
    ensures fits <==> |Digits(b, v * m + c as nat)| <= out.Length - from
    ensures fits ==> from + len <= out.Length && out[from..from + len] == Digits(b, v * m + c as nat)
    ensures out[..from] == old(out[..from])
  {
    ghost var w := v * m + c as nat;
    DigitsDenote(b, v);
    var carry := MultiplyAdd(out, from, len0, b, m, c as nat);
    len, fits := AppendCarry(out, from, len0, b, carry);
    FewDigits(b, w, out.Length - from);
    if fits {
      ghost var s := out[from..from + len];
      if len == len0 > 0 {
        TopStays(b, s, v, w, m);
      }
      assert Canonical(b, s);
      DigitsAreUnique(b, s);
    }
  }

  /** A value that has grown has not lost its top digit. */
  lemma {:induction false} TopStays(b: Base, s: seq<byte>, v: nat, w: nat, m: Base)
    requires s != [] && Below(b, s) && Value(b, s) == w && w >= v * m && |Digits(b, v)| == |s|
    ensures s[|s| - 1] != 0
  {
    var k := |s| - 1;
    DigitCount(b, v);
    MulMonotone(v, v, 1, m);
    if s[k] == 0 {
      assert s == s[..k] + [s[k]];
      ValueAppend(b, s[..k], [s[k]]);
      assert Value(b, [s[k]]) == 0;
      ValueBelow(b, s[..k]);
    }
  }

  /** `reverse`, in place. */
  method Reverse(out: array<byte>, from: nat, len: nat)
    requires from + len <= out.Length
    modifies out
    ensures out[from..from + len] == Rev(old(out[from..from + len])) && out[..from] == old(out[..from])
  {
    hide *;
    var i := 0;
    while i < len / 2
      invariant 0 <= i <= len / 2
      invariant forall j :: 0 <= j < from ==> out[j] == old(out[j])
      invariant forall j :: from <= j < from + len ==>
        out[j] == if from + i <= j < from + len - i then old(out[j]) else old(out[2 * from + len - 1 - j])
    {
      out[from + i], out[from + (len - 1 - i)] := out[from + (len - 1 - i)], out[from + i];
      i := i + 1;
    }
    ghost var was, now := old(out[from..from + len]), out[from..from + len];
    assert forall k :: 0 <= k < len ==> was[k] == old(out[from + k]);
    forall k | 0 <= k < len ensures now[k] == was[len - 1 - k] {
      assert now[k] == out[from + k];
    }
    assert now == Rev(was);
  }
}
