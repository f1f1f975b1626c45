/** Bytes as small integers, fixed-length integers, and byte-string order. */
module Bytes {
  import opened Options

  newtype byte = b: int | 0 <= b < 256

  const U16: int := 0x1_0000
  const U32: int := 0x1_0000_0000
  const U64: int := 0x1_0000_0000_0000_0000

  /** The number of values of `n` bytes. */
  function Span(n: nat): (p: nat)
    ensures p > 0
  {
    if n == 0 then 1 else 256 * Span(n - 1)
  }

  lemma {:induction false} Spans()
    ensures Span(1) == 0x100 && Span(2) == U16 && Span(4) == U32 && Span(8) == U64
  {
    assert Span(1) == 0x100;
    assert Span(2) == U16;
    assert Span(3) == 0x100_0000;
    assert Span(4) == U32;
    assert Span(5) == 0x100_0000_0000;
    assert Span(6) == 0x1_0000_0000_0000;
    assert Span(7) == 0x100_0000_0000_0000;
  }

  lemma {:induction false} HeadSeparates(v: byte, a: seq<byte>, w: byte, b: seq<byte>)
    requires [v] + a == [w] + b
    ensures v == w && a == b
  {
    assert ([v] + a)[0] == v && ([v] + a)[1..] == a;
    assert ([w] + b)[0] == w && ([w] + b)[1..] == b;
  }

  lemma {:induction false} Regroup(a: seq<byte>, b: seq<byte>, c: seq<byte>)
    ensures a + b + c == a + (b + c)
  {
  }

  // ----- big-endian -----

  /** The last `n` bytes of `v`, most significant first. */
  function Be(v: nat, n: nat): (s: seq<byte>)
    ensures |s| == n
    decreases n
  {
    if n == 0 then [] else Be(v / 256, n - 1) + [(v % 256) as byte]
  }

  function BeValue(s: seq<byte>): (v: nat)
    ensures v < Span(|s|)
  {
    if s == [] then 0 else 256 * BeValue(s[..|s| - 1]) + s[|s| - 1] as nat
  }

  lemma {:induction false} BeReadsBack(v: nat, n: nat)
    requires v < Span(n)
    ensures BeValue(Be(v, n)) == v
    decreases n
  {
    if n > 0 {
      BeReadsBack(v / 256, n - 1);
      assert Be(v, n)[..n - 1] == Be(v / 256, n - 1);
    }
  }

  lemma {:induction false} BeWritesBack(s: seq<byte>)
    ensures Be(BeValue(s), |s|) == s
  {
    if s != [] {
      BeWritesBack(s[..|s| - 1]);
      assert s == s[..|s| - 1] + [s[|s| - 1]];
    }
  }

  // ----- little-endian -----

  /** The first `n` bytes of `v`, least significant first. */
  function Le(v: nat, n: nat): (s: seq<byte>)
    ensures |s| == n
    decreases n
  {
    if n == 0 then [] else [(v % 256) as byte] + Le(v / 256, n - 1)
  }

  function LeValue(s: seq<byte>): (v: nat)
    ensures v < Span(|s|)
  {
    if s == [] then 0 else s[0] as nat + 256 * LeValue(s[1..])
  }

  lemma {:induction false} LeReadsBack(v: nat, n: nat)
    requires v < Span(n)
    ensures LeValue(Le(v, n)) == v
    decreases n
  {
    if n > 0 {
      LeReadsBack(v / 256, n - 1);
      assert Le(v, n)[1..] == Le(v / 256, n - 1);
    }
  }

  // ----- lexicographic order -----

  predicate LexLeq(a: seq<byte>, b: seq<byte>) {
    a == [] || (b != [] && (a[0] < b[0] || (a[0] == b[0] && LexLeq(a[1..], b[1..]))))
  }

  lemma {:induction false} LexTotal(a: seq<byte>, b: seq<byte>)
    ensures LexLeq(a, b) || LexLeq(b, a)
    ensures LexLeq(a, b) && LexLeq(b, a) ==> a == b
  {
    if a != [] && b != [] && a[0] == b[0] {
      LexTotal(a[1..], b[1..]);
      assert a == [a[0]] + a[1..] && b == [b[0]] + b[1..];
    }
  }

  lemma {:induction false} LexTransitive(a: seq<byte>, b: seq<byte>, c: seq<byte>)
    requires LexLeq(a, b) && LexLeq(b, c)
    ensures LexLeq(a, c)
  {
    if a != [] && b[0] == a[0] && c[0] == a[0] {
      LexTransitive(a[1..], b[1..], c[1..]);
    }
  }

  // ----- Bitcoin's CompactSize -----

  function CompactSize(v: nat): (s: seq<byte>)
    ensures s != []
  {
    if v <= 0xfc then [v as byte]
    else if v <= 0xffff then [0xfd] + Le(v, 2)
    else if v <= 0xffff_ffff then [0xfe] + Le(v, 4)
    else [0xff] + Le(v, 8)
  }

  /** A CompactSize is read back from the front of whatever follows it. */
  lemma {:induction false} CompactSizeSeparates(v: nat, w: nat, a: seq<byte>, b: seq<byte>)
    requires v < U64 && w < U64 && CompactSize(v) + a == CompactSize(w) + b
    ensures v == w && a == b
  {
    var x, y := CompactSize(v), CompactSize(w);
    assert (x + a)[0] == (y + b)[0] && x[0] == y[0];
    assert |x| == |y|;
    assert x == (x + a)[..|x|] && y == (y + b)[..|y|];
    assert a == (x + a)[|x|..] && b == (y + b)[|y|..];
    if x[0] >= 0xfd {
      Spans();
      assert x[1..] == Le(v, |x| - 1) && y[1..] == Le(w, |x| - 1);
      LeReadsBack(v, |x| - 1);
      LeReadsBack(w, |x| - 1);
    }
  }
}
