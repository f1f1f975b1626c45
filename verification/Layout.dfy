/** Byte strings read by position, with the bytes of a number spelled out: what the
    formats promise, stated without the functions that write them. */
module Layout {
  import opened Bytes

  /** The little-endian 32-bit number at `at`. */
  ghost function Word4(s: seq<byte>, at: nat): nat
    requires at + 4 <= |s|
  {
    s[at] as nat + 0x100 * s[at + 1] as nat + 0x1_0000 * s[at + 2] as nat + 0x100_0000 * s[at + 3] as nat
  }

  /** The little-endian 64-bit number at `at`. */
  ghost function Word8(s: seq<byte>, at: nat): nat
    requires at + 8 <= |s|
  {
    Word4(s, at) + U32 * Word4(s, at + 4)
  }

  /** `piece` stands at `at`. */
  ghost predicate Holds(s: seq<byte>, at: nat, piece: seq<byte>) {
    at + |piece| <= |s| && forall j :: 0 <= j < |piece| ==> s[at + j] == piece[j]
  }

  /** What is known of `s` from `at` on: a piece, and then the rest. */
  lemma {:induction false} Cut(s: seq<byte>, at: nat, piece: seq<byte>, rest: seq<byte>)
    requires at <= |s| && s[at..] == piece + rest
    ensures Holds(s, at, piece) && at + |piece| <= |s| && s[at + |piece|..] == rest
  {
    assert forall j :: 0 <= j < |piece| ==> s[at + j] == s[at..][j] == piece[j];
    assert s[at + |piece|..] == s[at..][|piece|..] == rest;
  }

  /** The same for a piece within a piece. */
  lemma {:induction false} HoldsWithin(s: seq<byte>, at: nat, piece: seq<byte>, off: nat, inner: seq<byte>)
    requires Holds(s, at, piece) && Holds(piece, off, inner)
    ensures Holds(s, at + off, inner)
  {
    forall j | 0 <= j < |inner| ensures s[at + off + j] == inner[j] {
      assert s[at + (off + j)] == piece[off + j];
    }
  }

  lemma {:induction false} Word4Within(s: seq<byte>, at: nat, piece: seq<byte>, off: nat)
    requires Holds(s, at, piece) && off + 4 <= |piece|
    ensures Word4(s, at + off) == Word4(piece, off)
  {
    assert s[at + (off + 1)] == piece[off + 1] && s[at + (off + 2)] == piece[off + 2] && s[at + (off + 3)] == piece[off + 3];
    assert s[at + (off + 0)] == piece[off + 0];
  }

  lemma {:induction false} Word8Within(s: seq<byte>, at: nat, piece: seq<byte>, off: nat)
    requires Holds(s, at, piece) && off + 8 <= |piece|
    ensures Word8(s, at + off) == Word8(piece, off)
  {
    Word4Within(s, at, piece, off);
    Word4Within(s, at, piece, off + 4);
  }

  // ----- numbers -----

  /** Byte `j` of an `n`-byte little-endian number, by division. */
  lemma {:induction false} LeDigit(v: nat, n: nat, j: nat)
    requires j < n
    ensures Le(v, n)[j] as nat == v / Span(j) % 256
    decreases n
  {
    if j > 0 {
      LeDigit(v / 256, n - 1, j - 1);
      Divisions(v, Span(j - 1));
    }
  }

  /** And of a big-endian one. */
  lemma {:induction false} BeDigit(v: nat, n: nat, j: nat)
    requires j < n
    ensures Be(v, n)[n - 1 - j] as nat == v / Span(j) % 256
    decreases n
  {
    if j > 0 {
      BeDigit(v / 256, n - 1, j - 1);
      Divisions(v, Span(j - 1));
    }
  }

  lemma {:induction false} Divisions(v: nat, p: nat)
    requires p > 0
    ensures v / 256 / p == v / (256 * p)
  {
    var q, r := v / (256 * p), v % (256 * p);
    assert v == 256 * p * q + r;
    var t := r / 256;
    assert t >= p ==> 256 * t >= 256 * p;
    assert t < p;
    assert v / 256 == p * q + r / 256 by {
      assert v == 256 * (p * q) + r;
    }
    assert (p * q + r / 256) / p == q by {
      Quotient(p, q, r / 256);
    }
  }

  lemma {:induction false} Quotient(p: nat, q: nat, r: nat)
    requires r < p
    ensures (p * q + r) / p == q
  {
    var x := (p * q + r) / p;
    assert x < q ==> p * (x + 1) <= p * q;
    assert x > q ==> p * x >= p * (q + 1);
  }

  lemma {:induction false} LeUnfold(s: seq<byte>)
    requires s != []
    ensures LeValue(s) == s[0] as nat + 256 * LeValue(s[1..])
  {
  }

  lemma {:induction false} FirstWord(s: seq<byte>)
    requires |s| >= 4
    ensures LeValue(s) == Word4(s, 0) + U32 * LeValue(s[4..])
  {
    hide LeValue;
    LeUnfold(s);
    LeUnfold(s[1..]);
    LeUnfold(s[2..]);
    LeUnfold(s[3..]);
    assert s[1..][1..] == s[2..] && s[2..][1..] == s[3..] && s[3..][1..] == s[4..];
  }

  lemma {:induction false} LeIsWord4(v: nat)
    requires v < U32
    ensures Word4(Le(v, 4), 0) == v
  {
    hide Le;
    var s := Le(v, 4);
    Spans();
    LeReadsBack(v, 4);
    FirstWord(s);
    assert s[4..] == [];
  }

  lemma {:induction false} LeIsWord8(v: nat)
    requires v < U64
    ensures Word8(Le(v, 8), 0) == v
  {
    hide Le;
    var s := Le(v, 8);
    Spans();
    LeReadsBack(v, 8);
    FirstWord(s);
    FirstWord(s[4..]);
    assert s[4..][4..] == [];
  }

  // ----- CompactSize -----

  ghost function SizeLen(v: nat): nat {
    if v <= 0xfc then 1 else if v <= 0xffff then 3 else if v <= 0xffff_ffff then 5 else 9
  }

  /** The CompactSize of `v` stands at `at`: one byte, or a marker and a number of two, four or
      eight bytes. */
  ghost predicate SizeAt(s: seq<byte>, at: nat, v: nat) {
    && at + SizeLen(v) <= |s|
    && if v <= 0xfc then s[at] as nat == v
       else if v <= 0xffff then s[at] == 0xfd && s[at + 1] as nat + 0x100 * s[at + 2] as nat == v
       else if v <= 0xffff_ffff then s[at] == 0xfe && Word4(s, at + 1) == v
       else s[at] == 0xff && Word8(s, at + 1) == v
  }

  lemma {:induction false} CompactSizeBytes(v: nat)
    requires v < U64
    ensures |CompactSize(v)| == SizeLen(v) && SizeAt(CompactSize(v), 0, v)
  {
    hide Le, Word4, Word8;
    var s := CompactSize(v);
    if 0xfc < v <= 0xffff {
      LeIsWord2(v);
    } else if 0xffff < v <= 0xffff_ffff {
      LeIsWord4(v);
      Word4Within(s, 1, Le(v, 4), 0);
    } else if v > 0xffff_ffff {
      LeIsWord8(v);
      Word8Within(s, 1, Le(v, 8), 0);
    }
  }

  lemma {:induction false} LeIsWord2(v: nat)
    requires v < U16
    ensures Le(v, 2)[0] as nat + 0x100 * Le(v, 2)[1] as nat == v
  {
    LeDigit(v, 2, 0);
    LeDigit(v, 2, 1);
    assert Span(0) == 1 && Span(1) == 0x100;
  }

  lemma {:induction false} SizeWithin(s: seq<byte>, at: nat, piece: seq<byte>, off: nat, v: nat)
    requires Holds(s, at, piece) && SizeAt(piece, off, v)
    ensures SizeAt(s, at + off, v)
  {
    hide Word4, Word8;
    assert s[at + off] == piece[off];
    if 0xfc < v <= 0xffff {
      assert s[at + (off + 1)] == piece[off + 1] && s[at + (off + 2)] == piece[off + 2];
    } else if 0xffff < v <= 0xffff_ffff {
      Word4Within(s, at, piece, off + 1);
    } else if v > 0xffff_ffff {
      Word8Within(s, at, piece, off + 1);
    }
  }

  // ----- lexicographic order -----

  /** `a` comes before `b`: they differ first at `i`, where `a` has the smaller byte. */
  ghost predicate Before(a: seq<byte>, b: seq<byte>, i: nat) {
    i < |a| && i < |b| && a[..i] == b[..i] && a[i] < b[i]
  }

  lemma {:induction false} BeforeIsLeq(a: seq<byte>, b: seq<byte>, i: nat)
    requires Before(a, b, i)
    ensures LexLeq(a, b) && !LexLeq(b, a)
  {
    if i > 0 {
      assert a[0] == a[..i][0] == b[..i][0] == b[0];
      assert a[1..][..i - 1] == a[..i][1..] == b[..i][1..] == b[1..][..i - 1];
      BeforeIsLeq(a[1..], b[1..], i - 1);
    }
  }

  lemma {:induction false} SomeDifference(a: seq<byte>, b: seq<byte>) returns (i: nat)
    requires |a| == |b| && a != b
    ensures Before(a, b, i) || Before(b, a, i)
  {
    if a[0] != b[0] {
      i := 0;
    } else {
      assert a == [a[0]] + a[1..] && b == [b[0]] + b[1..];
      var k := SomeDifference(a[1..], b[1..]);
      i := k + 1;
      assert a[..i] == [a[0]] + a[1..][..k] && b[..i] == [b[0]] + b[1..][..k];
    }
  }
}
