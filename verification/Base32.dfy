/** The base32 of src/bbqr.rs: eight characters for five bytes, a word of 40 bits at
    a time, against the regrouping of the whole string of bits. */
module Base32 {
  import opened Options
  import opened Bytes
  import opened Radix
  import opened BitGroups
  import opened Ceiling

  // ----- the alphabet -----

  function Letter(v: byte): byte
    requires v < 32
  {
    if v < 26 then 65 + v else 24 + v
  }

  function Upper(c: byte): byte {
    if 97 <= c <= 122 then c - 32 else c
  }

  /** The value of a character, in either case. */
  function ValueOf(c: byte): (v: Option<byte>)
    ensures v.Some? ==> v.value < 32 && Letter(v.value) == Upper(c)
  {
    var u := Upper(c);
    if 65 <= u <= 90 then Some(u - 65) else if 50 <= u <= 55 then Some(u - 24) else None
  }

  lemma {:induction false} LetterReadsBack(v: byte)
    requires v < 32
    ensures ValueOf(Letter(v)) == Some(v)
  {
  }

  ghost predicate FiveBit(vals: seq<byte>) {
    forall i :: 0 <= i < |vals| ==> vals[i] < 32
  }

  function Spell(vals: seq<byte>): (t: seq<byte>)
    requires FiveBit(vals)
    ensures |t| == |vals| && forall i :: 0 <= i < |t| ==> t[i] == Letter(vals[i])
  {
    seq(|vals|, i requires 0 <= i < |vals| => Letter(vals[i]))
  }

  ghost predicate AllLetters(t: seq<byte>) {
    forall i :: 0 <= i < |t| ==> ValueOf(t[i]).Some?
  }

  function Values(t: seq<byte>): (vals: seq<byte>)
    requires AllLetters(t)
    ensures |vals| == |t| && FiveBit(vals) && forall i :: 0 <= i < |t| ==> ValueOf(t[i]) == Some(vals[i])
  {
    seq(|t|, i requires 0 <= i < |t| => ValueOf(t[i]).value)
  }

  // ----- what base32 stands for -----

  lemma {:induction false} SymbolPowers()
    ensures Pow(2, 5) == 32 && Pow(2, 8) == 256
  {
    assert Pow(2, 2) == 4 && Pow(2, 4) == 16;
    PowAdd(2, 4, 4);
  }

  /** The symbols of `data`. */
  function Symbols(data: seq<byte>): (vals: seq<byte>)
    ensures FiveBit(vals)
  {
    PaddedFits(Expand(data, 8), 5);
    SymbolPowers();
    Padded(Expand(data, 8), 5)
  }

  function Encoded(data: seq<byte>): seq<byte> {
    Spell(Symbols(data))
  }

  /** The bytes of a text, if it has any. */
  ghost function Decoded(t: seq<byte>): Option<seq<byte>> {
    if !AllLetters(t) then None
    else
      match Unpadded(Expand(Values(t), 5), 5, 8)
      case Good(data) => Some(data)
      case BadPadding => None
  }

  lemma {:induction false} BytesFit(data: seq<byte>)
    ensures Fit(data, 8)
  {
    SymbolPowers();
  }

  lemma {:induction false} DecodeInvertsEncode(data: seq<byte>)
    ensures Decoded(Encoded(data)) == Some(data)
  {
    hide Padded, Expand, Unpadded, ValueOf, Letter;
    BytesFit(data);
    RegroupsBack(data, 8, 5);
    var t, vals := Encoded(data), Symbols(data);
    forall i | 0 <= i < |t| ensures ValueOf(t[i]) == Some(vals[i]) {
      LetterReadsBack(vals[i]);
    }
    assert Values(t) == vals;
  }

  function UpperAll(t: seq<byte>): (u: seq<byte>)
    ensures |u| == |t| && forall i :: 0 <= i < |t| ==> u[i] == Upper(t[i])
  {
    seq(|t|, i requires 0 <= i < |t| => Upper(t[i]))
  }

  lemma {:induction false} EncodeInvertsDecode(t: seq<byte>)
    requires Decoded(t).Some?
    ensures Encoded(Decoded(t).value) == UpperAll(t)
  {
    hide Padded, Expand, Unpadded, ValueOf, Letter, Upper;
    SymbolPowers();
    RegroupsOnlyBack(Values(t), 8, 5);
    assert Symbols(Decoded(t).value) == Values(t);
    forall i | 0 <= i < |t| ensures Spell(Values(t))[i] == UpperAll(t)[i] {
      assert Letter(ValueOf(t[i]).value) == Upper(t[i]) by {
        Spelled(t[i]);
      }
    }
  }

  lemma {:induction false} Spelled(c: byte)
    requires ValueOf(c).Some?
    ensures ValueOf(c).value < 32 && Letter(ValueOf(c).value) == Upper(c)
  {
  }

  // ----- words of 40 bits -----

  lemma {:induction false} ExpandLength(data: seq<byte>, n: Width)
    ensures |Expand(data, n)| == |data| * n
  {
    if data != [] {
      ExpandLength(data[1..], n);
      assert (|data| - 1) * n + n == |data| * n;
    }
  }

  /** Big-endian bytes are the bits of their value. */
  lemma {:induction false} BeIsBits(s: seq<byte>)
    ensures BeValue(s) == FromBits(Expand(s, 8))
  {
    hide FromBits, Expand, ToBits, Pow;
    if s == [] {
      NoBits();
    } else {
      var front, last := s[..|s| - 1], s[|s| - 1];
      BeIsBits(front);
      assert s == front + [last];
      ExpandAppend(front, [last], 8);
      ExpandOne(last, 8);
      FromBitsAppend(Expand(front, 8), ToBits(last as nat, 8));
      SymbolPowers();
      BitsReadBack(last as nat, 8);
    }
  }

  lemma {:induction false} NoBits()
    ensures FromBits(Expand([], 8)) == 0
  {
  }

  /** A group of bits is a field of the number they make. */
  lemma {:induction false} FieldOf(a: seq<bool>, b: seq<bool>, c: seq<bool>)
    ensures FromBits(a + b + c) / Pow(2, |c|) % Pow(2, |b|) == FromBits(b)
  {
    hide FromBits, Pow;
    FromBitsAppend(a + b, c);
    FromBitsAppend(a, b);
    FromBitsBelow(b);
    FromBitsBelow(c);
    Fields(FromBits(a), FromBits(b), FromBits(c), Pow(2, |b|), Pow(2, |c|));
  }

  lemma {:induction false} Fields(a: nat, b: nat, c: nat, m: nat, n: nat)
    requires b < m && c < n
    ensures ((a * m + b) * n + c) / n % m == b
  {
    DivModLeft(n, a * m + b, c);
    DivModLeft(m, a, b);
  }

  lemma {:induction false} GroupAt(s: seq<bool>, n: Width, j: nat)
    requires (j + 1) * n <= |s|
    ensures 0 <= j * n <= j * n + n <= |s| && j < |Groups(s, n)| && Groups(s, n)[j] == ByteOf(s[j * n..j * n + n])
    decreases j
  {
    hide ByteOf;
    assert (j + 1) * n == j * n + n;
    if j > 0 {
      assert j * n == (j - 1) * n + n;
      GroupAt(s[n..], n, j - 1);
      assert s[n..][(j - 1) * n..(j - 1) * n + n] == s[j * n..j * n + n];
    }
  }

  lemma {:induction false} TailOfWhole(s: seq<bool>, n: Width, k: nat)
    requires |s| == k * n
    ensures Tail(s, n) == [] && |Groups(s, n)| == k
    decreases k
  {
    if k > 0 {
      assert k * n == (k - 1) * n + n;
      TailOfWhole(s[n..], n, k - 1);
    } else {
      assert s == [];
    }
  }

  lemma {:induction false} PaddedAppend(s: seq<bool>, x: seq<bool>, n: Width)
    requires Tail(s, n) == []
    ensures Padded(s + x, n) == Groups(s, n) + Padded(x, n)
  {
    hide Groups, Tail;
    GroupsAppend(s, x, n);
    assert [] + x == x;
  }

  /** Filling up the last group is filling up the whole string. */
  lemma {:induction false} PaddedIsFilled(s: seq<bool>, n: Width, k: nat)
    requires |Tail(s, n)| + k == n
    ensures Tail(s, n) != [] ==> Padded(s, n) == Groups(s + Zeros(k), n) && Tail(s + Zeros(k), n) == []
  {
    hide ByteOf, FromBits;
    GroupsAppend(s, Zeros(k), n);
    var full := Tail(s, n) + Zeros(k);
    assert full[..n] == full && full[n..] == [];
  }

  /** The characters of a chunk are the first fields of its word. */
  lemma {:induction false} WordFields(chunk: seq<byte>, word: seq<byte>, j: nat)
    requires |chunk| <= 5 && |word| == 5 && word[..|chunk|] == chunk && (forall i :: |chunk| <= i < 5 ==> word[i] == 0)
    requires j < |Symbols(chunk)|
    ensures |Symbols(chunk)| <= 8
    ensures BeValue(word) / Pow(2, 35 - 5 * j) % 32 == Symbols(chunk)[j] as nat
  {
    hide FromBits, Pow, Groups, Tail, Expand, Padded, ByteOf;
    var b := Expand(word, 8);
    ExpandLength(word, 8);
    TailOfWhole(b, 5, 8);
    SymbolsArePrefix(chunk, word);
    GroupAt(b, 5, j);
    var x, y, z := b[..5 * j], b[5 * j..5 * j + 5], b[5 * j + 5..];
    assert b == x + y + z;
    FieldOf(x, y, z);
    BeIsBits(word);
    SymbolPowers();
    assert Symbols(chunk)[j] == Groups(b, 5)[j];
  }

  lemma {:induction false} SymbolsArePrefix(chunk: seq<byte>, word: seq<byte>)
    requires |chunk| <= 5 && |word| == 5 && word[..|chunk|] == chunk && (forall i :: |chunk| <= i < 5 ==> word[i] == 0)
    ensures Symbols(chunk) <= Groups(Expand(word, 8), 5)
  {
    hide FromBits, Groups, Tail, ByteOf, Expand, ToBits;
    var rest := word[|chunk|..];
    assert word == chunk + rest;
    ExpandAppend(chunk, rest, 8);
    ZeroBytes(rest);
    var e := Expand(chunk, 8);
    var z := Zeros(8 * |rest|);
    if Tail(e, 5) == [] {
      GroupsAppend(e, z, 5);
      assert Groups(e, 5) + [] == Groups(e, 5);
    } else {
      var k := 5 - |Tail(e, 5)|;
      ShortTail(chunk);
      PaddedIsFilled(e, 5, k);
      assert z == Zeros(k) + Zeros(8 * |rest| - k);
      assert e + z == (e + Zeros(k)) + Zeros(8 * |rest| - k);
      GroupsAppend(e + Zeros(k), Zeros(8 * |rest| - k), 5);
    }
  }

  lemma {:induction false} ZeroBytes(s: seq<byte>)
    requires forall i :: 0 <= i < |s| ==> s[i] == 0
    ensures Expand(s, 8) == Zeros(8 * |s|)
  {
    hide ToBits;
    if s != [] {
      ZeroBytes(s[1..]);
      ZeroByte();
      assert Zeros(8 * |s|) == Zeros(8) + Zeros(8 * (|s| - 1));
    }
  }

  lemma {:induction false} ZeroByte()
    ensures ToBits(0, 8) == Zeros(8)
  {
    ZeroIsNoBits(ToBits(0, 8));
    SymbolPowers();
    BitsReadBack(0, 8);
  }

  /** A chunk with bits left over has room for the padding in its word. */
  lemma {:induction false} ShortTail(chunk: seq<byte>)
    requires |chunk| <= 5 && Tail(Expand(chunk, 8), 5) != []
    ensures |chunk| < 5
  {
    hide Tail, Expand;
    if |chunk| == 5 {
      ExpandLength(chunk, 8);
      TailOfWhole(Expand(chunk, 8), 5, 8);
    }
  }

  // ----- encoding, a word at a time -----

  /** `encoded_len`, of base32. */
  lemma {:induction false} EncodedLength(data: seq<byte>)
    ensures |Encoded(data)| == CeilDiv(8 * |data|, 5)
  {
    hide Padded, Expand, FromBits;
    var s := Expand(data, 8);
    ExpandLength(data, 8);
    ExpandPadded(s, 5);
    var k: nat :| k < 5 && Expand(Padded(s, 5), 5) == s + Zeros(k);
    ExpandLength(Padded(s, 5), 5);
    CeilIsLeast(|Padded(s, 5)|, |s|, 5, CeilDiv(|s|, 5));
    CeilIsLeast(CeilDiv(|s|, 5), |s|, 5, |Padded(s, 5)|);
  }

  /** Five bytes are encoded on their own. */
  lemma {:induction false} EncodedSplits(chunk: seq<byte>, rest: seq<byte>)
    requires |chunk| == 5 || rest == []
    ensures Encoded(chunk + rest) == Encoded(chunk) + Encoded(rest)
  {
    hide Groups, Tail, Expand, Letter;
    if |chunk| == 5 {
      var e, x := Expand(chunk, 8), Expand(rest, 8);
      ExpandLength(chunk, 8);
      TailOfWhole(e, 5, 8);
      ExpandAppend(chunk, rest, 8);
      PaddedAppend(e, x, 5);
      assert Groups(e, 5) + [] == Groups(e, 5);
      assert Symbols(chunk + rest) == Symbols(chunk) + Symbols(rest);
    } else {
      NothingEncoded();
      assert chunk + rest == chunk;
      assert Encoded(chunk) + [] == Encoded(chunk);
    }
  }

  lemma {:induction false} NothingEncoded()
    ensures Encoded([]) == []
  {
    EncodedLength([]);
  }

  /** The characters of at most five bytes. */
  method EncodeChunk(chunk: seq<byte>) returns (t: seq<byte>)
    requires |chunk| <= 5
    ensures t == Encoded(chunk)
  {
    hide Symbols, Pow, Letter, BeValue;
    var word := chunk + seq(5 - |chunk|, _ => 0 as byte);
    var bits, n := BeValue(word), CeilDiv(8 * |chunk|, 5);
    EncodedLength(chunk);
    t := [];
    for j := 0 to n
      invariant t == Encoded(chunk)[..j]
    {
      WordFields(chunk, word, j);
      t := t + [Letter((bits / Pow(2, 35 - 5 * j) % 32) as byte)];
    }
    assert Encoded(chunk)[..n] == Encoded(chunk);
  }

  method EncodeBase32(data: seq<byte>) returns (t: seq<byte>)
    ensures t == Encoded(data)
  {
    hide Encoded;
    t := [];
    var pos := 0;
    assert data[0..] == data;
    while pos < |data|
      invariant 0 <= pos <= |data|
      invariant t + Encoded(data[pos..]) == Encoded(data)
    {
      var end := if pos + 5 <= |data| then pos + 5 else |data|;
      var chunk := EncodeChunk(data[pos..end]);
      EncodedSplits(data[pos..end], data[end..]);
      assert data[pos..] == data[pos..end] + data[end..];
      assert t + (chunk + Encoded(data[end..])) == t + chunk + Encoded(data[end..]);
      t, pos := t + chunk, end;
    }
    NothingEncoded();
    assert data[|data|..] == [] && t + [] == t;
  }

  // ----- decoding, a word at a time -----

  lemma {:induction false} TailLength(s: seq<bool>, n: Width)
    ensures |Tail(s, n)| == |s| % n
    decreases |s|
  {
    if |s| >= n {
      TailLength(s[n..], n);
      SameRest(|s|, n);
    }
  }

  lemma {:induction false} SameRest(a: nat, n: nat)
    requires a >= n > 0
    ensures a % n == (a - n) % n
  {
    Quotient(a - n, n);
    var q := (a - n) / n;
    assert a == (a - n) % n + n * (q + 1);
    DivMod(n, q + 1, (a - n) % n);
  }

  /** One, three and six characters past whole words leave five bits or more. */
  lemma {:induction false} GoodLengths(vals: seq<byte>)
    ensures |Tail(Expand(vals, 5), 8)| >= 5 <==> |vals| % 8 == 1 || |vals| % 8 == 3 || |vals| % 8 == 6
    ensures |Groups(Expand(vals, 5), 8)| == |vals| * 5 / 8
  {
    hide Tail, Expand, Groups;
    ExpandLength(vals, 5);
    TailLength(Expand(vals, 5), 8);
    ExpandGroups(Expand(vals, 5), 8);
    ExpandLength(Groups(Expand(vals, 5), 8), 8);
  }

  /** The fold over the characters of a chunk. */
  function Folded(vals: seq<byte>): nat {
    if vals == [] then 0 else Folded(vals[..|vals| - 1]) * 32 + vals[|vals| - 1] as nat
  }

  lemma {:induction false} FoldedIsBits(vals: seq<byte>)
    requires FiveBit(vals)
    ensures Folded(vals) == FromBits(Expand(vals, 5))
  {
    hide FromBits, Expand, ToBits, Pow;
    if vals == [] {
      NoFold();
    } else {
      var front, last := vals[..|vals| - 1], vals[|vals| - 1];
      FoldedIsBits(front);
      assert vals == front + [last];
      ExpandAppend(front, [last], 5);
      ExpandOne(last, 5);
      FromBitsAppend(Expand(front, 5), ToBits(last as nat, 5));
      SymbolPowers();
      BitsReadBack(last as nat, 5);
    }
  }

  lemma {:induction false} NoFold()
    ensures FromBits(Expand([], 5)) == 0
  {
  }

  /** The bytes of the word of a chunk: those it stands for, and the bits left over. */
  lemma {:induction false} WordBytes(vals: seq<byte>)
    requires FiveBit(vals) && |vals| <= 8
    ensures var e, word := Expand(vals, 5), Be(Folded(vals) * Pow(2, 40 - 5 * |vals|), 5);
            var q := |Groups(e, 8)|;
            && q <= 5 && word[..q] == Groups(e, 8)
            && ((forall i :: q <= i < 5 ==> word[i] == 0) <==> FromBits(Tail(e, 8)) == 0)
  {
    hide FromBits, Expand, ToBits, Pow, Groups, Tail, Be, BeValue, Folded, ByteOf;
    var e, k := Expand(vals, 5), 40 - 5 * |vals|;
    ExpandLength(vals, 5);
    FoldedIsBits(vals);
    ZeroIsNoBits(Zeros(k));
    FromBitsAppend(e, Zeros(k));
    var b := e + Zeros(k);
    TailOfWhole(b, 8, 5);
    ExpandGroups(b, 8);
    assert Expand(Groups(b, 8), 8) + [] == Expand(Groups(b, 8), 8);
    BeIsBits(Groups(b, 8));
    BeWritesBack(Groups(b, 8));
    GroupsAppend(e, Zeros(k), 8);
    RestIsZero(Tail(e, 8), k, Groups(b, 8)[|Groups(e, 8)|..]);
  }

  lemma {:induction false} RestIsZero(t: seq<bool>, k: nat, rest: seq<byte>)
    requires rest == Groups(t + Zeros(k), 8) && Tail(t + Zeros(k), 8) == []
    ensures (forall i :: 0 <= i < |rest| ==> rest[i] == 0) <==> FromBits(t) == 0
  {
    hide FromBits, Groups, Tail, Expand, ByteOf;
    var s := t + Zeros(k);
    ZeroIsNoBits(t);
    ExpandGroups(s, 8);
    assert Expand(rest, 8) + [] == Expand(rest, 8);
    if FromBits(t) == 0 {
      assert s == Zeros(|s|);
      forall i | 0 <= i < |rest| ensures rest[i] == 0 {
        ExpandLength(rest, 8);
        GroupAt(s, 8, i);
        ZeroGroup(s[i * 8..i * 8 + 8]);
      }
    }
    if forall i :: 0 <= i < |rest| ==> rest[i] == 0 {
      ZeroBytes(rest);
      assert t == s[..|t|] == Zeros(|t|);
    }
  }

  lemma {:induction false} ZeroGroup(s: seq<bool>)
    requires |s| <= 8 && forall i :: 0 <= i < |s| ==> !s[i]
    ensures ByteOf(s) == 0
  {
    hide FromBits;
    ZeroIsNoBits(s);
    assert s == Zeros(|s|);
  }

  function Prepend(a: seq<byte>, b: Option<seq<byte>>): Option<seq<byte>> {
    if b.None? then None else Some(a + b.value)
  }

  /** Eight characters are decoded on their own. */
  lemma {:induction false} DecodedSplits(t: seq<byte>, rest: seq<byte>)
    requires |t| == 8 || rest == []
    ensures !AllLetters(t) ==> Decoded(t + rest) == None
    ensures AllLetters(t) && (|t| == 8 || Decoded(t).Some?) ==>
              Decoded(t + rest) == Prepend(Groups(Expand(Values(t), 5), 8), Decoded(rest))
  {
    hide FromBits, Groups, Tail, Expand, ValueOf;
    var all := t + rest;
    assert forall i :: 0 <= i < |t| ==> all[i] == t[i];
    if AllLetters(t) {
      assert AllLetters(all) <==> AllLetters(rest) by {
        assert forall i :: 0 <= i < |rest| ==> rest[i] == all[|t| + i];
      }
      if |t| == 8 {
        if AllLetters(rest) {
          assert Values(all) == Values(t) + Values(rest);
          ExpandAppend(Values(t), Values(rest), 5);
          ExpandLength(Values(t), 5);
          TailOfWhole(Expand(Values(t), 5), 8, 5);
          GroupsAppend(Expand(Values(t), 5), Expand(Values(rest), 5), 8);
          assert [] + Expand(Values(rest), 5) == Expand(Values(rest), 5);
        }
      } else {
        assert all == t;
        NothingDecoded();
        assert Groups(Expand(Values(t), 5), 8) + [] == Groups(Expand(Values(t), 5), 8);
      }
    }
  }

  lemma {:induction false} NothingDecoded()
    ensures Decoded([]) == Some([])
  {
    var none: seq<byte> := [];
    assert AllLetters(none) && Values(none) == [];
    assert FromBits([]) == 0;
  }

  /** The values of the characters of a chunk, in one word. */
  method FoldChunk(t: seq<byte>) returns (bits: Option<nat>)
    ensures bits == if AllLetters(t) then Some(Folded(Values(t))) else None
  {
    hide ValueOf;
    var sum: nat := 0;
    for i := 0 to |t|
      invariant AllLetters(t[..i]) && sum == Folded(Values(t[..i]))
    {
      var v := ValueOf(t[i]);
      if v.None? {
        return None;
      }
      assert Values(t[..i + 1])[..i] == Values(t[..i]);
      sum := sum * 32 + v.value as nat;
    }
    assert t[..|t|] == t;
    bits := Some(sum);
  }

  method DecodeBase32(t: seq<byte>) returns (r: Option<seq<byte>>)
    ensures r == Decoded(t)
  {
    hide Decoded, Folded, Be, Pow, Expand, Groups, Tail, FromBits, ValueOf, AllLetters;
    if |t| % 8 == 1 || |t| % 8 == 3 || |t| % 8 == 6 {
      BadLength(t);
      return None;
    }
    var out: seq<byte>, pos := [], 0;
    assert t[0..] == t;
    KeepsAll(Decoded(t));
    while pos < |t|
      invariant 0 <= pos <= |t| && (pos < |t| ==> pos % 8 == 0)
      invariant Prepend(out, Decoded(t[pos..])) == Decoded(t)
    {
      var end := if pos + 8 <= |t| then pos + 8 else |t|;
      var chunk, rest := t[pos..end], t[end..];
      assert t[pos..] == chunk + rest;
      DecodedSplits(chunk, rest);
      var bits := FoldChunk(chunk);
      if bits.None? {
        return None;
      }
      var word, len := Be(bits.value * Pow(2, 40 - 5 * |chunk|), 5), |chunk| * 5 / 8;
      WordBytes(Values(chunk));
      GoodLengths(Values(chunk));
      ChunkDecodes(chunk);
      if exists i :: len <= i < 5 && word[i] != 0 {
        WholeHasNoRest(chunk);
        assert chunk + rest == chunk;
        return None;
      }
      assert Prepend(out, Prepend(word[..len], Decoded(rest))) == Prepend(out + word[..len], Decoded(rest)) by {
        Chained(out, word[..len], Decoded(rest));
      }
      out, pos := out + word[..len], end;
    }
    NothingDecoded();
    assert t[|t|..] == [] && out + [] == out;
    r := Some(out);
  }

  lemma {:induction false} KeepsAll(r: Option<seq<byte>>)
    ensures Prepend([], r) == r
  {
    if r.Some? {
      assert [] + r.value == r.value;
    }
  }

  lemma {:induction false} Chained(a: seq<byte>, b: seq<byte>, r: Option<seq<byte>>)
    ensures Prepend(a, Prepend(b, r)) == Prepend(a + b, r)
  {
    if r.Some? {
      assert a + (b + r.value) == a + b + r.value;
    }
  }

  lemma {:induction false} BadLength(t: seq<byte>)
    requires |t| % 8 == 1 || |t| % 8 == 3 || |t| % 8 == 6
    ensures Decoded(t) == None
  {
    hide Tail, Expand, Groups, FromBits, ValueOf;
    if AllLetters(t) {
      GoodLengths(Values(t));
    }
  }

  /** A chunk decodes if what it leaves over is zero. */
  lemma {:induction false} ChunkDecodes(t: seq<byte>)
    requires AllLetters(t) && |t| <= 8
    ensures |t| == 8 || !(|t| == 1 || |t| == 3 || |t| == 6) ==>
              Decoded(t) == if FromBits(Tail(Expand(Values(t), 5), 8)) == 0 then Some(Groups(Expand(Values(t), 5), 8)) else None
  {
    hide Tail, Expand, Groups, FromBits, ValueOf;
    GoodLengths(Values(t));
  }

  lemma {:induction false} WholeHasNoRest(t: seq<byte>)
    requires AllLetters(t) && FromBits(Tail(Expand(Values(t), 5), 8)) != 0
    ensures |t| != 8
  {
    hide Tail, Expand, ValueOf;
    if |t| == 8 {
      ExpandLength(Values(t), 5);
      TailOfWhole(Expand(Values(t), 5), 8, 5);
    }
  }
}
