/** Bitcoin Cash addresses, src/bech32.rs. */
module CashAddr {
  import opened Options
  import opened Bytes
  import opened Ascii
  import opened Bech32
  import opened SliceWriters
  import P = Polymod
  import G = BitGroups

  const COLON: byte := 58

  /** `cashaddr_prefix`. */
  function Prefix(prefix: seq<byte>): seq<byte> {
    if prefix != [] && prefix[|prefix| - 1] == COLON then prefix[..|prefix| - 1] else prefix
  }

  /** The low bits of the prefix, and a zero. */
  function Spread(p: seq<byte>): (vals: seq<byte>)
    ensures P.FiveBit(vals) && |vals| == |p| + 1 && vals[|p|] == 0
    ensures forall i :: 0 <= i < |p| ==> vals[i] == p[i] % 32
  {
    seq(|p|, i requires 0 <= i < |p| => p[i] % 32) + [0]
  }

  ghost function State(p: seq<byte>): P.Word {
    P.Feed(P.CashAddr, 1, Spread(p))
  }

  lemma {:induction false} NextFed(all: seq<byte>, i: nat)
    requires P.FiveBit(all) && i < |all|
    ensures P.Feed(P.CashAddr, 1, all[..i + 1]) == P.Step(P.CashAddr, P.Feed(P.CashAddr, 1, all[..i]), P.Sym(all[i]))
  {
    hide P.Step, P.Sym, P.Feed;
    assert all[..i + 1] == all[..i] + [all[i]];
    P.FeedOne(P.CashAddr, 1, all[..i], all[i]);
  }

  /** `cashaddr_prefix_polymod`. */
  method PrefixPolymod(p: seq<byte>) returns (c: P.Word)
    ensures c == State(p)
  {
    hide P.Step, P.Sym, P.Feed, Spread;
    ghost var all := Spread(p);
    c := 1;
    assert all[..0] == [];
    FeedNothing(P.CashAddr, 1);
    for i := 0 to |p|
      invariant c == P.Feed(P.CashAddr, 1, all[..i])
    {
      NextFed(all, i);
      c := P.Step(P.CashAddr, c, P.Sym(p[i] % 32));
    }
    NextFed(all, |p|);
    c := P.Step(P.CashAddr, c, P.Sym(0));
    assert all[..|p| + 1] == all;
  }

  // ----- hash sizes -----

  /** `size_bits`. */
  function SizeBits(len: nat): (bits: Option<byte>)
    ensures bits.Some? ==> bits.value < 8
  {
    if len == 20 then Some(0) else if len == 24 then Some(1) else if len == 28 then Some(2)
    else if len == 32 then Some(3) else if len == 40 then Some(4) else if len == 48 then Some(5)
    else if len == 56 then Some(6) else if len == 64 then Some(7) else None
  }

  /** `size_from_bits`. */
  function SizeFromBits(bits: byte): nat {
    if bits == 0 then 20 else if bits == 1 then 24 else if bits == 2 then 28 else if bits == 3 then 32
    else if bits == 4 then 40 else if bits == 5 then 48 else if bits == 6 then 56 else 64
  }

  /** The type above the size, in a byte: types past 31 lose their top bits. */
  function VersionByte(kind: byte, size: byte): byte
    requires size < 8
  {
    (kind as nat * 8 % 256) as byte + size
  }

  lemma {:induction false} VersionReadsBack(kind: byte, len: nat)
    requires SizeBits(len).Some?
    ensures var b := VersionByte(kind, SizeBits(len).value);
            && (b >= 0x80 <==> kind % 32 >= 16) && SizeFromBits(b % 8) == len
            && (kind % 32 < 16 ==> b / 8 % 16 == kind % 32)
  {
    var size := SizeBits(len).value;
    assert kind as nat * 8 % 256 == 8 * (kind as nat % 32);
    var b := VersionByte(kind, size);
    assert b as nat == 8 * (kind as nat % 32) + size as nat;
  }

  lemma {:induction false} VersionWritesBack(b: byte, len: nat)
    requires b < 0x80 && SizeFromBits(b % 8) == len
    ensures SizeBits(len) == Some(b % 8) && VersionByte(b / 8 % 16, b % 8) == b
  {
  }

  // ----- encoding -----

  ghost function Sum(p: seq<byte>, vals: seq<byte>): (sum: seq<byte>)
    requires P.FiveBit(vals)
    ensures P.FiveBit(sum) && |sum| == 8
  {
    P.Checksum(P.CashAddr, P.Feed(P.CashAddr, State(p), vals), 1)
  }

  /** The address without its prefix. */
  ghost function Body(p: seq<byte>, vals: seq<byte>): (t: seq<byte>)
    requires P.FiveBit(vals)
    ensures |t| == |vals| + 8
  {
    Spell(vals + Sum(p, vals))
  }

  ghost function Address(prefix: seq<byte>, kind: byte, hash: seq<byte>): seq<byte>
    requires SizeBits(|hash|).Some?
  {
    var p := Prefix(prefix);
    p + [COLON] + Body(p, Symbols([], [VersionByte(kind, SizeBits(|hash|).value)] + hash))
  }

  /** The prefix, the symbols of the payload, and the checksum. */
  method EncodeParts(p: seq<byte>, payload: seq<byte>, out: array<byte>) returns (r: Result<nat>)
    modifies out
    ensures var t := p + [COLON] + Body(p, Symbols([], payload));
            && r == (if |t| <= out.Length then Ok(|t|) else Err(BufferTooSmall))
            && (r.Ok? ==> out[..r.value] == t)
  {
    hide P.Feed, P.Checksum, State, Spell, Symbols, Body;
    BodyInParts(p, Symbols([], payload));
    ghost var body, sum := Spell(Symbols([], payload)), Spell(P.Checksum(P.CashAddr, P.Feed(P.CashAddr, State(p), Symbols([], payload)), 1));
    Regroup(p + [COLON], body, sum);
    var w := new SliceWriter(out);
    assert [] + p == p;
    var ok := w.PushSlice(p);
    if !ok {
      return Err(BufferTooSmall);
    }
    ok := w.Push(COLON);
    if !ok {
      return Err(BufferTooSmall);
    }
    var chk := PrefixPolymod(p);
    chk, ok := EmitPayload(P.CashAddr, w, chk, payload);
    if !ok {
      return Err(BufferTooSmall);
    }
    ok := EmitChecksum(P.CashAddr, w, chk, 1);
    if !ok {
      return Err(BufferTooSmall);
    }
    r := Ok(w.pos);
  }

  lemma {:induction false} BodyInParts(p: seq<byte>, vals: seq<byte>)
    requires P.FiveBit(vals)
    ensures Body(p, vals) == Spell(vals) + Spell(P.Checksum(P.CashAddr, P.Feed(P.CashAddr, State(p), vals), 1))
  {
    hide P.Feed, P.Checksum, State, Spell;
    PartsChain(P.CashAddr, State(p), vals, Sum(p, vals));
  }

  /** `cashaddr_encode_to_slice`. */
  method EncodeAddress(prefix: seq<byte>, kind: byte, hash: seq<byte>, out: array<byte>) returns (r: Result<nat>)
    modifies out
    ensures SizeBits(|hash|) == None ==> r == Err(InvalidHashLength)
    ensures SizeBits(|hash|).Some? ==>
              var t := Address(prefix, kind, hash);
              && r == (if |t| <= out.Length then Ok(|t|) else Err(BufferTooSmall))
              && (r.Ok? ==> out[..r.value] == t)
  {
    hide Symbols, Prefix, SizeBits, VersionByte, Body;
    var p, size := Prefix(prefix), SizeBits(|hash|);
    if size.None? {
      return Err(InvalidHashLength);
    }
    r := EncodeParts(p, [VersionByte(kind, size.value)] + hash, out);
  }

  // ----- decoding -----

  /** `find(':')`. */
  function FirstColon(t: seq<byte>): (pos: nat)
    ensures pos <= |t| && (pos < |t| ==> t[pos] == COLON) && forall i :: 0 <= i < pos ==> t[i] != COLON
  {
    if t == [] || t[0] == COLON then 0 else 1 + FirstColon(t[1..])
  }

  /** What `cashaddr_decode_to_slice` makes of an address. */
  ghost function Decoded(prefix: seq<byte>, t: seq<byte>, room: nat): Result<(byte, seq<byte>)> {
    var p, colon := Prefix(prefix), FirstColon(t);
    if colon == |t| then DecodedBody(p, t, room)
    else if LowerAll(t[..colon]) != p then Err(PrefixMismatch)
    else DecodedBody(p, t[colon + 1..], room)
  }

  ghost function DecodedBody(p: seq<byte>, body: seq<byte>, room: nat): Result<(byte, seq<byte>)> {
    if !AllLetters(body) then Err(InvalidChar)
    else if P.Feed(P.CashAddr, State(p), Values(body)) != 1 then Err(InvalidChecksum)
    else if |body| <= 8 then Err(EmptyPayload)
    else DecodedValues(Values(body)[..|body| - 8], room)
  }

  function DecodedValues(vals: seq<byte>, room: nat): Result<(byte, seq<byte>)> {
    match G.Converted(vals, 5, 8, false, 1 + if room < 64 then room else 64)
    case Full => Err(if room < 64 then BufferTooSmall else InvalidHashLength)
    case InvalidPadding => Err(InvalidPadding)
    case Done(data) => if data == [] then Err(EmptyPayload) else DecodedBytes(data[0], data[1..])
  }

  function DecodedBytes(version: byte, hash: seq<byte>): Result<(byte, seq<byte>)> {
    if version >= 0x80 then Err(InvalidVersionByte)
    else if |hash| != SizeFromBits(version % 8) then Err(InvalidHashLength)
    else Ok((version / 8 % 16, hash))
  }

  /** The register after the characters of a body. */
  method BodyPolymod(p: seq<byte>, body: seq<byte>) returns (chk: Option<P.Word>)
    ensures chk == if AllLetters(body) then Some(P.Feed(P.CashAddr, State(p), Values(body))) else None
  {
    hide P.Step, P.Sym, CharsetRev, State;
    var c := PrefixPolymod(p);
    for i := 0 to |body|
      invariant AllLetters(body[..i]) && c == P.Feed(P.CashAddr, State(p), Values(body[..i]))
    {
      var v := CharsetRev(body[i]);
      if v.None? {
        return None;
      }
      assert body[..i + 1] == body[..i] + [body[i]];
      assert Values(body[..i + 1]) == Values(body[..i]) + [v.value];
      P.FeedOne(P.CashAddr, State(p), Values(body[..i]), v.value);
      c := P.Step(P.CashAddr, c, P.Sym(v.value));
    }
    assert body[..|body|] == body;
    chk := Some(c);
  }

  /** `cashaddr_decode_to_slice`. */
  method DecodeAddress(prefix: seq<byte>, t: seq<byte>, out: array<byte>) returns (r: Result<(byte, nat)>)
    modifies out
    ensures match Decoded(prefix, t, out.Length)
            case Ok((kind, hash)) => r == Ok((kind, |hash|)) && |hash| <= out.Length && out[..|hash|] == hash
            case Err(e) => r == Err(e)
  {
    hide P.Feed, State, CharsetRev, G.Converted, Prefix;
    var p, body := Prefix(prefix), t;
    var colon := FirstColon(t);
    if colon < |t| {
      if LowerAll(t[..colon]) != p {
        return Err(PrefixMismatch);
      }
      body := t[colon + 1..];
    }
    var chk := BodyPolymod(p, body);
    if chk.None? {
      return Err(InvalidChar);
    }
    if chk.value != 1 {
      return Err(InvalidChecksum);
    }
    if |body| <= 8 {
      return Err(EmptyPayload);
    }
    var vals := Values(body)[..|body| - 8];
    var limit := if out.Length < 64 then out.Length else 64;
    var regrouped := G.ConvertBits(vals, 5, 8, false, 1 + limit);
    match regrouped
    case Full => return Err(if out.Length < 64 then BufferTooSmall else InvalidHashLength);
    case InvalidPadding => return Err(InvalidPadding);
    case Done(data) =>
      GoodFits(vals, 1 + limit);
      if data == [] {
        return Err(EmptyPayload);
      }
      var w := new SliceWriter(out);
      var ok := w.PushSlice(data[1..]);
      if data[0] >= 0x80 {
        return Err(InvalidVersionByte);
      }
      if w.pos != SizeFromBits(data[0] % 8) {
        return Err(InvalidHashLength);
      }
      r := Ok((data[0] / 8 % 16, w.pos));
  }

  // ----- what is encoded is decoded, and nothing else -----

  lemma {:induction false} StateStays(p: seq<byte>)
    ensures P.InRegister(P.CashAddr, State(p))
  {
    hide Spread;
    P.FeedStays(P.CashAddr, 1, Spread(p));
  }

  lemma {:induction false} SumVerifies(p: seq<byte>, vals: seq<byte>, sum: seq<byte>)
    requires P.FiveBit(vals) && P.FiveBit(sum) && |sum| == 8
    ensures P.Feed(P.CashAddr, State(p), vals + sum) == 1 <==> sum == Sum(p, vals)
  {
    hide P.Feed, P.Checksum, State;
    StateStays(p);
    P.FeedStays(P.CashAddr, State(p), vals);
    P.FeedAppend(P.CashAddr, State(p), vals, sum);
    P.OnlyChecksum(P.CashAddr, P.Feed(P.CashAddr, State(p), vals), 1, sum);
  }

  /** The prefix is in lower case, and without a colon inside. */
  predicate Plain(p: seq<byte>) {
    forall i :: 0 <= i < |p| ==> !IsUpper(p[i]) && p[i] != COLON
  }

  lemma {:induction false} ColonOfAddress(p: seq<byte>, body: seq<byte>)
    ensures var t := p + [COLON] + body;
            && FirstColon(t) < |t|
            && (LowerAll(t[..FirstColon(t)]) == p <==> Plain(p))
            && (Plain(p) ==> t[FirstColon(t) + 1..] == body)
  {
    hide FirstColon;
    var t := p + [COLON] + body;
    var colon := FirstColon(t);
    assert t[|p|] == COLON;
    assert colon <= |p|;
    assert forall i :: 0 <= i < |p| ==> t[i] == p[i];
    if Plain(p) {
      assert colon == |p| && t[..colon] == p;
      assert LowerAll(p) == p;
    }
    if LowerAll(t[..colon]) == p {
      forall i | 0 <= i < |p| ensures !IsUpper(p[i]) && p[i] != COLON {
        assert p[i] == Lower(t[i]) && t[i] == p[i];
      }
    }
  }

  /** Decoding the address of a hash: the hash and its type, given a plain prefix and
      a type below 16. Types past 31 are taken modulo 32. */
  lemma {:induction false} DecodeInvertsEncode(prefix: seq<byte>, kind: byte, hash: seq<byte>, room: nat)
    requires SizeBits(|hash|).Some? && room >= |hash|
    ensures Decoded(prefix, Address(prefix, kind, hash), room)
         == if !Plain(Prefix(prefix)) then Err(PrefixMismatch)
            else if kind % 32 >= 16 then Err(InvalidVersionByte)
            else Ok((kind % 32, hash))
  {
    hide Symbols, Letter, CharsetRev, G.Converted, Sum, Prefix, P.Feed, State, LowerAll, VersionByte, SizeFromBits, FirstColon;
    var p, version := Prefix(prefix), VersionByte(kind, SizeBits(|hash|).value);
    var vals := Symbols([], [version] + hash);
    ColonOfAddress(p, Body(p, vals));
    SpelledReadsBack(vals + Sum(p, vals));
    SumVerifies(p, vals, Sum(p, vals));
    PayloadReadsBack([version] + hash, 1 + if room < 64 then room else 64);
    NonemptySymbols(version, hash, 1 + if room < 64 then room else 64);
    assert (vals + Sum(p, vals))[..|vals|] == vals;
    VersionReadsBack(kind, |hash|);
  }

  lemma {:induction false} NonemptySymbols(version: byte, hash: seq<byte>, room: nat)
    requires G.Converted(Symbols([], [version] + hash), 5, 8, false, room) == G.Done([version] + hash)
    ensures Symbols([], [version] + hash) != []
  {
    hide Symbols;
  }

  /** A body that decodes is, up to case, the body of its hash. */
  lemma {:induction false} BodyEncodesBack(p: seq<byte>, body: seq<byte>, room: nat)
    requires DecodedBody(p, body, room).Ok?
    ensures var (kind, hash) := DecodedBody(p, body, room).value;
            && kind < 16 && SizeBits(|hash|).Some?
            && LowerAll(body) == Body(p, Symbols([], [VersionByte(kind, SizeBits(|hash|).value)] + hash))
  {
    hide Symbols, Letter, CharsetRev, G.Converted, Sum, P.Feed, State, VersionByte, SizeFromBits, Lower;
    var n := |body| - 8;
    var vals, sum := Values(body)[..n], Values(body)[n..];
    assert Values(body) == vals + sum;
    SumVerifies(p, vals, sum);
    ReadSpellsBack(body);
    var limit := 1 + if room < 64 then room else 64;
    SymbolsWriteBack(vals, limit);
    var data := G.Converted(vals, 5, 8, false, limit).data;
    VersionWritesBack(data[0], |data| - 1);
    assert data == [data[0]] + data[1..];
  }

  /** An address that decodes is, up to case, the address of its hash, or that without its
      prefix. */
  lemma {:induction false} EncodeInvertsDecode(prefix: seq<byte>, t: seq<byte>, room: nat)
    requires Decoded(prefix, t, room).Ok?
    ensures var (kind, hash) := Decoded(prefix, t, room).value;
            && kind < 16 && SizeBits(|hash|).Some?
            && var vals := Symbols([], [VersionByte(kind, SizeBits(|hash|).value)] + hash);
               LowerAll(t) == if FirstColon(t) < |t| then Address(prefix, kind, hash) else Body(Prefix(prefix), vals)
  {
    hide DecodedBody, Body, Symbols, Prefix, FirstColon, VersionByte, SizeBits, Lower;
    var p, colon := Prefix(prefix), FirstColon(t);
    if colon < |t| {
      BodyEncodesBack(p, t[colon + 1..], room);
      ColonIsLower();
      assert LowerAll(t) == LowerAll(t[..colon]) + [COLON] + LowerAll(t[colon + 1..]);
    } else {
      BodyEncodesBack(p, t, room);
    }
  }

  lemma {:induction false} ColonIsLower()
    ensures Lower(COLON) == COLON
  {
  }

  /** One wrong character of a body. */
  lemma {:induction false} BodySubstitution(p: seq<byte>, body: seq<byte>, i: nat, c: byte, room: nat)
    requires DecodedBody(p, body, room).Ok? && i < |body| && Lower(c) != Lower(body[i])
    ensures DecodedBody(p, body[i := c], room) == Err(if CharsetRev(c).Some? then InvalidChecksum else InvalidChar)
  {
    hide CharsetRev, Lower, P.Feed, State, DecodedValues;
    if CharsetRev(c).Some? {
      SymbolSubstitution(p, body, i, c, room);
    } else {
      assert body[i := c][i] == c;
    }
  }

  lemma {:induction false} RevOfLower(c: byte)
    ensures CharsetRev(Lower(c)) == CharsetRev(c) && CharsetRev(COLON) == None
  {
    hide FindLetter, Letter;
    assert Lower(Lower(c)) == Lower(c);
    var v := CharsetRev(COLON);
    if v.Some? {
      LetterKind(v.value);
    }
  }

  /** A prefix written in letters of the alphabet. */
  lemma {:induction false} LettersOfLower(s: seq<byte>)
    ensures AllLetters(LowerAll(s)) <==> AllLetters(s)
  {
    hide CharsetRev, Lower;
    forall i | 0 <= i < |s| ensures CharsetRev(LowerAll(s)[i]) == CharsetRev(s[i]) {
      RevOfLower(s[i]);
    }
  }

  lemma {:induction false} NoColonInBody(body: seq<byte>)
    requires AllLetters(body)
    ensures forall i :: 0 <= i < |body| ==> body[i] != COLON
  {
    hide CharsetRev;
    RevOfLower(COLON);
  }

  lemma {:induction false} ColonIs(t: seq<byte>, i: nat)
    requires i <= |t| && (i < |t| ==> t[i] == COLON) && forall j :: 0 <= j < i ==> t[j] != COLON
    ensures FirstColon(t) == i
  {
    hide FirstColon;
  }

  /** One wrong character is always noticed, wherever it is and whatever it is: another case
      of the same letter is the only one that may pass. A colon lost or gained counts if
      the prefix is not itself spelled in the alphabet. */
  lemma {:induction false} SubstitutionIsRefused(prefix: seq<byte>, t: seq<byte>, i: nat, c: byte, room: nat)
    requires Decoded(prefix, t, room).Ok?
    requires i < |t| && Lower(c) != Lower(t[i])
    requires AllLetters(Prefix(prefix)) ==> c != COLON && t[i] != COLON
    ensures Decoded(prefix, t[i := c], room).Err?
  {
    hide DecodedBody, Prefix, FirstColon, CharsetRev, Lower, AllLetters;
    var p, colon, u := Prefix(prefix), FirstColon(t), t[i := c];
    if colon == |t| {
      BareSubstitution(p, t, i, c, room);
    } else if i < colon {
      if c == COLON {
        ColonIs(u, i);
      } else {
        ColonIs(u, colon);
        assert LowerAll(u[..colon])[i] == Lower(c) && LowerAll(t[..colon])[i] == Lower(t[i]);
      }
    } else if i == colon {
      ColonLost(p, t, c, room);
    } else {
      ColonIs(u, colon);
      assert u[..colon] == t[..colon] && u[colon + 1..] == t[colon + 1..][i - colon - 1 := c];
      BodySubstitution(p, t[colon + 1..], i - colon - 1, c, room);
    }
  }

  /** Without a prefix. */
  lemma {:induction false} BareSubstitution(p: seq<byte>, t: seq<byte>, i: nat, c: byte, room: nat)
    requires FirstColon(t) == |t| && DecodedBody(p, t, room).Ok? && i < |t| && Lower(c) != Lower(t[i])
    requires AllLetters(p) ==> c != COLON
    ensures var u := t[i := c];
            if c == COLON then FirstColon(u) == i && LowerAll(u[..i]) != p
            else FirstColon(u) == |u| && DecodedBody(p, u, room).Err?
  {
    hide CharsetRev, Lower, P.Feed, State, DecodedValues, FirstColon;
    var u := t[i := c];
    NoColonInBody(t);
    if c == COLON {
      ColonIs(u, i);
      assert u[..i] == t[..i] && AllLetters(t[..i]);
      LettersOfLower(t[..i]);
    } else {
      ColonIs(u, |u|);
      BodySubstitution(p, t, i, c, room);
    }
  }

  /** With a colon that became something else. */
  lemma {:induction false} ColonLost(p: seq<byte>, t: seq<byte>, c: byte, room: nat)
    requires FirstColon(t) < |t| && LowerAll(t[..FirstColon(t)]) == p && DecodedBody(p, t[FirstColon(t) + 1..], room).Ok?
    requires c != COLON && !AllLetters(p)
    ensures var u := t[FirstColon(t) := c]; FirstColon(u) == |u| && DecodedBody(p, u, room) == Err(InvalidChar)
  {
    hide CharsetRev, Lower, P.Feed, State, DecodedValues, FirstColon;
    var colon := FirstColon(t);
    var body, u := t[colon + 1..], t[colon := c];
    NoColonInBody(body);
    forall j | 0 <= j < |u| ensures u[j] != COLON {
      if j > colon {
        assert u[j] == body[j - colon - 1];
      }
    }
    ColonIs(u, |u|);
    LettersOfLower(t[..colon]);
    var k :| 0 <= k < colon && CharsetRev(t[..colon][k]).None?;
    assert u[k] == t[..colon][k];
  }

  lemma {:induction false} SymbolSubstitution(p: seq<byte>, body: seq<byte>, i: nat, c: byte, room: nat)
    requires DecodedBody(p, body, room).Ok?
    requires i < |body| && CharsetRev(c).Some? && Lower(c) != Lower(body[i])
    ensures DecodedBody(p, body[i := c], room) == Err(InvalidChecksum)
  {
    hide P.Feed, State, CharsetRev, DecodedValues, P.InRegister, Lower, Letter;
    var v, w := CharsetRev(body[i]).value, CharsetRev(c).value;
    var vals := Values(body);
    var before, after := vals[..i], vals[i + 1..];
    assert vals == before + [v] + after;
    assert Values(body[i := c]) == before + [w] + after;
    StateStays(p);
    P.SubstitutionTells(P.CashAddr, State(p), before, v, w, after);
  }
}
