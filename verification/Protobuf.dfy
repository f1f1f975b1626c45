/** The protobuf wire format as src/trontx.rs writes and reads it: varints, tagged fields,
    and messages read field by field. */
module Protobuf {
  import opened Options
  import opened Bytes

  datatype Error = UnexpectedEof | TooLarge | InvalidData | InvalidLength | UnsupportedField | NonCanonical

  datatype Result<+T> = Ok(value: T) | Err(error: Error)

  const VARINT: nat := 0
  const BYTES: nat := 2
  const I64_MAX: nat := 0x7fff_ffff_ffff_ffff
  const I32_MAX: nat := 0x7fff_ffff

  // ----- varints -----

  /** `put_varint`. */
  function Varint(v: nat): (s: seq<byte>)
    ensures s != []
  {
    if v < 128 then [v as byte] else [(v % 128 + 128) as byte] + Varint(v / 128)
  }

  method PutVarint(v0: nat) returns (s: seq<byte>)
    ensures s == Varint(v0)
  {
    s := [];
    var v := v0;
    while v >= 128
      invariant 0 <= v && s + Varint(v) == Varint(v0)
    {
      assert s + ([(v % 128 + 128) as byte] + Varint(v / 128)) == s + [(v % 128 + 128) as byte] + Varint(v / 128);
      s, v := s + [(v % 128 + 128) as byte], v / 128;
    }
    s := s + [v as byte];
  }

  /** `varint_len`. */
  function VarintLen(v: nat): nat {
    |Varint(v)|
  }

  /** `Reader::varint`, from its byte `i` on. */
  function ReadVarint(s: seq<byte>, i: nat): (r: Result<(nat, seq<byte>)>)
    ensures r.Ok? ==> |r.value.1| < |s|
  {
    if i >= 10 then Err(TooLarge)
    else if s == [] then Err(UnexpectedEof)
    else
      var bits := s[0] as nat % 128;
      if i == 9 && bits > 1 then Err(TooLarge)
      else if s[0] < 128 then Ok((bits, s[1..]))
      else
        var rest := ReadVarint(s[1..], i + 1);
        if rest.Err? then rest else Ok((bits + 128 * rest.value.0, rest.value.1))
  }

  /** What a varint's byte `i` on may hold. */
  function VarintLimit(i: nat): (limit: nat)
    requires i < 10
    decreases 10 - i
  {
    if i == 9 then 2 else 128 * VarintLimit(i + 1)
  }

  lemma {:induction false} VarintReadsBack(v: nat, i: nat, rest: seq<byte>)
    requires i < 10 && v < VarintLimit(i)
    ensures ReadVarint(Varint(v) + rest, i) == Ok((v, rest))
    decreases 10 - i
  {
    var s := Varint(v) + rest;
    if v < 128 {
      assert s[1..] == rest;
    } else {
      assert i < 9;
      VarintReadsBack(v / 128, i + 1, rest);
      assert s[1..] == Varint(v / 128) + rest;
    }
  }

  lemma {:induction false} VarintHolds64()
    ensures VarintLimit(0) == U64
  {
    assert VarintLimit(8) == 0x100;
    assert VarintLimit(7) == 0x8000;
    assert VarintLimit(6) == 0x40_0000;
    assert VarintLimit(5) == 0x2000_0000;
    assert VarintLimit(4) == 0x10_0000_0000;
    assert VarintLimit(3) == 0x800_0000_0000;
    assert VarintLimit(2) == 0x4_0000_0000_0000;
    assert VarintLimit(1) == 0x200_0000_0000_0000;
  }

  lemma {:induction false} Read64(v: nat, rest: seq<byte>)
    requires v < U64
    ensures ReadVarint(Varint(v) + rest, 0) == Ok((v, rest))
  {
    VarintHolds64();
    VarintReadsBack(v, 0, rest);
  }

  /** The loop of `Reader::varint`. */
  method TakeVarint(s: seq<byte>) returns (r: Result<(nat, seq<byte>)>)
    ensures r == ReadVarint(s, 0)
  {
    var v: nat, scale: nat, i := 0, 1, 0;
    var n := if |s| < 10 then |s| else 10;
    assert s[0..] == s;
    KeepsVarint(ReadVarint(s, 0));
    while i < n
      invariant 0 <= i <= n && scale >= 1
      invariant ReadVarint(s, 0) == Scaled(v, scale, ReadVarint(s[i..], i))
    {
      var bits := s[i] as nat % 128;
      if i == 9 && bits > 1 {
        return Err(TooLarge);
      }
      assert s[i..][1..] == s[i + 1..];
      if s[i] < 128 {
        return Ok((v + scale * bits, s[i + 1..]));
      }
      NextScaled(v, scale, bits, ReadVarint(s[i + 1..], i + 1));
      v, scale, i := v + scale * bits, scale * 128, i + 1;
    }
    r := Err(if |s| < 10 then UnexpectedEof else TooLarge);
  }

  function Scaled(v: nat, scale: nat, r: Result<(nat, seq<byte>)>): Result<(nat, seq<byte>)> {
    if r.Err? then r else Ok((v + scale * r.value.0, r.value.1))
  }

  lemma {:induction false} KeepsVarint(r: Result<(nat, seq<byte>)>)
    ensures Scaled(0, 1, r) == r
  {
  }

  lemma {:induction false} NextScaled(v: nat, scale: nat, bits: nat, r: Result<(nat, seq<byte>)>)
    ensures Scaled(v, scale, if r.Err? then r else Ok((bits + 128 * r.value.0, r.value.1)))
         == Scaled(v + scale * bits, scale * 128, r)
  {
    if r.Ok? {
      var x := r.value.0;
      assert scale * (bits + 128 * x) == scale * bits + scale * (128 * x);
      assert scale * (128 * x) == scale * 128 * x;
    }
  }

  // ----- fields -----

  function PutTag(field: nat, wire: nat): seq<byte> {
    Varint(field * 8 + wire)
  }

  /** proto3 omits zero. */
  function PutUint(field: nat, v: nat): seq<byte> {
    if v == 0 then [] else PutTag(field, VARINT) + Varint(v)
  }

  /** An embedded message, always written. */
  function PutMessage(field: nat, b: seq<byte>): seq<byte> {
    PutTag(field, BYTES) + (Varint(|b|) + b)
  }

  /** proto3 omits empty. */
  function PutBytes(field: nat, b: seq<byte>): seq<byte> {
    if b == [] then [] else PutMessage(field, b)
  }

  datatype Tag = Tag(field: nat, wire: nat)

  /** `Reader::tag`. */
  function ReadTag(s: seq<byte>): (r: Result<(Tag, seq<byte>)>)
    ensures r.Ok? ==> |r.value.1| < |s| && r.value.0.wire < 8
  {
    var tag := ReadVarint(s, 0);
    if tag.Err? then Err(tag.error)
    else
      var field := tag.value.0 / 8;
      if field == 0 || field >= U32 then Err(InvalidData) else Ok((Tag(field, tag.value.0 % 8), tag.value.1))
  }

  function ReadBytes(s: seq<byte>, wire: nat): (r: Result<(seq<byte>, seq<byte>)>)
    ensures r.Ok? ==> |r.value.1| <= |s|
  {
    if wire != BYTES then Err(InvalidData)
    else
      var len := ReadVarint(s, 0);
      if len.Err? then Err(len.error)
      else if len.value.0 > |len.value.1| then Err(UnexpectedEof)
      else Ok((len.value.1[..len.value.0], len.value.1[len.value.0..]))
  }

  function ReadInt(s: seq<byte>, wire: nat, max: nat): (r: Result<(nat, seq<byte>)>)
    ensures r.Ok? ==> |r.value.1| <= |s|
  {
    if wire != VARINT then Err(InvalidData)
    else
      var v := ReadVarint(s, 0);
      if v.Err? then Err(v.error) else if v.value.0 > max then Err(InvalidData) else v
  }

  function ReadAddress(s: seq<byte>, wire: nat): (r: Result<(seq<byte>, seq<byte>)>)
    ensures r.Ok? ==> |r.value.1| <= |s|
  {
    var b := ReadBytes(s, wire);
    if b.Ok? && |b.value.0| != 21 then Err(InvalidLength) else b
  }

  /** How a message takes in one field: its number, wire type, and the bytes after its
      tag. */
  type Step<!S> = (S, Tag, seq<byte>) -> Result<(S, seq<byte>)>

  ghost predicate Advances<S(!new)>(step: Step<S>) {
    forall a, t, s :: step(a, t, s).Ok? ==> |step(a, t, s).value.1| <= |s|
  }

  /** A message, field by field. */
  ghost function Fields<S(!new)>(step: Step<S>, s: seq<byte>, acc: S): Result<S>
    requires Advances(step)
    decreases |s|
  {
    if s == [] then Ok(acc)
    else
      var tag := ReadTag(s);
      if tag.Err? then Err(tag.error)
      else
        var next := step(acc, tag.value.0, tag.value.1);
        if next.Err? then Err(next.error) else Fields(step, next.value.1, next.value.0)
  }

  /** The loop over the fields of a message. */
  method ReadFields<S(!new)>(step: Step<S>, s: seq<byte>, acc0: S) returns (r: Result<S>)
    requires Advances(step)
    ensures r == Fields(step, s, acc0)
  {
    var rest, acc := s, acc0;
    while rest != []
      invariant Fields(step, rest, acc) == Fields(step, s, acc0)
      decreases |rest|
    {
      var tag := ReadTag(rest);
      if tag.Err? {
        return Err(tag.error);
      }
      var next := step(acc, tag.value.0, tag.value.1);
      if next.Err? {
        return Err(next.error);
      }
      acc, rest := next.value.0, next.value.1;
    }
    r := Ok(acc);
  }

  lemma {:induction false} TagReadsBack(field: nat, wire: nat, rest: seq<byte>)
    requires 0 < field < 100 && wire < 8
    ensures ReadTag(PutTag(field, wire) + rest) == Ok((Tag(field, wire), rest))
  {
    hide Varint, ReadVarint;
    Read64(field * 8 + wire, rest);
  }

  /** One more field read. */
  lemma {:induction false} FieldRead<S(!new)>(step: Step<S>, field: nat, wire: nat, body: seq<byte>, acc: S, next: S, rest: seq<byte>)
    requires Advances(step) && 0 < field < 100 && wire < 8 && step(acc, Tag(field, wire), body + rest) == Ok((next, rest))
    ensures Fields(step, PutTag(field, wire) + body + rest, acc) == Fields(step, rest, next)
  {
    hide ReadTag, Varint;
    TagReadsBack(field, wire, body + rest);
    assert PutTag(field, wire) + body + rest == PutTag(field, wire) + (body + rest);
    TagIsNonempty(field, wire);
  }

  lemma {:induction false} TagIsNonempty(field: nat, wire: nat)
    ensures PutTag(field, wire) != []
  {
  }

  lemma {:induction false} IntReadsBack(v: nat, max: nat, rest: seq<byte>)
    requires v < U64
    ensures ReadInt(Varint(v) + rest, VARINT, max) == if v <= max then Ok((v, rest)) else Err(InvalidData)
  {
    hide Varint, ReadVarint;
    Read64(v, rest);
  }

  lemma {:induction false} BytesReadBack(b: seq<byte>, rest: seq<byte>)
    requires |b| < U64
    ensures ReadBytes(Varint(|b|) + b + rest, BYTES) == Ok((b, rest))
  {
    hide Varint, ReadVarint;
    Read64(|b|, b + rest);
    assert Varint(|b|) + b + rest == Varint(|b|) + (b + rest);
    assert (b + rest)[..|b|] == b && (b + rest)[|b|..] == rest;
  }

  /** An integer field, written or omitted. */
  lemma {:induction false} UintField<S(!new)>(step: Step<S>, field: nat, v: nat, acc: S, next: S, rest: seq<byte>)
    requires Advances(step) && 0 < field < 100
    requires if v == 0 then next == acc else step(acc, Tag(field, VARINT), Varint(v) + rest) == Ok((next, rest))
    ensures Fields(step, PutUint(field, v) + rest, acc) == Fields(step, rest, next)
  {
    hide Fields, Varint, PutTag;
    if v == 0 {
      assert PutUint(field, v) + rest == rest;
    } else {
      FieldRead(step, field, VARINT, Varint(v), acc, next, rest);
    }
  }

  lemma {:induction false} MessageField<S(!new)>(step: Step<S>, field: nat, b: seq<byte>, acc: S, next: S, rest: seq<byte>)
    requires Advances(step) && 0 < field < 100
    requires step(acc, Tag(field, BYTES), Varint(|b|) + b + rest) == Ok((next, rest))
    ensures Fields(step, PutMessage(field, b) + rest, acc) == Fields(step, rest, next)
  {
    hide Fields, Varint, PutTag;
    FieldRead(step, field, BYTES, Varint(|b|) + b, acc, next, rest);
  }

  lemma {:induction false} BytesField<S(!new)>(step: Step<S>, field: nat, b: seq<byte>, acc: S, next: S, rest: seq<byte>)
    requires Advances(step) && 0 < field < 100
    requires if b == [] then next == acc else step(acc, Tag(field, BYTES), Varint(|b|) + b + rest) == Ok((next, rest))
    ensures Fields(step, PutBytes(field, b) + rest, acc) == Fields(step, rest, next)
  {
    hide Fields, Varint, PutTag, PutMessage;
    if b == [] {
      assert PutBytes(field, b) + rest == rest;
    } else {
      MessageField(step, field, b, acc, next, rest);
    }
  }

  lemma {:induction false} NoFields<S(!new)>(step: Step<S>, acc: S)
    requires Advances(step)
    ensures Fields(step, [], acc) == Ok(acc)
  {
  }

  lemma {:induction false} UintLast<S(!new)>(step: Step<S>, field: nat, v: nat, acc: S, next: S)
    requires Advances(step) && 0 < field < 100
    requires if v == 0 then next == acc else step(acc, Tag(field, VARINT), Varint(v)) == Ok((next, []))
    ensures Fields(step, PutUint(field, v), acc) == Ok(next)
  {
    hide Fields, Varint, PutTag, PutUint;
    assert Varint(v) + [] == Varint(v) && PutUint(field, v) + [] == PutUint(field, v);
    UintField(step, field, v, acc, next, []);
    NoFields(step, next);
  }

  lemma {:induction false} BytesLast<S(!new)>(step: Step<S>, field: nat, b: seq<byte>, acc: S, next: S)
    requires Advances(step) && 0 < field < 100
    requires if b == [] then next == acc else step(acc, Tag(field, BYTES), Varint(|b|) + b) == Ok((next, []))
    ensures Fields(step, PutBytes(field, b), acc) == Ok(next)
  {
    hide Fields, Varint, PutTag, PutBytes;
    assert Varint(|b|) + b + [] == Varint(|b|) + b && PutBytes(field, b) + [] == PutBytes(field, b);
    BytesField(step, field, b, acc, next, []);
    NoFields(step, next);
  }

  ghost predicate Keeps<S(!new)>(step: Step<S>, inv: S -> bool) {
    forall a, t, s :: inv(a) && step(a, t, s).Ok? ==> inv(step(a, t, s).value.0)
  }

  /** What every field keeps, the message keeps. */
  lemma {:induction false} FieldsKeep<S(!new)>(step: Step<S>, inv: S -> bool, s: seq<byte>, acc: S)
    requires Advances(step) && Keeps(step, inv) && inv(acc)
    ensures Fields(step, s, acc).Ok? ==> inv(Fields(step, s, acc).value)
    decreases |s|
  {
    hide ReadTag;
    if s != [] && ReadTag(s).Ok? {
      var tag := ReadTag(s).value;
      var next := step(acc, tag.0, tag.1);
      if next.Ok? {
        FieldsKeep(step, inv, next.value.1, next.value.0);
      }
    }
  }
}
