/** The CBOR codec of src/cbor.rs: heads, canonical encoding, and the
    depth-bounded decoder. */
module Cbor {
  import opened Bytes

  datatype Error =
    | UnexpectedEof | ReservedAdditionalInfo(info: nat) | UnsupportedIndefiniteLength
    | UnsupportedSimpleValue(arg: nat) | UnsupportedMajorType(major: nat) | UnexpectedBreak
    | InvalidChunk | ExpectedArray | NestingTooDeep

  datatype Result<+T> = Ok(value: T) | Err(error: Error)

  datatype Cbor =
    | Uint(v: nat)
    | Bytes(b: seq<byte>)
    | Array(items: seq<Cbor>)
    | Map(entries: seq<Entry>)
    | Bool(yes: bool)
    | Null
    | Raw(raw: seq<byte>)

  datatype Entry = Entry(key: Cbor, value: Cbor)

  const MAX_DEPTH := 64

  // ----- heads -----

  datatype Head = Head(major: nat, arg: nat, indefinite: bool)

  /** `write_head`: the shortest form. */
  function WriteHead(major: nat, value: nat): (s: seq<byte>)
    requires major < 8 && value < U64
    ensures 1 <= |s| <= 9
  {
    if value < 24 then [(32 * major + value) as byte]
    else if value <= 0xff then [(32 * major + 24) as byte] + Be(value, 1)
    else if value <= 0xffff then [(32 * major + 25) as byte] + Be(value, 2)
    else if value <= 0xffff_ffff then [(32 * major + 26) as byte] + Be(value, 4)
    else [(32 * major + 27) as byte] + Be(value, 8)
  }

  /** The `len` bytes at `pos`, and the position past them. */
  function Take(data: seq<byte>, pos: nat, len: nat): (r: Result<(seq<byte>, nat)>)
    ensures r.Ok? <==> pos + len <= |data|
    ensures r.Ok? ==> r.value == (data[pos..pos + len], pos + len)
    ensures r.Err? ==> r.error == UnexpectedEof
  {
    if pos + len <= |data| then Ok((data[pos..pos + len], pos + len)) else Err(UnexpectedEof)
  }

  /** The number of bytes of the argument that follows a head byte, if any does. */
  function ArgSize(info: nat): nat {
    if info == 24 then 1 else if info == 25 then 2 else if info == 26 then 4 else if info == 27 then 8 else 0
  }

  /** `read_head`: the head at `pos`, and the position past it. */
  function ReadHead(data: seq<byte>, pos: nat): (r: Result<(Head, nat)>)
    ensures r.Ok? ==> pos < r.value.1 <= |data| && r.value.0.major < 8 && r.value.0.arg < U64
  {
    if pos >= |data| then Err(UnexpectedEof)
    else
      var ib := data[pos] as nat;
      var major, info := ib / 32, ib % 32;
      if info <= 23 then Ok((Head(major, info, false), pos + 1))
      else if info <= 27 then
        var bytes := Take(data, pos + 1, ArgSize(info));
        if bytes.Err? then Err(bytes.error)
        else
          Spans();
          Ok((Head(major, BeValue(bytes.value.0), false), bytes.value.1))
      else if info == 31 then Ok((Head(major, 0, true), pos + 1))
      else Err(ReservedAdditionalInfo(info))
  }

  lemma {:induction false} HeadByte(major: nat, info: nat)
    requires major < 8 && info < 32
    ensures 32 * major + info < 256
    ensures ((32 * major + info) as byte as nat) / 32 == major && ((32 * major + info) as byte as nat) % 32 == info
  {
  }

  /** The argument of a head, in `n` bytes. */
  lemma {:induction false} LongHeadReadsBack(data: seq<byte>, pos: nat, major: nat, info: nat, value: nat)
    requires major < 8 && 24 <= info <= 27 && value < Span(ArgSize(info)) && pos + 1 + ArgSize(info) <= |data|
    requires data[pos] == (32 * major + info) as byte
    requires data[pos + 1..pos + 1 + ArgSize(info)] == Be(value, ArgSize(info))
    ensures ReadHead(data, pos) == Ok((Head(major, value, false), pos + 1 + ArgSize(info)))
  {
    HeadByte(major, info);
    BeReadsBack(value, ArgSize(info));
  }

  /** A head is read back wherever it is written. */
  lemma {:induction false} HeadReadsBack(data: seq<byte>, pos: nat, major: nat, value: nat)
    requires major < 8 && value < U64
    requires var head := WriteHead(major, value); pos + |head| <= |data| && data[pos..pos + |head|] == head
    ensures ReadHead(data, pos) == Ok((Head(major, value, false), pos + |WriteHead(major, value)|))
  {
    hide Take, Span, Be, BeValue;
    var head := WriteHead(major, value);
    Spans();
    assert data[pos] == data[pos..pos + |head|][0];
    if value < 24 {
      HeadByte(major, value);
    } else {
      assert data[pos + 1..pos + |head|] == data[pos..pos + |head|][1..];
      var info := if value <= 0xff then 24 else if value <= 0xffff then 25 else if value <= 0xffff_ffff then 26 else 27;
      assert head == [(32 * major + info) as byte] + Be(value, ArgSize(info));
      LongHeadReadsBack(data, pos, major, info, value);
    }
  }

  /** `check_count`: each item takes a byte at least. */
  function CheckCount(data: seq<byte>, pos: nat, count: nat): Result<nat> {
    if count <= |data| - pos then Ok(count) else Err(UnexpectedEof)
  }

  // ----- canonical order of map keys (section 3.9 of RFC 7049) -----

  /** Shorter first, ties broken lexicographically. */
  predicate KeyLeq(a: seq<byte>, b: seq<byte>) {
    |a| < |b| || (|a| == |b| && LexLeq(a, b))
  }

  lemma {:induction false} KeyOrder(a: seq<byte>, b: seq<byte>)
    ensures KeyLeq(a, b) || KeyLeq(b, a)
    ensures KeyLeq(a, b) && KeyLeq(b, a) ==> a == b
  {
    LexTotal(a, b);
  }

  lemma {:induction false} KeyTransitive(a: seq<byte>, b: seq<byte>, c: seq<byte>)
    requires KeyLeq(a, b) && KeyLeq(b, c)
    ensures KeyLeq(a, c)
  {
    if |a| == |b| == |c| {
      LexTransitive(a, b, c);
    }
  }

  type Pair = (seq<byte>, seq<byte>)

  /** `x` before the first of `s` that does not sort before it. */
  function InsertPair(x: Pair, s: seq<Pair>): (r: seq<Pair>)
    ensures |r| == |s| + 1
  {
    if s == [] || KeyLeq(x.0, s[0].0) then [x] + s else [s[0]] + InsertPair(x, s[1..])
  }

  /** `sort_by`, which is stable. */
  function SortPairs(s: seq<Pair>): (r: seq<Pair>)
    ensures |r| == |s|
  {
    if s == [] then [] else InsertPair(s[0], SortPairs(s[1..]))
  }

  function JoinPairs(s: seq<Pair>): seq<byte> {
    if s == [] then [] else s[0].0 + s[0].1 + JoinPairs(s[1..])
  }

  // ----- encoding -----

  /** Lengths and integers are 64-bit, as they are in memory. */
  ghost predicate Fits(v: Cbor) {
    match v
    case Uint(n) => n < U64
    case Bytes(b) => |b| < U64
    case Array(items) => |items| < U64 && forall i :: 0 <= i < |items| ==> Fits(items[i])
    case Map(entries) => 2 * |entries| < U64 && forall i :: 0 <= i < |entries| ==> Fits(entries[i].key) && Fits(entries[i].value)
    case _ => true
  }

  /** `Cbor::encode`. */
  function Encode(v: Cbor): (s: seq<byte>)
    requires Fits(v)
    decreases v, 0
  {
    match v
    case Uint(n) => WriteHead(0, n)
    case Bytes(b) => WriteHead(2, |b|) + b
    case Array(items) => WriteHead(4, |items|) + EncodeItems(items)
    case Map(entries) => WriteHead(5, |entries|) + JoinPairs(SortPairs(EncodePairs(entries)))
    case Bool(yes) => [if yes then 0xf5 else 0xf4]
    case Null => [0xf6]
    case Raw(raw) => raw
  }

  function EncodeItems(items: seq<Cbor>): seq<byte>
    requires forall i :: 0 <= i < |items| ==> Fits(items[i])
    decreases items, 1
  {
    if items == [] then [] else Encode(items[0]) + EncodeItems(items[1..])
  }

  function EncodePairs(entries: seq<Entry>): (r: seq<Pair>)
    requires forall i :: 0 <= i < |entries| ==> Fits(entries[i].key) && Fits(entries[i].value)
    ensures |r| == |entries|
    decreases entries, 1
  {
    if entries == [] then []
    else [EncodeEntry(entries[0])] + EncodePairs(entries[1..])
  }

  function EncodeEntry(e: Entry): Pair
    requires Fits(e.key) && Fits(e.value)
    decreases e, 1
  {
    (Encode(e.key), Encode(e.value))
  }

  lemma {:induction false} ItemsEncodeInTurn(items: seq<Cbor>, i: nat)
    requires i < |items| && forall k :: 0 <= k < |items| ==> Fits(items[k])
    ensures EncodeItems(items[i..]) == Encode(items[i]) + EncodeItems(items[i + 1..])
  {
    hide Encode, Fits;
    assert items[i..][1..] == items[i + 1..];
  }

  lemma {:induction false} PairsEncodeInTurn(entries: seq<Entry>, i: nat)
    requires i < |entries| && forall k :: 0 <= k < |entries| ==> Fits(entries[k].key) && Fits(entries[k].value)
    ensures EncodePairs(entries[i..]) == [EncodeEntry(entries[i])] + EncodePairs(entries[i + 1..])
  {
    hide EncodeEntry, Fits;
    assert entries[i..][1..] == entries[i + 1..];
  }

  /** `encode_into`: appends the encoding of `v` to what was written before. */
  method EncodeInto(v: Cbor, before: seq<byte>) returns (out: seq<byte>)
    requires Fits(v)
    ensures out == before + Encode(v)
    decreases v
  {
    match v
    case Uint(n) => out := before + WriteHead(0, n);
    case Bytes(b) =>
      out := before + WriteHead(2, |b|);
      out := out + b;
    case Array(items) =>
      var head := WriteHead(4, |items|);
      out := before + head;
      assert items[0..] == items;
      for i := 0 to |items|
        invariant out + EncodeItems(items[i..]) == before + (head + EncodeItems(items))
      {
        ItemsEncodeInTurn(items, i);
        ghost var rest := EncodeItems(items[i + 1..]);
        assert out + (Encode(items[i]) + rest) == (out + Encode(items[i])) + rest;
        out := EncodeInto(items[i], out);
      }
      assert items[|items|..] == [] && out + [] == out;
    case Map(entries) =>
      out := EncodeMap(entries, before);
    case Bool(yes) => out := before + [if yes then 0xf5 else 0xf4];
    case Null => out := before + [0xf6];
    case Raw(raw) => out := before + raw;
  }

  lemma {:induction false} MapEncodes(entries: seq<Entry>)
    requires Fits(Map(entries))
    ensures forall i :: 0 <= i < |entries| ==> Fits(entries[i].key) && Fits(entries[i].value)
    ensures |entries| < U64 && Encode(Map(entries)) == WriteHead(5, |entries|) + JoinPairs(SortPairs(EncodePairs(entries)))
  {
    hide WriteHead, JoinPairs, SortPairs, EncodePairs;
  }

  lemma {:induction false} NoPairs()
    ensures EncodePairs([]) == []
  {
  }

  /** One more pair moves from what is left to what is encoded. */
  lemma {:induction false} PairMoves(encoded: seq<Pair>, key: seq<byte>, value: seq<byte>, rest: seq<Pair>)
    ensures encoded + ([(key, value)] + rest) == encoded + [(key, value)] + rest
  {
  }

  /** The entries, encoded, sorted, and written. */
  method EncodeMap(entries: seq<Entry>, before: seq<byte>) returns (out: seq<byte>)
    requires Fits(Map(entries))
    ensures out == before + Encode(Map(entries))
    decreases entries
  {
    hide Encode, Fits, EncodePairs, SortPairs, JoinPairs, WriteHead;
    MapEncodes(entries);
    var encoded: seq<Pair> := [];
    assert entries[0..] == entries;
    for i := 0 to |entries|
      invariant encoded + EncodePairs(entries[i..]) == EncodePairs(entries)
    {
      PairsEncodeInTurn(entries, i);
      var key := EncodeInto(entries[i].key, []);
      var value := EncodeInto(entries[i].value, []);
      assert [] + Encode(entries[i].key) == Encode(entries[i].key) && [] + Encode(entries[i].value) == Encode(entries[i].value);
      PairMoves(encoded, key, value, EncodePairs(entries[i + 1..]));
      encoded := encoded + [(key, value)];
    }
    NoPairs();
    assert entries[|entries|..] == [] && encoded + [] == encoded;
    encoded := SortPairs(encoded);
    out := WritePairs(encoded, before + WriteHead(5, |encoded|));
    Regroup(before, WriteHead(5, |encoded|), JoinPairs(encoded));
  }

  method WritePairs(encoded: seq<Pair>, before: seq<byte>) returns (out: seq<byte>)
    ensures out == before + JoinPairs(encoded)
  {
    out := before;
    assert encoded[0..] == encoded;
    for i := 0 to |encoded|
      invariant out + JoinPairs(encoded[i..]) == before + JoinPairs(encoded)
    {
      var pair := encoded[i];
      ghost var rest := JoinPairs(encoded[i + 1..]);
      assert encoded[i..][1..] == encoded[i + 1..];
      assert out + (pair.0 + pair.1 + rest) == (out + pair.0 + pair.1) + rest;
      out := out + pair.0;
      out := out + pair.1;
    }
  }

  // ----- decoding -----

  /** `decode_value`: the value at `pos` inside `depth` containers, and the
      position past it. */
  function Decode(data: seq<byte>, pos: nat, depth: nat): (r: Result<(Cbor, nat)>)
    ensures r.Ok? ==> pos < r.value.1 <= |data|
    decreases |data| - (if pos <= |data| then pos else |data|), 0, 0
  {
    var head := ReadHead(data, pos);
    if head.Err? then Err(head.error)
    else
      var (Head(major, arg, indefinite), at) := head.value;
      if indefinite && (major == 0 || major == 2 || major == 4 || major == 5) then Err(UnsupportedIndefiniteLength)
      else if (major == 4 || major == 5) && depth >= MAX_DEPTH then Err(NestingTooDeep)
      else if major == 0 then Ok((Uint(arg), at))
      else if major == 2 then
        var bytes := Take(data, at, arg);
        if bytes.Err? then Err(bytes.error) else Ok((Bytes(bytes.value.0), bytes.value.1))
      else if major == 4 then
        var count := CheckCount(data, at, arg);
        if count.Err? then Err(count.error)
        else
          var items := DecodeItems(data, at, count.value, depth + 1);
          if items.Err? then Err(items.error) else Ok((Array(items.value.0), items.value.1))
      else if major == 5 then
        if 2 * arg >= U64 then Err(UnexpectedEof)
        else
          var count := CheckCount(data, at, 2 * arg);
          if count.Err? then Err(count.error)
          else
            var entries := DecodeEntries(data, at, count.value / 2, depth + 1);
            if entries.Err? then Err(entries.error) else Ok((Map(entries.value.0), entries.value.1))
      else if major == 7 then
        if arg == 20 then Ok((Bool(false), at))
        else if arg == 21 then Ok((Bool(true), at))
        else if arg == 22 || arg == 23 then Ok((Null, at))
        else Err(UnsupportedSimpleValue(arg))
      else Err(UnsupportedMajorType(major))
  }

  function DecodeItems(data: seq<byte>, pos: nat, count: nat, depth: nat): (r: Result<(seq<Cbor>, nat)>)
    requires pos <= |data|
    ensures r.Ok? ==> pos <= r.value.1 <= |data| && |r.value.0| == count
    decreases |data| - pos, 1, count
  {
    if count == 0 then Ok(([], pos))
    else
      var first := Decode(data, pos, depth);
      if first.Err? then Err(first.error)
      else PrependItems([first.value.0], DecodeItems(data, first.value.1, count - 1, depth))
  }

  function PrependItems(items: seq<Cbor>, rest: Result<(seq<Cbor>, nat)>): Result<(seq<Cbor>, nat)> {
    if rest.Err? then rest else Ok((items + rest.value.0, rest.value.1))
  }

  function DecodeEntries(data: seq<byte>, pos: nat, count: nat, depth: nat): (r: Result<(seq<Entry>, nat)>)
    requires pos <= |data|
    ensures r.Ok? ==> pos <= r.value.1 <= |data| && |r.value.0| == count
    decreases |data| - pos, 1, count
  {
    if count == 0 then Ok(([], pos))
    else
      var key := Decode(data, pos, depth);
      if key.Err? then Err(key.error)
      else
        var value := Decode(data, key.value.1, depth);
        if value.Err? then Err(value.error)
        else PrependEntries([Entry(key.value.0, value.value.0)], DecodeEntries(data, value.value.1, count - 1, depth))
  }

  function PrependEntries(entries: seq<Entry>, rest: Result<(seq<Entry>, nat)>): Result<(seq<Entry>, nat)> {
    if rest.Err? then rest else Ok((entries + rest.value.0, rest.value.1))
  }

  lemma {:induction false} PrependItemsChains(a: seq<Cbor>, b: seq<Cbor>, rest: Result<(seq<Cbor>, nat)>)
    ensures PrependItems(a, PrependItems(b, rest)) == PrependItems(a + b, rest)
    ensures PrependItems([], rest) == rest
  {
    if rest.Ok? {
      assert a + (b + rest.value.0) == (a + b) + rest.value.0;
      assert [] + rest.value.0 == rest.value.0;
    }
  }

  lemma {:induction false} PrependEntriesChains(a: seq<Entry>, b: seq<Entry>, rest: Result<(seq<Entry>, nat)>)
    ensures PrependEntries(a, PrependEntries(b, rest)) == PrependEntries(a + b, rest)
    ensures PrependEntries([], rest) == rest
  {
    if rest.Ok? {
      assert a + (b + rest.value.0) == (a + b) + rest.value.0;
      assert [] + rest.value.0 == rest.value.0;
    }
  }

  /** The loop of `decode_value` over the items of an array. */
  method DecodeArray(data: seq<byte>, pos: nat, count: nat, depth: nat) returns (r: Result<(seq<Cbor>, nat)>)
    requires pos <= |data|
    ensures r == DecodeItems(data, pos, count, depth)
    decreases |data| - pos, 1
  {
    var items: seq<Cbor>, p := [], pos;
    PrependItemsChains([], [], DecodeItems(data, pos, count, depth));
    for i := 0 to count
      invariant pos <= p <= |data|
      invariant DecodeItems(data, pos, count, depth) == PrependItems(items, DecodeItems(data, p, count - i, depth))
    {
      var item := DecodeValue(data, p, depth);
      if item.Err? {
        return Err(item.error);
      }
      PrependItemsChains(items, [item.value.0], DecodeItems(data, item.value.1, count - i - 1, depth));
      items, p := items + [item.value.0], item.value.1;
    }
    assert items + [] == items;
    r := Ok((items, p));
  }

  /** The loop of `decode_value` over the entries of a map. */
  method DecodeMap(data: seq<byte>, pos: nat, count: nat, depth: nat) returns (r: Result<(seq<Entry>, nat)>)
    requires pos <= |data|
    ensures r == DecodeEntries(data, pos, count, depth)
    decreases |data| - pos, 1
  {
    var entries: seq<Entry>, p := [], pos;
    PrependEntriesChains([], [], DecodeEntries(data, pos, count, depth));
    for i := 0 to count
      invariant pos <= p <= |data|
      invariant DecodeEntries(data, pos, count, depth) == PrependEntries(entries, DecodeEntries(data, p, count - i, depth))
    {
      var key := DecodeValue(data, p, depth);
      if key.Err? {
        return Err(key.error);
      }
      var value := DecodeValue(data, key.value.1, depth);
      if value.Err? {
        return Err(value.error);
      }
      var entry := Entry(key.value.0, value.value.0);
      PrependEntriesChains(entries, [entry], DecodeEntries(data, value.value.1, count - i - 1, depth));
      entries, p := entries + [entry], value.value.1;
    }
    assert entries + [] == entries;
    r := Ok((entries, p));
  }

  /** `decode_value`. */
  method DecodeValue(data: seq<byte>, pos: nat, depth: nat) returns (r: Result<(Cbor, nat)>)
    ensures r == Decode(data, pos, depth)
    decreases |data| - (if pos <= |data| then pos else |data|), 0
  {
    var head := ReadHead(data, pos);
    if head.Err? {
      return Err(head.error);
    }
    var (Head(major, arg, indefinite), at) := head.value;
    if indefinite && (major == 0 || major == 2 || major == 4 || major == 5) {
      return Err(UnsupportedIndefiniteLength);
    }
    if (major == 4 || major == 5) && depth >= MAX_DEPTH {
      return Err(NestingTooDeep);
    }
    if major == 0 {
      return Ok((Uint(arg), at));
    } else if major == 2 {
      var bytes := Take(data, at, arg);
      return if bytes.Err? then Err(bytes.error) else Ok((Bytes(bytes.value.0), bytes.value.1));
    } else if major == 4 {
      var count := CheckCount(data, at, arg);
      if count.Err? {
        return Err(count.error);
      }
      var items := DecodeArray(data, at, count.value, depth + 1);
      return if items.Err? then Err(items.error) else Ok((Array(items.value.0), items.value.1));
    } else if major == 5 {
      if 2 * arg >= U64 {
        return Err(UnexpectedEof);
      }
      var count := CheckCount(data, at, 2 * arg);
      if count.Err? {
        return Err(count.error);
      }
      var entries := DecodeMap(data, at, count.value / 2, depth + 1);
      return if entries.Err? then Err(entries.error) else Ok((Map(entries.value.0), entries.value.1));
    } else if major == 7 {
      if arg == 20 {
        return Ok((Bool(false), at));
      } else if arg == 21 {
        return Ok((Bool(true), at));
      } else if arg == 22 || arg == 23 {
        return Ok((Null, at));
      }
      return Err(UnsupportedSimpleValue(arg));
    }
    r := Err(UnsupportedMajorType(major));
  }
}
