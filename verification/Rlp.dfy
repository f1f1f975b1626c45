/** RLP, src/rlp.rs: what `decode` accepts is what `encode` writes. */
module Rlp {
  import opened Bytes

  datatype Error = UnexpectedEof | NonCanonicalSize | NonCanonicalValue | IntegerTooLong

  datatype Result<+T> = Ok(value: T) | Err(error: Error)

  datatype RlpItem = Bytes(b: seq<byte>) | List(items: seq<RlpItem>)

  // ----- integers without leading zeros -----

  function Trim(s: seq<byte>): (t: seq<byte>)
    ensures |t| <= |s| && (t != [] ==> t[0] != 0)
  {
    if s != [] && s[0] == 0 then Trim(s[1..]) else s
  }

  /** `trim_left_zeros`. */
  method TrimLeftZeros(s: seq<byte>) returns (t: seq<byte>)
    ensures t == Trim(s)
  {
    t := s;
    while t != [] && t[0] == 0
      invariant Trim(t) == Trim(s)
      decreases |t|
    {
      t := t[1..];
    }
  }

  lemma {:induction false} ZeroInFront(s: seq<byte>)
    ensures BeValue([0] + s) == BeValue(s)
  {
    if s != [] {
      var t := [0] + s;
      assert t[..|t| - 1] == [0] + s[..|s| - 1];
      ZeroInFront(s[..|s| - 1]);
    }
  }

  lemma {:induction false} TrimKeepsValue(s: seq<byte>)
    ensures BeValue(Trim(s)) == BeValue(s)
  {
    if s != [] && s[0] == 0 {
      TrimKeepsValue(s[1..]);
      ZeroInFront(s[1..]);
      assert s == [0] + s[1..];
    }
  }

  function Zeros(n: nat): (s: seq<byte>)
    ensures |s| == n
  {
    seq(n, _ => 0 as byte)
  }

  lemma {:induction false} ZeroPadded(t: seq<byte>, n: nat)
    requires |t| <= n
    ensures Be(BeValue(t), n) == Zeros(n - |t|) + t
    decreases n
  {
    if t == [] {
      if n > 0 {
        ZeroPadded(t, n - 1);
        assert Zeros(n) == Zeros(n - 1) + [0];
      }
    } else {
      var front := t[..|t| - 1];
      ZeroPadded(front, n - 1);
      assert t == front + [t[|t| - 1]];
      assert BeValue(t) == 256 * BeValue(front) + t[|t| - 1] as nat;
    }
  }

  lemma {:induction false} TrimOfPadded(t: seq<byte>, k: nat)
    requires t != [] ==> t[0] != 0
    ensures Trim(Zeros(k) + t) == t
  {
    if k > 0 {
      assert (Zeros(k) + t)[1..] == Zeros(k - 1) + t;
      TrimOfPadded(t, k - 1);
    } else {
      assert Zeros(0) + t == t;
    }
  }

  /** The trimmed bytes of an integer: `to_be_bytes` without its leading zeros. */
  function Digits(v: nat): (t: seq<byte>)
    ensures |t| <= 8 && (t != [] ==> t[0] != 0)
  {
    Trim(Be(v, 8))
  }

  lemma {:induction false} DigitsReadBack(v: nat)
    requires v < U64
    ensures BeValue(Digits(v)) == v && (v > 0 ==> Digits(v) != [])
  {
    Spans();
    BeReadsBack(v, 8);
    TrimKeepsValue(Be(v, 8));
  }

  lemma {:induction false} DigitsWriteBack(t: seq<byte>)
    requires |t| <= 8 && (t != [] ==> t[0] != 0)
    ensures Digits(BeValue(t)) == t && BeValue(t) < U64
  {
    ZeroPadded(t, 8);
    TrimOfPadded(t, 8 - |t|);
    SpanGrows(|t|, 8);
    Spans();
  }

  lemma {:induction false} SpanGrows(m: nat, n: nat)
    requires m <= n
    ensures Span(m) <= Span(n)
  {
    if m < n {
      SpanGrows(m, n - 1);
    }
  }

  /** `decode_uint64_checked`. */
  function DecodeUint64(buf: seq<byte>): (r: Result<nat>)
    ensures r.Ok? ==> r.value < U64
  {
    if |buf| > 8 then Err(IntegerTooLong)
    else
      Spans();
      Ok(BeValue(Zeros(8 - |buf|) + buf))
  }

  /** A string of up to eight bytes is read as its value, whatever zeros lead it, and
      `RlpItem::uint` of that value is the string without them. */
  lemma {:induction false} UintReadsBack(v: nat, zeros: nat)
    requires v < U64
    ensures DecodeUint64(Zeros(zeros) + Digits(v)) == if zeros + |Digits(v)| > 8 then Err(IntegerTooLong) else Ok(v)
  {
    var t := Zeros(zeros) + Digits(v);
    if |t| <= 8 {
      DigitsReadBack(v);
      var n := 8 - |t| + zeros;
      assert Zeros(8 - |t|) + t == Zeros(n) + Digits(v);
      TrimOfPadded(Digits(v), n);
      TrimKeepsValue(Zeros(n) + Digits(v));
    }
  }

  // ----- encoding -----

  /** `encode_len`. */
  function EncodeLen(ln: nat, isArray: bool): (s: seq<byte>)
    requires ln < U64
    ensures s != []
  {
    var flag := if isArray then 0x40 else 0;
    if ln <= 55 then [(0x80 + ln + flag) as byte]
    else [(0xb7 + flag + |Digits(ln)|) as byte] + Digits(ln)
  }

  /** Every length fits 64 bits, as it does in memory. */
  ghost predicate Fits(item: RlpItem)
    decreases item, 0
  {
    match item
    case Bytes(b) => |b| < U64
    case List(items) => AllFit(items) && |EncodeAll(items)| < U64
  }

  ghost predicate AllFit(items: seq<RlpItem>)
    decreases items, 1
  {
    forall i :: 0 <= i < |items| ==> Fits(items[i])
  }

  /** `RlpItem::encode`. */
  ghost function Encode(item: RlpItem): (s: seq<byte>)
    requires Fits(item)
    ensures s != []
    decreases item, 2
  {
    match item
    case Bytes(b) => if |b| == 1 && b[0] <= 0x7f then b else EncodeLen(|b|, false) + b
    case List(items) => EncodeLen(|EncodeAll(items)|, true) + EncodeAll(items)
  }

  ghost function EncodeAll(items: seq<RlpItem>): seq<byte>
    requires AllFit(items)
    decreases items, 3
  {
    if items == [] then [] else Encode(items[0]) + EncodeAll(items[1..])
  }

  lemma {:induction false} AllInTurn(items: seq<RlpItem>, i: nat)
    requires AllFit(items) && i < |items|
    ensures AllFit(items[i..]) && AllFit(items[i + 1..])
    ensures EncodeAll(items[i..]) == Encode(items[i]) + EncodeAll(items[i + 1..])
  {
    hide Encode, Fits;
    assert items[i..][1..] == items[i + 1..];
  }

  /** The match of `RlpItem::encode`. */
  method EncodeItem(item: RlpItem) returns (out: seq<byte>)
    requires Fits(item)
    ensures out == Encode(item)
    decreases item, 0
  {
    match item
    case Bytes(b) =>
      if |b| == 1 && b[0] <= 0x7f {
        out := [b[0]];
      } else {
        out := EncodeLen(|b|, false);
        out := out + b;
      }
    case List(items) =>
      out := EncodeList(items);
  }

  /** `encode_list`. */
  method EncodeList(items: seq<RlpItem>) returns (out: seq<byte>)
    requires Fits(List(items))
    ensures out == Encode(List(items))
    decreases items, 1
  {
    var body: seq<byte> := [];
    assert items[0..] == items;
    for i := 0 to |items|
      invariant AllFit(items[i..]) && body + EncodeAll(items[i..]) == EncodeAll(items)
    {
      AllInTurn(items, i);
      assert items[i] in items;
      ghost var rest := EncodeAll(items[i + 1..]);
      assert body + (Encode(items[i]) + rest) == (body + Encode(items[i])) + rest;
      var bytes := EncodeItem(items[i]);
      body := body + bytes;
    }
    assert items[|items|..] == [] && body + [] == body;
    out := EncodeLen(|body|, true);
    out := out + body;
  }

  // ----- decoding -----

  /** The length an item claims and the bytes from its payload on. */
  function ReadLen(ln: nat, buf: seq<byte>): (r: Result<(nat, seq<byte>)>)
    requires ln < 64
    ensures r.Ok? ==> r.value.0 <= |r.value.1| <= |buf|
  {
    if |buf| < ln then Err(UnexpectedEof)
    else if ln <= 55 then Ok((ln, buf))
    else if buf[0] == 0 then Err(NonCanonicalSize)
    else
      var long, rest := BeValue(buf[..ln - 55]), buf[ln - 55..];
      if long <= 55 then Err(NonCanonicalSize)
      else if |rest| < long then Err(UnexpectedEof)
      else Ok((long, rest))
  }

  /** `decode_one`: the item at the front, and the bytes after it. */
  function DecodeOne(buf: seq<byte>): (r: Result<(RlpItem, seq<byte>)>)
    ensures r.Ok? ==> |r.value.1| < |buf|
    decreases |buf|, 0
  {
    if buf == [] then Err(UnexpectedEof)
    else if buf[0] <= 0x7f then Ok((Bytes([buf[0]]), buf[1..]))
    else
      var c := buf[0] as nat;
      var len := ReadLen(c % 64, buf[1..]);
      if len.Err? then Err(len.error)
      else DecodePayload(c / 64 % 2 == 1, len.value.1[..len.value.0], len.value.1[len.value.0..])
  }

  function DecodePayload(isArray: bool, v: seq<byte>, rest: seq<byte>): (r: Result<(RlpItem, seq<byte>)>)
    ensures r.Ok? ==> r.value.1 == rest
    decreases |v|, 2
  {
    if isArray then
      var items := Decode(v);
      if items.Err? then Err(items.error) else Ok((List(items.value), rest))
    else if |v| == 1 && v[0] <= 0x7f then Err(NonCanonicalValue)
    else Ok((Bytes(v), rest))
  }

  /** `decode`: items up to the end. */
  function Decode(buf: seq<byte>): Result<seq<RlpItem>>
    decreases |buf|, 1
  {
    if buf == [] then Ok([])
    else
      var first := DecodeOne(buf);
      if first.Err? then Err(first.error) else Prepend([first.value.0], Decode(first.value.1))
  }

  function Prepend(items: seq<RlpItem>, rest: Result<seq<RlpItem>>): Result<seq<RlpItem>> {
    if rest.Err? then rest else Ok(items + rest.value)
  }

  lemma {:induction false} PrependChains(a: seq<RlpItem>, b: seq<RlpItem>, rest: Result<seq<RlpItem>>)
    ensures Prepend(a, Prepend(b, rest)) == Prepend(a + b, rest)
    ensures Prepend([], rest) == rest
  {
    if rest.Ok? {
      assert a + (b + rest.value) == (a + b) + rest.value;
      assert [] + rest.value == rest.value;
    }
  }

  method DecodeItem(buf0: seq<byte>) returns (r: Result<(RlpItem, seq<byte>)>)
    ensures r == DecodeOne(buf0)
    decreases |buf0|, 0
  {
    if buf0 == [] {
      return Err(UnexpectedEof);
    }
    var c, buf := buf0[0], buf0[1..];
    if c <= 0x7f {
      return Ok((Bytes([c]), buf));
    }
    var isArray := c as nat / 64 % 2 == 1;
    var ln := c as nat % 64;
    if |buf| < ln {
      return Err(UnexpectedEof);
    }
    if ln > 55 {
      var lnLen := ln - 55;
      if buf[0] == 0 {
        return Err(NonCanonicalSize);
      }
      ln := BeValue(buf[..lnLen]);
      buf := buf[lnLen..];
      if ln <= 55 {
        return Err(NonCanonicalSize);
      }
      if |buf| < ln {
        return Err(UnexpectedEof);
      }
    }
    var v, rest := buf[..ln], buf[ln..];
    if isArray {
      var items := DecodeList(v);
      return if items.Err? then Err(items.error) else Ok((List(items.value), rest));
    }
    if |v| == 1 && v[0] <= 0x7f {
      return Err(NonCanonicalValue);
    }
    r := Ok((Bytes(v), rest));
  }

  method DecodeList(buf0: seq<byte>) returns (r: Result<seq<RlpItem>>)
    ensures r == Decode(buf0)
    decreases |buf0|, 1
  {
    hide DecodeOne;
    var res: seq<RlpItem>, buf := [], buf0;
    PrependChains([], [], Decode(buf));
    while buf != []
      invariant |buf| <= |buf0|
      invariant Prepend(res, Decode(buf)) == Decode(buf0)
      decreases |buf|
    {
      var one := DecodeItem(buf);
      if one.Err? {
        return Err(one.error);
      }
      PrependChains(res, [one.value.0], Decode(one.value.1));
      res, buf := res + [one.value.0], one.value.1;
    }
    assert res + [] == res;
    r := Ok(res);
  }

  // ----- decoding and encoding are inverse -----

  lemma {:induction false} LongLenReadsBack(ln: nat, tail: seq<byte>)
    requires 55 < ln < U64 && ln <= |tail|
    ensures var t := Digits(ln); 1 <= |t| && ReadLen(55 + |t|, t + tail) == Ok((ln, tail))
  {
    hide Digits, BeValue;
    var t := Digits(ln);
    DigitsReadBack(ln);
    assert (t + tail)[..|t|] == t && (t + tail)[|t|..] == tail;
  }

  /** The head byte of an item that is not a byte on its own. */
  lemma {:induction false} PayloadRead(c: byte, buf: seq<byte>, ln: nat, isArray: bool)
    requires ln < 64 && c as nat == 0x80 + (if isArray then 0x40 else 0) + ln && ReadLen(ln, buf).Ok?
    ensures var (len, payload) := ReadLen(ln, buf).value;
            DecodeOne([c] + buf) == DecodePayload(isArray, payload[..len], payload[len..])
  {
    hide ReadLen, DecodePayload;
    assert ([c] + buf)[1..] == buf;
    assert c as nat % 64 == ln && (c as nat / 64 % 2 == 1) == isArray;
  }

  /** A length prefix is read back, whatever follows the payload. */
  lemma {:induction false} LenReadsBack(isArray: bool, v: seq<byte>, rest: seq<byte>)
    requires |v| < U64
    ensures DecodeOne(EncodeLen(|v|, isArray) + v + rest) == DecodePayload(isArray, v, rest)
  {
    hide DecodePayload, DecodeOne, Digits;
    var ln, prefix, tail := |v|, EncodeLen(|v|, isArray), v + rest;
    assert tail[..ln] == v && tail[ln..] == rest && prefix + v + rest == prefix + tail;
    if ln <= 55 {
      PayloadRead(prefix[0], tail, ln, isArray);
    } else {
      var t := Digits(ln);
      LongLenReadsBack(ln, tail);
      assert prefix + tail == [prefix[0]] + (t + tail);
      PayloadRead(prefix[0], t + tail, 55 + |t|, isArray);
    }
  }

  /** Decoding what was encoded, with anything after it. */
  lemma {:induction false} EncodedReadsBack(item: RlpItem, rest: seq<byte>)
    requires Fits(item)
    ensures DecodeOne(Encode(item) + rest) == Ok((item, rest))
    decreases item, 0
  {
    match item
    case Bytes(b) =>
      if |b| == 1 && b[0] <= 0x7f {
        assert (b + rest)[1..] == rest && b == [b[0]];
      } else {
        LenReadsBack(false, b, rest);
      }
    case List(items) =>
      LenReadsBack(true, EncodeAll(items), rest);
      AllReadBack(items);
  }

  lemma {:induction false} AllReadBack(items: seq<RlpItem>)
    requires AllFit(items)
    ensures Decode(EncodeAll(items)) == Ok(items)
    decreases items, 1
  {
    hide DecodeOne, Encode;
    if items != [] {
      EncodedReadsBack(items[0], EncodeAll(items[1..]));
      AllReadBack(items[1..]);
      assert items == [items[0]] + items[1..];
    }
  }

  /** Whatever is read was written canonically: the length prefix is the one
      `encode_len` writes. */
  lemma {:induction false} LenWritesBack(ln: nat, buf: seq<byte>)
    requires ln < 64 && ReadLen(ln, buf).Ok?
    ensures var (len, rest) := ReadLen(ln, buf).value;
            len < U64 && forall isArray: bool ::
              [(0x80 + (if isArray then 0x40 else 0) + ln) as byte] + buf == EncodeLen(len, isArray) + rest
  {
    hide Digits;
    if ln > 55 {
      var t, rest := buf[..ln - 55], buf[ln - 55..];
      DigitsWriteBack(t);
      assert buf == t + rest;
      forall isArray: bool ensures [(0x80 + (if isArray then 0x40 else 0) + ln) as byte] + buf == EncodeLen(BeValue(t), isArray) + rest {
        var c := (0x80 + (if isArray then 0x40 else 0) + ln) as byte;
        assert EncodeLen(BeValue(t), isArray) == [c] + t;
        assert [c] + (t + rest) == [c] + t + rest;
      }
    }
  }

  lemma {:induction false} HeadOf(c: byte)
    requires c > 0x7f
    ensures c == (0x80 + (if c as nat / 64 % 2 == 1 then 0x40 else 0) + c as nat % 64) as byte
  {
  }

  /** What is decoded encodes to the very bytes it was decoded from. */
  lemma {:induction false} DecodedWritesBack(buf: seq<byte>)
    requires DecodeOne(buf).Ok?
    ensures var (item, rest) := DecodeOne(buf).value; Fits(item) && buf == Encode(item) + rest
    decreases |buf|, 0
  {
    hide ReadLen, EncodeLen, Digits;
    var c := buf[0];
    if c <= 0x7f {
      assert buf == [c] + buf[1..];
    } else {
      var isArray := c as nat / 64 % 2 == 1;
      HeadOf(c);
      LenWritesBack(c as nat % 64, buf[1..]);
      var (len, payload) := ReadLen(c as nat % 64, buf[1..]).value;
      var v, rest := payload[..len], payload[len..];
      assert payload == v + rest && buf == [c] + buf[1..];
      assert buf == EncodeLen(len, isArray) + (v + rest) == EncodeLen(len, isArray) + v + rest;
      if isArray {
        AllWriteBack(v);
      }
    }
  }

  lemma {:induction false} AllWriteBack(buf: seq<byte>)
    requires Decode(buf).Ok?
    ensures AllFit(Decode(buf).value) && buf == EncodeAll(Decode(buf).value)
    decreases |buf|, 1
  {
    hide DecodeOne, Encode, Fits;
    if buf != [] {
      DecodedWritesBack(buf);
      var (first, rest) := DecodeOne(buf).value;
      AllWriteBack(rest);
      var items := Decode(buf).value;
      assert items == [first] + Decode(rest).value && items[1..] == Decode(rest).value;
    }
  }

  /** `decode` accepts exactly the concatenations of encodings, nested to any
      depth: every other input, canonical or not, is refused. */
  lemma {:induction false} DecodeInvertsEncode(buf: seq<byte>, items: seq<RlpItem>)
    ensures Decode(buf) == Ok(items) <==> AllFit(items) && buf == EncodeAll(items)
  {
    if Decode(buf) == Ok(items) {
      AllWriteBack(buf);
    }
    if AllFit(items) && buf == EncodeAll(items) {
      AllReadBack(items);
    }
  }
}
