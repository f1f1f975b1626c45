/** The parts of BBQr, src/bbqr.rs: headers, encoded data, and how a file is cut. */
module Bbqr {
  import opened Options
  import opened Bytes
  import opened Ceiling
  import B = Base32

  const HEADER_LEN := 8
  const MAX_PARTS := 1295

  datatype Error =
    | InvalidHeader | UnsupportedEncoding(c: byte) | InvalidIndex | InvalidEncoding | BufferTooSmall
    | InvalidCompression | InconsistentPart | Incomplete | TooLarge | TooManyParts | PartTooSmall

  datatype Result<+T> = Ok(value: T) | Err(error: Error)

  datatype Encoding = Hex | Base32 | Zlib

  datatype Header = Header(encoding: Encoding, fileType: byte, numParts: nat, index: nat)

  // ----- headers -----

  function EncodingChar(e: Encoding): byte {
    match e
    case Hex => 72
    case Base32 => 50
    case Zlib => 90
  }

  function EncodingOf(c: byte): Option<Encoding> {
    if c == 72 || c == 104 then Some(Hex) else if c == 50 then Some(Base32) else if c == 90 || c == 122 then Some(Zlib) else None
  }

  predicate IsAlphanumeric(c: byte) {
    48 <= c <= 57 || 65 <= c <= 90 || 97 <= c <= 122
  }

  /** A file type is an upper-case letter or a digit. */
  predicate IsFileType(c: byte) {
    IsAlphanumeric(c) && B.Upper(c) == c
  }

  function Digit36(v: nat): byte
    requires v < 36
  {
    if v < 10 then (48 + v) as byte else (55 + v) as byte
  }

  /** `base36_digit`. */
  function Value36(c: byte): (v: Option<nat>)
    ensures v.Some? ==> v.value < 36
  {
    if 48 <= c <= 57 then Some((c - 48) as nat)
    else if 65 <= c <= 90 then Some((c - 55) as nat)
    else if 97 <= c <= 122 then Some((c - 87) as nat)
    else None
  }

  function Number36(high: byte, low: byte): Option<nat> {
    var h, l := Value36(high), Value36(low);
    if h.None? || l.None? then None else Some(h.value * 36 + l.value)
  }

  predicate ValidHeader(h: Header) {
    IsFileType(h.fileType) && 1 <= h.numParts <= MAX_PARTS && h.index < h.numParts
  }

  /** `Header::to_bytes`. */
  function HeaderBytes(h: Header): (r: Result<seq<byte>>)
    ensures r.Ok? ==> |r.value| == HEADER_LEN
    ensures r.Ok? <==> 1 <= h.numParts <= MAX_PARTS && h.index < h.numParts
  {
    if h.numParts == 0 || h.numParts > MAX_PARTS || h.index >= h.numParts then Err(InvalidIndex)
    else
      Ok([66, 36, EncodingChar(h.encoding), h.fileType, Digit36(h.numParts / 36 % 36), Digit36(h.numParts % 36),
          Digit36(h.index / 36 % 36), Digit36(h.index % 36)])
  }

  /** `Header::parse`. */
  function ParseHeader(part: seq<byte>): (r: Result<(Header, seq<byte>)>)
    ensures r.Ok? ==> |part| >= HEADER_LEN && r.value.1 == part[HEADER_LEN..] && ValidHeader(r.value.0)
  {
    if |part| < HEADER_LEN || (part[0] != 66 && part[0] != 98) || part[1] != 36 then Err(InvalidHeader)
    else if !IsAlphanumeric(part[3]) then Err(InvalidHeader)
    else
      var numParts, index := Number36(part[4], part[5]), Number36(part[6], part[7]);
      if numParts.None? || index.None? || !IsAlphanumeric(part[2]) then Err(InvalidHeader)
      else
        var encoding := EncodingOf(part[2]);
        if encoding.None? then Err(UnsupportedEncoding(part[2]))
        else if numParts.value == 0 || index.value >= numParts.value then Err(InvalidIndex)
        else Ok((Header(encoding.value, B.Upper(part[3]), numParts.value, index.value), part[HEADER_LEN..]))
  }

  lemma {:induction false} Digit36ReadsBack(v: nat)
    requires v < 36
    ensures Value36(Digit36(v)) == Some(v) && B.Upper(Digit36(v)) == Digit36(v)
  {
  }

  lemma {:induction false} Digit36WritesBack(c: byte)
    requires Value36(c).Some?
    ensures Digit36(Value36(c).value) == B.Upper(c)
  {
  }

  lemma {:induction false} Number36ReadsBack(v: nat)
    requires v < 36 * 36
    ensures v / 36 < 36 && Number36(Digit36(v / 36), Digit36(v % 36)) == Some(v)
  {
    hide Value36, Digit36;
    Digit36ReadsBack(v / 36);
    Digit36ReadsBack(v % 36);
  }

  /** A header is read back from the front of whatever follows it. */
  lemma {:induction false} HeaderReadsBack(h: Header, body: seq<byte>)
    requires ValidHeader(h)
    ensures ParseHeader(HeaderBytes(h).value + body) == Ok((h, body))
  {
    hide Number36, Digit36;
    var part := HeaderBytes(h).value + body;
    Number36ReadsBack(h.numParts);
    Number36ReadsBack(h.index);
    assert part[HEADER_LEN..] == body;
  }

  /** And it was written that way, up to case. */
  lemma {:induction false} HeaderWritesBack(part: seq<byte>)
    requires ParseHeader(part).Ok?
    ensures HeaderBytes(ParseHeader(part).value.0) == Ok(B.UpperAll(part[..HEADER_LEN]))
  {
    hide Value36, Digit36, B.Upper, IsFileType;
    Digit36WritesBack(part[4]);
    Digit36WritesBack(part[5]);
    Digit36WritesBack(part[6]);
    Digit36WritesBack(part[7]);
    HeaderChars(part[0], part[2]);
    Parts36(Value36(part[4]).value, Value36(part[5]).value);
    Parts36(Value36(part[6]).value, Value36(part[7]).value);
    var upper, h := B.UpperAll(part[..HEADER_LEN]), ParseHeader(part).value.0;
    assert HeaderBytes(h).value == upper;
  }

  lemma {:induction false} Parts36(a: nat, b: nat)
    requires a < 36 && b < 36
    ensures (a * 36 + b) / 36 % 36 == a && (a * 36 + b) % 36 == b
  {
  }

  lemma {:induction false} HeaderChars(b: byte, e: byte)
    requires (b == 66 || b == 98) && EncodingOf(e).Some?
    ensures B.Upper(b) == 66 && B.Upper(36) == 36 && EncodingChar(EncodingOf(e).value) == B.Upper(e)
  {
  }

  // ----- hex -----

  function HexDigit(v: byte): byte
    requires v < 16
  {
    if v < 10 then 48 + v else 55 + v
  }

  function HexValue(c: byte): (v: Option<byte>)
    ensures v.Some? ==> v.value < 16
  {
    if 48 <= c <= 57 then Some(c - 48)
    else if 65 <= c <= 70 then Some(c - 55)
    else if 97 <= c <= 102 then Some(c - 87)
    else None
  }

  function HexEncoded(data: seq<byte>): (t: seq<byte>)
    ensures |t| == 2 * |data|
  {
    if data == [] then [] else [HexDigit(data[0] / 16), HexDigit(data[0] % 16)] + HexEncoded(data[1..])
  }

  function HexDecoded(t: seq<byte>): Option<seq<byte>> {
    if t == [] then Some([])
    else if |t| == 1 || HexValue(t[0]).None? || HexValue(t[1]).None? then None
    else B.Prepend([HexValue(t[0]).value * 16 + HexValue(t[1]).value], HexDecoded(t[2..]))
  }

  lemma {:induction false} HexReadsBack(data: seq<byte>)
    ensures HexDecoded(HexEncoded(data)) == Some(data)
  {
    if data != [] {
      HexReadsBack(data[1..]);
      var t := HexEncoded(data);
      assert t[2..] == HexEncoded(data[1..]);
      HexByte(data[0]);
      assert data == [data[0]] + data[1..];
    }
  }

  lemma {:induction false} HexByte(b: byte)
    ensures HexValue(HexDigit(b / 16)) == Some(b / 16) && HexValue(HexDigit(b % 16)) == Some(b % 16)
    ensures b / 16 * 16 + b % 16 == b
  {
  }

  lemma {:induction false} HexDigitsBack(c: byte, d: byte)
    requires HexValue(c).Some? && HexValue(d).Some?
    ensures var b := HexValue(c).value * 16 + HexValue(d).value;
            HexDigit(b / 16) == B.Upper(c) && HexDigit(b % 16) == B.Upper(d)
  {
  }

  lemma {:induction false} HexWritesBack(t: seq<byte>)
    requires HexDecoded(t).Some?
    ensures HexEncoded(HexDecoded(t).value) == B.UpperAll(t)
  {
    hide HexDigit, HexValue, B.Upper;
    if t != [] {
      HexWritesBack(t[2..]);
      HexDigitsBack(t[0], t[1]);
      var data := HexDecoded(t).value;
      assert data[1..] == HexDecoded(t[2..]).value;
      assert B.UpperAll(t) == [B.Upper(t[0]), B.Upper(t[1])] + B.UpperAll(t[2..]);
    }
  }

  lemma {:induction false} HexLength(t: seq<byte>)
    requires HexDecoded(t).Some?
    ensures |HexDecoded(t).value| * 2 == |t|
  {
    if t != [] {
      HexLength(t[2..]);
    }
  }

  // ----- parts -----

  /** `encoded_len`. */
  function EncodedLen(e: Encoding, n: nat): nat {
    if e == Hex then n * 2 else CeilDiv(n * 8, 5)
  }

  function EncodeBody(e: Encoding, data: seq<byte>): seq<byte> {
    if e == Hex then HexEncoded(data) else B.Encoded(data)
  }

  ghost function DecodeBody(e: Encoding, body: seq<byte>): Option<seq<byte>> {
    if e == Hex then HexDecoded(body) else B.Decoded(body)
  }

  /** `encoded_len` is exact. */
  lemma {:induction false} EncodedLenIsExact(e: Encoding, data: seq<byte>)
    ensures |EncodeBody(e, data)| == EncodedLen(e, |data|)
  {
    B.EncodedLength(data);
  }

  /** What `encode_part_to_slice` writes, in `room` bytes. */
  function EncodedPart(h: Header, data: seq<byte>, room: nat): Result<seq<byte>> {
    if HEADER_LEN + EncodedLen(h.encoding, |data|) > room then Err(BufferTooSmall)
    else
      var header := HeaderBytes(h);
      if header.Err? then header else Ok(header.value + EncodeBody(h.encoding, data))
  }

  method EncodeHex(data: seq<byte>) returns (t: seq<byte>)
    ensures t == HexEncoded(data)
  {
    hide HexDigit;
    t := [];
    assert data[0..] == data;
    for i := 0 to |data|
      invariant t + HexEncoded(data[i..]) == HexEncoded(data)
    {
      var b := data[i];
      var pair := [HexDigit(b / 16), HexDigit(b % 16)];
      assert data[i..][1..] == data[i + 1..];
      assert t + (pair + HexEncoded(data[i + 1..])) == t + pair + HexEncoded(data[i + 1..]);
      t := t + pair;
    }
    assert data[|data|..] == [] && t + [] == t;
  }

  /** `encode_part_to_slice`. */
  method EncodePart(h: Header, data: seq<byte>, room: nat) returns (r: Result<seq<byte>>)
    ensures r == EncodedPart(h, data, room)
  {
    hide B.Encoded, HexEncoded;
    if HEADER_LEN + EncodedLen(h.encoding, |data|) > room {
      return Err(BufferTooSmall);
    }
    var header := HeaderBytes(h);
    if header.Err? {
      return header;
    }
    var body;
    if h.encoding == Hex {
      body := EncodeHex(data);
    } else {
      body := B.EncodeBase32(data);
    }
    r := Ok(header.value + body);
  }

  /** The bytes a body of `n` characters takes, or that there is no such body. */
  function DecodedLen(e: Encoding, n: nat): Option<nat> {
    if e == Hex then if n % 2 == 1 then None else Some(n / 2)
    else if n % 8 == 1 || n % 8 == 3 || n % 8 == 6 then None
    else Some(n * 5 / 8)
  }

  /** What `decode_part_to_slice` makes of a part, in `room` bytes. */
  ghost function DecodedPart(part: seq<byte>, room: nat): Result<(Header, seq<byte>)> {
    var header := ParseHeader(part);
    if header.Err? then Err(header.error)
    else
      var (h, body) := header.value;
      var len, data := DecodedLen(h.encoding, |body|), DecodeBody(h.encoding, body);
      if len.None? then Err(InvalidEncoding)
      else if len.value > room then Err(BufferTooSmall)
      else if data.None? then Err(InvalidEncoding)
      else Ok((h, data.value))
  }

  method DecodeHex(t: seq<byte>) returns (r: Option<seq<byte>>)
    requires |t| % 2 == 0
    ensures r == HexDecoded(t)
  {
    hide HexValue;
    var out: seq<byte>, i := [], 0;
    assert t[0..] == t;
    B.KeepsAll(HexDecoded(t));
    while i < |t|
      invariant 0 <= i <= |t| && i % 2 == 0 && B.Prepend(out, HexDecoded(t[i..])) == HexDecoded(t)
    {
      var high, low := HexValue(t[i]), HexValue(t[i + 1]);
      if high.None? || low.None? {
        return None;
      }
      var b := [high.value * 16 + low.value];
      assert t[i..][2..] == t[i + 2..];
      B.Chained(out, b, HexDecoded(t[i + 2..]));
      out, i := out + b, i + 2;
    }
    assert t[|t|..] == [] && out + [] == out;
    r := Some(out);
  }

  /** `decode_part_to_slice`. */
  method DecodePart(part: seq<byte>, room: nat) returns (r: Result<(Header, seq<byte>)>)
    ensures r == DecodedPart(part, room)
  {
    hide B.Decoded, HexDecoded;
    var header := ParseHeader(part);
    if header.Err? {
      return Err(header.error);
    }
    var (h, body) := header.value;
    var len := DecodedLen(h.encoding, |body|);
    if len.None? {
      return Err(InvalidEncoding);
    }
    if len.value > room {
      return Err(BufferTooSmall);
    }
    var data;
    if h.encoding == Hex {
      data := DecodeHex(body);
    } else {
      data := B.DecodeBase32(body);
    }
    r := if data.None? then Err(InvalidEncoding) else Ok((h, data.value));
  }

  /** Decoded data takes the room that was checked for. */
  lemma {:induction false} DecodedLenIsExact(e: Encoding, body: seq<byte>)
    requires DecodeBody(e, body).Some?
    ensures DecodedLen(e, |body|) == Some(|DecodeBody(e, body).value|)
  {
    hide B.Values, B.AllLetters;
    if e == Hex {
      HexLength(body);
    } else {
      B.GoodLengths(B.Values(body));
    }
  }

  /** Decoding an encoded part gives back its header and data. */
  lemma {:induction false} DecodeInvertsEncode(h: Header, data: seq<byte>, room: nat)
    requires ValidHeader(h) && room >= |data|
    ensures DecodedPart(HeaderBytes(h).value + EncodeBody(h.encoding, data), room) == Ok((h, data))
  {
    hide HexEncoded, HexDecoded, B.Encoded, B.Decoded, HeaderBytes, ParseHeader, DecodedLen;
    HeaderReadsBack(h, EncodeBody(h.encoding, data));
    HexReadsBack(data);
    B.DecodeInvertsEncode(data);
    DecodedLenIsExact(h.encoding, EncodeBody(h.encoding, data));
  }

  /** Encoding a decoded part gives its text in upper case. */
  lemma {:induction false} EncodeInvertsDecode(part: seq<byte>, room: nat)
    requires DecodedPart(part, room).Ok?
    ensures var (h, data) := DecodedPart(part, room).value;
            ValidHeader(h) && EncodedPart(h, data, |part|) == Ok(B.UpperAll(part))
  {
    hide HexEncoded, HexDecoded, B.Encoded, B.Decoded, HeaderBytes, ParseHeader, DecodedLen, B.Upper, CeilDiv;
    var (h, data) := DecodedPart(part, room).value;
    var body := part[HEADER_LEN..];
    HeaderWritesBack(part);
    if h.encoding == Hex {
      HexWritesBack(body);
    } else {
      B.EncodeInvertsDecode(body);
    }
    EncodedLenIsExact(h.encoding, data);
    assert B.UpperAll(part) == B.UpperAll(part[..HEADER_LEN]) + B.UpperAll(body);
  }
}
