/** Cutting a file into BBQr parts, and joining them again in any order: src/bbqr.rs. */
module Joiner {
  import opened Options
  import opened Bytes
  import opened Ceiling
  import opened Bbqr
  import R = Radix

  // ----- cutting -----

  /** The bytes and the characters that stand for each other in a group. */
  function GroupBytes(e: Encoding): (n: nat)
    ensures n > 0
  {
    if e == Hex then 1 else 5
  }

  function GroupChars(e: Encoding): (n: nat)
    ensures n > 0
  {
    if e == Hex then 2 else 8
  }

  /** How many bytes go in each part. */
  function PartLen(e: Encoding, n: nat, maxPartLen: nat): (r: Result<nat>)
    ensures r.Ok? && n > 0 ==> r.value > 0
  {
    if maxPartLen < HEADER_LEN then Err(PartTooSmall)
    else
      var capacity := maxPartLen - HEADER_LEN;
      if EncodedLen(e, n) <= capacity then Ok(n)
      else
        var maxGroups := capacity / GroupChars(e);
        if maxGroups == 0 then Err(PartTooSmall)
        else
          var groups := CeilDiv(n, GroupBytes(e));
          NothingToEncode(e, n);
          CeilDivPositive(n, GroupBytes(e));
          CeilDivPositive(groups, maxGroups);
          CeilDivPositive(groups, CeilDiv(groups, maxGroups));
          Ok(CeilDiv(groups, CeilDiv(groups, maxGroups)) * GroupBytes(e))
  }

  lemma {:induction false} NothingToEncode(e: Encoding, n: nat)
    ensures n == 0 ==> EncodedLen(e, n) == 0
  {
  }

  function Max(a: nat, b: nat): nat {
    if a > b then a else b
  }

  function Min(a: nat, b: nat): nat {
    if a < b then a else b
  }

  /** How many parts of so many bytes there are. */
  function PartCount(n: nat, partLen: nat): nat {
    Max(CeilDiv(n, Max(partLen, 1)), 1)
  }

  /** The bytes of a part. */
  function Chunk(data: seq<byte>, partLen: nat, i: nat): (c: seq<byte>)
    ensures |c| <= |data|
  {
    assert i * partLen <= (i + 1) * partLen;
    data[Min(i * partLen, |data|)..Min((i + 1) * partLen, |data|)]
  }

  function HeaderOf(e: Encoding, fileType: byte, numParts: nat, i: nat): Header {
    Header(e, fileType, numParts, i)
  }

  /** The text of a part. */
  function PartText(e: Encoding, fileType: byte, numParts: nat, i: nat, chunk: seq<byte>): seq<byte>
    requires 1 <= numParts <= MAX_PARTS && i < numParts
  {
    HeaderBytes(HeaderOf(e, fileType, numParts, i)).value + EncodeBody(e, chunk)
  }

  /** `split_raw`. */
  function SplitRaw(data: seq<byte>, fileType: byte, e: Encoding, maxPartLen: nat): Result<seq<seq<byte>>> {
    var partLen := PartLen(e, |data|, maxPartLen);
    if partLen.Err? then Err(partLen.error)
    else
      var n := PartCount(|data|, partLen.value);
      if n > MAX_PARTS then Err(TooManyParts)
      else Ok(seq(n, i requires 0 <= i < n => PartText(e, fileType, n, i, Chunk(data, Max(partLen.value, 1), i))))
  }

  method SplitRawParts(data: seq<byte>, fileType: byte, e: Encoding, maxPartLen: nat) returns (r: Result<seq<seq<byte>>>)
    ensures r == SplitRaw(data, fileType, e, maxPartLen)
  {
    hide EncodeBody, HeaderBytes, PartLen;
    var partLen := PartLen(e, |data|, maxPartLen);
    if partLen.Err? {
      return Err(partLen.error);
    }
    var n, step := PartCount(|data|, partLen.value), Max(partLen.value, 1);
    if n > MAX_PARTS {
      return Err(TooManyParts);
    }
    ghost var all := SplitRaw(data, fileType, e, maxPartLen).value;
    var parts: seq<seq<byte>> := [];
    for i := 0 to n
      invariant parts == all[..i]
    {
      var chunk, h := Chunk(data, step, i), HeaderOf(e, fileType, n, i);
      var part := EncodePart(h, chunk, HEADER_LEN + EncodedLen(e, |chunk|));
      parts := parts + [part.value];
    }
    assert all[..n] == all;
    r := Ok(parts);
  }

  // ----- the cut -----

  /** Rounding up twice is rounding up once. */
  lemma {:induction false} CeilTwice(n: nat, a: nat, b: nat)
    requires a > 0 && b > 0
    ensures b * a > 0 && CeilDiv(CeilDiv(n, a), b) == CeilDiv(n, b * a)
  {
    hide CeilDiv;
    var p := CeilDiv(n, a);
    var q := CeilDiv(p, b);
    ProductPositive(b, a);
    TwiceIsCeil(n, a, b, p, q);
    SameCeil(n, b * a, q, CeilDiv(n, b * a));
  }

  lemma {:induction false} ProductPositive(a: nat, b: nat)
    requires a > 0 && b > 0
    ensures a * b > 0
  {
  }

  lemma {:induction false} TwiceIsCeil(n: nat, a: nat, b: nat, p: nat, q: nat)
    requires IsCeil(p, n, a) && IsCeil(q, p, b)
    ensures IsCeil(q, n, b * a)
  {
    R.MulAssoc(q, b, a);
    R.MulMonotone(p, q * b, a, a);
    if q > 0 {
      R.MulAssoc(q - 1, b, a);
      R.MulMonotone((q - 1) * b, p - 1, a, a);
    }
  }

  lemma {:induction false} SameCeil(n: nat, b: nat, q: nat, r: nat)
    requires IsCeil(q, n, b) && IsCeil(r, n, b)
    ensures q == r
  {
    CeilIsLeast(q, n, b, r);
    CeilIsLeast(r, n, b, q);
  }

  /** When a file does not fit one part, the parts are as few as their length allows
      after evening them out; no part is too long, and no fewer groups in each would
      give as few parts. */
  lemma {:induction false} CutIsFewestAndEven(e: Encoding, n: nat, maxPartLen: nat, other: nat)
    requires PartLen(e, n, maxPartLen).Ok? && EncodedLen(e, n) > maxPartLen - HEADER_LEN && other > 0
    ensures var groups, maxGroups := CeilDiv(n, GroupBytes(e)), (maxPartLen - HEADER_LEN) / GroupChars(e);
            var partLen := PartLen(e, n, maxPartLen).value;
            && 0 < maxGroups && partLen % GroupBytes(e) == 0 && 0 < partLen / GroupBytes(e) <= maxGroups
            && PartCount(n, partLen) == CeilDiv(groups, maxGroups)
            && (CeilDiv(groups, other) <= PartCount(n, partLen) ==> partLen / GroupBytes(e) <= other)
  {
    hide CeilDiv;
    var b := GroupBytes(e);
    var groups, maxGroups := CeilDiv(n, b), (maxPartLen - HEADER_LEN) / GroupChars(e);
    NothingToEncode(e, n);
    CeilDivPositive(n, b);
    CutIsFewestAndShortest(groups, maxGroups, other);
    var f := CeilDiv(groups, CeilDiv(groups, maxGroups));
    CeilTwice(n, b, f);
    WholeGroups(f, b);
  }

  lemma {:induction false} WholeGroups(f: nat, b: nat)
    requires b > 0
    ensures f * b % b == 0 && f * b / b == f
  {
    R.DivMod(b, f, 0);
  }

  /** No part is longer than asked. */
  lemma {:induction false} PartsAreShort(data: seq<byte>, fileType: byte, e: Encoding, maxPartLen: nat, i: nat)
    requires SplitRaw(data, fileType, e, maxPartLen).Ok? && i < |SplitRaw(data, fileType, e, maxPartLen).value|
    ensures |SplitRaw(data, fileType, e, maxPartLen).value[i]| <= maxPartLen
  {
    hide EncodeBody;
    var partLen := Max(PartLen(e, |data|, maxPartLen).value, 1);
    var chunk := Chunk(data, partLen, i);
    EncodedLenIsExact(e, chunk);
    ChunkIsShort(data, partLen, i);
    if EncodedLen(e, |data|) > maxPartLen - HEADER_LEN {
      CutIsFewestAndEven(e, |data|, maxPartLen, 1);
      WholeGroupsFit(e, |chunk|, partLen, maxPartLen - HEADER_LEN);
    } else {
      EncodedGrows(e, |chunk|, |data|);
    }
  }

  lemma {:induction false} ChunkIsShort(data: seq<byte>, partLen: nat, i: nat)
    ensures |Chunk(data, partLen, i)| <= partLen
  {
    assert (i + 1) * partLen == i * partLen + partLen;
  }

  lemma {:induction false} EncodedGrows(e: Encoding, m: nat, n: nat)
    requires m <= n
    ensures EncodedLen(e, m) <= EncodedLen(e, n)
  {
    if e != Hex {
      CeilIsLeast(CeilDiv(m * 8, 5), m * 8, 5, CeilDiv(n * 8, 5));
    }
  }

  lemma {:induction false} WholeGroupsFit(e: Encoding, n: nat, partLen: nat, capacity: nat)
    requires n <= partLen && partLen % GroupBytes(e) == 0 && partLen / GroupBytes(e) <= capacity / GroupChars(e)
    ensures EncodedLen(e, n) <= capacity
  {
    EncodedGrows(e, n, partLen);
    if e != Hex {
      SameCeil(partLen * 8, 5, CeilDiv(partLen * 8, 5), partLen / 5 * 8);
    }
  }

  // ----- the chunks make up the file -----

  function Concat(parts: seq<seq<byte>>): seq<byte> {
    if parts == [] then [] else Concat(parts[..|parts| - 1]) + parts[|parts| - 1]
  }

  function Chunks(data: seq<byte>, partLen: nat, n: nat): (parts: seq<seq<byte>>)
    ensures |parts| == n && forall i :: 0 <= i < n ==> parts[i] == Chunk(data, partLen, i)
  {
    seq(n, i requires 0 <= i < n => Chunk(data, partLen, i))
  }

  lemma {:induction false} ChunksConcat(data: seq<byte>, partLen: nat, n: nat)
    ensures Concat(Chunks(data, partLen, n)) == data[..Min(n * partLen, |data|)]
    decreases n
  {
    var parts := Chunks(data, partLen, n);
    if n > 0 {
      ChunksConcat(data, partLen, n - 1);
      assert parts[..n - 1] == Chunks(data, partLen, n - 1);
      assert (n - 1) * partLen <= n * partLen;
    } else {
      assert n * partLen == 0;
    }
  }

  lemma {:induction false} ChunksMakeUp(data: seq<byte>, partLen: nat)
    requires partLen > 0
    ensures Concat(Chunks(data, partLen, PartCount(|data|, partLen))) == data
  {
    var n := PartCount(|data|, partLen);
    ChunksConcat(data, partLen, n);
    assert n >= CeilDiv(|data|, partLen);
    assert n * partLen >= CeilDiv(|data|, partLen) * partLen;
    assert data[..|data|] == data;
  }

  // ----- joining -----

  /** What a joiner knows. */
  datatype View = View(maxLen: nat, header: Option<Header>, parts: seq<Option<seq<byte>>>)

  function CountReceived(parts: seq<Option<seq<byte>>>): (n: nat)
    ensures n <= |parts|
    ensures n == |parts| <==> forall i :: 0 <= i < |parts| ==> parts[i].Some?
  {
    if parts == [] then 0
    else
      var k := |parts| - 1;
      assert parts == parts[..k] + [parts[k]];
      CountReceived(parts[..k]) + if parts[k].Some? then 1 else 0
  }

  function TotalLen(parts: seq<Option<seq<byte>>>): nat {
    if parts == [] then 0
    else TotalLen(parts[..|parts| - 1]) + if parts[|parts| - 1].Some? then |parts[|parts| - 1].value| else 0
  }

  ghost predicate ViewOk(v: View) {
    && TotalLen(v.parts) <= v.maxLen
    && match v.header
       case None => v.parts == []
       case Some(h) => |v.parts| == h.numParts && h.index == 0 && ValidHeader(h)
  }

  ghost predicate IsComplete(v: View) {
    v.header.Some? && forall i :: 0 <= i < |v.parts| ==> v.parts[i].Some?
  }

  /** Room for the data of a part in either encoding. */
  function RoomFor(part: seq<byte>): nat {
    if |part| < HEADER_LEN then 0 else (|part| - HEADER_LEN) * 5 / 8
  }

  /** A part, decoded, is taken in. */
  ghost function Taken(v: View, h: Header, data: seq<byte>): (r: (View, Result<bool>))
    requires ViewOk(v) && ValidHeader(h)
  {
    var common := h.(index := 0);
    var parts := if v.header.None? then seq(h.numParts, _ => None) else v.parts;
    if v.header.Some? && v.header.value != common then (v, Err(InconsistentPart))
    else if parts[h.index].Some? && parts[h.index].value != data then (v, Err(InconsistentPart))
    else if parts[h.index].Some? then (v, Ok(IsComplete(v)))
    else if |data| > v.maxLen - TotalLen(v.parts) then (v, Err(TooLarge))
    else
      var w := View(v.maxLen, Some(common), parts[h.index := Some(data)]);
      (w, Ok(IsComplete(w)))
  }

  /** What `receive` makes of a part. */
  ghost function Received(v: View, part: seq<byte>): (r: (View, Result<bool>))
    requires ViewOk(v)
  {
    var decoded := DecodedPart(part, RoomFor(part));
    if decoded.Err? then (v, Err(decoded.error)) else Taken(v, decoded.value.0, decoded.value.1)
  }

  lemma {:induction false} NoneReceived(n: nat)
    ensures CountReceived(seq(n, _ => None)) == 0 && TotalLen(seq(n, _ => None)) == 0
    decreases n
  {
    var parts: seq<Option<seq<byte>>> := seq(n, _ => None);
    if n > 0 {
      assert parts[..n - 1] == seq(n - 1, _ => None);
      NoneReceived(n - 1);
    }
  }

  lemma {:induction false} OneMore(parts: seq<Option<seq<byte>>>, i: nat, data: seq<byte>)
    requires i < |parts| && parts[i].None?
    ensures CountReceived(parts[i := Some(data)]) == CountReceived(parts) + 1
    ensures TotalLen(parts[i := Some(data)]) == TotalLen(parts) + |data|
  {
    var k, more := |parts| - 1, parts[i := Some(data)];
    if i < k {
      assert more[..k] == parts[..k][i := Some(data)];
      OneMore(parts[..k], i, data);
    } else {
      assert more[..k] == parts[..k];
    }
  }

  class Joiner {
    const maxLen: nat
    var header: Option<Header>
    var parts: seq<Option<seq<byte>>>
    var received: nat
    var len: nat

    constructor (maxLen: nat)
      ensures Valid() && ToView() == View(maxLen, None, [])
    {
      this.maxLen := maxLen;
      header, parts, received, len := None, [], 0, 0;
    }

    ghost function ToView(): View
      reads this
    {
      View(maxLen, header, parts)
    }

    /** The counters are exact, and the limit kept. */
    ghost predicate Valid()
      reads this
    {
      ViewOk(ToView()) && received == CountReceived(parts) && len == TotalLen(parts)
    }

    predicate Complete()
      requires Valid()
      reads this
      ensures Complete() == IsComplete(ToView())
    {
      header.Some? && received == |parts|
    }

    /** `reset`. */
    method Reset()
      modifies this
      ensures Valid() && ToView() == View(maxLen, None, [])
    {
      header, parts, received, len := None, [], 0, 0;
    }

    /** `receive`. */
    method Receive(part: seq<byte>) returns (r: Result<bool>)
      requires Valid()
      modifies this
      ensures Valid() && (ToView(), r) == Received(old(ToView()), part)
    {
      hide CountReceived, TotalLen, DecodedPart;
      var decoded := DecodePart(part, RoomFor(part));
      if decoded.Err? {
        return Err(decoded.error);
      }
      var (h, data) := decoded.value;
      HeaderIsValid(part);
      var common := h.(index := 0);
      if header.Some? && header.value != common {
        return Err(InconsistentPart);
      }
      if h.index < |parts| && parts[h.index].Some? {
        if parts[h.index].value != data {
          return Err(InconsistentPart);
        }
        r := Ok(Complete());
        return;
      }
      if |data| > maxLen - len {
        return Err(TooLarge);
      }
      if header.None? {
        NoneReceived(h.numParts);
        NoneReceived(0);
        var none: seq<Option<seq<byte>>> := seq(0, _ => None);
        assert none == [];
        header, parts := Some(common), seq(h.numParts, _ => None);
      }
      OneMore(parts, h.index, data);
      len, received := len + |data|, received + 1;
      parts := parts[h.index := Some(data)];
      r := Ok(Complete());
    }

    /** `finish`, with decompression left open. */
    method Finish(inflate: (seq<byte>, nat) -> Result<seq<byte>>) returns (r: Result<(byte, seq<byte>)>)
      requires Valid()
      ensures r == Joined(ToView(), inflate)
    {
      hide CountReceived, TotalLen;
      if !Complete() {
        return Err(Incomplete);
      }
      var data: seq<byte> := [];
      for i := 0 to |parts|
        invariant data == Concat(Contents(parts)[..i])
      {
        assert Contents(parts)[..i + 1][..i] == Contents(parts)[..i];
        data := data + parts[i].value;
      }
      assert Contents(parts)[..|parts|] == Contents(parts);
      if header.value.encoding == Zlib {
        var inflated := inflate(data, maxLen);
        if inflated.Err? {
          return Err(inflated.error);
        }
        data := inflated.value;
      }
      r := Ok((header.value.fileType, data));
    }
  }

  lemma {:induction false} HeaderIsValid(part: seq<byte>)
    requires DecodedPart(part, RoomFor(part)).Ok?
    ensures ValidHeader(DecodedPart(part, RoomFor(part)).value.0)
  {
    hide DecodeBody, DecodedLen;
  }

  function Contents(parts: seq<Option<seq<byte>>>): (contents: seq<seq<byte>>)
    requires forall i :: 0 <= i < |parts| ==> parts[i].Some?
    ensures |contents| == |parts| && forall i :: 0 <= i < |parts| ==> contents[i] == parts[i].value
  {
    seq(|parts|, i requires 0 <= i < |parts| => parts[i].value)
  }

  /** The file a joiner has put together. */
  ghost function Joined(v: View, inflate: (seq<byte>, nat) -> Result<seq<byte>>): Result<(byte, seq<byte>)> {
    if !IsComplete(v) then Err(Incomplete)
    else
      var data := Concat(Contents(v.parts));
      if v.header.value.encoding == Zlib then
        var inflated := inflate(data, v.maxLen);
        if inflated.Err? then Err(inflated.error) else Ok((v.header.value.fileType, inflated.value))
      else Ok((v.header.value.fileType, data))
  }

  /** An error leaves the joiner as it was, and what is known stays known. */
  lemma {:induction false} ReceivedKeeps(v: View, part: seq<byte>)
    requires ViewOk(v)
    ensures var (w, r) := Received(v, part);
            && ViewOk(w)
            && (r.Err? ==> w == v) && (r.Ok? ==> r.value == IsComplete(w))
            && forall i :: 0 <= i < |v.parts| && v.parts[i].Some? ==> |w.parts| == |v.parts| && w.parts[i] == v.parts[i]
  {
    hide DecodedPart, CountReceived, TotalLen, ValidHeader;
    var decoded := DecodedPart(part, RoomFor(part));
    if decoded.Ok? {
      HeaderIsValid(part);
      TakenKeeps(v, decoded.value.0, decoded.value.1);
    }
  }

  lemma {:induction false} TakenKeeps(v: View, h: Header, data: seq<byte>)
    requires ViewOk(v) && ValidHeader(h)
    ensures var (w, r) := Taken(v, h, data);
            && ViewOk(w)
            && (r.Err? ==> w == v) && (r.Ok? ==> r.value == IsComplete(w))
            && forall i :: 0 <= i < |v.parts| && v.parts[i].Some? ==> |w.parts| == |v.parts| && w.parts[i] == v.parts[i]
  {
    hide CountReceived, TotalLen;
    NoneReceived(h.numParts);
    NoneReceived(0);
    var none: seq<Option<seq<byte>>> := seq(0, _ => None);
    assert none == [];
    var parts := if v.header.None? then seq(h.numParts, _ => None) else v.parts;
    if h.index < |parts| && parts[h.index].None? {
      OneMore(parts, h.index, data);
    }
  }

  // ----- any stream of the parts of a file -----

  /** What a joiner knows once it was fed these parts of a file. */
  ghost function After(maxLen: nat, parts: seq<seq<byte>>, stream: seq<nat>): (v: View)
    requires forall k :: 0 <= k < |stream| ==> stream[k] < |parts|
    ensures ViewOk(v)
    decreases |stream|
  {
    NoneReceived(0);
    var none: seq<Option<seq<byte>>> := seq(0, _ => None);
    assert none == [];
    if stream == [] then View(maxLen, None, [])
    else
      var v := After(maxLen, parts, stream[..|stream| - 1]);
      ReceivedKeeps(v, parts[stream[|stream| - 1]]);
      Received(v, parts[stream[|stream| - 1]]).0
  }

  /** The parts of a file that a stream has had. */
  ghost function Had(chunks: seq<seq<byte>>, stream: seq<nat>): (parts: seq<Option<seq<byte>>>)
    ensures |parts| == |chunks|
    ensures forall i :: 0 <= i < |chunks| ==> parts[i] == if i in stream then Some(chunks[i]) else None
  {
    seq(|chunks|, i requires 0 <= i < |chunks| => if i in stream then Some(chunks[i]) else None)
  }

  lemma {:induction false} HadFits(chunks: seq<seq<byte>>, stream: seq<nat>)
    ensures TotalLen(Had(chunks, stream)) <= |Concat(chunks)|
    decreases |chunks|
  {
    if chunks != [] {
      var k := |chunks| - 1;
      HadFits(chunks[..k], stream);
      assert Had(chunks, stream)[..k] == Had(chunks[..k], stream);
    }
  }

  ghost predicate PartsOf(parts: seq<seq<byte>>, e: Encoding, fileType: byte, chunks: seq<seq<byte>>) {
    && 1 <= |parts| == |chunks| <= MAX_PARTS && IsFileType(fileType)
    && forall i :: 0 <= i < |parts| ==> parts[i] == PartText(e, fileType, |parts|, i, chunks[i])
  }

  lemma {:induction false} PartIsDecoded(parts: seq<seq<byte>>, e: Encoding, fileType: byte, chunks: seq<seq<byte>>, i: nat)
    requires PartsOf(parts, e, fileType, chunks) && i < |parts|
    ensures DecodedPart(parts[i], RoomFor(parts[i])) == Ok((HeaderOf(e, fileType, |parts|, i), chunks[i]))
  {
    hide DecodedPart, HeaderBytes, EncodeBody;
    var h := HeaderOf(e, fileType, |parts|, i);
    EncodedLenIsExact(e, chunks[i]);
    EnoughRoom(e, |chunks[i]|);
    DecodeInvertsEncode(h, chunks[i], RoomFor(parts[i]));
  }

  lemma {:induction false} EnoughRoom(e: Encoding, n: nat)
    ensures EncodedLen(e, n) * 5 / 8 >= n
  {
  }

  /** Whatever the order and the repetitions, a joiner knows the parts it was fed, and
      no part is refused. */
  lemma {:induction false} StreamIsTaken(maxLen: nat, parts: seq<seq<byte>>, e: Encoding, fileType: byte, chunks: seq<seq<byte>>, stream: seq<nat>)
    requires PartsOf(parts, e, fileType, chunks) && maxLen >= |Concat(chunks)| && stream != []
    requires forall k :: 0 <= k < |stream| ==> stream[k] < |parts|
    ensures After(maxLen, parts, stream) == View(maxLen, Some(HeaderOf(e, fileType, |parts|, 0)), Had(chunks, stream))
    ensures Received(After(maxLen, parts, stream[..|stream| - 1]), parts[stream[|stream| - 1]]).1.Ok?
    decreases |stream|
  {
    hide DecodedPart, TotalLen, PartsOf, Concat, CountReceived;
    var k := |stream| - 1;
    var rest, i := stream[..k], stream[k];
    var v := After(maxLen, parts, rest);
    PartIsDecoded(parts, e, fileType, chunks, i);
    HadFits(chunks, stream);
    if rest != [] {
      StreamIsTaken(maxLen, parts, e, fileType, chunks, rest);
    }
    assert rest + [i] == stream;
    NextIsTaken(v, parts, e, fileType, chunks, rest, i);
  }

  lemma {:induction false} NextIsTaken(v: View, parts: seq<seq<byte>>, e: Encoding, fileType: byte, chunks: seq<seq<byte>>, rest: seq<nat>, i: nat)
    requires PartsOf(parts, e, fileType, chunks) && i < |parts| && ViewOk(v)
    requires if rest == [] then v == View(v.maxLen, None, [])
             else v == View(v.maxLen, Some(HeaderOf(e, fileType, |parts|, 0)), Had(chunks, rest))
    requires TotalLen(Had(chunks, rest + [i])) <= v.maxLen
    ensures var (w, r) := Taken(v, HeaderOf(e, fileType, |parts|, i), chunks[i]);
            r.Ok? && w == View(v.maxLen, Some(HeaderOf(e, fileType, |parts|, 0)), Had(chunks, rest + [i]))
  {
    hide TotalLen, CountReceived, PartText;
    var had, more := Had(chunks, rest), Had(chunks, rest + [i]);
    if i in rest {
      assert more == had;
    } else {
      assert more == had[i := Some(chunks[i])];
      OneMore(had, i, chunks[i]);
    }
    if rest == [] {
      NoneReceived(|parts|);
      NoneReceived(0);
      var none: seq<Option<seq<byte>>> := seq(0, _ => None);
      assert none == [];
      assert had == seq(|parts|, _ => None);
    }
  }

  /** The parts `split_raw` makes are those of the chunks of the file. */
  lemma {:induction false} SplitMakesParts(data: seq<byte>, fileType: byte, e: Encoding, maxPartLen: nat)
    requires SplitRaw(data, fileType, e, maxPartLen).Ok? && IsFileType(fileType)
    ensures var parts := SplitRaw(data, fileType, e, maxPartLen).value;
            exists chunks :: PartsOf(parts, e, fileType, chunks) && Concat(chunks) == data
  {
    hide PartText, Chunk;
    var partLen := Max(PartLen(e, |data|, maxPartLen).value, 1);
    var n := PartCount(|data|, partLen);
    ChunksMakeUp(data, partLen);
    assert PartsOf(SplitRaw(data, fileType, e, maxPartLen).value, e, fileType, Chunks(data, partLen, n));
  }

  /** Any stream of all the parts of a file, in any order and with repetitions, is
      joined into the data that was cut. */
  lemma {:induction false} JoinInvertsSplit(data: seq<byte>, fileType: byte, e: Encoding, maxPartLen: nat, maxLen: nat, stream: seq<nat>,
                                            inflate: (seq<byte>, nat) -> Result<seq<byte>>)
    requires SplitRaw(data, fileType, e, maxPartLen).Ok? && IsFileType(fileType) && maxLen >= |data|
    requires var parts := SplitRaw(data, fileType, e, maxPartLen).value;
             && (forall k :: 0 <= k < |stream| ==> stream[k] < |parts|)
             && (forall i: nat :: i < |parts| ==> i in stream)
    ensures var v := After(maxLen, SplitRaw(data, fileType, e, maxPartLen).value, stream);
            && IsComplete(v)
            && Joined(v, inflate) == if e != Zlib then Ok((fileType, data))
                                     else if inflate(data, maxLen).Err? then Err(inflate(data, maxLen).error)
                                     else Ok((fileType, inflate(data, maxLen).value))
  {
    hide SplitRaw, After, PartText, Concat;
    var parts := SplitRaw(data, fileType, e, maxPartLen).value;
    SplitMakesParts(data, fileType, e, maxPartLen);
    var chunks :| PartsOf(parts, e, fileType, chunks) && Concat(chunks) == data;
    assert 0 in stream;
    StreamIsTaken(maxLen, parts, e, fileType, chunks, stream);
    var had := Had(chunks, stream);
    assert forall i: nat :: i < |had| ==> had[i] == Some(chunks[i]);
    assert Contents(had) == chunks;
  }

  /** A joiner that still lacks a part is not complete. */
  lemma {:induction false} LackingIsIncomplete(maxLen: nat, parts: seq<seq<byte>>, e: Encoding, fileType: byte, chunks: seq<seq<byte>>,
                                               stream: seq<nat>, i: nat)
    requires PartsOf(parts, e, fileType, chunks) && maxLen >= |Concat(chunks)|
    requires (forall k :: 0 <= k < |stream| ==> stream[k] < |parts|) && i < |parts| && i !in stream
    ensures !IsComplete(After(maxLen, parts, stream))
  {
    hide PartsOf, Concat;
    if stream != [] {
      StreamIsTaken(maxLen, parts, e, fileType, chunks, stream);
      assert Had(chunks, stream)[i] == None;
    }
  }

  /** `split`: compressed if that is shorter. */
  function Split(data: seq<byte>, fileType: byte, maxPartLen: nat, deflate: seq<byte> -> seq<byte>): Result<seq<seq<byte>>> {
    var compressed := deflate(data);
    if |compressed| < |data| then SplitRaw(compressed, fileType, Zlib, maxPartLen) else SplitRaw(data, fileType, Base32, maxPartLen)
  }

  /** As long as decompression undoes compression, any file goes through. */
  lemma {:induction false} FileGoesThrough(data: seq<byte>, fileType: byte, maxPartLen: nat, maxLen: nat, stream: seq<nat>,
                                           deflate: seq<byte> -> seq<byte>, inflate: (seq<byte>, nat) -> Result<seq<byte>>)
    requires Split(data, fileType, maxPartLen, deflate).Ok? && IsFileType(fileType) && maxLen >= |data|
    requires inflate(deflate(data), maxLen) == Ok(data)
    requires var parts := Split(data, fileType, maxPartLen, deflate).value;
             && (forall k :: 0 <= k < |stream| ==> stream[k] < |parts|)
             && (forall i: nat :: i < |parts| ==> i in stream)
    ensures Joined(After(maxLen, Split(data, fileType, maxPartLen, deflate).value, stream), inflate) == Ok((fileType, data))
  {
    hide SplitRaw, After, Joined, IsComplete;
    if |deflate(data)| < |data| {
      JoinInvertsSplit(deflate(data), fileType, Zlib, maxPartLen, maxLen, stream, inflate);
    } else {
      JoinInvertsSplit(data, fileType, Base32, maxPartLen, maxLen, stream, inflate);
    }
  }
}
