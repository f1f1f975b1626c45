/** The text of fountain parts, src/bcur/mod.rs and src/bcur/fountain.rs: a part as CBOR, in
    bytewords, in a UR string, and back. A decoder fed strings, in any case, does what it
    does when fed the parts themselves. */
module UrText {
  import opened Options
  import opened Bytes
  import opened Ascii
  import opened Ceiling
  import opened Fragments
  import opened Choice
  import opened Crc32
  import opened Decoder
  import opened Encoder
  import opened Strangers
  import opened Ur
  import W = Bytewords
  import C = Cbor

  // ----- bytes of the two kinds -----

  /** Bytes as integers, from bytes as bit vectors. */
  function AsBytes(s: seq<bv8>): (t: seq<byte>)
    ensures |t| == |s| && forall i :: 0 <= i < |s| ==> t[i] == s[i] as int as byte
  {
    seq(|s|, i requires 0 <= i < |s| => s[i] as int as byte)
  }

  function AsBits(t: seq<byte>): (s: seq<bv8>)
    ensures |s| == |t| && forall i :: 0 <= i < |t| ==> s[i] == t[i] as int as bv8
  {
    seq(|t|, i requires 0 <= i < |t| => t[i] as int as bv8)
  }

  lemma {:induction false} ByteReadsBack(b: bv8)
    ensures b as int as byte as int as bv8 == b
  {
  }

  lemma {:induction false} BytesReadBack(s: seq<bv8>)
    ensures AsBits(AsBytes(s)) == s
  {
    forall i | 0 <= i < |s| ensures AsBits(AsBytes(s))[i] == s[i] {
      ByteReadsBack(s[i]);
    }
  }

  lemma {:induction false} WordReadsBack(c: bv32)
    ensures (c as nat) < U32 && (c as nat) as bv32 == c
  {
  }

  // ----- the checksum of bytewords -----

  /** The CRC-32 as bytewords use it: a byte at a time, most significant byte first at the
      end. */
  function CrcCheck(): (k: W.Check<bv32>)
    ensures W.CheckOk(k)
  {
    W.Check(0xffff_ffff, (c: bv32, b: byte) => ByteStep(c, b as int as bv8), (c: bv32) => Be((!c) as nat, 4))
  }

  lemma {:induction false} RegisterIsCrc(data: seq<bv8>)
    ensures W.Register(CrcCheck(), AsBytes(data)) == Register(0xffff_ffff, data)
  {
    hide ByteStep;
    if data != [] {
      var n := |data| - 1;
      RegisterIsCrc(data[..n]);
      assert AsBytes(data)[..n] == AsBytes(data[..n]);
      ByteReadsBack(data[n]);
    }
  }

  /** What bytewords append is the CRC-32 of the data. */
  lemma {:induction false} ChecksumIsCrc(data: seq<bv8>)
    ensures W.Checksum(CrcCheck(), AsBytes(data)) == Be(Crc(data) as nat, 4)
  {
    hide Register, W.Register, Be;
    RegisterIsCrc(data);
  }

  // ----- a part as CBOR -----

  ghost predicate PartFits(p: Part) {
    p.seqNum < U32 && p.seqLen < U32 && p.messageLen < U32 && |p.data| < U64
  }

  function WriteUints(vs: seq<nat>): seq<byte>
    requires forall i :: 0 <= i < |vs| ==> vs[i] < U32
  {
    if vs == [] then [] else C.WriteHead(0, vs[0]) + WriteUints(vs[1..])
  }

  /** The four numbers of a part. */
  function Numbers(p: Part): (vs: seq<nat>)
    requires PartFits(p)
    ensures |vs| == 4 && forall i :: 0 <= i < 4 ==> vs[i] < U32
  {
    WordReadsBack(p.checksum);
    [p.seqNum, p.seqLen, p.messageLen, p.checksum as nat]
  }

  /** `[seq_num, seq_len, message_len, checksum, data]`. */
  function PartBytes(p: Part): seq<byte>
    requires PartFits(p)
  {
    C.WriteHead(4, 5) + (WriteUints(Numbers(p)) + (C.WriteHead(2, |p.data|) + AsBytes(p.data)))
  }

  /** The head at `pos`, which must be of this kind, and the position past it. */
  function HeadOf(cbor: seq<byte>, pos: nat, major: nat): (r: Option<(nat, nat)>)
    ensures r.Some? ==> pos < r.value.1 <= |cbor| && r.value.0 < U64
  {
    var head := C.ReadHead(cbor, pos);
    if head.Ok? && head.value.0.major == major && !head.value.0.indefinite then Some((head.value.0.arg, head.value.1))
    else None
  }

  /** `n` numbers of 32 bits. */
  function UintsOf(cbor: seq<byte>, pos: nat, n: nat): (r: Option<(seq<nat>, nat)>)
    requires pos <= |cbor|
    ensures r.Some? ==> |r.value.0| == n && pos <= r.value.1 <= |cbor| && forall i :: 0 <= i < n ==> r.value.0[i] < U32
    decreases n
  {
    if n == 0 then Some(([], pos))
    else
      var head := HeadOf(cbor, pos, 0);
      if head.None? || head.value.0 >= U32 then None
      else
        var rest := UintsOf(cbor, head.value.1, n - 1);
        if rest.None? then None else Some(([head.value.0] + rest.value.0, rest.value.1))
  }

  /** `Part::parse`. */
  function PartOf(cbor: seq<byte>): Result<Part> {
    var start := HeadOf(cbor, 0, 4);
    if start.None? || start.value.0 != 5 then Err(InvalidPart)
    else
      var numbers := UintsOf(cbor, start.value.1, 4);
      if numbers.None? then Err(InvalidPart)
      else
        var (vs, at) := numbers.value;
        var data := HeadOf(cbor, at, 2);
        if data.None? || |cbor| - data.value.1 != data.value.0 then Err(InvalidPart)
        else
          Ok(Part(vs[0], vs[1], vs[2], vs[3] as bv32, AsBits(cbor[data.value.1..])))
  }

  /** A head, wherever it is. */
  lemma {:induction false} HeadAt(cbor: seq<byte>, pos: nat, major: nat, value: nat, rest: seq<byte>)
    requires major < 8 && value < U64 && pos <= |cbor| && cbor[pos..] == C.WriteHead(major, value) + rest
    ensures var end := pos + |C.WriteHead(major, value)|;
            HeadOf(cbor, pos, major) == Some((value, end)) && end <= |cbor| && cbor[end..] == rest
  {
    hide C.WriteHead, C.ReadHead;
    var head := C.WriteHead(major, value);
    assert |cbor[pos..]| == |head| + |rest|;
    assert cbor[pos..pos + |head|] == cbor[pos..][..|head|] == head;
    assert cbor[pos + |head|..] == cbor[pos..][|head|..] == rest;
    C.HeadReadsBack(cbor, pos, major, value);
  }

  lemma {:induction false} UintsReadBack(cbor: seq<byte>, pos: nat, vs: seq<nat>, rest: seq<byte>)
    requires (forall i :: 0 <= i < |vs| ==> vs[i] < U32) && pos <= |cbor| && cbor[pos..] == WriteUints(vs) + rest
    ensures var end := pos + |WriteUints(vs)|;
            end <= |cbor| && UintsOf(cbor, pos, |vs|) == Some((vs, end)) && cbor[end..] == rest
    decreases vs
  {
    hide C.WriteHead, HeadOf;
    if vs == [] {
      assert [] + rest == rest;
      assert |cbor[pos..]| == |WriteUints(vs)| + |rest|;
    } else {
      var head, more := C.WriteHead(0, vs[0]), WriteUints(vs[1..]);
      Regroup(head, more, rest);
      HeadAt(cbor, pos, 0, vs[0], more + rest);
      UintsReadBack(cbor, pos + |head|, vs[1..], rest);
      assert vs == [vs[0]] + vs[1..];
    }
  }

  /** A part is read back from its CBOR. */
  lemma {:induction false} PartReadsBack(p: Part)
    requires PartFits(p)
    ensures PartOf(PartBytes(p)) == Ok(p)
  {
    hide C.WriteHead, HeadOf, AsBits, AsBytes, UintsOf, WriteUints;
    WordReadsBack(p.checksum);
    var c := PartBytes(p);
    var h0, h1, h2, data := C.WriteHead(4, 5), WriteUints(Numbers(p)), C.WriteHead(2, |p.data|), AsBytes(p.data);
    assert c[0..] == h0 + (h1 + (h2 + data));
    HeadAt(c, 0, 4, 5, h1 + (h2 + data));
    UintsReadBack(c, |h0|, Numbers(p), h2 + data);
    HeadAt(c, |h0| + |h1|, 2, |p.data|, data);
    BytesReadBack(p.data);
  }

  // ----- a scanned string -----

  function Lift(e: W.Error): Error {
    match e
    case BufferTooSmall => BufferTooSmall
    case InvalidLength => InvalidLength
    case InvalidWord => InvalidWord
    case BadChecksum => BadChecksum
  }

  /** `Ur::decode`. */
  ghost function BodyOf(w: W.WordList, body: seq<byte>): Result<seq<byte>>
    requires W.WordListOk(w)
  {
    var r := W.Decoded(w, CrcCheck(), W.Minimal, body, W.DecodedLenBound(|body|, W.Minimal));
    if r.Err? then Err(Lift(r.error)) else Ok(r.value)
  }

  /** What the decoder makes of a scanned string before it looks at its own state. */
  ghost function ScanOf(w: W.WordList, text: seq<byte>): Scan
    requires W.WordListOk(w)
  {
    var ur := Parse(text);
    if ur.Err? then NotUr(ur.error)
    else
      var body := BodyOf(w, ur.value.body);
      match ur.value.sequence
      case None => Single(ur.value.urType, if body.Err? then Err(body.error) else Ok(AsBits(body.value)))
      case Some((seqNum, seqLen)) =>
        Multi(ur.value.urType, seqNum, seqLen, if body.Err? then Err(body.error) else PartOf(body.value))
  }

  method DecodeBody(w: W.WordList, body: seq<byte>) returns (r: Result<seq<byte>>)
    requires W.WordListOk(w)
    ensures r == BodyOf(w, body)
  {
    var buf := new byte[W.DecodedLenBound(|body|, W.Minimal)];
    var n := W.DecodeToSlice(w, CrcCheck(), W.Minimal, body, buf);
    if n.Err? {
      return Err(Lift(n.error));
    }
    r := Ok(buf[..n.value]);
  }

  method ScanText(w: W.WordList, text: seq<byte>) returns (scan: Scan)
    requires W.WordListOk(w)
    ensures scan == ScanOf(w, text)
  {
    hide Parse, BodyOf, PartOf;
    var ur := Parse(text);
    if ur.Err? {
      return NotUr(ur.error);
    }
    var body := DecodeBody(w, ur.value.body);
    match ur.value.sequence {
      case None => {
        scan := Single(ur.value.urType, if body.Err? then Err(body.error) else Ok(AsBits(body.value)));
      }
      case Some((seqNum, seqLen)) => {
        scan := Multi(ur.value.urType, seqNum, seqLen, if body.Err? then Err(body.error) else PartOf(body.value));
      }
    }
  }

  /** `Decoder::receive`, of a string. */
  method ReceiveText(w: W.WordList, d: Decoder, text: seq<byte>) returns (r: Result<bool>)
    requires W.WordListOk(w) && d.Valid()
    modifies d
    ensures d.Valid() && (d.View(), r) == Received(d.limits, d.choose, old(d.View()), ScanOf(w, text))
  {
    if d.complete {
      return Ok(true);
    }
    var scan := ScanText(w, text);
    r := d.Receive(scan);
  }

  // ----- the string of a part -----

  /** A part with a body, of a type that may be written. */
  ghost predicate Printable(scan: Scan) {
    match scan
    case NotUr(_) => false
    case Single(urType, body) => ValidType(urType) && body.Ok?
    case Multi(urType, _, _, part) => ValidType(urType) && part.Ok? && PartFits(part.value)
  }

  /** The bytes in the body. */
  function BodyBytes(scan: Scan): seq<byte>
    requires Printable(scan)
  {
    if scan.Single? then AsBytes(scan.body.value) else PartBytes(scan.part.value)
  }

  function UrOf(w: W.WordList, scan: Scan): Ur
    requires W.WordListOk(w) && Printable(scan)
  {
    Ur(scan.urType, if scan.Single? then None else Some((scan.seqNum, scan.seqLen)),
       W.Encoded(w, CrcCheck(), W.Minimal, BodyBytes(scan)))
  }

  /** The string of a part. */
  function TextOf(w: W.WordList, scan: Scan): seq<byte>
    requires W.WordListOk(w) && Printable(scan)
  {
    Print(UrOf(w, scan))
  }

  method EncodeBody(w: W.WordList, data: seq<byte>) returns (body: seq<byte>)
    requires W.WordListOk(w)
    ensures body == W.Encoded(w, CrcCheck(), W.Minimal, data)
  {
    hide W.Encoded;
    W.EncodedLenIsExact(w, CrcCheck(), W.Minimal, data);
    var buf := new byte[W.EncodedLen(|data|, W.Minimal)];
    var n := W.EncodeToSlice(w, CrcCheck(), W.Minimal, data, buf);
    body := buf[..n.value];
  }

  ghost predicate SetupFits(s: Setup) {
    ValidType(s.urType) && s.messageLen < U32 && s.fragmentLen < U64
  }

  lemma {:induction false} EmittedIsPrintable(s: Setup, choose: Chooser, seqNum: Index)
    requires ChooserOk(choose) && |s.message| == s.seqLen * s.fragmentLen >= s.messageLen
    requires 0 < s.seqLen < 0x1_0000_0000 && SetupFits(s)
    ensures Printable(Emitted(s, choose, seqNum))
  {
    hide ValidType, Mix, Pieces;
  }

  /** `Encoder::next_part`, as a string. */
  method NextText(w: W.WordList, e: Encoder, ghost cbor: seq<bv8>) returns (text: seq<byte>)
    requires W.WordListOk(w) && e.Valid(cbor) && SetupFits(e.setup)
    modifies e
    ensures e.Valid(cbor) && e.seqNum == if old(e.seqNum) == 0xffff_ffff then 1 else old(e.seqNum) + 1
    ensures Printable(Emitted(e.setup, e.choose, e.seqNum)) && text == TextOf(w, Emitted(e.setup, e.choose, e.seqNum))
  {
    hide W.Encoded, PartBytes, Print;
    var scan := e.NextPart(cbor);
    EmittedIsPrintable(e.setup, e.choose, e.seqNum);
    var body := EncodeBody(w, BodyBytes(scan));
    text := Print(Ur(scan.urType, if scan.Single? then None else Some((scan.seqNum, scan.seqLen)), body));
  }

  // ----- strings stand for parts -----

  /** A scan with its type in lower case. */
  function LowerScan(scan: Scan): Scan {
    match scan
    case NotUr(e) => scan
    case Single(urType, body) => Single(LowerAll(urType), body)
    case Multi(urType, seqNum, seqLen, part) => Multi(LowerAll(urType), seqNum, seqLen, part)
  }

  lemma {:induction false} WordsHaveNoSlash(w: W.WordList, data: seq<byte>)
    requires W.WordListOk(w)
    ensures var body := W.Encoded(w, CrcCheck(), W.Minimal, data);
            LowerAll(body) == body && forall i :: 0 <= i < |body| ==> body[i] != SLASH
  {
    hide W.Register;
    JoinIsLower(w, data + W.Checksum(CrcCheck(), data));
    var body := W.Encoded(w, CrcCheck(), W.Minimal, data);
    forall i | 0 <= i < |body| ensures Lower(body[i]) == body[i] && body[i] != SLASH {
      assert body[i] in body;
    }
  }

  lemma {:induction false} JoinIsLower(w: W.WordList, all: seq<byte>)
    requires W.WordListOk(w)
    ensures forall c :: c in W.Join(W.WordsOf(w, W.Minimal, all), W.Minimal) ==> IsLower(c)
  {
    if all != [] {
      var words := W.WordsOf(w, W.Minimal, all);
      JoinIsLower(w, all[1..]);
      assert words[1..] == W.WordsOf(w, W.Minimal, all[1..]);
      forall c | c in words[0] ensures IsLower(c) {
      }
    }
  }

  lemma {:induction false} TypeIsLower(urType: seq<byte>)
    requires ValidType(urType)
    ensures ValidAnyCase(urType) && LowerAll(urType) == urType
  {
  }

  lemma {:induction false} BodyReadsBack(w: W.WordList, data: seq<byte>)
    requires W.WordListOk(w)
    ensures BodyOf(w, W.Encoded(w, CrcCheck(), W.Minimal, data)) == Ok(data)
  {
    hide W.Encoded, W.Decoded;
    var body := W.Encoded(w, CrcCheck(), W.Minimal, data);
    W.EncodedLenIsExact(w, CrcCheck(), W.Minimal, data);
    W.DecodeInvertsEncode(w, CrcCheck(), W.Minimal, data, W.DecodedLenBound(|body|, W.Minimal));
  }

  /** The string of a part is scanned as that part. */
  lemma {:induction false} TextReadsBack(w: W.WordList, scan: Scan)
    requires W.WordListOk(w) && Printable(scan)
    ensures ScanOf(w, TextOf(w, scan)) == scan
  {
    hide Parse, Print, BodyOf, PartOf, PartBytes, W.Encoded, ValidType, AsBits, AsBytes;
    TypeIsLower(scan.urType);
    WordsHaveNoSlash(w, BodyBytes(scan));
    PrintReadsBack(UrOf(w, scan));
    BodyReadsBack(w, BodyBytes(scan));
    if scan.Single? {
      BytesReadBack(scan.body.value);
    } else {
      PartReadsBack(scan.part.value);
    }
  }

  /** Scanning a string in another case only changes the case of the type. */
  lemma {:induction false} ScanOfLower(w: W.WordList, text: seq<byte>)
    requires W.WordListOk(w)
    ensures ScanOf(w, LowerAll(text)) == LowerScan(ScanOf(w, text))
  {
    hide Parse, W.Decoded, PartOf;
    ParseOfLower(text);
    var ur := Parse(text);
    if ur.Ok? {
      W.CaseDoesNotCount(w, CrcCheck(), W.Minimal, ur.value.body, W.DecodedLenBound(|ur.value.body|, W.Minimal));
    }
  }

  lemma {:induction false} ReceivedIgnoresCase(limits: Limits, choose: Chooser, v: View, scan: Scan)
    requires ChooserOk(choose) && ViewOk(limits, v)
    ensures Received(limits, choose, v, LowerScan(scan)) == Received(limits, choose, v, scan)
  {
    hide Gathered, CheckShape;
    match scan
    case NotUr(_) =>
    case Single(urType, _) => LowerTwice(urType);
    case Multi(urType, _, _, _) => LowerTwice(urType);
  }

  /** A decoder takes the string of a part, in whatever case, for the part. */
  lemma {:induction false} TextStandsForPart(w: W.WordList, limits: Limits, choose: Chooser, v: View, scan: Scan, text: seq<byte>)
    requires W.WordListOk(w) && ChooserOk(choose) && ViewOk(limits, v)
    requires Printable(scan) && LowerAll(text) == LowerAll(TextOf(w, scan))
    ensures Received(limits, choose, v, ScanOf(w, text)) == Received(limits, choose, v, scan)
  {
    hide Received, ScanOf, TextOf, LowerScan;
    TextReadsBack(w, scan);
    ScanOfLower(w, text);
    ScanOfLower(w, TextOf(w, scan));
    ReceivedIgnoresCase(limits, choose, v, ScanOf(w, text));
    ReceivedIgnoresCase(limits, choose, v, ScanOf(w, TextOf(w, scan)));
  }

  // ----- streams of strings -----

  /** What a decoder has after receiving strings one by one. */
  ghost function HeardTexts(w: W.WordList, limits: Limits, choose: Chooser, texts: seq<seq<byte>>): (v: View)
    requires W.WordListOk(w) && ChooserOk(choose)
    ensures ViewOk(limits, v)
  {
    if texts == [] then Empty
    else
      var k := |texts| - 1;
      Received(limits, choose, HeardTexts(w, limits, choose, texts[..k]), ScanOf(w, texts[k])).0
  }

  /** The strings are those of the parts `seqNums` of one encoder, in any case. */
  ghost predicate TextsOf(w: W.WordList, s: Setup, choose: Chooser, seqNums: seq<Index>, texts: seq<seq<byte>>)
    requires W.WordListOk(w) && ChooserOk(choose) && |s.message| == s.seqLen * s.fragmentLen >= s.messageLen
    requires 0 < s.seqLen < 0x1_0000_0000
  {
    |texts| == |seqNums| && forall k :: 0 <= k < |texts| ==>
      var scan := Emitted(s, choose, seqNums[k]);
      Printable(scan) && LowerAll(texts[k]) == LowerAll(TextOf(w, scan))
  }

  /** A stream of strings is heard as the stream of their parts. */
  lemma {:induction false} TextsAreHeard(
      w: W.WordList, limits: Limits, s: Setup, choose: Chooser, seqNums: seq<Index>, texts: seq<seq<byte>>)
    requires W.WordListOk(w) && ChooserOk(choose) && |s.message| == s.seqLen * s.fragmentLen >= s.messageLen
    requires 0 < s.seqLen < 0x1_0000_0000 && TextsOf(w, s, choose, seqNums, texts)
    ensures HeardTexts(w, limits, choose, texts) == Heard(limits, s, choose, seqNums)
  {
    hide Received, ScanOf, TextOf, Emitted, Printable;
    if texts != [] {
      var k := |texts| - 1;
      TextsAreHeard(w, limits, s, choose, seqNums[..k], texts[..k]);
      TextStandsForPart(w, limits, choose, Heard(limits, s, choose, seqNums[..k]), Emitted(s, choose, seqNums[k]), texts[k]);
    }
  }

  /** What `Encoder::new` makes of a payload has parts that can be printed. */
  lemma {:induction false} PreparedFits(urType: seq<byte>, cbor: seq<bv8>, maxFragmentLen: nat)
    requires Prepare(urType, cbor, maxFragmentLen).Ok?
    ensures var s := Prepare(urType, cbor, maxFragmentLen).value; SetupOk(s, cbor) && SetupFits(s) && s.urType == urType
  {
    PrepareIsOk(urType, cbor, maxFragmentLen);
    var s := Prepare(urType, cbor, maxFragmentLen).value;
    CeilDivPositive(|cbor|, maxFragmentLen);
    CeilDivAtMost(|cbor|, CeilDiv(|cbor|, maxFragmentLen));
  }

  /** From a payload to a payload: the strings of parts 1 to `seqLen` of its encoder, in any
      order and case, with repetitions and any other parts between them, give it back. */
  lemma {:induction false} TextsOfOriginalsSuffice(
      w: W.WordList, limits: Limits, s: Setup, cbor: seq<bv8>, choose: Chooser, seqNums: seq<Index>, texts: seq<seq<byte>>)
    requires W.WordListOk(w) && ChooserOk(choose) && SetupOk(s, cbor) && SetupFits(s)
    requires s.messageLen <= limits.maxMessageLen && s.seqLen <= limits.maxFragments
    requires seqNums != [] && (s.seqLen > 1 ==> forall i: Index :: i <= s.seqLen ==> i in seqNums)
    requires TextsOf(w, s, choose, seqNums, texts)
    ensures HeardTexts(w, limits, choose, texts) == Done(s.urType, s.seqLen, cbor)
  {
    hide TextsOf, Heard;
    TextsAreHeard(w, limits, s, choose, seqNums, texts);
    TypeIsLower(s.urType);
    if s.seqLen == 1 {
      SinglePartSuffices(limits, s, cbor, choose, seqNums);
    } else {
      OriginalsSuffice(limits, s, cbor, choose, seqNums);
    }
  }

  /** A decoder that completes on strings of one encoder has exactly the payload: until then
      it has what `reduce` makes of the parts heard. */
  lemma {:induction false} TextStreamIsFaithful(
      w: W.WordList, limits: Limits, s: Setup, cbor: seq<bv8>, choose: Chooser, seqNums: seq<Index>, texts: seq<seq<byte>>)
    requires W.WordListOk(w) && ChooserOk(choose) && SetupOk(s, cbor) && SetupFits(s) && s.seqLen > 1
    requires s.messageLen <= limits.maxMessageLen && s.seqLen <= limits.maxFragments
    requires TextsOf(w, s, choose, seqNums, texts)
    ensures HeardTexts(w, limits, choose, texts) == Expected(s, cbor, choose, seqNums)
    ensures HeardTexts(w, limits, choose, texts).Done? ==> HeardTexts(w, limits, choose, texts).message == cbor
  {
    hide TextsOf, Heard;
    TextsAreHeard(w, limits, s, choose, seqNums, texts);
    StreamIsFaithful(limits, s, cbor, choose, seqNums);
  }

  // ----- strings of others among them -----

  /** The strings, in any case, of the encoder's own parts in a stream, and anything at all for
      the strays. */
  ghost predicate Transmits(w: W.WordList, s: Setup, choose: Chooser, stream: seq<Sound>, texts: seq<seq<byte>>)
    requires W.WordListOk(w) && ChooserOk(choose) && |s.message| == s.seqLen * s.fragmentLen >= s.messageLen
    requires 0 < s.seqLen < 0x1_0000_0000 && SetupFits(s)
  {
    |texts| == |stream| && forall k :: 0 <= k < |texts| ==>
      match stream[k]
      case Own(seqNum) =>
        EmittedIsPrintable(s, choose, seqNum);
        LowerAll(texts[k]) == LowerAll(TextOf(w, Emitted(s, choose, seqNum)))
      case Stray(scan) => ScanOf(w, texts[k]) == scan
  }

  lemma {:induction false} OneIsHeard(
      w: W.WordList, limits: Limits, s: Setup, choose: Chooser, v: View, stream: seq<Sound>, texts: seq<seq<byte>>, k: nat)
    requires W.WordListOk(w) && ChooserOk(choose) && |s.message| == s.seqLen * s.fragmentLen >= s.messageLen
    requires 0 < s.seqLen < 0x1_0000_0000 && SetupFits(s) && Transmits(w, s, choose, stream, texts)
    requires ViewOk(limits, v) && k < |stream|
    ensures Received(limits, choose, v, ScanOf(w, texts[k])) == Received(limits, choose, v, ScansOf(s, choose, stream)[k])
  {
    hide Received, ScanOf, TextOf, Emitted, Printable, ViewOk, SetupFits;
    if stream[k].Own? {
      EmittedIsPrintable(s, choose, stream[k].seqNum);
      TextStandsForPart(w, limits, choose, v, Emitted(s, choose, stream[k].seqNum), texts[k]);
    }
  }

  lemma {:induction false} StreamIsHeard(
      w: W.WordList, limits: Limits, s: Setup, choose: Chooser, stream: seq<Sound>, texts: seq<seq<byte>>)
    requires W.WordListOk(w) && ChooserOk(choose) && |s.message| == s.seqLen * s.fragmentLen >= s.messageLen
    requires 0 < s.seqLen < 0x1_0000_0000 && SetupFits(s) && Transmits(w, s, choose, stream, texts)
    ensures HeardTexts(w, limits, choose, texts) == HeardAll(limits, choose, ScansOf(s, choose, stream))
  {
    hide Received, ScanOf, TextOf, Emitted, Printable, ViewOk, SetupFits;
    if texts != [] {
      var k := |texts| - 1;
      StreamIsHeard(w, limits, s, choose, stream[..k], texts[..k]);
      ScansOfPrefix(s, choose, stream);
      OneIsHeard(w, limits, s, choose, HeardTexts(w, limits, choose, texts[..k]), stream, texts, k);
    }
  }

  /** From a payload to a payload, with strings of other messages and strings that are none in
      between: the strings of parts 1 to `seqLen`, in any order and case, still give it back. */
  lemma {:induction false} TextsAmongStraysSuffice(
      w: W.WordList, limits: Limits, s: Setup, cbor: seq<bv8>, choose: Chooser, stream: seq<Sound>, texts: seq<seq<byte>>)
    requires W.WordListOk(w) && ChooserOk(choose) && SetupOk(s, cbor) && SetupFits(s) && s.seqLen > 1
    requires s.messageLen <= limits.maxMessageLen && s.seqLen <= limits.maxFragments
    requires Transmits(w, s, choose, stream, texts) && Mingled(s, stream)
    requires forall i: Index :: i <= s.seqLen ==> i in OwnOf(stream)
    ensures HeardTexts(w, limits, choose, texts) == Done(s.urType, s.seqLen, cbor)
  {
    hide Transmits, HeardAll, Mingled, OwnOf;
    StreamIsHeard(w, limits, s, choose, stream, texts);
    TypeIsLower(s.urType);
    OriginalsSufficeAmongStrays(limits, s, cbor, choose, stream);
  }
}
