/** What a decoder does with strings that are not parts of its message: which it
    refuses, for which reason, and what a stream with such strings in it comes to. */
module Strangers {
  import opened Options
  import opened Bytes
  import opened Ascii
  import opened Ceiling
  import opened Fragments
  import opened Peeling
  import opened Recovery
  import opened Choice
  import opened Crc32
  import opened Decoder
  import opened Encoder

  // ----- one string -----

  /** No decoder can make anything of it. */
  predicate Unreadable(scan: Scan) {
    match scan
    case NotUr(_) => true
    case Single(_, body) => body.Err?
    case Multi(_, seqNum, seqLen, part) =>
      part.Err? || part.value.seqNum != seqNum || part.value.seqLen != seqLen
  }

  /** It reads as a part, and tells of the very message `s`: type, number of fragments,
      length, checksum and length of a fragment. */
  predicate TellsOf(scan: Scan, s: Setup) {
    && scan.Multi? && !Unreadable(scan) && LowerAll(scan.urType) == LowerAll(s.urType)
    && scan.seqLen == s.seqLen && scan.part.value.messageLen == s.messageLen
    && scan.part.value.checksum == s.checksum && |scan.part.value.data| == s.fragmentLen
  }

  /** A decoder with some parts of `s`. */
  ghost predicate Gathers(v: View, s: Setup) {
    v.Gathering? && v.urType == LowerAll(s.urType) && v.shape == ShapeOf(s)
  }

  /** A decoder in the middle of a message takes nothing but readable parts of that
      message. The error names what is wrong, and nothing changes. */
  lemma {:induction false} StrangerIsRefused(limits: Limits, choose: Chooser, v: View, s: Setup, scan: Scan)
    requires ChooserOk(choose) && ViewOk(limits, v) && Gathers(v, s) && !TellsOf(scan, s)
    ensures var r := Received(limits, choose, v, scan);
            && r.0 == v && r.1.Err?
            && (!Unreadable(scan) && LowerAll(scan.urType) == LowerAll(s.urType) ==> r.1.error == InconsistentPart)
            && (scan.NotUr? ==> r.1.error == scan.error)
            && (!scan.NotUr? && LowerAll(scan.urType) != LowerAll(s.urType) ==> r.1.error == TypeMismatch)
  {
    hide Gathered, CheckShape, PoolOk;
  }

  /** Every part of another message is a stranger, even if only the checksum tells. */
  lemma {:induction false} OtherMessageIsRefused(
      limits: Limits, choose: Chooser, v: View, s: Setup, other: Setup, cbor: seq<bv8>, seqNum: Index)
    requires ChooserOk(choose) && ViewOk(limits, v) && Gathers(v, s) && s.seqLen > 1 && SetupOk(other, cbor)
    ensures LowerAll(other.urType) != LowerAll(s.urType) ==>
              Received(limits, choose, v, Emitted(other, choose, seqNum)) == (v, Err(TypeMismatch))
    ensures LowerAll(other.urType) == LowerAll(s.urType) && ShapeOf(other) != ShapeOf(s) ==>
              Received(limits, choose, v, Emitted(other, choose, seqNum)) == (v, Err(InconsistentPart))
  {
    hide Gathered, CheckShape, PoolOk, Received, Mix, Pieces, Crc;
    if LowerAll(other.urType) != LowerAll(s.urType) || ShapeOf(other) != ShapeOf(s) {
      StrangerIsRefused(limits, choose, v, s, Emitted(other, choose, seqNum));
    }
  }

  /** An empty decoder makes nothing of an unreadable string. */
  lemma {:induction false} UnreadableIsRefused(limits: Limits, choose: Chooser, scan: Scan)
    requires ChooserOk(choose) && Unreadable(scan)
    ensures Received(limits, choose, Empty, scan).0 == Empty && Received(limits, choose, Empty, scan).1.Err?
  {
    hide Gathered, CheckShape;
  }

  /** When an empty decoder takes a readable part: exactly if the lengths give the number of
      fragments and keep to the limits. */
  lemma {:induction false} FirstPartIsTaken(limits: Limits, choose: Chooser, scan: Scan)
    requires ChooserOk(choose) && scan.Multi? && !Unreadable(scan)
    ensures var part, r := scan.part.value, Received(limits, choose, Empty, scan);
            var fits := 0 < part.messageLen && (part.seqLen - 1) * |part.data| < part.messageLen <= part.seqLen * |part.data|;
            var small := part.messageLen <= limits.maxMessageLen && part.seqLen <= limits.maxFragments;
            && (!fits ==> r == (Empty, Err(InvalidPart)))
            && (fits && !small ==> r == (Empty, Err(TooLarge)))
            && (fits && small ==> r.1.Ok? || r == (Empty, Err(BadChecksum)))
            && (r.0.Gathering? ==>
                  && r.0.urType == LowerAll(scan.urType)
                  && r.0.shape == Shape(part.seqLen, part.messageLen, part.checksum, |part.data|))
  {
    var part := scan.part.value;
    var m, len, n := part.messageLen, |part.data|, part.seqLen;
    if len == 0 {
      assert n * len == 0;
    } else if m > 0 {
      CeilIsExactly(n, m, len);
    }
    FirstShape(limits, choose, scan);
  }

  lemma {:induction false} CeilIsExactly(q: nat, a: nat, b: nat)
    requires b > 0 && q > 0
    ensures CeilDiv(a, b) == q <==> (q - 1) * b < a <= q * b
  {
    if (q - 1) * b < a <= q * b {
      CeilIsLeast(q, a, b, CeilDiv(a, b));
      CeilIsLeast(CeilDiv(a, b), a, b, q);
    }
  }

  lemma {:induction false} FirstShape(limits: Limits, choose: Chooser, scan: Scan)
    requires ChooserOk(choose) && scan.Multi? && !Unreadable(scan)
    ensures var part, r := scan.part.value, Received(limits, choose, Empty, scan);
            var shape := Shape(part.seqLen, part.messageLen, part.checksum, |part.data|);
            var refused := CheckShape(limits, shape);
            && (refused.Some? ==> r == (Empty, Err(refused.value)))
            && (refused == None ==> r.1.Ok? || r == (Empty, Err(BadChecksum)))
            && (r.0.Gathering? ==> r.0.urType == LowerAll(scan.urType) && r.0.shape == shape)
  {
    hide CheckShape, Drain, PoolOk, Crc, Assembled;
  }

  /** A call that succeeds tells whether the message is complete. */
  lemma {:induction false} AnswerIsDone(limits: Limits, choose: Chooser, v: View, scan: Scan)
    requires ChooserOk(choose) && ViewOk(limits, v) && Received(limits, choose, v, scan).1.Ok?
    ensures Received(limits, choose, v, scan).1.value <==> Received(limits, choose, v, scan).0.Done?
  {
    hide Drain, PoolOk, Crc, Assembled, CeilDiv, CheckShape;
  }

  /** A payload in one string is taken by a decoder that has no part, within the limit. */
  lemma {:induction false} SingleIsTaken(limits: Limits, choose: Chooser, urType: seq<byte>, body: seq<bv8>)
    requires ChooserOk(choose)
    ensures Received(limits, choose, Empty, Single(urType, Ok(body))) ==
            if |body| <= limits.maxMessageLen then (Done(LowerAll(urType), 1, body), Ok(true)) else (Empty, Err(TooLarge))
  {
    hide Gathered, CheckShape;
  }

  /** What an encoder takes: a type of lower-case letters, digits and dashes, and a payload that is not
      empty and has a 32-bit length, in fragments that are not. */
  lemma {:induction false} EncoderTakes(urType: seq<byte>, cbor: seq<bv8>, maxFragmentLen: nat)
    ensures Prepare(urType, cbor, maxFragmentLen).Ok? <==>
              && urType != [] && cbor != [] && maxFragmentLen > 0 && |cbor| < 0x1_0000_0000
              && forall i :: 0 <= i < |urType| ==> 97 <= urType[i] <= 122 || 48 <= urType[i] <= 57 || urType[i] == 45
  {
    hide Crc, CeilDiv;
  }

  // ----- any run -----

  /** What a decoder has after any strings at all. */
  ghost function HeardAll(limits: Limits, choose: Chooser, scans: seq<Scan>): (v: View)
    requires ChooserOk(choose)
    ensures ViewOk(limits, v)
  {
    if scans == [] then Empty
    else Received(limits, choose, HeardAll(limits, choose, scans[..|scans| - 1]), scans[|scans| - 1]).0
  }

  /** Something heard vouches for what the decoder has: a message for its length and CRC-32, a
      message under way for its shape. */
  ghost predicate Vouched(v: View, scan: Scan) {
    match v
    case Empty => true
    case Gathering(urType, shape, _) =>
      && scan.Multi? && !Unreadable(scan) && LowerAll(scan.urType) == urType
      && shape == Shape(scan.seqLen, scan.part.value.messageLen, scan.part.value.checksum, |scan.part.value.data|)
    case Done(urType, count, message) =>
      && !Unreadable(scan) && !scan.NotUr? && LowerAll(scan.urType) == urType
      && if scan.Single? then count == 1 && message == scan.body.value
         else count == scan.seqLen && |message| == scan.part.value.messageLen && Crc(message) == scan.part.value.checksum
  }

  /** Whatever strings it is given, and in whatever order: a message a decoder ends up with has
      the length and CRC-32 that a part it heard tells, or was heard in one string, and it keeps
      to the limits, on parts on hold too. */
  lemma {:induction false} RunIsVouched(limits: Limits, choose: Chooser, scans: seq<Scan>)
    requires ChooserOk(choose)
    ensures HeardAll(limits, choose, scans) != Empty ==>
              exists k :: 0 <= k < |scans| && Vouched(HeardAll(limits, choose, scans), scans[k])
    ensures var v := HeardAll(limits, choose, scans);
            && (v.Done? ==> |v.message| <= limits.maxMessageLen)
            && (v.Gathering? ==>
                  && v.shape.messageLen <= limits.maxMessageLen && |v.pool.frags| <= limits.maxFragments
                  && |v.pool.held| <= 2 * |v.pool.frags| + 16)
  {
    hide Vouched, Received, PoolOk, CheckShape;
    if scans != [] {
      var k := |scans| - 1;
      RunIsVouched(limits, choose, scans[..k]);
      var v := HeardAll(limits, choose, scans[..k]);
      assert forall i :: 0 <= i < k ==> scans[..k][i] == scans[i];
      if v != Empty {
        var i :| 0 <= i < k && Vouched(v, scans[..k][i]);
        assert Vouched(v, scans[i]);
        StepIsVouched(limits, choose, v, scans[i], scans[k]);
      } else {
        StepIsVouched(limits, choose, v, scans[k], scans[k]);
      }
    }
    ShapeKeepsLimits(limits, HeardAll(limits, choose, scans));
  }

  lemma {:induction false} ShapeKeepsLimits(limits: Limits, v: View)
    requires ViewOk(limits, v)
    ensures v.Gathering? ==> v.shape.messageLen <= limits.maxMessageLen && |v.pool.frags| <= limits.maxFragments
    ensures v.Gathering? ==> |v.pool.held| <= 2 * |v.pool.frags| + 16
  {
    hide AllApart, Unknown;
  }

  lemma {:induction false} StepIsVouched(limits: Limits, choose: Chooser, v: View, before: Scan, scan: Scan)
    requires ChooserOk(choose) && ViewOk(limits, v) && (v != Empty ==> Vouched(v, before))
    requires v.Done? ==> |v.message| <= limits.maxMessageLen
    ensures var after := Received(limits, choose, v, scan).0;
            && (after != Empty ==> Vouched(after, before) || Vouched(after, scan))
            && (after.Done? ==> |after.message| <= limits.maxMessageLen)
  {
    hide Gathered, Crc, CeilDiv;
    if scan.Multi? && !Unreadable(scan) {
      var part := scan.part.value;
      var shape := Shape(part.seqLen, part.messageLen, part.checksum, |part.data|);
      if v.Gathering? && v.shape == shape {
        GatheredHasShape(limits, choose, v.urType, shape, v.pool, scan.seqNum, part.data);
      } else if v.Empty? && CheckShape(limits, shape) == None {
        LowerTwice(scan.urType);
        GatheredHasShape(limits, choose, LowerAll(scan.urType), shape, Pool(seq(shape.seqLen, _ => None), [], false),
                         scan.seqNum, part.data);
      }
    }
  }

  lemma {:induction false} GatheredHasShape(
      limits: Limits, choose: Chooser, urType: seq<byte>, shape: Shape, pool: Pool, seqNum: Index, data: Frag)
    requires ChooserOk(choose) && ShapeOk(limits, shape) && shape.seqLen > 0 && |data| == shape.fragmentLen
    requires |pool.frags| == shape.seqLen && PoolOk(pool, shape.fragmentLen) && urType == LowerAll(urType)
    ensures var v := Gathered(limits, choose, urType, shape, pool, seqNum, data).0;
            && (v.Gathering? ==> v.urType == urType && v.shape == shape)
            && (v.Done? ==>
                  && v.urType == urType && v.fragmentCount == shape.seqLen
                  && |v.message| == shape.messageLen <= limits.maxMessageLen && Crc(v.message) == shape.checksum)
  {
    hide Crc, Assembled, AllZero, Settle, Simplify;
    assert IndexSet(choose(seqNum, shape.seqLen, shape.checksum), shape.seqLen);
    var after := Drain(pool, shape.fragmentLen, [Mixed(choose(seqNum, shape.seqLen, shape.checksum), data)]);
    if AllKnown(after.frags) {
      AssembledLength(after.frags, shape.fragmentLen);
    }
  }

  /** A decoder that has its message keeps it, whatever comes. */
  lemma {:induction false} DoneIsFinal(limits: Limits, choose: Chooser, v: View, scan: Scan)
    requires ChooserOk(choose) && v.Done?
    ensures Received(limits, choose, v, scan) == (v, Ok(true))
  {
  }

  // ----- streams with strangers in them -----

  /** What a decoder is given: a part of its own message, or anything else. */
  datatype Sound = Own(seqNum: Index) | Stray(scan: Scan)

  function OwnOf(stream: seq<Sound>): (seqNums: seq<Index>) {
    if stream == [] then []
    else
      var last := stream[|stream| - 1];
      OwnOf(stream[..|stream| - 1]) + if last.Own? then [last.seqNum] else []
  }

  /** Strays tell of another message, and until the first part of its own the decoder hears
      only unreadable ones: else it would set out on the other message. */
  ghost predicate Mingled(s: Setup, stream: seq<Sound>) {
    forall k :: 0 <= k < |stream| && stream[k].Stray? ==>
      !TellsOf(stream[k].scan, s) && (Unreadable(stream[k].scan) || OwnOf(stream[..k]) != [])
  }

  ghost function ScansOf(s: Setup, choose: Chooser, stream: seq<Sound>): (scans: seq<Scan>)
    requires ChooserOk(choose) && |s.message| == s.seqLen * s.fragmentLen >= s.messageLen
    requires 0 < s.seqLen < 0x1_0000_0000
    ensures |scans| == |stream|
    ensures forall k :: 0 <= k < |stream| ==>
              scans[k] == if stream[k].Own? then Emitted(s, choose, stream[k].seqNum) else stream[k].scan
  {
    seq(|stream|, k requires 0 <= k < |stream| =>
      if stream[k].Own? then Emitted(s, choose, stream[k].seqNum) else stream[k].scan)
  }

  lemma {:induction false} ScansOfPrefix(s: Setup, choose: Chooser, stream: seq<Sound>)
    requires ChooserOk(choose) && |s.message| == s.seqLen * s.fragmentLen >= s.messageLen
    requires 0 < s.seqLen < 0x1_0000_0000 && stream != []
    ensures var k := |stream| - 1; ScansOf(s, choose, stream[..k]) == ScansOf(s, choose, stream)[..k]
  {
    hide Emitted;
  }

  lemma {:induction false} MingledPrefix(s: Setup, stream: seq<Sound>)
    requires Mingled(s, stream) && stream != []
    ensures Mingled(s, stream[..|stream| - 1])
  {
    hide TellsOf, Unreadable, OwnOf;
    var front := stream[..|stream| - 1];
    forall k | 0 <= k < |front| && front[k].Stray?
      ensures !TellsOf(front[k].scan, s) && (Unreadable(front[k].scan) || OwnOf(front[..k]) != [])
    {
      assert front[..k] == stream[..k] && front[k] == stream[k];
    }
  }

  /** Strays leave no trace: the decoder has what it would have of its own parts alone, and
      so never anything but its own message. */
  lemma {:induction false} StraysLeaveNoTrace(limits: Limits, s: Setup, cbor: seq<bv8>, choose: Chooser, stream: seq<Sound>)
    requires ChooserOk(choose) && SetupOk(s, cbor) && s.seqLen > 1 && Mingled(s, stream)
    requires s.messageLen <= limits.maxMessageLen && s.seqLen <= limits.maxFragments
    ensures HeardAll(limits, choose, ScansOf(s, choose, stream)) == Heard(limits, s, choose, OwnOf(stream))
            == Expected(s, cbor, choose, OwnOf(stream))
  {
    hide Received, Expected, Emitted, Mingled, TellsOf, Unreadable, SetupOk, ViewOk;
    assert 0 < s.seqLen < 0x1_0000_0000 && |s.message| == s.seqLen * s.fragmentLen >= s.messageLen by {
      SetupFacts(s, cbor);
    }
    StreamIsFaithful(limits, s, cbor, choose, OwnOf(stream));
    if stream != [] {
      var k := |stream| - 1;
      MingledPrefix(s, stream);
      ScansOfPrefix(s, choose, stream);
      StraysLeaveNoTrace(limits, s, cbor, choose, stream[..k]);
      var own := OwnOf(stream[..k]);
      if stream[k].Own? {
        assert OwnOf(stream)[..|own|] == own;
      } else {
        StreamIsFaithful(limits, s, cbor, choose, own);
        StrayIsIgnored(limits, s, cbor, choose, own, stream, k);
        assert OwnOf(stream) == own;
      }
    }
  }

  lemma {:induction false} SetupFacts(s: Setup, cbor: seq<bv8>)
    requires SetupOk(s, cbor)
    ensures 0 < s.seqLen < 0x1_0000_0000 && |s.message| == s.seqLen * s.fragmentLen >= s.messageLen
  {
    hide Crc, CeilDiv, AllZero;
  }

  lemma {:induction false} StrayIsIgnored(
      limits: Limits, s: Setup, cbor: seq<bv8>, choose: Chooser, own: seq<Index>, stream: seq<Sound>, k: nat)
    requires ChooserOk(choose) && SetupOk(s, cbor) && k < |stream| && stream[k].Stray?
    requires Mingled(s, stream) && own == OwnOf(stream[..k]) && ViewOk(limits, Expected(s, cbor, choose, own))
    ensures Received(limits, choose, Expected(s, cbor, choose, own), stream[k].scan).0 == Expected(s, cbor, choose, own)
  {
    hide Received, TellsOf, Unreadable, PoolOk, CheckShape, Crc, AllKnown, Absorb, OwnOf;
    var scan, v := stream[k].scan, Expected(s, cbor, choose, own);
    if own == [] {
      UnreadableIsRefused(limits, choose, scan);
    } else if v.Done? {
      DoneIsFinal(limits, choose, v, scan);
    } else {
      StrangerIsRefused(limits, choose, v, s, scan);
    }
  }

  /** Parts 1 to `seqLen` give the message, whatever strays come between them. */
  lemma {:induction false} OriginalsSufficeAmongStrays(
      limits: Limits, s: Setup, cbor: seq<bv8>, choose: Chooser, stream: seq<Sound>)
    requires ChooserOk(choose) && SetupOk(s, cbor) && s.seqLen > 1 && Mingled(s, stream)
    requires s.messageLen <= limits.maxMessageLen && s.seqLen <= limits.maxFragments
    requires forall i: Index :: i <= s.seqLen ==> i in OwnOf(stream)
    ensures 0 < s.seqLen < 0x1_0000_0000 && |s.message| == s.seqLen * s.fragmentLen >= s.messageLen
    ensures HeardAll(limits, choose, ScansOf(s, choose, stream)) == Done(LowerAll(s.urType), s.seqLen, cbor)
  {
    hide SetupOk, ScansOf, HeardAll, Heard, Mingled, OwnOf, Expected;
    SetupFacts(s, cbor);
    StraysLeaveNoTrace(limits, s, cbor, choose, stream);
    OriginalsSuffice(limits, s, cbor, choose, OwnOf(stream));
  }
}
