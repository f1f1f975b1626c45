/** The fountain `Encoder` of src/bcur/fountain.rs, and what a decoder makes of
    any stream of its parts. */
module Encoder {
  import opened Options
  import opened Bytes
  import opened Ascii
  import opened Ceiling
  import opened Fragments
  import opened Peeling
  import opened Recovery
  import opened Choice
  import opened Crc32
  import opened Decoder

  /** What an encoder is made of, short of its sequence number. */
  datatype Setup = Setup(urType: seq<byte>, message: seq<bv8>, messageLen: nat, fragmentLen: nat, seqLen: nat, checksum: bv32)

  /** `validate_type`, of a type to be written. */
  predicate ValidType(urType: seq<byte>) {
    urType != [] && forall i :: 0 <= i < |urType| ==> IsLower(urType[i]) || IsDigit(urType[i]) || urType[i] == DASH
  }

  /** `Encoder::new`. */
  function Prepare(urType: seq<byte>, cbor: seq<bv8>, maxFragmentLen: nat): Result<Setup> {
    if !ValidType(urType) then Err(InvalidType)
    else if cbor == [] then Err(EmptyMessage)
    else if maxFragmentLen == 0 then Err(InvalidFragmentLen)
    else if |cbor| >= 0x1_0000_0000 then Err(TooLarge)
    else
      CeilDivPositive(|cbor|, maxFragmentLen);
      CeilDivPositive(|cbor|, CeilDiv(|cbor|, maxFragmentLen));
      var fragmentLen := CeilDiv(|cbor|, CeilDiv(|cbor|, maxFragmentLen));
      var seqLen := CeilDiv(|cbor|, fragmentLen);
      Ok(Setup(urType, cbor + Zero(seqLen * fragmentLen - |cbor|), |cbor|, fragmentLen, seqLen, Crc(cbor)))
  }

  /** The message an encoder sends, in fragments. */
  ghost function Pieces(s: Setup): (m: seq<Frag>)
    requires |s.message| == s.seqLen * s.fragmentLen
    ensures |m| == s.seqLen && Uniform(m, s.fragmentLen)
    ensures forall i :: 0 <= i < s.seqLen ==> m[i] == Slot(s.message, s.seqLen, s.fragmentLen, i)
  {
    seq(s.seqLen, i requires 0 <= i < s.seqLen => Slot(s.message, s.seqLen, s.fragmentLen, i))
  }

  /** What `Prepare` guarantees about the message `cbor`. */
  ghost predicate SetupOk(s: Setup, cbor: seq<bv8>) {
    && 0 < s.messageLen == |cbor| < 0x1_0000_0000 && s.fragmentLen > 0
    && s.seqLen == CeilDiv(s.messageLen, s.fragmentLen) && 0 < s.seqLen < 0x1_0000_0000
    && |s.message| == s.seqLen * s.fragmentLen >= s.messageLen
    && s.message[..s.messageLen] == cbor && AllZero(s.message[s.messageLen..])
    && s.checksum == Crc(cbor)
  }

  lemma {:induction false} PrepareIsOk(urType: seq<byte>, cbor: seq<bv8>, maxFragmentLen: nat)
    requires Prepare(urType, cbor, maxFragmentLen).Ok?
    ensures SetupOk(Prepare(urType, cbor, maxFragmentLen).value, cbor)
    ensures Prepare(urType, cbor, maxFragmentLen).value.fragmentLen <= maxFragmentLen
  {
    CutIsFewestAndShortest(|cbor|, maxFragmentLen, 1);
    var s := Prepare(urType, cbor, maxFragmentLen).value;
    CeilDivPositive(|cbor|, s.fragmentLen);
    CeilDivAtMost(|cbor|, s.fragmentLen);
  }

  /** What part `seqNum` mixes. */
  ghost function Mixture(s: Setup, choose: Chooser, seqNum: Index): (x: Mixed)
    requires ChooserOk(choose) && |s.message| == s.seqLen * s.fragmentLen && s.seqLen > 0
    ensures PartOk(s.seqLen, s.fragmentLen, x) && PartTrue(Pieces(s), s.fragmentLen, x)
  {
    assert IndexSet(choose(seqNum, s.seqLen, s.checksum), s.seqLen);
    var indexes := choose(seqNum, s.seqLen, s.checksum);
    Mixed(indexes, Mix(Pieces(s), s.fragmentLen, indexes))
  }

  /** Part `seqNum`, as scanned. */
  ghost function Emitted(s: Setup, choose: Chooser, seqNum: Index): (scan: Scan)
    requires ChooserOk(choose) && |s.message| == s.seqLen * s.fragmentLen >= s.messageLen
    requires 0 < s.seqLen < 0x1_0000_0000
  {
    if s.seqLen == 1 then Single(s.urType, Ok(s.message[..s.messageLen]))
    else
      var data := Mixture(s, choose, seqNum).data;
      Multi(s.urType, seqNum, s.seqLen, Ok(Part(seqNum, s.seqLen, s.messageLen, s.checksum, data)))
  }

  class Encoder {
    const setup: Setup
    const choose: Chooser
    var seqNum: nat

    ghost predicate Valid(cbor: seq<bv8>)
      reads this
    {
      ChooserOk(choose) && SetupOk(setup, cbor) && seqNum < 0x1_0000_0000
    }

    constructor (setup: Setup, choose: Chooser, ghost cbor: seq<bv8>)
      requires ChooserOk(choose) && SetupOk(setup, cbor)
      ensures Valid(cbor) && this.setup == setup && this.choose == choose && seqNum == 0
    {
      this.setup, this.choose, seqNum := setup, choose, 0;
    }

    /** Produces the next part. */
    method NextPart(ghost cbor: seq<bv8>) returns (scan: Scan)
      requires Valid(cbor)
      modifies this
      ensures Valid(cbor)
      ensures seqNum == if old(seqNum) == 0xffff_ffff then 1 else old(seqNum) + 1
      ensures scan == Emitted(setup, choose, seqNum)
    {
      seqNum := if seqNum == 0xffff_ffff then 1 else seqNum + 1;
      if setup.seqLen == 1 {
        return Single(setup.urType, Ok(setup.message[..setup.messageLen]));
      }
      var data := Blend(choose(seqNum, setup.seqLen, setup.checksum));
      scan := Multi(setup.urType, seqNum, setup.seqLen, Ok(Part(seqNum, setup.seqLen, setup.messageLen, setup.checksum, data)));
    }

    /** The XOR of the fragments of `indexes`, one after the other. */
    method Blend(indexes: seq<nat>) returns (data: Frag)
      requires |setup.message| == setup.seqLen * setup.fragmentLen && Below(indexes, setup.seqLen)
      ensures data == Mix(Pieces(setup), setup.fragmentLen, indexes)
    {
      ghost var m, len := Pieces(setup), setup.fragmentLen;
      data := Zero(setup.fragmentLen);
      assert indexes[0..] == indexes;
      XorZero(Mix(m, len, indexes));
      for k := 0 to |indexes|
        invariant |data| == len && Below(indexes[k..], setup.seqLen)
        invariant Xor(data, Mix(m, len, indexes[k..])) == Mix(m, len, indexes)
      {
        BelowDrop(indexes, setup.seqLen, k + 1);
        assert indexes[k] in indexes && indexes[k..][1..] == indexes[k + 1..];
        XorAssociates(data, m[indexes[k]], Mix(m, len, indexes[k + 1..]));
        data := Xor(data, Slot(setup.message, setup.seqLen, setup.fragmentLen, indexes[k]));
      }
      XorZero(data);
    }
  }

  // ----- any stream of parts -----

  /** The parts of a stream, by their sequence numbers: any, in any order. */
  ghost function Sent(s: Setup, choose: Chooser, seqNums: seq<Index>): (parts: seq<Mixed>)
    requires ChooserOk(choose) && |s.message| == s.seqLen * s.fragmentLen && s.seqLen > 0
    ensures |parts| == |seqNums| && PartsOk(s.seqLen, s.fragmentLen, parts)
    ensures PartsTrue(Pieces(s), s.fragmentLen, parts)
    ensures forall k :: 0 <= k < |seqNums| ==> parts[k] == Mixture(s, choose, seqNums[k])
  {
    seq(|seqNums|, k requires 0 <= k < |seqNums| => Mixture(s, choose, seqNums[k]))
  }

  /** What a decoder has after receiving the parts of `seqNums`, one by one. */
  ghost function Heard(limits: Limits, s: Setup, choose: Chooser, seqNums: seq<Index>): (v: View)
    requires ChooserOk(choose) && |s.message| == s.seqLen * s.fragmentLen >= s.messageLen
    requires 0 < s.seqLen < 0x1_0000_0000
    ensures ViewOk(limits, v)
  {
    if seqNums == [] then Empty
    else
      var k := |seqNums| - 1;
      Received(limits, choose, Heard(limits, s, choose, seqNums[..k]), Emitted(s, choose, seqNums[k])).0
  }

  ghost function ShapeOf(s: Setup): Shape {
    Shape(s.seqLen, s.messageLen, s.checksum, s.fragmentLen)
  }

  /** Once every fragment is known, the decoder ends with exactly the message. */
  lemma {:induction false} FinishedIsMessage(s: Setup, cbor: seq<bv8>, urType: seq<byte>, pool: Pool)
    requires SetupOk(s, cbor) && |pool.frags| == s.seqLen && PoolOk(pool, s.fragmentLen)
    requires PoolTrue(Pieces(s), s.fragmentLen, pool) && AllKnown(pool.frags)
    ensures s.messageLen <= |Assembled(pool.frags)|
    ensures Finished(urType, ShapeOf(s), pool) == (Done(urType, s.seqLen, cbor), Ok(true))
  {
    BufferIsAssembled(s.message, s.seqLen, s.fragmentLen, pool.frags, s.seqLen);
    assert pool.frags[..s.seqLen] == pool.frags;
    assert s.message[..s.seqLen * s.fragmentLen] == s.message;
  }

  /** What has been heard of a stream is what `reduce` makes of its parts, until
      nothing is missing: then it is the message. */
  ghost function Expected(s: Setup, cbor: seq<bv8>, choose: Chooser, seqNums: seq<Index>): View
    requires ChooserOk(choose) && SetupOk(s, cbor)
  {
    var pool := Absorb(s.seqLen, s.fragmentLen, Sent(s, choose, seqNums));
    if seqNums == [] then Empty
    else if AllKnown(pool.frags) then Done(LowerAll(s.urType), s.seqLen, cbor)
    else Gathering(LowerAll(s.urType), ShapeOf(s), pool)
  }

  /** Whatever gets lost, repeated or reordered, every part of one encoder is
      accepted, and a decoder that completes has exactly the message. */
  lemma {:induction false} StreamIsFaithful(limits: Limits, s: Setup, cbor: seq<bv8>, choose: Chooser, seqNums: seq<Index>)
    requires ChooserOk(choose) && SetupOk(s, cbor) && s.seqLen > 1
    requires s.messageLen <= limits.maxMessageLen && s.seqLen <= limits.maxFragments
    ensures Heard(limits, s, choose, seqNums) == Expected(s, cbor, choose, seqNums)
    ensures seqNums != [] ==> Received(limits, choose, Heard(limits, s, choose, seqNums[..|seqNums| - 1]),
                                       Emitted(s, choose, seqNums[|seqNums| - 1])).1.Ok?
  {
    if seqNums != [] {
      var k := |seqNums| - 1;
      StreamIsFaithful(limits, s, cbor, choose, seqNums[..k]);
      NextIsFaithful(limits, s, cbor, choose, seqNums);
    }
  }

  lemma {:induction false} NextIsFaithful(limits: Limits, s: Setup, cbor: seq<bv8>, choose: Chooser, seqNums: seq<Index>)
    requires ChooserOk(choose) && SetupOk(s, cbor) && s.seqLen > 1 && seqNums != []
    requires s.messageLen <= limits.maxMessageLen && s.seqLen <= limits.maxFragments
    ensures ViewOk(limits, Expected(s, cbor, choose, seqNums[..|seqNums| - 1]))
    ensures var r := Received(limits, choose, Expected(s, cbor, choose, seqNums[..|seqNums| - 1]),
                              Emitted(s, choose, seqNums[|seqNums| - 1]));
            r.0 == Expected(s, cbor, choose, seqNums) && r.1.Ok?
  {
    hide PoolOk, Crc, Simplify, Settle;
    var k, n, len := |seqNums| - 1, s.seqLen, s.fragmentLen;
    var parts := Sent(s, choose, seqNums);
    assert Sent(s, choose, seqNums[..k]) == parts[..k];
    LastExtends(n, len, parts);
    var before, after := Absorb(n, len, parts[..k]), Absorb(n, len, parts);
    LowerTwice(s.urType);
    if k > 0 && AllKnown(before.frags) {
      assert forall i :: 0 <= i < n ==> before.frags[i].Some?;
    } else {
      assert k == 0 ==> before == Pool(seq(n, _ => None), [], false);
      assert after == Drain(before, len, [Mixture(s, choose, seqNums[k])]);
      AbsorbIsTrue(Pieces(s), len, parts);
      if AllKnown(after.frags) {
        FinishedIsMessage(s, cbor, LowerAll(s.urType), after);
      }
    }
  }

  /** A stream with parts 1 to `seqLen` in it completes, whatever else it has. */
  lemma {:induction false} OriginalsSuffice(limits: Limits, s: Setup, cbor: seq<bv8>, choose: Chooser, seqNums: seq<Index>)
    requires ChooserOk(choose) && SetupOk(s, cbor) && s.seqLen > 1
    requires s.messageLen <= limits.maxMessageLen && s.seqLen <= limits.maxFragments
    requires forall i: Index :: i <= s.seqLen ==> i in seqNums
    ensures Heard(limits, s, choose, seqNums) == Done(LowerAll(s.urType), s.seqLen, cbor)
  {
    StreamIsFaithful(limits, s, cbor, choose, seqNums);
    var parts := Sent(s, choose, seqNums);
    var one: Index := 1;
    assert one in seqNums;
    forall i | 0 <= i < s.seqLen ensures Absorb(s.seqLen, s.fragmentLen, parts).frags[i].Some? {
      var seqNum: Index := i + 1;
      assert seqNum in seqNums;
      var k :| 0 <= k < |seqNums| && seqNums[k] == seqNum;
      assert parts[k] == Mixture(s, choose, seqNum) && choose(seqNum, s.seqLen, s.checksum) == [i];
      SingletonsSuffice(s.seqLen, s.fragmentLen, parts, i, k);
    }
  }

  /** A stream completes as soon as belief propagation over the sets its parts
      mix gets every fragment, if the cap on held parts was not reached. */
  lemma {:induction false} PeelableSuffices(limits: Limits, s: Setup, cbor: seq<bv8>, choose: Chooser, seqNums: seq<Index>, rounds: nat)
    requires ChooserOk(choose) && SetupOk(s, cbor) && s.seqLen > 1 && seqNums != []
    requires s.messageLen <= limits.maxMessageLen && s.seqLen <= limits.maxFragments
    requires !Absorb(s.seqLen, s.fragmentLen, Sent(s, choose, seqNums)).lost
    requires forall i :: 0 <= i < s.seqLen ==> Peelable(Sent(s, choose, seqNums), i, rounds)
    ensures Heard(limits, s, choose, seqNums) == Done(LowerAll(s.urType), s.seqLen, cbor)
  {
    StreamIsFaithful(limits, s, cbor, choose, seqNums);
    var parts := Sent(s, choose, seqNums);
    forall i | 0 <= i < s.seqLen ensures Absorb(s.seqLen, s.fragmentLen, parts).frags[i].Some? {
      PeelableIsKnown(s.seqLen, s.fragmentLen, parts, i, rounds);
    }
  }

  /** A stream too short to reach the cap completes as soon as belief propagation gets
      every fragment. */
  lemma {:induction false} ShortPeelableSuffices(limits: Limits, s: Setup, cbor: seq<bv8>, choose: Chooser, seqNums: seq<Index>, rounds: nat)
    requires ChooserOk(choose) && SetupOk(s, cbor) && s.seqLen > 1
    requires s.messageLen <= limits.maxMessageLen && s.seqLen <= limits.maxFragments
    requires 0 < |seqNums| <= 2 * s.seqLen + 16
    requires forall i :: 0 <= i < s.seqLen ==> Peelable(Sent(s, choose, seqNums), i, rounds)
    ensures Heard(limits, s, choose, seqNums) == Done(LowerAll(s.urType), s.seqLen, cbor)
  {
    ShortStreamsLoseNothing(s.seqLen, s.fragmentLen, Sent(s, choose, seqNums));
    PeelableSuffices(limits, s, cbor, choose, seqNums, rounds);
  }

  /** A message of one fragment is complete after any one part. */
  lemma {:induction false} SinglePartSuffices(limits: Limits, s: Setup, cbor: seq<bv8>, choose: Chooser, seqNums: seq<Index>)
    requires ChooserOk(choose) && SetupOk(s, cbor) && s.seqLen == 1 && seqNums != []
    requires s.messageLen <= limits.maxMessageLen
    ensures Heard(limits, s, choose, seqNums) == Done(LowerAll(s.urType), 1, cbor)
  {
    if |seqNums| > 1 {
      SinglePartSuffices(limits, s, cbor, choose, seqNums[..|seqNums| - 1]);
    }
  }
}
