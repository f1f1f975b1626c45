/** The fountain `Decoder` of src/bcur/fountain.rs, from the parsed form of a
    scanned string on. */
module Decoder {
  import opened Options
  import opened Bytes
  import opened Ascii
  import opened Ceiling
  import opened Fragments
  import opened Peeling
  import opened Choice
  import opened Crc32

  datatype Error =
    | InvalidScheme | InvalidType | InvalidSequence | InvalidWord | InvalidLength | BadChecksum
    | BufferTooSmall | InvalidPart | EmptyMessage | InvalidFragmentLen | TooLarge | InconsistentPart | TypeMismatch

  datatype Result<+T> = Ok(value: T) | Err(error: Error)

  /** A positive 32-bit number, as `parse_index` gives. */
  type Index = x: nat | 1 <= x < 0x1_0000_0000 witness 1

  /** `[seq_num, seq_len, message_len, checksum, data]`, as the body has it. */
  datatype Part = Part(seqNum: nat, seqLen: nat, messageLen: nat, checksum: bv32, data: seq<bv8>)

  /** A scanned string: what `Ur::parse` makes of it, and what its body decodes
      to, as a payload or as a part. */
  datatype Scan =
    | NotUr(error: Error)
    | Single(urType: seq<byte>, body: Result<seq<bv8>>)
    | Multi(urType: seq<byte>, seqNum: Index, seqLen: Index, part: Result<Part>)

  datatype Shape = Shape(seqLen: nat, messageLen: nat, checksum: bv32, fragmentLen: nat)

  datatype Limits = Limits(maxMessageLen: nat, maxFragments: nat)

  // ----- what a decoder stands for -----

  /** A decoder that has received nothing, some parts of a message, or all of it. */
  datatype View =
    | Empty
    | Gathering(urType: seq<byte>, shape: Shape, pool: Pool)
    | Done(urType: seq<byte>, fragmentCount: nat, message: seq<bv8>)

  /** `start`: whether the first part of a message is acceptable. */
  function CheckShape(limits: Limits, shape: Shape): Option<Error> {
    if shape.messageLen == 0 || shape.fragmentLen == 0 then Some(InvalidPart)
    else if CeilDiv(shape.messageLen, shape.fragmentLen) != shape.seqLen then Some(InvalidPart)
    else if shape.messageLen > limits.maxMessageLen || shape.seqLen > limits.maxFragments then Some(TooLarge)
    else None
  }

  ghost predicate ShapeOk(limits: Limits, shape: Shape) {
    CheckShape(limits, shape) == None
  }

  ghost predicate ViewOk(limits: Limits, v: View) {
    v.Gathering? ==>
      && ShapeOk(limits, v.shape) && v.shape.seqLen > 0
      && |v.pool.frags| == v.shape.seqLen && PoolOk(v.pool, v.shape.fragmentLen)
      && v.urType == LowerAll(v.urType)
  }

  ghost predicate AllKnown(frags: seq<Option<Frag>>) {
    forall i :: 0 <= i < |frags| ==> frags[i].Some?
  }

  /** The fragments of a message end to end. */
  ghost function Assembled(frags: seq<Option<Frag>>): seq<bv8>
    requires AllKnown(frags)
  {
    if frags == [] then [] else Assembled(frags[..|frags| - 1]) + frags[|frags| - 1].value
  }

  ghost predicate AllZero(s: seq<bv8>) {
    forall i :: 0 <= i < |s| ==> s[i] == 0
  }

  /** `finish`: the assembled message if its padding and checksum are right. */
  ghost function Finished(urType: seq<byte>, shape: Shape, pool: Pool): (r: (View, Result<bool>))
    requires AllKnown(pool.frags) && shape.messageLen <= |Assembled(pool.frags)|
  {
    var padded := Assembled(pool.frags);
    var message := padded[..shape.messageLen];
    if !AllZero(padded[shape.messageLen..]) || Crc(message) != shape.checksum then (Empty, Err(BadChecksum))
    else (Done(urType, shape.seqLen, message), Ok(true))
  }

  lemma {:induction false} AssembledLength(frags: seq<Option<Frag>>, len: nat)
    requires AllKnown(frags) && FragsOk(frags, len)
    ensures |Assembled(frags)| == |frags| * len
  {
    if frags != [] {
      AssembledLength(frags[..|frags| - 1], len);
      assert |frags| * len == (|frags| - 1) * len + len;
    }
  }

  /** A part of a message under way. */
  ghost function Gathered(limits: Limits, choose: Chooser, urType: seq<byte>, shape: Shape, pool: Pool, seqNum: Index, data: Frag)
    : (r: (View, Result<bool>))
    requires ChooserOk(choose) && ShapeOk(limits, shape) && shape.seqLen > 0 && |data| == shape.fragmentLen
    requires |pool.frags| == shape.seqLen && PoolOk(pool, shape.fragmentLen) && urType == LowerAll(urType)
    ensures ViewOk(limits, r.0)
  {
    var after := Drain(pool, shape.fragmentLen, [Mixed(choose(seqNum, shape.seqLen, shape.checksum), data)]);
    if AllKnown(after.frags) then
      AssembledLength(after.frags, shape.fragmentLen);
      Finished(urType, shape, after)
    else (Gathering(urType, shape, after), Ok(false))
  }

  /** `receive`: the new state, and what the caller is told. */
  ghost function Received(limits: Limits, choose: Chooser, v: View, scan: Scan): (r: (View, Result<bool>))
    requires ChooserOk(choose) && ViewOk(limits, v)
    ensures ViewOk(limits, r.0)
  {
    if v.Done? then (v, Ok(true))
    else if scan.NotUr? then (v, Err(scan.error))
    else if v.Gathering? && v.urType != LowerAll(scan.urType) then (v, Err(TypeMismatch))
    else if scan.Single? then
      if scan.body.Err? then (v, Err(scan.body.error))
      else if v.Gathering? then (v, Err(InconsistentPart))
      else if |scan.body.value| > limits.maxMessageLen then (v, Err(TooLarge))
      else (Done(LowerAll(scan.urType), 1, scan.body.value), Ok(true))
    else if scan.part.Err? then (v, Err(scan.part.error))
    else
      var part := scan.part.value;
      var shape := Shape(part.seqLen, part.messageLen, part.checksum, |part.data|);
      if (part.seqNum, part.seqLen) != (scan.seqNum, scan.seqLen) then (v, Err(InvalidSequence))
      else if v.Gathering? then
        if shape != v.shape then (v, Err(InconsistentPart))
        else Gathered(limits, choose, v.urType, shape, v.pool, scan.seqNum, part.data)
      else
        var refused := CheckShape(limits, shape);
        if refused.Some? then (v, Err(refused.value))
        else
          LowerTwice(scan.urType);
          Gathered(limits, choose, LowerAll(scan.urType), shape, Pool(seq(shape.seqLen, _ => None), [], false), scan.seqNum, part.data)
  }

  /** An error leaves the decoder as it was, except for a bad checksum of the
      assembled message, after which it is empty. */
  lemma {:induction false} ErrorsChangeNothing(limits: Limits, choose: Chooser, v: View, scan: Scan)
    requires ChooserOk(choose) && ViewOk(limits, v) && Received(limits, choose, v, scan).1.Err?
    ensures Received(limits, choose, v, scan).0 == v
            || (Received(limits, choose, v, scan) == (Empty, Err(BadChecksum)) && scan.Multi? && scan.part.Ok?)
  {
  }

  // ----- fragments in the message buffer -----

  lemma {:induction false} InBuffer(i: nat, n: nat, len: nat)
    requires i < n
    ensures 0 <= i * len <= i * len + len <= n * len
  {
    assert (i + 1) * len <= n * len;
  }

  lemma {:induction false} BufferOrder(i: nat, j: nat, len: nat)
    requires i < j
    ensures i * len + len <= j * len
  {
    assert (i + 1) * len <= j * len;
  }

  /** The place of fragment `i` in the message. */
  function Slot(message: seq<bv8>, n: nat, len: nat, i: nat): (f: Frag)
    requires |message| == n * len && i < n
    ensures |f| == len
  {
    InBuffer(i, n, len);
    message[i * len..i * len + len]
  }

  function Fill(message: seq<bv8>, n: nat, len: nat, i: nat, f: Frag): (r: seq<bv8>)
    requires |message| == n * len && i < n && |f| == len
    ensures |r| == n * len && Slot(r, n, len, i) == f
    ensures forall j :: 0 <= j < n && j != i ==> Slot(r, n, len, j) == Slot(message, n, len, j)
  {
    InBuffer(i, n, len);
    var r := message[..i * len] + f + message[i * len + len..];
    assert forall j :: 0 <= j < n && j != i ==> Slot(r, n, len, j) == Slot(message, n, len, j) by {
      forall j | 0 <= j < n && j != i ensures Slot(r, n, len, j) == Slot(message, n, len, j) {
        InBuffer(j, n, len);
        if j < i {
          BufferOrder(j, i, len);
        } else {
          BufferOrder(i, j, len);
        }
      }
    }
    r
  }

  /** The fragments a buffer holds, each in its place once known. */
  ghost function Held(message: seq<bv8>, known: seq<bool>, len: nat): (frags: seq<Option<Frag>>)
    requires |message| == |known| * len
    ensures |frags| == |known| && FragsOk(frags, len)
    ensures forall i :: 0 <= i < |known| ==> frags[i] == if known[i] then Some(Slot(message, |known|, len, i)) else None
  {
    seq(|known|, i requires 0 <= i < |known| => if known[i] then Some(Slot(message, |known|, len, i)) else None)
  }

  /** One turn of `indexes.retain`, over the buffer. */
  lemma {:induction false} RetainAt(message: seq<bv8>, known: seq<bool>, len: nat, indexes: seq<nat>, k: nat, data: Frag)
    requires |message| == |known| * len && Below(indexes, |known|) && |data| == len && k < |indexes|
    ensures Below(indexes[k..], |known|) && Below(indexes[k + 1..], |known|) && indexes[k] < |known|
    ensures var i, frags := indexes[k], Held(message, known, len);
            StripKnown(frags, len, indexes[k..], data) ==
            if known[i] then StripKnown(frags, len, indexes[k + 1..], Xor(data, Slot(message, |known|, len, i)))
            else var s := StripKnown(frags, len, indexes[k + 1..], data); Mixed([i] + s.indexes, s.data)
  {
    hide StripKnown, Slot, Below;
    StripKnownAt(Held(message, known, len), len, indexes, k, data);
  }

  lemma {:induction false} PartParts(part: Mixed, n: nat, len: nat)
    requires PartOk(n, len, part)
    ensures |part.data| == len && Below(part.indexes, n)
  {
  }

  lemma {:induction false} FillHeld(message: seq<bv8>, known: seq<bool>, len: nat, i: nat, f: Frag)
    requires |message| == |known| * len && i < |known| && |f| == len
    ensures Held(Fill(message, |known|, len, i, f), known[i := true], len) == Held(message, known, len)[i := Some(f)]
  {
  }

  /** Once all are known, the buffer is the fragments end to end. */
  lemma {:induction false} BufferIsAssembled(message: seq<bv8>, n: nat, len: nat, frags: seq<Option<Frag>>, k: nat)
    requires |message| == n * len && k <= n == |frags| && AllKnown(frags)
    requires forall i :: 0 <= i < n ==> frags[i] == Some(Slot(message, n, len, i))
    ensures k * len <= n * len && Assembled(frags[..k]) == message[..k * len]
  {
    hide AllKnown;
    if k > 0 {
      BufferIsAssembled(message, n, len, frags, k - 1);
      NextSlot(message, n, len, k);
      NextAssembled(frags, k);
    } else {
      NoSlot(message, n, len);
    }
  }

  lemma {:induction false} NoSlot(message: seq<bv8>, n: nat, len: nat)
    requires |message| == n * len
    ensures 0 * len <= n * len && message[..0 * len] == []
  {
  }

  lemma {:induction false} NextSlot(message: seq<bv8>, n: nat, len: nat, k: nat)
    requires |message| == n * len && 0 < k <= n
    ensures 0 <= (k - 1) * len <= k * len <= n * len
    ensures message[..k * len] == message[..(k - 1) * len] + Slot(message, n, len, k - 1)
  {
    InBuffer(k - 1, n, len);
    assert (k - 1) * len + len == k * len;
  }

  lemma {:induction false} NextAssembled(frags: seq<Option<Frag>>, k: nat)
    requires 0 < k <= |frags| && AllKnown(frags)
    ensures AllKnown(frags[..k]) && AllKnown(frags[..k - 1])
    ensures Assembled(frags[..k]) == Assembled(frags[..k - 1]) + frags[k - 1].value
  {
    assert frags[..k][..k - 1] == frags[..k - 1];
  }

  lemma {:induction false} AllAssembled(message: seq<bv8>, known: seq<bool>, len: nat)
    requires |message| == |known| * len && AllKnown(Held(message, known, len))
    ensures Assembled(Held(message, known, len)) == message
  {
    var n, frags := |known|, Held(message, known, len);
    forall i | 0 <= i < n ensures known[i] && frags[i] == Some(Slot(message, n, len, i)) {
      assert frags[i].Some?;
    }
    BufferIsAssembled(message, n, len, frags, n);
    assert frags[..n] == frags && message[..n * len] == message;
  }

  lemma {:induction false} PaddingChecked(message: seq<bv8>, at: nat)
    requires at <= |message|
    ensures AllZero(message[at..]) <==> forall i :: at <= i < |message| ==> message[i] == 0
  {
    assert forall i :: at <= i < |message| ==> message[i] == message[at..][i - at];
  }

  function CountTrue(known: seq<bool>): (c: nat)
    ensures c <= |known|
    ensures c == |known| <==> forall i :: 0 <= i < |known| ==> known[i]
  {
    if known == [] then 0
    else
      assert known == [known[0]] + known[1..];
      (if known[0] then 1 else 0) + CountTrue(known[1..])
  }

  lemma {:induction false} CountSet(known: seq<bool>, i: nat)
    requires i < |known| && !known[i]
    ensures CountTrue(known[i := true]) == CountTrue(known) + 1
  {
    if i > 0 {
      assert known[i := true][1..] == known[1..][i - 1 := true];
      CountSet(known[1..], i - 1);
    } else {
      assert known[0 := true][1..] == known[1..];
    }
  }

  // ----- the decoder -----

  class Decoder {
    const limits: Limits
    const choose: Chooser
    var urType: Option<seq<byte>>
    var shape: Option<Shape>
    /** The fragments, each in its place once known. */
    var message: seq<bv8>
    var known: seq<bool>
    var knownCount: nat
    var mixed: seq<Mixed>
    var complete: bool
    /** Whether the cap made it drop a part: for the proofs. */
    ghost var lost: bool

    constructor (limits: Limits, choose: Chooser)
      requires ChooserOk(choose)
      ensures Valid() && View() == Empty
      ensures this.limits == limits && this.choose == choose
    {
      this.limits, this.choose := limits, choose;
      urType, shape, message, known, knownCount, mixed, complete := None, None, [], [], 0, [], false;
      lost := false;
    }

    /** There is a message, with room for its fragments. */
    ghost predicate Laid()
      reads this
    {
      && shape.Some? && ShapeOk(limits, shape.value) && |known| == shape.value.seqLen > 0
      && |message| == |known| * shape.value.fragmentLen
      && knownCount == CountTrue(known)
    }

    ghost function CurrentPool(): (p: Pool)
      requires Laid()
      reads this
      ensures |p.frags| == |known| && FragsOk(p.frags, shape.value.fragmentLen)
    {
      Pool(Held(message, known, shape.value.fragmentLen), mixed, lost)
    }

    ghost predicate Started()
      reads this
    {
      Laid() && PoolOk(CurrentPool(), shape.value.fragmentLen)
    }

    ghost predicate Valid()
      reads this
    {
      && ChooserOk(choose)
      && (urType.Some? ==> urType.value == LowerAll(urType.value))
      && if complete then urType.Some? && knownCount == CountTrue(known) == |known| && mixed == []
         else if shape.Some? then Started() && urType.Some? && !AllKnown(CurrentPool().frags)
         else urType == None && message == [] && known == [] && knownCount == 0 && mixed == [] && !lost
    }

    /** What the fields stand for. */
    ghost function View(): (v: View)
      requires Valid()
      reads this
      ensures ViewOk(limits, v)
    {
      if complete then Done(urType.value, |known|, message)
      else if shape.Some? then Gathering(urType.value, shape.value, CurrentPool())
      else Empty
    }

    /** XORs what is known out of a part. */
    method RetainUnknown(part: Mixed) returns (y: Mixed)
      requires Started() && PartOk(|known|, shape.value.fragmentLen, part)
      ensures y == StripKnown(CurrentPool().frags, shape.value.fragmentLen, part.indexes, part.data)
    {
      hide StripKnown, PoolOk, Held, FragsOk, Below, Slot, PartOk;
      var len := shape.value.fragmentLen;
      ghost var frags := CurrentPool().frags;
      PartParts(part, |known|, len);
      ghost var all := StripKnown(frags, len, part.indexes, part.data);
      var indexes: seq<nat>, data := [], part.data;
      assert part.indexes[0..] == part.indexes;
      for k := 0 to |part.indexes|
        invariant |data| == len && Below(part.indexes[k..], |frags|)
        invariant all.indexes == indexes + StripKnown(frags, len, part.indexes[k..], data).indexes
        invariant all.data == StripKnown(frags, len, part.indexes[k..], data).data
      {
        RetainAt(message, known, len, part.indexes, k, data);
        var index := part.indexes[k];
        if known[index] {
          data := Xor(data, Slot(message, |known|, len, index));
        } else {
          indexes := indexes + [index];
        }
      }
      y := Mixed(indexes, data);
    }

    /** XORs the parts on hold that a part covers out of it. */
    method SubtractHeld(part: Mixed) returns (y: Mixed)
      requires Started() && |part.data| == shape.value.fragmentLen && Ascending(part.indexes)
      ensures y == StripHeld(|known|, shape.value.fragmentLen, mixed, part)
    {
      ghost var n, len := |known|, shape.value.fragmentLen;
      y := part;
      assert mixed[0..] == mixed;
      for k := 0 to |mixed|
        invariant |y.data| == len && Ascending(y.indexes) && PartsOk(n, len, mixed[k..])
        invariant StripHeld(n, len, mixed, part) == StripHeld(n, len, mixed[k..], y)
      {
        StripHeldAt(n, len, mixed, k, y);
        if Covers(mixed[k], y) {
          y := XorOut(mixed[k], y);
        }
      }
    }

    /** Moves the parts on hold that `affected` picks to the queue. */
    method Requeue(queue: seq<Mixed>, affected: Mixed -> bool) returns (longer: seq<Mixed>)
      modifies this`mixed
      ensures mixed == Select(old(mixed), Not(affected))
      ensures longer == queue + Select(old(mixed), affected)
    {
      longer := queue + Select(mixed, affected);
      mixed := Select(mixed, Not(affected));
    }

    /** Takes in a part down to one fragment. */
    method Learn(index: nat, data: Frag, queue: seq<Mixed>) returns (longer: seq<Mixed>)
      requires Started() && |data| == shape.value.fragmentLen && index < |known| && !known[index]
      modifies this`message, this`known, this`knownCount, this`mixed
      ensures shape == old(shape) && |known| == old(|known|) && |message| == |known| * shape.value.fragmentLen
      ensures knownCount == CountTrue(known)
      ensures Held(message, known, shape.value.fragmentLen) == old(CurrentPool().frags)[index := Some(data)]
      ensures mixed == Select(old(mixed), Not(Mixes(index)))
      ensures longer == queue + Select(old(mixed), Mixes(index))
    {
      FillHeld(message, known, shape.value.fragmentLen, index, data);
      CountSet(known, index);
      message := Fill(message, |known|, shape.value.fragmentLen, index, data);
      known := known[index := true];
      knownCount := knownCount + 1;
      longer := Requeue(queue, Mixes(index));
    }

    /** Puts a part on hold that no other has the indexes of. */
    method Hold(part: Mixed, queue: seq<Mixed>) returns (longer: seq<Mixed>)
      requires Started()
      modifies this`mixed, this`lost
      ensures var held := if WithSubsets(|known|) then Select(old(mixed), Not(CoveredBy(part))) else old(mixed);
              if |held| < Cap(|known|) then mixed == held + [part] && lost == old(lost) else mixed == held && lost
      ensures longer == queue + if WithSubsets(|known|) then Select(old(mixed), CoveredBy(part)) else []
    {
      longer := queue;
      if WithSubsets(|known|) {
        longer := Requeue(longer, CoveredBy(part));
      }
      if |mixed| < 2 * |known| + 16 {
        mixed := mixed + [part];
      } else {
        lost := true;
      }
    }

    /** What becomes of a simplified part. */
    method Settled(y: Mixed, rest: seq<Mixed>) returns (queue: seq<Mixed>)
      requires Started() && |y.data| == shape.value.fragmentLen && Below(y.indexes, |known|)
      requires forall i :: i in y.indexes ==> !known[i]
      modifies this`message, this`known, this`knownCount, this`mixed, this`lost
      ensures Laid() && |known| == old(|known|)
      ensures CurrentPool() == Settle(old(CurrentPool()), shape.value.fragmentLen, y).0
      ensures queue == rest + Settle(old(CurrentPool()), shape.value.fragmentLen, y).1
    {
      if y.indexes == [] {
        queue := rest;
      } else if |y.indexes| == 1 {
        assert y.indexes[0] in y.indexes;
        queue := Learn(y.indexes[0], y.data, rest);
      } else if exists held :: held in mixed && held.indexes == y.indexes {
        queue := rest;
      } else {
        queue := Hold(y, rest);
      }
    }

    /** One turn of the loop over the work queue. */
    method Turn(x: Mixed, rest: seq<Mixed>) returns (queue: seq<Mixed>)
      requires Started() && PartOk(|known|, shape.value.fragmentLen, x)
      modifies this`message, this`known, this`knownCount, this`mixed, this`lost
      ensures Started() && |known| == old(|known|)
      ensures CurrentPool() == Step(old(CurrentPool()), shape.value.fragmentLen, x).0
      ensures queue == rest + Step(old(CurrentPool()), shape.value.fragmentLen, x).1
    {
      StepKeepsPool(CurrentPool(), shape.value.fragmentLen, x);
      var y := RetainUnknown(x);
      if WithSubsets(|known|) {
        y := SubtractHeld(y);
      }
      assert y == Simplify(CurrentPool(), shape.value.fragmentLen, x);
      queue := Settled(y, rest);
    }

    /** Takes a part in: the loop over the work queue. */
    method Reduce(part: Mixed)
      requires Started() && PartOk(|known|, shape.value.fragmentLen, part)
      modifies this`message, this`known, this`knownCount, this`mixed, this`lost
      ensures Started() && |known| == old(|known|)
      ensures CurrentPool() == Drain(old(CurrentPool()), shape.value.fragmentLen, [part])
    {
      hide ShapeOk, Held, CountTrue, AllApart, Unknown, PoolOk, FragsOk, Step, Total, CountIrreducible;
      ghost var n, len := |known|, shape.value.fragmentLen;
      var queue := [part];
      while queue != []
        invariant Started() && |known| == n && PartsOk(n, len, queue)
        invariant Drain(CurrentPool(), len, queue) == Drain(old(CurrentPool()), len, [part])
        decreases Total(mixed) + Total(queue), if Started() then CountIrreducible(CurrentPool(), queue) else 0
      {
        var rest, x := queue[..|queue| - 1], queue[|queue| - 1];
        assert queue == rest + [x] && PartOk(n, len, x);
        StepKeepsPool(CurrentPool(), len, x);
        StepDecreases(CurrentPool(), len, rest, x);
        queue := Turn(x, rest);
      }
    }

    /** Forgets everything received, keeping the limits. */
    method Reset()
      requires ChooserOk(choose)
      modifies this
      ensures Valid() && View() == Empty
    {
      urType, shape, message, known, knownCount, mixed, complete := None, None, [], [], 0, [], false;
      lost := false;
    }

    /** Checks the first part of a message, and makes room for the message. */
    method Start(first: Shape) returns (refused: Option<Error>)
      requires Valid() && View() == Empty && first.seqLen > 0
      modifies this`shape, this`message, this`known
      ensures refused == CheckShape(limits, first)
      ensures refused.Some? ==> unchanged(this)
      ensures refused == None ==> shape == Some(first) && Started()
      ensures refused == None ==> CurrentPool() == Pool(seq(first.seqLen, _ => None), [], false)
    {
      refused := CheckShape(limits, first);
      if refused == None {
        message := seq(first.seqLen * first.fragmentLen, _ => 0);
        known := seq(first.seqLen, _ => false);
        shape := Some(first);
        NoneTrue(known);
      }
    }

    /** Checks the reassembled message. */
    method Finish() returns (r: Result<bool>)
      requires ChooserOk(choose) && Laid() && AllKnown(CurrentPool().frags) && !complete
      requires urType.Some? && urType.value == LowerAll(urType.value)
      requires shape.value.messageLen <= |Assembled(CurrentPool().frags)|
      modifies this
      ensures Valid()
      ensures (View(), r) == Finished(old(urType.value), old(shape.value), old(CurrentPool()))
    {
      hide Register;
      var messageLen, checksum := shape.value.messageLen, shape.value.checksum;
      AllAssembled(message, known, shape.value.fragmentLen);
      KnownMatches(message, known, shape.value.fragmentLen);
      var paddingIsZero := forall i :: messageLen <= i < |message| ==> message[i] == 0;
      PaddingChecked(message, messageLen);
      message := message[..messageLen];
      if !paddingIsZero || Crc(message) != checksum {
        Reset();
        return Err(BadChecksum);
      }
      mixed, complete := [], true;
      r := Ok(true);
    }

    /** Takes in a part of the message under way. */
    method Gather(seqNum: Index, data: Frag) returns (r: Result<bool>)
      requires ChooserOk(choose) && Started() && !complete && |data| == shape.value.fragmentLen
      requires urType.Some? && urType.value == LowerAll(urType.value)
      modifies this
      ensures Valid()
      ensures (View(), r)
           == Gathered(limits, choose, old(urType.value), old(shape.value), old(CurrentPool()), seqNum, data)
    {
      var indexes := choose(seqNum, shape.value.seqLen, shape.value.checksum);
      assert IndexSet(indexes, shape.value.seqLen);
      Reduce(Mixed(indexes, data));
      KnownMatches(message, known, shape.value.fragmentLen);
      if knownCount == |known| {
        AssembledLength(CurrentPool().frags, shape.value.fragmentLen);
        r := Finish();
      } else {
        r := Ok(false);
      }
    }

    /** Takes in a single-part UR. */
    method ReceiveSingle(single: seq<byte>, body: Result<seq<bv8>>) returns (r: Result<bool>)
      requires Valid() && !complete && (urType.Some? ==> urType.value == LowerAll(single))
      modifies this
      ensures Valid()
      ensures (View(), r) == Received(limits, choose, old(View()), Single(single, body))
    {
      if body.Err? {
        return Err(body.error);
      }
      if shape.Some? {
        return Err(InconsistentPart);
      }
      if |body.value| > limits.maxMessageLen {
        return Err(TooLarge);
      }
      LowerTwice(single);
      urType := Some(LowerAll(single));
      known, knownCount := [true], 1;
      message, complete := body.value, true;
      r := Ok(true);
    }

    /** Takes in a multi-part UR. */
    method ReceiveMulti(multi: seq<byte>, seqNum: Index, seqLen: Index, body: Result<Part>) returns (r: Result<bool>)
      requires Valid() && !complete && (urType.Some? ==> urType.value == LowerAll(multi))
      modifies this
      ensures Valid()
      ensures (View(), r) == Received(limits, choose, old(View()), Multi(multi, seqNum, seqLen, body))
    {
      hide StripKnown, CountTrue, CheckShape, BitStep, PartOk, Without, Gathered, Held;
      if body.Err? {
        return Err(body.error);
      }
      var part := body.value;
      if (part.seqNum, part.seqLen) != (seqNum, seqLen) {
        return Err(InvalidSequence);
      }
      var given := Shape(seqLen, part.messageLen, part.checksum, |part.data|);
      if shape.Some? {
        if shape.value != given {
          return Err(InconsistentPart);
        }
      } else {
        var refused := Start(given);
        if refused.Some? {
          return Err(refused.value);
        }
      }
      if urType == None {
        LowerTwice(multi);
        urType := Some(LowerAll(multi));
      }
      r := Gather(seqNum, part.data);
    }

    /** Takes in a scanned UR. Tells whether the message is now complete. */
    method Receive(scan: Scan) returns (r: Result<bool>)
      requires Valid()
      modifies this
      ensures Valid()
      ensures (View(), r) == Received(limits, choose, old(View()), scan)
    {
      if complete {
        return Ok(true);
      }
      if scan.NotUr? {
        return Err(scan.error);
      }
      if urType.Some? && urType.value != LowerAll(scan.urType) {
        return Err(TypeMismatch);
      }
      match scan {
        case Single(single, body) => r := ReceiveSingle(single, body);
        case Multi(multi, seqNum, seqLen, body) => r := ReceiveMulti(multi, seqNum, seqLen, body);
      }
    }
  }

  lemma {:induction false} NoneTrue(known: seq<bool>)
    requires forall i :: 0 <= i < |known| ==> !known[i]
    ensures CountTrue(known) == 0
  {
    if known != [] {
      NoneTrue(known[1..]);
    }
  }

  lemma {:induction false} KnownMatches(message: seq<bv8>, known: seq<bool>, len: nat)
    requires |message| == |known| * len
    ensures CountTrue(known) == |known| <==> AllKnown(Held(message, known, len))
  {
    var frags := Held(message, known, len);
    if AllKnown(frags) {
      assert forall i :: 0 <= i < |known| ==> frags[i].Some? && known[i];
    }
  }
}
