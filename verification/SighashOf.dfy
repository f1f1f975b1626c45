/** The signature hashes of an input, src/btcraw.rs: the midstate shared by all inputs,
    the bytes written for one of them, and the shortcuts for whole transactions. */
module SighashOf {
  import opened Options
  import opened Bytes
  import opened Sighash

  /** What is hashed once for all inputs. */
  datatype Midstate = Midstate(version: nat, locktime: nat, inputCount: nat, shaPrevouts: Hash, shaAmounts: Hash,
                               shaScriptpubkeys: Hash, shaSequences: Hash, shaOutputs: Hash)

  function MidstateOf(sha: Sha, tx: Tx, prevouts: seq<TxOut>): Midstate {
    Midstate(tx.version, tx.locktime, |prevouts|, sha(Outpoints(tx.inputs)), sha(Amounts(prevouts)), sha(Scripts(prevouts)),
             sha(Sequences(tx.inputs)), sha(Outputs(tx.outputs)))
  }

  lemma {:induction false} OutsFrom(outs: seq<TxOut>, i: nat)
    requires i < |outs|
    ensures Amounts(outs[i..]) == Le(outs[i].amount, 8) + Amounts(outs[i + 1..])
    ensures Scripts(outs[i..]) == PutScript(outs[i].script) + Scripts(outs[i + 1..])
    ensures Outputs(outs[i..]) == PutOutput(outs[i]) + Outputs(outs[i + 1..])
  {
    hide Le, PutScript, PutOutput;
    assert outs[i..][1..] == outs[i + 1..];
  }

  lemma {:induction false} InsFrom(ins: seq<TxIn>, i: nat)
    requires i < |ins|
    ensures Outpoints(ins[i..]) == PutOutpoint(ins[i]) + Outpoints(ins[i + 1..])
    ensures Sequences(ins[i..]) == Le(ins[i].sequence, 4) + Sequences(ins[i + 1..])
  {
    hide Le, PutOutpoint;
    assert ins[i..][1..] == ins[i + 1..];
  }

  lemma {:induction false} Shift(a: seq<byte>, b: seq<byte>, c: seq<byte>)
    ensures a + (b + c) == a + b + c
  {
  }

  method StreamPrevouts(prevouts: seq<TxOut>) returns (amounts: seq<byte>, scripts: seq<byte>, count: nat)
    ensures amounts == Amounts(prevouts) && scripts == Scripts(prevouts) && count == |prevouts|
  {
    hide Amounts, Scripts, Le, PutScript;
    amounts, scripts, count := [], [], 0;
    assert prevouts[0..] == prevouts;
    for i := 0 to |prevouts|
      invariant count == i
      invariant amounts + Amounts(prevouts[i..]) == Amounts(prevouts) && scripts + Scripts(prevouts[i..]) == Scripts(prevouts)
    {
      var p := prevouts[i];
      OutsFrom(prevouts, i);
      Shift(amounts, Le(p.amount, 8), Amounts(prevouts[i + 1..]));
      Shift(scripts, PutScript(p.script), Scripts(prevouts[i + 1..]));
      amounts, scripts, count := amounts + Le(p.amount, 8), scripts + PutScript(p.script), count + 1;
    }
    Nothing();
    assert prevouts[|prevouts|..] == [] && amounts + [] == amounts && scripts + [] == scripts;
  }

  lemma {:induction false} Nothing()
    ensures Amounts([]) == [] && Scripts([]) == [] && Outputs([]) == [] && Outpoints([]) == [] && Sequences([]) == []
  {
  }

  method StreamInputs(ins: seq<TxIn>) returns (outpoints: seq<byte>, sequences: seq<byte>)
    ensures outpoints == Outpoints(ins) && sequences == Sequences(ins)
  {
    hide Outpoints, Sequences, Le, PutOutpoint;
    outpoints, sequences := [], [];
    assert ins[0..] == ins;
    for i := 0 to |ins|
      invariant outpoints + Outpoints(ins[i..]) == Outpoints(ins) && sequences + Sequences(ins[i..]) == Sequences(ins)
    {
      InsFrom(ins, i);
      Shift(outpoints, PutOutpoint(ins[i]), Outpoints(ins[i + 1..]));
      Shift(sequences, Le(ins[i].sequence, 4), Sequences(ins[i + 1..]));
      outpoints, sequences := outpoints + PutOutpoint(ins[i]), sequences + Le(ins[i].sequence, 4);
    }
    Nothing();
    assert ins[|ins|..] == [] && outpoints + [] == outpoints && sequences + [] == sequences;
  }

  method StreamOutputs(outs: seq<TxOut>) returns (bytes: seq<byte>)
    ensures bytes == Outputs(outs)
  {
    hide Outputs, PutOutput;
    bytes := [];
    assert outs[0..] == outs;
    for i := 0 to |outs|
      invariant bytes + Outputs(outs[i..]) == Outputs(outs)
    {
      OutsFrom(outs, i);
      Shift(bytes, PutOutput(outs[i]), Outputs(outs[i + 1..]));
      bytes := bytes + PutOutput(outs[i]);
    }
    Nothing();
    assert outs[|outs|..] == [] && bytes + [] == bytes;
  }

  /** `taproot_midstate_of`: none if the outputs spent are not as many as the inputs. */
  method TaprootMidstate(sha: Sha, tx: Tx, prevouts: seq<TxOut>) returns (mid: Option<Midstate>)
    ensures mid == if |prevouts| == |tx.inputs| then Some(MidstateOf(sha, tx, prevouts)) else None
  {
    hide Outputs, Outpoints, Sequences, Amounts, Scripts;
    var amounts, scripts, count := StreamPrevouts(prevouts);
    if count != |tx.inputs| {
      return None;
    }
    var outpoints, sequences := StreamInputs(tx.inputs);
    var outputs := StreamOutputs(tx.outputs);
    mid := Some(Midstate(tx.version, tx.locktime, count, sha(outpoints), sha(amounts), sha(scripts), sha(sequences), sha(outputs)));
  }

  // ----- what an input's signature commits to -----

  /** `is_unified_hash_type`. */
  predicate IsUnified(hashType: byte, spend: Spend) {
    hashType / 32 % 2 == 1 && (spend.Taproot? ==> 0x21 <= hashType % 128 <= 0x23)
  }

  /** The hash types BIP-341 defines. */
  predicate IsBip341(hashType: byte) {
    hashType <= 3 || 0x81 <= hashType <= 0x83
  }

  predicate AnnexOk(spend: Spend) {
    spend.Taproot? && spend.annex.Some? ==> spend.annex.value != [] && spend.annex.value[0] == 0x50
  }

  /** Why there is no signature hash, if there is none. */
  function Refusal(tx: Tx, index: nat, hashType: byte, spend: Spend, unified: bool): Option<Error> {
    if !(if unified then IsUnified(hashType, spend) else IsBip341(hashType)) then Some(UnsupportedSighash)
    else if index >= |tx.inputs| then Some(InputIndex)
    else if !AnnexOk(spend) then Some(InvalidData)
    else if OutputMode(hashType, unified) == 3 && index >= |tx.outputs| then Some(OutputIndex)
    else None
  }

  function CommitmentOf(tx: Tx, prevouts: seq<TxOut>, index: nat, hashType: byte, spend: Spend, unified: bool): Commitment
    requires |prevouts| == |tx.inputs| && Refusal(tx, index, hashType, spend, unified) == None
  {
    Commitment(
      hashType, tx.version, tx.locktime,
      if AnyoneCanPay(hashType) then OneIn(tx.inputs[index], prevouts[index]) else AllIns(tx.inputs, prevouts, index),
      if OutputMode(hashType, unified) == 2 then NoOuts
      else if OutputMode(hashType, unified) == 3 then OneOut(tx.outputs[index])
      else AllOuts(tx.outputs),
      spend)
  }

  /** Field widths, and as many outputs spent as inputs. */
  ghost predicate TxOk(tx: Tx, prevouts: seq<TxOut>) {
    && tx.version < U32 && tx.locktime < U32 && |prevouts| == |tx.inputs| < U32
    && (forall i :: 0 <= i < |tx.inputs| ==> InOk(tx.inputs[i])) && (forall i :: 0 <= i < |prevouts| ==> OutOk(prevouts[i]))
    && (forall i :: 0 <= i < |tx.outputs| ==> OutOk(tx.outputs[i]))
  }

  lemma {:induction false} CommitmentIsOk(tx: Tx, prevouts: seq<TxOut>, index: nat, hashType: byte, spend: Spend, unified: bool)
    requires TxOk(tx, prevouts) && SpendOk(spend) && Refusal(tx, index, hashType, spend, unified) == None
    requires !unified ==> spend.Taproot?
    ensures CommitmentOk(CommitmentOf(tx, prevouts, index, hashType, spend, unified), unified)
  {
    hide InOk, OutOk, SpendOk, AnnexOk;
  }

  /** Equal unified hashes of two inputs, of any two transactions: equal hash types,
      script types, and everything the hash type covers. */
  lemma {:induction false} UnifiedSignaturesCommit(
      sha: Sha, tx: Tx, prevouts: seq<TxOut>, index: nat, hashType: byte, spend: Spend,
      tx': Tx, prevouts': seq<TxOut>, index': nat, hashType': byte, spend': Spend)
    requires TxOk(tx, prevouts) && SpendOk(spend) && Refusal(tx, index, hashType, spend, true) == None
    requires TxOk(tx', prevouts') && SpendOk(spend') && Refusal(tx', index', hashType', spend', true) == None
    requires var c, d := CommitmentOf(tx, prevouts, index, hashType, spend, true),
                         CommitmentOf(tx', prevouts', index', hashType', spend', true);
             NoCollision(sha, Hashed(c) + Hashed(d)) && UnifiedPreimage(sha, c) == UnifiedPreimage(sha, d)
    ensures hashType == hashType' && spend == spend' && tx.version == tx'.version && tx.locktime == tx'.locktime
    ensures !AnyoneCanPay(hashType) ==> tx.inputs == tx'.inputs && prevouts == prevouts' && index == index'
    ensures tx.inputs[index] == tx'.inputs[index'] && prevouts[index] == prevouts'[index']
    ensures OutputMode(hashType, true) != 2 && OutputMode(hashType, true) != 3 ==> tx.outputs == tx'.outputs
    ensures OutputMode(hashType, true) == 3 ==> tx.outputs[index] == tx'.outputs[index']
  {
    hide UnifiedPreimage, NoCollision, Hashed, CommitmentOk, TxOk;
    OkCounts(tx, prevouts);
    OkCounts(tx', prevouts');
    CommitmentIsOk(tx, prevouts, index, hashType, spend, true);
    CommitmentIsOk(tx', prevouts', index', hashType', spend', true);
    UnifiedCommits(sha, CommitmentOf(tx, prevouts, index, hashType, spend, true),
                   CommitmentOf(tx', prevouts', index', hashType', spend', true));
  }

  /** Equal BIP-341 hashes of two inputs: the same, under BIP-341's reading of the hash
      type. */
  lemma {:induction false} TaprootSignaturesCommit(
      sha: Sha, tx: Tx, prevouts: seq<TxOut>, index: nat, hashType: byte, spend: Spend,
      tx': Tx, prevouts': seq<TxOut>, index': nat, hashType': byte, spend': Spend)
    requires spend.Taproot? && spend'.Taproot?
    requires TxOk(tx, prevouts) && SpendOk(spend) && Refusal(tx, index, hashType, spend, false) == None
    requires TxOk(tx', prevouts') && SpendOk(spend') && Refusal(tx', index', hashType', spend', false) == None
    requires var c, d := CommitmentOf(tx, prevouts, index, hashType, spend, false),
                         CommitmentOf(tx', prevouts', index', hashType', spend', false);
             NoCollision(sha, Hashed(c) + Hashed(d)) && TaprootPreimage(sha, c) == TaprootPreimage(sha, d)
    ensures hashType == hashType' && spend == spend' && tx.version == tx'.version && tx.locktime == tx'.locktime
    ensures !AnyoneCanPay(hashType) ==> tx.inputs == tx'.inputs && prevouts == prevouts' && index == index'
    ensures tx.inputs[index] == tx'.inputs[index'] && prevouts[index] == prevouts'[index']
    ensures OutputMode(hashType, false) <= 1 ==> tx.outputs == tx'.outputs
    ensures OutputMode(hashType, false) == 3 ==> tx.outputs[index] == tx'.outputs[index']
  {
    hide TaprootPreimage, NoCollision, Hashed, CommitmentOk, TxOk;
    OkCounts(tx, prevouts);
    OkCounts(tx', prevouts');
    CommitmentIsOk(tx, prevouts, index, hashType, spend, false);
    CommitmentIsOk(tx', prevouts', index', hashType', spend', false);
    TaprootCommits(sha, CommitmentOf(tx, prevouts, index, hashType, spend, false),
                   CommitmentOf(tx', prevouts', index', hashType', spend', false));
  }

  lemma {:induction false} OkCounts(tx: Tx, prevouts: seq<TxOut>)
    requires TxOk(tx, prevouts)
    ensures |prevouts| == |tx.inputs|
  {
  }

  // ----- writing it -----

  /** `SIGHASH_SINGLE` looks for the output at the input's own index. */
  method SingleOutput(sha: Sha, tx: Tx, index: nat) returns (hash: Option<Hash>)
    ensures hash == if index < |tx.outputs| then Some(sha(PutOutput(tx.outputs[index]))) else None
  {
    hash := None;
    var i := 0;
    while i < |tx.outputs|
      invariant 0 <= i <= |tx.outputs|
      invariant hash == if index < i then Some(sha(PutOutput(tx.outputs[index]))) else None
    {
      if i == index {
        hash := Some(sha(PutOutput(tx.outputs[i])));
      }
      i := i + 1;
    }
  }

  /** The input signed, found by its index. */
  method WriteInput(tx: Tx, index: nat, prevout: TxOut) returns (bytes: seq<byte>)
    requires index < |tx.inputs|
    ensures bytes == InsTail(OneIn(tx.inputs[index], prevout))
  {
    hide PutOutpoint, PutOutput, Le;
    bytes := [];
    var i := 0;
    while i < |tx.inputs|
      invariant 0 <= i <= |tx.inputs|
      invariant bytes == if index < i then InsTail(OneIn(tx.inputs[index], prevout)) else []
    {
      if i == index {
        bytes := bytes + PutOutpoint(tx.inputs[i]);
        bytes := bytes + PutOutput(prevout);
        bytes := bytes + Le(tx.inputs[i].sequence, 4);
        assert bytes == PutOutpoint(tx.inputs[i]) + (PutOutput(prevout) + Le(tx.inputs[i].sequence, 4));
      }
      i := i + 1;
    }
  }

  /** `unified_sighash_of`, up to the tag and the final hash. */
  method WriteUnified(sha: Sha, tx: Tx, mid: Midstate, prevouts: seq<TxOut>, index: nat, hashType: byte, spend: Spend)
    returns (r: Result<seq<byte>>)
    requires |prevouts| == |tx.inputs| && mid == MidstateOf(sha, tx, prevouts)
    ensures match Refusal(tx, index, hashType, spend, true)
            case Some(e) => r == Err(e)
            case None => r == Ok(UnifiedPreimage(sha, CommitmentOf(tx, prevouts, index, hashType, spend, true)))
  {
    hide Outputs, Outpoints, Sequences, Amounts, Scripts, Le, PutOutput, PutScript, PutOutpoint, LeafData, SpendData, AnnexHash,
      InsHashes, InsTail, UnifiedPreimage;
    if !IsUnified(hashType, spend) {
      return Err(UnsupportedSighash);
    }
    if index >= mid.inputCount {
      return Err(InputIndex);
    }
    var anyoneCanPay, none, single := hashType >= 0x80, hashType % 32 == 2, hashType % 32 == 3;
    if !AnnexOk(spend) {
      return Err(InvalidData);
    }
    var one: Option<Hash> := None;
    if single {
      one := SingleOutput(sha, tx, index);
      if one.None? {
        return Err(OutputIndex);
      }
    }
    ghost var c := CommitmentOf(tx, prevouts, index, hashType, spend, true);
    var front := [0, hashType] + Le(mid.version, 4) + Le(mid.locktime, 4) + [0];
    var hashes: seq<byte> := [];
    if !anyoneCanPay {
      hashes := mid.shaPrevouts + mid.shaAmounts + mid.shaScriptpubkeys + mid.shaSequences;
    }
    HashesOf(sha, tx, prevouts, index);
    assert hashes == InsHashes(sha, c.ins);
    var all: seq<byte> := [];
    if !none && !single {
      all := mid.shaOutputs;
    }
    var tail;
    if anyoneCanPay {
      tail := WriteInput(tx, index, prevouts[index]);
    } else {
      tail := Le(index, 4);
    }
    assert tail == InsTail(c.ins);
    var data := SpendData(sha, spend);
    var last: seq<byte> := if one.Some? then one.value else [];
    var h := front + hashes + all + [ScriptType(spend)] + tail + data + last + LeafData(spend);
    UnifiedInOrder(sha, c, all, last);
    r := Ok(h);
  }

  /** `taproot_sighash_of`, up to the tag and the final hash. */
  method WriteTaproot(sha: Sha, tx: Tx, mid: Midstate, prevouts: seq<TxOut>, index: nat, hashType: byte, annex: Option<seq<byte>>,
                      leaf: Option<Leaf>)
    returns (r: Result<seq<byte>>)
    requires |prevouts| == |tx.inputs| && mid == MidstateOf(sha, tx, prevouts)
    ensures match Refusal(tx, index, hashType, Taproot(annex, leaf), false)
            case Some(e) => r == Err(e)
            case None => r == Ok(TaprootPreimage(sha, CommitmentOf(tx, prevouts, index, hashType, Taproot(annex, leaf), false)))
  {
    hide Outputs, Outpoints, Sequences, Amounts, Scripts, Le, PutOutput, PutScript, PutOutpoint, LeafData, SpendData, AnnexHash,
      InsHashes, InsTail, TaprootPreimage;
    var spend := Taproot(annex, leaf);
    if !IsBip341(hashType) {
      return Err(UnsupportedSighash);
    }
    if index >= mid.inputCount {
      return Err(InputIndex);
    }
    var anyoneCanPay, none, single := hashType >= 0x80, hashType % 4 == 2, hashType % 4 == 3;
    if !AnnexOk(spend) {
      return Err(InvalidData);
    }
    var one: Option<Hash> := None;
    if single {
      one := SingleOutput(sha, tx, index);
      if one.None? {
        return Err(OutputIndex);
      }
    }
    ghost var c := CommitmentOf(tx, prevouts, index, hashType, spend, false);
    var front := [0, hashType] + Le(mid.version, 4) + Le(mid.locktime, 4);
    var hashes: seq<byte> := [];
    if !anyoneCanPay {
      hashes := mid.shaPrevouts + mid.shaAmounts + mid.shaScriptpubkeys + mid.shaSequences;
    }
    HashesOf(sha, tx, prevouts, index);
    assert hashes == InsHashes(sha, c.ins);
    var all: seq<byte> := [];
    if !none && !single {
      all := mid.shaOutputs;
    }
    var tail;
    if anyoneCanPay {
      tail := WriteInput(tx, index, prevouts[index]);
    } else {
      tail := Le(index, 4);
    }
    assert tail == InsTail(c.ins);
    var data := AnnexHash(sha, annex);
    var last: seq<byte> := if one.Some? then one.value else [];
    var h := front + hashes + all + [SpendType(spend)] + tail + data + last + LeafData(spend);
    TaprootInOrder(sha, c, all, last);
    r := Ok(h);
  }

  /** The hashes of all inputs, and what tells one input from another. */
  lemma {:induction false} HashesOf(sha: Sha, tx: Tx, prevouts: seq<TxOut>, index: nat)
    requires index < |tx.inputs| == |prevouts|
    ensures var mid := MidstateOf(sha, tx, prevouts);
            && InsHashes(sha, AllIns(tx.inputs, prevouts, index))
               == mid.shaPrevouts + mid.shaAmounts + mid.shaScriptpubkeys + mid.shaSequences
    ensures InsTail(AllIns(tx.inputs, prevouts, index)) == Le(index, 4)
    ensures InsHashes(sha, OneIn(tx.inputs[index], prevouts[index])) == []
  {
    hide Outputs, Outpoints, Sequences, Amounts, Scripts, Le;
  }

  lemma {:induction false} UnifiedInOrder(sha: Sha, c: Commitment, all: seq<byte>, last: seq<byte>)
    requires all == OutsHash(sha, c.outs) && last == OneHash(sha, c.outs)
    ensures [0, c.hashType] + Le(c.version, 4) + Le(c.locktime, 4) + [0] + InsHashes(sha, c.ins) + all + [ScriptType(c.spend)]
            + InsTail(c.ins) + SpendData(sha, c.spend) + last + LeafData(c.spend) == UnifiedPreimage(sha, c)
  {
    hide Le, InsHashes, OutsHash, ScriptType, InsTail, SpendData, OneHash, LeafData;
    var front := [0, c.hashType] + Le(c.version, 4) + Le(c.locktime, 4) + [0];
    var rest := InsHashes(sha, c.ins) + (all + ([ScriptType(c.spend)] + (InsTail(c.ins) + (SpendData(sha, c.spend)
                + (last + LeafData(c.spend))))));
    Reassociated(front, InsHashes(sha, c.ins), all, [ScriptType(c.spend)], InsTail(c.ins), SpendData(sha, c.spend), last,
                 LeafData(c.spend));
    FourInFront([0, c.hashType], Le(c.version, 4), Le(c.locktime, 4), [0], rest);
  }

  lemma {:induction false} TaprootInOrder(sha: Sha, c: Commitment, all: seq<byte>, last: seq<byte>)
    requires c.spend.Taproot? && all == OutsHash(sha, c.outs) && last == OneHash(sha, c.outs)
    ensures [0, c.hashType] + Le(c.version, 4) + Le(c.locktime, 4) + InsHashes(sha, c.ins) + all + [SpendType(c.spend)]
            + InsTail(c.ins) + AnnexHash(sha, c.spend.annex) + last + LeafData(c.spend) == TaprootPreimage(sha, c)
  {
    hide Le, InsHashes, OutsHash, SpendType, InsTail, AnnexHash, OneHash, LeafData;
    var front := [0, c.hashType] + Le(c.version, 4) + Le(c.locktime, 4);
    var rest := InsHashes(sha, c.ins) + (all + ([SpendType(c.spend)] + (InsTail(c.ins) + (AnnexHash(sha, c.spend.annex)
                + (last + LeafData(c.spend))))));
    Reassociated(front, InsHashes(sha, c.ins), all, [SpendType(c.spend)], InsTail(c.ins), AnnexHash(sha, c.spend.annex), last,
                 LeafData(c.spend));
    ThreeInFront([0, c.hashType], Le(c.version, 4), Le(c.locktime, 4), rest);
  }

  lemma {:induction false} FourInFront(a: seq<byte>, b: seq<byte>, c: seq<byte>, d: seq<byte>, e: seq<byte>)
    ensures a + b + c + d + e == a + (b + (c + (d + e)))
  {
  }

  lemma {:induction false} Reassociated(a: seq<byte>, b: seq<byte>, c: seq<byte>, d: seq<byte>, e: seq<byte>, f: seq<byte>,
                                        g: seq<byte>, h: seq<byte>)
    ensures a + b + c + d + e + f + g + h == a + (b + (c + (d + (e + (f + (g + h))))))
  {
  }

  // ----- the 175-byte shortcut -----

  /** `common`. */
  function Common(mid: Midstate, hashType: byte, spendType: byte, index: nat): seq<byte> {
    [0, hashType] + Le(mid.version, 4) + Le(mid.locktime, 4) + mid.shaPrevouts + mid.shaAmounts + mid.shaScriptpubkeys
    + mid.shaSequences + mid.shaOutputs + [spendType] + Le(index, 4)
  }

  lemma {:induction false} CommonParts(sha: Sha, tx: Tx, prevouts: seq<TxOut>, index: nat, hashType: byte, spend: Spend)
    requires |prevouts| == |tx.inputs| && hashType <= 1 && index < |tx.inputs| && spend.Taproot? && spend.annex.None?
    ensures Refusal(tx, index, hashType, spend, false) == None
    ensures TaprootPreimage(sha, CommitmentOf(tx, prevouts, index, hashType, spend, false))
         == Common(MidstateOf(sha, tx, prevouts), hashType, SpendType(spend), index) + LeafData(spend)
  {
    hide Outputs, Outpoints, Sequences, Amounts, Scripts, Le, PutOutput, PutScript, PutOutpoint, LeafData;
    var m, l := MidstateOf(sha, tx, prevouts), LeafData(spend);
    var hashes := m.shaPrevouts + (m.shaAmounts + (m.shaScriptpubkeys + m.shaSequences));
    var rest := m.shaOutputs + ([SpendType(spend)] + (Le(index, 4) + ([] + ([] + l))));
    var front := [0, hashType] + Le(m.version, 4) + Le(m.locktime, 4);
    ThreeInFront([0, hashType], Le(m.version, 4), Le(m.locktime, 4), hashes + rest);
    assert TaprootPreimage(sha, CommitmentOf(tx, prevouts, index, hashType, spend, false)) == front + (hashes + rest);
    CommonIs(front, m.shaPrevouts, m.shaAmounts, m.shaScriptpubkeys, m.shaSequences, m.shaOutputs, [SpendType(spend)], Le(index, 4), l);
  }

  lemma {:induction false} ThreeInFront(a: seq<byte>, b: seq<byte>, c: seq<byte>, d: seq<byte>)
    ensures a + b + c + d == a + (b + (c + d))
  {
  }

  lemma {:induction false} CommonIs(f: seq<byte>, p: seq<byte>, q: seq<byte>, r: seq<byte>, s: seq<byte>, o: seq<byte>, t: seq<byte>,
                                    i: seq<byte>, l: seq<byte>)
    ensures f + p + q + r + s + o + t + i + l == f + ((p + (q + (r + s))) + (o + (t + (i + ([] + ([] + l))))))
  {
    var rest := o + (t + (i + l));
    assert [] + ([] + l) == l;
    FourInFront(f + p + q + r + s, o, t, i, l);
    FourInFront(f, p, q, r, s);
    Shift(f, p + (q + (r + s)), rest);
  }

  /** Digests are of 32 bytes. */
  ghost predicate Digests(sha: Sha) {
    forall s: seq<byte> :: |sha(s)| == 32
  }

  lemma {:induction false} CommonLength(sha: Sha, tx: Tx, prevouts: seq<TxOut>, hashType: byte, spendType: byte, index: nat)
    requires Digests(sha)
    ensures |Common(MidstateOf(sha, tx, prevouts), hashType, spendType, index)| == 175
  {
    hide Outputs, Outpoints, Sequences, Amounts, Scripts;
  }

  /** For a key path, the shortcut hashes the bytes the general function hashes. */
  lemma {:induction false} KeyPathShortcut(sha: Sha, tx: Tx, prevouts: seq<TxOut>, index: nat, hashType: byte)
    requires |prevouts| == |tx.inputs| && hashType <= 1 && index < |tx.inputs| && Digests(sha)
    ensures |Common(MidstateOf(sha, tx, prevouts), hashType, 0, index)| == 175
    ensures var spend := Taproot(None, None);
            Refusal(tx, index, hashType, spend, false) == None &&
            TaprootPreimage(sha, CommitmentOf(tx, prevouts, index, hashType, spend, false))
            == Common(MidstateOf(sha, tx, prevouts), hashType, 0, index)
  {
    hide TaprootPreimage, Common;
    CommonLength(sha, tx, prevouts, hashType, 0, index);
    var spend := Taproot(None, None);
    CommonParts(sha, tx, prevouts, index, hashType, spend);
    var common := Common(MidstateOf(sha, tx, prevouts), hashType, 0, index);
    assert common + [] == common;
  }

  /** And for a tapscript without code separators. */
  lemma {:induction false} ScriptPathShortcut(sha: Sha, tx: Tx, prevouts: seq<TxOut>, index: nat, leafHash: Hash)
    requires |prevouts| == |tx.inputs| && index < |tx.inputs| && Digests(sha) && |leafHash| == 32
    ensures |Common(MidstateOf(sha, tx, prevouts), 0, 2, index) + (leafHash + ([0] + Le(0xffff_ffff, 4)))| == 175 + 37
    ensures var spend := Taproot(None, Some(Leaf(leafHash, 0xffff_ffff)));
            Refusal(tx, index, 0, spend, false) == None &&
            TaprootPreimage(sha, CommitmentOf(tx, prevouts, index, 0, spend, false))
            == Common(MidstateOf(sha, tx, prevouts), 0, 2, index) + (leafHash + ([0] + Le(0xffff_ffff, 4)))
  {
    hide TaprootPreimage, Common;
    CommonLength(sha, tx, prevouts, 0, 2, index);
    CommonParts(sha, tx, prevouts, index, 0, Taproot(None, Some(Leaf(leafHash, 0xffff_ffff))));
  }
}
