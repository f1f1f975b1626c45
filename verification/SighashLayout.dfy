/** The byte strings behind the signature hashes of src/btcraw.rs, by position: which
    byte stands where, without the functions that write them. */
module SighashLayout {
  import opened Options
  import opened Bytes
  import opened Layout
  import opened Sighash
  import opened SighashOf
  import R = Radix

  // ----- inputs and outputs -----

  /** An outpoint stands at `at`: the transaction id, last byte first, and the number of the
      output. */
  ghost predicate OutpointAt(s: seq<byte>, at: nat, i: TxIn) {
    && at + 36 <= |s| && |i.txid| == 32
    && (forall j :: 0 <= j < 32 ==> i.txid[j] == s[at + 31 - j]) && Word4(s, at + 32) == i.vout
  }

  /** A script stands at `at`, after its length. */
  ghost predicate ScriptAt(s: seq<byte>, at: nat, script: seq<byte>) {
    SizeAt(s, at, |script|) && Holds(s, at + SizeLen(|script|), script)
  }

  ghost function ScriptLen(script: seq<byte>): nat {
    SizeLen(|script|) + |script|
  }

  /** An output stands at `at`: the amount, and the script after its length. */
  ghost predicate OutputAt(s: seq<byte>, at: nat, o: TxOut) {
    at + 8 <= |s| && Word8(s, at) == o.amount && ScriptAt(s, at + 8, o.script)
  }

  /** Where script `i` of a list starts, with `extra` bytes before each. */
  ghost function StartOf(outs: seq<TxOut>, extra: nat, i: nat): nat
    requires i <= |outs|
  {
    if i == 0 then 0 else StartOf(outs, extra, i - 1) + extra + ScriptLen(outs[i - 1].script)
  }

  lemma {:induction false} PutOutpointBytes(i: TxIn)
    requires InOk(i)
    ensures |PutOutpoint(i)| == 36 && OutpointAt(PutOutpoint(i), 0, i)
  {
    hide Le, Word4;
    var s := PutOutpoint(i);
    LeIsWord4(i.vout);
    Cut(s, 0, R.Rev(i.txid), Le(i.vout, 4));
    Cut(s, 32, Le(i.vout, 4), []);
    Word4Within(s, 32, Le(i.vout, 4), 0);
    forall j | 0 <= j < 32 ensures i.txid[j] == s[0 + 31 - j] {
      RevAt(i.txid, 31 - j);
    }
  }

  lemma {:induction false} RevAt(s: seq<byte>, j: nat)
    requires j < |s|
    ensures R.Rev(s)[j] == s[|s| - 1 - j]
  {
    if j > 0 {
      RevAt(s[..|s| - 1], j - 1);
    }
  }

  lemma {:induction false} OutpointWithin(s: seq<byte>, at: nat, piece: seq<byte>, off: nat, i: TxIn)
    requires Holds(s, at, piece) && OutpointAt(piece, off, i)
    ensures OutpointAt(s, at + off, i)
  {
    hide Word4;
    Word4Within(s, at, piece, off + 32);
    forall j | 0 <= j < 32 ensures i.txid[j] == s[at + off + 31 - j] {
      assert s[at + (off + 31 - j)] == piece[off + 31 - j];
    }
  }

  lemma {:induction false} PutScriptBytes(script: seq<byte>)
    requires |script| < U64
    ensures |PutScript(script)| == ScriptLen(script) && ScriptAt(PutScript(script), 0, script)
  {
    hide SizeAt, CompactSize;
    var s := PutScript(script);
    CompactSizeBytes(|script|);
    Cut(s, 0, CompactSize(|script|), script);
    Cut(s, SizeLen(|script|), script, []);
    SizeWithin(s, 0, CompactSize(|script|), 0, |script|);
  }

  lemma {:induction false} ScriptWithin(s: seq<byte>, at: nat, piece: seq<byte>, off: nat, script: seq<byte>)
    requires Holds(s, at, piece) && ScriptAt(piece, off, script)
    ensures ScriptAt(s, at + off, script)
  {
    hide SizeAt, Holds;
    SizeWithin(s, at, piece, off, |script|);
    HoldsWithin(s, at, piece, off + SizeLen(|script|), script);
  }

  lemma {:induction false} PutOutputBytes(o: TxOut)
    requires OutOk(o)
    ensures |PutOutput(o)| == 8 + ScriptLen(o.script) && OutputAt(PutOutput(o), 0, o)
  {
    hide PutScript, Word8, ScriptAt, Le;
    var s, rest := PutOutput(o), PutScript(o.script);
    LeIsWord8(o.amount);
    PutScriptBytes(o.script);
    Cut(s, 0, Le(o.amount, 8), rest);
    Cut(s, 8, rest, []);
    Word8Within(s, 0, Le(o.amount, 8), 0);
    ScriptWithin(s, 8, rest, 0, o.script);
  }

  lemma {:induction false} OutputWithin(s: seq<byte>, at: nat, piece: seq<byte>, off: nat, o: TxOut)
    requires Holds(s, at, piece) && OutputAt(piece, off, o)
    ensures OutputAt(s, at + off, o)
  {
    hide Word8, ScriptAt;
    Word8Within(s, at, piece, off);
    ScriptWithin(s, at, piece, off + 8, o.script);
  }

  // ----- the lists hashed -----

  /** Outpoint `i` of a list stands at 36 * i, and sequence number `i` at 4 * i. */
  lemma {:induction false} InputsByPosition(ins: seq<TxIn>, i: nat)
    requires forall k :: 0 <= k < |ins| ==> InOk(ins[k])
    requires i < |ins|
    ensures |Outpoints(ins)| == 36 * |ins| && OutpointAt(Outpoints(ins), 36 * i, ins[i])
    ensures |Sequences(ins)| == 4 * |ins| && Word4(Sequences(ins), 4 * i) == ins[i].sequence
  {
    hide OutpointAt, PutOutpoint, Le, Word4, Holds;
    InputsLength(ins);
    if i == 0 {
      PutOutpointBytes(ins[0]);
      LeIsWord4(ins[0].sequence);
      Cut(Outpoints(ins), 0, PutOutpoint(ins[0]), Outpoints(ins[1..]));
      OutpointWithin(Outpoints(ins), 0, PutOutpoint(ins[0]), 0, ins[0]);
      Cut(Sequences(ins), 0, Le(ins[0].sequence, 4), Sequences(ins[1..]));
      Word4Within(Sequences(ins), 0, Le(ins[0].sequence, 4), 0);
    } else {
      PutOutpointBytes(ins[0]);
      InputsByPosition(ins[1..], i - 1);
      Tail(PutOutpoint(ins[0]), Outpoints(ins[1..]));
      Tail(Le(ins[0].sequence, 4), Sequences(ins[1..]));
      OutpointWithin(Outpoints(ins), 36, Outpoints(ins[1..]), 36 * (i - 1), ins[i]);
      Word4Within(Sequences(ins), 4, Sequences(ins[1..]), 4 * (i - 1));
    }
  }

  lemma {:induction false} InputsLength(ins: seq<TxIn>)
    requires forall k :: 0 <= k < |ins| ==> InOk(ins[k])
    ensures |Outpoints(ins)| == 36 * |ins| && |Sequences(ins)| == 4 * |ins|
  {
    hide PutOutpoint, Le;
    if ins != [] {
      OutpointLength(ins[0]);
      InputsLength(ins[1..]);
    }
  }

  lemma {:induction false} Tail(a: seq<byte>, b: seq<byte>)
    ensures Holds(a + b, |a|, b)
  {
  }

  /** Amount `i` of a list stands at 8 * i. */
  lemma {:induction false} AmountsByPosition(outs: seq<TxOut>, i: nat)
    requires forall k :: 0 <= k < |outs| ==> OutOk(outs[k])
    requires i < |outs|
    ensures |Amounts(outs)| == 8 * |outs| && Word8(Amounts(outs), 8 * i) == outs[i].amount
  {
    hide Le, Word8, Holds;
    AmountsLength(outs);
    if i == 0 {
      LeIsWord8(outs[0].amount);
      Cut(Amounts(outs), 0, Le(outs[0].amount, 8), Amounts(outs[1..]));
      Word8Within(Amounts(outs), 0, Le(outs[0].amount, 8), 0);
    } else {
      AmountsByPosition(outs[1..], i - 1);
      Tail(Le(outs[0].amount, 8), Amounts(outs[1..]));
      Word8Within(Amounts(outs), 8, Amounts(outs[1..]), 8 * (i - 1));
    }
  }

  lemma {:induction false} AmountsLength(outs: seq<TxOut>)
    ensures |Amounts(outs)| == 8 * |outs|
  {
    hide Le;
    if outs != [] {
      AmountsLength(outs[1..]);
    }
  }

  lemma {:induction false} StartOfRest(outs: seq<TxOut>, extra: nat, i: nat)
    requires 0 < i <= |outs|
    ensures StartOf(outs, extra, i) == extra + ScriptLen(outs[0].script) + StartOf(outs[1..], extra, i - 1)
  {
    hide ScriptLen;
    if i > 1 {
      StartOfRest(outs, extra, i - 1);
    }
  }

  /** Scripts stand one after the other, each after its length. */
  lemma {:induction false} ScriptsByPosition(outs: seq<TxOut>, i: nat)
    requires forall k :: 0 <= k < |outs| ==> OutOk(outs[k])
    requires i < |outs|
    ensures |Scripts(outs)| == StartOf(outs, 0, |outs|) && ScriptAt(Scripts(outs), StartOf(outs, 0, i), outs[i].script)
  {
    hide PutScript, ScriptAt, Holds, StartOf, ScriptLen;
    ListsLength(outs);
    PutScriptBytes(outs[0].script);
    if i == 0 {
      Cut(Scripts(outs), 0, PutScript(outs[0].script), Scripts(outs[1..]));
      StartIsNone(outs, 0);
      ScriptWithin(Scripts(outs), 0, PutScript(outs[0].script), 0, outs[0].script);
    } else {
      ScriptsByPosition(outs[1..], i - 1);
      StartOfRest(outs, 0, i);
      Tail(PutScript(outs[0].script), Scripts(outs[1..]));
      ScriptWithin(Scripts(outs), |PutScript(outs[0].script)|, Scripts(outs[1..]), StartOf(outs[1..], 0, i - 1), outs[i].script);
    }
  }

  lemma {:induction false} StartIsNone(outs: seq<TxOut>, extra: nat)
    ensures StartOf(outs, extra, 0) == 0
  {
  }

  lemma {:induction false} ListsLength(outs: seq<TxOut>)
    requires forall k :: 0 <= k < |outs| ==> OutOk(outs[k])
    ensures |Scripts(outs)| == StartOf(outs, 0, |outs|) && |Outputs(outs)| == StartOf(outs, 8, |outs|)
  {
    hide PutScript, PutOutput, ScriptLen, StartOf;
    if outs == [] {
      StartIsNone(outs, 0);
      StartIsNone(outs, 8);
    } else {
      PutScriptBytes(outs[0].script);
      PutOutputBytes(outs[0]);
      ListsLength(outs[1..]);
      StartOfRest(outs, 0, |outs|);
      StartOfRest(outs, 8, |outs|);
    }
  }

  /** Outputs stand one after the other. */
  lemma {:induction false} OutputsByPosition(outs: seq<TxOut>, i: nat)
    requires forall k :: 0 <= k < |outs| ==> OutOk(outs[k])
    requires i < |outs|
    ensures |Outputs(outs)| == StartOf(outs, 8, |outs|) && OutputAt(Outputs(outs), StartOf(outs, 8, i), outs[i])
  {
    hide PutOutput, OutputAt, Holds, StartOf, ScriptLen;
    ListsLength(outs);
    PutOutputBytes(outs[0]);
    if i == 0 {
      Cut(Outputs(outs), 0, PutOutput(outs[0]), Outputs(outs[1..]));
      StartIsNone(outs, 8);
      OutputWithin(Outputs(outs), 0, PutOutput(outs[0]), 0, outs[0]);
    } else {
      OutputsByPosition(outs[1..], i - 1);
      StartOfRest(outs, 8, i);
      Tail(PutOutput(outs[0]), Outputs(outs[1..]));
      OutputWithin(Outputs(outs), |PutOutput(outs[0])|, Outputs(outs[1..]), StartOf(outs[1..], 8, i - 1), outs[i]);
    }
  }

  // ----- the strings hashed for one input -----

  /** The input signed alone: its outpoint, the output it spends and its sequence number. */
  ghost predicate InputAt(s: seq<byte>, at: nat, i: TxIn, spent: TxOut) {
    && OutpointAt(s, at, i) && OutputAt(s, at + 36, spent)
    && at + InputLen(spent) <= |s| && Word4(s, at + 44 + ScriptLen(spent.script)) == i.sequence
  }

  ghost function InputLen(spent: TxOut): nat {
    48 + ScriptLen(spent.script)
  }

  /** The four hashes over all inputs: outpoints, amounts, scripts, sequence numbers. */
  ghost predicate InputHashesAt(sha: Sha, s: seq<byte>, at: nat, tx: Tx, prevouts: seq<TxOut>) {
    && Holds(s, at, sha(Outpoints(tx.inputs))) && Holds(s, at + 32, sha(Amounts(prevouts)))
    && Holds(s, at + 64, sha(Scripts(prevouts))) && Holds(s, at + 96, sha(Sequences(tx.inputs)))
  }

  /** The leaf of a script path: its hash, key version 0 and the position of the last code
      separator. */
  ghost predicate LeafAt(s: seq<byte>, at: nat, leaf: Leaf) {
    Holds(s, at, leaf.hash) && at + 37 <= |s| && s[at + 32] == 0 && Word4(s, at + 33) == leaf.codesepPos
  }

  /** Epoch, hash type, version and lock time. */
  ghost predicate FrontAt(s: seq<byte>, tx: Tx, hashType: byte) {
    |s| >= 10 && s[0] == 0 && s[1] == hashType && Word4(s, 2) == tx.version && Word4(s, 6) == tx.locktime
  }

  /** From the hashes over all outputs on: what both algorithms write, the spend type or script
      type being `kind`, with `mid` of the given length between the input signed and the output
      signed alone. */
  ghost predicate RestAt(
      sha: Sha, s: seq<byte>, at: nat, tx: Tx, prevouts: seq<TxOut>, index: nat, acp: bool, mode: byte, kind: byte,
      midLen: nat, leaf: Option<Leaf>)
    requires index < |tx.inputs| == |prevouts|
  {
    var outsAt := if acp then at else at + 128;
    var kindAt := if mode == 2 || mode == 3 then outsAt else outsAt + 32;
    var oneAt := MidAt(at, prevouts[index], acp, mode) + midLen;
    var leafAt := if mode == 3 then oneAt + 32 else oneAt;
    && |s| == leafAt + (if leaf.Some? then 37 else 0)
    && (!acp ==> InputHashesAt(sha, s, at, tx, prevouts))
    && (mode != 2 && mode != 3 ==> Holds(s, outsAt, sha(Outputs(tx.outputs))))
    && s[kindAt] == kind
    && (if acp then InputAt(s, kindAt + 1, tx.inputs[index], prevouts[index]) else Word4(s, kindAt + 1) == index)
    && (mode == 3 ==> index < |tx.outputs| && Holds(s, oneAt, sha(Outputs([tx.outputs[index]]))))
    && (leaf.Some? ==> LeafAt(s, leafAt, leaf.value))
  }

  /** Where the input signed ends. */
  ghost function MidAt(at: nat, spent: TxOut, acp: bool, mode: byte): nat {
    var kindAt := (if acp then at else at + 128) + if mode == 2 || mode == 3 then 0 else 32;
    kindAt + 1 + if acp then InputLen(spent) else 4
  }

  ghost predicate Digests32(sha: Sha) {
    forall x :: |sha(x)| == 32
  }

  lemma {:induction false} Three(s: seq<byte>, a: seq<byte>, b: seq<byte>, c: seq<byte>)
    requires s == a + (b + c)
    ensures Holds(s, 0, a) && Holds(s, |a|, b) && Holds(s, |a| + |b|, c) && |s| == |a| + |b| + |c|
  {
    Cut(s, 0, a, b + c);
    Cut(s, |a|, b, c);
    HoldsAll(s, |a| + |b|, c);
  }

  lemma {:induction false} InputBytes(i: TxIn, spent: TxOut)
    requires InOk(i) && OutOk(spent)
    ensures var s := InsTail(OneIn(i, spent)); |s| == InputLen(spent) && InputAt(s, 0, i, spent)
  {
    PutOutpointBytes(i);
    PutOutputBytes(spent);
    LeIsWord4(i.sequence);
    InputOf(InsTail(OneIn(i, spent)), PutOutpoint(i), PutOutput(spent), Le(i.sequence, 4), i, spent);
  }

  lemma {:induction false} InputOf(s: seq<byte>, a: seq<byte>, b: seq<byte>, c: seq<byte>, i: TxIn, spent: TxOut)
    requires s == a + (b + c) && |a| == 36 && |b| == 8 + ScriptLen(spent.script) && |c| == 4
    requires OutpointAt(a, 0, i) && OutputAt(b, 0, spent) && Word4(c, 0) == i.sequence
    ensures |s| == InputLen(spent) && InputAt(s, 0, i, spent)
  {
    hide OutpointAt, OutputAt, Word4, ScriptLen, Holds;
    Three(s, a, b, c);
    OutpointWithin(s, 0, a, 0, i);
    OutputWithin(s, 36, b, 0, spent);
    Word4Within(s, 44 + ScriptLen(spent.script), c, 0);
  }

  lemma {:induction false} HoldsAll(s: seq<byte>, at: nat, piece: seq<byte>)
    requires at <= |s| && s[at..] == piece
    ensures Holds(s, at, piece) && |s| == at + |piece|
  {
    Cut(s, at, piece, []);
    assert |s[at..]| == |piece|;
  }

  lemma {:induction false} InputWithin(s: seq<byte>, at: nat, piece: seq<byte>, i: TxIn, spent: TxOut)
    requires Holds(s, at, piece) && InputAt(piece, 0, i, spent) && |piece| == InputLen(spent)
    ensures InputAt(s, at, i, spent)
  {
    hide OutpointAt, OutputAt, Word4, ScriptLen;
    OutpointWithin(s, at, piece, 0, i);
    OutputWithin(s, at, piece, 36, spent);
    Word4Within(s, at, piece, 44 + ScriptLen(spent.script));
  }

  lemma {:induction false} LeafBytes(s: seq<byte>, at: nat, spend: Spend)
    requires SpendOk(spend) && at <= |s| && s[at..] == LeafData(spend)
    ensures spend.Taproot? && spend.leaf.Some? ==> LeafAt(s, at, spend.leaf.value) && |s| == at + 37
    ensures !(spend.Taproot? && spend.leaf.Some?) ==> |s| == at
  {
    hide Le, Word4;
    HoldsAll(s, at, LeafData(spend));
    if spend.Taproot? && spend.leaf.Some? {
      var leaf := spend.leaf.value;
      Cut(s, at, leaf.hash, [0] + Le(leaf.codesepPos, 4));
      Cut(s, at + 32, [0], Le(leaf.codesepPos, 4));
      assert s[at + 32 + 0] == [0][0];
      HoldsAll(s, at + 33, Le(leaf.codesepPos, 4));
      LeIsWord4(leaf.codesepPos);
      Word4Within(s, at + 33, Le(leaf.codesepPos, 4), 0);
    }
  }

  lemma {:induction false} FrontBytes(s: seq<byte>, tx: Tx, hashType: byte, rest: seq<byte>)
    requires tx.version < U32 && tx.locktime < U32
    requires s == [0, hashType] + (Le(tx.version, 4) + (Le(tx.locktime, 4) + rest))
    ensures FrontAt(s, tx, hashType) && s[10..] == rest
  {
    hide Le, Word4;
    Cut(s, 0, [0, hashType], Le(tx.version, 4) + (Le(tx.locktime, 4) + rest));
    Cut(s, 2, Le(tx.version, 4), Le(tx.locktime, 4) + rest);
    Cut(s, 6, Le(tx.locktime, 4), rest);
    LeIsWord4(tx.version);
    LeIsWord4(tx.locktime);
    Word4Within(s, 2, Le(tx.version, 4), 0);
    Word4Within(s, 6, Le(tx.locktime, 4), 0);
  }

  lemma {:induction false} HashesBytes(sha: Sha, s: seq<byte>, at: nat, tx: Tx, prevouts: seq<TxOut>, index: nat, rest: seq<byte>)
    requires Digests32(sha) && at <= |s| && s[at..] == InsHashes(sha, AllIns(tx.inputs, prevouts, index)) + rest
    ensures at + 128 <= |s| && InputHashesAt(sha, s, at, tx, prevouts) && s[at + 128..] == rest
  {
    hide Outpoints, Amounts, Scripts, Sequences, Holds;
    var a, b, c, d := sha(Outpoints(tx.inputs)), sha(Amounts(prevouts)), sha(Scripts(prevouts)), sha(Sequences(tx.inputs));
    Four(a, b, c, d, rest);
    Cut(s, at, a, b + (c + (d + rest)));
    Cut(s, at + 32, b, c + (d + rest));
    Cut(s, at + 64, c, d + rest);
    Cut(s, at + 96, d, rest);
  }

  lemma {:induction false} Four(a: seq<byte>, b: seq<byte>, c: seq<byte>, d: seq<byte>, rest: seq<byte>)
    ensures a + (b + (c + d)) + rest == a + (b + (c + (d + rest)))
  {
  }

  lemma {:induction false} Six(
      s: seq<byte>, at: nat, outs: seq<byte>, kind: byte, tail: seq<byte>, mid: seq<byte>, one: seq<byte>, leaf: seq<byte>)
    requires at <= |s| && s[at..] == outs + ([kind] + (tail + (mid + (one + leaf))))
    ensures var kindAt := at + |outs|; var midAt := kindAt + 1 + |tail|; var oneAt := midAt + |mid|; var leafAt := oneAt + |one|;
            && Holds(s, at, outs) && kindAt < |s| && s[kindAt] == kind && Holds(s, kindAt + 1, tail)
            && Holds(s, midAt, mid) && Holds(s, oneAt, one) && leafAt <= |s| && s[leafAt..] == leaf
  {
    hide Holds;
    Cut(s, at, outs, [kind] + (tail + (mid + (one + leaf))));
    var kindAt := at + |outs|;
    Cut(s, kindAt, [kind], tail + (mid + (one + leaf)));
    KindAt(s, kindAt, kind);
    Cut(s, kindAt + 1, tail, mid + (one + leaf));
    Cut(s, kindAt + 1 + |tail|, mid, one + leaf);
    Cut(s, kindAt + 1 + |tail| + |mid|, one, leaf);
  }

  /** What stands between the input signed and the output signed alone is `mid`. */
  lemma {:induction false} RestBytes(
      sha: Sha, s: seq<byte>, at: nat, tx: Tx, prevouts: seq<TxOut>, index: nat, hashType: byte, spend: Spend, unified: bool,
      kind: byte, mid: seq<byte>)
    requires Digests32(sha) && TxOk(tx, prevouts) && SpendOk(spend)
    requires Refusal(tx, index, hashType, spend, unified) == None && at <= |s|
    requires var c := CommitmentOf(tx, prevouts, index, hashType, spend, unified);
             s[at..] == InsHashes(sha, c.ins) + (OutsHash(sha, c.outs) + ([kind] + (InsTail(c.ins)
               + (mid + (OneHash(sha, c.outs) + LeafData(c.spend))))))
    ensures RestAt(sha, s, at, tx, prevouts, index, hashType >= 0x80, OutputMode(hashType, unified), kind, |mid|,
                   if spend.Taproot? then spend.leaf else None)
    ensures Holds(s, MidAt(at, prevouts[index], hashType >= 0x80, OutputMode(hashType, unified)), mid)
  {
    hide Outpoints, Amounts, Scripts, Sequences, Outputs, Holds, PutOutput, PutOutpoint, LeafData, Le, Word4, InputHashesAt,
      InputAt, LeafAt, InputLen, SpendOk, InOk, OutOk, InsHashes, InsTail, AnnexOk, IsUnified, IsBip341, OutputMode, TxOk;
    OkCounts(tx, prevouts);
    var acp, mode := hashType >= 0x80, OutputMode(hashType, unified);
    var c := CommitmentOf(tx, prevouts, index, hashType, spend, unified);
    var outs, tail, one, leaf := OutsHash(sha, c.outs), InsTail(c.ins), OneHash(sha, c.outs), LeafData(c.spend);
    var outsAt := if acp then at else at + 128;
    if acp {
      NoHashes(sha, c.ins);
      assert [] + (outs + ([kind] + (tail + (mid + (one + leaf))))) == outs + ([kind] + (tail + (mid + (one + leaf))));
    } else {
      HashesBytes(sha, s, at, tx, prevouts, index, outs + ([kind] + (tail + (mid + (one + leaf)))));
    }
    Six(s, outsAt, outs, kind, tail, mid, one, leaf);
    TailIsInput(s, outsAt + |outs| + 1, tx, prevouts, index, acp, c.ins);
    OneOutput(tx.outputs, index);
    LeafBytes(s, outsAt + |outs| + 1 + |tail| + |mid| + |one|, spend);
  }

  lemma {:induction false} NoHashes(sha: Sha, ins: Ins)
    requires ins.OneIn?
    ensures InsHashes(sha, ins) == []
  {
  }

  lemma {:induction false} KindAt(s: seq<byte>, at: nat, kind: byte)
    requires Holds(s, at, [kind])
    ensures at < |s| && s[at] == kind
  {
    assert s[at + 0] == [kind][0];
  }

  lemma {:induction false} OneOutput(outs: seq<TxOut>, index: nat)
    ensures index < |outs| ==> Outputs([outs[index]]) == PutOutput(outs[index])
  {
    hide PutOutput;
    if index < |outs| {
      var one := [outs[index]];
      assert one[1..] == [];
      assert PutOutput(outs[index]) + [] == PutOutput(outs[index]);
    }
  }

  lemma {:induction false} TailIsInput(
      s: seq<byte>, at: nat, tx: Tx, prevouts: seq<TxOut>, index: nat, acp: bool, ins: Ins)
    requires TxOk(tx, prevouts) && index < |tx.inputs| == |prevouts|
    requires ins == (if acp then OneIn(tx.inputs[index], prevouts[index]) else AllIns(tx.inputs, prevouts, index))
    requires Holds(s, at, InsTail(ins))
    ensures |InsTail(ins)| == if acp then InputLen(prevouts[index]) else 4
    ensures if acp then InputAt(s, at, tx.inputs[index], prevouts[index]) else at + 4 <= |s| && Word4(s, at) == index
  {
    hide Word4, InputAt, Le, PutOutput, PutOutpoint;
    if acp {
      InputBytes(tx.inputs[index], prevouts[index]);
      InputWithin(s, at, InsTail(ins), tx.inputs[index], prevouts[index]);
    } else {
      LeIsWord4(index);
      Word4Within(s, at, Le(index, 4), 0);
    }
  }

  /** What BIP-341 has signed, after its tag: the front, the hashes and the input, the hash of
      the annex, the output signed alone and the leaf. */
  lemma {:induction false} TaprootByPosition(
      sha: Sha, tx: Tx, prevouts: seq<TxOut>, index: nat, hashType: byte, annex: Option<seq<byte>>, leaf: Option<Leaf>)
    requires Digests32(sha) && TxOk(tx, prevouts) && SpendOk(Taproot(annex, leaf))
    requires Refusal(tx, index, hashType, Taproot(annex, leaf), false) == None
    ensures |prevouts| == |tx.inputs|
    ensures var s := TaprootPreimage(sha, CommitmentOf(tx, prevouts, index, hashType, Taproot(annex, leaf), false));
            var acp, mode := hashType >= 0x80, hashType % 4;
            && FrontAt(s, tx, hashType)
            && RestAt(sha, s, 10, tx, prevouts, index, acp, mode,
                      (if leaf.Some? then 2 else 0) + (if annex.Some? then 1 else 0), if annex.Some? then 32 else 0, leaf)
            && (annex.Some? ==> Holds(s, MidAt(10, prevouts[index], acp, mode), sha(PutScript(annex.value))))
  {
    hide InsHashes, OutsHash, InsTail, OneHash, LeafData, Le, RestAt, FrontAt, Holds, MidAt, PutScript, TxOk, SpendOk,
      AnnexOk, IsBip341, AnyoneCanPay;
    OkCounts(tx, prevouts);
    TxNumbers(tx, prevouts);
    var spend := Taproot(annex, leaf);
    var c := CommitmentOf(tx, prevouts, index, hashType, spend, false);
    var s := TaprootPreimage(sha, c);
    var mid := AnnexHash(sha, annex);
    FrontBytes(s, tx, hashType, InsHashes(sha, c.ins) + (OutsHash(sha, c.outs) + ([SpendType(c.spend)] + (InsTail(c.ins)
                                + (mid + (OneHash(sha, c.outs) + LeafData(c.spend)))))));
    RestBytes(sha, s, 10, tx, prevouts, index, hashType, spend, false, SpendType(spend), mid);
  }

  lemma {:induction false} TxNumbers(tx: Tx, prevouts: seq<TxOut>)
    requires TxOk(tx, prevouts)
    ensures tx.version < U32 && tx.locktime < U32
  {
  }

  /** What stands for the script signed in a unified hash: its bytes after their length, or
      for taproot whether there is an annex, and its hash. */
  ghost predicate SpendAt(sha: Sha, s: seq<byte>, at: nat, spend: Spend) {
    match spend
    case Legacy(code) => ScriptAt(s, at, code)
    case SegwitV0(code) => ScriptAt(s, at, code)
    case Taproot(annex, _) =>
      at < |s| && if annex.Some? then s[at] == 1 && Holds(s, at + 1, sha(PutScript(annex.value))) else s[at] == 0
  }

  ghost function SpendLen(spend: Spend): nat {
    match spend
    case Legacy(code) => ScriptLen(code)
    case SegwitV0(code) => ScriptLen(code)
    case Taproot(annex, _) => if annex.Some? then 33 else 1
  }

  lemma {:induction false} SpendBytes(sha: Sha, s: seq<byte>, at: nat, spend: Spend)
    requires Digests32(sha) && SpendOk(spend) && Holds(s, at, SpendData(sha, spend))
    ensures |SpendData(sha, spend)| == SpendLen(spend) && SpendAt(sha, s, at, spend)
  {
    hide ScriptAt, ScriptLen;
    match spend
    case Legacy(code) =>
      PutScriptBytes(code);
      ScriptWithin(s, at, PutScript(code), 0, code);
    case SegwitV0(code) =>
      PutScriptBytes(code);
      ScriptWithin(s, at, PutScript(code), 0, code);
    case Taproot(annex, _) =>
      var data := SpendData(sha, spend);
      assert s[at + 0] == data[0];
      Cut(data, 0, [data[0]], AnnexHash(sha, annex));
      if annex.Some? {
        assert data[1..] == sha(PutScript(annex.value));
        HoldsAll(data, 1, sha(PutScript(annex.value)));
        HoldsWithin(s, at, data, 1, sha(PutScript(annex.value)));
      }
  }

  /** What the unified hash has signed, after its tag: the lock time has five bytes, and what is
      known of the script comes after the input. */
  lemma {:induction false} UnifiedByPosition(
      sha: Sha, tx: Tx, prevouts: seq<TxOut>, index: nat, hashType: byte, spend: Spend)
    requires Digests32(sha) && TxOk(tx, prevouts) && SpendOk(spend)
    requires Refusal(tx, index, hashType, spend, true) == None
    ensures |prevouts| == |tx.inputs|
    ensures var s := UnifiedPreimage(sha, CommitmentOf(tx, prevouts, index, hashType, spend, true));
            var acp, mode := hashType >= 0x80, hashType % 32;
            var kind: byte := match spend case Legacy(_) => 0 case SegwitV0(_) => 1 case Taproot(_, leaf) => if leaf.Some? then 3 else 2;
            && FrontAt(s, tx, hashType) && |s| > 10 && s[10] == 0
            && RestAt(sha, s, 11, tx, prevouts, index, acp, mode, kind, SpendLen(spend),
                      if spend.Taproot? then spend.leaf else None)
            && SpendAt(sha, s, MidAt(11, prevouts[index], acp, mode), spend)
  {
    hide InsHashes, OutsHash, InsTail, OneHash, LeafData, Le, RestAt, FrontAt, Holds, MidAt, PutScript, TxOk, SpendOk,
      AnnexOk, IsUnified, AnyoneCanPay, SpendData, SpendAt, SpendLen;
    OkCounts(tx, prevouts);
    TxNumbers(tx, prevouts);
    var c := CommitmentOf(tx, prevouts, index, hashType, spend, true);
    var s := UnifiedPreimage(sha, c);
    var mid := SpendData(sha, spend);
    var rest := InsHashes(sha, c.ins) + (OutsHash(sha, c.outs) + ([ScriptType(c.spend)] + (InsTail(c.ins)
                + (mid + (OneHash(sha, c.outs) + LeafData(c.spend))))));
    FrontBytes(s, tx, hashType, [0] + rest);
    Cut(s, 10, [0], rest);
    KindAt(s, 10, 0);
    RestBytes(sha, s, 11, tx, prevouts, index, hashType, spend, true, ScriptType(spend), mid);
    SpendBytes(sha, s, MidAt(11, prevouts[index], hashType >= 0x80, hashType % 32), spend);
  }

  /** Which hash types there are: BIP-341's seven, and for the unified hash those with bit 0x20
      set, of which taproot takes six. */
  lemma {:induction false} HashTypes(hashType: byte, spend: Spend)
    ensures IsBip341(hashType) <==> hashType in [0, 1, 2, 3, 0x81, 0x82, 0x83]
    ensures spend.Taproot? ==> (IsUnified(hashType, spend) <==> hashType in [0x21, 0x22, 0x23, 0xa1, 0xa2, 0xa3])
    ensures !spend.Taproot? ==> (IsUnified(hashType, spend) <==> hashType as bv8 & 0x20 != 0)
  {
    hide IsBip341, IsUnified;
    Bip341Types(hashType);
    if spend.Taproot? {
      TaprootTypes(hashType, spend);
    } else {
      OtherTypes(hashType, spend);
    }
  }

  lemma {:induction false} Bip341Types(hashType: byte)
    ensures IsBip341(hashType) <==> hashType in [0, 1, 2, 3, 0x81, 0x82, 0x83]
  {
  }

  lemma {:induction false} TaprootTypes(hashType: byte, spend: Spend)
    requires spend.Taproot?
    ensures IsUnified(hashType, spend) <==> hashType in [0x21, 0x22, 0x23, 0xa1, 0xa2, 0xa3]
  {
  }

  lemma {:induction false} OtherTypes(hashType: byte, spend: Spend)
    requires !spend.Taproot?
    ensures IsUnified(hashType, spend) <==> hashType as bv8 & 0x20 != 0
  {
    Bit5(hashType as bv8);
  }

  /** When there is a signature hash at all: the hash type exists, the input does, an annex starts
      with 0x50, and signing a single output there is one of the same index. */
  lemma {:induction false} HashedExactly(tx: Tx, index: nat, hashType: byte, spend: Spend, unified: bool)
    ensures Refusal(tx, index, hashType, spend, unified) == None <==>
              && (if !unified then hashType in [0, 1, 2, 3, 0x81, 0x82, 0x83]
                  else if spend.Taproot? then hashType in [0x21, 0x22, 0x23, 0xa1, 0xa2, 0xa3]
                  else hashType as bv8 & 0x20 != 0)
              && index < |tx.inputs|
              && (spend.Taproot? && spend.annex.Some? ==> [0x50] <= spend.annex.value)
              && ((if unified then hashType as bv8 & 0x1f == 3 else hashType in [3, 0x83]) ==> index < |tx.outputs|)
  {
    hide IsBip341, IsUnified;
    HashTypes(hashType, spend);
    Bits5(hashType as bv8);
  }

  lemma {:induction false} Bits5(x: bv8)
    ensures x & 0x1f == x % 32
  {
  }

  lemma {:induction false} Bit5(x: bv8)
    ensures x & 0x20 != 0 <==> x / 32 % 2 == 1
  {
  }
}
