/** When the finalizer of src/psbt/finalize.rs finalizes an input: exactly when what is stored
    with it suffices, for every kind of output. Said of the records and the bytes of the
    output script, without the finalizer's own functions. */
module Completeness {
  import opened Options
  import opened Bytes
  import opened Script
  import opened Templates
  import opened Satisfy
  import opened TapSatisfy
  import opened Finalize
  import T = TapControl

  // ----- who has signed -----

  ghost predicate HasSig(sigs: seq<PartialSig>, key: Item) {
    exists sig :: (key, sig) in sigs
  }

  ghost predicate HashSigned(sigs: seq<PartialSig>, hash160: Item -> Item, hash: Item) {
    exists p :: p in sigs && hash160(p.0) == hash
  }

  /** The places of a list of keys that have a signature. */
  ghost function SignedAt(sigs: seq<PartialSig>, keys: seq<Item>): set<nat> {
    set i: nat | i < |keys| && HasSig(sigs, keys[i])
  }

  /** The script is a standard one, and enough of its keys have signed. */
  ghost predicate CanSpendScript(sigs: seq<PartialSig>, hash160: Item -> Item, script: Item) {
    SignedPkh(sigs, hash160, script) || SignedPk(sigs, script) || exists m, keys :: MultiSigned(sigs, script, m, keys)
  }

  ghost predicate SignedPkh(sigs: seq<PartialSig>, hash160: Item -> Item, script: Item) {
    exists hash :: |hash| == 20 && script == [0x76, 0xa9, 0x14] + hash + [0x88, 0xac] && HashSigned(sigs, hash160, hash)
  }

  ghost predicate SignedPk(sigs: seq<PartialSig>, script: Item) {
    exists key :: KeySized(key) && script == [|key| as byte] + key + [0xac] && HasSig(sigs, key)
  }

  ghost predicate MultiSigned(sigs: seq<PartialSig>, script: Item, m: nat, keys: seq<Item>) {
    && 1 <= m <= |keys| <= 16 && AllKeySized(keys) && |SignedAt(sigs, keys)| >= m
    && script == [(0x50 + m) as byte] + DirectPushes(keys) + [(0x50 + |keys|) as byte, 0xae]
  }

  /** Each key after its length. */
  function DirectPushes(keys: seq<Item>): seq<byte>
    requires AllKeySized(keys)
  {
    if keys == [] then []
    else
      assert KeySized(keys[0]);
      [|keys[0]| as byte] + keys[0] + DirectPushes(keys[1..])
  }

  lemma {:induction false} SigOfFinds(sigs: seq<PartialSig>, key: Item)
    ensures SigOf(sigs, key).Some? <==> HasSig(sigs, key)
  {
    if sigs != [] && sigs[0].0 != key {
      SigOfFinds(sigs[1..], key);
      if HasSig(sigs, key) {
        var sig :| (key, sig) in sigs;
        assert (key, sig) in sigs[1..];
      }
    } else if sigs != [] {
      assert sigs[0] == (key, sigs[0].1);
    }
  }

  lemma {:induction false} KeyOfHashFinds(sigs: seq<PartialSig>, hash160: Item -> Item, hash: Item)
    ensures KeyOfHash(sigs, hash160, hash).Some? <==> HashSigned(sigs, hash160, hash)
  {
    if sigs != [] && hash160(sigs[0].0) != hash {
      KeyOfHashFinds(sigs[1..], hash160, hash);
      if HashSigned(sigs, hash160, hash) {
        var p :| p in sigs && hash160(p.0) == hash;
        assert p in sigs[1..];
      }
    } else if sigs != [] {
      assert sigs[0] in sigs;
    }
  }

  function Count(flags: seq<bool>): nat {
    if flags == [] then 0 else (if flags[0] then 1 else 0) + Count(flags[1..])
  }

  ghost function Trues(flags: seq<bool>): set<nat> {
    set i: nat | i < |flags| && flags[i]
  }

  lemma {:induction false} CountLast(front: seq<bool>, last: bool)
    ensures Count(front + [last]) == Count(front) + if last then 1 else 0
  {
    if front != [] {
      assert (front + [last])[1..] == front[1..] + [last];
      CountLast(front[1..], last);
    }
  }

  /** Counting one by one, or all at once. */
  lemma {:induction false} CountIsSize(flags: seq<bool>)
    ensures |Trues(flags)| == Count(flags)
  {
    if flags != [] {
      var n: nat := |flags| - 1;
      assert flags == flags[..n] + [flags[n]];
      CountIsSize(flags[..n]);
      CountLast(flags[..n], flags[n]);
      assert Trues(flags) == Trues(flags[..n]) + if flags[n] then {n} else {};
    } else {
      assert Trues(flags) == {};
    }
  }

  ghost function SignFlags(sigs: seq<PartialSig>, keys: seq<Item>): (flags: seq<bool>)
    ensures |flags| == |keys| && forall i :: 0 <= i < |keys| ==> flags[i] == HasSig(sigs, keys[i])
  {
    seq(|keys|, i requires 0 <= i < |keys| => HasSig(sigs, keys[i]))
  }

  lemma {:induction false} SignedIsCount(sigs: seq<PartialSig>, keys: seq<Item>)
    ensures Signed(sigs, keys) == Count(SignFlags(sigs, keys))
  {
    hide HasSig, SigOf;
    if keys != [] {
      SignedIsCount(sigs, keys[1..]);
      SigOfFinds(sigs, keys[0]);
      assert SignFlags(sigs, keys)[1..] == SignFlags(sigs, keys[1..]);
    }
  }

  lemma {:induction false} SignedCounts(sigs: seq<PartialSig>, keys: seq<Item>)
    ensures Signed(sigs, keys) == |SignedAt(sigs, keys)|
  {
    hide HasSig, Signed, Count;
    SignedIsCount(sigs, keys);
    CountIsSize(SignFlags(sigs, keys));
    assert Trues(SignFlags(sigs, keys)) == SignedAt(sigs, keys);
  }

  // ----- scripts -----

  lemma {:induction false} DirectPush(key: Item)
    requires 1 <= |key| <= 75
    ensures PushBytes(key) == [|key| as byte] + key
  {
  }

  lemma {:induction false} PushesAreDirect(keys: seq<Item>)
    requires AllKeySized(keys)
    ensures KeyPushes(keys) == DirectPushes(keys)
  {
    hide PushBytes;
    if keys != [] {
      assert KeySized(keys[0]);
      DirectPush(keys[0]);
      PushesAreDirect(keys[1..]);
    }
  }

  /** The bytes of the three standard scripts. */
  lemma {:induction false} ScriptBytes(t: Template)
    requires Standard(t)
    ensures t.Pkh? ==> ScriptOf(t) == [0x76, 0xa9, 0x14] + t.hash + [0x88, 0xac]
    ensures t.Pk? ==> ScriptOf(t) == [|t.key| as byte] + t.key + [0xac]
    ensures t.Multi? ==>
              && AllKeySized(t.keys)
              && ScriptOf(t) == [(0x50 + t.m) as byte] + DirectPushes(t.keys) + [(0x50 + |t.keys|) as byte, 0xae]
  {
    hide PushBytes;
    match t
    case Pkh(hash) =>
      DirectPush(hash);
      assert [0x76, 0xa9] + ([0x14] + hash) + [0x88, 0xac] == [0x76, 0xa9, 0x14] + hash + [0x88, 0xac];
    case Pk(key) => DirectPush(key);
    case Multi(m, keys) => PushesAreDirect(keys);
  }

  ghost predicate TemplateSigned(sigs: seq<PartialSig>, hash160: Item -> Item, t: Template) {
    match t
    case Pkh(hash) => HashSigned(sigs, hash160, hash)
    case Pk(key) => HasSig(sigs, key)
    case Multi(m, keys) => |SignedAt(sigs, keys)| >= m
  }

  lemma {:induction false} SatisfiedWhenTemplateSigned(sigs: seq<PartialSig>, hash160: Item -> Item, t: Template)
    ensures Satisfied(sigs, hash160, t).Some? <==> TemplateSigned(sigs, hash160, t)
  {
    hide SigOf, KeyOfHash, Picked, HasSig, HashSigned;
    match t
    case Pkh(hash) => KeyOfHashFinds(sigs, hash160, hash);
    case Pk(key) => SigOfFinds(sigs, key);
    case Multi(m, keys) =>
      SatisfiedWhenSigned(sigs, hash160, m, keys);
      SignedCounts(sigs, keys);
  }

  /** There is a stack for a script exactly when it is standard and has been signed. */
  lemma {:induction false} ScriptStackWhenSigned(env: Env, inp: PsbtInput, script: Item)
    ensures ScriptStack(env, inp, script).Some? <==> CanSpendScript(inp.partialSigs, env.hash160, script)
  {
    hide TemplateOf, Satisfied, ScriptOf, HasSig, HashSigned;
    var sigs := inp.partialSigs;
    var t := TemplateOf(script);
    if t.Some? {
      TemplateInvertsScript(script, t.value);
      ScriptBytes(t.value);
      SatisfiedWhenTemplateSigned(sigs, env.hash160, t.value);
      if t.value.Multi? && TemplateSigned(sigs, env.hash160, t.value) {
        assert MultiSigned(sigs, script, t.value.m, t.value.keys);
      }
    }
    if CanSpendScript(sigs, env.hash160, script) {
      var u := SignedTemplate(sigs, env.hash160, script);
      TemplateInvertsScript(script, u);
      SatisfiedWhenTemplateSigned(sigs, env.hash160, u);
    }
  }

  lemma {:induction false} SignedTemplate(sigs: seq<PartialSig>, hash160: Item -> Item, script: Item) returns (t: Template)
    requires CanSpendScript(sigs, hash160, script)
    ensures Standard(t) && script == ScriptOf(t) && TemplateSigned(sigs, hash160, t)
  {
    hide ScriptOf, HasSig, HashSigned, DirectPushes, SignedAt;
    if SignedPkh(sigs, hash160, script) {
      var hash :| |hash| == 20 && script == [0x76, 0xa9, 0x14] + hash + [0x88, 0xac] && HashSigned(sigs, hash160, hash);
      t := Pkh(hash);
    } else if SignedPk(sigs, script) {
      var key :| KeySized(key) && script == [|key| as byte] + key + [0xac] && HasSig(sigs, key);
      t := Pk(key);
    } else {
      var m, keys :| MultiSigned(sigs, script, m, keys);
      t := Multi(m, keys);
    }
    ScriptBytes(t);
  }

  // ----- tapscripts -----

  ghost predicate HasTapSig(sigs: seq<TapSig>, leafHash: Item, key: Item) {
    exists sig :: TapSig(key, leafHash, sig) in sigs
  }

  ghost function TapSignedAt(sigs: seq<TapSig>, leafHash: Item, keys: seq<Item>): set<nat> {
    set i: nat | i < |keys| && HasTapSig(sigs, leafHash, keys[i])
  }

  /** The leaf is a tapscript of keys that the output commits to, and enough have signed. */
  ghost predicate CanSpendLeaf(out: TapSatisfy.Output, sigs: seq<TapSig>, leaf: TapLeafScript, t: TapKeys) {
    && leaf.leafVersion == 0xc0 && TapStandard(t) && IsTapScript(leaf.script, t)
    && T.Parse(leaf.controlBlock).Ok? && T.Parse(leaf.controlBlock).value.leafVersion == 0xc0
    && T.Verify(out.h, out.tweak, T.Parse(leaf.controlBlock).value, leaf.script, out.key)
    && |TapSignedAt(sigs, out.h.leaf(0xc0, leaf.script), t.keys)| >= t.m
  }

  lemma {:induction false} TapSigOfFinds(sigs: seq<TapSig>, leafHash: Item, key: Item)
    ensures TapSigOf(sigs, leafHash, key).Some? <==> HasTapSig(sigs, leafHash, key)
  {
    if sigs != [] {
      TapSigOfFinds(sigs[1..], leafHash, key);
      if HasTapSig(sigs, leafHash, key) && !(sigs[0].key == key && sigs[0].leafHash == leafHash) {
        var sig :| TapSig(key, leafHash, sig) in sigs;
        assert TapSig(key, leafHash, sig) in sigs[1..];
      }
      if sigs[0].key == key && sigs[0].leafHash == leafHash {
        assert sigs[0] == TapSig(key, leafHash, sigs[0].sig);
      }
    }
  }

  ghost function TapFlags(sigs: seq<TapSig>, leafHash: Item, keys: seq<Item>): (flags: seq<bool>)
    ensures |flags| == |keys| && forall i :: 0 <= i < |keys| ==> flags[i] == HasTapSig(sigs, leafHash, keys[i])
  {
    seq(|keys|, i requires 0 <= i < |keys| => HasTapSig(sigs, leafHash, keys[i]))
  }

  lemma {:induction false} TapSignedIsCount(sigs: seq<TapSig>, leafHash: Item, keys: seq<Item>)
    ensures TapSigned(sigs, leafHash, keys) == Count(TapFlags(sigs, leafHash, keys))
  {
    hide HasTapSig, TapSigOf;
    if keys != [] {
      TapSignedIsCount(sigs, leafHash, keys[1..]);
      TapSigOfFinds(sigs, leafHash, keys[0]);
      assert TapFlags(sigs, leafHash, keys)[1..] == TapFlags(sigs, leafHash, keys[1..]);
    }
  }

  lemma {:induction false} TapSignedCounts(sigs: seq<TapSig>, leafHash: Item, keys: seq<Item>)
    ensures TapSigned(sigs, leafHash, keys) == |TapSignedAt(sigs, leafHash, keys)|
  {
    hide HasTapSig, TapSigned, Count;
    TapSignedIsCount(sigs, leafHash, keys);
    CountIsSize(TapFlags(sigs, leafHash, keys));
    assert Trues(TapFlags(sigs, leafHash, keys)) == TapSignedAt(sigs, leafHash, keys);
  }

  /** A leaf has a witness exactly when it can be spent. */
  lemma {:induction false} LeafWhenSigned(out: TapSatisfy.Output, sigs: seq<TapSig>, leaf: TapLeafScript)
    ensures LeafWitness(out, sigs, leaf).Some? <==> exists t :: CanSpendLeaf(out, sigs, leaf, t)
  {
    hide TapFrom, T.Parse, T.Verify, TapSigned, TapSignedAt, Chosen, IsTapScript, RevItems;
    if LeafWitness(out, sigs, leaf).Some? {
      var t := TapFrom(leaf.script, []).value;
      TapTemplateInvertsScript(leaf.script, t);
      TapSignedCounts(sigs, out.h.leaf(0xc0, leaf.script), t.keys);
      assert CanSpendLeaf(out, sigs, leaf, t);
    }
    if t :| CanSpendLeaf(out, sigs, leaf, t) {
      TapTemplateInvertsScript(leaf.script, t);
      TapSignedCounts(sigs, out.h.leaf(0xc0, leaf.script), t.keys);
    }
  }

  /** An output is spent by script exactly when some leaf can be. */
  lemma {:induction false} BestWhenSigned(out: TapSatisfy.Output, sigs: seq<TapSig>, leaves: seq<TapLeafScript>)
    ensures BestOf(out, sigs, leaves).Some? <==> exists leaf, t :: leaf in leaves && CanSpendLeaf(out, sigs, leaf, t)
  {
    hide BestOf, LeafWitness, CanSpendLeaf;
    BestIsShortest(out, sigs, leaves);
    if BestOf(out, sigs, leaves).Some? {
      var k: nat :| IsBest(out, sigs, leaves, BestOf(out, sigs, leaves).value, k);
      LeafWhenSigned(out, sigs, leaves[k]);
      assert leaves[k] in leaves;
    } else {
      forall leaf, t | leaf in leaves ensures !CanSpendLeaf(out, sigs, leaf, t) {
        LeafWhenSigned(out, sigs, leaf);
      }
    }
  }

  // ----- what an output asks for -----

  /** `script` decides over an output: its own, or the redeem script it is the hash of. */
  ghost predicate Asks(env: Env, inp: PsbtInput, spk: Item, script: Item, redeem: Option<Item>) {
    if redeem.None? then script == spk && !(exists hash :: |hash| == 20 && spk == [0xa9, 0x14] + hash + [0x87])
    else redeem == inp.redeemScript && script == redeem.value && |env.hash160(script)| == 20 && spk == [0xa9, 0x14] + env.hash160(script) + [0x87]
  }

  /** A version, and a push of 2 to 40 bytes. */
  ghost predicate IsProgram(script: Item, version: byte, program: Item) {
    2 <= |program| <= 40 && script == [version, |program| as byte] + program
  }

  ghost predicate AnyProgram(script: Item) {
    exists version, program :: (version == 0 || 0x51 <= version <= 0x60) && IsProgram(script, version, program)
  }

  lemma {:induction false} P2shBytes(spk: Item, hash: Item)
    requires |hash| == 20 && spk == [0xa9, 0x14] + hash + [0x87]
    ensures IsP2sh(spk) && spk[2..22] == hash
  {
  }

  lemma {:induction false} P2shHash(spk: Item)
    requires IsP2sh(spk)
    ensures spk == [0xa9, 0x14] + spk[2..22] + [0x87]
  {
  }

  lemma {:induction false} AsksIsInner(env: Env, inp: PsbtInput, spk: Item, script: Item, redeem: Option<Item>)
    ensures Asks(env, inp, spk, script, redeem) <==> Inner(env, inp, spk) == Ok((script, redeem))
  {
    if IsP2sh(spk) {
      P2shHash(spk);
      assert |spk[2..22]| == 20;
    }
    if Asks(env, inp, spk, script, redeem) && redeem.Some? {
      P2shBytes(spk, env.hash160(script));
    }
    if hash :| |hash| == 20 && spk == [0xa9, 0x14] + hash + [0x87] {
      P2shBytes(spk, hash);
    }
  }

  lemma {:induction false} ProgramIs(script: Item, version: byte, n: byte)
    requires n == 20 || n == 32
    ensures forall program :: |program| == n as nat ==> (IsProgram(script, version, program) <==> Program(script, version, n) == Some(program))
  {
    forall program | |program| == n as nat && IsProgram(script, version, program)
      ensures Program(script, version, n) == Some(program)
    {
      assert script[2..] == program;
    }
    if Program(script, version, n).Some? {
      assert script == [version, n] + script[2..];
    }
  }

  lemma {:induction false} AnyProgramIs(script: Item)
    ensures AnyProgram(script) <==> IsWitnessProgram(script)
  {
    if IsWitnessProgram(script) {
      assert script == [script[0], |script[2..]| as byte] + script[2..];
      assert IsProgram(script, script[0], script[2..]);
    }
  }

  // ----- every kind -----

  ghost predicate Signable(env: Env, psbt: seq<Spent>, index: nat, script: Item, redeem: Option<Item>) {
    index < |psbt| && Asks(env, psbt[index].inp, psbt[index].spk, script, redeem)
  }

  /** A key hash, in the output or in its redeem script: finalized exactly when a key of that
      hash has signed, with such a signature and its key. */
  lemma {:induction false} KeyHashFinalized(env: Env, psbt: seq<Spent>, index: nat, script: Item, redeem: Option<Item>, hash: Item)
    requires Signable(env, psbt, index, script, redeem) && |hash| == 20 && IsProgram(script, 0, hash)
    ensures Built(env, psbt, index).Ok?
    ensures var f := Built(env, psbt, index).value;
            && (f.Some? <==> HashSigned(psbt[index].inp.partialSigs, env.hash160, hash))
            && (f.Some? ==> exists p :: p in psbt[index].inp.partialSigs && env.hash160(p.0) == hash && f.value == Final([], redeem, [p.1, p.0]))
  {
    hide KeyOfHash, HashSigned;
    var inp := psbt[index].inp;
    AsksIsInner(env, inp, psbt[index].spk, script, redeem);
    ProgramIs(script, 0, 20);
    KeyOfHashFinds(inp.partialSigs, env.hash160, hash);
    assert Built(env, psbt, index) == Ok(Finalized(env, inp, Resolved(redeem, P2wpkh(hash))));
    var found := KeyOfHash(inp.partialSigs, env.hash160, hash);
    if found.Some? {
      assert found.value in inp.partialSigs;
    }
  }

  /** A witness script: exactly when it is a standard one and has been signed. */
  lemma {:induction false} WitnessScriptFinalized(env: Env, psbt: seq<Spent>, index: nat, script: Item, redeem: Option<Item>, ws: Item)
    requires Signable(env, psbt, index, script, redeem) && psbt[index].inp.witnessScript == Some(ws)
    requires |env.sha256(ws)| == 32 && IsProgram(script, 0, env.sha256(ws))
    ensures Built(env, psbt, index).Ok?
    ensures var f := Built(env, psbt, index).value;
            && (f.Some? <==> CanSpendScript(psbt[index].inp.partialSigs, env.hash160, ws))
            && (f.Some? ==> f.value.items == [] && f.value.redeem == redeem && f.value.stack != [] && f.value.stack[|f.value.stack| - 1] == ws)
  {
    hide ScriptStack, CanSpendScript;
    var inp := psbt[index].inp;
    AsksIsInner(env, inp, psbt[index].spk, script, redeem);
    ProgramIs(script, 0, 20);
    ProgramIs(script, 0, 32);
    NotTwoLengths(script, env.sha256(ws));
    ScriptStackWhenSigned(env, inp, ws);
    assert Built(env, psbt, index) == Ok(Finalized(env, inp, Resolved(redeem, P2wsh(ws))));
  }

  lemma {:induction false} NotTwoLengths(script: Item, program: Item)
    requires |program| == 32 && script[..] == script && |script| == 34
    ensures Program(script, 0, 20) == None && Program(script, 0x51, 20) == None
  {
  }

  /** A taproot output: exactly when there is a signature for its key, or a leaf that can be
      spent; the signature goes first. */
  lemma {:induction false} TaprootFinalized(env: Env, psbt: seq<Spent>, index: nat, key: Item)
    requires index < |psbt| && |key| == 32 && IsProgram(psbt[index].spk, 0x51, key)
    ensures Built(env, psbt, index).Ok?
    ensures var inp, f, out := psbt[index].inp, Built(env, psbt, index).value, TapSatisfy.Output(env.h, env.tweak, key);
            && (f.Some? <==> inp.tapKeySig.Some? || exists leaf, t :: leaf in inp.tapLeaves && CanSpendLeaf(out, inp.tapSigs, leaf, t))
            && (f.Some? ==> f.value.items == [] && f.value.redeem == None)
            && (inp.tapKeySig.Some? ==> f.value.stack == [inp.tapKeySig.value])
  {
    hide BestOf, CanSpendLeaf;
    var inp, spk := psbt[index].inp, psbt[index].spk;
    ProgramIs(spk, 0x51, 32);
    NotOtherPrograms(spk, key);
    BestWhenSigned(TapSatisfy.Output(env.h, env.tweak, key), inp.tapSigs, inp.tapLeaves);
    assert Built(env, psbt, index) == Ok(Finalized(env, inp, Resolved(None, P2tr(key))));
  }

  lemma {:induction false} NotOtherPrograms(spk: Item, key: Item)
    requires |key| == 32 && IsProgram(spk, 0x51, key)
    ensures !IsP2sh(spk) && Program(spk, 0, 20).None? && Program(spk, 0, 32).None?
  {
  }

  /** Any other script: exactly when it is a standard one and has been signed. */
  lemma {:induction false} LegacyFinalized(env: Env, psbt: seq<Spent>, index: nat, script: Item, redeem: Option<Item>)
    requires Signable(env, psbt, index, script, redeem) && !AnyProgram(script) && psbt[index].inp.hasNonWitnessUtxo
    ensures Built(env, psbt, index).Ok?
    ensures var f := Built(env, psbt, index).value;
            && (f.Some? <==> CanSpendScript(psbt[index].inp.partialSigs, env.hash160, script))
            && (f.Some? ==> f.value.redeem == redeem && f.value.stack == [])
  {
    hide ScriptStack, CanSpendScript;
    var inp := psbt[index].inp;
    AsksIsInner(env, inp, psbt[index].spk, script, redeem);
    AnyProgramIs(script);
    NoProgramInside(script);
    ScriptStackWhenSigned(env, inp, script);
    assert Built(env, psbt, index) == Ok(Finalized(env, inp, Resolved(redeem, Legacy(script))));
  }

  lemma {:induction false} NoProgramInside(script: Item)
    requires !IsWitnessProgram(script)
    ensures Program(script, 0, 20).None? && Program(script, 0, 32).None? && Program(script, 0x51, 32).None?
  {
  }

  /** Which inputs are refused: those whose records do not go with their output, and outputs
      of other witness versions. */
  ghost predicate Refused(env: Env, inp: PsbtInput, spk: Item) {
    || (forall script, redeem :: !Asks(env, inp, spk, script, redeem))
    || (exists script, redeem :: Asks(env, inp, spk, script, redeem) && ScriptRefused(env, inp, script, redeem))
  }

  ghost predicate ScriptRefused(env: Env, inp: PsbtInput, script: Item, redeem: Option<Item>) {
    if !AnyProgram(script) then !inp.hasNonWitnessUtxo
    else if exists p :: |p| == 20 && IsProgram(script, 0, p) then false
    else if exists p :: |p| == 32 && IsProgram(script, 0, p) then
      inp.witnessScript.None? || |env.sha256(inp.witnessScript.value)| != 32 || !IsProgram(script, 0, env.sha256(inp.witnessScript.value))
    else !(redeem.None? && exists p :: |p| == 32 && IsProgram(script, 0x51, p))
  }

  lemma {:induction false} ScriptRefusedIs(env: Env, inp: PsbtInput, spk: Item, script: Item, redeem: Option<Item>)
    requires Asks(env, inp, spk, script, redeem)
    ensures Resolve(env, inp, spk).Err? <==> ScriptRefused(env, inp, script, redeem)
  {
    hide IsProgram, Program, IsWitnessProgram, AnyProgram, Asks;
    AsksIsInner(env, inp, spk, script, redeem);
    AnyProgramIs(script);
    ProgramIs(script, 0, 20);
    ProgramIs(script, 0, 32);
    ProgramIs(script, 0x51, 32);
    if !IsWitnessProgram(script) {
      NoProgramInside(script);
    }
  }

  /** The finalizer refuses exactly those. */
  lemma {:induction false} RefusedExactly(env: Env, psbt: seq<Spent>, index: nat)
    ensures Built(env, psbt, index).Err? <==> index >= |psbt| || Refused(env, psbt[index].inp, psbt[index].spk)
  {
    hide Resolve, Finalized, Asks, ScriptRefused, Inner;
    if index < |psbt| {
      var inp, spk := psbt[index].inp, psbt[index].spk;
      forall script, redeem ensures Asks(env, inp, spk, script, redeem) <==> Inner(env, inp, spk) == Ok((script, redeem)) {
        AsksIsInner(env, inp, spk, script, redeem);
      }
      if Inner(env, inp, spk).Ok? {
        var (script, redeem) := Inner(env, inp, spk).value;
        ScriptRefusedIs(env, inp, spk, script, redeem);
      } else {
        ResolveNeedsInner(env, inp, spk);
      }
    }
  }

  lemma {:induction false} ResolveNeedsInner(env: Env, inp: PsbtInput, spk: Item)
    requires Inner(env, inp, spk).Err?
    ensures Resolve(env, inp, spk).Err?
  {
  }
}
