/** The PSBT finalizer, src/psbt/finalize.rs: what it finalizes, it can spend. */
module Finalize {
  import opened Options
  import opened Bytes
  import opened Script
  import opened Templates
  import opened Satisfy
  import opened TapSatisfy
  import T = TapControl
  import Tree = TapTree

  datatype Error =
    | MissingRedeemScript | RedeemScriptMismatch | MissingWitnessScript | WitnessScriptMismatch
    | UnsupportedScript | WitnessUtxoForNonWitness | InputIndex

  datatype Result<+R> = Ok(value: R) | Err(error: Error)

  /** The records of an input map that finalizing it depends on. */
  datatype PsbtInput = PsbtInput(
    partialSigs: seq<PartialSig>, tapLeaves: seq<TapLeafScript>, tapSigs: seq<TapSig>, tapKeySig: Option<Item>,
    redeemScript: Option<Item>, witnessScript: Option<Item>, hasNonWitnessUtxo: bool)

  /** The hashes, the taproot commitments, and what signatures are good for this
      input: all left open. */
  datatype Env = Env(
    ecdsa: (Item, Item) -> bool, keyPath: (Item, Item) -> bool, tapscript: Item -> ((Item, Item) -> bool),
    hash160: Item -> Item, sha256: Item -> Item, h: Tree.Hasher, tweak: T.Tweak)

  // ----- what an output asks for -----

  datatype Kind = Legacy(script: Item) | P2wpkh(hash: Item) | P2wsh(script: Item) | P2tr(key: Item)

  datatype Resolved = Resolved(redeem: Option<Item>, kind: Kind)

  /** `program`: the `n` bytes pushed after a version opcode. */
  function Program(script: Item, version: byte, n: byte): (p: Option<Item>)
    ensures p.Some? ==> |p.value| == n as nat
  {
    if |script| == n as nat + 2 && script[0] == version && script[1] == n then Some(script[2..]) else None
  }

  predicate IsWitnessProgram(script: Item) {
    4 <= |script| <= 42 && (script[0] == 0 || 0x51 <= script[0] <= 0x60) && script[1] as nat == |script| - 2
  }

  predicate IsP2sh(script: Item) {
    |script| == 23 && script[0] == 0xa9 && script[1] == 0x14 && script[22] == 0x87
  }

  /** The script that decides, and the redeem script if the output is P2SH. */
  function Inner(env: Env, inp: PsbtInput, spk: Item): Result<(Item, Option<Item>)> {
    if !IsP2sh(spk) then Ok((spk, None))
    else if inp.redeemScript.None? then Err(MissingRedeemScript)
    else if env.hash160(inp.redeemScript.value) != spk[2..22] then Err(RedeemScriptMismatch)
    else Ok((inp.redeemScript.value, inp.redeemScript))
  }

  /** `resolve`, given the script of the output spent. */
  function Resolve(env: Env, inp: PsbtInput, spk: Item): Result<Resolved> {
    var inner := Inner(env, inp, spk);
    if inner.Err? then Err(inner.error)
    else
      var (script, redeem) := inner.value;
      if Program(script, 0, 20).Some? then Ok(Resolved(redeem, P2wpkh(Program(script, 0, 20).value)))
      else if Program(script, 0, 32).Some? then
        if inp.witnessScript.None? then Err(MissingWitnessScript)
        else if env.sha256(inp.witnessScript.value) != Program(script, 0, 32).value then Err(WitnessScriptMismatch)
        else Ok(Resolved(redeem, P2wsh(inp.witnessScript.value)))
      else if Program(script, 0x51, 32).Some? && redeem.None? then Ok(Resolved(None, P2tr(Program(script, 0x51, 32).value)))
      else if IsWitnessProgram(script) then Err(UnsupportedScript)
      else if !inp.hasNonWitnessUtxo then Err(WitnessUtxoForNonWitness)
      else Ok(Resolved(redeem, Legacy(script)))
  }

  // ----- finalizing an input -----

  datatype Final = Final(items: seq<Item>, redeem: Option<Item>, stack: seq<Item>)

  /** The stack for a script, if it has a template with enough signatures. */
  function ScriptStack(env: Env, inp: PsbtInput, script: Item): Option<seq<Item>> {
    var t := TemplateOf(script);
    if t.None? then None else Satisfied(inp.partialSigs, env.hash160, t.value)
  }

  function TaprootStack(env: Env, inp: PsbtInput, key: Item): Option<seq<Item>> {
    if inp.tapKeySig.Some? then Some([inp.tapKeySig.value])
    else
      var best := BestOf(Output(env.h, env.tweak, key), inp.tapSigs, inp.tapLeaves);
      if best.None? then None else Some(best.value.stack)
  }

  function Finalized(env: Env, inp: PsbtInput, r: Resolved): Option<Final> {
    match r.kind
    case Legacy(script) =>
      var st := ScriptStack(env, inp, script);
      if st.None? then None else Some(Final(st.value, r.redeem, []))
    case P2wpkh(hash) =>
      var st := Satisfied(inp.partialSigs, env.hash160, Pkh(hash));
      if st.None? then None else Some(Final([], r.redeem, st.value))
    case P2wsh(script) =>
      var st := ScriptStack(env, inp, script);
      if st.None? then None else Some(Final([], r.redeem, st.value + [script]))
    case P2tr(key) =>
      var st := TaprootStack(env, inp, key);
      if st.None? then None else Some(Final([], r.redeem, st.value))
  }

  /** An input, and the script of the output it spends. */
  datatype Spent = Spent(inp: PsbtInput, spk: Item)

  /** What the finalizer makes of an input: nothing yet, if signatures are missing. */
  function Built(env: Env, psbt: seq<Spent>, index: nat): Result<Option<Final>> {
    if index >= |psbt| then Err(InputIndex)
    else
      var Spent(inp, spk) := psbt[index];
      var resolved := Resolve(env, inp, spk);
      if resolved.Err? then Err(resolved.error) else Ok(Finalized(env, inp, resolved.value))
  }

  method BuildScriptStack(env: Env, inp: PsbtInput, script: Item) returns (st: Option<seq<Item>>)
    ensures st == ScriptStack(env, inp, script)
    ensures st.Some? ==> |st.value| <= 17
  {
    hide TemplateOf, Satisfied, ScriptOf;
    var t := ReadTemplate(script);
    if t.None? {
      return None;
    }
    TemplateInvertsScript(script, t.value);
    st := SatisfyTemplate(inp.partialSigs, env.hash160, t.value);
  }

  /** `build_final`: no stack has more than 20 items. */
  method BuildFinal(env: Env, psbt: seq<Spent>, index: nat) returns (r: Result<Option<Final>>)
    ensures r == Built(env, psbt, index)
    ensures r.Ok? && r.value.Some? ==> |r.value.value.items| <= 20 && |r.value.value.stack| <= 20
  {
    hide ScriptStack, Satisfied, BestOf;
    if index >= |psbt| {
      return Err(InputIndex);
    }
    var Spent(inp, spk) := psbt[index];
    var resolved := Resolve(env, inp, spk);
    if resolved.Err? {
      return Err(resolved.error);
    }
    var redeem := resolved.value.redeem;
    match resolved.value.kind
    case Legacy(script) =>
      var st := BuildScriptStack(env, inp, script);
      return Ok(if st.None? then None else Some(Final(st.value, redeem, [])));
    case P2wpkh(hash) =>
      var st := SatisfyTemplate(inp.partialSigs, env.hash160, Pkh(hash));
      return Ok(if st.None? then None else Some(Final([], redeem, st.value)));
    case P2wsh(script) =>
      var st := BuildScriptStack(env, inp, script);
      return Ok(if st.None? then None else Some(Final([], redeem, st.value + [script])));
    case P2tr(key) =>
      if inp.tapKeySig.Some? {
        return Ok(Some(Final([], redeem, [inp.tapKeySig.value])));
      }
      var best := TapScriptWitness(Output(env.h, env.tweak, key), inp.tapSigs, inp.tapLeaves);
      if best.None? {
        return Ok(None);
      }
      BestFits(Output(env.h, env.tweak, key), inp.tapSigs, inp.tapLeaves);
      return Ok(Some(Final([], redeem, best.value.stack)));
  }

  lemma {:induction false} BestFits(out: Output, sigs: seq<TapSig>, leaves: seq<TapLeafScript>)
    requires BestOf(out, sigs, leaves).Some?
    ensures |BestOf(out, sigs, leaves).value.stack| <= 20
  {
    hide LeafWitness;
    BestIsShortest(out, sigs, leaves);
    var best := BestOf(out, sigs, leaves);
    var leaf :| leaf in leaves && LeafWitness(out, sigs, leaf) == Some(best.value.stack);
    WitnessFits(out, sigs, leaf);
  }

  lemma {:induction false} WitnessFits(out: Output, sigs: seq<TapSig>, leaf: TapLeafScript)
    requires LeafWitness(out, sigs, leaf).Some?
    ensures |LeafWitness(out, sigs, leaf).value| <= 20
  {
    hide TapFrom, TapSigned, Chosen, T.Parse, T.Verify;
    TapTemplateInvertsScript(leaf.script, Usable(out, leaf).value);
  }

  // ----- spending -----

  function ScriptContext(env: Env): Context {
    Context(false, env.ecdsa, env.hash160)
  }

  function TapContext(env: Env, leafHash: Item): Context {
    Context(true, env.tapscript(leafHash), env.hash160)
  }

  /** BIP-341: by the key, or by a tapscript the output commits to. */
  predicate SpendsTaproot(env: Env, key: Item, stack: seq<Item>) {
    var n := |stack|;
    if n == 1 then env.keyPath(stack[0], key)
    else
      && n >= 2 && stack[n - 1] != [] && stack[n - 1][0] != 0x50
      && var block, script := T.Parse(stack[n - 1]), stack[n - 2];
         && block.Ok? && block.value.leafVersion == TAPSCRIPT_LEAF_VERSION
         && T.Verify(env.h, env.tweak, block.value, script, key)
         && Exec(TapContext(env, env.h.leaf(TAPSCRIPT_LEAF_VERSION, script)), script, stack[..n - 2]) == Some([YES])
  }

  /** Witness programs of version 0, and version 1 outside P2SH. */
  predicate SpendsProgram(env: Env, program: Item, stack: seq<Item>, nested: bool) {
    if Program(program, 0, 20).Some? then
      |stack| == 2 && Exec(ScriptContext(env), ScriptOf(Pkh(Program(program, 0, 20).value)), stack) == Some([YES])
    else if Program(program, 0, 32).Some? then
      && stack != [] && env.sha256(stack[|stack| - 1]) == Program(program, 0, 32).value
      && Exec(ScriptContext(env), stack[|stack| - 1], stack[..|stack| - 1]) == Some([YES])
    else if Program(program, 0x51, 32).Some? && !nested then SpendsTaproot(env, Program(program, 0x51, 32).value, stack)
    else false
  }

  /** Whether a scriptSig and a witness stack spend an output, leaving nothing over. */
  predicate Spends(env: Env, spk: Item, scriptSig: seq<byte>, stack: seq<Item>) {
    var pushed := Exec(ScriptContext(env), scriptSig, []);
    if pushed.None? then false
    else if IsP2sh(spk) then
      && pushed.value != []
      && var n := |pushed.value| - 1;
         var redeem := pushed.value[n];
         && env.hash160(redeem) == spk[2..22] && |redeem| < U32
         && if IsWitnessProgram(redeem) then scriptSig == PushBytes(redeem) && SpendsProgram(env, redeem, stack, true)
            else stack == [] && Exec(ScriptContext(env), redeem, pushed.value[..n]) == Some([YES])
    else if IsWitnessProgram(spk) then scriptSig == [] && SpendsProgram(env, spk, stack, false)
    else stack == [] && Exec(ScriptContext(env), spk, pushed.value) == Some([YES])
  }

  /** The signatures stored with an input are good for what they are stored for, and
      those for tapscripts are not empty. */
  ghost predicate StoredSigsGood(env: Env, inp: PsbtInput, spk: Item) {
    && AllGood(ScriptContext(env), inp.partialSigs)
    && (inp.tapKeySig.Some? && Program(spk, 0x51, 32).Some? ==>
          env.keyPath(inp.tapKeySig.value, Program(spk, 0x51, 32).value))
    && forall leafHash :: TapGood(TapContext(env, leafHash), inp.tapSigs, leafHash)
  }

  /** The items a scriptSig pushes: the stack, then the redeem script. */
  function SigItems(f: Final): seq<Item> {
    f.items + if f.redeem.Some? then [f.redeem.value] else []
  }

  /** Pushes have lengths of 32 bits. */
  ghost predicate Pushable(f: Final) {
    forall i :: 0 <= i < |SigItems(f)| ==> |SigItems(f)[i]| < U32
  }

  lemma {:induction false} ScriptStackAccepts(env: Env, inp: PsbtInput, script: Item)
    requires AllGood(ScriptContext(env), inp.partialSigs) && ScriptStack(env, inp, script).Some?
    ensures Exec(ScriptContext(env), script, ScriptStack(env, inp, script).value) == Some([YES])
  {
    hide Exec, TemplateOf, ScriptOf, Satisfied, AllGood;
    var t := TemplateOf(script).value;
    TemplateInvertsScript(script, t);
    SatisfiedAccepts(ScriptContext(env), inp.partialSigs, t);
  }

  lemma {:induction false} TaprootStackSpends(env: Env, inp: PsbtInput, spk: Item, key: Item)
    requires StoredSigsGood(env, inp, spk) && Program(spk, 0x51, 32) == Some(key) && TaprootStack(env, inp, key).Some?
    ensures SpendsTaproot(env, key, TaprootStack(env, inp, key).value)
  {
    hide Exec, BestOf, LeafWitness, T.Parse, T.Verify;
    var out, st := Output(env.h, env.tweak, key), TaprootStack(env, inp, key).value;
    if inp.tapKeySig.None? {
      BestIsShortest(out, inp.tapSigs, inp.tapLeaves);
      var leaf :| leaf in inp.tapLeaves && LeafWitness(out, inp.tapSigs, leaf) == Some(st);
      LeafSpends(env, inp, out, leaf);
    }
  }

  lemma {:induction false} LeafSpends(env: Env, inp: PsbtInput, out: Output, leaf: TapLeafScript)
    requires out.h == env.h && out.tweak == env.tweak && LeafWitness(out, inp.tapSigs, leaf).Some?
    requires forall leafHash :: TapGood(TapContext(env, leafHash), inp.tapSigs, leafHash)
    ensures SpendsTaproot(env, out.key, LeafWitness(out, inp.tapSigs, leaf).value)
  {
    hide Exec, LeafWitness, T.Verify, TapFrom, TapGood;
    var leafHash := env.h.leaf(leaf.leafVersion, leaf.script);
    LeafAccepts(TapContext(env, leafHash), out, inp.tapSigs, leaf);
    LeafIsCommitted(out, inp.tapSigs, leaf);
    ControlByte(leaf.controlBlock);
  }

  lemma {:induction false} LeafIsCommitted(out: Output, sigs: seq<TapSig>, leaf: TapLeafScript)
    requires LeafWitness(out, sigs, leaf).Some?
    ensures leaf.leafVersion == TAPSCRIPT_LEAF_VERSION
    ensures var block := T.Parse(leaf.controlBlock);
            block.Ok? && block.value.leafVersion == TAPSCRIPT_LEAF_VERSION
            && T.Verify(out.h, out.tweak, block.value, leaf.script, out.key)
  {
    hide T.Parse, T.Verify, TapFrom, Chosen, TapSigned;
  }

  lemma {:induction false} ControlByte(data: Item)
    requires T.Parse(data).Ok? && T.Parse(data).value.leafVersion == TAPSCRIPT_LEAF_VERSION
    ensures data != [] && data[0] != 0x50
  {
    hide T.PathNodes;
  }

  lemma {:induction false} ExecAllPushes(cx: Context, items: seq<Item>)
    requires forall i :: 0 <= i < |items| ==> |items[i]| < U32
    ensures Exec(cx, Pushes(items), []) == Some(items)
  {
    hide Exec, Pushes;
    var empty: seq<byte> := [];
    ExecPushes(cx, items, empty, []);
    assert Pushes(items) + empty == Pushes(items);
    var nothing: seq<Item> := [];
    assert nothing + items == items;
    ExecNothing(cx, items);
  }

  lemma {:induction false} OnePush(item: Item)
    requires |item| < U32
    ensures Pushes([item]) == PushBytes(item)
  {
    hide PushBytes;
    assert [item][1..] == [];
    assert PushBytes(item) + [] == PushBytes(item);
  }

  /** Whatever program the finalizer builds a witness for, the witness spends it. */
  lemma {:induction false} WitnessSpends(env: Env, inp: PsbtInput, spk: Item, script: Item, redeem: Option<Item>)
    requires StoredSigsGood(env, inp, spk) && Inner(env, inp, spk) == Ok((script, redeem))
    requires Resolve(env, inp, spk).Ok? && !Resolve(env, inp, spk).value.kind.Legacy?
    requires Finalized(env, inp, Resolve(env, inp, spk).value).Some?
    ensures IsWitnessProgram(script)
    ensures SpendsProgram(env, script, Finalized(env, inp, Resolve(env, inp, spk).value).value.stack, redeem.Some?)
  {
    hide Exec, ScriptStack, Satisfied, TaprootStack, SpendsTaproot, ScriptOf, AllGood;
    var r := Resolve(env, inp, spk).value;
    match r.kind
    case P2wpkh(hash) =>
      SatisfiedAccepts(ScriptContext(env), inp.partialSigs, Pkh(hash));
      TwoItems(env, inp, hash);
    case P2wsh(ws) =>
      ScriptStackAccepts(env, inp, ws);
      var st := ScriptStack(env, inp, ws).value;
      assert (st + [ws])[..|st|] == st;
    case P2tr(key) =>
      TaprootStackSpends(env, inp, spk, key);
  }

  lemma {:induction false} TwoItems(env: Env, inp: PsbtInput, hash: Item)
    requires Satisfied(inp.partialSigs, env.hash160, Pkh(hash)).Some?
    ensures |Satisfied(inp.partialSigs, env.hash160, Pkh(hash)).value| == 2
  {
  }

  /** An input that is finalized spends its output, whatever the kind: P2PKH, P2PK and
      multisig, bare and in P2SH, P2WSH or both; P2WPKH, bare and in P2SH; taproot by
      key and by script. */
  lemma {:induction false} FinalizedSpends(env: Env, psbt: seq<Spent>, index: nat, f: Final)
    requires Built(env, psbt, index) == Ok(Some(f)) && Pushable(f)
    requires StoredSigsGood(env, psbt[index].inp, psbt[index].spk)
    ensures Spends(env, psbt[index].spk, Pushes(SigItems(f)), f.stack)
  {
    hide Resolve, Finalized, Pushes, SigItems, Spends, StoredSigsGood, Pushable;
    InputSpends(env, psbt[index].inp, psbt[index].spk);
  }

  lemma {:induction false} InputSpends(env: Env, inp: PsbtInput, spk: Item)
    requires Resolve(env, inp, spk).Ok? && StoredSigsGood(env, inp, spk)
    requires var f := Finalized(env, inp, Resolve(env, inp, spk).value); f.Some? && Pushable(f.value)
    ensures var f := Finalized(env, inp, Resolve(env, inp, spk).value).value;
            Spends(env, spk, Pushes(SigItems(f)), f.stack)
  {
    hide Exec, ScriptStack, Satisfied, TaprootStack, SpendsProgram, PushBytes, Pushes, StoredSigsGood, IsWitnessProgram;
    var r := Resolve(env, inp, spk).value;
    var f := Finalized(env, inp, r).value;
    var (script, redeem) := Inner(env, inp, spk).value;
    ExecAllPushes(ScriptContext(env), SigItems(f));
    if r.kind.Legacy? {
      GoodPartialSigs(env, inp, spk);
      ScriptStackAccepts(env, inp, script);
      assert redeem.Some? ==> SigItems(f)[..|f.items|] == f.items && SigItems(f)[|f.items|] == redeem.value;
      assert redeem.None? ==> SigItems(f) == f.items;
    } else {
      WitnessSpends(env, inp, spk, script, redeem);
      if redeem.Some? {
        assert SigItems(f) == [redeem.value];
        OnePush(redeem.value);
      } else {
        assert SigItems(f) == [];
        NoPushes();
      }
    }
  }

  lemma {:induction false} GoodPartialSigs(env: Env, inp: PsbtInput, spk: Item)
    requires StoredSigsGood(env, inp, spk)
    ensures AllGood(ScriptContext(env), inp.partialSigs)
  {
  }

  lemma {:induction false} NoPushes()
    ensures Pushes([]) == []
  {
  }
}
