/** Which transactions src/cardanotx.rs writes and which bytes it reads, without the functions
    that write and read them. */
module CardanoForms {
  import opened Options
  import opened Bytes
  import opened Multiasset
  import opened Flatten
  import opened CardanoTx
  import C = Cbor
  import S = CborSplit

  // ----- what is written -----

  ghost predicate IdsOk(inputs: seq<Input>) {
    forall i :: 0 <= i < |inputs| ==> |inputs[i].txid| == 32
  }

  ghost predicate OutputOk(out: Output) {
    out.address != [] && !Outgrown(out.assets)
  }

  lemma {:induction false} InputsWritten(inputs: seq<Input>)
    ensures if IdsOk(inputs) then InputsCbor(inputs).Ok? else InputsCbor(inputs) == Err(InvalidLength)
  {
    if inputs != [] {
      InputsWritten(inputs[1..]);
      assert inputs == [inputs[0]] + inputs[1..];
    }
  }

  lemma {:induction false} OutputWritten(out: Output)
    requires AmountsFit(out.assets)
    ensures OutputCbor(out).Ok? <==> OutputOk(out)
    ensures OutputCbor(out).Err? ==> OutputCbor(out).error == if out.address == [] then EmptyAddress else Overflow
  {
    hide Grouped, Outgrown;
    GroupedConserves(out.assets);
    NoneGrouped();
  }

  lemma {:induction false} NoneGrouped()
    ensures Grouped([]).Some?
  {
  }

  /** The first output that cannot be written decides. */
  lemma {:induction false} OutputsWritten(outs: seq<Output>)
    requires forall k :: 0 <= k < |outs| ==> AmountsFit(outs[k].assets)
    ensures OutputsCbor(outs).Ok? <==> forall k :: 0 <= k < |outs| ==> OutputOk(outs[k])
    ensures forall k :: 0 <= k < |outs| && !OutputOk(outs[k]) && (forall j :: 0 <= j < k ==> OutputOk(outs[j])) ==>
              OutputsCbor(outs) == Err(if outs[k].address == [] then EmptyAddress else Overflow)
  {
    hide OutputOk, OutputCbor, AmountsFit;
    if outs != [] {
      OutputWritten(outs[0]);
      OutputsWritten(outs[1..]);
      assert outs == [outs[0]] + outs[1..];
      forall k | 0 <= k < |outs| && !OutputOk(outs[k]) && (forall j :: 0 <= j < k ==> OutputOk(outs[j]))
        ensures OutputsCbor(outs) == Err(if outs[k].address == [] then EmptyAddress else Overflow)
      {
        if k == 0 {
          OutputError(outs[0]);
        } else {
          assert outs[1..][k - 1] == outs[k];
          assert forall j :: 0 <= j < k - 1 ==> outs[1..][j] == outs[j + 1];
        }
      }
    }
  }

  lemma {:induction false} OutputError(out: Output)
    requires AmountsFit(out.assets) && !OutputOk(out)
    ensures OutputCbor(out) == Err(if out.address == [] then EmptyAddress else Overflow)
  {
    hide OutputOk;
    OutputWritten(out);
  }

  /** Which transactions are written: those with inputs, of 32 bytes each, and outputs, each with an
      address and no token above 64 bits; and otherwise which error comes first. */
  lemma {:induction false} WrittenExactly(tx: Tx)
    requires Typed(tx) && Encodable(tx)
    ensures ToBytes(tx).Ok? <==>
              tx.inputs != [] && tx.outputs != [] && IdsOk(tx.inputs) && forall k :: 0 <= k < |tx.outputs| ==> OutputOk(tx.outputs[k])
    ensures tx.inputs == [] ==> ToBytes(tx) == Err(NoInputs)
    ensures tx.inputs != [] && tx.outputs == [] ==> ToBytes(tx) == Err(NoOutputs)
    ensures tx.inputs != [] && tx.outputs != [] && !IdsOk(tx.inputs) ==> ToBytes(tx) == Err(InvalidLength)
    ensures tx.inputs != [] && IdsOk(tx.inputs) ==>
              forall k :: 0 <= k < |tx.outputs| && !OutputOk(tx.outputs[k]) && (forall j :: 0 <= j < k ==> OutputOk(tx.outputs[j])) ==>
                ToBytes(tx) == Err(if tx.outputs[k].address == [] then EmptyAddress else Overflow)
  {
    hide OutputOk, IdsOk, AmountsFit, InputsCbor, OutputsCbor, C.Encode, C.Fits, WitnessSet, Parts;
    InputsWritten(tx.inputs);
    OutputsWritten(tx.outputs);
  }

  // ----- what is read -----

  ghost predicate Missing(es: seq<C.Entry>, key: nat) {
    forall i :: 0 <= i < |es| ==> es[i].key != C.Uint(key)
  }

  /** The first entry under a key. */
  ghost predicate First(es: seq<C.Entry>, key: nat, v: C.Cbor) {
    exists i :: 0 <= i < |es| && es[i] == C.Entry(C.Uint(key), v) && Missing(es[..i], key)
  }

  lemma {:induction false} GetIsFirst(es: seq<C.Entry>, key: nat)
    ensures Get(es, key).None? <==> Missing(es, key)
    ensures forall v :: First(es, key, v) <==> Get(es, key) == Some(v)
  {
    if es != [] {
      var rest := es[1..];
      GetIsFirst(rest, key);
      assert es == [es[0]] + rest;
      forall v ensures First(es, key, v) <==> Get(es, key) == Some(v) {
        if es[0].key == C.Uint(key) {
          if v == es[0].value {
            assert es[0] == C.Entry(C.Uint(key), v) && Missing(es[..0], key);
          }
          if i :| 0 <= i < |es| && es[i] == C.Entry(C.Uint(key), v) && Missing(es[..i], key) {
            assert i > 0 ==> es[..i][0] == es[0];
          }
        } else {
          FirstOfRest(es, key, v);
        }
      }
    }
  }

  lemma {:induction false} FirstOfRest(es: seq<C.Entry>, key: nat, v: C.Cbor)
    requires es != [] && es[0].key != C.Uint(key)
    ensures First(es, key, v) <==> First(es[1..], key, v)
  {
    if i :| 0 <= i < |es| && es[i] == C.Entry(C.Uint(key), v) && Missing(es[..i], key) {
      assert es[1..][i - 1] == es[i];
      assert es[1..][..i - 1] == es[..i][1..];
      assert Missing(es[1..][..i - 1], key);
    }
    if i :| 0 <= i < |es[1..]| && es[1..][i] == C.Entry(C.Uint(key), v) && Missing(es[1..][..i], key) {
      assert es[i + 1] == es[1..][i];
      assert es[..i + 1] == [es[0]] + es[1..][..i];
      assert Missing(es[..i + 1], key);
    }
  }

  /** Values and what they stand for, one by one. */
  ghost predicate Each<T(!new)>(stands: (C.Cbor, T) -> bool, vs: seq<C.Cbor>, ts: seq<T>) {
    |vs| == |ts| && forall i :: 0 <= i < |vs| ==> stands(vs[i], ts[i])
  }

  /** What a value is read as: what it stands for. */
  ghost predicate Reads<T(!new)>(parse: C.Cbor -> Option<T>, stands: (C.Cbor, T) -> bool) {
    forall v, t :: parse(v) == Some(t) <==> stands(v, t)
  }

  lemma {:induction false} AllAreEach<T(!new)>(parse: C.Cbor -> Option<T>, stands: (C.Cbor, T) -> bool, vs: seq<C.Cbor>, ts: seq<T>)
    requires Reads(parse, stands)
    ensures ParseAll(parse, vs) == Some(ts) <==> Each(stands, vs, ts)
  {
    if vs != [] {
      if ts != [] {
        AllAreEach(parse, stands, vs[1..], ts[1..]);
        assert vs == [vs[0]] + vs[1..] && ts == [ts[0]] + ts[1..];
      }
      if ParseAll(parse, vs) == Some(ts) {
        assert ts[1..] == ParseAll(parse, vs[1..]).value;
      }
    }
  }

  /** The list under a key, the first time the key is there: without the key, nothing. */
  ghost predicate ListAt<T(!new)>(stands: (C.Cbor, T) -> bool, es: seq<C.Entry>, key: nat, ts: seq<T>) {
    && (Missing(es, key) ==> ts == [])
    && forall v :: First(es, key, v) ==> v.Array? && Each(stands, v.items, ts)
  }

  lemma {:induction false} ListExactly<T(!new)>(
      parse: C.Cbor -> Option<T>, stands: (C.Cbor, T) -> bool, es: seq<C.Entry>, key: nat, ts: seq<T>)
    requires Reads(parse, stands)
    ensures ParseUnder(parse, es, key) == Some(ts) <==> ListAt(stands, es, key, ts)
  {
    hide Get, Missing, First, ParseAll, Each, Reads;
    GetIsFirst(es, key);
    match Get(es, key)
    case None =>
    case Some(v) =>
      if v.Array? {
        AllAreEach(parse, stands, v.items, ts);
      }
      assert First(es, key, v);
  }

  /** The number under a key, the first time the key is there: without the key, zero. */
  ghost predicate NumberAt(es: seq<C.Entry>, key: nat, n: nat) {
    (Missing(es, key) ==> n == 0) && forall v :: First(es, key, v) ==> v == C.Uint(n)
  }

  lemma {:induction false} NumberExactly(es: seq<C.Entry>, key: nat, n: nat)
    ensures NumberUnder(es, key) == Some(n) <==> NumberAt(es, key, n)
  {
    hide Get, Missing, First;
    GetIsFirst(es, key);
    if Get(es, key).Some? {
      assert First(es, key, Get(es, key).value);
    }
  }

  // ----- tokens -----

  /** Numbers under names. */
  ghost predicate AreTokens(es: seq<C.Entry>) {
    forall j :: 0 <= j < |es| ==> es[j].key.Bytes? && es[j].value.Uint?
  }

  /** Maps of numbers under names, under policies. */
  ghost predicate ArePolicies(es: seq<C.Entry>) {
    forall i :: 0 <= i < |es| ==> es[i].key.Bytes? && es[i].value.Map? && AreTokens(es[i].value.entries)
  }

  /** How many tokens there are under the policies before. */
  ghost function Before(es: seq<C.Entry>, i: nat): nat
    requires i <= |es| && ArePolicies(es)
  {
    if i == 0 then 0 else |es[0].value.entries| + Before(es[1..], i - 1)
  }

  /** Token j of policy i, in its place. */
  ghost predicate TokenAt(es: seq<C.Entry>, assets: seq<Asset>, i: nat, j: nat)
    requires ArePolicies(es) && i < |es| && j < |es[i].value.entries|
  {
    && Before(es, i) + j < |assets|
    && assets[Before(es, i) + j] == Asset(es[i].key.b, es[i].value.entries[j].key.b, es[i].value.entries[j].value.v)
  }

  /** The tokens of such a map, in its order. */
  ghost predicate TokensOf(es: seq<C.Entry>, assets: seq<Asset>) {
    && ArePolicies(es) && |assets| == Before(es, |es|)
    && forall i, j :: 0 <= i < |es| && 0 <= j < |es[i].value.entries| ==> TokenAt(es, assets, i, j)
  }

  lemma {:induction false} NamesFlatten(policy: seq<byte>, es: seq<C.Entry>)
    ensures FlattenTokens(policy, es).Some? <==> AreTokens(es)
    ensures AreTokens(es) ==>
              && |FlattenTokens(policy, es).value| == |es|
              && forall j :: 0 <= j < |es| ==> FlattenTokens(policy, es).value[j] == Asset(policy, es[j].key.b, es[j].value.v)
  {
    if es != [] {
      NamesFlatten(policy, es[1..]);
      assert es == [es[0]] + es[1..];
    }
  }

  lemma {:induction false} PoliciesFlatten(es: seq<C.Entry>)
    ensures Flattened(es).Some? <==> ArePolicies(es)
    ensures Flattened(es).Some? ==> TokensOf(es, Flattened(es).value)
  {
    hide AreTokens, FlattenTokens;
    if es != [] {
      var rest := es[1..];
      PoliciesFlatten(rest);
      assert es == [es[0]] + rest;
      if es[0].key.Bytes? && es[0].value.Map? {
        NamesFlatten(es[0].key.b, es[0].value.entries);
      }
      if Flattened(es).Some? {
        FlattenedMore(es);
      }
    }
  }

  lemma {:induction false} FlattenedMore(es: seq<C.Entry>)
    requires es != [] && Flattened(es).Some? && ArePolicies(es) && TokensOf(es[1..], Flattened(es[1..]).value)
    ensures TokensOf(es, Flattened(es).value)
  {
    hide FlattenTokens;
    var rest, assets := es[1..], Flattened(es).value;
    var first := es[0].value.entries;
    NamesFlatten(es[0].key.b, first);
    assert |assets| == Before(es, |es|);
    forall i, j | 0 <= i < |es| && 0 <= j < |es[i].value.entries| ensures TokenAt(es, assets, i, j) {
      if i > 0 {
        assert rest[i - 1] == es[i];
        assert TokenAt(rest, Flattened(rest).value, i - 1, j);
        assert assets[|first| + (Before(rest, i - 1) + j)] == Flattened(rest).value[Before(rest, i - 1) + j];
      }
    }
  }

  /** The tokens of one policy and name, in order. */
  ghost function Of(assets: seq<Asset>, policy: seq<byte>, name: seq<byte>): seq<Asset> {
    if assets == [] then []
    else (if assets[0].policy == policy && assets[0].name == name then [assets[0]] else []) + Of(assets[1..], policy, name)
  }

  lemma {:induction false} InsertKeepsTurn(x: Asset, s: seq<Asset>, policy: seq<byte>, name: seq<byte>)
    ensures Of(InsertAsset(x, s), policy, name) == Of([x] + s, policy, name)
  {
    hide AssetLeq;
    assert ([x] + s)[1..] == s;
    if s != [] && !AssetLeq(x, s[0]) {
      var rest := s[1..];
      InsertKeepsTurn(x, rest, policy, name);
      assert ([x] + rest)[1..] == rest && ([s[0]] + InsertAsset(x, rest))[1..] == InsertAsset(x, rest);
      assert !(x.policy == s[0].policy && x.name == s[0].name) by {
        SameIsLeq(x, s[0]);
      }
    }
  }

  lemma {:induction false} SameIsLeq(x: Asset, y: Asset)
    ensures x.policy == y.policy && x.name == y.name ==> AssetLeq(x, y)
  {
    AssetOrder(x, x, x);
  }

  /** Sorting leaves entries for the same token as they were, one after the other. */
  lemma {:induction false} SortIsStable(s: seq<Asset>, policy: seq<byte>, name: seq<byte>)
    ensures Of(SortAssets(s), policy, name) == Of(s, policy, name)
  {
    if s != [] {
      SortIsStable(s[1..], policy, name);
      InsertKeepsTurn(s[0], SortAssets(s[1..]), policy, name);
      assert ([s[0]] + SortAssets(s[1..]))[1..] == SortAssets(s[1..]);
    }
  }

  // ----- transactions -----

  ghost predicate IsInput(v: C.Cbor, i: Input) {
    v == C.Array([C.Bytes(i.txid), C.Uint(i.index)])
  }

  ghost predicate IsWitness(v: C.Cbor, w: Witness) {
    v == C.Array([C.Bytes(w.vkey), C.Bytes(w.signature)])
  }

  /** The tokens of a map, ordered by policy and name, and entries for the same token as they
      stand in the map. */
  ghost predicate OrderedTokens(es: seq<C.Entry>, assets: seq<Asset>) {
    && Ordered(assets)
    && exists flat :: TokensOf(es, flat) && forall policy, name :: Of(assets, policy, name) == Of(flat, policy, name)
  }

  /** Address and value, and anything after them: the value is the amount, or the amount and the
      tokens. */
  ghost predicate IsOutput(v: C.Cbor, out: Output) {
    && v.Array? && |v.items| >= 2 && v.items[0] == C.Bytes(out.address)
    && (|| (v.items[1] == C.Uint(out.amount) && out.assets == [])
        || (&& v.items[1].Array? && |v.items[1].items| == 2 && v.items[1].items[0] == C.Uint(out.amount)
            && v.items[1].items[1].Map? && OrderedTokens(v.items[1].items[1].entries, out.assets)))
  }

  // ----- one list of tokens for each map -----

  lemma {:induction false} WhereIn(es: seq<C.Entry>, p: nat) returns (i: nat, j: nat)
    requires ArePolicies(es) && p < Before(es, |es|)
    ensures i < |es| && j < |es[i].value.entries| && p == Before(es, i) + j
  {
    assert es != [];
    if p < |es[0].value.entries| {
      i, j := 0, p;
    } else {
      i, j := WhereIn(es[1..], p - |es[0].value.entries|);
      i := i + 1;
    }
  }

  lemma {:induction false} OneFlat(es: seq<C.Entry>, a: seq<Asset>, b: seq<Asset>)
    requires TokensOf(es, a) && TokensOf(es, b)
    ensures a == b
  {
    hide ArePolicies, Before;
    forall p | 0 <= p < |a| ensures a[p] == b[p] {
      var i, j := WhereIn(es, p);
      assert TokenAt(es, a, i, j) && TokenAt(es, b, i, j);
    }
  }

  lemma {:induction false} OfIsIn(s: seq<Asset>, policy: seq<byte>, name: seq<byte>)
    ensures Of(s, policy, name) != [] ==> exists i :: 0 <= i < |s| && s[i].policy == policy && s[i].name == name
  {
    if s != [] && !(s[0].policy == policy && s[0].name == name) {
      OfIsIn(s[1..], policy, name);
      if i :| 0 <= i < |s[1..]| && s[1..][i].policy == policy && s[1..][i].name == name {
        assert s[i + 1] == s[1..][i];
      }
    }
  }

  /** The first of one list comes first in the other. */
  lemma {:induction false} FirstIsLeq(a: seq<Asset>, b: seq<Asset>)
    requires a != [] && Ordered(b) && Of(b, a[0].policy, a[0].name) == Of(a, a[0].policy, a[0].name)
    ensures b != [] && AssetLeq(b[0], Asset(a[0].policy, a[0].name, 0))
  {
    hide LexLeq;
    OfIsIn(b, a[0].policy, a[0].name);
    var i :| 0 <= i < |b| && b[i].policy == a[0].policy && b[i].name == a[0].name;
    SameIsLeq(b[0], b[0]);
    assert AssetLeq(b[0], b[i]);
  }

  lemma {:induction false} OneOrder(a: seq<Asset>, b: seq<Asset>)
    requires Ordered(a) && Ordered(b) && forall policy, name :: Of(a, policy, name) == Of(b, policy, name)
    ensures a == b
  {
    hide AssetLeq, Of;
    if a != [] {
      FirstIsLeq(a, b);
      FirstIsLeq(b, a);
      SameToken(a[0], b[0]);
      var policy, name := a[0].policy, a[0].name;
      OfFirst(a, policy, name);
      OfFirst(b, policy, name);
      assert Of(a, policy, name) == Of(b, policy, name);
      forall p, n ensures Of(a[1..], p, n) == Of(b[1..], p, n) {
        OfFirst(a, p, n);
        OfFirst(b, p, n);
        assert Of(a, p, n) == Of(b, p, n);
      }
      OneOrder(a[1..], b[1..]);
      assert a == [a[0]] + a[1..] && b == [b[0]] + b[1..];
    } else if b != [] {
      FirstIsLeq(b, a);
    }
  }

  lemma {:induction false} OfFirst(s: seq<Asset>, policy: seq<byte>, name: seq<byte>)
    requires s != []
    ensures if s[0].policy == policy && s[0].name == name then
              Of(s, policy, name) != [] && Of(s, policy, name)[0] == s[0] && Of(s, policy, name)[1..] == Of(s[1..], policy, name)
            else Of(s, policy, name) == Of(s[1..], policy, name)
  {
  }

  lemma {:induction false} SameToken(x: Asset, y: Asset)
    requires AssetLeq(x, Asset(y.policy, y.name, 0)) && AssetLeq(y, Asset(x.policy, x.name, 0))
    ensures x.policy == y.policy && x.name == y.name
  {
    hide LexLeq;
    if x.policy != y.policy {
      LexTotal(x.policy, y.policy);
    } else if x.name != y.name {
      LexTotal(x.name, y.name);
    }
  }

  /** Reading a map of tokens gives the one such list. */
  lemma {:induction false} TokensRead(es: seq<C.Entry>, assets: seq<Asset>)
    ensures OrderedTokens(es, assets) <==> Flattened(es).Some? && assets == SortAssets(Flattened(es).value)
  {
    hide TokensOf, ArePolicies, Of, SortAssets, Ordered, Flattened;
    PoliciesFlatten(es);
    if Flattened(es).Some? {
      var flat := Flattened(es).value;
      var sorted := SortAssets(flat);
      SortOrders(flat);
      forall policy, name ensures Of(sorted, policy, name) == Of(flat, policy, name) {
        SortIsStable(flat, policy, name);
      }
      if OrderedTokens(es, assets) {
        var other :| TokensOf(es, other) && forall policy, name :: Of(assets, policy, name) == Of(other, policy, name);
        OneFlat(es, flat, other);
        OneOrder(assets, sorted);
      }
    }
    if OrderedTokens(es, assets) {
      TokensArePolicies(es);
    }
  }

  lemma {:induction false} TokensArePolicies(es: seq<C.Entry>)
    ensures forall flat :: TokensOf(es, flat) ==> ArePolicies(es)
  {
  }

  // ----- what is read, as a whole -----

  lemma {:induction false} OutputRead(v: C.Cbor, out: Output)
    ensures ParseOutput(v) == Some(out) <==> IsOutput(v, out)
  {
    hide OrderedTokens, SortAssets, Flattened;
    if v.Array? && |v.items| >= 2 && v.items[1].Array? && |v.items[1].items| == 2 && v.items[1].items[1].Map? {
      TokensRead(v.items[1].items[1].entries, out.assets);
    }
  }

  /** A body and a witness set that stand for a transaction: whatever else is in them. */
  ghost predicate StandsFor(body: C.Cbor, ws: C.Cbor, tx: Tx) {
    && body.Map?
    && ListAt(IsInput, body.entries, 0, tx.inputs)
    && ListAt(IsOutput, body.entries, 1, tx.outputs)
    && NumberAt(body.entries, 2, tx.fee)
    && NumberAt(body.entries, 3, tx.ttl)
    && if ws.Map? then ListAt(IsWitness, ws.entries, 0, tx.witnesses) else tx.witnesses == []
  }

  lemma {:induction false} BodyRead(body: C.Cbor, ws: C.Cbor, tx: Tx)
    ensures StandsFor(body, ws, tx) <==>
              ParseBody(body) == Some(tx.(witnesses := [])) && ParseWitnesses(ws) == Some(tx.witnesses)
  {
    hide ListAt, NumberAt, ParseUnder, NumberUnder, IsInput, IsOutput, IsWitness, ParseInput, ParseOutput, ParseWitness, Reads;
    AllRead();
    if body.Map? {
      ListExactly(ParseInput, IsInput, body.entries, 0, tx.inputs);
      ListExactly(ParseOutput, IsOutput, body.entries, 1, tx.outputs);
      NumberExactly(body.entries, 2, tx.fee);
      NumberExactly(body.entries, 3, tx.ttl);
    }
    if ws.Map? {
      ListExactly(ParseWitness, IsWitness, ws.entries, 0, tx.witnesses);
    }
  }

  lemma {:induction false} AllRead()
    ensures Reads(ParseInput, IsInput) && Reads(ParseOutput, IsOutput) && Reads(ParseWitness, IsWitness)
  {
    hide ParseOutput, IsOutput;
    forall v, out ensures ParseOutput(v) == Some(out) <==> IsOutput(v, out) {
      OutputRead(v, out);
    }
    forall v, i ensures ParseInput(v) == Some(i) <==> IsInput(v, i) {
      InputRead(v, i);
    }
    forall v, w ensures ParseWitness(v) == Some(w) <==> IsWitness(v, w) {
      WitnessRead(v, w);
    }
  }

  lemma {:induction false} InputRead(v: C.Cbor, i: Input)
    ensures ParseInput(v) == Some(i) <==> IsInput(v, i)
  {
  }

  lemma {:induction false} WitnessRead(v: C.Cbor, w: Witness)
    ensures ParseWitness(v) == Some(w) <==> IsWitness(v, w)
  {
  }

  /** Which bytes are read as a transaction: an array of two items or more, of which the first
      two stand for it. */
  lemma {:induction false} ReadExactly(data: seq<byte>, tx: Tx)
    ensures FromBytes(data) == Ok(tx) <==>
              && S.Split(data).Ok? && |S.Split(data).value| >= 2
              && var body, ws := C.Decode(S.Split(data).value[0], 0, 0), C.Decode(S.Split(data).value[1], 0, 0);
                 body.Ok? && ws.Ok? && StandsFor(body.value.0, ws.value.0, tx)
  {
    hide S.Split, C.Decode, ParseBody, ParseWitnesses, StandsFor;
    if S.Split(data).Ok? && |S.Split(data).value| >= 2 {
      var body, ws := C.Decode(S.Split(data).value[0], 0, 0), C.Decode(S.Split(data).value[1], 0, 0);
      if body.Ok? && ws.Ok? {
        BodyRead(body.value.0, ws.value.0, tx);
        NoWitnessesYet(body.value.0);
      }
    }
  }

  lemma {:induction false} NoWitnessesYet(body: C.Cbor)
    ensures ParseBody(body).Some? ==> ParseBody(body).value.witnesses == []
  {
  }
}
