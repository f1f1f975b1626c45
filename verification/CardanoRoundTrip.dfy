/** A Cardano transaction written is read back with the same balances, and written again as
    the same bytes: src/cardanotx.rs. */
module CardanoRoundTrip {
  import opened Options
  import opened Bytes
  import opened Multiasset
  import opened MultiassetCbor
  import opened Flatten
  import opened CardanoTx
  import C = Cbor
  import R = CborRoundTrip
  import S = CborSplit

  // ----- the form of what is written -----

  lemma {:induction false} ItemsDepthAtMost(items: seq<C.Cbor>, d: nat)
    requires forall i :: 0 <= i < |items| ==> R.Depth(items[i]) <= d
    ensures R.ItemsDepth(items) <= d
  {
    hide R.Depth;
    if items != [] {
      ItemsDepthAtMost(items[1..], d);
    }
  }

  lemma {:induction false} EntriesDepthAtMost(es: seq<C.Entry>, d: nat)
    requires forall i :: 0 <= i < |es| ==> R.Depth(es[i].key) <= d && R.Depth(es[i].value) <= d
    ensures R.EntriesDepth(es) <= d
  {
    hide R.Depth;
    if es != [] {
      EntriesDepthAtMost(es[1..], d);
    }
  }

  /** Nested at most `d` deep, and nothing raw in it. */
  ghost predicate Plain(v: C.Cbor, d: nat) {
    R.Depth(v) <= d && R.RawFree(v)
  }

  lemma {:induction false} PlainArray(items: seq<C.Cbor>, d: nat)
    requires forall i :: 0 <= i < |items| ==> Plain(items[i], d)
    ensures Plain(C.Array(items), d + 1)
  {
    hide R.ItemsDepth;
    ItemsDepthAtMost(items, d);
  }

  lemma {:induction false} PlainMap(es: seq<C.Entry>, d: nat)
    requires forall i :: 0 <= i < |es| ==> Plain(es[i].key, d) && Plain(es[i].value, d)
    ensures Plain(C.Map(es), d + 1)
  {
    hide R.EntriesDepth;
    EntriesDepthAtMost(es, d);
  }

  lemma {:induction false} PlainLeaf(v: C.Cbor, d: nat)
    requires v.Bytes? || v.Uint?
    ensures Plain(v, d)
  {
  }

  lemma {:induction false} PlainPair(a: C.Cbor, b: C.Cbor, d: nat)
    requires Plain(a, d) && Plain(b, d)
    ensures Plain(C.Array([a, b]), d + 1)
  {
    hide Plain;
    PlainArray([a, b], d);
  }

  lemma {:induction false} PlainGroups(policies: seq<Policy>)
    ensures Plain(ToCbor(policies), 2)
  {
    hide Plain;
    forall i | 0 <= i < |policies| ensures Plain(PolicyEntry(policies[i]).key, 1) && Plain(PolicyEntry(policies[i]).value, 1) {
      PlainLeaf(C.Bytes(policies[i].id), 1);
      var tokens := policies[i].tokens;
      forall j | 0 <= j < |tokens| ensures Plain(TokenEntry(tokens[j]).key, 0) && Plain(TokenEntry(tokens[j]).value, 0) {
        PlainLeaf(C.Bytes(tokens[j].name), 0);
        PlainLeaf(C.Uint(tokens[j].amount), 0);
      }
      PlainMap(TokenEntries(tokens), 0);
    }
    PlainMap(PolicyEntries(policies), 1);
  }

  lemma {:induction false} PlainMore(v: C.Cbor, d: nat, e: nat)
    requires Plain(v, d) && d <= e
    ensures Plain(v, e)
  {
  }

  lemma {:induction false} PlainOutput(out: Output)
    requires OutputCbor(out).Ok?
    ensures Plain(OutputCbor(out).value, 4)
  {
    hide Plain, Grouped;
    PlainLeaf(C.Bytes(out.address), 3);
    if out.assets == [] {
      PlainLeaf(C.Uint(out.amount), 3);
      PlainPair(C.Bytes(out.address), C.Uint(out.amount), 3);
    } else {
      var groups := Grouped(out.assets).value;
      PlainGroups(groups);
      PlainLeaf(C.Uint(out.amount), 2);
      PlainPair(C.Uint(out.amount), ToCbor(groups), 2);
      PlainPair(C.Bytes(out.address), C.Array([C.Uint(out.amount), ToCbor(groups)]), 3);
    }
  }

  lemma {:induction false} InputsAre(inputs: seq<Input>)
    requires InputsCbor(inputs).Ok?
    ensures var ins := InputsCbor(inputs).value; |ins| == |inputs| && forall i :: 0 <= i < |ins| ==> ins[i] == InputCbor(inputs[i])
  {
    hide InputCbor;
    if inputs != [] {
      InputsAre(inputs[1..]);
    }
  }

  /** Every body is nested six deep at most. */
  lemma {:induction false} PlainBody(tx: Tx)
    requires BodyMap(tx).Ok?
    ensures Plain(BodyMap(tx).value, 6)
  {
    hide Plain, InputsCbor, OutputsCbor, OutputCbor;
    var ins, outs := InputsCbor(tx.inputs).value, OutputsCbor(tx.outputs).value;
    InputsAre(tx.inputs);
    forall i | 0 <= i < |ins| ensures Plain(ins[i], 4) {
      PlainLeaf(C.Bytes(tx.inputs[i].txid), 3);
      PlainLeaf(C.Uint(tx.inputs[i].index), 3);
      PlainPair(C.Bytes(tx.inputs[i].txid), C.Uint(tx.inputs[i].index), 3);
    }
    PlainArray(ins, 4);
    forall k | 0 <= k < |outs| ensures Plain(outs[k], 4) {
      PlainOutput(tx.outputs[k]);
    }
    PlainArray(outs, 4);
    PlainEntries(ins, outs, tx.fee, tx.ttl);
  }

  lemma {:induction false} PlainEntries(ins: seq<C.Cbor>, outs: seq<C.Cbor>, fee: nat, ttl: nat)
    requires Plain(C.Array(ins), 5) && Plain(C.Array(outs), 5)
    ensures Plain(C.Map(BodyEntries(ins, outs, fee, ttl)), 6)
  {
    hide Plain;
    PlainLeaf(C.Uint(0), 5);
    PlainLeaf(C.Uint(1), 5);
    PlainLeaf(C.Uint(2), 5);
    PlainLeaf(C.Uint(3), 5);
    PlainLeaf(C.Uint(fee), 5);
    PlainLeaf(C.Uint(ttl), 5);
    PlainMap(BodyEntries(ins, outs, fee, ttl), 5);
  }

  lemma {:induction false} PlainWitnesses(ws: seq<Witness>)
    ensures Plain(WitnessSet(ws), 3)
  {
    hide Plain;
    if ws == [] {
      PlainMap([], 2);
    } else {
      forall i | 0 <= i < |ws| ensures Plain(WitnessCbor(ws[i]), 1) {
        PlainLeaf(C.Bytes(ws[i].vkey), 0);
        PlainLeaf(C.Bytes(ws[i].signature), 0);
        PlainPair(C.Bytes(ws[i].vkey), C.Bytes(ws[i].signature), 0);
      }
      PlainArray(WitnessesCbor(ws), 1);
      PlainLeaf(C.Uint(0), 2);
      PlainMap([C.Entry(C.Uint(0), C.Array(WitnessesCbor(ws)))], 2);
    }
  }

  // ----- reading back -----

  lemma {:induction false} RawFreeIsItems(v: C.Cbor)
    requires R.RawFree(v)
    ensures S.RawsAreItems(v)
    decreases v
  {
    match v
    case Array(items) =>
      forall i | 0 <= i < |items| ensures S.RawsAreItems(items[i]) {
        RawFreeIsItems(items[i]);
      }
    case Map(es) =>
      forall i | 0 <= i < |es| ensures S.RawsAreItems(es[i].key) && S.RawsAreItems(es[i].value) {
        RawFreeIsItems(es[i].key);
        RawFreeIsItems(es[i].value);
      }
    case _ =>
  }

  /** The parts of a transaction come apart. */
  lemma {:induction false} PartsSplit(body: C.Cbor, ws: seq<Witness>)
    requires C.Fits(body) && Plain(body, 64) && C.Fits(WitnessSet(ws)) && C.Fits(C.Array(Parts(C.Encode(body), ws)))
    requires |C.Encode(C.Array(Parts(C.Encode(body), ws)))| < U64
    ensures S.Split(C.Encode(C.Array(Parts(C.Encode(body), ws)))) == Ok4(C.Encode(body), C.Encode(WitnessSet(ws)))
  {
    hide S.Split, C.Encode, WitnessSet, S.OneItem;
    RawFreeIsItems(body);
    S.EncodingIsItem(body);
    PlainWitnesses(ws);
    RawFreeIsItems(WitnessSet(ws));
    var parts := Parts(C.Encode(body), ws);
    var bytes := C.Encode(C.Array(parts));
    assert bytes + [] == bytes;
    S.ArraySplits(parts, []);
    RawEncodes(C.Encode(body));
    assert S.EncodeEach(parts) == [C.Encode(body), C.Encode(WitnessSet(ws)), C.Encode(C.Bool(true)), C.Encode(C.Null)];
  }

  function Ok4(body: seq<byte>, ws: seq<byte>): C.Result<seq<seq<byte>>> {
    C.Ok([body, ws, C.Encode(C.Bool(true)), C.Encode(C.Null)])
  }

  lemma {:induction false} RawEncodes(raw: seq<byte>)
    ensures C.Encode(C.Raw(raw)) == raw
  {
  }

  lemma {:induction false} DecodesBack(v: C.Cbor)
    requires C.Fits(v) && Plain(v, 64)
    ensures C.Decode(C.Encode(v), 0, 0) == C.Ok((R.Canon(v), |C.Encode(v)|))
  {
    hide C.Decode, C.Encode, R.Canon;
    R.RoundTrip(v, []);
    assert C.Encode(v) + [] == C.Encode(v);
  }

  // ----- canonical lists and maps -----

  lemma {:induction false} CanonItemAt(items: seq<C.Cbor>, i: nat)
    requires i < |items| && forall k :: 0 <= k < |items| ==> C.Fits(items[k])
    ensures R.CanonItems(items)[i] == R.Canon(items[i])
  {
    hide R.Canon, C.Fits;
    if i > 0 {
      CanonItemAt(items[1..], i - 1);
    }
  }

  lemma {:induction false} CanonEntryAt(es: seq<C.Entry>, i: nat)
    requires i < |es| && R.AllFit(es)
    ensures R.CanonEntries(es)[i] == R.CanonEntry(es[i])
  {
    hide R.CanonEntry, C.Fits;
    if i > 0 {
      CanonEntryAt(es[1..], i - 1);
    }
  }

  lemma {:induction false} CanonPair(a: C.Cbor, b: C.Cbor)
    requires C.Fits(a) && C.Fits(b)
    ensures C.Fits(C.Array([a, b])) && R.Canon(C.Array([a, b])) == C.Array([R.Canon(a), R.Canon(b)])
  {
    hide C.Fits;
    var items := [a, b];
    PairFits(a, b);
    assert items[1..] == [b] && items[1..][1..] == [];
    assert R.CanonItems(items[1..][1..]) == [];
    assert R.CanonItems(items[1..]) == [R.Canon(b)];
  }

  lemma {:induction false} PairFits(a: C.Cbor, b: C.Cbor)
    requires C.Fits(a) && C.Fits(b)
    ensures C.Fits(C.Array([a, b]))
  {
  }

  /** The first entry of a key is the only one. */
  lemma {:induction false} GetIs(es: seq<C.Entry>, key: nat, v: C.Cbor)
    requires C.Entry(C.Uint(key), v) in es && forall e :: e in es && e.key == C.Uint(key) ==> e.value == v
    ensures Get(es, key) == Some(v)
  {
    if es[0].key != C.Uint(key) {
      assert C.Entry(C.Uint(key), v) in es[1..] && forall e :: e in es[1..] ==> e in es;
      GetIs(es[1..], key, v);
    } else {
      assert es[0] in es;
    }
  }

  lemma {:induction false} GetNothing(es: seq<C.Entry>, key: nat)
    requires forall e :: e in es ==> e.key != C.Uint(key)
    ensures Get(es, key) == None
  {
    if es != [] {
      assert es[0] in es && forall e :: e in es[1..] ==> e in es;
      GetNothing(es[1..], key);
    }
  }

  /** The entries of a body, in canonical form and whatever order. */
  ghost predicate CanonBody(es: seq<C.Entry>, ins: C.Cbor, outs: C.Cbor, fee: nat, ttl: nat) {
    forall e :: e in es <==>
      || e == C.Entry(C.Uint(0), ins) || e == C.Entry(C.Uint(1), outs) || e == C.Entry(C.Uint(2), C.Uint(fee))
      || (ttl != 0 && e == C.Entry(C.Uint(3), C.Uint(ttl)))
  }

  lemma {:induction false} BodyIsCanon(ins: seq<C.Cbor>, outs: seq<C.Cbor>, fee: nat, ttl: nat)
    requires C.Fits(C.Map(BodyEntries(ins, outs, fee, ttl)))
    ensures C.Fits(C.Array(ins)) && C.Fits(C.Array(outs))
    ensures var v := R.Canon(C.Map(BodyEntries(ins, outs, fee, ttl)));
            v.Map? && CanonBody(v.entries, R.Canon(C.Array(ins)), R.Canon(C.Array(outs)), fee, ttl)
  {
    hide R.SortEntries, R.CanonEntries;
    var es := BodyEntries(ins, outs, fee, ttl);
    FitsEntries(es);
    assert es[0].value == C.Array(ins) && es[1].value == C.Array(outs);
    var canon := R.CanonEntries(es);
    CanonKeyed(es, 0);
    CanonKeyed(es, 1);
    CanonKeyed(es, 2);
    LeafIsCanon(C.Uint(fee));
    if ttl != 0 {
      CanonKeyed(es, 3);
      LeafIsCanon(C.Uint(ttl));
    }
    forall e ensures e in canon <==>
      || e == C.Entry(C.Uint(0), R.Canon(C.Array(ins))) || e == C.Entry(C.Uint(1), R.Canon(C.Array(outs)))
      || e == C.Entry(C.Uint(2), C.Uint(fee)) || (ttl != 0 && e == C.Entry(C.Uint(3), C.Uint(ttl)))
    {
      assert canon[0] in canon && canon[1] in canon && canon[2] in canon && (ttl != 0 ==> canon[3] in canon);
    }
  }

  lemma {:induction false} FitsEntries(es: seq<C.Entry>)
    requires C.Fits(C.Map(es))
    ensures R.AllFit(es) && forall i :: 0 <= i < |es| ==> C.Fits(es[i].key) && C.Fits(es[i].value)
  {
  }

  lemma {:induction false} CanonKeyed(es: seq<C.Entry>, i: nat)
    requires R.AllFit(es) && i < |es| && es[i].key.Uint? && C.Fits(es[i].key) && C.Fits(es[i].value)
    ensures R.CanonEntries(es)[i] == C.Entry(es[i].key, R.Canon(es[i].value))
  {
    hide R.CanonEntries;
    CanonEntryAt(es, i);
    LeafIsCanon(es[i].key);
  }

  // ----- what is read back -----

  /** An output as it is read back: its tokens added up and in order. */
  ghost predicate ReadsAs(out: Output, r: Output) {
    && r.address == out.address && r.amount == out.amount && (r.assets == [] <==> out.assets == [])
    && Ordered(r.assets) && AmountsFit(r.assets)
    && forall policy, name :: Balance(r.assets, policy, name) == Balance(out.assets, policy, name)
  }

  /** And it is written again as it was. */
  ghost predicate WritesAs(out: Output, r: Output) {
    && OutputCbor(out).Ok? && OutputCbor(r).Ok? && C.Fits(OutputCbor(out).value) && C.Fits(OutputCbor(r).value)
    && C.Encode(OutputCbor(r).value) == C.Encode(OutputCbor(out).value)
  }

  lemma {:induction false} GroupsFit(out: Output)
    requires OutputCbor(out).Ok? && C.Fits(OutputCbor(out).value) && out.assets != []
    ensures C.Fits(C.Bytes(out.address)) && C.Fits(C.Uint(out.amount)) && C.Fits(ToCbor(Grouped(out.assets).value))
  {
    hide Grouped, ToCbor;
    var v := OutputCbor(out).value;
    assert v.items[0] == C.Bytes(out.address) && v.items[1] == C.Array([C.Uint(out.amount), ToCbor(Grouped(out.assets).value)]);
    var w := v.items[1];
    assert C.Fits(w) && w.items[0] == C.Uint(out.amount) && w.items[1] == ToCbor(Grouped(out.assets).value);
  }

  lemma {:induction false} FittingGroups(policies: seq<Policy>)
    requires C.Fits(ToCbor(policies))
    ensures PoliciesFit(policies)
  {
    var es := PolicyEntries(policies);
    forall i | 0 <= i < |policies| ensures |policies[i].id| < U64 && TokensFit(policies[i].tokens) {
      assert es[i] == PolicyEntry(policies[i]) && C.Fits(es[i].key) && C.Fits(es[i].value);
      FittingTokens(policies[i].tokens);
    }
  }

  lemma {:induction false} FittingTokens(tokens: seq<Token>)
    requires C.Fits(C.Map(TokenEntries(tokens)))
    ensures TokensFit(tokens)
  {
    var es := TokenEntries(tokens);
    forall i | 0 <= i < |tokens| ensures |tokens[i].name| < U64 && tokens[i].amount < U64 {
      assert es[i] == TokenEntry(tokens[i]) && C.Fits(es[i].key) && C.Fits(es[i].value);
    }
  }

  lemma {:induction false} OutputReadsBack(out: Output) returns (r: Output)
    requires AmountsFit(out.assets) && OutputCbor(out).Ok? && C.Fits(OutputCbor(out).value)
    ensures ParseOutput(R.Canon(OutputCbor(out).value)) == Some(r) && ReadsAs(out, r) && WritesAs(out, r)
  {
    if out.assets == [] {
      r := out;
      PlainOutputReadsBack(out);
    } else {
      r := TokenOutputReadsBack(out);
    }
  }

  lemma {:induction false} PlainOutputReadsBack(out: Output)
    requires OutputCbor(out).Ok? && C.Fits(OutputCbor(out).value) && out.assets == []
    ensures ParseOutput(R.Canon(OutputCbor(out).value)) == Some(out) && ReadsAs(out, out)
  {
    hide R.Canon;
    var v := OutputCbor(out).value;
    assert v.items[0] == C.Bytes(out.address) && v.items[1] == C.Uint(out.amount);
    CanonPair(C.Bytes(out.address), C.Uint(out.amount));
    LeafIsCanon(C.Bytes(out.address));
    LeafIsCanon(C.Uint(out.amount));
  }

  lemma {:induction false} TokenOutputReadsBack(out: Output) returns (r: Output)
    requires AmountsFit(out.assets) && OutputCbor(out).Ok? && C.Fits(OutputCbor(out).value) && out.assets != []
    ensures ParseOutput(R.Canon(OutputCbor(out).value)) == Some(r) && ReadsAs(out, r) && WritesAs(out, r)
  {
    hide R.Canon, C.Encode, C.Fits, Grouped, Balance, Lookup, ToCbor, Flattened, SortAssets, PoliciesFit, WellGrouped, AmountsFit, Ordered;
    GroupsFit(out);
    var groups := Grouped(out.assets).value;
    FittingGroups(groups);
    GroupedConserves(out.assets);
    LastIsGrouped(out.assets);
    TokensReadBack(groups);
    var assets := SortAssets(Flattened(R.Canon(ToCbor(groups)).entries).value);
    r := Output(out.address, out.amount, assets);
    PairFits(C.Uint(out.amount), ToCbor(groups));
    CanonPair(C.Bytes(out.address), C.Array([C.Uint(out.amount), ToCbor(groups)]));
    CanonPair(C.Uint(out.amount), ToCbor(groups));
    LeafIsCanon(C.Bytes(out.address));
    LeafIsCanon(C.Uint(out.amount));
    PairEncodes(C.Uint(out.amount), ToCbor(groups), ToCbor(Grouped(assets).value));
    PairEncodes(C.Bytes(out.address), C.Array([C.Uint(out.amount), ToCbor(groups)]), C.Array([C.Uint(out.amount), ToCbor(Grouped(assets).value)]));
  }

  lemma {:induction false} LastIsGrouped(assets: seq<Asset>)
    requires assets != [] && Grouped(assets).Some?
    ensures Grouped(assets).value != []
  {
    hide AddToken;
  }

  /** Pairs of which the second is encoded alike. */
  lemma {:induction false} PairEncodes(a: C.Cbor, b: C.Cbor, c: C.Cbor)
    requires C.Fits(a) && C.Fits(b) && C.Fits(c) && C.Encode(b) == C.Encode(c)
    ensures C.Fits(C.Array([a, b])) && C.Fits(C.Array([a, c])) && C.Encode(C.Array([a, b])) == C.Encode(C.Array([a, c]))
  {
    hide C.Encode, C.Fits;
    PairFits(a, b);
    PairFits(a, c);
    ItemsEncodeAlike([a, b], [a, c]);
    ArrayEncodes([a, b]);
    ArrayEncodes([a, c]);
  }

  lemma {:induction false} ArrayEncodes(items: seq<C.Cbor>)
    requires C.Fits(C.Array(items))
    ensures C.Encode(C.Array(items)) == C.WriteHead(4, |items|) + C.EncodeItems(items)
  {
    hide C.WriteHead, C.EncodeItems;
  }

  lemma {:induction false} ItemsEncodeAlike(a: seq<C.Cbor>, b: seq<C.Cbor>)
    requires |a| == |b| && forall i :: 0 <= i < |a| ==> C.Fits(a[i]) && C.Fits(b[i]) && C.Encode(a[i]) == C.Encode(b[i])
    ensures C.EncodeItems(a) == C.EncodeItems(b)
  {
    hide C.Encode, C.Fits;
    if a != [] {
      ItemsEncodeAlike(a[1..], b[1..]);
    }
  }

  lemma {:induction false} OutputsReadBack(outs: seq<Output>, items: seq<C.Cbor>) returns (rs: seq<Output>)
    requires OutputsCbor(outs) == Ok(items) && forall k :: 0 <= k < |items| ==> C.Fits(items[k])
    requires forall k :: 0 <= k < |outs| ==> AmountsFit(outs[k].assets)
    ensures ParseAll(ParseOutput, R.CanonItems(items)) == Some(rs) && |rs| == |outs|
    ensures forall k :: 0 <= k < |outs| ==> ReadsAs(outs[k], rs[k]) && WritesAs(outs[k], rs[k])
    decreases |outs|
  {
    hide OutputCbor, ParseOutput, R.Canon, C.Fits, ReadsAs, WritesAs, AmountsFit;
    if outs == [] {
      rs := [];
    } else {
      var r := OutputReadsBack(outs[0]);
      var rest := OutputsReadBack(outs[1..], items[1..]);
      rs := [r] + rest;
      assert R.CanonItems(items) == [R.Canon(items[0])] + R.CanonItems(items[1..]);
      assert R.CanonItems(items)[1..] == R.CanonItems(items[1..]);
      assert forall k :: 1 <= k < |outs| ==> outs[k] == outs[1..][k - 1] && rs[k] == rest[k - 1];
    }
  }

  lemma {:induction false} InputsReadBack(inputs: seq<Input>, items: seq<C.Cbor>)
    requires InputsCbor(inputs) == Ok(items) && forall k :: 0 <= k < |items| ==> C.Fits(items[k])
    ensures ParseAll(ParseInput, R.CanonItems(items)) == Some(inputs)
  {
    hide R.Canon, C.Fits;
    if inputs != [] {
      var i := inputs[0];
      assert items[0] == InputCbor(i) && C.Fits(items[0]);
      InputReadsBack(i);
      InputsReadBack(inputs[1..], items[1..]);
      assert R.CanonItems(items) == [R.Canon(items[0])] + R.CanonItems(items[1..]);
      assert R.CanonItems(items)[1..] == R.CanonItems(items[1..]);
      assert inputs == [i] + inputs[1..];
    }
  }

  lemma {:induction false} InputReadsBack(i: Input)
    requires C.Fits(InputCbor(i))
    ensures ParseInput(R.Canon(InputCbor(i))) == Some(i)
  {
    hide R.Canon;
    var v := InputCbor(i);
    assert v.items[0] == C.Bytes(i.txid) && v.items[1] == C.Uint(i.index);
    CanonPair(C.Bytes(i.txid), C.Uint(i.index));
    LeafIsCanon(C.Bytes(i.txid));
    LeafIsCanon(C.Uint(i.index));
  }

  lemma {:induction false} WitnessReadsBack(w: Witness)
    requires C.Fits(WitnessCbor(w))
    ensures ParseWitness(R.Canon(WitnessCbor(w))) == Some(w)
  {
    hide R.Canon;
    var v := WitnessCbor(w);
    assert v.items[0] == C.Bytes(w.vkey) && v.items[1] == C.Bytes(w.signature);
    CanonPair(C.Bytes(w.vkey), C.Bytes(w.signature));
    LeafIsCanon(C.Bytes(w.vkey));
    LeafIsCanon(C.Bytes(w.signature));
  }

  lemma {:induction false} WitnessItemsReadBack(ws: seq<Witness>, items: seq<C.Cbor>)
    requires items == WitnessesCbor(ws) && forall k :: 0 <= k < |items| ==> C.Fits(items[k])
    ensures ParseAll(ParseWitness, R.CanonItems(items)) == Some(ws)
    decreases |ws|
  {
    hide R.Canon, C.Fits, WitnessCbor, ParseWitness;
    if ws != [] {
      assert items[0] == WitnessCbor(ws[0]) && items[1..] == WitnessesCbor(ws[1..]);
      WitnessReadsBack(ws[0]);
      WitnessItemsReadBack(ws[1..], items[1..]);
      assert R.CanonItems(items) == [R.Canon(items[0])] + R.CanonItems(items[1..]);
      assert R.CanonItems(items)[1..] == R.CanonItems(items[1..]);
      assert ws == [ws[0]] + ws[1..];
    }
  }

  lemma {:induction false} CanonOfArray(items: seq<C.Cbor>)
    requires C.Fits(C.Array(items))
    ensures forall k :: 0 <= k < |items| ==> C.Fits(items[k])
    ensures R.Canon(C.Array(items)) == C.Array(R.CanonItems(items))
  {
    hide R.CanonItems;
  }

  lemma {:induction false} CanonOfEntries(es: seq<C.Entry>)
    requires C.Fits(C.Map(es))
    ensures R.AllFit(es) && R.Canon(C.Map(es)) == C.Map(R.SortEntries(R.CanonEntries(es)))
  {
    hide R.SortEntries, R.CanonEntries;
  }

  lemma {:induction false} WitnessesReadBack(ws: seq<Witness>)
    requires C.Fits(WitnessSet(ws))
    ensures ParseWitnesses(R.Canon(WitnessSet(ws))) == Some(ws)
  {
    hide R.SortEntries, R.CanonEntries, R.Canon, ParseAll, Get;
    if ws == [] {
      CanonOfEntries([]);
      NoWitnesses();
    } else {
      var items := WitnessesCbor(ws);
      var es := [C.Entry(C.Uint(0), C.Array(items))];
      CanonOfEntries(es);
      FitsEntries(es);
      assert C.Fits(es[0].value);
      CanonKeyed(es, 0);
      CanonOfArray(items);
      var canon := R.CanonEntries(es);
      assert canon == [C.Entry(C.Uint(0), C.Array(R.CanonItems(items)))];
      GetIs(R.SortEntries(canon), 0, C.Array(R.CanonItems(items)));
      WitnessItemsReadBack(ws, items);
    }
  }

  lemma {:induction false} NoWitnesses()
    ensures R.SortEntries(R.CanonEntries([])) == [] && Get([], 0) == None
  {
  }

  /** The lists and numbers of a body, read back. */
  lemma {:induction false} BodyReadsBack(tx: Tx) returns (r: Tx)
    requires Typed(tx) && BodyMap(tx).Ok? && C.Fits(BodyMap(tx).value)
    ensures ParseBody(R.Canon(BodyMap(tx).value)) == Some(r)
    ensures r.inputs == tx.inputs && r.fee == tx.fee && r.ttl == tx.ttl && r.witnesses == [] && |r.outputs| == |tx.outputs|
    ensures forall k :: 0 <= k < |tx.outputs| ==> ReadsAs(tx.outputs[k], r.outputs[k]) && WritesAs(tx.outputs[k], r.outputs[k])
  {
    hide R.Canon, ParseAll, Get, OutputsCbor, InputsCbor, ReadsAs, WritesAs, AmountsFit, CanonBody, BodyEntries;
    var ins, outs := InputsCbor(tx.inputs).value, OutputsCbor(tx.outputs).value;
    BodyIsCanon(ins, outs, tx.fee, tx.ttl);
    CanonOfArray(ins);
    CanonOfArray(outs);
    InputsReadBack(tx.inputs, ins);
    var outputs := OutputsReadBack(tx.outputs, outs);
    var es := R.Canon(BodyMap(tx).value).entries;
    GetsOfBody(es, R.Canon(C.Array(ins)), R.Canon(C.Array(outs)), tx.fee, tx.ttl);
    r := Tx(tx.inputs, outputs, tx.fee, tx.ttl, []);
  }

  lemma {:induction false} GetsOfBody(es: seq<C.Entry>, ins: C.Cbor, outs: C.Cbor, fee: nat, ttl: nat)
    requires CanonBody(es, ins, outs, fee, ttl)
    ensures Get(es, 0) == Some(ins) && Get(es, 1) == Some(outs) && Get(es, 2) == Some(C.Uint(fee))
    ensures Get(es, 3) == if ttl == 0 then None else Some(C.Uint(ttl))
  {
    hide Get;
    GetIs(es, 0, ins);
    GetIs(es, 1, outs);
    GetIs(es, 2, C.Uint(fee));
    if ttl == 0 {
      GetNothing(es, 3);
    } else {
      GetIs(es, 3, C.Uint(ttl));
    }
  }

  // ----- written again -----

  lemma {:induction false} OutputsAreOk(outs: seq<Output>)
    requires forall k :: 0 <= k < |outs| ==> OutputCbor(outs[k]).Ok?
    ensures OutputsCbor(outs).Ok?
  {
    hide OutputCbor;
    if outs != [] {
      OutputsAreOk(outs[1..]);
    }
  }

  lemma {:induction false} PairsEncodeAlike(a: seq<C.Entry>, b: seq<C.Entry>)
    requires |a| == |b| && R.AllFit(a) && R.AllFit(b)
    requires forall i :: 0 <= i < |a| ==> C.Fits(a[i].key) && C.Fits(a[i].value) && C.Fits(b[i].key) && C.Fits(b[i].value)
    requires forall i :: 0 <= i < |a| ==> C.EncodeEntry(a[i]) == C.EncodeEntry(b[i])
    ensures C.EncodePairs(a) == C.EncodePairs(b)
  {
    hide C.EncodeEntry, C.Fits;
    if a != [] {
      PairsEncodeAlike(a[1..], b[1..]);
    }
  }

  /** Two bodies of which the outputs are encoded alike. */
  lemma {:induction false} BodiesEncodeAlike(ins: seq<C.Cbor>, a: seq<C.Cbor>, b: seq<C.Cbor>, fee: nat, ttl: nat)
    requires C.Fits(C.Map(BodyEntries(ins, a, fee, ttl))) && |a| == |b|
    requires forall k :: 0 <= k < |a| ==> C.Fits(a[k]) && C.Fits(b[k]) && C.Encode(a[k]) == C.Encode(b[k])
    ensures C.Fits(C.Map(BodyEntries(ins, b, fee, ttl)))
    ensures C.Encode(C.Map(BodyEntries(ins, b, fee, ttl))) == C.Encode(C.Map(BodyEntries(ins, a, fee, ttl)))
  {
    hide C.Encode, C.EncodePairs;
    var es, fs := BodyEntries(ins, a, fee, ttl), BodyEntries(ins, b, fee, ttl);
    FitsEntries(es);
    assert C.Fits(es[0].value) && C.Fits(es[1].value);
    assert C.Fits(C.Array(b));
    OtherEntriesFit(ins, a, b, fee, ttl);
    ItemsEncodeAlike(a, b);
    ArrayEncodes(a);
    ArrayEncodes(b);
    EntriesAlike(es, fs);
    PairsEncodeAlike(es, fs);
    MapEncodes(es);
    MapEncodes(fs);
  }

  lemma {:induction false} OtherEntriesFit(ins: seq<C.Cbor>, a: seq<C.Cbor>, b: seq<C.Cbor>, fee: nat, ttl: nat)
    requires C.Fits(C.Map(BodyEntries(ins, a, fee, ttl))) && C.Fits(C.Array(b))
    ensures C.Fits(C.Map(BodyEntries(ins, b, fee, ttl))) && R.AllFit(BodyEntries(ins, b, fee, ttl))
  {
    var es, fs := BodyEntries(ins, a, fee, ttl), BodyEntries(ins, b, fee, ttl);
    FitsEntries(es);
    forall i | 0 <= i < |fs| ensures C.Fits(fs[i].key) && C.Fits(fs[i].value) {
      assert i != 1 ==> fs[i] == es[i];
    }
  }

  lemma {:induction false} EntriesAlike(es: seq<C.Entry>, fs: seq<C.Entry>)
    requires |es| == |fs| && R.AllFit(es) && R.AllFit(fs)
    requires forall i :: 0 <= i < |es| ==> C.Fits(es[i].key) && C.Fits(es[i].value) && C.Fits(fs[i].key) && C.Fits(fs[i].value)
    requires forall i :: 0 <= i < |es| ==> es[i].key == fs[i].key && C.Encode(es[i].value) == C.Encode(fs[i].value)
    ensures forall i :: 0 <= i < |es| ==> C.EncodeEntry(es[i]) == C.EncodeEntry(fs[i])
  {
    hide C.Encode, C.Fits;
  }

  lemma {:induction false} MapEncodes(es: seq<C.Entry>)
    requires C.Fits(C.Map(es))
    ensures R.AllFit(es) && C.Encode(C.Map(es)) == C.WriteHead(5, |es|) + C.JoinPairs(C.SortPairs(C.EncodePairs(es)))
  {
    hide C.WriteHead, C.EncodePairs, C.SortPairs, C.JoinPairs;
  }

  /** A transaction as it is read back: everything as it was, but the tokens of an output
      added up and in order. */
  ghost predicate ReadBack(tx: Tx, r: Tx) {
    && r.inputs == tx.inputs && r.fee == tx.fee && r.ttl == tx.ttl && r.witnesses == tx.witnesses
    && |r.outputs| == |tx.outputs| && forall k :: 0 <= k < |tx.outputs| ==> ReadsAs(tx.outputs[k], r.outputs[k])
  }

  lemma {:induction false} SameBody(tx: Tx, r: Tx)
    requires BodyMap(tx).Ok? && C.Fits(BodyMap(tx).value) && r.inputs == tx.inputs && r.fee == tx.fee && r.ttl == tx.ttl
    requires |r.outputs| == |tx.outputs| && forall k :: 0 <= k < |tx.outputs| ==> WritesAs(tx.outputs[k], r.outputs[k])
    ensures BodyMap(r).Ok? && C.Fits(BodyMap(r).value) && C.Encode(BodyMap(r).value) == C.Encode(BodyMap(tx).value)
  {
    hide C.Encode, C.Fits, OutputCbor, InputsCbor, OutputsCbor, BodyEntries;
    OutputsAreOk(r.outputs);
    BodiesEncodeAlike(InputsCbor(tx.inputs).value, OutputsCbor(tx.outputs).value, OutputsCbor(r.outputs).value, tx.fee, tx.ttl);
  }

  /** Whatever is written is read back with every balance kept, and written again as the
      same bytes. */
  lemma {:induction false} ReencodingIsIdentical(tx: Tx)
    requires Typed(tx) && Encodable(tx) && ToBytes(tx).Ok? && |ToBytes(tx).value| < U64
    ensures var read := FromBytes(ToBytes(tx).value);
            read.Ok? && ReadBack(tx, read.value) && Encodable(read.value) && ToBytes(read.value) == ToBytes(tx)
  {
    hide C.Encode, C.Fits, C.Decode, R.Canon, S.Split, BodyMap, WitnessSet, ParseBody, ParseWitnesses, ReadsAs, WritesAs, Plain, Parts;
    var body := BodyMap(tx).value;
    PlainBody(tx);
    PlainMore(body, 6, 64);
    PlainWitnesses(tx.witnesses);
    PlainMore(WitnessSet(tx.witnesses), 3, 64);
    PartsFit(C.Encode(body), tx.witnesses);
    PartsSplit(body, tx.witnesses);
    DecodesBack(body);
    DecodesBack(WitnessSet(tx.witnesses));
    var r := BodyReadsBack(tx);
    WitnessesReadBack(tx.witnesses);
    var read := r.(witnesses := tx.witnesses);
    SameBody(tx, read);
    assert FromBytes(ToBytes(tx).value) == Ok(read);
  }

  /** The same transaction is written for the same balances, in whatever order and however
      split up its tokens are given. */
  lemma {:induction false} BalancesDecideOutput(a: Output, b: Output)
    requires AmountsFit(a.assets) && AmountsFit(b.assets) && a.address == b.address && a.amount == b.amount
    requires forall policy, name :: Balance(a.assets, policy, name) == Balance(b.assets, policy, name)
    requires OutputCbor(a).Ok? && C.Fits(OutputCbor(a).value)
    ensures OutputCbor(b).Ok? && C.Fits(OutputCbor(b).value) && C.Encode(OutputCbor(b).value) == C.Encode(OutputCbor(a).value)
  {
    hide C.Encode, C.Fits, Grouped, Balance, Lookup, ToCbor, PoliciesFit, WellGrouped, AmountsFit;
    if a.assets == [] {
      NoBalances(a.assets, b.assets);
    } else {
      GroupsFit(a);
      var groups := Grouped(a.assets).value;
      FittingGroups(groups);
      GroupedConserves(a.assets);
      GroupedConserves(b.assets);
      NotOutgrown(b.assets, groups);
      NoBalances(b.assets, a.assets);
      GroupsFitAlike(groups, Grouped(b.assets).value);
      GroupsEncodeAlike(groups, Grouped(b.assets).value);
      PairEncodes(C.Uint(a.amount), ToCbor(groups), ToCbor(Grouped(b.assets).value));
      PairEncodes(C.Bytes(a.address), C.Array([C.Uint(a.amount), ToCbor(groups)]), C.Array([C.Uint(a.amount), ToCbor(Grouped(b.assets).value)]));
    }
  }

  lemma {:induction false} NoBalances(a: seq<Asset>, b: seq<Asset>)
    requires forall policy, name :: Balance(a, policy, name) == Balance(b, policy, name)
    ensures a == [] ==> b == []
  {
    if b != [] {
      var last := b[|b| - 1];
      assert Balance(b, last.policy, last.name).Some?;
      NothingHasNone(last.policy, last.name);
    }
  }
}
