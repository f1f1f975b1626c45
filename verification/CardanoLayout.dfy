/** Cardano transactions of src/cardanotx.rs by their bytes: what the ledger's CDDL asks for,
    with the heads of CBOR written out where they are constant. */
module CardanoLayout {
  import opened Options
  import opened Bytes
  import opened Multiasset
  import opened MultiassetCbor
  import opened CardanoTx
  import C = Cbor
  import L = CborLayout
  import R = CborRoundTrip

  // ----- numbers, strings, short arrays and maps -----

  ghost function Num(n: nat): seq<byte>
    requires n < U64
  {
    C.WriteHead(0, n)
  }

  ghost function Str(b: seq<byte>): seq<byte>
    requires |b| < U64
  {
    C.WriteHead(2, |b|) + b
  }

  lemma {:induction false} Leaves(n: nat, b: seq<byte>)
    requires n < U64 && |b| < U64
    ensures C.Encode(C.Uint(n)) == Num(n) && C.Encode(C.Bytes(b)) == Str(b)
  {
  }

  lemma {:induction false} Items1(items: seq<C.Cbor>)
    requires items != [] && forall i :: 0 <= i < |items| ==> C.Fits(items[i])
    ensures C.EncodeItems(items) == C.Encode(items[0]) + C.EncodeItems(items[1..])
  {
    hide C.Encode, C.Fits;
  }

  lemma {:induction false} NoItems()
    ensures C.EncodeItems([]) == []
  {
  }

  lemma {:induction false} ArrayIs(items: seq<C.Cbor>)
    requires C.Fits(C.Array(items))
    ensures forall i :: 0 <= i < |items| ==> C.Fits(items[i])
    ensures |items| < 24 ==> C.Encode(C.Array(items)) == [(0x80 + |items|) as byte] + C.EncodeItems(items)
  {
    hide C.EncodeItems;
  }

  lemma {:induction false} PairIs(a: C.Cbor, b: C.Cbor)
    requires C.Fits(C.Array([a, b])) && C.Fits(a) && C.Fits(b)
    ensures C.Encode(C.Array([a, b])) == [0x82] + C.Encode(a) + C.Encode(b)
  {
    hide C.Encode, C.Fits, C.EncodeItems;
    ArrayIs([a, b]);
    Items1([a, b]);
    assert [a, b][1..] == [b];
    Items1([b]);
    assert [b][1..] == [];
    NoItems();
    assert C.Encode(b) + [] == C.Encode(b);
    Regroup([0x82], C.Encode(a), C.Encode(b));
  }

  lemma {:induction false} PairFits(a: C.Cbor, b: C.Cbor)
    requires C.Fits(a) && C.Fits(b)
    ensures C.Fits(C.Array([a, b]))
  {
    hide C.Fits;
    var v := C.Array([a, b]);
    assert forall i :: 0 <= i < |v.items| ==> C.Fits(v.items[i]);
    ArrayFits(v.items);
  }

  lemma {:induction false} ArrayFits(items: seq<C.Cbor>)
    requires |items| < U64 && forall i :: 0 <= i < |items| ==> C.Fits(items[i])
    ensures C.Fits(C.Array(items))
  {
  }

  // ----- inputs, outputs, witnesses -----

  /** An input: the id of the transaction it spends, in 32 bytes, and the number of the output. */
  lemma {:induction false} InputByBytes(i: Input)
    requires |i.txid| == 32 && i.index < U64
    ensures C.Fits(InputCbor(i)) && C.Encode(InputCbor(i)) == [0x82, 0x58, 0x20] + i.txid + Num(i.index)
  {
    hide C.Encode;
    Leaves(i.index, i.txid);
    PairFits(C.Bytes(i.txid), C.Uint(i.index));
    PairIs(C.Bytes(i.txid), C.Uint(i.index));
    assert C.WriteHead(2, 32) == [0x58, 0x20] by {
      assert Be(32, 1) == [0x20];
    }
    assert [0x82] + ([0x58, 0x20] + i.txid) + Num(i.index) == [0x82, 0x58, 0x20] + i.txid + Num(i.index);
  }

  /** An output: the address, and the amount alone if there are no tokens. */
  lemma {:induction false} OutputByBytes(out: Output)
    requires 0 < |out.address| < U64 && out.amount < U64
    ensures out.assets == [] ==>
              && OutputCbor(out).Ok? && C.Fits(OutputCbor(out).value)
              && C.Encode(OutputCbor(out).value) == [0x82] + Str(out.address) + Num(out.amount)
    ensures out.assets != [] && Grouped(out.assets).Some? && C.Fits(ToCbor(Grouped(out.assets).value)) ==>
              && OutputCbor(out).Ok? && C.Fits(OutputCbor(out).value)
              && C.Encode(OutputCbor(out).value)
                 == [0x82] + Str(out.address) + ([0x82] + Num(out.amount) + C.Encode(ToCbor(Grouped(out.assets).value)))
  {
    hide C.Encode, Grouped, ToCbor;
    Leaves(out.amount, out.address);
    if out.assets == [] {
      PairFits(C.Bytes(out.address), C.Uint(out.amount));
      PairIs(C.Bytes(out.address), C.Uint(out.amount));
    } else if Grouped(out.assets).Some? && C.Fits(ToCbor(Grouped(out.assets).value)) {
      var tokens := ToCbor(Grouped(out.assets).value);
      PairFits(C.Uint(out.amount), tokens);
      PairIs(C.Uint(out.amount), tokens);
      PairFits(C.Bytes(out.address), C.Array([C.Uint(out.amount), tokens]));
      PairIs(C.Bytes(out.address), C.Array([C.Uint(out.amount), tokens]));
    }
  }

  /** A single token: policy to name to amount. */
  lemma {:induction false} TokenByBytes(a: Asset)
    requires |a.policy| < U64 && |a.name| < U64 && a.amount < U64
    ensures Grouped([a]).Some? && C.Fits(ToCbor(Grouped([a]).value))
    ensures C.Encode(ToCbor(Grouped([a]).value)) == [0xa1] + Str(a.policy) + ([0xa1] + Str(a.name) + Num(a.amount))
  {
    hide C.Encode, C.Fits;
    assert [a][..0] == [];
    var groups := [Policy(a.policy, [Token(a.name, a.amount)])];
    assert Grouped([a]) == Some(groups);
    PoliciesFitCbor(groups);
    TokensFitCbor(groups[0].tokens);
    Leaves(a.amount, a.policy);
    Leaves(a.amount, a.name);
    var names := C.Map([C.Entry(C.Bytes(a.name), C.Uint(a.amount))]);
    assert TokenEntries(groups[0].tokens) == names.entries;
    assert PolicyEntries(groups) == [C.Entry(C.Bytes(a.policy), names)];
    LeavesFit(a.amount, a.policy);
    LeavesFit(a.amount, a.name);
    EntryIs(C.Bytes(a.name), C.Uint(a.amount));
    EntryIs(C.Bytes(a.policy), names);
  }

  lemma {:induction false} LeavesFit(n: nat, b: seq<byte>)
    requires n < U64 && |b| < U64
    ensures C.Fits(C.Uint(n)) && C.Fits(C.Bytes(b))
  {
  }

  lemma {:induction false} EntryIs(key: C.Cbor, value: C.Cbor)
    requires C.Fits(key) && C.Fits(value) && C.Fits(C.Map([C.Entry(key, value)]))
    ensures C.Encode(C.Map([C.Entry(key, value)])) == [0xa1] + C.Encode(key) + C.Encode(value)
  {
    hide C.Encode, C.Fits;
    var es := [C.Entry(key, value)];
    MapIs(es);
    EndOfOrder();
    assert es[1..] == [];
    assert C.Encode(value) + [] == C.Encode(value);
    Regroup([0xa1], C.Encode(key), C.Encode(value));
  }

  lemma {:induction false} EndOfOrder()
    ensures L.InOrder([]) == []
  {
  }

  lemma {:induction false} MapIs(es: seq<C.Entry>)
    requires C.Fits(C.Map(es)) && |es| < 24 && forall k :: 0 <= k < |es| ==> C.Fits(es[k].key) && C.Fits(es[k].value)
    requires forall i, j :: 0 <= i < j < |es| ==> C.KeyLeq(C.Encode(es[i].key), C.Encode(es[j].key))
    ensures C.Encode(C.Map(es)) == [(0xa0 + |es|) as byte] + L.InOrder(es)
  {
    hide C.Encode, C.Fits, C.KeyLeq, L.InOrder;
    L.MapByPosition(es);
    var s := C.Encode(C.Map(es));
    assert s == [s[0]] + s[1..];
  }

  /** A witness: a public key and a signature. */
  lemma {:induction false} WitnessByBytes(w: Witness)
    requires |w.vkey| < U64 && |w.signature| < U64
    ensures C.Fits(WitnessCbor(w)) && C.Encode(WitnessCbor(w)) == [0x82] + Str(w.vkey) + Str(w.signature)
  {
    hide C.Encode;
    Leaves(0, w.vkey);
    Leaves(0, w.signature);
    PairFits(C.Bytes(w.vkey), C.Bytes(w.signature));
    PairIs(C.Bytes(w.vkey), C.Bytes(w.signature));
  }

  // ----- the transaction -----

  lemma {:induction false} InputsInOrder(inputs: seq<Input>)
    ensures var ins := InputsCbor(inputs);
            && (ins.Ok? <==> forall k :: 0 <= k < |inputs| ==> |inputs[k].txid| == 32)
            && (ins.Ok? ==> |ins.value| == |inputs| && forall k :: 0 <= k < |inputs| ==> ins.value[k] == InputCbor(inputs[k]))
            && (ins.Err? ==> ins.error == InvalidLength)
  {
    hide InputCbor;
    if inputs != [] {
      InputsInOrder(inputs[1..]);
      assert inputs == [inputs[0]] + inputs[1..];
    }
  }

  /** The body: inputs under 0, outputs under 1, the fee under 2, and the time to live under 3
      unless it is zero. */
  lemma {:induction false} BodyByBytes(tx: Tx)
    requires BodyMap(tx).Ok? && C.Fits(BodyMap(tx).value)
    ensures InputsCbor(tx.inputs).Ok? && OutputsCbor(tx.outputs).Ok? && tx.fee < U64 && tx.ttl < U64
    ensures C.Fits(C.Array(InputsCbor(tx.inputs).value)) && C.Fits(C.Array(OutputsCbor(tx.outputs).value))
    ensures C.Encode(BodyMap(tx).value)
         == [if tx.ttl == 0 then 0xa3 else 0xa4]
            + ([0x00] + (C.Encode(C.Array(InputsCbor(tx.inputs).value))
            + ([0x01] + (C.Encode(C.Array(OutputsCbor(tx.outputs).value))
            + ([0x02] + (Num(tx.fee) + if tx.ttl == 0 then [] else [0x03] + Num(tx.ttl)))))))
  {
    hide C.Encode, InputsCbor, OutputsCbor, C.Fits, L.InOrder, C.KeyLeq, Num;
    var es := BodyMap(tx).value.entries;
    C.MapEncodes(es);
    assert es[2].value == C.Uint(tx.fee) && (tx.ttl != 0 ==> es[3].value == C.Uint(tx.ttl));
    UintFits(tx.fee);
    UintFits(tx.ttl);
    assert C.Fits(es[0].value) && C.Fits(es[1].value) && C.Fits(es[2].value);
    assert tx.ttl != 0 ==> C.Fits(es[3].value);
    KeysInOrder(es);
    MapIs(es);
    Leaves(tx.fee, []);
    Leaves(tx.ttl, []);
    OrderOfThree(es);
    if tx.ttl == 0 {
      EndOfOrder();
      assert es[3..] == [];
    } else {
      Order1(es[3..]);
      EndOfOrder();
      assert es[3..][0] == es[3] && es[3..][1..] == [];
      assert Num(tx.ttl) + [] == Num(tx.ttl);
    }
  }

  lemma {:induction false} OrderOfThree(es: seq<C.Entry>)
    requires |es| >= 3 && forall k :: 0 <= k < |es| ==> C.Fits(es[k].key) && C.Fits(es[k].value)
    ensures L.InOrder(es)
         == C.Encode(es[0].key) + (C.Encode(es[0].value) + (C.Encode(es[1].key) + (C.Encode(es[1].value)
            + (C.Encode(es[2].key) + (C.Encode(es[2].value) + L.InOrder(es[3..]))))))
  {
    hide C.Encode, C.Fits, L.InOrder;
    assert es[1..][0] == es[1] && es[1..][1..] == es[2..] && es[2..][0] == es[2] && es[2..][1..] == es[3..];
    Order1(es);
    Order1(es[1..]);
    Order1(es[2..]);
  }

  lemma {:induction false} UintFits(n: nat)
    ensures C.Fits(C.Uint(n)) <==> n < U64
  {
  }

  lemma {:induction false} Order1(es: seq<C.Entry>)
    requires es != [] && forall k :: 0 <= k < |es| ==> C.Fits(es[k].key) && C.Fits(es[k].value)
    ensures L.InOrder(es) == C.Encode(es[0].key) + (C.Encode(es[0].value) + L.InOrder(es[1..]))
  {
    hide C.Encode, C.Fits;
  }

  lemma {:induction false} SmallKey(k: nat)
    requires k < 24
    ensures C.Fits(C.Uint(k)) && C.Encode(C.Uint(k)) == [k as byte]
  {
  }

  lemma {:induction false} KeysInOrder(es: seq<C.Entry>)
    requires |es| <= 4 && forall k :: 0 <= k < |es| ==> es[k].key == C.Uint(k)
    ensures forall k :: 0 <= k < |es| ==> C.Fits(es[k].key) && C.Encode(es[k].key) == [k as byte]
    ensures forall i, j :: 0 <= i < j < |es| ==> C.KeyLeq(C.Encode(es[i].key), C.Encode(es[j].key))
  {
    hide C.Encode, C.Fits, C.KeyLeq;
    forall k | 0 <= k < |es| ensures C.Fits(es[k].key) && C.Encode(es[k].key) == [k as byte] {
      SmallKey(k);
    }
    forall i, j | 0 <= i < j < |es| ensures C.KeyLeq(C.Encode(es[i].key), C.Encode(es[j].key)) {
      L.OrderOfKeys([i as byte], [j as byte], 0);
    }
  }

  /** The witness set: empty, or the witnesses under 0. */
  lemma {:induction false} WitnessesByBytes(ws: seq<Witness>)
    requires C.Fits(WitnessSet(ws)) && C.Fits(C.Array(WitnessesCbor(ws)))
    ensures C.Encode(WitnessSet(ws)) == if ws == [] then [0xa0] else [0xa1, 0x00] + C.Encode(C.Array(WitnessesCbor(ws)))
  {
    hide C.Encode, C.Fits, WitnessesCbor;
    SmallKey(0);
    if ws == [] {
      MapIs([]);
      EndOfOrder();
    } else {
      EntryIs(C.Uint(0), C.Array(WitnessesCbor(ws)));
    }
  }

  /** The transaction: body, witness set, true for a valid one, and null for no auxiliary data. */
  lemma {:induction false} TransactionByBytes(tx: Tx)
    requires Encodable(tx) && ToBytes(tx).Ok?
    ensures BodyMap(tx).Ok?
    ensures ToBytes(tx).value
         == [0x84] + (C.Encode(BodyMap(tx).value) + (C.Encode(WitnessSet(tx.witnesses)) + [0xf5, 0xf6]))
  {
    hide C.Encode, C.Fits, BodyMap, WitnessSet, C.EncodeItems;
    var body := C.Encode(BodyMap(tx).value);
    PartsFit(body, tx.witnesses);
    var parts := Parts(body, tx.witnesses);
    ArrayIs(parts);
    Items1(parts);
    Items1(parts[1..]);
    Items1(parts[2..]);
    Items1(parts[3..]);
    assert parts[1..][1..] == parts[2..] && parts[2..][1..] == parts[3..] && parts[3..][1..] == [];
    NoItems();
    Ends(body);
    assert [0xf5] + ([0xf6] + []) == [0xf5, 0xf6];
  }

  lemma {:induction false} Ends(body: seq<byte>)
    ensures C.Encode(C.Raw(body)) == body && C.Encode(C.Bool(true)) == [0xf5] && C.Encode(C.Null) == [0xf6]
  {
  }
}
