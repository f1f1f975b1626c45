/** Cardano transactions, src/cardanotx.rs: written as canonical CBOR and read back. Keys and
    signatures are bytes. */
module CardanoTx {
  import opened Options
  import opened Bytes
  import opened Multiasset
  import opened MultiassetCbor
  import opened Flatten
  import C = Cbor
  import R = CborRoundTrip
  import S = CborSplit

  datatype Input = Input(txid: seq<byte>, index: nat)

  datatype Output = Output(address: seq<byte>, amount: nat, assets: seq<Asset>)

  datatype Witness = Witness(vkey: seq<byte>, signature: seq<byte>)

  datatype Tx = Tx(inputs: seq<Input>, outputs: seq<Output>, fee: nat, ttl: nat, witnesses: seq<Witness>)

  datatype Error = NoInputs | NoOutputs | InvalidLength | EmptyAddress | Overflow | InvalidData | FromCbor(error: C.Error)

  datatype Result<+T> = Ok(value: T) | Err(error: Error)

  // ----- writing -----

  function InputCbor(i: Input): C.Cbor {
    C.Array([C.Bytes(i.txid), C.Uint(i.index)])
  }

  /** The inputs, if their ids have 32 bytes. */
  function InputsCbor(inputs: seq<Input>): Result<seq<C.Cbor>> {
    if inputs == [] then Ok([])
    else if |inputs[0].txid| != 32 then Err(InvalidLength)
    else
      var rest := InputsCbor(inputs[1..]);
      if rest.Err? then rest else Ok([InputCbor(inputs[0])] + rest.value)
  }

  /** `output_value`. */
  function OutputValue(out: Output): Result<C.Cbor> {
    if out.assets == [] then Ok(C.Uint(out.amount))
    else
      var groups := Grouped(out.assets);
      if groups.None? then Err(Overflow) else Ok(C.Array([C.Uint(out.amount), ToCbor(groups.value)]))
  }

  function OutputCbor(out: Output): Result<C.Cbor> {
    if out.address == [] then Err(EmptyAddress)
    else
      var value := OutputValue(out);
      if value.Err? then value else Ok(C.Array([C.Bytes(out.address), value.value]))
  }

  function OutputsCbor(outs: seq<Output>): (r: Result<seq<C.Cbor>>)
    ensures r.Ok? ==> |r.value| == |outs| && forall k :: 0 <= k < |outs| ==> OutputCbor(outs[k]) == Ok(r.value[k])
  {
    if outs == [] then Ok([])
    else
      var first := OutputCbor(outs[0]);
      if first.Err? then Err(first.error)
      else
        var rest := OutputsCbor(outs[1..]);
        if rest.Err? then rest else Ok([first.value] + rest.value)
  }

  function BodyEntries(ins: seq<C.Cbor>, outs: seq<C.Cbor>, fee: nat, ttl: nat): seq<C.Entry> {
    [C.Entry(C.Uint(0), C.Array(ins)), C.Entry(C.Uint(1), C.Array(outs)), C.Entry(C.Uint(2), C.Uint(fee))]
    + if ttl != 0 then [C.Entry(C.Uint(3), C.Uint(ttl))] else []
  }

  /** `body_map`. */
  function BodyMap(tx: Tx): Result<C.Cbor> {
    if tx.inputs == [] then Err(NoInputs)
    else if tx.outputs == [] then Err(NoOutputs)
    else
      var ins := InputsCbor(tx.inputs);
      if ins.Err? then Err(ins.error)
      else
        var outs := OutputsCbor(tx.outputs);
        if outs.Err? then Err(outs.error) else Ok(C.Map(BodyEntries(ins.value, outs.value, tx.fee, tx.ttl)))
  }

  function WitnessCbor(w: Witness): C.Cbor {
    C.Array([C.Bytes(w.vkey), C.Bytes(w.signature)])
  }

  function WitnessesCbor(ws: seq<Witness>): seq<C.Cbor> {
    seq(|ws|, i requires 0 <= i < |ws| => WitnessCbor(ws[i]))
  }

  /** `witness_set`. */
  function WitnessSet(ws: seq<Witness>): C.Cbor {
    if ws == [] then C.Map([]) else C.Map([C.Entry(C.Uint(0), C.Array(WitnessesCbor(ws)))])
  }

  /** Numbers of 64 bits. */
  ghost predicate Typed(tx: Tx) {
    forall k :: 0 <= k < |tx.outputs| ==> AmountsFit(tx.outputs[k].assets)
  }

  /** Lengths and numbers are 64-bit, as in memory. */
  ghost predicate Encodable(tx: Tx) {
    (BodyMap(tx).Ok? ==> C.Fits(BodyMap(tx).value)) && C.Fits(WitnessSet(tx.witnesses))
  }

  function Parts(body: seq<byte>, ws: seq<Witness>): seq<C.Cbor> {
    [C.Raw(body), WitnessSet(ws), C.Bool(true), C.Null]
  }

  /** `to_bytes`. */
  function ToBytes(tx: Tx): Result<seq<byte>>
    requires Encodable(tx)
  {
    var body := BodyMap(tx);
    if body.Err? then Err(body.error) else Ok(C.Encode(C.Array(Parts(C.Encode(body.value), tx.witnesses))))
  }

  // ----- the loops that write -----

  lemma {:induction false} MoreInputs(inputs: seq<Input>, i: nat)
    requires i < |inputs|
    ensures InputsCbor(inputs[i..])
         == if |inputs[i].txid| != 32 then Err(InvalidLength)
            else if InputsCbor(inputs[i + 1..]).Err? then InputsCbor(inputs[i + 1..])
            else Ok([InputCbor(inputs[i])] + InputsCbor(inputs[i + 1..]).value)
  {
    hide InputCbor;
    assert inputs[i..][1..] == inputs[i + 1..];
  }

  lemma {:induction false} MoreOutputs(outs: seq<Output>, i: nat)
    requires i < |outs|
    ensures OutputsCbor(outs[i..])
         == if OutputCbor(outs[i]).Err? then Err(OutputCbor(outs[i]).error)
            else if OutputsCbor(outs[i + 1..]).Err? then OutputsCbor(outs[i + 1..])
            else Ok([OutputCbor(outs[i]).value] + OutputsCbor(outs[i + 1..]).value)
  {
    hide OutputCbor;
    assert outs[i..][1..] == outs[i + 1..];
  }

  function After(front: seq<C.Cbor>, rest: Result<seq<C.Cbor>>): Result<seq<C.Cbor>> {
    if rest.Err? then rest else Ok(front + rest.value)
  }

  lemma {:induction false} AfterChains(front: seq<C.Cbor>, v: C.Cbor, rest: Result<seq<C.Cbor>>)
    ensures After(front, if rest.Err? then rest else Ok([v] + rest.value)) == After(front + [v], rest)
    ensures After([], rest) == rest
  {
    if rest.Ok? {
      assert front + ([v] + rest.value) == front + [v] + rest.value && [] + rest.value == rest.value;
    }
  }

  method BuildOutput(out: Output) returns (r: Result<C.Cbor>)
    ensures r == OutputCbor(out)
  {
    if out.address == [] {
      return Err(EmptyAddress);
    }
    if out.assets == [] {
      return Ok(C.Array([C.Bytes(out.address), C.Uint(out.amount)]));
    }
    var groups := GroupAssets(out.assets);
    if groups.None? {
      return Err(Overflow);
    }
    r := Ok(C.Array([C.Bytes(out.address), C.Array([C.Uint(out.amount), ToCbor(groups.value)])]));
  }

  /** `body_map`. */
  method BuildBody(tx: Tx) returns (r: Result<C.Cbor>)
    ensures r == BodyMap(tx)
  {
    hide InputsCbor, OutputsCbor, InputCbor, OutputCbor, BodyEntries;
    if tx.inputs == [] {
      return Err(NoInputs);
    }
    if tx.outputs == [] {
      return Err(NoOutputs);
    }
    var ins: seq<C.Cbor>, outs: seq<C.Cbor> := [], [];
    assert tx.inputs[0..] == tx.inputs && tx.outputs[0..] == tx.outputs;
    AfterChains([], C.Null, InputsCbor(tx.inputs));
    AfterChains([], C.Null, OutputsCbor(tx.outputs));
    for i := 0 to |tx.inputs|
      invariant After(ins, InputsCbor(tx.inputs[i..])) == InputsCbor(tx.inputs)
    {
      MoreInputs(tx.inputs, i);
      if |tx.inputs[i].txid| != 32 {
        return Err(InvalidLength);
      }
      AfterChains(ins, InputCbor(tx.inputs[i]), InputsCbor(tx.inputs[i + 1..]));
      ins := ins + [InputCbor(tx.inputs[i])];
    }
    NoMoreItems(ins);
    assert tx.inputs[|tx.inputs|..] == [];
    for i := 0 to |tx.outputs|
      invariant After(outs, OutputsCbor(tx.outputs[i..])) == OutputsCbor(tx.outputs)
    {
      MoreOutputs(tx.outputs, i);
      var out := BuildOutput(tx.outputs[i]);
      if out.Err? {
        return Err(out.error);
      }
      AfterChains(outs, out.value, OutputsCbor(tx.outputs[i + 1..]));
      outs := outs + [out.value];
    }
    NoMoreItems(outs);
    assert tx.outputs[|tx.outputs|..] == [];
    r := Ok(C.Map(BodyEntries(ins, outs, tx.fee, tx.ttl)));
  }

  lemma {:induction false} NoMoreItems(items: seq<C.Cbor>)
    ensures After(items, InputsCbor([])) == Ok(items) && After(items, OutputsCbor([])) == Ok(items)
  {
    assert items + [] == items;
  }

  /** `to_bytes`. */
  method Write(tx: Tx) returns (r: Result<seq<byte>>)
    requires Encodable(tx)
    ensures r == ToBytes(tx)
  {
    hide C.Encode, C.Fits, BodyMap, WitnessSet;
    var body := BuildBody(tx);
    if body.Err? {
      return Err(body.error);
    }
    var raw := C.EncodeInto(body.value, []);
    assert [] + C.Encode(body.value) == C.Encode(body.value);
    PartsFit(raw, tx.witnesses);
    var bytes := C.EncodeInto(C.Array(Parts(raw, tx.witnesses)), []);
    assert [] + C.Encode(C.Array(Parts(raw, tx.witnesses))) == C.Encode(C.Array(Parts(raw, tx.witnesses)));
    r := Ok(bytes);
  }

  lemma {:induction false} PartsFit(body: seq<byte>, ws: seq<Witness>)
    requires C.Fits(WitnessSet(ws))
    ensures C.Fits(C.Array(Parts(body, ws)))
  {
    hide WitnessSet;
    assert C.Fits(C.Raw(body)) && C.Fits(C.Bool(true)) && C.Fits(C.Null);
  }

  // ----- reading -----

  /** The value of the first entry of an integer key. */
  function Get(es: seq<C.Entry>, key: nat): Option<C.Cbor> {
    if es == [] then None
    else if es[0].key == C.Uint(key) then Some(es[0].value)
    else Get(es[1..], key)
  }

  function ParseInput(v: C.Cbor): Option<Input> {
    if !v.Array? || |v.items| != 2 || !v.items[0].Bytes? || !v.items[1].Uint? then None
    else Some(Input(v.items[0].b, v.items[1].v))
  }

  /** `decode_output`. */
  function ParseOutput(v: C.Cbor): Option<Output> {
    if !v.Array? || |v.items| < 2 || !v.items[0].Bytes? then None
    else if v.items[1].Uint? then Some(Output(v.items[0].b, v.items[1].v, []))
    else if !v.items[1].Array? || |v.items[1].items| != 2 || !v.items[1].items[0].Uint? || !v.items[1].items[1].Map? then None
    else
      var assets := Flattened(v.items[1].items[1].entries);
      if assets.None? then None else Some(Output(v.items[0].b, v.items[1].items[0].v, SortAssets(assets.value)))
  }

  function ParseWitness(v: C.Cbor): Option<Witness> {
    if !v.Array? || |v.items| != 2 || !v.items[0].Bytes? || !v.items[1].Bytes? then None
    else Some(Witness(v.items[0].b, v.items[1].b))
  }

  /** Each of a list, until one is not of the right form. */
  function ParseAll<T>(parse: C.Cbor -> Option<T>, vs: seq<C.Cbor>): Option<seq<T>> {
    if vs == [] then Some([])
    else
      var first, rest := parse(vs[0]), ParseAll(parse, vs[1..]);
      if first.None? || rest.None? then None else Some([first.value] + rest.value)
  }

  /** The list under a key: empty if there is no such key. */
  function ParseUnder<T>(parse: C.Cbor -> Option<T>, es: seq<C.Entry>, key: nat): Option<seq<T>> {
    match Get(es, key)
    case None => Some([])
    case Some(v) => if v.Array? then ParseAll(parse, v.items) else None
  }

  function NumberUnder(es: seq<C.Entry>, key: nat): Option<nat> {
    match Get(es, key)
    case None => Some(0)
    case Some(v) => if v.Uint? then Some(v.v) else None
  }

  /** The transaction of a decoded body, without witnesses. */
  function ParseBody(body: C.Cbor): Option<Tx> {
    if !body.Map? then None
    else
      var ins, outs := ParseUnder(ParseInput, body.entries, 0), ParseUnder(ParseOutput, body.entries, 1);
      var fee, ttl := NumberUnder(body.entries, 2), NumberUnder(body.entries, 3);
      if ins.None? || outs.None? || fee.None? || ttl.None? then None
      else Some(Tx(ins.value, outs.value, fee.value, ttl.value, []))
  }

  /** The witnesses of a decoded witness set: none if it is not a map. */
  function ParseWitnesses(ws: C.Cbor): Option<seq<Witness>> {
    if !ws.Map? then Some([]) else ParseUnder(ParseWitness, ws.entries, 0)
  }

  /** `from_bytes`. */
  function FromBytes(data: seq<byte>): Result<Tx> {
    var raw := S.Split(data);
    if raw.Err? then Err(FromCbor(raw.error))
    else if |raw.value| < 2 then Err(InvalidData)
    else
      var body := C.Decode(raw.value[0], 0, 0);
      if body.Err? then Err(FromCbor(body.error))
      else
        var tx := ParseBody(body.value.0);
        if tx.None? then Err(InvalidData)
        else
          var ws := C.Decode(raw.value[1], 0, 0);
          if ws.Err? then Err(FromCbor(ws.error))
          else
            var witnesses := ParseWitnesses(ws.value.0);
            if witnesses.None? then Err(InvalidData) else Ok(tx.value.(witnesses := witnesses.value))
  }

  // ----- the loops that read -----

  lemma {:induction false} ParseMore<T>(parse: C.Cbor -> Option<T>, vs: seq<C.Cbor>, i: nat, front: seq<T>)
    requires i < |vs|
    ensures var rest := ParseAll(parse, vs[i..]);
            if parse(vs[i]).None? then rest.None?
            else FollowedBy(front, rest) == FollowedBy(front + [parse(vs[i]).value], ParseAll(parse, vs[i + 1..]))
    ensures FollowedBy([], ParseAll(parse, vs)) == ParseAll(parse, vs)
  {
    assert vs[i..][1..] == vs[i + 1..];
    var rest := ParseAll(parse, vs[i + 1..]);
    if parse(vs[i]).Some? && rest.Some? {
      assert front + ([parse(vs[i]).value] + rest.value) == front + [parse(vs[i]).value] + rest.value;
    }
    if ParseAll(parse, vs).Some? {
      assert [] + ParseAll(parse, vs).value == ParseAll(parse, vs).value;
    }
  }

  function FollowedBy<T>(front: seq<T>, rest: Option<seq<T>>): Option<seq<T>> {
    if rest.None? then None else Some(front + rest.value)
  }

  method ReadInputs(vs: seq<C.Cbor>) returns (r: Option<seq<Input>>)
    ensures r == ParseAll(ParseInput, vs)
  {
    hide ParseAll, ParseInput;
    var inputs: seq<Input> := [];
    NothingToParse(ParseInput, vs);
    for i := 0 to |vs|
      invariant FollowedBy(inputs, ParseAll(ParseInput, vs[i..])) == ParseAll(ParseInput, vs)
    {
      ParseMore(ParseInput, vs, i, inputs);
      var one := ParseInput(vs[i]);
      if one.None? {
        return None;
      }
      inputs := inputs + [one.value];
    }
    assert inputs + [] == inputs;
    r := Some(inputs);
  }

  method ReadOutput(v: C.Cbor) returns (r: Option<Output>)
    ensures r == ParseOutput(v)
  {
    if !v.Array? || |v.items| < 2 || !v.items[0].Bytes? {
      return None;
    }
    if v.items[1].Uint? {
      return Some(Output(v.items[0].b, v.items[1].v, []));
    }
    if !v.items[1].Array? || |v.items[1].items| != 2 || !v.items[1].items[0].Uint? || !v.items[1].items[1].Map? {
      return None;
    }
    var assets := FlattenAssets(v.items[1].items[1].entries);
    r := if assets.None? then None else Some(Output(v.items[0].b, v.items[1].items[0].v, assets.value));
  }

  method ReadOutputs(vs: seq<C.Cbor>) returns (r: Option<seq<Output>>)
    ensures r == ParseAll(ParseOutput, vs)
  {
    hide ParseAll, ParseOutput;
    var outs: seq<Output> := [];
    NothingToParse(ParseOutput, vs);
    for i := 0 to |vs|
      invariant FollowedBy(outs, ParseAll(ParseOutput, vs[i..])) == ParseAll(ParseOutput, vs)
    {
      ParseMore(ParseOutput, vs, i, outs);
      var one := ReadOutput(vs[i]);
      if one.None? {
        return None;
      }
      outs := outs + [one.value];
    }
    assert outs + [] == outs;
    r := Some(outs);
  }

  method ReadWitnesses(vs: seq<C.Cbor>) returns (r: Option<seq<Witness>>)
    ensures r == ParseAll(ParseWitness, vs)
  {
    hide ParseAll, ParseWitness;
    var ws: seq<Witness> := [];
    NothingToParse(ParseWitness, vs);
    for i := 0 to |vs|
      invariant FollowedBy(ws, ParseAll(ParseWitness, vs[i..])) == ParseAll(ParseWitness, vs)
    {
      ParseMore(ParseWitness, vs, i, ws);
      var one := ParseWitness(vs[i]);
      if one.None? {
        return None;
      }
      ws := ws + [one.value];
    }
    assert ws + [] == ws;
    r := Some(ws);
  }

  lemma {:induction false} NothingToParse<T>(parse: C.Cbor -> Option<T>, vs: seq<C.Cbor>)
    ensures FollowedBy([], ParseAll(parse, vs[0..])) == ParseAll(parse, vs) && ParseAll(parse, vs[|vs|..]) == Some([])
  {
    assert vs[0..] == vs;
    if ParseAll(parse, vs).Some? {
      assert [] + ParseAll(parse, vs).value == ParseAll(parse, vs).value;
    }
  }

  /** The lists and numbers of a body. */
  method ReadBody(body: C.Cbor) returns (r: Option<Tx>)
    ensures r == ParseBody(body)
  {
    hide Get, ParseAll, ParseInput, ParseOutput;
    if !body.Map? {
      return None;
    }
    var tx := Tx([], [], 0, 0, []);
    var ins := Get(body.entries, 0);
    if ins.Some? {
      if !ins.value.Array? {
        return None;
      }
      var inputs := ReadInputs(ins.value.items);
      if inputs.None? {
        return None;
      }
      tx := tx.(inputs := inputs.value);
    }
    var outs := Get(body.entries, 1);
    if outs.Some? {
      if !outs.value.Array? {
        return None;
      }
      var outputs := ReadOutputs(outs.value.items);
      if outputs.None? {
        return None;
      }
      tx := tx.(outputs := outputs.value);
    }
    var fee, ttl := NumberUnder(body.entries, 2), NumberUnder(body.entries, 3);
    if fee.None? || ttl.None? {
      return None;
    }
    r := Some(tx.(fee := fee.value, ttl := ttl.value));
  }

  /** `from_bytes`. */
  method Read(data: seq<byte>) returns (r: Result<Tx>)
    ensures r == FromBytes(data)
  {
    hide S.Split, C.Decode, ParseBody, ParseAll, Get;
    var raw := S.SplitArrayItems(data);
    if raw.Err? {
      return Err(FromCbor(raw.error));
    }
    if |raw.value| < 2 {
      return Err(InvalidData);
    }
    var body := C.DecodeValue(raw.value[0], 0, 0);
    if body.Err? {
      return Err(FromCbor(body.error));
    }
    var tx := ReadBody(body.value.0);
    if tx.None? {
      return Err(InvalidData);
    }
    var ws := C.DecodeValue(raw.value[1], 0, 0);
    if ws.Err? {
      return Err(FromCbor(ws.error));
    }
    var vkeys := if ws.value.0.Map? then Get(ws.value.0.entries, 0) else None;
    if vkeys.None? {
      return Ok(tx.value.(witnesses := []));
    }
    if !vkeys.value.Array? {
      return Err(InvalidData);
    }
    var witnesses := ReadWitnesses(vkeys.value.items);
    r := if witnesses.None? then Err(InvalidData) else Ok(tx.value.(witnesses := witnesses.value));
  }
}
