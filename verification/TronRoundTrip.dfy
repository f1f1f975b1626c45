/** `TronTx::parse` accepts exactly the canonical bytes of a transaction whose integers are
    in range and whose known contracts are in their own variants, and gives it back. */
module TronRoundTrip {
  import opened Options
  import opened Bytes
  import opened Protobuf
  import opened TronTx

  /** The hash tells two byte strings apart, if they differ. */
  ghost predicate NoCollision(hash: Hash, a: seq<byte>, b: seq<byte>) {
    hash(a) == hash(b) ==> a == b
  }

  ghost predicate AcceptsAscii(utf8: Check) {
    forall b :: IsAscii(b) ==> utf8(b)
  }

  /** What the types of the fields say. */
  predicate TypedContract(utf8: Check, c: TronContract) {
    match c
    case Transfer(owner, to, amount) => |owner| == 21 && |to| == 21 && amount < U64
    case TransferAsset(_, owner, to, amount) => |owner| == 21 && |to| == 21 && amount < U64
    case TriggerSmartContract(owner, contract, callValue, _, callTokenValue, tokenId) =>
      |owner| == 21 && |contract| == 21 && callValue < U64 && callTokenValue < U64 && tokenId < U64
    case Other(otherType, otherUrl, _) => otherType < U32 && utf8(otherUrl)
  }

  predicate Typed(utf8: Check, tx: TronTx) {
    && |tx.refBlockBytes| == 2 && |tx.refBlockHash| == 8
    && tx.expiration < U64 && tx.timestamp < U64 && tx.feeLimit < U64 && tx.permissionId < U32
    && TypedContract(utf8, tx.contract)
  }

  /** Integers a node can hold, and no known contract passed off as another. */
  predicate EncodableContract(c: TronContract) {
    match c
    case Transfer(_, _, amount) => amount <= I64_MAX
    case TransferAsset(_, _, _, amount) => amount <= I64_MAX
    case TriggerSmartContract(_, _, callValue, _, callTokenValue, tokenId) =>
      callValue <= I64_MAX && callTokenValue <= I64_MAX && tokenId <= I64_MAX
    case Other(otherType, otherUrl, _) => otherType <= I32_MAX && ExpectedType(otherUrl) == None
  }

  predicate Encodable(tx: TronTx) {
    && tx.expiration <= I64_MAX && tx.timestamp <= I64_MAX && tx.feeLimit <= I64_MAX && tx.permissionId <= I32_MAX
    && EncodableContract(tx.contract)
  }

  // ----- what is written reads back -----

  lemma {:induction false} AddressReadsBack(b: seq<byte>, rest: seq<byte>)
    requires |b| == 21
    ensures ReadAddress(Varint(|b|) + b + rest, BYTES) == Ok((b, rest))
  {
    hide ReadBytes, Varint;
    BytesReadBack(b, rest);
  }

  lemma {:induction false} LastIntReadsBack(v: nat, max: nat)
    requires v < U64
    ensures ReadInt(Varint(v), VARINT, max) == if v <= max then Ok((v, [])) else Err(InvalidData)
  {
    hide ReadInt, Varint;
    IntReadsBack(v, max, []);
    assert Varint(v) + [] == Varint(v);
  }

  lemma {:induction false} LastBytesReadBack(b: seq<byte>)
    requires |b| < U64
    ensures ReadBytes(Varint(|b|) + b, BYTES) == Ok((b, []))
  {
    hide ReadBytes, Varint;
    BytesReadBack(b, []);
    assert Varint(|b|) + b + [] == Varint(|b|) + b;
  }

  lemma {:induction false} TransferReadsBack(c: TronContract)
    requires c.Transfer? && |c.owner| == 21 && |c.to| == 21 && c.amount <= I64_MAX
    ensures Fields(PartStep(TRANSFER), Parameter(c), NO_PARTS)
         == Ok(NO_PARTS.(owner := Some(c.owner), to := Some(c.to), amount := c.amount))
  {
    hide Fields, Varint, PutBytes, PutUint, ReadAddress, ReadInt, ReadBytes;
    var step := PartStep(TRANSFER);
    var p1 := NO_PARTS.(owner := Some(c.owner));
    var p2 := p1.(to := Some(c.to));
    var r2 := PutUint(3, c.amount);
    var r1 := PutBytes(2, c.to) + r2;
    AddressReadsBack(c.owner, r1);
    BytesField(step, 1, c.owner, NO_PARTS, p1, r1);
    AddressReadsBack(c.to, r2);
    BytesField(step, 2, c.to, p1, p2, r2);
    LastIntReadsBack(c.amount, I64_MAX);
    UintLast(step, 3, c.amount, p2, p2.(amount := c.amount));
  }

  lemma {:induction false} TransferAssetReadsBack(c: TronContract)
    requires c.TransferAsset? && |c.owner| == 21 && |c.to| == 21 && c.amount <= I64_MAX && |c.assetName| < U64
    ensures Fields(PartStep(TRANSFER_ASSET), Parameter(c), NO_PARTS)
         == Ok(NO_PARTS.(assetName := c.assetName, owner := Some(c.owner), to := Some(c.to), amount := c.amount))
  {
    hide Fields, Varint, PutBytes, PutUint, ReadAddress, ReadInt, ReadBytes;
    var step := PartStep(TRANSFER_ASSET);
    var p1 := NO_PARTS.(assetName := c.assetName);
    var p2 := p1.(owner := Some(c.owner));
    var p3 := p2.(to := Some(c.to));
    var r3 := PutUint(4, c.amount);
    var r2 := PutBytes(3, c.to) + r3;
    var r1 := PutBytes(2, c.owner) + r2;
    BytesReadBack(c.assetName, r1);
    BytesField(step, 1, c.assetName, NO_PARTS, p1, r1);
    AddressReadsBack(c.owner, r2);
    BytesField(step, 2, c.owner, p1, p2, r2);
    AddressReadsBack(c.to, r3);
    BytesField(step, 3, c.to, p2, p3, r3);
    LastIntReadsBack(c.amount, I64_MAX);
    UintLast(step, 4, c.amount, p3, p3.(amount := c.amount));
  }

  /** The first three fields of a call. */
  lemma {:induction false} CallStarts(c: TronContract, rest: seq<byte>)
    requires c.TriggerSmartContract? && |c.owner| == 21 && |c.contract| == 21 && c.callValue <= I64_MAX
    ensures Fields(PartStep(TRIGGER), PutBytes(1, c.owner) + (PutBytes(2, c.contract) + (PutUint(3, c.callValue) + rest)), NO_PARTS)
         == Fields(PartStep(TRIGGER), rest, NO_PARTS.(owner := Some(c.owner), to := Some(c.contract), callValue := c.callValue))
  {
    hide Fields, Varint, PutBytes, PutUint, ReadAddress, ReadInt, ReadBytes;
    var step := PartStep(TRIGGER);
    var p1 := NO_PARTS.(owner := Some(c.owner));
    var p2 := p1.(to := Some(c.contract));
    var r2 := PutUint(3, c.callValue) + rest;
    var r1 := PutBytes(2, c.contract) + r2;
    AddressReadsBack(c.owner, r1);
    BytesField(step, 1, c.owner, NO_PARTS, p1, r1);
    AddressReadsBack(c.contract, r2);
    BytesField(step, 2, c.contract, p1, p2, r2);
    IntReadsBack(c.callValue, I64_MAX, rest);
    UintField(step, 3, c.callValue, p2, p2.(callValue := c.callValue), rest);
  }

  lemma {:induction false} CallReadsBack(c: TronContract)
    requires c.TriggerSmartContract? && |c.owner| == 21 && |c.contract| == 21 && |c.data| < U64 && EncodableContract(c)
    ensures Fields(PartStep(TRIGGER), Parameter(c), NO_PARTS)
         == Ok(NO_PARTS.(owner := Some(c.owner), to := Some(c.contract), callValue := c.callValue, data := c.data,
                         callTokenValue := c.callTokenValue, tokenId := c.tokenId))
  {
    hide Fields, Varint, PutBytes, PutUint, ReadAddress, ReadInt, ReadBytes;
    var step := PartStep(TRIGGER);
    var p3 := NO_PARTS.(owner := Some(c.owner), to := Some(c.contract), callValue := c.callValue);
    var p4 := p3.(data := c.data);
    var p5 := p4.(callTokenValue := c.callTokenValue);
    var r5 := PutUint(6, c.tokenId);
    var r4 := PutUint(5, c.callTokenValue) + r5;
    CallStarts(c, PutBytes(4, c.data) + r4);
    BytesReadBack(c.data, r4);
    BytesField(step, 4, c.data, p3, p4, r4);
    IntReadsBack(c.callTokenValue, I64_MAX, r5);
    UintField(step, 5, c.callTokenValue, p4, p5, r5);
    LastIntReadsBack(c.tokenId, I64_MAX);
    UintLast(step, 6, c.tokenId, p5, p5.(tokenId := c.tokenId));
  }

  /** A field is no longer than the message that holds it. */
  lemma {:induction false} PutIsLonger(field: nat, b: seq<byte>)
    ensures |b| <= |PutBytes(field, b)| && |b| <= |PutMessage(field, b)|
  {
    hide Varint;
  }

  lemma {:induction false} InterpretReadsBack(utf8: Check, c: TronContract)
    requires TypedContract(utf8, c) && EncodableContract(c) && |Parameter(c)| < U64
    ensures Interpreted(ContractType(c), TypeUrl(c), Parameter(c)) == Ok(c)
  {
    hide Fields, PutBytes, PutUint, PartStep, Ascii;
    match c {
      case Transfer(_, _, _) => TransferReadsBack(c);
      case TransferAsset(_, _, _, _) => {
        PutIsLonger(1, c.assetName);
        TransferAssetReadsBack(c);
      }
      case TriggerSmartContract(_, _, _, _, _, _) => {
        PutIsLonger(4, c.data);
        CallReadsBack(c);
      }
      case Other(_, _, _) => {
      }
    }
  }

  lemma {:induction false} UrlIsUtf8(utf8: Check, c: TronContract)
    requires AcceptsAscii(utf8) && TypedContract(utf8, c)
    ensures utf8(TypeUrl(c))
  {
    hide Ascii;
  }

  lemma {:induction false} AnyReadsBack(utf8: Check, url: seq<byte>, parameter: seq<byte>)
    requires utf8(url) && |url| < U64 && |parameter| < U64
    ensures Fields(AnyStep(utf8), AnyMessage(url, parameter), AnyParts([], [])) == Ok(AnyParts(url, parameter))
  {
    hide Fields, Varint, PutBytes, ReadBytes;
    var step := AnyStep(utf8);
    var r1 := PutBytes(2, parameter);
    BytesReadBack(url, r1);
    BytesField(step, 1, url, AnyParts([], []), AnyParts(url, []), r1);
    LastBytesReadBack(parameter);
    BytesLast(step, 2, parameter, AnyParts(url, []), AnyParts(url, parameter));
  }

  lemma {:induction false} ContractFieldsReadBack(contractType: nat, any: seq<byte>, permissionId: nat)
    requires contractType <= I32_MAX && permissionId <= I32_MAX && |any| < U64
    ensures Fields(ContractStep(), PutUint(1, contractType) + (PutMessage(2, any) + PutUint(5, permissionId)),
                   ContractParts(0, None, 0)) == Ok(ContractParts(contractType, Some(any), permissionId))
  {
    hide Fields, Varint, PutMessage, PutUint, ReadBytes, ReadInt;
    var step := ContractStep();
    var c0 := ContractParts(0, None, 0);
    var c1 := c0.(contractType := contractType);
    var c2 := c1.(any := Some(any));
    var r2 := PutUint(5, permissionId);
    var r1 := PutMessage(2, any) + r2;
    IntReadsBack(contractType, I32_MAX, r1);
    UintField(step, 1, contractType, c0, c1, r1);
    BytesReadBack(any, r2);
    MessageField(step, 2, any, c1, c2, r2);
    LastIntReadsBack(permissionId, I32_MAX);
    UintLast(step, 5, permissionId, c2, c2.(permissionId := permissionId));
  }

  lemma {:induction false} ContractReadsBack(utf8: Check, c: TronContract, permissionId: nat)
    requires AcceptsAscii(utf8) && TypedContract(utf8, c) && EncodableContract(c)
    requires permissionId <= I32_MAX && |ContractMessage(c, permissionId)| < U64
    ensures ContractOf(utf8, ContractMessage(c, permissionId)) == Ok((c, permissionId))
  {
    hide Fields, PutMessage, PutUint, PutBytes, Parameter, TypeUrl, Interpreted;
    var any := AnyMessage(TypeUrl(c), Parameter(c));
    PutIsLonger(2, any);
    PutIsLonger(1, TypeUrl(c));
    PutIsLonger(2, Parameter(c));
    ContractFieldsReadBack(ContractType(c), any, permissionId);
    UrlIsUtf8(utf8, c);
    AnyReadsBack(utf8, TypeUrl(c), Parameter(c));
    InterpretReadsBack(utf8, c);
  }

  /** The first four fields of the raw data. */
  lemma {:induction false} RawStarts(utf8: Check, tx: TronTx, rest: seq<byte>)
    requires |tx.refBlockBytes| == 2 && |tx.refBlockHash| == 8 && tx.expiration <= I64_MAX && |tx.memo| < U64
    ensures Fields(TxStep(utf8), PutBytes(1, tx.refBlockBytes) + (PutBytes(4, tx.refBlockHash)
                   + (PutUint(8, tx.expiration) + (PutBytes(10, tx.memo) + rest))), NO_TX)
         == Fields(TxStep(utf8), rest, NO_TX.(refBlockBytes := Some(tx.refBlockBytes),
                   refBlockHash := Some(tx.refBlockHash), expiration := tx.expiration, memo := tx.memo))
  {
    hide Fields, Varint, PutBytes, PutUint, ReadBytes, ReadInt, ContractIn;
    var step := TxStep(utf8);
    var t1 := NO_TX.(refBlockBytes := Some(tx.refBlockBytes));
    var t2 := t1.(refBlockHash := Some(tx.refBlockHash));
    var t3 := t2.(expiration := tx.expiration);
    var r3 := PutBytes(10, tx.memo) + rest;
    var r2 := PutUint(8, tx.expiration) + r3;
    var r1 := PutBytes(4, tx.refBlockHash) + r2;
    BytesReadBack(tx.refBlockBytes, r1);
    BytesField(step, 1, tx.refBlockBytes, NO_TX, t1, r1);
    BytesReadBack(tx.refBlockHash, r2);
    BytesField(step, 4, tx.refBlockHash, t1, t2, r2);
    IntReadsBack(tx.expiration, I64_MAX, r3);
    UintField(step, 8, tx.expiration, t2, t3, r3);
    BytesReadBack(tx.memo, rest);
    BytesField(step, 10, tx.memo, t3, t3.(memo := tx.memo), rest);
  }

  /** The last three. */
  lemma {:induction false} RawEnds(utf8: Check, t: TxParts, tx: TronTx)
    requires AcceptsAscii(utf8) && Typed(utf8, tx) && Encodable(tx)
    requires |ContractMessage(tx.contract, tx.permissionId)| < U64
    requires t.contract == None && t.timestamp == 0 && t.feeLimit == 0
    ensures Fields(TxStep(utf8), PutMessage(11, ContractMessage(tx.contract, tx.permissionId))
                   + (PutUint(14, tx.timestamp) + PutUint(18, tx.feeLimit)), t)
         == Ok(t.(contract := Some((tx.contract, tx.permissionId)), timestamp := tx.timestamp, feeLimit := tx.feeLimit))
  {
    hide Fields, Varint, PutMessage, PutUint, ReadBytes, ReadInt, ContractOf, ContractMessage, EncodableContract,
      TypedContract;
    var step := TxStep(utf8);
    var message := ContractMessage(tx.contract, tx.permissionId);
    var t1 := t.(contract := Some((tx.contract, tx.permissionId)));
    var t2 := t1.(timestamp := tx.timestamp);
    var r2 := PutUint(18, tx.feeLimit);
    var r1 := PutUint(14, tx.timestamp) + r2;
    ContractReadsBack(utf8, tx.contract, tx.permissionId);
    BytesReadBack(message, r1);
    MessageField(step, 11, message, t, t1, r1);
    IntReadsBack(tx.timestamp, I64_MAX, r2);
    UintField(step, 14, tx.timestamp, t1, t2, r2);
    LastIntReadsBack(tx.feeLimit, I64_MAX);
    UintLast(step, 18, tx.feeLimit, t2, t2.(feeLimit := tx.feeLimit));
  }

  lemma {:induction false} RawIsLonger(tx: TronTx)
    ensures |tx.memo| <= |RawData(tx)| && |ContractMessage(tx.contract, tx.permissionId)| <= |RawData(tx)|
  {
    hide PutBytes, PutMessage, PutUint, ContractMessage;
    PutIsLonger(10, tx.memo);
    PutIsLonger(11, ContractMessage(tx.contract, tx.permissionId));
  }

  /** A transaction written parses back, its hash confirmed. */
  lemma {:induction false} ParseInvertsRawData(hash: Hash, utf8: Check, tx: TronTx)
    requires AcceptsAscii(utf8) && Typed(utf8, tx) && Encodable(tx) && |RawData(tx)| < U64
    ensures Parsed(hash, utf8, RawData(tx)) == Ok(tx)
  {
    hide Fields, PutBytes, PutMessage, PutUint, ContractMessage, EncodableContract, TypedContract;
    RawIsLonger(tx);
    RawStarts(utf8, tx, PutMessage(11, ContractMessage(tx.contract, tx.permissionId))
                        + (PutUint(14, tx.timestamp) + PutUint(18, tx.feeLimit)));
    RawEnds(utf8, NO_TX.(refBlockBytes := Some(tx.refBlockBytes), refBlockHash := Some(tx.refBlockHash),
                         expiration := tx.expiration, memo := tx.memo), tx);
  }

  // ----- what parses is a transaction -----

  predicate PartsInRange(p: Parts) {
    && (p.owner.Some? ==> |p.owner.value| == 21) && (p.to.Some? ==> |p.to.value| == 21)
    && p.amount <= I64_MAX && p.callValue <= I64_MAX && p.callTokenValue <= I64_MAX && p.tokenId <= I64_MAX
  }

  predicate TxInRange(utf8: Check, t: TxParts) {
    && t.expiration <= I64_MAX && t.timestamp <= I64_MAX && t.feeLimit <= I64_MAX
    && (t.contract.Some? ==>
          && t.contract.value.1 <= I32_MAX
          && TypedContract(utf8, t.contract.value.0) && EncodableContract(t.contract.value.0))
  }

  lemma {:induction false} PartsKept(kind: nat)
    ensures Keeps(PartStep(kind), PartsInRange)
  {
    hide ReadVarint;
  }

  lemma {:induction false} AnyKept(utf8: Check)
    ensures Keeps(AnyStep(utf8), (a: AnyParts) => utf8(a.url))
  {
    hide ReadBytes;
  }

  lemma {:induction false} ContractKept()
    ensures Keeps(ContractStep(), (c: ContractParts) => c.contractType <= I32_MAX && c.permissionId <= I32_MAX)
  {
    hide ReadBytes, ReadVarint;
  }

  lemma {:induction false} InterpretedInRange(utf8: Check, contractType: nat, url: seq<byte>, parameter: seq<byte>)
    requires contractType <= I32_MAX && utf8(url)
    ensures var r := Interpreted(contractType, url, parameter);
            r.Ok? ==> TypedContract(utf8, r.value) && EncodableContract(r.value)
  {
    hide Fields, PartStep, Ascii;
    var kind := ExpectedType(url);
    if kind.Some? {
      PartsKept(kind.value);
      FieldsKeep(PartStep(kind.value), PartsInRange, parameter, NO_PARTS);
    }
  }

  lemma {:induction false} ContractInRange(utf8: Check, data: seq<byte>)
    requires AcceptsAscii(utf8)
    ensures var r := ContractOf(utf8, data);
            r.Ok? ==> r.value.1 <= I32_MAX && TypedContract(utf8, r.value.0) && EncodableContract(r.value.0)
  {
    hide Fields, Interpreted, TypedContract, EncodableContract, ContractStep, AnyStep;
    ContractKept();
    FieldsKeep(ContractStep(), (c: ContractParts) => c.contractType <= I32_MAX && c.permissionId <= I32_MAX, data,
               ContractParts(0, None, 0));
    var c := Fields(ContractStep(), data, ContractParts(0, None, 0));
    if c.Ok? && c.value.any.Some? {
      AnyKept(utf8);
      assert IsAscii([]);
      FieldsKeep(AnyStep(utf8), (a: AnyParts) => utf8(a.url), c.value.any.value, AnyParts([], []));
      var a := Fields(AnyStep(utf8), c.value.any.value, AnyParts([], []));
      if a.Ok? {
        InterpretedInRange(utf8, c.value.contractType, a.value.url, a.value.parameter);
      }
    }
  }

  lemma {:induction false} TxFieldKept(utf8: Check, t: TxParts, tag: Tag, s: seq<byte>)
    requires AcceptsAscii(utf8) && TxInRange(utf8, t)
    ensures TxField(utf8, t, tag, s).Ok? ==> TxInRange(utf8, TxField(utf8, t, tag, s).value.0)
  {
    hide ReadBytes, ReadVarint, ContractOf, TypedContract, EncodableContract;
    if ReadBytes(s, tag.wire).Ok? {
      ContractInRange(utf8, ReadBytes(s, tag.wire).value.0);
    }
  }

  lemma {:induction false} TxKept(utf8: Check)
    requires AcceptsAscii(utf8)
    ensures Keeps(TxStep(utf8), (t: TxParts) => TxInRange(utf8, t))
  {
    hide TxField, TxInRange;
    forall t, tag, s | TxInRange(utf8, t) && TxStep(utf8)(t, tag, s).Ok?
      ensures TxInRange(utf8, TxStep(utf8)(t, tag, s).value.0)
    {
      TxFieldKept(utf8, t, tag, s);
    }
  }

  lemma {:induction false} ParsedIsEncodable(hash: Hash, utf8: Check, raw: seq<byte>)
    requires AcceptsAscii(utf8)
    ensures var r := Parsed(hash, utf8, raw); r.Ok? ==> Typed(utf8, r.value) && Encodable(r.value)
  {
    hide Fields, TypedContract, EncodableContract, TxStep, RawData;
    TxKept(utf8);
    FieldsKeep(TxStep(utf8), (t: TxParts) => TxInRange(utf8, t), raw, NO_TX);
  }

  /** The whole of `parse`: it gives back a transaction on exactly its own bytes, and on no
      bytes a transaction out of range or in the wrong variant, unless the hash collides on
      the two byte strings compared. */
  lemma {:induction false} ParseIsExact(hash: Hash, utf8: Check, raw: seq<byte>, tx: TronTx)
    requires NoCollision(hash, RawData(tx), raw) && AcceptsAscii(utf8) && |raw| < U64
    ensures Parsed(hash, utf8, raw) == Ok(tx) <==> Typed(utf8, tx) && Encodable(tx) && raw == RawData(tx)
  {
    hide Typed, Encodable, RawData, Fields;
    if Typed(utf8, tx) && Encodable(tx) && raw == RawData(tx) {
      ParseInvertsRawData(hash, utf8, tx);
    }
    if Parsed(hash, utf8, raw) == Ok(tx) {
      ParsedIsEncodable(hash, utf8, raw);
    }
  }

  /** Different transactions are signed as different bytes. */
  lemma {:induction false} RawDataIsInjective(utf8: Check, tx: TronTx, other: TronTx)
    requires AcceptsAscii(utf8) && |RawData(tx)| < U64
    requires Typed(utf8, tx) && Encodable(tx) && Typed(utf8, other) && Encodable(other)
    requires RawData(tx) == RawData(other)
    ensures tx == other
  {
    hide Typed, Encodable, RawData, Parsed;
    ParseInvertsRawData(b => b, utf8, tx);
    ParseInvertsRawData(b => b, utf8, other);
  }
}
