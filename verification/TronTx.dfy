/** Tron transactions, src/trontx.rs: protobuf messages nested three deep, written
    canonically and parsed back. SHA-256 is the parameter `hash`, the check that a type URL
    is UTF-8 the parameter `utf8`. */
module TronTx {
  import opened Options
  import opened Bytes
  import opened Protobuf

  type Hash = seq<byte> -> seq<byte>
  type Check = seq<byte> -> bool

  datatype TronContract =
    | Transfer(owner: seq<byte>, to: seq<byte>, amount: nat)
    | TransferAsset(assetName: seq<byte>, owner: seq<byte>, to: seq<byte>, amount: nat)
    | TriggerSmartContract(owner: seq<byte>, contract: seq<byte>, callValue: nat, data: seq<byte>,
                           callTokenValue: nat, tokenId: nat)
    | Other(otherType: nat, otherUrl: seq<byte>, parameter: seq<byte>)

  datatype TronTx = TronTx(refBlockBytes: seq<byte>, refBlockHash: seq<byte>, expiration: nat, timestamp: nat,
                           feeLimit: nat, memo: seq<byte>, contract: TronContract, permissionId: nat)

  const TRANSFER: nat := 1
  const TRANSFER_ASSET: nat := 2
  const TRIGGER: nat := 31

  /** An ASCII literal, byte by byte. */
  function Ascii(s: string): (b: seq<byte>)
    ensures |b| == |s| && IsAscii(b)
  {
    seq(|s|, i requires 0 <= i < |s| => (s[i] as int % 128) as byte)
  }

  predicate IsAscii(b: seq<byte>) {
    forall i :: 0 <= i < |b| ==> b[i] < 128
  }

  function TransferUrl(): (b: seq<byte>)
    ensures |b| == 45 && IsAscii(b)
  {
    Ascii("type.googleapis.com/protocol.TransferContract")
  }

  function TransferAssetUrl(): (b: seq<byte>)
    ensures |b| == 50 && IsAscii(b)
  {
    Ascii("type.googleapis.com/protocol.TransferAssetContract")
  }

  function TriggerUrl(): (b: seq<byte>)
    ensures |b| == 49 && IsAscii(b)
  {
    Ascii("type.googleapis.com/protocol.TriggerSmartContract")
  }

  function ContractType(c: TronContract): nat {
    match c
    case Transfer(_, _, _) => TRANSFER
    case TransferAsset(_, _, _, _) => TRANSFER_ASSET
    case TriggerSmartContract(_, _, _, _, _, _) => TRIGGER
    case Other(otherType, _, _) => otherType
  }

  function TypeUrl(c: TronContract): seq<byte> {
    match c
    case Transfer(_, _, _) => TransferUrl()
    case TransferAsset(_, _, _, _) => TransferAssetUrl()
    case TriggerSmartContract(_, _, _, _, _, _) => TriggerUrl()
    case Other(_, otherUrl, _) => otherUrl
  }

  /** The contract type a known type URL names. */
  function ExpectedType(url: seq<byte>): Option<nat> {
    if url == TransferUrl() then Some(TRANSFER)
    else if url == TransferAssetUrl() then Some(TRANSFER_ASSET)
    else if url == TriggerUrl() then Some(TRIGGER)
    else None
  }

  // ----- writing -----

  /** `write_parameter`: the message inside the `Any`. */
  function Parameter(c: TronContract): seq<byte> {
    match c
    case Transfer(owner, to, amount) =>
      PutBytes(1, owner) + (PutBytes(2, to) + PutUint(3, amount))
    case TransferAsset(assetName, owner, to, amount) =>
      PutBytes(1, assetName) + (PutBytes(2, owner) + (PutBytes(3, to) + PutUint(4, amount)))
    case TriggerSmartContract(owner, contract, callValue, data, callTokenValue, tokenId) =>
      PutBytes(1, owner) + (PutBytes(2, contract) + (PutUint(3, callValue)
      + (PutBytes(4, data) + (PutUint(5, callTokenValue) + PutUint(6, tokenId)))))
    case Other(_, _, parameter) => parameter
  }

  /** The `google.protobuf.Any` around the parameter. */
  function AnyMessage(url: seq<byte>, parameter: seq<byte>): seq<byte> {
    PutBytes(1, url) + PutBytes(2, parameter)
  }

  /** The `Transaction.Contract` message. */
  function ContractMessage(c: TronContract, permissionId: nat): seq<byte> {
    PutUint(1, ContractType(c)) + (PutMessage(2, AnyMessage(TypeUrl(c), Parameter(c))) + PutUint(5, permissionId))
  }

  /** `write_raw`: the bytes that are hashed and signed. */
  function RawData(tx: TronTx): seq<byte> {
    PutBytes(1, tx.refBlockBytes) + (PutBytes(4, tx.refBlockHash) + (PutUint(8, tx.expiration)
    + (PutBytes(10, tx.memo) + (PutMessage(11, ContractMessage(tx.contract, tx.permissionId))
    + (PutUint(14, tx.timestamp) + PutUint(18, tx.feeLimit))))))
  }

  // ----- reading -----

  /** A field's value put where it belongs. */
  function Stored<A, S>(read: Result<(A, seq<byte>)>, place: A -> S): (r: Result<(S, seq<byte>)>)
    ensures r.Ok? <==> read.Ok?
    ensures r.Ok? ==> r.value == (place(read.value.0), read.value.1)
    ensures r.Err? ==> r.error == read.error
  {
    if read.Err? then Err(read.error) else Ok((place(read.value.0), read.value.1))
  }

  datatype Parts = Parts(owner: Option<seq<byte>>, to: Option<seq<byte>>, amount: nat, callValue: nat,
                         callTokenValue: nat, tokenId: nat, assetName: seq<byte>, data: seq<byte>)

  const NO_PARTS: Parts := Parts(None, None, 0, 0, 0, 0, [], [])

  /** One field of a known contract, whose type is `kind`. */
  function PartField(kind: nat, p: Parts, tag: Tag, s: seq<byte>): (r: Result<(Parts, seq<byte>)>)
    ensures r.Ok? ==> |r.value.1| <= |s|
  {
    var (field, wire) := (tag.field, tag.wire);
    if (kind == TRANSFER && field == 1) || (kind == TRANSFER_ASSET && field == 2) then
      Stored(ReadAddress(s, wire), (b: seq<byte>) => p.(owner := Some(b)))
    else if (kind == TRANSFER && field == 2) || (kind == TRANSFER_ASSET && field == 3) then
      Stored(ReadAddress(s, wire), (b: seq<byte>) => p.(to := Some(b)))
    else if (kind == TRANSFER && field == 3) || (kind == TRANSFER_ASSET && field == 4) then
      Stored(ReadInt(s, wire, I64_MAX), (v: nat) => p.(amount := v))
    else if kind == TRANSFER_ASSET && field == 1 then
      Stored(ReadBytes(s, wire), (b: seq<byte>) => p.(assetName := b))
    else if kind == TRIGGER && field == 1 then
      Stored(ReadAddress(s, wire), (b: seq<byte>) => p.(owner := Some(b)))
    else if kind == TRIGGER && field == 2 then
      Stored(ReadAddress(s, wire), (b: seq<byte>) => p.(to := Some(b)))
    else if kind == TRIGGER && field == 3 then
      Stored(ReadInt(s, wire, I64_MAX), (v: nat) => p.(callValue := v))
    else if kind == TRIGGER && field == 4 then
      Stored(ReadBytes(s, wire), (b: seq<byte>) => p.(data := b))
    else if kind == TRIGGER && field == 5 then
      Stored(ReadInt(s, wire, I64_MAX), (v: nat) => p.(callTokenValue := v))
    else if kind == TRIGGER && field == 6 then
      Stored(ReadInt(s, wire, I64_MAX), (v: nat) => p.(tokenId := v))
    else Err(UnsupportedField)
  }

  function PartStep(kind: nat): (step: Step<Parts>)
    ensures Advances(step)
  {
    (p, tag, s) => PartField(kind, p, tag, s)
  }

  function Assembled(kind: nat, p: Parts): Result<TronContract> {
    if p.owner.None? then Err(InvalidData)
    else if p.to.None? then Err(InvalidData)
    else if kind == TRANSFER then Ok(Transfer(p.owner.value, p.to.value, p.amount))
    else if kind == TRANSFER_ASSET then Ok(TransferAsset(p.assetName, p.owner.value, p.to.value, p.amount))
    else Ok(TriggerSmartContract(p.owner.value, p.to.value, p.callValue, p.data, p.callTokenValue, p.tokenId))
  }

  /** `TronContract::parse`. */
  ghost function Interpreted(contractType: nat, url: seq<byte>, parameter: seq<byte>): Result<TronContract> {
    match ExpectedType(url)
    case None => Ok(Other(contractType, url, parameter))
    case Some(kind) =>
      if contractType != kind then Err(InvalidData)
      else
        var parts := Fields(PartStep(kind), parameter, NO_PARTS);
        if parts.Err? then Err(parts.error) else Assembled(kind, parts.value)
  }

  method Interpret(contractType: nat, url: seq<byte>, parameter: seq<byte>) returns (r: Result<TronContract>)
    ensures r == Interpreted(contractType, url, parameter)
  {
    match ExpectedType(url) {
      case None => {
        r := Ok(Other(contractType, url, parameter));
      }
      case Some(kind) => {
        if contractType != kind {
          return Err(InvalidData);
        }
        var parts := ReadFields(PartStep(kind), parameter, NO_PARTS);
        r := if parts.Err? then Err(parts.error) else Assembled(kind, parts.value);
      }
    }
  }

  datatype AnyParts = AnyParts(url: seq<byte>, parameter: seq<byte>)

  function AnyField(utf8: Check, a: AnyParts, tag: Tag, s: seq<byte>): (r: Result<(AnyParts, seq<byte>)>)
    ensures r.Ok? ==> |r.value.1| <= |s|
  {
    if tag.field == 1 then
      var b := ReadBytes(s, tag.wire);
      if b.Ok? && !utf8(b.value.0) then Err(InvalidData)
      else Stored(b, (b: seq<byte>) => a.(url := b))
    else if tag.field == 2 then Stored(ReadBytes(s, tag.wire), (b: seq<byte>) => a.(parameter := b))
    else Err(UnsupportedField)
  }

  function AnyStep(utf8: Check): (step: Step<AnyParts>)
    ensures Advances(step)
  {
    (a, tag, s) => AnyField(utf8, a, tag, s)
  }

  datatype ContractParts = ContractParts(contractType: nat, any: Option<seq<byte>>, permissionId: nat)

  function ContractField(c: ContractParts, tag: Tag, s: seq<byte>): (r: Result<(ContractParts, seq<byte>)>)
    ensures r.Ok? ==> |r.value.1| <= |s|
  {
    if tag.field == 1 then Stored(ReadInt(s, tag.wire, I32_MAX), (v: nat) => c.(contractType := v))
    else if tag.field == 2 then Stored(ReadBytes(s, tag.wire), (b: seq<byte>) => c.(any := Some(b)))
    else if tag.field == 5 then Stored(ReadInt(s, tag.wire, I32_MAX), (v: nat) => c.(permissionId := v))
    else Err(UnsupportedField)
  }

  function ContractStep(): (step: Step<ContractParts>)
    ensures Advances(step)
  {
    (c, tag, s) => ContractField(c, tag, s)
  }

  /** What `parse_contract` makes of the two messages it has read. */
  ghost function FromAny(utf8: Check, c: ContractParts): Result<(TronContract, nat)> {
    if c.any.None? then Err(InvalidData)
    else
      var a := Fields(AnyStep(utf8), c.any.value, AnyParts([], []));
      if a.Err? then Err(a.error)
      else
        var contract := Interpreted(c.contractType, a.value.url, a.value.parameter);
        if contract.Err? then Err(contract.error) else Ok((contract.value, c.permissionId))
  }

  /** `parse_contract`. */
  ghost function ContractOf(utf8: Check, data: seq<byte>): Result<(TronContract, nat)> {
    var c := Fields(ContractStep(), data, ContractParts(0, None, 0));
    if c.Err? then Err(c.error) else FromAny(utf8, c.value)
  }

  method ParseContract(utf8: Check, data: seq<byte>) returns (r: Result<(TronContract, nat)>)
    ensures r == ContractOf(utf8, data)
  {
    var c := ReadFields(ContractStep(), data, ContractParts(0, None, 0));
    if c.Err? {
      return Err(c.error);
    }
    if c.value.any.None? {
      return Err(InvalidData);
    }
    var a := ReadFields(AnyStep(utf8), c.value.any.value, AnyParts([], []));
    if a.Err? {
      return Err(a.error);
    }
    var contract := Interpret(c.value.contractType, a.value.url, a.value.parameter);
    r := if contract.Err? then Err(contract.error) else Ok((contract.value, c.value.permissionId));
  }

  datatype TxParts = TxParts(refBlockBytes: Option<seq<byte>>, refBlockHash: Option<seq<byte>>, expiration: nat,
                             timestamp: nat, feeLimit: nat, memo: seq<byte>, contract: Option<(TronContract, nat)>)

  const NO_TX: TxParts := TxParts(None, None, 0, 0, 0, [], None)

  /** A contract field, of which there may be one. */
  ghost function ContractIn(utf8: Check, t: TxParts, tag: Tag, s: seq<byte>): (r: Result<(TxParts, seq<byte>)>)
    ensures r.Ok? ==> |r.value.1| <= |s|
  {
    if t.contract.Some? then Err(InvalidData)
    else
      var b := ReadBytes(s, tag.wire);
      if b.Err? then Err(b.error)
      else
        var c := ContractOf(utf8, b.value.0);
        if c.Err? then Err(c.error) else Ok((t.(contract := Some(c.value)), b.value.1))
  }

  /** Every other field of `raw_data`. */
  function PlainField(t: TxParts, tag: Tag, s: seq<byte>): (r: Result<(TxParts, seq<byte>)>)
    ensures r.Ok? ==> |r.value.1| <= |s|
  {
    var (field, wire) := (tag.field, tag.wire);
    if field == 1 then Stored(ReadBytes(s, wire), (b: seq<byte>) => t.(refBlockBytes := Some(b)))
    else if field == 4 then Stored(ReadBytes(s, wire), (b: seq<byte>) => t.(refBlockHash := Some(b)))
    else if field == 8 then Stored(ReadInt(s, wire, I64_MAX), (v: nat) => t.(expiration := v))
    else if field == 10 then Stored(ReadBytes(s, wire), (b: seq<byte>) => t.(memo := b))
    else if field == 14 then Stored(ReadInt(s, wire, I64_MAX), (v: nat) => t.(timestamp := v))
    else if field == 18 then Stored(ReadInt(s, wire, I64_MAX), (v: nat) => t.(feeLimit := v))
    else Err(UnsupportedField)
  }

  ghost function TxField(utf8: Check, t: TxParts, tag: Tag, s: seq<byte>): (r: Result<(TxParts, seq<byte>)>)
    ensures r.Ok? ==> |r.value.1| <= |s|
  {
    if tag.field == 11 then ContractIn(utf8, t, tag, s) else PlainField(t, tag, s)
  }

  ghost function TxStep(utf8: Check): (step: Step<TxParts>)
    ensures Advances(step)
  {
    (t, tag, s) => TxField(utf8, t, tag, s)
  }

  /** The transaction of the fields read, if they are all there. */
  function Gathered(t: TxParts): Result<TronTx> {
    if t.contract.None? then Err(InvalidData)
    else if t.refBlockBytes.None? then Err(InvalidData)
    else if |t.refBlockBytes.value| != 2 then Err(InvalidLength)
    else if t.refBlockHash.None? then Err(InvalidData)
    else if |t.refBlockHash.value| != 8 then Err(InvalidLength)
    else
      Ok(TronTx(t.refBlockBytes.value, t.refBlockHash.value, t.expiration, t.timestamp, t.feeLimit, t.memo,
                t.contract.value.0, t.contract.value.1))
  }

  /** The check that ends `parse`: the transaction must have the hash of its source. */
  function Confirmed(hash: Hash, raw: seq<byte>, tx: Result<TronTx>): Result<TronTx> {
    if tx.Ok? && hash(RawData(tx.value)) != hash(raw) then Err(NonCanonical) else tx
  }

  /** `TronTx::parse`. */
  ghost function Parsed(hash: Hash, utf8: Check, raw: seq<byte>): Result<TronTx> {
    var t := Fields(TxStep(utf8), raw, NO_TX);
    if t.Err? then Err(t.error) else Confirmed(hash, raw, Gathered(t.value))
  }

  method Parse(hash: Hash, utf8: Check, raw: seq<byte>) returns (r: Result<TronTx>)
    ensures r == Parsed(hash, utf8, raw)
  {
    var rest, t := raw, NO_TX;
    while rest != []
      invariant Fields(TxStep(utf8), rest, t) == Fields(TxStep(utf8), raw, NO_TX)
      decreases |rest|
    {
      var tag := ReadTag(rest);
      if tag.Err? {
        return Err(tag.error);
      }
      var next;
      if tag.value.0.field != 11 {
        next := PlainField(t, tag.value.0, tag.value.1);
      } else if t.contract.Some? {
        next := Err(InvalidData);
      } else {
        var b := ReadBytes(tag.value.1, tag.value.0.wire);
        if b.Err? {
          next := Err(b.error);
        } else {
          var c := ParseContract(utf8, b.value.0);
          next := if c.Err? then Err(c.error) else Ok((t.(contract := Some(c.value)), b.value.1));
        }
      }
      assert next == TxStep(utf8)(t, tag.value.0, tag.value.1);
      if next.Err? {
        return Err(next.error);
      }
      t, rest := next.value.0, next.value.1;
    }
    r := Confirmed(hash, raw, Gathered(t));
  }

  // ----- the signed transaction -----

  function Signatures(sigs: seq<seq<byte>>): seq<byte> {
    if sigs == [] then [] else Signatures(sigs[..|sigs| - 1]) + PutBytes(2, sigs[|sigs| - 1])
  }

  /** The `Transaction` message: the raw data and its signatures. */
  function Transaction(raw: seq<byte>, sigs: seq<seq<byte>>): seq<byte> {
    PutMessage(1, raw) + Signatures(sigs)
  }

  /** `transaction_to_slice`, and `encode_signed_to_slice` on a transaction's own raw data. */
  method EncodeSigned(raw: seq<byte>, sigs: seq<seq<byte>>) returns (s: seq<byte>)
    ensures s == Transaction(raw, sigs)
  {
    s := PutMessage(1, raw);
    for i := 0 to |sigs|
      invariant s == Transaction(raw, sigs[..i])
    {
      assert sigs[..i + 1][..i] == sigs[..i];
      s := s + PutBytes(2, sigs[i]);
    }
    assert sigs[..|sigs|] == sigs;
  }

  /** `transaction_len`. */
  function TransactionLen(rawLen: nat, signatures: nat): nat {
    1 + VarintLen(rawLen) + rawLen + signatures * (2 + 65)
  }

  lemma {:induction false} SignaturesLen(sigs: seq<seq<byte>>)
    requires forall i :: 0 <= i < |sigs| ==> |sigs[i]| == 65
    ensures |Signatures(sigs)| == |sigs| * 67
  {
    if sigs != [] {
      var front, sig := sigs[..|sigs| - 1], sigs[|sigs| - 1];
      SignaturesLen(front);
      assert |sig| == 65;
      assert |Varint(18)| == 1 && |Varint(65)| == 1;
    }
  }

  /** The length told to the caller is the number of bytes written. */
  lemma {:induction false} TransactionLenIsExact(raw: seq<byte>, sigs: seq<seq<byte>>)
    requires forall i :: 0 <= i < |sigs| ==> |sigs[i]| == 65
    ensures |Transaction(raw, sigs)| == TransactionLen(|raw|, |sigs|)
  {
    SignaturesLen(sigs);
    assert |Varint(10)| == 1;
  }
}
