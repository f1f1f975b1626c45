/** Tron transactions of src/trontx.rs by their bytes: every tag, type number and type URL
    written out, in the order the node writes them. */
module TronLayout {
  import opened Options
  import opened Bytes
  import opened Protobuf
  import opened TronTx

  // ----- varints -----

  /** Seven bits a byte, low bits first. */
  ghost function SevenBits(s: seq<byte>): nat {
    if s == [] then 0 else s[0] as nat % 128 + 128 * SevenBits(s[1..])
  }

  lemma {:induction false} NextSevenBits(b: byte, rest: seq<byte>)
    ensures SevenBits([b] + rest) == b as nat % 128 + 128 * SevenBits(rest)
  {
    assert ([b] + rest)[1..] == rest;
  }

  /** A varint has the high bit on every byte but the last, holds the number in the others, and
      is as short as it can be. */
  lemma {:induction false} VarintByDigits(v: nat)
    ensures var s := Varint(v);
            && s != [] && (forall j :: 0 <= j < |s| - 1 ==> s[j] >= 128) && s[|s| - 1] < 128
            && (v > 0 ==> s[|s| - 1] > 0) && SevenBits(s) == v
  {
    var s := Varint(v);
    if v < 128 {
      assert s == [v as byte] && s[1..] == [];
    } else {
      hide SevenBits;
      VarintByDigits(v / 128);
      NextSevenBits((v % 128 + 128) as byte, Varint(v / 128));
      assert s[1..] == Varint(v / 128);
      assert forall j :: 1 <= j < |s| ==> s[j] == s[1..][j - 1];
    }
  }

  // ----- fields -----

  /** An integer field after its tag, left out if zero. */
  ghost function Number(tag: seq<byte>, v: nat): seq<byte> {
    if v == 0 then [] else tag + Varint(v)
  }

  /** A byte string after its tag and length. */
  ghost function Whole(tag: byte, b: seq<byte>): seq<byte> {
    [tag] + (Varint(|b|) + b)
  }

  /** The same, left out if empty. */
  ghost function Blob(tag: byte, b: seq<byte>): seq<byte> {
    if b == [] then [] else Whole(tag, b)
  }

  lemma {:induction false} SmallTag(field: nat, wire: nat)
    requires field * 8 + wire < 128
    ensures PutTag(field, wire) == [(field * 8 + wire) as byte]
  {
  }

  lemma {:induction false} NumberField(field: nat, v: nat)
    requires field < 16
    ensures PutUint(field, v) == Number([(8 * field) as byte], v)
  {
    hide Varint;
    SmallTag(field, 0);
  }

  lemma {:induction false} MessageField(field: nat, b: seq<byte>)
    requires field < 15
    ensures PutMessage(field, b) == Whole((8 * field + 2) as byte, b) && PutBytes(field, b) == Blob((8 * field + 2) as byte, b)
  {
    hide Varint;
    SmallTag(field, 2);
  }

  // ----- type numbers and URLs -----

  /** The characters of `s`, byte by byte: seven bits hold each. */
  ghost predicate Reads(b: seq<byte>, s: string) {
    |b| == |s| && forall i :: 0 <= i < |b| ==> b[i] as int == s[i] as int % 128
  }

  lemma {:induction false} AsciiReads(s: string)
    ensures Reads(Ascii(s), s)
  {
  }

  /** The number and the URL each known contract goes by. */
  lemma {:induction false} ContractNames(c: TronContract)
    ensures c.Transfer? ==> ContractType(c) == 1 && Reads(TypeUrl(c), "type.googleapis.com/protocol.TransferContract")
    ensures c.TransferAsset? ==> ContractType(c) == 2 && Reads(TypeUrl(c), "type.googleapis.com/protocol.TransferAssetContract")
    ensures c.TriggerSmartContract? ==> ContractType(c) == 31 && Reads(TypeUrl(c), "type.googleapis.com/protocol.TriggerSmartContract")
  {
    hide Ascii, Reads;
    AsciiReads("type.googleapis.com/protocol.TransferContract");
    AsciiReads("type.googleapis.com/protocol.TransferAssetContract");
    AsciiReads("type.googleapis.com/protocol.TriggerSmartContract");
  }

  // ----- messages -----

  /** The parameter of each known contract: addresses of 21 bytes, then what it moves. */
  lemma {:induction false} ParameterByFields(c: TronContract)
    ensures c.Transfer? ==> Parameter(c) == Blob(0x0a, c.owner) + (Blob(0x12, c.to) + Number([0x18], c.amount))
    ensures c.TransferAsset? ==>
              Parameter(c) == Blob(0x0a, c.assetName) + (Blob(0x12, c.owner) + (Blob(0x1a, c.to) + Number([0x20], c.amount)))
    ensures c.TriggerSmartContract? ==>
              Parameter(c) == Blob(0x0a, c.owner) + (Blob(0x12, c.contract) + (Number([0x18], c.callValue)
                                + (Blob(0x22, c.data) + (Number([0x28], c.callTokenValue) + Number([0x30], c.tokenId)))))
  {
    hide Blob, Number, PutBytes, PutUint, Whole, PutMessage;
    match c
    case Transfer(owner, to, amount) =>
      MessageField(1, owner);
      MessageField(2, to);
      NumberField(3, amount);
    case TransferAsset(assetName, owner, to, amount) =>
      MessageField(1, assetName);
      MessageField(2, owner);
      MessageField(3, to);
      NumberField(4, amount);
    case TriggerSmartContract(owner, contract, callValue, data, callTokenValue, tokenId) =>
      MessageField(1, owner);
      MessageField(2, contract);
      NumberField(3, callValue);
      MessageField(4, data);
      NumberField(5, callTokenValue);
      NumberField(6, tokenId);
    case Other(_, _, _) =>
  }

  /** The contract: its number, an `Any` of its URL and parameter, and the permission it is
      signed under. */
  lemma {:induction false} ContractByFields(c: TronContract, permissionId: nat)
    ensures ContractMessage(c, permissionId)
         == Number([0x08], ContractType(c))
            + (Whole(0x12, Blob(0x0a, TypeUrl(c)) + Blob(0x12, Parameter(c))) + Number([0x28], permissionId))
  {
    hide Blob, Number, PutBytes, PutUint, Whole, PutMessage, ContractType, TypeUrl, Parameter;
    NumberField(1, ContractType(c));
    MessageField(1, TypeUrl(c));
    MessageField(2, Parameter(c));
    MessageField(2, AnyMessage(TypeUrl(c), Parameter(c)));
    NumberField(5, permissionId);
  }

  /** What is hashed and signed: reference block, expiry, memo, contract, time and fee limit. */
  lemma {:induction false} RawDataByFields(tx: TronTx)
    ensures RawData(tx)
         == Blob(0x0a, tx.refBlockBytes) + (Blob(0x22, tx.refBlockHash) + (Number([0x40], tx.expiration)
            + (Blob(0x52, tx.memo) + (Whole(0x5a, ContractMessage(tx.contract, tx.permissionId))
            + (Number([0x70], tx.timestamp) + Number([0x90, 0x01], tx.feeLimit))))))
  {
    hide Blob, Number, PutBytes, PutUint, Whole, PutMessage, ContractMessage;
    MessageField(1, tx.refBlockBytes);
    MessageField(4, tx.refBlockHash);
    NumberField(8, tx.expiration);
    MessageField(10, tx.memo);
    MessageField(11, ContractMessage(tx.contract, tx.permissionId));
    NumberField(14, tx.timestamp);
    FeeField(tx.feeLimit);
  }

  lemma {:induction false} FeeField(v: nat)
    ensures PutUint(18, v) == Number([0x90, 0x01], v)
  {
    assert Varint(144) == [0x90] + Varint(1) && Varint(1) == [1];
    assert PutTag(18, 0) == [0x90, 0x01];
  }

  /** The message that nodes pass on: the raw data, and each signature in its turn. */
  lemma {:induction false} TransactionByFields(raw: seq<byte>, sigs: seq<seq<byte>>, next: seq<byte>)
    ensures Transaction(raw, []) == Whole(0x0a, raw)
    ensures next != [] ==> Transaction(raw, sigs + [next]) == Transaction(raw, sigs) + Whole(0x12, next)
  {
    hide Whole, PutMessage, Blob;
    MessageField(1, raw);
    BlobIs(0x12, next);
    MessageField(2, next);
    var all := sigs + [next];
    assert all[..|all| - 1] == sigs;
    assert Whole(0x0a, raw) + [] == Whole(0x0a, raw);
    Regroup(PutMessage(1, raw), Signatures(sigs), PutBytes(2, next));
  }

  lemma {:induction false} BlobIs(tag: byte, b: seq<byte>)
    ensures b != [] ==> Blob(tag, b) == Whole(tag, b)
  {
  }
}
