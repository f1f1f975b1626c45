/** What a signature commits to: the BIP-341 and unified signature hashes of
    src/btcraw.rs, as the byte strings that are hashed. */
module Sighash {
  import opened Options
  import opened Bytes
  import R = Radix

  type Hash = seq<byte>

  /** SHA-256, left open. */
  type Sha = seq<byte> -> Hash

  datatype TxIn = TxIn(txid: Hash, vout: nat, sequence: nat)

  datatype TxOut = TxOut(amount: nat, script: seq<byte>)

  datatype Tx = Tx(version: nat, locktime: nat, inputs: seq<TxIn>, outputs: seq<TxOut>)

  datatype Leaf = Leaf(hash: Hash, codesepPos: nat)

  datatype Spend = Legacy(code: seq<byte>) | SegwitV0(code: seq<byte>) | Taproot(annex: Option<seq<byte>>, leaf: Option<Leaf>)

  datatype Error = UnsupportedSighash | InputIndex | InvalidData | OutputIndex

  datatype Result<+T> = Ok(value: T) | Err(error: Error)

  // ----- bytes written -----

  ghost predicate InOk(i: TxIn) {
    |i.txid| == 32 && i.vout < U32 && i.sequence < U32
  }

  ghost predicate OutOk(o: TxOut) {
    o.amount < U64 && |o.script| < U64
  }

  function PutOutpoint(i: TxIn): seq<byte> {
    R.Rev(i.txid) + Le(i.vout, 4)
  }

  function PutScript(s: seq<byte>): seq<byte> {
    CompactSize(|s|) + s
  }

  function PutOutput(o: TxOut): seq<byte> {
    Le(o.amount, 8) + PutScript(o.script)
  }

  function Outpoints(ins: seq<TxIn>): seq<byte> {
    if ins == [] then [] else PutOutpoint(ins[0]) + Outpoints(ins[1..])
  }

  function Sequences(ins: seq<TxIn>): seq<byte> {
    if ins == [] then [] else Le(ins[0].sequence, 4) + Sequences(ins[1..])
  }

  function Amounts(outs: seq<TxOut>): seq<byte> {
    if outs == [] then [] else Le(outs[0].amount, 8) + Amounts(outs[1..])
  }

  function Scripts(outs: seq<TxOut>): seq<byte> {
    if outs == [] then [] else PutScript(outs[0].script) + Scripts(outs[1..])
  }

  function Outputs(outs: seq<TxOut>): seq<byte> {
    if outs == [] then [] else PutOutput(outs[0]) + Outputs(outs[1..])
  }

  // ----- what is committed to -----

  /** The inputs: all of them, with the outputs they spend and which one is signed, or
      that one alone. */
  datatype Ins = AllIns(inputs: seq<TxIn>, prevouts: seq<TxOut>, index: nat) | OneIn(input: TxIn, prevout: TxOut)

  datatype Outs = AllOuts(outputs: seq<TxOut>) | NoOuts | OneOut(output: TxOut)

  datatype Commitment = Commitment(hashType: byte, version: nat, locktime: nat, ins: Ins, outs: Outs, spend: Spend)

  predicate AnyoneCanPay(hashType: byte) {
    hashType >= 0x80
  }

  /** Which outputs are signed. BIP-341 reads two bits of the hash type, and the
      unified hash five. */
  function OutputMode(hashType: byte, unified: bool): byte {
    if unified then hashType % 32 else hashType % 4
  }

  ghost predicate SpendOk(s: Spend) {
    match s
    case Legacy(code) => |code| < U64
    case SegwitV0(code) => |code| < U64
    case Taproot(annex, leaf) =>
      (annex.Some? ==> |annex.value| < U64) && (leaf.Some? ==> |leaf.value.hash| == 32 && leaf.value.codesepPos < U32)
  }

  ghost predicate CommitmentOk(c: Commitment, unified: bool) {
    && c.version < U32 && c.locktime < U32 && SpendOk(c.spend)
    && (match c.ins
        case AllIns(inputs, prevouts, index) =>
          && !AnyoneCanPay(c.hashType) && index < U32 && |inputs| == |prevouts|
          && (forall i :: 0 <= i < |inputs| ==> InOk(inputs[i])) && (forall i :: 0 <= i < |prevouts| ==> OutOk(prevouts[i]))
        case OneIn(input, prevout) => AnyoneCanPay(c.hashType) && InOk(input) && OutOk(prevout))
    && (match c.outs
        case AllOuts(outputs) =>
          && OutputMode(c.hashType, unified) != 2 && OutputMode(c.hashType, unified) != 3
          && forall i :: 0 <= i < |outputs| ==> OutOk(outputs[i])
        case NoOuts => OutputMode(c.hashType, unified) == 2
        case OneOut(output) => OutputMode(c.hashType, unified) == 3 && OutOk(output))
    && (!unified ==> c.spend.Taproot?)
  }

  // ----- the strings hashed -----

  function InsHashes(sha: Sha, ins: Ins): seq<byte> {
    match ins
    case AllIns(inputs, prevouts, _) =>
      sha(Outpoints(inputs)) + (sha(Amounts(prevouts)) + (sha(Scripts(prevouts)) + sha(Sequences(inputs))))
    case OneIn(_, _) => []
  }

  function OutsHash(sha: Sha, outs: Outs): seq<byte> {
    if outs.AllOuts? then sha(Outputs(outs.outputs)) else []
  }

  function InsTail(ins: Ins): seq<byte> {
    match ins
    case AllIns(_, _, index) => Le(index, 4)
    case OneIn(input, prevout) => PutOutpoint(input) + (PutOutput(prevout) + Le(input.sequence, 4))
  }

  function OneHash(sha: Sha, outs: Outs): seq<byte> {
    if outs.OneOut? then sha(PutOutput(outs.output)) else []
  }

  function LeafData(spend: Spend): seq<byte> {
    if spend.Taproot? && spend.leaf.Some? then spend.leaf.value.hash + ([0] + Le(spend.leaf.value.codesepPos, 4)) else []
  }

  function AnnexHash(sha: Sha, annex: Option<seq<byte>>): seq<byte> {
    if annex.Some? then sha(PutScript(annex.value)) else []
  }

  /** `script_type`. */
  function ScriptType(spend: Spend): byte {
    match spend
    case Legacy(_) => 0
    case SegwitV0(_) => 1
    case Taproot(_, leaf) => if leaf.Some? then 3 else 2
  }

  function SpendData(sha: Sha, spend: Spend): seq<byte> {
    match spend
    case Legacy(code) => PutScript(code)
    case SegwitV0(code) => PutScript(code)
    case Taproot(annex, _) => [if annex.Some? then 1 else 0] + AnnexHash(sha, annex)
  }

  /** What `unified_sighash_of` hashes, after its tag. */
  function UnifiedPreimage(sha: Sha, c: Commitment): seq<byte> {
    [0, c.hashType] + (Le(c.version, 4) + (Le(c.locktime, 4) + ([0] + (InsHashes(sha, c.ins) + (OutsHash(sha, c.outs)
      + ([ScriptType(c.spend)] + (InsTail(c.ins) + (SpendData(sha, c.spend) + (OneHash(sha, c.outs) + LeafData(c.spend))))))))))
  }

  function SpendType(spend: Spend): byte
    requires spend.Taproot?
  {
    (if spend.leaf.Some? then 2 else 0) + if spend.annex.Some? then 1 else 0
  }

  /** What `taproot_sighash_of` hashes, after its tag. */
  function TaprootPreimage(sha: Sha, c: Commitment): seq<byte>
    requires c.spend.Taproot?
  {
    [0, c.hashType] + (Le(c.version, 4) + (Le(c.locktime, 4) + (InsHashes(sha, c.ins) + (OutsHash(sha, c.outs)
      + ([SpendType(c.spend)] + (InsTail(c.ins) + (AnnexHash(sha, c.spend.annex) + (OneHash(sha, c.outs) + LeafData(c.spend)))))))))
  }

  // ----- pieces come apart -----

  lemma {:induction false} Peel(a: seq<byte>, r: seq<byte>, b: seq<byte>, s: seq<byte>)
    requires a + r == b + s && |a| == |b|
    ensures a == b && r == s
  {
    assert a == (a + r)[..|a|] && b == (b + s)[..|a|];
    assert r == (a + r)[|a|..] && s == (b + s)[|a|..];
  }

  lemma {:induction false} LeTells(v: nat, w: nat, n: nat)
    requires v < Span(n) && w < Span(n) && Le(v, n) == Le(w, n)
    ensures v == w
  {
    hide Le, LeValue, Span;
    LeReadsBack(v, n);
    LeReadsBack(w, n);
  }

  lemma {:induction false} ScriptSeparates(a: seq<byte>, r: seq<byte>, b: seq<byte>, s: seq<byte>)
    requires |a| < U64 && |b| < U64 && PutScript(a) + r == PutScript(b) + s
    ensures a == b && r == s
  {
    hide CompactSize;
    assert PutScript(a) + r == CompactSize(|a|) + (a + r) && PutScript(b) + s == CompactSize(|b|) + (b + s);
    CompactSizeSeparates(|a|, |b|, a + r, b + s);
    Peel(a, r, b, s);
  }

  lemma {:induction false} OutputSeparates(a: TxOut, r: seq<byte>, b: TxOut, s: seq<byte>)
    requires OutOk(a) && OutOk(b) && PutOutput(a) + r == PutOutput(b) + s
    ensures a == b && r == s
  {
    hide PutScript, Le, Span;
    var x, y := PutScript(a.script) + r, PutScript(b.script) + s;
    assert PutOutput(a) + r == Le(a.amount, 8) + x && PutOutput(b) + s == Le(b.amount, 8) + y;
    Peel(Le(a.amount, 8), x, Le(b.amount, 8), y);
    Spans();
    LeTells(a.amount, b.amount, 8);
    ScriptSeparates(a.script, r, b.script, s);
  }

  lemma {:induction false} OutpointTells(a: TxIn, b: TxIn)
    requires InOk(a) && InOk(b) && PutOutpoint(a) == PutOutpoint(b)
    ensures a.txid == b.txid && a.vout == b.vout
  {
    hide R.Rev, Le, Span;
    Peel(R.Rev(a.txid), Le(a.vout, 4), R.Rev(b.txid), Le(b.vout, 4));
    Spans();
    LeTells(a.vout, b.vout, 4);
    R.RevTwice(a.txid);
    R.RevTwice(b.txid);
  }

  lemma {:induction false} OutputsTell(a: seq<TxOut>, b: seq<TxOut>)
    requires (forall i :: 0 <= i < |a| ==> OutOk(a[i])) && (forall i :: 0 <= i < |b| ==> OutOk(b[i]))
    requires Outputs(a) == Outputs(b)
    ensures a == b
  {
    hide PutScript, Le;
    if a != [] && b != [] {
      OutputSeparates(a[0], Outputs(a[1..]), b[0], Outputs(b[1..]));
      OutputsTell(a[1..], b[1..]);
      assert a == [a[0]] + a[1..] && b == [b[0]] + b[1..];
    }
  }

  /** The four lists that BIP-341 hashes apart determine the inputs and the outputs
      they spend. */
  lemma {:induction false} InputsTell(a: seq<TxIn>, p: seq<TxOut>, b: seq<TxIn>, q: seq<TxOut>)
    requires |a| == |p| && |b| == |q|
    requires (forall i :: 0 <= i < |a| ==> InOk(a[i])) && (forall i :: 0 <= i < |b| ==> InOk(b[i]))
    requires (forall i :: 0 <= i < |p| ==> OutOk(p[i])) && (forall i :: 0 <= i < |q| ==> OutOk(q[i]))
    requires Outpoints(a) == Outpoints(b) && Sequences(a) == Sequences(b) && Amounts(p) == Amounts(q) && Scripts(p) == Scripts(q)
    ensures a == b && p == q
  {
    hide PutScript, PutOutpoint, Le, Span;
    OutpointsLength(a);
    OutpointsLength(b);
    if a != [] {
      var u, v, x, y := a[0], b[0], p[0], q[0];
      OutpointLength(u);
      OutpointLength(v);
      Peel(PutOutpoint(u), Outpoints(a[1..]), PutOutpoint(v), Outpoints(b[1..]));
      OutpointTells(u, v);
      Spans();
      Peel(Le(u.sequence, 4), Sequences(a[1..]), Le(v.sequence, 4), Sequences(b[1..]));
      LeTells(u.sequence, v.sequence, 4);
      Peel(Le(x.amount, 8), Amounts(p[1..]), Le(y.amount, 8), Amounts(q[1..]));
      LeTells(x.amount, y.amount, 8);
      ScriptSeparates(x.script, Scripts(p[1..]), y.script, Scripts(q[1..]));
      InputsTell(a[1..], p[1..], b[1..], q[1..]);
      assert a == [u] + a[1..] && b == [v] + b[1..] && p == [x] + p[1..] && q == [y] + q[1..];
    }
  }

  lemma {:induction false} OutpointLength(i: TxIn)
    requires InOk(i)
    ensures |PutOutpoint(i)| == 36
  {
  }

  lemma {:induction false} OutpointsLength(ins: seq<TxIn>)
    requires forall i :: 0 <= i < |ins| ==> InOk(ins[i])
    ensures |Outpoints(ins)| == 36 * |ins|
  {
    hide PutOutpoint;
    if ins != [] {
      OutpointLength(ins[0]);
      OutpointsLength(ins[1..]);
    }
  }

  // ----- signatures commit -----

  /** Every string hashed on the way to a preimage. */
  ghost function Hashed(c: Commitment): set<seq<byte>> {
    (match c.ins
     case AllIns(inputs, prevouts, _) => {Outpoints(inputs), Amounts(prevouts), Scripts(prevouts), Sequences(inputs)}
     case OneIn(_, _) => {})
    + (match c.outs
       case AllOuts(outputs) => {Outputs(outputs)}
       case NoOuts => {}
       case OneOut(output) => {PutOutput(output)})
    + if c.spend.Taproot? && c.spend.annex.Some? then {PutScript(c.spend.annex.value)} else {}
  }

  /** The hash tells these strings apart. */
  ghost predicate NoCollision(sha: Sha, s: set<seq<byte>>) {
    (forall x :: x in s ==> |sha(x)| == 32) && forall x, y :: x in s && y in s && sha(x) == sha(y) ==> x == y
  }

  lemma {:induction false} InsTell(sha: Sha, a: Commitment, b: Commitment, unified: bool)
    requires CommitmentOk(a, unified) && CommitmentOk(b, unified) && a.hashType == b.hashType
    requires NoCollision(sha, Hashed(a) + Hashed(b)) && InsHashes(sha, a.ins) == InsHashes(sha, b.ins) && InsTail(a.ins) == InsTail(b.ins)
    ensures a.ins == b.ins
  {
    hide Outpoints, Amounts, Scripts, Sequences, PutOutpoint, PutOutput, Le, Span, Outputs, PutScript;
    match a.ins
    case AllIns(i, p, k) =>
      var AllIns(j, q, l) := b.ins;
      Peel(sha(Outpoints(i)), sha(Amounts(p)) + (sha(Scripts(p)) + sha(Sequences(i))),
           sha(Outpoints(j)), sha(Amounts(q)) + (sha(Scripts(q)) + sha(Sequences(j))));
      Peel(sha(Amounts(p)), sha(Scripts(p)) + sha(Sequences(i)), sha(Amounts(q)), sha(Scripts(q)) + sha(Sequences(j)));
      Peel(sha(Scripts(p)), sha(Sequences(i)), sha(Scripts(q)), sha(Sequences(j)));
      InputsTell(i, p, j, q);
      Spans();
      LeTells(k, l, 4);
    case OneIn(i, p) =>
      var OneIn(j, q) := b.ins;
      OutpointLength(i);
      OutpointLength(j);
      Peel(PutOutpoint(i), PutOutput(p) + Le(i.sequence, 4), PutOutpoint(j), PutOutput(q) + Le(j.sequence, 4));
      OutpointTells(i, j);
      OutputSeparates(p, Le(i.sequence, 4), q, Le(j.sequence, 4));
      Spans();
      LeTells(i.sequence, j.sequence, 4);
  }

  lemma {:induction false} InsLengths(sha: Sha, a: Commitment, b: Commitment, unified: bool)
    requires CommitmentOk(a, unified) && CommitmentOk(b, unified) && a.hashType == b.hashType
    requires NoCollision(sha, Hashed(a) + Hashed(b))
    ensures |InsHashes(sha, a.ins)| == |InsHashes(sha, b.ins)| && |OutsHash(sha, a.outs)| == |OutsHash(sha, b.outs)|
    ensures |OneHash(sha, a.outs)| == |OneHash(sha, b.outs)|
  {
    hide Outpoints, Amounts, Scripts, Sequences, PutOutput, Outputs, PutScript;
  }

  lemma {:induction false} OutsTell(sha: Sha, a: Commitment, b: Commitment, unified: bool)
    requires CommitmentOk(a, unified) && CommitmentOk(b, unified) && a.hashType == b.hashType
    requires NoCollision(sha, Hashed(a) + Hashed(b))
    requires OutsHash(sha, a.outs) == OutsHash(sha, b.outs) && OneHash(sha, a.outs) == OneHash(sha, b.outs)
    ensures a.outs == b.outs
  {
    hide Outpoints, Amounts, Scripts, Sequences, PutOutput, Outputs, PutScript;
    match a.outs
    case AllOuts(x) => OutputsTell(x, b.outs.outputs);
    case NoOuts =>
    case OneOut(o) =>
      var none: seq<byte> := [];
      assert PutOutput(o) + none == PutOutput(o) && PutOutput(b.outs.output) + none == PutOutput(b.outs.output);
      OutputSeparates(o, none, b.outs.output, none);
  }

  lemma {:induction false} LeafTells(a: Spend, b: Spend)
    requires SpendOk(a) && SpendOk(b) && a.Taproot? && b.Taproot? && a.leaf.Some? == b.leaf.Some? && LeafData(a) == LeafData(b)
    ensures a.leaf == b.leaf
  {
    hide Le, Span;
    if a.leaf.Some? {
      var x, y := a.leaf.value, b.leaf.value;
      Peel(x.hash, [0] + Le(x.codesepPos, 4), y.hash, [0] + Le(y.codesepPos, 4));
      Peel([0], Le(x.codesepPos, 4), [0], Le(y.codesepPos, 4));
      Spans();
      LeTells(x.codesepPos, y.codesepPos, 4);
    }
  }

  lemma {:induction false} AnnexTells(sha: Sha, a: Commitment, b: Commitment)
    requires SpendOk(a.spend) && SpendOk(b.spend) && a.spend.Taproot? && b.spend.Taproot?
    requires a.spend.annex.Some? == b.spend.annex.Some? && NoCollision(sha, Hashed(a) + Hashed(b))
    requires AnnexHash(sha, a.spend.annex) == AnnexHash(sha, b.spend.annex)
    ensures a.spend.annex == b.spend.annex
  {
    hide Outpoints, Amounts, Scripts, Sequences, PutOutput, Outputs, PutScript;
    if a.spend.annex.Some? {
      var x, y := a.spend.annex.value, b.spend.annex.value;
      var none: seq<byte> := [];
      assert PutScript(x) + none == PutScript(x) && PutScript(y) + none == PutScript(y);
      ScriptSeparates(x, none, y, none);
    }
  }

  lemma {:induction false} AnnexLengths(sha: Sha, a: Commitment, b: Commitment)
    requires a.spend.Taproot? && b.spend.Taproot? && a.spend.annex.Some? == b.spend.annex.Some?
    requires NoCollision(sha, Hashed(a) + Hashed(b))
    ensures |AnnexHash(sha, a.spend.annex)| == |AnnexHash(sha, b.spend.annex)|
  {
    hide Outpoints, Amounts, Scripts, Sequences, PutOutput, Outputs, PutScript;
  }

  /** The parts in front that both preimages share. */
  lemma {:induction false} FrontTells(sha: Sha, a: Commitment, r: seq<byte>, b: Commitment, s: seq<byte>)
    requires a.version < U32 && b.version < U32 && a.locktime < U32 && b.locktime < U32
    requires [0, a.hashType] + (Le(a.version, 4) + (Le(a.locktime, 4) + r)) == [0, b.hashType] + (Le(b.version, 4) + (Le(b.locktime, 4) + s))
    ensures a.hashType == b.hashType && a.version == b.version && a.locktime == b.locktime && r == s
  {
    hide Le, Span;
    Peel([0, a.hashType], Le(a.version, 4) + (Le(a.locktime, 4) + r), [0, b.hashType], Le(b.version, 4) + (Le(b.locktime, 4) + s));
    assert [0, a.hashType][1] == [0, b.hashType][1];
    Peel(Le(a.version, 4), Le(a.locktime, 4) + r, Le(b.version, 4), Le(b.locktime, 4) + s);
    Peel(Le(a.locktime, 4), r, Le(b.locktime, 4), s);
    Spans();
    LeTells(a.version, b.version, 4);
    LeTells(a.locktime, b.locktime, 4);
  }

  /** The tail of the inputs comes apart from what follows it. */
  lemma {:induction false} InsTailSeparates(a: Commitment, r: seq<byte>, b: Commitment, s: seq<byte>, unified: bool)
    requires CommitmentOk(a, unified) && CommitmentOk(b, unified) && a.hashType == b.hashType
    requires InsTail(a.ins) + r == InsTail(b.ins) + s
    ensures InsTail(a.ins) == InsTail(b.ins) && r == s
  {
    hide PutOutpoint, PutOutput, Le, Span;
    match a.ins
    case AllIns(_, _, k) => Peel(Le(k, 4), r, Le(b.ins.index, 4), s);
    case OneIn(i, p) =>
      var OneIn(j, q) := b.ins;
      OutpointLength(i);
      OutpointLength(j);
      var x, y := Le(i.sequence, 4) + r, Le(j.sequence, 4) + s;
      assert InsTail(a.ins) + r == PutOutpoint(i) + (PutOutput(p) + x);
      assert InsTail(b.ins) + s == PutOutpoint(j) + (PutOutput(q) + y);
      Peel(PutOutpoint(i), PutOutput(p) + x, PutOutpoint(j), PutOutput(q) + y);
      OutputSeparates(p, x, q, y);
      Peel(Le(i.sequence, 4), r, Le(j.sequence, 4), s);
  }

  lemma {:induction false} SpendDataSeparates(sha: Sha, a: Commitment, r: seq<byte>, b: Commitment, s: seq<byte>)
    requires SpendOk(a.spend) && SpendOk(b.spend) && ScriptType(a.spend) == ScriptType(b.spend)
    requires NoCollision(sha, Hashed(a) + Hashed(b)) && SpendData(sha, a.spend) + r == SpendData(sha, b.spend) + s
    ensures r == s && (if a.spend.Taproot? then b.spend.Taproot? && a.spend.annex == b.spend.annex else a.spend == b.spend)
  {
    hide PutScript, Hashed, NoCollision;
    if a.spend.Taproot? {
      var p, q := a.spend.annex, b.spend.annex;
      var m, n := AnnexHash(sha, p), AnnexHash(sha, q);
      var u: seq<byte>, v: seq<byte> := [if p.Some? then 1 else 0], [if q.Some? then 1 else 0];
      assert SpendData(sha, a.spend) + r == u + (m + r) && SpendData(sha, b.spend) + s == v + (n + s);
      Peel(u, m + r, v, n + s);
      assert u[0] == v[0];
      AnnexLengths(sha, a, b);
      Peel(m, r, n, s);
      AnnexTells(sha, a, b);
    } else {
      ScriptSeparates(a.spend.code, r, b.spend.code, s);
    }
  }

  /** Two unified preimages are the same exactly when they commit to the same: the hash
      type, the script type, and everything that hash type covers. */
  lemma {:induction false} UnifiedCommits(sha: Sha, a: Commitment, b: Commitment)
    requires CommitmentOk(a, true) && CommitmentOk(b, true) && NoCollision(sha, Hashed(a) + Hashed(b))
    ensures UnifiedPreimage(sha, a) == UnifiedPreimage(sha, b) <==> a == b
  {
    hide Le, InsHashes, OutsHash, InsTail, OneHash, LeafData, SpendData, ScriptType, Hashed, NoCollision, CommitmentOk;
    if UnifiedPreimage(sha, a) == UnifiedPreimage(sha, b) {
      OkBounds(a, true);
      OkBounds(b, true);
      var a5 := OneHash(sha, a.outs) + LeafData(a.spend);
      var b5 := OneHash(sha, b.outs) + LeafData(b.spend);
      var a4, b4 := SpendData(sha, a.spend) + a5, SpendData(sha, b.spend) + b5;
      var a3, b3 := InsTail(a.ins) + a4, InsTail(b.ins) + b4;
      var a2, b2 := [ScriptType(a.spend)] + a3, [ScriptType(b.spend)] + b3;
      var a1, b1 := OutsHash(sha, a.outs) + a2, OutsHash(sha, b.outs) + b2;
      var a0, b0 := InsHashes(sha, a.ins) + a1, InsHashes(sha, b.ins) + b1;
      FrontTells(sha, a, [0] + a0, b, [0] + b0);
      Peel([0], a0, [0], b0);
      InsLengths(sha, a, b, true);
      Peel(InsHashes(sha, a.ins), a1, InsHashes(sha, b.ins), b1);
      Peel(OutsHash(sha, a.outs), a2, OutsHash(sha, b.outs), b2);
      HeadSeparates(ScriptType(a.spend), a3, ScriptType(b.spend), b3);
      InsTailSeparates(a, a4, b, b4, true);
      SpendDataSeparates(sha, a, a5, b, b5);
      Peel(OneHash(sha, a.outs), LeafData(a.spend), OneHash(sha, b.outs), LeafData(b.spend));
      InsTell(sha, a, b, true);
      OutsTell(sha, a, b, true);
      SameLeaf(a.spend, b.spend);
    }
  }

  lemma {:induction false} OkBounds(c: Commitment, unified: bool)
    requires CommitmentOk(c, unified)
    ensures c.version < U32 && c.locktime < U32 && SpendOk(c.spend)
  {
  }

  lemma {:induction false} SameLeaf(a: Spend, b: Spend)
    requires SpendOk(a) && SpendOk(b) && ScriptType(a) == ScriptType(b) && LeafData(a) == LeafData(b)
    requires if a.Taproot? then b.Taproot? && a.annex == b.annex else a == b
    ensures a == b
  {
    hide LeafData;
    if a.Taproot? {
      LeafTells(a, b);
    }
  }

  /** And two BIP-341 preimages. */
  lemma {:induction false} TaprootCommits(sha: Sha, a: Commitment, b: Commitment)
    requires CommitmentOk(a, false) && CommitmentOk(b, false) && NoCollision(sha, Hashed(a) + Hashed(b))
    ensures a.spend.Taproot? && b.spend.Taproot?
    ensures TaprootPreimage(sha, a) == TaprootPreimage(sha, b) <==> a == b
  {
    hide Le, InsHashes, OutsHash, InsTail, OneHash, LeafData, AnnexHash, Hashed, NoCollision;
    if TaprootPreimage(sha, a) == TaprootPreimage(sha, b) {
      hide CommitmentOk;
      OkBounds(a, false);
      OkBounds(b, false);
      var a5 := OneHash(sha, a.outs) + LeafData(a.spend);
      var b5 := OneHash(sha, b.outs) + LeafData(b.spend);
      var a4, b4 := AnnexHash(sha, a.spend.annex) + a5, AnnexHash(sha, b.spend.annex) + b5;
      var a3, b3 := InsTail(a.ins) + a4, InsTail(b.ins) + b4;
      var a2, b2 := [SpendType(a.spend)] + a3, [SpendType(b.spend)] + b3;
      var a1, b1 := OutsHash(sha, a.outs) + a2, OutsHash(sha, b.outs) + b2;
      var a0, b0 := InsHashes(sha, a.ins) + a1, InsHashes(sha, b.ins) + b1;
      FrontTells(sha, a, a0, b, b0);
      InsLengths(sha, a, b, false);
      Peel(InsHashes(sha, a.ins), a1, InsHashes(sha, b.ins), b1);
      Peel(OutsHash(sha, a.outs), a2, OutsHash(sha, b.outs), b2);
      HeadSeparates(SpendType(a.spend), a3, SpendType(b.spend), b3);
      assert a.spend.leaf.Some? == b.spend.leaf.Some? && a.spend.annex.Some? == b.spend.annex.Some?;
      InsTailSeparates(a, a4, b, b4, false);
      AnnexLengths(sha, a, b);
      Peel(AnnexHash(sha, a.spend.annex), a5, AnnexHash(sha, b.spend.annex), b5);
      AnnexTells(sha, a, b);
      Peel(OneHash(sha, a.outs), LeafData(a.spend), OneHash(sha, b.outs), LeafData(b.spend));
      InsTell(sha, a, b, false);
      OutsTell(sha, a, b, false);
      LeafTells(a.spend, b.spend);
    }
  }
}
