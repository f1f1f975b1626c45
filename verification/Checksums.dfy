/** The checksums of src/bech32.rs and src/bcur/mod.rs against their published constants and
    test values. */
module Checksums {
  import opened Options
  import opened Bytes
  import opened Crc32
  import B = Bech32
  import C = CashAddr
  import G = BitGroups
  import P = Polymod
  import S = Segwit

  // ----- the two codes -----

  /** Below the top symbol a register moves up one symbol, and the new symbol comes in. */
  lemma {:induction false} LowPartShifts(code: P.Code, c: P.Word, v: P.Word)
    requires v < 32 && if code.Bech32? then c < 0x200_0000 else c < 0x8_0000_0000
    ensures P.Step(code, c, v) == c * 32 + v
  {
    hide P.Feedback, P.Pick, P.Bit;
    if code.Bech32? {
      Low25(c, v);
    } else {
      Low35(c, v);
    }
    P.NoFeedback(0, 0, 0, 0, 0);
    P.NoTop(code, c);
  }

  lemma {:induction false} Low25(c: P.Word, v: P.Word)
    requires v < 32 && c < 0x200_0000
    ensures P.Add(P.Up(P.Bech32, c), v) == c * 32 + v
  {
  }

  lemma {:induction false} Low35(c: P.Word, v: P.Word)
    requires v < 32 && c < 0x8_0000_0000
    ensures P.Add(P.Up(P.CashAddr, c), v) == c * 32 + v
  {
  }

  /** Each bit of the top symbol adds its row of the generator: those of BIP-173, and those of
      the CashAddr specification. The code being linear, this and the shift are all of it. */
  lemma {:induction false} GeneratorRows()
    ensures P.Step(P.Bech32, 0x0200_0000, 0) == 0x3b6a_57b2 && P.Step(P.Bech32, 0x0400_0000, 0) == 0x2650_8e6d
    ensures P.Step(P.Bech32, 0x0800_0000, 0) == 0x1ea1_19fa && P.Step(P.Bech32, 0x1000_0000, 0) == 0x3d42_33dd
    ensures P.Step(P.Bech32, 0x2000_0000, 0) == 0x2a14_62b3
    ensures P.Step(P.CashAddr, 0x08_0000_0000, 0) == 0x98_f2bc_8e61 && P.Step(P.CashAddr, 0x10_0000_0000, 0) == 0x79_b76d_99e2
    ensures P.Step(P.CashAddr, 0x20_0000_0000, 0) == 0xf3_3e5f_b3c4 && P.Step(P.CashAddr, 0x40_0000_0000, 0) == 0xae_2eab_e2a8
    ensures P.Step(P.CashAddr, 0x80_0000_0000, 0) == 0x1e_4f43_e470
  {
  }

  // ----- alphabet and variants -----

  const ALPHABET: string := "qpzry9x8gf2tvdw0s3jn54khce6mua7l"

  /** The letters stand for the numbers from 0 to 31 in the order of BIP-173. */
  lemma {:induction false} LettersInOrder(v: byte)
    requires v < 32
    ensures B.Letter(v) as int == ALPHABET[v] as int
  {
  }

  /** A segwit address ends on BIP-173's constant, 1, if its version is 0, and on BIP-350's
      otherwise. */
  lemma {:induction false} VersionDecidesConstant(hrp: seq<byte>, address: seq<byte>, room: nat)
    requires S.Decoded(hrp, address, room).Ok?
    ensures B.LastOne(address).Some? &&
            var pos := B.LastOne(address).value;
            && B.AllLetters(address[pos + 1..])
            && P.Feed(P.Bech32, B.HrpState(address[..pos]), B.Values(address[pos + 1..]))
               == if S.Decoded(hrp, address, room).value.0 == 0 then 1 else 0x2bc8_30a3
  {
    hide P.Feed, B.HrpState, B.CharsetRev, B.MixedCaseText, S.Program, B.LastOne;
  }

  lemma {:induction false} NoFront(data: seq<byte>, version: byte)
    requires version < 32
    ensures B.Symbols(B.Front(Some(version)), data) == [version] + G.Padded(G.Expand(data, 8), 5)
    ensures B.Symbols([], data) == G.Padded(G.Expand(data, 8), 5)
  {
    hide G.Padded, G.Expand;
  }

  /** A segwit address: the human-readable part, a `1`, and the letters of the version, of the program in
      groups of five bits, and of six symbols that bring the register to the constant. */
  lemma {:induction false} SegwitInOrder(hrp: seq<byte>, version: byte, program: seq<byte>)
    requires version <= 16
    ensures exists sum | P.FiveBit(sum) && |sum| == 6 ::
              var all := [version] + G.Padded(G.Expand(program, 8), 5) + sum;
              && P.FiveBit(all) && S.Address(hrp, version, program) == hrp + [49] + B.Spell(all)
              && P.Feed(P.Bech32, B.HrpState(hrp), all) == if version == 0 then 1 else 0x2bc8_30a3
  {
    hide P.Feed, B.HrpState, B.Letter, G.Padded, G.Expand, B.Sum, B.Symbols, B.Front;
    var vals := B.Symbols(B.Front(Some(version)), program);
    NoFront(program, version);
    var sum := B.Sum(hrp, vals, S.VariantOf(version));
    B.SumVerifies(hrp, vals, sum, S.VariantOf(version));
    assert P.FiveBit(sum) && P.FiveBit(vals + sum);
  }

  /** A trailing colon of the prefix makes no difference. */
  lemma {:induction false} OneColon(p: seq<byte>, kind: byte, hash: seq<byte>)
    requires C.SizeBits(|hash|).Some? && (p == [] || p[|p| - 1] != 58)
    ensures C.Address(p, kind, hash) == C.Address(p + [58], kind, hash)
  {
    hide C.Body, B.Symbols, C.VersionByte, C.SizeBits;
    assert (p + [58])[..|p|] == p;
  }

  /** A CashAddr address: the prefix, a colon, and the letters of the version byte and the hash in groups
      of five bits, and of eight symbols that bring the register to 1. */
  lemma {:induction false} CashAddrInOrder(p: seq<byte>, kind: byte, hash: seq<byte>)
    requires C.SizeBits(|hash|).Some? && (p == [] || p[|p| - 1] != 58)
    ensures exists sum, size ::
              && P.FiveBit(sum) && |sum| == 8 && size < 8 && C.SizeFromBits(size) == |hash|
              && CashAddrIs(p, C.Address(p, kind, hash), [(8 * (kind as nat % 32)) as byte + size] + hash, sum)
  {
    hide P.Feed, C.State, B.Letter, G.Padded, G.Expand, C.Sum, B.Symbols, C.VersionByte, C.SizeBits, C.SizeFromBits, B.Spell;
    var size := C.SizeBits(|hash|).value;
    VersionIs(kind, size);
    SizesByRule(size, |hash|);
    var data := [C.VersionByte(kind, size)] + hash;
    NoFront(data, 0);
    var sum := C.Sum(p, B.Symbols([], data));
    C.SumVerifies(p, B.Symbols([], data), sum);
    assert CashAddrIs(p, C.Address(p, kind, hash), data, sum);
  }

  ghost predicate CashAddrIs(p: seq<byte>, address: seq<byte>, data: seq<byte>, sum: seq<byte>) {
    var all := G.Padded(G.Expand(data, 8), 5) + sum;
    P.FiveBit(all) && address == p + [58] + B.Spell(all) && P.Feed(P.CashAddr, C.State(p), all) == 1
  }

  lemma {:induction false} VersionIs(kind: byte, size: byte)
    requires size < 8
    ensures C.VersionByte(kind, size) == (8 * (kind as nat % 32)) as byte + size
  {
    assert kind as nat * 8 % 256 == 8 * (kind as nat % 32);
  }

  /** The witness programs that have addresses: versions up to 16, of 2 to 40 bytes, and of version 0
      only 20 or 32. */
  lemma {:induction false} ProgramRules(version: byte, len: nat)
    ensures S.CheckProgram(version, len) == None <==> version <= 16 && 2 <= len <= 40 && (version == 0 ==> len in [20, 32])
    ensures version > 16 ==> S.CheckProgram(version, len) == Some(B.InvalidWitnessVersion)
  {
  }

  // ----- hash sizes of CashAddr -----

  /** The low three bits of a version byte give the size of the hash: from 20 bytes in steps of 4,
      then from 32 in steps of 8. No other length has an address. */
  lemma {:induction false} SizesByRule(bits: byte, len: nat)
    requires bits < 8
    ensures C.SizeFromBits(bits) == if bits < 4 then 20 + 4 * bits as nat else 40 + 8 * (bits as nat - 4)
    ensures C.SizeBits(len) == Some(bits) <==> C.SizeFromBits(bits) == len
    ensures C.SizeBits(len).Some? <==> len in [20, 24, 28, 32, 40, 48, 56, 64]
  {
  }

  // ----- CRC-32 -----

  lemma {:induction false} Eight(c: bv32)
    ensures BitSteps(c, 8) == BitStep(BitStep(BitStep(BitStep(BitStep(BitStep(BitStep(BitStep(c))))))))
  {
    hide BitStep;
    StepsAdd(c, 4, 4);
    FourSteps(c);
    FourSteps(BitSteps(c, 4));
  }

  lemma {:induction false} Digit1()
    ensures ByteStep(0xffffffff, 0x31) == 0x7c231048
  {
    Eight(0xffffffce);
  }

  lemma {:induction false} Digit2()
    ensures ByteStep(0x7c231048, 0x32) == 0xb0acbb32
  {
    Eight(0x7c23107a);
  }

  lemma {:induction false} Digit3()
    ensures ByteStep(0xb0acbb32, 0x33) == 0x77b79c2d
  {
    Eight(0xb0acbb01);
  }

  lemma {:induction false} Digit4()
    ensures ByteStep(0x77b79c2d, 0x34) == 0x641c1f5c
  {
    Eight(0x77b79c19);
  }

  lemma {:induction false} Digit5()
    ensures ByteStep(0x641c1f5c, 0x35) == 0x340ac5e3
  {
    Eight(0x641c1f69);
  }

  lemma {:induction false} Digit6()
    ensures ByteStep(0x340ac5e3, 0x36) == 0xf68d2c9e
  {
    Eight(0x340ac5d5);
  }

  lemma {:induction false} Digit7()
    ensures ByteStep(0xf68d2c9e, 0x37) == 0xaffc9660
  {
    Eight(0xf68d2ca9);
  }

  lemma {:induction false} Digit8()
    ensures ByteStep(0xaffc9660, 0x38) == 0x651f2550
  {
    Eight(0xaffc9658);
  }

  lemma {:induction false} Digit9()
    ensures ByteStep(0x651f2550, 0x39) == 0x340bc6d9
  {
    Eight(0x651f2569);
  }

  lemma {:induction false} OneMore(data: seq<bv8>, byte: bv8)
    ensures Register(0xffff_ffff, data + [byte]) == ByteStep(Register(0xffff_ffff, data), byte)
    ensures Register(0xffff_ffff, []) == 0xffff_ffff
  {
    assert (data + [byte])[..|data|] == data;
  }

  /** The check value of CRC-32, over the digits 1 to 9. */
  lemma {:induction false} CheckValue()
    ensures Crc([0x31, 0x32, 0x33, 0x34, 0x35, 0x36, 0x37, 0x38, 0x39]) == 0xcbf4_3926
  {
    hide ByteStep, Register;
    var d0: seq<bv8> := [];
    var d1 := d0 + [0x31];
    OneMore(d0, 0x31);
    Digit1();
    var d2 := d1 + [0x32];
    OneMore(d1, 0x32);
    Digit2();
    var d3 := d2 + [0x33];
    OneMore(d2, 0x33);
    Digit3();
    var d4 := d3 + [0x34];
    OneMore(d3, 0x34);
    Digit4();
    var d5 := d4 + [0x35];
    OneMore(d4, 0x35);
    Digit5();
    var d6 := d5 + [0x36];
    OneMore(d5, 0x36);
    Digit6();
    var d7 := d6 + [0x37];
    OneMore(d6, 0x37);
    Digit7();
    var d8 := d7 + [0x38];
    OneMore(d7, 0x38);
    Digit8();
    var d9 := d8 + [0x39];
    OneMore(d8, 0x39);
    Digit9();
    assert d9 == [0x31, 0x32, 0x33, 0x34, 0x35, 0x36, 0x37, 0x38, 0x39];
  }
}
