/** Texts that stand for bytes, as numerals: the alphabets of src/base58.rs, src/bech32.rs and
    src/bbqr.rs spelled out, and the number a text is. */
module Numerals {
  import opened Options
  import opened Bytes
  import opened Radix
  import opened BitGroups
  import D = Base58
  import B = Base32
  import Q = Bbqr
  import H = Bech32

  // ----- base58 -----

  const BASE58: string :=
    "123456789" + ("ABCDEFGH" + ("JKLMN" + ("PQRSTUVWXYZ" + ("abcdefghijk" + "mnopqrstuvwxyz"))))

  /** The characters of `s` follow each other from `first` on. */
  ghost predicate Consecutive(s: string, first: nat) {
    forall i :: 0 <= i < |s| ==> s[i] as int == first + i
  }

  lemma {:induction false} Base58Runs()
    ensures Consecutive("123456789", 49) && Consecutive("ABCDEFGH", 65) && Consecutive("JKLMN", 74)
    ensures Consecutive("PQRSTUVWXYZ", 80) && Consecutive("abcdefghijk", 97) && Consecutive("mnopqrstuvwxyz", 109)
  {
  }

  /** The base58 digits in their order. */
  lemma {:induction false} Base58Letters(v: nat)
    requires v < 58
    ensures D.Letter(v) as int == BASE58[v] as int
  {
    Base58Runs();
  }

  /** A string of digits read as a number in base 256 is its big-endian value. */
  lemma {:induction false} BytesAreDigits(s: seq<byte>)
    ensures BigValue(256, s) == BeValue(s)
  {
    if s != [] {
      BytesAreDigits(s[..|s| - 1]);
    }
  }

  /** The base58 text of bytes: a `1` for each zero byte in front, and then the numeral in base 58,
      without leading zeros, of the number the other bytes are. */
  lemma {:induction false} Base58IsNumeral(input: seq<byte>, zeros: nat)
    requires zeros <= |input| && (forall i :: 0 <= i < zeros ==> input[i] == 0) && (zeros < |input| ==> input[zeros] != 0)
    ensures exists digits | Below(58, digits) ::
              && D.Encoded(input) == D.Fill(49, zeros) + D.Spell(digits)
              && (digits != [] ==> digits[0] != 0)
              && BigValue(58, digits) == BeValue(input[zeros..])
  {
    hide D.Letter;
    ZerosInFront(input, zeros);
    var v := D.Number(input);
    var digits := Rev(Digits(58, v));
    D.RevStartsNonzero(58, v);
    BigOfDigits(58, v);
    DigitsDenote(58, v);
    BytesAreDigits(input[zeros..]);
    assert Below(58, digits);
  }

  lemma {:induction false} ZerosInFront(s: seq<byte>, zeros: nat)
    requires zeros <= |s| && (forall i :: 0 <= i < zeros ==> s[i] == 0) && (zeros < |s| ==> s[zeros] != 0)
    ensures D.Run(0, s) == zeros
  {
    if zeros > 0 {
      ZerosInFront(s[1..], zeros - 1);
    }
  }

  // ----- groups of bits -----

  /** Bits are the groups they come from, as digits of a number. */
  lemma {:induction false} BitsAreDigits(data: seq<byte>, n: Width)
    requires Fit(data, n) && 2 <= Pow(2, n) <= 256
    ensures FromBits(Expand(data, n)) == BigValue(Pow(2, n), data)
  {
    hide FromBits, ToBits, Expand;
    if data == [] {
      NoBitsAreZero(n);
    } else {
      var front, last := data[..|data| - 1], data[|data| - 1];
      BitsAreDigits(front, n);
      assert data == front + [last];
      ExpandAppend(front, [last], n);
      ExpandOne(last, n);
      FromBitsAppend(Expand(front, n), ToBits(last as nat, n));
      BitsReadBack(last as nat, n);
    }
  }

  lemma {:induction false} NoBitsAreZero(n: Width)
    ensures FromBits(Expand([], n)) == 0
  {
  }

  lemma {:induction false} ExpandLength(data: seq<byte>, n: Width)
    ensures |Expand(data, n)| == n * |data|
  {
    if data != [] {
      ExpandLength(data[1..], n);
      assert n * |data| == n + n * (|data| - 1);
    }
  }

  /** Bytes regrouped into symbols of five bits: the same number, but for the zero bits, fewer than
      five, that fill up the last symbol. */
  lemma {:induction false} SymbolsAreNumber(data: seq<byte>)
    ensures exists k: nat | k < 5 ::
              var vals := Padded(Expand(data, 8), 5);
              && 5 * |vals| == 8 * |data| + k && BigValue(32, vals) == BeValue(data) * Pow(2, k)
  {
    hide FromBits, ToBits, Expand, Padded, Pow;
    var bits := Expand(data, 8);
    var vals := Padded(bits, 5);
    B.SymbolPowers();
    B.BytesFit(data);
    PaddedFits(bits, 5);
    BitsAreDigits(data, 8);
    BitsAreDigits(vals, 5);
    BytesAreDigits(data);
    ExpandPadded(bits, 5);
    var k: nat :| k < 5 && Expand(vals, 5) == bits + Zeros(k);
    ExpandLength(data, 8);
    ExpandLength(vals, 5);
    FromBitsAppend(bits, Zeros(k));
    ZeroIsNoBits(Zeros(k));
  }

  /** So do the symbols of a bech32 or CashAddr payload, and those of base32. */
  lemma {:induction false} PayloadSymbols(data: seq<byte>)
    ensures H.Symbols([], data) == B.Symbols(data) == Padded(Expand(data, 8), 5)
  {
    hide Padded, Expand;
    assert [] + Padded(Expand(data, 8), 5) == Padded(Expand(data, 8), 5);
  }

  // ----- BBQr -----

  const BASE32: string := "ABCDEFGHIJKLMNOPQRSTUVWXYZ" + "234567"
  const BASE36: string := "0123456789" + "ABCDEFGHIJKLMNOPQRSTUVWXYZ"

  lemma {:induction false} BbqrRuns()
    ensures Consecutive("ABCDEFGHIJKLMNOPQRSTUVWXYZ", 65) && Consecutive("234567", 50) && Consecutive("0123456789", 48)
  {
  }

  /** The digits of base32 and of base 36 in their order. */
  lemma {:induction false} BbqrDigits(v: nat)
    ensures v < 32 ==> B.Letter(v as byte) as int == BASE32[v] as int
    ensures v < 36 ==> Q.Digit36(v) as int == BASE36[v] as int
  {
    BbqrRuns();
  }

  /** A header: `B$`, how the data is encoded, the type of the file, and in two digits of base 36
      each, the number of parts and which this one is. */
  lemma {:induction false} HeaderByPosition(h: Q.Header)
    requires 1 <= h.numParts <= 1295 && h.index < h.numParts
    ensures Q.HeaderBytes(h).Ok?
    ensures var s := Q.HeaderBytes(h).value;
            && |s| == 8 && s[0] as int == 'B' as int && s[1] as int == '$' as int && s[3] == h.fileType
            && s[2] as int == (match h.encoding case Hex => 'H' case Base32 => '2' case Zlib => 'Z') as int
            && Spells36(s, 4, h.numParts) && Spells36(s, 6, h.index)
  {
    hide Q.Digit36, Spells36;
    var s := Q.HeaderBytes(h).value;
    TwoDigits(s, 4, h.numParts);
    TwoDigits(s, 6, h.index);
  }

  /** Two digits of base 36 stand at `at`. */
  ghost predicate Spells36(s: seq<byte>, at: nat, v: nat) {
    at + 2 <= |s| && exists a: nat, b: nat | a < 36 && b < 36 ::
      s[at] == Q.Digit36(a) && s[at + 1] == Q.Digit36(b) && v == 36 * a + b
  }

  lemma {:induction false} TwoDigits(s: seq<byte>, at: nat, v: nat)
    requires v < 1296 && at + 2 <= |s| && s[at] == Q.Digit36(v / 36 % 36) && s[at + 1] == Q.Digit36(v % 36)
    ensures Spells36(s, at, v)
  {
    hide Q.Digit36;
    assert v / 36 % 36 == v / 36;
  }

  /** Two hexadecimal digits a byte, the high one first. */
  lemma {:induction false} HexByPosition(data: seq<byte>, i: nat)
    requires i < |data|
    ensures Q.HexEncoded(data)[2 * i] as int == BASE36[data[i] / 16] as int
    ensures Q.HexEncoded(data)[2 * i + 1] as int == BASE36[data[i] % 16] as int
  {
    hide Q.HexDigit;
    if i == 0 {
      HexLetter(data[0] / 16);
      HexLetter(data[0] % 16);
    } else {
      HexByPosition(data[1..], i - 1);
      assert Q.HexEncoded(data)[2..] == Q.HexEncoded(data[1..]);
      assert Q.HexEncoded(data)[2..][2 * (i - 1)] == Q.HexEncoded(data)[2 * i];
      assert Q.HexEncoded(data)[2..][2 * (i - 1) + 1] == Q.HexEncoded(data)[2 * i + 1];
    }
  }

  lemma {:induction false} HexLetter(v: byte)
    requires v < 16
    ensures Q.HexDigit(v) as int == BASE36[v] as int
  {
    BbqrRuns();
  }
}
