/** The base58 codec of src/base58.rs, in place in the caller's buffer. */
module Base58 {
  import opened Options
  import opened Bytes
  import opened Radix

  datatype Error = InvalidChar(c: byte) | BufferTooSmall

  datatype Result<+T> = Ok(value: T) | Err(error: Error)

  // ----- the alphabet -----

  /** `ALPHABET[v]`: the ASCII digits and letters in order, without 0, I, O and l. */
  function Letter(v: nat): (c: byte)
    requires v < 58
  {
    if v < 9 then (49 + v) as byte
    else if v < 17 then (65 + v - 9) as byte
    else if v < 22 then (74 + v - 17) as byte
    else if v < 33 then (80 + v - 22) as byte
    else if v < 44 then (97 + v - 33) as byte
    else (109 + v - 44) as byte
  }

  const ONE: byte := 49

  /** The first `v` from `from` on with `Letter(v) == c`. */
  function FindLetter(c: byte, from: nat): (v: Option<nat>)
    requires from <= 58
    ensures v.Some? ==> from <= v.value < 58 && Letter(v.value) == c
    ensures v.None? ==> forall w: nat :: from <= w < 58 ==> Letter(w) != c
    decreases 58 - from
  {
    if from == 58 then None else if Letter(from) == c then Some(from) else FindLetter(c, from + 1)
  }

  /** `char_value`. */
  function CharValue(c: byte): (v: Option<nat>)
    ensures v.Some? ==> v.value < 58 && Letter(v.value) == c
    ensures forall w: nat :: w < 58 && Letter(w) == c ==> v == Some(w)
  {
    FindLetter(c, 0)
  }

  // ----- what encoding and decoding mean -----

  /** The length of the run of `c` at the front. */
  function Run(c: byte, s: seq<byte>): (n: nat)
    ensures n <= |s| && (n < |s| ==> s[n] != c)
    ensures forall i :: 0 <= i < n ==> s[i] == c
  {
    if s != [] && s[0] == c then 1 + Run(c, s[1..]) else 0
  }

  function Fill(c: byte, n: nat): (s: seq<byte>)
    ensures |s| == n && forall i :: 0 <= i < n ==> s[i] == c
  {
    seq(n, _ => c)
  }

  lemma {:induction false} RunOf(c: byte, n: nat, s: seq<byte>)
    requires s != [] ==> s[0] != c
    ensures Run(c, Fill(c, n) + s) == n
  {
    var t := Fill(c, n) + s;
    assert forall i :: 0 <= i < n ==> t[i] == c;
    assert s != [] ==> t[n] == s[0];
  }

  function Spell(digits: seq<byte>): (t: seq<byte>)
    requires Below(58, digits)
    ensures |t| == |digits| && forall i :: 0 <= i < |t| ==> t[i] == Letter(digits[i] as nat)
  {
    seq(|digits|, i requires 0 <= i < |digits| => Letter(digits[i] as nat))
  }

  /** The digits of a text, up to the first character that is none. */
  function Unspell(t: seq<byte>): (digits: seq<byte>)
    ensures |digits| <= |t| && Below(58, digits)
    ensures |digits| < |t| ==> CharValue(t[|digits|]) == None
    ensures forall i :: 0 <= i < |digits| ==> Letter(digits[i] as nat) == t[i]
  {
    if t == [] || CharValue(t[0]) == None then []
    else
      var rest := Unspell(t[1..]);
      [CharValue(t[0]).value as byte] + rest
  }

  /** The number the bytes past the leading zeros make. */
  function Number(input: seq<byte>): nat {
    BigValue(256, input[Run(0, input)..])
  }

  /** The base58 text of `input`: a `1` for each leading zero byte, and then the
      digits of the rest as one number. */
  function Encoded(input: seq<byte>): seq<byte> {
    var digits := Digits(58, Number(input));
    DigitsDenote(58, Number(input));
    assert Below(58, Rev(digits));
    Fill(ONE, Run(0, input)) + Spell(Rev(digits))
  }

  /** What a text decodes to, in `room` bytes. The first thing amiss decides: a
      character that is no digit, or a number that has outgrown the room. */
  function Decoded(text: seq<byte>, room: nat): Result<seq<byte>> {
    var zeros := Run(ONE, text);
    var digits := Unspell(text[zeros..]);
    var bytes := Rev(Digits(256, BigValue(58, digits)));
    if zeros + |bytes| > room then Err(BufferTooSmall)
    else if |digits| < |text| - zeros then Err(InvalidChar(text[zeros + |digits|]))
    else Ok(Fill(0, zeros) + bytes)
  }

  // ----- round trips -----

  lemma {:induction false} Unspelled(digits: seq<byte>)
    requires Below(58, digits)
    ensures Unspell(Spell(digits)) == digits
  {
    var t := Spell(digits);
    var u := Unspell(t);
    assert forall i :: 0 <= i < |t| ==> CharValue(t[i]) == Some(digits[i] as nat);
    forall i | 0 <= i < |digits| ensures u[i] == digits[i] {
      assert Letter(u[i] as nat) == t[i] == Letter(digits[i] as nat);
    }
  }

  lemma {:induction false} Respelled(t: seq<byte>)
    requires |Unspell(t)| == |t|
    ensures Spell(Unspell(t)) == t
  {
  }

  lemma {:induction false} RevStartsNonzero(b: Base, v: nat)
    ensures var s := Rev(Digits(b, v)); Below(b, s) && (s != [] ==> s[0] != 0)
  {
    DigitsDenote(b, v);
  }

  lemma {:induction false} SpelledNonzero(s: seq<byte>)
    requires Below(58, s) && s != [] && s[0] != 0
    ensures Spell(s)[0] != ONE
  {
  }

  /** Decoding the text of any bytes gives them back, whatever the room past them. */
  lemma {:induction false} DecodeInvertsEncode(input: seq<byte>, room: nat)
    requires room >= |input|
    ensures Decoded(Encoded(input), room) == Ok(input)
  {
    var zeros := Run(0, input);
    var rest, v := input[zeros..], Number(input);
    var digits := Rev(Digits(58, v));
    RevStartsNonzero(58, v);
    if digits != [] {
      SpelledNonzero(digits);
    }
    var text := Encoded(input);
    assert text == Fill(ONE, zeros) + Spell(digits);
    RunOf(ONE, zeros, Spell(digits));
    assert text[zeros..] == Spell(digits);
    Unspelled(digits);
    BigOfDigits(58, v);
    BigDigits(256, rest);
    assert input == Fill(0, zeros) + rest;
  }

  /** The digits of a text of base58 characters past its leading ones. */
  lemma {:induction false} TailDigits(text: seq<byte>)
    requires forall i :: 0 <= i < |text| ==> CharValue(text[i]).Some?
    ensures var tail := text[Run(ONE, text)..];
            var digits := Unspell(tail);
            |digits| == |tail| && Spell(digits) == tail && (digits != [] ==> digits[0] != 0)
  {
    hide CharValue, Unspell, Spell, Run;
    var zeros := Run(ONE, text);
    var tail := text[zeros..];
    var digits := Unspell(tail);
    forall i | 0 <= i < |tail| ensures CharValue(tail[i]).Some? {
      assert tail[i] == text[zeros + i];
    }
    Respelled(tail);
    assert Letter(0) == ONE;
    assert tail != [] ==> Letter(digits[0] as nat) == tail[0] == text[zeros];
  }

  /** A text of base58 characters decodes, in as many bytes as it has characters or
      more, to bytes whose text it is. */
  lemma {:induction false} EncodeInvertsDecode(text: seq<byte>, room: nat)
    requires room >= |text| && forall i :: 0 <= i < |text| ==> CharValue(text[i]).Some?
    ensures Decoded(text, room).Ok? && Encoded(Decoded(text, room).value) == text
    ensures |Decoded(text, room).value| <= |text|
  {
    hide CharValue, Unspell, Spell, Run, BigValue, Digits, Rev;
    var zeros := Run(ONE, text);
    var tail := text[zeros..];
    var digits := Unspell(tail);
    TailDigits(text);
    DecodedFits(digits);
    var v := BigValue(58, digits);
    var bytes := Rev(Digits(256, v));
    RevStartsNonzero(256, v);
    BigOfDigits(256, v);
    RunOf(0, zeros, bytes);
    assert (Fill(0, zeros) + bytes)[zeros..] == bytes;
    BigDigits(58, digits);
    assert text == Fill(ONE, zeros) + tail;
  }

  /** A number of `k` base58 digits fits `k` bytes. */
  lemma {:induction false} DecodedFits(digits: seq<byte>)
    requires Below(58, digits)
    ensures |Digits(256, BigValue(58, digits))| <= |digits|
  {
    BigValueBelow(58, digits);
    PowMonotone(58, 256, |digits|);
    FewDigits(256, BigValue(58, digits), |digits|);
  }

  // ----- the length bound -----

  /** `encoded_len_bound`. */
  function EncodedLenBound(n: nat): nat {
    n * 138 / 100 + 1
  }

  lemma {:induction false} SmallPowers()
    ensures Pow(2, 41) <= Pow(58, 7) && Pow(2, 29) <= Pow(58, 5)
  {
    PowSquare(2, 10);
    PowSquare(2, 20);
    PowAdd(2, 40, 1);
    PowAdd(2, 20, 9);
    assert Pow(2, 10) == 1024 by {
      PowSquare(2, 5);
    }
    assert Pow(2, 9) == 512 by {
      PowAdd(2, 5, 4);
    }
    assert Pow(2, 1) == 2;
    assert Pow(58, 3) == 195112;
    PowAdd(58, 3, 2);
    PowAdd(58, 5, 2);
    assert Pow(58, 2) == 3364;
  }

  lemma {:induction false} PowSquare(b: nat, n: nat)
    ensures Pow(b, 2 * n) == Pow(b, n) * Pow(b, n)
  {
    PowAdd(b, n, n);
  }

  /** A hundred bytes hold no more than 138 base58 digits do. */
  lemma {:induction false} HundredBytes()
    ensures Pow(256, 100) <= Pow(58, 138)
  {
    hide Pow;
    SmallPowers();
    TwoToTheEight();
    PowMul(2, 8, 100);
    PowGrows(2, 800, 808);
    PowAdd(2, 41 * 19, 29);
    PowMul(2, 41, 19);
    PowMul(58, 7, 19);
    PowAdd(58, 7 * 19, 5);
    PowMonotone(Pow(2, 41), Pow(58, 7), 19);
    MulMonotone(Pow(2, 779), Pow(58, 133), Pow(2, 29), Pow(58, 5));
  }

  lemma {:induction false} TwoToTheEight()
    ensures Pow(2, 8) == 256
  {
    PowSquare(2, 4);
  }

  /** `k` bytes take at most `k * 138 / 100 + 1` digits. */
  lemma {:induction false} DigitBound(v: nat, k: nat)
    requires v < Pow(256, k)
    ensures |Digits(58, v)| <= k * 138 / 100 + 1
  {
    hide Pow, Digits;
    var d := |Digits(58, v)|;
    DigitCount(58, v);
    if d > 0 && 100 * (d - 1) > 138 * k {
      DigitsOfPositive(58, v);
      var low := Pow(58, d - 1);
      assert k * 100 == 100 * k;
      // low < 256^k, and so low^100 <= 256^(100k) <= 58^(138k) < low^100
      PowMonotone(low, Pow(256, k), 100);
      PowMul(58, d - 1, 100);
      PowMul(256, k, 100);
      PowMul(256, 100, k);
      PowMul(58, 138, k);
      HundredBytes();
      PowMonotone(Pow(256, 100), Pow(58, 138), k);
      PowGrows(58, 138 * k, (d - 1) * 100);
    }
  }

  lemma {:induction false} DigitsOfPositive(b: Base, v: nat)
    requires Digits(b, v) != []
    ensures v > 0
  {
  }

  /** The buffer `encode` allocates is always large enough. */
  lemma {:induction false} BoundSuffices(input: seq<byte>)
    ensures |Encoded(input)| <= EncodedLenBound(|input|)
  {
    var zeros := Run(0, input);
    var rest := input[zeros..];
    BigValueBelow(256, rest);
    DigitBound(Number(input), |rest|);
    RevStartsNonzero(58, Number(input));
    assert |Encoded(input)| == zeros + |Digits(58, Number(input))|;
    assert zeros + |rest| * 138 / 100 <= |input| * 138 / 100;
  }

  // ----- in place -----

  /** Counts the leading bytes that are `c`. */
  method CountRun(c: byte, s: seq<byte>) returns (n: nat)
    ensures n == Run(c, s)
  {
    n := 0;
    assert s[0..] == s;
    while n < |s| && s[n] == c
      invariant n <= |s| && Run(c, s) == n + Run(c, s[n..])
    {
      assert s[n..][1..] == s[n + 1..];
      n := n + 1;
    }
  }

  lemma {:induction false} NumberSoFar(b: Base, s: seq<byte>, i: nat)
    requires i < |s|
    ensures BigValue(b, s[..i + 1]) == BigValue(b, s[..i]) * b + s[i] as nat
  {
    assert s[..i + 1][..i] == s[..i];
  }

  /** Once the digits of a number have outgrown the room, reading on does not help. */
  lemma {:induction false} Outgrown(b: Base, m: Base, s: seq<byte>, i: nat, room: nat)
    requires i <= |s| && |Digits(b, BigValue(m, s[..i]))| > room
    ensures |Digits(b, BigValue(m, s))| > room
  {
    BigValueGrows(m, s, i);
    MoreDigits(b, BigValue(m, s[..i]), BigValue(m, s));
  }

  /** Writes a character over each digit. */
  method WriteLetters(out: array<byte>, from: nat, len: nat)
    requires from + len <= out.Length && Below(58, out[from..from + len])
    modifies out
    ensures out[from..from + len] == Spell(old(out[from..from + len])) && out[..from] == old(out[..from])
  {
    ghost var was := out[from..from + len];
    for i := 0 to len
      invariant forall j :: 0 <= j < from ==> out[j] == old(out[j])
      invariant forall j :: from + i <= j < from + len ==> out[j] == was[j - from]
      invariant forall j :: from <= j < from + i ==> out[j] == Letter(was[j - from] as nat)
    {
      out[from + i] := Letter(out[from + i] as nat);
    }
    ghost var now, spelled := out[from..from + len], Spell(was);
    assert forall k :: 0 <= k < len ==> now[k] == out[from + k];
    assert now == spelled;
  }

  method FillFront(out: array<byte>, zeros: nat, c: byte)
    requires zeros <= out.Length
    modifies out
    ensures out[..zeros] == Fill(c, zeros) && out[zeros..] == old(out[zeros..])
  {
    forall j | 0 <= j < zeros {
      out[j] := c;
    }
  }

  /** Converts the bytes past the leading zeros to base-58 digits, the least
      significant first. */
  method EncodeDigits(input: seq<byte>, zeros: nat, out: array<byte>) returns (len: nat, fits: bool)
    requires zeros == Run(0, input) && zeros <= out.Length
    modifies out
    ensures fits <==> |Digits(58, Number(input))| <= out.Length - zeros
    ensures fits ==> zeros + len <= out.Length && out[zeros..zeros + len] == Digits(58, Number(input))
  {
    hide BigValue, Digits, Run;
    len := 0;
    ghost var rest := input[zeros..];
    NoDigits(58);
    NoNumber(256);
    assert rest[..0] == [];
    for i := zeros to |input|
      invariant zeros + len <= out.Length && out[zeros..zeros + len] == Digits(58, BigValue(256, rest[..i - zeros]))
    {
      assert rest[i - zeros] == input[i];
      NumberSoFar(256, rest, i - zeros);
      len, fits := Push(out, zeros, len, 58, 256, input[i], BigValue(256, rest[..i - zeros]));
      if !fits {
        Outgrown(58, 256, rest, i + 1 - zeros, out.Length - zeros);
        return;
      }
    }
    assert rest[..|rest|] == rest;
    fits := true;
  }

  /** `encode_to_slice`: the text, if it fits. */
  method EncodeToSlice(input: seq<byte>, out: array<byte>) returns (r: Result<nat>)
    modifies out
    ensures r == if |Encoded(input)| <= out.Length then Ok(|Encoded(input)|) else Err(BufferTooSmall)
    ensures r.Ok? ==> out[..r.value] == Encoded(input)
  {
    hide Number, BigValue, Digits, Run, Rev, Spell;
    var zeros := CountRun(0, input);
    RevStartsNonzero(58, Number(input));
    DigitsDenote(58, Number(input));
    if zeros > out.Length {
      return Err(BufferTooSmall);
    }
    var len, fits := EncodeDigits(input, zeros, out);
    if !fits {
      return Err(BufferTooSmall);
    }
    Reverse(out, zeros, len);
    WriteLetters(out, zeros, len);
    ghost var text := out[zeros..zeros + len];
    FillFront(out, zeros, ONE);
    assert out[zeros..][..len] == text;
    assert out[..zeros + len] == out[..zeros] + text;
    r := Ok(zeros + len);
  }

  lemma {:induction false} NoDigits(b: Base)
    ensures Digits(b, 0) == []
  {
  }

  lemma {:induction false} NoNumber(b: Base)
    ensures BigValue(b, []) == 0
  {
  }

  /** The digits of a text, one more at a time. */
  lemma {:induction false} UnspellNext(t: seq<byte>, i: nat)
    requires i <= |Unspell(t)| && i < |t|
    ensures CharValue(t[i]).Some? <==> i < |Unspell(t)|
    ensures CharValue(t[i]).Some? ==> Unspell(t)[i] as nat == CharValue(t[i]).value
  {
    if i < |Unspell(t)| {
      assert Letter(Unspell(t)[i] as nat) == t[i];
    }
  }

  /** Converts the characters past the leading ones to bytes at `out[from..]`, the
      least significant first, up to the first thing amiss. */
  method DecodeDigits(text: seq<byte>, zeros: nat, out: array<byte>, from: nat) returns (len: nat, error: Option<Error>)
    requires zeros == Run(ONE, text) && from <= out.Length
    modifies out
    ensures var digits := Unspell(text[zeros..]);
            var bytes := Digits(256, BigValue(58, digits));
            && error == (if |bytes| > out.Length - from then Some(BufferTooSmall)
                         else if |digits| < |text| - zeros then Some(InvalidChar(text[zeros + |digits|]))
                         else None)
            && (error == None ==> from + len <= out.Length && out[from..from + len] == bytes)
  {
    hide BigValue, Digits, Run, Unspell, CharValue;
    ghost var tail := text[zeros..];
    ghost var digits := Unspell(tail);
    len := 0;
    NoDigits(256);
    NoNumber(58);
    assert digits[..0] == [];
    for i := zeros to |text|
      invariant i - zeros <= |digits|
      invariant from + len <= out.Length && out[from..from + len] == Digits(256, BigValue(58, digits[..i - zeros]))
    {
      assert tail[i - zeros] == text[i];
      UnspellNext(tail, i - zeros);
      var value := CharValue(text[i]);
      if value == None {
        assert digits[..i - zeros] == digits;
        return len, Some(InvalidChar(text[i]));
      }
      NumberSoFar(58, digits, i - zeros);
      var fits;
      len, fits := Push(out, from, len, 256, 58, value.value as byte, BigValue(58, digits[..i - zeros]));
      if !fits {
        Outgrown(256, 58, digits, i + 1 - zeros, out.Length - from);
        return len, Some(BufferTooSmall);
      }
    }
    assert digits[..|digits|] == digits;
    error := None;
  }

  /** `decode_to_slice`: the bytes, or what is amiss. */
  method DecodeToSlice(text: seq<byte>, out: array<byte>) returns (r: Result<nat>)
    modifies out
    ensures r == match Decoded(text, out.Length)
                 case Ok(bytes) => Ok(|bytes|)
                 case Err(e) => Err(e)
    ensures r.Ok? ==> out[..r.value] == Decoded(text, out.Length).value
  {
    hide BigValue, Digits, Run, Unspell, CharValue, Rev;
    var zeros := CountRun(ONE, text);
    if zeros > out.Length {
      return Err(BufferTooSmall);
    }
    var len, error := DecodeDigits(text, zeros, out, zeros);
    if error.Some? {
      return Err(error.value);
    }
    Reverse(out, zeros, len);
    ghost var bytes := out[zeros..zeros + len];
    FillFront(out, zeros, 0);
    assert out[zeros..][..len] == bytes;
    assert out[..zeros + len] == out[..zeros] + bytes;
    r := Ok(zeros + len);
  }

  /** `decode_32_const`: the text of exactly 32 bytes. Any other does not compile. */
  method Decode32(text: seq<byte>) returns (r: Option<seq<byte>>)
    ensures r == match Decoded(text, |text|)
                 case Ok(bytes) => if |bytes| == 32 then Some(bytes) else None
                 case Err(_) => None
  {
    hide BigValue, Digits, Run, Unspell, CharValue;
    var zeros := CountRun(ONE, text);
    var acc := new byte[33](_ => 0);
    var len, error := DecodeDigits(text, zeros, acc, 0);
    ghost var digits := Unspell(text[zeros..]);
    ghost var bytes := Digits(256, BigValue(58, digits));
    DecodedFits(digits);
    assert |Rev(bytes)| == |bytes|;
    if error.Some? || zeros + len != 32 {
      return None;
    }
    assert acc[0..len] == bytes;
    assert Decoded(text, |text|) == Ok(Fill(0, zeros) + Rev(bytes));
    var out := new byte[32](_ => 0);
    forall k | 0 <= k < len {
      out[31 - k] := acc[k];
    }
    ghost var now, all := out[..], Fill(0, zeros) + Rev(bytes);
    forall i | 0 <= i < 32 ensures now[i] == all[i] {
      if i >= zeros {
        assert out[31 - (31 - i)] == bytes[31 - i];
      }
    }
    assert now == all;
    r := Some(out[..]);
  }
}
