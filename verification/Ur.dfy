/** UR strings, src/bcur/mod.rs: taken apart, and printed. Text is ASCII, kept as bytes. */
module Ur {
  import opened Options
  import opened Bytes
  import opened Ascii
  import opened Decoder
  import W = Bytewords

  const SLASH: byte := 47

  /** The components of a UR string. */
  datatype Ur = Ur(urType: seq<byte>, sequence: Option<(Index, Index)>, body: seq<byte>)

  // ----- numbers -----

  /** The digits of `parse_index`, taken in one by one: none if one is no digit, or the
      number outgrows 32 bits. */
  function Digits(text: seq<byte>): (v: Option<nat>)
    ensures v.Some? ==> v.value < U32
  {
    if text == [] then Some(0)
    else
      var front, c := Digits(text[..|text| - 1]), text[|text| - 1];
      if front.None? || !IsDigit(c) || 10 * front.value + (c as nat - 48) >= U32 then None
      else Some(10 * front.value + (c as nat - 48))
  }

  /** `parse_index`. */
  function ParseIndex(text: seq<byte>): Option<Index> {
    var v := Digits(text);
    if text == [] || v.None? || v.value == 0 then None else Some(v.value)
  }

  /** Once refused, whatever follows. */
  lemma {:induction false} DigitsStop(text: seq<byte>, i: nat)
    requires i <= |text| && Digits(text[..i]).None?
    ensures Digits(text).None?
    decreases |text| - i
  {
    if i < |text| {
      assert text[..i + 1][..i] == text[..i];
      DigitsStop(text, i + 1);
    } else {
      assert text[..i] == text;
    }
  }

  /** The loop of `parse_index`. */
  method ReadIndex(text: seq<byte>) returns (r: Option<Index>)
    ensures r == ParseIndex(text)
  {
    if text == [] {
      return None;
    }
    var value: nat := 0;
    for i := 0 to |text|
      invariant Digits(text[..i]) == Some(value)
    {
      var c := text[i];
      assert text[..i + 1][..i] == text[..i];
      if !IsDigit(c) || 10 * value >= U32 || 10 * value + (c as nat - 48) >= U32 {
        DigitsStop(text, i + 1);
        return None;
      }
      value := 10 * value + (c as nat - 48);
    }
    assert text[..|text|] == text;
    r := if value > 0 then Some(value) else None;
  }

  /** The number that digits stand for. */
  function Value(text: seq<byte>): nat
    requires forall i :: 0 <= i < |text| ==> IsDigit(text[i])
  {
    if text == [] then 0
    else
      var c := text[|text| - 1];
      assert IsDigit(c);
      10 * Value(text[..|text| - 1]) + (c as nat - 48)
  }

  /** An index is read exactly from the digits of a positive 32-bit number, leading zeros
      and all. */
  lemma {:induction false} IndexIsExact(text: seq<byte>)
    ensures (forall i :: 0 <= i < |text| ==> IsDigit(text[i])) ==>
              ParseIndex(text) == if 0 < Value(text) < U32 then Some(Value(text)) else None
    ensures !(forall i :: 0 <= i < |text| ==> IsDigit(text[i])) ==> ParseIndex(text) == None
  {
    hide Value;
    DigitsAreValue(text);
    if text == [] {
      ValueOfNothing();
    }
  }

  lemma {:induction false} ValueOfNothing()
    ensures Value([]) == 0
  {
  }

  lemma {:induction false} DigitsAreValue(text: seq<byte>)
    ensures (forall i :: 0 <= i < |text| ==> IsDigit(text[i])) ==>
              Digits(text) == if Value(text) < U32 then Some(Value(text)) else None
    ensures !(forall i :: 0 <= i < |text| ==> IsDigit(text[i])) ==> Digits(text) == None
  {
    if text != [] {
      var front, c := text[..|text| - 1], text[|text| - 1];
      DigitsAreValue(front);
      assert text == front + [c];
    }
  }

  /** A number in decimal. */
  function Decimal(n: nat): (s: seq<byte>)
    ensures s != [] && forall i :: 0 <= i < |s| ==> IsDigit(s[i])
  {
    if n < 10 then [(48 + n) as byte] else Decimal(n / 10) + [(48 + n % 10) as byte]
  }

  lemma {:induction false} DecimalReadsBack(n: Index)
    ensures ParseIndex(Decimal(n)) == Some(n)
  {
    ValueOfDecimal(n);
    IndexIsExact(Decimal(n));
  }

  lemma {:induction false} ValueOfDecimal(n: nat)
    ensures Value(Decimal(n)) == n
  {
    if n < 10 {
      ValueOfNothing();
      assert Decimal(n)[..0] == [];
    } else {
      ValueOfDecimal(n / 10);
      assert Decimal(n)[..|Decimal(n)| - 1] == Decimal(n / 10);
    }
  }

  // ----- components -----

  /** The last separator, if there is one. */
  function LastSep(text: seq<byte>, sep: byte): (pos: Option<nat>)
    ensures pos.Some? ==> pos.value < |text| && text[pos.value] == sep && forall i :: pos.value < i < |text| ==> text[i] != sep
    ensures pos.None? ==> forall i :: 0 <= i < |text| ==> text[i] != sep
  {
    if text == [] then None
    else if text[|text| - 1] == sep then Some(|text| - 1)
    else LastSep(text[..|text| - 1], sep)
  }

  /** `validate_type`, of a type in any case. */
  predicate ValidAnyCase(urType: seq<byte>) {
    urType != [] && forall i :: 0 <= i < |urType| ==>
      IsLower(urType[i]) || IsDigit(urType[i]) || urType[i] == DASH || IsUpper(urType[i])
  }

  const SCHEME: seq<byte> := [117, 114, 58]

  /** `Ur::parse`. */
  function Parse(text: seq<byte>): Result<Ur> {
    if |text| < 3 || LowerAll(text[..3]) != SCHEME then Err(InvalidScheme)
    else
      var rest := text[3..];
      var n := W.FirstSep(rest, SLASH);
      if n == |rest| then Err(InvalidType)
      else if !ValidAnyCase(rest[..n]) then Err(InvalidType)
      else ParseRest(rest[..n], rest[n + 1..])
  }

  /** What follows the type. */
  function ParseRest(urType: seq<byte>, rest: seq<byte>): Result<Ur> {
    var last := LastSep(rest, SLASH);
    if last.None? then Ok(Ur(urType, None, rest))
    else
      var sequence := ParseSequence(rest[..last.value]);
      if sequence.None? then Err(InvalidSequence) else Ok(Ur(urType, sequence, rest[last.value + 1..]))
  }

  function ParseSequence(text: seq<byte>): Option<(Index, Index)> {
    var n := W.FirstSep(text, DASH);
    if n == |text| then None
    else
      var seqNum, seqLen := ParseIndex(text[..n]), ParseIndex(text[n + 1..]);
      if seqNum.None? || seqLen.None? then None else Some((seqNum.value, seqLen.value))
  }

  function PrintSequence(sequence: (Index, Index)): seq<byte> {
    Decimal(sequence.0) + [DASH] + Decimal(sequence.1)
  }

  /** The string of a UR. */
  function Print(u: Ur): seq<byte> {
    SCHEME + (u.urType + [SLASH] + (if u.sequence.Some? then PrintSequence(u.sequence.value) + [SLASH] else []) + u.body)
  }

  // ----- what is printed is parsed -----

  lemma {:induction false} FirstSepIs(text: seq<byte>, sep: byte, n: nat)
    requires n < |text| && text[n] == sep && forall i :: 0 <= i < n ==> text[i] != sep
    ensures W.FirstSep(text, sep) == n
  {
    hide W.FirstSep;
  }

  lemma {:induction false} LastSepIs(text: seq<byte>, sep: byte, n: nat)
    requires n < |text| && text[n] == sep && forall i :: n < i < |text| ==> text[i] != sep
    ensures LastSep(text, sep) == Some(n)
  {
    hide LastSep;
  }

  lemma {:induction false} SequenceReadsBack(sequence: (Index, Index))
    ensures ParseSequence(PrintSequence(sequence)) == Some(sequence)
    ensures forall i :: 0 <= i < |PrintSequence(sequence)| ==> PrintSequence(sequence)[i] != SLASH
  {
    hide Decimal, ParseIndex, W.FirstSep;
    var a, b, t := Decimal(sequence.0), Decimal(sequence.1), PrintSequence(sequence);
    FirstSepIs(t, DASH, |a|);
    assert t[..|a|] == a && t[|a| + 1..] == b;
    DecimalReadsBack(sequence.0);
    DecimalReadsBack(sequence.1);
  }

  /** A UR printed is parsed back, if its type is valid and its body holds no slash. */
  lemma {:induction false} PrintReadsBack(u: Ur)
    requires ValidAnyCase(u.urType) && forall i :: 0 <= i < |u.body| ==> u.body[i] != SLASH
    ensures Parse(Print(u)) == Ok(u)
  {
    hide PrintSequence, W.FirstSep, ParseRest;
    var head := if u.sequence.Some? then PrintSequence(u.sequence.value) + [SLASH] else [];
    var t, rest := Print(u), u.urType + [SLASH] + head + u.body;
    assert t[..3] == SCHEME && t[3..] == rest;
    SchemeIsLower();
    TypeHasNoSlash(u.urType);
    FirstSepIs(rest, SLASH, |u.urType|);
    assert rest[..|u.urType|] == u.urType && rest[|u.urType| + 1..] == head + u.body;
    RestReadsBack(u);
  }

  lemma {:induction false} SchemeIsLower()
    ensures LowerAll(SCHEME) == SCHEME
  {
  }

  lemma {:induction false} TypeHasNoSlash(urType: seq<byte>)
    requires ValidAnyCase(urType)
    ensures forall i :: 0 <= i < |urType| ==> urType[i] != SLASH
  {
  }

  lemma {:induction false} RestReadsBack(u: Ur)
    requires forall i :: 0 <= i < |u.body| ==> u.body[i] != SLASH
    ensures ParseRest(u.urType, (if u.sequence.Some? then PrintSequence(u.sequence.value) + [SLASH] else []) + u.body) == Ok(u)
  {
    hide PrintSequence, ParseSequence, LastSep;
    if u.sequence.Some? {
      var s := PrintSequence(u.sequence.value);
      var rest := s + [SLASH] + u.body;
      SequenceReadsBack(u.sequence.value);
      LastSepIs(rest, SLASH, |s|);
      assert rest[..|s|] == s && rest[|s| + 1..] == u.body;
    } else {
      assert [] + u.body == u.body;
    }
  }

  // ----- case -----

  /** A UR in lower case. */
  function LowerUr(r: Result<Ur>): Result<Ur> {
    if r.Err? then r else Ok(Ur(LowerAll(r.value.urType), r.value.sequence, LowerAll(r.value.body)))
  }

  lemma {:induction false} SlashStays(c: byte)
    ensures (Lower(c) == SLASH <==> c == SLASH) && (Lower(c) == DASH <==> c == DASH) && (IsDigit(Lower(c)) <==> IsDigit(c))
    ensures IsDigit(c) ==> Lower(c) == c
  {
  }

  lemma {:induction false} FirstSepOfLower(text: seq<byte>, sep: byte)
    requires sep == SLASH || sep == DASH
    ensures W.FirstSep(LowerAll(text), sep) == W.FirstSep(text, sep)
  {
    hide Lower;
    if text != [] {
      SlashStays(text[0]);
      FirstSepOfLower(text[1..], sep);
      assert LowerAll(text)[1..] == LowerAll(text[1..]);
    }
  }

  lemma {:induction false} LastSepOfLower(text: seq<byte>)
    ensures LastSep(LowerAll(text), SLASH) == LastSep(text, SLASH)
  {
    hide Lower;
    if text != [] {
      var n := |text| - 1;
      SlashStays(text[n]);
      LastSepOfLower(text[..n]);
      assert LowerAll(text)[..n] == LowerAll(text[..n]);
    }
  }

  lemma {:induction false} DigitsOfLower(text: seq<byte>)
    ensures Digits(LowerAll(text)) == Digits(text)
  {
    hide Lower, IsDigit;
    if text != [] {
      var n := |text| - 1;
      SlashStays(text[n]);
      DigitsOfLower(text[..n]);
      assert LowerAll(text)[..n] == LowerAll(text[..n]);
    }
  }

  lemma {:induction false} SequenceOfLower(text: seq<byte>)
    ensures ParseSequence(LowerAll(text)) == ParseSequence(text)
  {
    hide Lower, Digits, W.FirstSep;
    FirstSepOfLower(text, DASH);
    var n := W.FirstSep(text, DASH);
    if n < |text| {
      DigitsOfLower(text[..n]);
      DigitsOfLower(text[n + 1..]);
      assert LowerAll(text)[..n] == LowerAll(text[..n]) && LowerAll(text)[n + 1..] == LowerAll(text[n + 1..]);
    }
  }

  lemma {:induction false} TypeOfLower(urType: seq<byte>)
    ensures ValidAnyCase(LowerAll(urType)) <==> ValidAnyCase(urType)
  {
    var low := LowerAll(urType);
    forall i | 0 <= i < |urType|
      ensures (IsLower(low[i]) || IsDigit(low[i]) || low[i] == DASH || IsUpper(low[i]))
         <==> (IsLower(urType[i]) || IsDigit(urType[i]) || urType[i] == DASH || IsUpper(urType[i]))
    {
    }
  }

  lemma {:induction false} RestOfLower(urType: seq<byte>, rest: seq<byte>)
    ensures ParseRest(LowerAll(urType), LowerAll(rest)) == LowerUr(ParseRest(urType, rest))
  {
    hide Lower, LastSep, ParseSequence;
    LastSepOfLower(rest);
    var last := LastSep(rest, SLASH);
    if last.Some? {
      var n := last.value;
      SequenceOfLower(rest[..n]);
      assert LowerAll(rest)[..n] == LowerAll(rest[..n]) && LowerAll(rest)[n + 1..] == LowerAll(rest[n + 1..]);
    }
  }

  /** The case of a string only shows in the case of its parts. */
  lemma {:induction false} ParseOfLower(text: seq<byte>)
    ensures Parse(LowerAll(text)) == LowerUr(Parse(text))
  {
    hide Lower, W.FirstSep, ParseRest, ValidAnyCase;
    if |text| >= 3 {
      assert LowerAll(text)[..3] == LowerAll(text[..3]) && LowerAll(text)[3..] == LowerAll(text[3..]);
      LowerTwice(text[..3]);
      var rest := text[3..];
      var n := W.FirstSep(rest, SLASH);
      FirstSepOfLower(rest, SLASH);
      if n < |rest| {
        assert LowerAll(rest)[..n] == LowerAll(rest[..n]) && LowerAll(rest)[n + 1..] == LowerAll(rest[n + 1..]);
        TypeOfLower(rest[..n]);
        RestOfLower(rest[..n], rest[n + 1..]);
      }
    }
  }
}
