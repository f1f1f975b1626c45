/** Bech32 strings and segwit addresses: src/bech32.rs. */
module Bech32 {
  import opened Options
  import opened Bytes
  import opened Ascii
  import P = Polymod
  import G = BitGroups
  import R = Radix
  import V = VariantGap
  import opened SliceWriters

  datatype Variant = Bech32 | Bech32m

  datatype Error =
    | MixedCase | InvalidSeparator | InvalidChar | InvalidChecksum | InvalidPadding | PrefixMismatch
    | InvalidWitnessVersion | InvalidProgramLength | WrongVariant | InvalidHashLength | InvalidVersionByte
    | EmptyPayload | BufferTooSmall

  datatype Result<+T> = Ok(value: T) | Err(error: Error)

  function Constant(v: Variant): P.Word {
    if v == Bech32 then 1 else 0x2bc8_30a3
  }

  // ----- characters -----

  const ONE: byte := 49

  const CHARSET: seq<byte> :=
    [113, 112, 122, 114, 121, 57, 120, 56, 103, 102, 50, 116, 118, 100, 119, 48,
     115, 51, 106, 110, 53, 52, 107, 104, 99, 101, 54, 109, 117, 97, 55, 108]

  function Letter(v: byte): (c: byte)
    requires v < 32
    ensures c == CHARSET[v]
  {
    CHARSET[v]
  }

  /** The letters are digits and lower-case letters, and none is a `1`. */
  lemma {:induction false} LetterKind(v: byte)
    requires v < 32
    ensures var c := Letter(v); c != ONE && !IsUpper(c) && Lower(c) == c && (IsLower(c) || 48 <= c <= 57)
  {
  }

  /** The position of `c` in the alphabet, from `from` on. */
  function FindLetter(c: byte, from: byte): (v: Option<byte>)
    requires from <= 32
    ensures v.Some? ==> from <= v.value < 32 && Letter(v.value) == c
    ensures v.None? ==> forall w: byte :: from <= w < 32 ==> Letter(w) != c
    decreases 32 - from as nat
  {
    if from == 32 then None else if Letter(from) == c then Some(from) else FindLetter(c, from + 1)
  }

  /** `charset_rev`. */
  function CharsetRev(c: byte): (v: Option<byte>)
    ensures v.Some? ==> v.value < 32 && Letter(v.value) == Lower(c)
  {
    FindLetter(Lower(c), 0)
  }

  /** The alphabet has no letter twice. */
  lemma {:induction false} LettersDiffer(v: byte, w: byte)
    requires v < w < 32
    ensures Letter(v) != Letter(w)
  {
  }

  lemma {:induction false} RevOfLetter(v: byte)
    requires v < 32
    ensures CharsetRev(Letter(v)) == Some(v)
  {
    hide Letter;
    LetterKind(v);
    var found := FindLetter(Letter(v), 0);
    if found.Some? && found.value != v {
      if found.value < v {
        LettersDiffer(found.value, v);
      } else {
        LettersDiffer(v, found.value);
      }
    }
  }

  function Spell(vals: seq<byte>): (t: seq<byte>)
    requires P.FiveBit(vals)
    ensures |t| == |vals| && forall i :: 0 <= i < |t| ==> t[i] == Letter(vals[i])
  {
    seq(|vals|, i requires 0 <= i < |vals| => Letter(vals[i]))
  }

  ghost predicate AllLetters(t: seq<byte>) {
    forall i :: 0 <= i < |t| ==> CharsetRev(t[i]).Some?
  }

  /** The values of characters that are all in the alphabet. */
  function Values(t: seq<byte>): (vals: seq<byte>)
    requires AllLetters(t)
    ensures |vals| == |t| && P.FiveBit(vals) && forall i :: 0 <= i < |t| ==> CharsetRev(t[i]) == Some(vals[i])
  {
    seq(|t|, i requires 0 <= i < |t| => CharsetRev(t[i]).value)
  }

  lemma {:induction false} SpelledReadsBack(vals: seq<byte>)
    requires P.FiveBit(vals)
    ensures AllLetters(Spell(vals)) && Values(Spell(vals)) == vals
  {
    hide Letter, CharsetRev;
    forall i | 0 <= i < |vals| ensures CharsetRev(Spell(vals)[i]) == Some(vals[i]) {
      RevOfLetter(vals[i]);
    }
  }

  lemma {:induction false} ReadSpellsBack(t: seq<byte>)
    requires AllLetters(t)
    ensures Spell(Values(t)) == LowerAll(t)
  {
    hide Letter;
  }

  // ----- the human-readable part -----

  /** Its top bits, a zero, and its low bits. */
  function Spread(hrp: seq<byte>): (vals: seq<byte>)
    ensures P.FiveBit(vals)
  {
    var low := LowerAll(hrp);
    seq(|low|, i requires 0 <= i < |low| => low[i] / 32) + [0] + seq(|low|, i requires 0 <= i < |low| => low[i] % 32)
  }

  /** The register after the human-readable part. */
  ghost function HrpState(hrp: seq<byte>): P.Word {
    P.Feed(P.Bech32, 1, Spread(hrp))
  }

  lemma {:induction false} HrpStateStays(hrp: seq<byte>)
    ensures P.InRegister(P.Bech32, HrpState(hrp))
  {
    hide Spread;
    P.FeedStays(P.Bech32, 1, Spread(hrp));
  }

  lemma {:induction false} SpreadAt(hrp: seq<byte>)
    ensures var all, n := Spread(hrp), |hrp|;
            && |all| == 2 * n + 1 && all[n] == 0
            && (forall i :: 0 <= i < n ==> all[i] == Lower(hrp[i]) / 32)
            && (forall i {:trigger hrp[i]} :: 0 <= i < n ==> all[n + 1 + i] == Lower(hrp[i]) % 32)
  {
  }

  lemma {:induction false} NextFed(all: seq<byte>, i: nat)
    requires P.FiveBit(all) && i < |all|
    ensures P.Feed(P.Bech32, 1, all[..i + 1]) == P.Step(P.Bech32, P.Feed(P.Bech32, 1, all[..i]), P.Sym(all[i]))
  {
    hide P.Step, P.Sym, P.Feed;
    assert all[..i + 1] == all[..i] + [all[i]];
    P.FeedOne(P.Bech32, 1, all[..i], all[i]);
  }

  /** `bech32_hrp_polymod`. */
  method HrpPolymod(hrp: seq<byte>) returns (chk: P.Word)
    ensures chk == HrpState(hrp)
  {
    hide P.Step, P.Sym, P.Feed, Spread, Lower;
    ghost var all := Spread(hrp);
    SpreadAt(hrp);
    chk := 1;
    assert P.Feed(P.Bech32, 1, all[..0]) == 1 by {
      NothingFed();
      assert all[..0] == [];
    }
    for i := 0 to |hrp|
      invariant chk == P.Feed(P.Bech32, 1, all[..i])
    {
      NextFed(all, i);
      chk := P.Step(P.Bech32, chk, P.Sym(Lower(hrp[i]) / 32));
    }
    NextFed(all, |hrp|);
    chk := P.Step(P.Bech32, chk, P.Sym(0));
    for i := 0 to |hrp|
      invariant chk == P.Feed(P.Bech32, 1, all[..|hrp| + 1 + i])
    {
      NextFed(all, |hrp| + 1 + i);
      assert all[|hrp| + 1 + i] == Lower(hrp[i]) % 32;
      chk := P.Step(P.Bech32, chk, P.Sym(Lower(hrp[i]) % 32));
    }
    assert all[..2 * |hrp| + 1] == all;
  }

  lemma {:induction false} NothingFed()
    ensures P.Feed(P.Bech32, 1, []) == 1
  {
  }

  // ----- strings -----

  /** The six symbols that end the string of `hrp` and `vals`. */
  ghost function Sum(hrp: seq<byte>, vals: seq<byte>, variant: Variant): (sum: seq<byte>)
    requires P.FiveBit(vals)
    ensures P.FiveBit(sum) && |sum| == 6
  {
    P.Checksum(P.Bech32, P.Feed(P.Bech32, HrpState(hrp), vals), Constant(variant))
  }

  /** The bech32 string of 5-bit values. */
  ghost function Encoded(hrp: seq<byte>, vals: seq<byte>, variant: Variant): (t: seq<byte>)
    requires P.FiveBit(vals)
    ensures |t| == |hrp| + 1 + |vals| + 6
  {
    hrp + [ONE] + Spell(vals + Sum(hrp, vals, variant))
  }

  predicate MixedCaseText(t: seq<byte>) {
    (exists i :: 0 <= i < |t| && IsLower(t[i])) && (exists i :: 0 <= i < |t| && IsUpper(t[i]))
  }

  /** `rfind('1')`. */
  function LastOne(t: seq<byte>): (pos: Option<nat>)
    ensures pos.Some? ==> pos.value < |t| && t[pos.value] == ONE && forall i :: pos.value < i < |t| ==> t[i] != ONE
    ensures pos.None? ==> forall i :: 0 <= i < |t| ==> t[i] != ONE
  {
    if t == [] then None
    else if t[|t| - 1] == ONE then Some(|t| - 1)
    else LastOne(t[..|t| - 1])
  }

  datatype Parsed = Parsed(hrp: seq<byte>, chars: seq<byte>, variant: Variant)

  /** Which constant the register ended with. */
  function WhichVariant(chk: P.Word): Option<Variant> {
    if chk == Constant(Bech32) then Some(Bech32)
    else if chk == Constant(Bech32m) then Some(Bech32m)
    else None
  }

  /** What `bech32_parse` makes of a string. */
  ghost function Parse(t: seq<byte>): Result<Parsed> {
    if MixedCaseText(t) then Err(MixedCase)
    else
      var pos := LastOne(t);
      if pos.None? || pos.value == 0 || pos.value + 7 > |t| then Err(InvalidSeparator)
      else ParseAt(t[..pos.value], t[pos.value + 1..])
  }

  ghost function ParseAt(hrp: seq<byte>, rest: seq<byte>): Result<Parsed>
    requires |rest| >= 6
  {
    if !AllLetters(rest) then Err(InvalidChar)
    else
      var variant := WhichVariant(P.Feed(P.Bech32, HrpState(hrp), Values(rest)));
      if variant.None? then Err(InvalidChecksum) else Ok(Parsed(hrp, rest[..|rest| - 6], variant.value))
  }

  /** `bech32_parse`. */
  method ParseText(t: seq<byte>) returns (r: Result<Parsed>)
    ensures r == Parse(t)
  {
    hide P.Step, P.Sym, P.Feed, Letter, Lower, IsUpper, CharsetRev, LastOne, HrpState, Spread;
    var hasLower := exists i :: 0 <= i < |t| && IsLower(t[i]);
    var hasUpper := exists i :: 0 <= i < |t| && IsUpper(t[i]);
    if hasLower && hasUpper {
      return Err(MixedCase);
    }
    var pos := LastOne(t);
    if pos.None? {
      return Err(InvalidSeparator);
    }
    if pos.value == 0 || pos.value + 7 > |t| {
      return Err(InvalidSeparator);
    }
    var hrp, rest := t[..pos.value], t[pos.value + 1..];
    var chk := HrpPolymod(hrp);
    assert Values(rest[..0]) == [];
    FeedNothing(P.Bech32, chk);
    for i := 0 to |rest|
      invariant AllLetters(rest[..i]) && chk == P.Feed(P.Bech32, HrpState(hrp), Values(rest[..i]))
    {
      var v := CharsetRev(rest[i]);
      if v.None? {
        return Err(InvalidChar);
      }
      assert rest[..i + 1] == rest[..i] + [rest[i]];
      assert Values(rest[..i + 1]) == Values(rest[..i]) + [v.value];
      P.FeedOne(P.Bech32, HrpState(hrp), Values(rest[..i]), v.value);
      chk := P.Step(P.Bech32, chk, P.Sym(v.value));
    }
    assert rest[..|rest|] == rest;
    if chk == Constant(Bech32) {
      return Ok(Parsed(hrp, rest[..|rest| - 6], Bech32));
    } else if chk == Constant(Bech32m) {
      return Ok(Parsed(hrp, rest[..|rest| - 6], Bech32m));
    }
    r := Err(InvalidChecksum);
  }

  // ----- what is encoded is parsed, and nothing else -----

  lemma {:induction false} ConstantStays(v: Variant)
    ensures P.InRegister(P.Bech32, Constant(v)) && WhichVariant(Constant(v)) == Some(v)
  {
  }

  /** The register tells whether the last six symbols are the checksum. */
  lemma {:induction false} SumVerifies(hrp: seq<byte>, vals: seq<byte>, sum: seq<byte>, variant: Variant)
    requires P.FiveBit(vals) && P.FiveBit(sum) && |sum| == 6
    ensures WhichVariant(P.Feed(P.Bech32, HrpState(hrp), vals + sum)) == Some(variant)
       <==> sum == Sum(hrp, vals, variant)
  {
    hide P.Feed, P.InRegister, P.Checksum, HrpState;
    var c := P.Feed(P.Bech32, HrpState(hrp), vals);
    HrpStateStays(hrp);
    P.FeedStays(P.Bech32, HrpState(hrp), vals);
    P.FeedAppend(P.Bech32, HrpState(hrp), vals, sum);
    ConstantStays(variant);
    P.OnlyChecksum(P.Bech32, c, Constant(variant), sum);
  }

  lemma {:induction false} ParseOfSpelled(hrp: seq<byte>, vals: seq<byte>, variant: Variant)
    requires P.FiveBit(vals)
    ensures ParseAt(hrp, Spell(vals + Sum(hrp, vals, variant))) == Ok(Parsed(hrp, Spell(vals), variant))
  {
    hide P.Feed, Sum, HrpState, WhichVariant, CharsetRev, Letter;
    var sum := Sum(hrp, vals, variant);
    SpelledReadsBack(vals + sum);
    SumVerifies(hrp, vals, sum, variant);
    assert Spell(vals + sum)[..|vals|] == Spell(vals);
  }

  /** The last `1` of an encoded string is its separator. */
  lemma {:induction false} SeparatorIsLast(hrp: seq<byte>, vals: seq<byte>)
    requires P.FiveBit(vals)
    ensures LastOne(hrp + [ONE] + Spell(vals)) == Some(|hrp|)
  {
    hide Letter, LastOne;
    var t := hrp + [ONE] + Spell(vals);
    assert t[|hrp|] == ONE;
    forall i | |hrp| < i < |t| ensures t[i] != ONE {
      LetterKind(vals[i - |hrp| - 1]);
    }
  }

  /** Parsing an encoded string gives back its parts: unless it has no
      human-readable part, or one in upper case. */
  lemma {:induction false} ParseInvertsEncode(hrp: seq<byte>, vals: seq<byte>, variant: Variant)
    requires P.FiveBit(vals)
    ensures var t := Encoded(hrp, vals, variant);
            Parse(t) == if MixedCaseText(t) then Err(MixedCase)
                        else if hrp == [] then Err(InvalidSeparator)
                        else Ok(Parsed(hrp, Spell(vals), variant))
  {
    hide P.Feed, Sum, HrpState, ParseAt, LastOne, MixedCaseText;
    var all := vals + Sum(hrp, vals, variant);
    var t := Encoded(hrp, vals, variant);
    SeparatorIsLast(hrp, all);
    ParseOfSpelled(hrp, vals, variant);
    assert t[..|hrp|] == hrp && t[|hrp| + 1..] == Spell(all);
  }

  /** In lower case, a string is never of mixed case. */
  lemma {:induction false} LowerIsNotMixed(hrp: seq<byte>, vals: seq<byte>)
    requires P.FiveBit(vals) && forall i :: 0 <= i < |hrp| ==> !IsUpper(hrp[i])
    ensures !MixedCaseText(hrp + [ONE] + Spell(vals))
  {
    hide Letter;
    var t := hrp + [ONE] + Spell(vals);
    forall i | 0 <= i < |t| ensures !IsUpper(t[i]) {
      if i > |hrp| {
        LetterKind(vals[i - |hrp| - 1]);
      }
    }
  }

  /** Every string that parses is, up to case, the encoding of its parts. */
  lemma {:induction false} EncodeInvertsParse(t: seq<byte>)
    requires Parse(t).Ok?
    ensures var Parsed(hrp, chars, variant) := Parse(t).value;
            AllLetters(chars) && LowerAll(t) == LowerAll(hrp) + [ONE] + Spell(Values(chars) + Sum(hrp, Values(chars), variant))
  {
    hide ParseAt, Sum, LastOne, MixedCaseText, CharsetRev, Letter, Lower;
    var pos := LastOne(t).value;
    var hrp, rest := t[..pos], t[pos + 1..];
    EncodeInvertsParseAt(hrp, rest);
    assert t == hrp + [ONE] + rest;
    assert Lower(ONE) == ONE by {
      OneIsLower();
    }
    assert LowerAll(t) == LowerAll(hrp) + [ONE] + LowerAll(rest);
  }

  lemma {:induction false} OneIsLower()
    ensures Lower(ONE) == ONE
  {
  }

  lemma {:induction false} EncodeInvertsParseAt(hrp: seq<byte>, rest: seq<byte>)
    requires |rest| >= 6 && ParseAt(hrp, rest).Ok?
    ensures var Parsed(h, chars, variant) := ParseAt(hrp, rest).value;
            h == hrp && AllLetters(chars) && LowerAll(rest) == Spell(Values(chars) + Sum(hrp, Values(chars), variant))
  {
    hide P.Feed, Sum, HrpState, WhichVariant, CharsetRev, Letter, Lower;
    var n := |rest| - 6;
    var vals, sum := Values(rest[..n]), Values(rest[n..]);
    assert Values(rest) == vals + sum;
    SumVerifies(hrp, vals, sum, ParseAt(hrp, rest).value.variant);
    ReadSpellsBack(rest);
  }

  /** One data symbol replaced by another never verifies under the same variant. */
  lemma {:induction false} SubstitutionIsDetected(t: seq<byte>, i: nat, c: byte)
    requires Parse(t).Ok? && |Parse(t).value.hrp| < i < |t|
    requires CharsetRev(c).Some? && CharsetRev(c) != CharsetRev(t[i])
    ensures Parse(t[i := c]).Ok? ==> Parse(t[i := c]).value.variant != Parse(t).value.variant
  {
    hide P.Feed, HrpState, MixedCaseText, CharsetRev, Letter;
    var pos := LastOne(t).value;
    var hrp, rest, u := t[..pos], t[pos + 1..], t[i := c];
    RevIsNoOne(c);
    SameSeparator(t, i, c);
    var k := i - pos - 1;
    assert u[..pos] == hrp && u[pos + 1..] == rest[k := c] && rest[k] == t[i];
    SymbolShows(hrp, rest, k, c);
  }

  lemma {:induction false} RevIsNoOne(c: byte)
    requires CharsetRev(c).Some?
    ensures c != ONE
  {
    hide Letter;
    LetterKind(CharsetRev(c).value);
  }

  lemma {:induction false} SameSeparator(t: seq<byte>, i: nat, c: byte)
    requires LastOne(t).Some? && LastOne(t).value < i < |t| && c != ONE
    ensures LastOne(t[i := c]) == LastOne(t)
  {
    hide LastOne;
    var u := t[i := c];
    assert forall j :: LastOne(t).value < j < |u| ==> u[j] != ONE;
    assert u[LastOne(t).value] == ONE;
  }

  lemma {:induction false} SymbolShows(hrp: seq<byte>, rest: seq<byte>, k: nat, c: byte)
    requires |rest| >= 6 && ParseAt(hrp, rest).Ok? && k < |rest|
    requires CharsetRev(c).Some? && CharsetRev(c) != CharsetRev(rest[k])
    ensures ParseAt(hrp, rest[k := c]).Ok? ==> ParseAt(hrp, rest[k := c]).value.variant != ParseAt(hrp, rest).value.variant
  {
    hide P.Feed, HrpState, CharsetRev, Letter, P.InRegister;
    var v, w := CharsetRev(rest[k]).value, CharsetRev(c).value;
    var vals := Values(rest);
    var before, after := vals[..k], vals[k + 1..];
    assert vals == before + [v] + after;
    assert Values(rest[k := c]) == before + [w] + after;
    HrpStateStays(hrp);
    P.SubstitutionTells(P.Bech32, HrpState(hrp), before, v, w, after);
  }

  /** Nor under the other one, with up to 72 characters after it. */
  lemma {:induction false} ShortSubstitutionIsRefused(t: seq<byte>, i: nat, c: byte)
    requires Parse(t).Ok? && |Parse(t).value.hrp| < i < |t| <= i + 1 + V.STEPS
    requires CharsetRev(c).Some? && CharsetRev(c) != CharsetRev(t[i])
    ensures Parse(t[i := c]).Err?
  {
    hide P.Feed, HrpState, MixedCaseText, CharsetRev, Letter, LastOne, WhichVariant, LowerAll, Spread;
    SubstitutionIsDetected(t, i, c);
    var pos := LastOne(t).value;
    var hrp, rest, u := t[..pos], t[pos + 1..], t[i := c];
    RevIsNoOne(c);
    SameSeparator(t, i, c);
    var k: nat := i - pos - 1;
    assert u[..pos] == hrp && u[pos + 1..] == rest[k := c] && rest[k] == t[i];
    if Parse(u).Ok? {
      VariantStays(hrp, rest, k, c);
    }
  }

  lemma {:induction false} VariantStays(hrp: seq<byte>, rest: seq<byte>, k: nat, c: byte)
    requires |rest| >= 6 && ParseAt(hrp, rest).Ok? && k < |rest| <= k + 1 + V.STEPS
    requires CharsetRev(c).Some? && ParseAt(hrp, rest[k := c]).Ok?
    ensures ParseAt(hrp, rest[k := c]).value.variant == ParseAt(hrp, rest).value.variant
  {
    hide P.Feed, HrpState, CharsetRev, Letter, P.Add, V.Back;
    var v, w := CharsetRev(rest[k]).value, CharsetRev(c).value;
    var vals := Values(rest);
    var before, after := vals[..k], vals[k + 1..];
    assert vals == before + [v] + after;
    assert Values(rest[k := c]) == before + [w] + after;
    V.SubstitutionStays(HrpState(hrp), before, v, w, after);
    ConstantsDiffer();
  }

  /** The traced registers start with the difference of the two constants. */
  lemma {:induction false} ConstantsDiffer()
    ensures P.Add(Constant(Bech32), Constant(Bech32m)) == V.Back(0) == P.Add(Constant(Bech32m), Constant(Bech32))
  {
  }

  // ----- writing strings -----

  /** Five-bit groups are symbols. */
  lemma {:induction false} GroupsAreSymbols(payload: seq<byte>)
    ensures P.FiveBit(G.Padded(G.Expand(payload, 8), 5))
  {
    hide G.Padded, G.Expand;
    G.PaddedFits(G.Expand(payload, 8), 5);
    FivePower();
  }

  lemma {:induction false} FivePower()
    ensures R.Pow(2, 5) == 32
  {
    assert R.Pow(2, 2) == 4;
  }

  lemma {:induction false} BytesFit(payload: seq<byte>)
    ensures G.Fit(payload, 8)
  {
    assert R.Pow(2, 4) == 16;
    R.PowAdd(2, 4, 4);
  }

  lemma {:induction false} SymbolsFit(vals: seq<byte>)
    requires P.FiveBit(vals)
    ensures G.Fit(vals, 5)
  {
    FivePower();
  }

  /** The symbols of a payload, after those in front of it. */
  function Symbols(front: seq<byte>, payload: seq<byte>): (vals: seq<byte>)
    requires P.FiveBit(front)
    ensures P.FiveBit(vals)
  {
    GroupsAreSymbols(payload);
    front + G.Padded(G.Expand(payload, 8), 5)
  }

  /** The `emit` of the encoders, for each value in turn. */
  method EmitAll(code: P.Code, w: SliceWriter, chk0: P.Word, vals: seq<byte>) returns (chk: P.Word, ok: bool)
    requires w.Valid() && P.FiveBit(vals)
    modifies w`pos, w.out
    ensures w.Valid() && ok == (old(w.pos) + |vals| <= w.out.Length)
    ensures ok ==> chk == P.Feed(code, chk0, vals) && w.Written() == old(w.Written()) + Spell(vals)
  {
    hide P.Step, P.Sym, P.Feed, Letter;
    chk := chk0;
    ghost var start := w.pos;
    assert vals[..0] == [];
    FeedNothing(code, chk0);
    for i := 0 to |vals|
      invariant w.Valid() && w.pos == start + i
      invariant chk == P.Feed(code, chk0, vals[..i]) && w.Written() == old(w.Written()) + Spell(vals)[..i]
    {
      assert vals[..i + 1] == vals[..i] + [vals[i]];
      P.FeedOne(code, chk0, vals[..i], vals[i]);
      chk := P.Step(code, chk, P.Sym(vals[i]));
      ok := w.Push(Letter(vals[i]));
      if !ok {
        return;
      }
      assert Spell(vals)[..i + 1] == Spell(vals)[..i] + [Letter(vals[i])];
    }
    assert vals[..|vals|] == vals && Spell(vals)[..|vals|] == Spell(vals);
    ok := true;
  }

  lemma {:induction false} FeedNothing(code: P.Code, c: P.Word)
    ensures P.Feed(code, c, []) == c
  {
  }

  /** The checksum, and its symbols. */
  method EmitChecksum(code: P.Code, w: SliceWriter, state: P.Word, goal: P.Word) returns (ok: bool)
    requires w.Valid()
    modifies w`pos, w.out
    ensures w.Valid() && ok == (old(w.pos) + P.Symbols(code) <= w.out.Length)
    ensures ok ==> w.Written() == old(w.Written()) + Spell(P.Checksum(code, state, goal))
  {
    hide P.Step, P.Sym, P.Feed, Letter, P.Add, P.Unpack, P.Unsym, P.DropMany;
    var n := P.Symbols(code);
    var chk := state;
    assert P.Blank(0) == [];
    FeedNothing(code, state);
    for i := 0 to n
      invariant w.Valid() && w.Written() == old(w.Written())
      invariant chk == P.Feed(code, state, P.Blank(i))
    {
      assert P.Blank(i + 1) == P.Blank(i) + [0];
      P.FeedOne(code, state, P.Blank(i), 0);
      chk := P.Step(code, chk, P.Sym(0));
    }
    chk := P.Add(chk, goal);
    ghost var sum, start := P.Checksum(code, state, goal), w.pos;
    assert sum == P.Unpack(chk, n);
    for i := 0 to n
      invariant w.Valid() && w.pos == start + i && w.Written() == old(w.Written()) + Spell(sum)[..i]
    {
      P.UnpackAt(chk, n, i);
      ok := w.Push(Letter(P.Unsym(P.DropMany(chk, n - 1 - i))));
      if !ok {
        return;
      }
      assert Spell(sum)[..i + 1] == Spell(sum)[..i] + [Letter(sum[i])];
    }
    assert Spell(sum)[..n] == Spell(sum);
    ok := true;
  }

  /** A payload, regrouped and emitted. */
  method EmitPayload(code: P.Code, w: SliceWriter, chk0: P.Word, payload: seq<byte>) returns (chk: P.Word, ok: bool)
    requires w.Valid()
    modifies w`pos, w.out
    ensures w.Valid() && ok == (old(w.pos) + |Symbols([], payload)| <= w.out.Length)
    ensures ok ==> chk == P.Feed(code, chk0, Symbols([], payload)) && w.Written() == old(w.Written()) + Spell(Symbols([], payload))
  {
    hide P.Feed, Letter, G.Padded, G.Expand, G.Groups, Spell;
    BytesFit(payload);
    GroupsAreSymbols(payload);
    G.LeadingIsAll(payload, 8);
    MoreWhenPadded(G.Expand(payload, 8));
    chk, ok := chk0, false;
    assert [] + G.Padded(G.Expand(payload, 8), 5) == G.Padded(G.Expand(payload, 8), 5);
    var regrouped := G.ConvertBits(payload, 8, 5, true, w.out.Length - w.pos);
    if regrouped.Done? {
      chk, ok := EmitAll(code, w, chk0, regrouped.data);
    }
  }

  /** What the encoders have written and fed, one part after another. */
  lemma {:induction false} PartsChain(code: P.Code, c: P.Word, front: seq<byte>, back: seq<byte>)
    requires P.FiveBit(front) && P.FiveBit(back)
    ensures P.Feed(code, P.Feed(code, c, front), back) == P.Feed(code, c, front + back)
    ensures Spell(front + back) == Spell(front) + Spell(back)
  {
    hide P.Feed, Letter;
    P.FeedAppend(code, c, front, back);
  }

  /** The value in front of the payload, if there is one. */
  function Front(prefix5: Option<byte>): (front: seq<byte>)
    requires prefix5.Some? ==> prefix5.value < 32
    ensures P.FiveBit(front)
  {
    if prefix5.Some? then [prefix5.value] else []
  }

  /** The human-readable part, the separator, and the value in front. */
  method WriteFront(w: SliceWriter, hrp: seq<byte>, prefix5: Option<byte>) returns (chk: P.Word, ok: bool)
    requires w.Valid() && w.pos == 0 && (prefix5.Some? ==> prefix5.value < 32)
    modifies w`pos, w.out
    ensures w.Valid() && ok == (|hrp| + 1 + |Front(prefix5)| <= w.out.Length)
    ensures ok ==> chk == P.Feed(P.Bech32, HrpState(hrp), Front(prefix5)) && w.Written() == hrp + [ONE] + Spell(Front(prefix5))
  {
    hide P.Feed, HrpState, Spell;
    chk := 1;
    ok := w.PushSlice(hrp);
    if !ok {
      return;
    }
    ok := w.Push(ONE);
    if !ok {
      return;
    }
    chk := HrpPolymod(hrp);
    if prefix5.Some? {
      chk, ok := EmitAll(P.Bech32, w, chk, [prefix5.value]);
    } else {
      FeedNothing(P.Bech32, chk);
    }
  }

  /** The string of a payload. */
  ghost function Text(hrp: seq<byte>, prefix5: Option<byte>, payload: seq<byte>, variant: Variant): seq<byte>
    requires prefix5.Some? ==> prefix5.value < 32
  {
    Encoded(hrp, Symbols(Front(prefix5), payload), variant)
  }

  lemma {:induction false} InParts(hrp: seq<byte>, vals: seq<byte>, variant: Variant)
    requires P.FiveBit(vals)
    ensures Encoded(hrp, vals, variant) == hrp + [ONE] + Spell(vals) + Spell(Sum(hrp, vals, variant))
  {
    hide Sum, Spell;
    PartsChain(P.Bech32, 1, vals, Sum(hrp, vals, variant));
  }

  lemma {:induction false} TextInParts(hrp: seq<byte>, prefix5: Option<byte>, payload: seq<byte>, variant: Variant)
    requires prefix5.Some? ==> prefix5.value < 32
    ensures var front, groups := Front(prefix5), Symbols([], payload);
            var state := P.Feed(P.Bech32, P.Feed(P.Bech32, HrpState(hrp), front), groups);
            Text(hrp, prefix5, payload, variant)
            == hrp + [ONE] + Spell(front) + Spell(groups) + Spell(P.Checksum(P.Bech32, state, Constant(variant)))
  {
    hide P.Feed, P.Checksum, HrpState, Spell, Constant, G.Padded, G.Expand, Front;
    var front, groups := Front(prefix5), Symbols([], payload);
    assert Symbols(front, payload) == front + groups;
    PartsChain(P.Bech32, HrpState(hrp), front, groups);
    InParts(hrp, front + groups, variant);
  }

  /** `bech32_encode_raw`: the string, if it fits. */
  method EncodeRaw(hrp: seq<byte>, prefix5: Option<byte>, payload: seq<byte>, variant: Variant, out: array<byte>)
    returns (r: Result<nat>)
    requires prefix5.Some? ==> prefix5.value < 32
    modifies out
    ensures var t := Text(hrp, prefix5, payload, variant);
            && r == (if |t| <= out.Length then Ok(|t|) else Err(BufferTooSmall))
            && (r.Ok? ==> out[..r.value] == t)
  {
    hide P.Feed, P.Checksum, HrpState, Spell, Constant, Text, Front, Symbols;
    TextInParts(hrp, prefix5, payload, variant);
    var w := new SliceWriter(out);
    var chk, ok := WriteFront(w, hrp, prefix5);
    if !ok {
      return Err(BufferTooSmall);
    }
    chk, ok := EmitPayload(P.Bech32, w, chk, payload);
    if !ok {
      return Err(BufferTooSmall);
    }
    ok := EmitChecksum(P.Bech32, w, chk, Constant(variant));
    if !ok {
      return Err(BufferTooSmall);
    }
    r := Ok(w.pos);
  }

  lemma {:induction false} MoreWhenPadded(s: seq<bool>)
    ensures |G.Groups(s, 5)| <= |G.Padded(s, 5)|
  {
    hide G.Groups, G.Tail;
  }

  // ----- decoding -----

  /** What `decode_to_slice` makes of a string, in `room` bytes. */
  ghost function Decoded(t: seq<byte>, room: nat): Result<(seq<byte>, seq<byte>, Variant)> {
    var parsed := Parse(t);
    if parsed.Err? then Err(parsed.error)
    else if !AllLetters(parsed.value.chars) then Err(InvalidChar)
    else
      match G.Converted(Values(parsed.value.chars), 5, 8, false, room)
      case Full => Err(BufferTooSmall)
      case InvalidPadding => Err(InvalidPadding)
      case Done(data) => Ok((parsed.value.hrp, data, parsed.value.variant))
  }

  /** The symbols of a payload regroup into it. */
  lemma {:induction false} PayloadReadsBack(payload: seq<byte>, room: nat)
    requires room >= |payload|
    ensures G.Converted(Symbols([], payload), 5, 8, false, room) == G.Done(payload)
  {
    hide G.Padded, G.Expand, G.Groups, G.Leading, G.Tail, R.Pow;
    BytesFit(payload);
    G.RegroupsBack(payload, 8, 5);
    GroupsAreSymbols(payload);
    var vals := Symbols([], payload);
    assert vals == G.Padded(G.Expand(payload, 8), 5);
    SymbolsFit(vals);
    G.LeadingIsAll(vals, 5);
  }

  /** Symbols that regroup into a payload are its symbols. */
  lemma {:induction false} SymbolsWriteBack(vals: seq<byte>, room: nat)
    requires P.FiveBit(vals) && G.Converted(vals, 5, 8, false, room).Done?
    ensures Symbols([], G.Converted(vals, 5, 8, false, room).data) == vals
  {
    hide G.Padded, G.Expand, G.Groups, G.Leading, G.Tail, R.Pow;
    SymbolsFit(vals);
    G.LeadingIsAll(vals, 5);
    G.RegroupsOnlyBack(vals, 8, 5);
  }

  /** Decoding what was encoded with a lower-case human-readable part. */
  lemma {:induction false} DecodeInvertsEncode(hrp: seq<byte>, payload: seq<byte>, variant: Variant, room: nat)
    requires hrp != [] && (forall i :: 0 <= i < |hrp| ==> !IsUpper(hrp[i])) && room >= |payload|
    ensures Decoded(Text(hrp, None, payload, variant), room) == Ok((hrp, payload, variant))
  {
    hide Parse, MixedCaseText, Symbols, Letter, CharsetRev, G.Converted, Sum;
    var vals := Symbols([], payload);
    ParseInvertsEncode(hrp, vals, variant);
    LowerIsNotMixed(hrp, vals + Sum(hrp, vals, variant));
    SpelledReadsBack(vals);
    PayloadReadsBack(payload, room);
  }

  lemma {:induction false} CaseDoesNotCount(hrp: seq<byte>, vals: seq<byte>, variant: Variant)
    requires P.FiveBit(vals)
    ensures Sum(LowerAll(hrp), vals, variant) == Sum(hrp, vals, variant)
  {
    hide P.Feed, P.Checksum;
    assert LowerAll(LowerAll(hrp)) == LowerAll(hrp);
    assert Spread(LowerAll(hrp)) == Spread(hrp);
  }

  /** Every string that decodes is, up to case, the encoding of what it decodes to:
      no two payloads share a string, and no two strings a payload. */
  lemma {:induction false} EncodeInvertsDecode(t: seq<byte>, room: nat)
    requires Decoded(t, room).Ok?
    ensures var (hrp, payload, variant) := Decoded(t, room).value;
            LowerAll(t) == Text(LowerAll(hrp), None, payload, variant)
  {
    hide Parse, Symbols, Letter, CharsetRev, G.Converted, Sum, LowerAll;
    var Parsed(hrp, chars, variant) := Parse(t).value;
    EncodeInvertsParse(t);
    SymbolsWriteBack(Values(chars), room);
    CaseDoesNotCount(hrp, Values(chars), variant);
  }

  /** `decode_to_slice`. */
  method DecodeToSlice(t: seq<byte>, out: array<byte>) returns (r: Result<(seq<byte>, nat, Variant)>)
    modifies out
    ensures match Decoded(t, out.Length)
            case Ok((hrp, payload, variant)) =>
              r == Ok((hrp, |payload|, variant)) && |payload| <= out.Length && out[..|payload|] == payload
            case Err(e) => r == Err(e)
  {
    hide Parse, CharsetRev, G.Padded, G.Groups, G.Expand, G.Leading, G.Unpadded;
    var parsed := ParseText(t);
    if parsed.Err? {
      return Err(parsed.error);
    }
    ParsedLetters(t);
    var vals := Values(parsed.value.chars);
    var regrouped := G.ConvertBits(vals, 5, 8, false, out.Length);
    match regrouped
    case Full => r := Err(BufferTooSmall);
    case InvalidPadding => r := Err(InvalidPadding);
    case Done(data) =>
      GoodFits(vals, out.Length);
      var w := new SliceWriter(out);
      var ok := w.PushSlice(data);
      r := Ok((parsed.value.hrp, w.pos, parsed.value.variant));
  }

  lemma {:induction false} ParsedLetters(t: seq<byte>)
    requires Parse(t).Ok?
    ensures AllLetters(Parse(t).value.chars)
  {
    hide CharsetRev, LastOne, MixedCaseText, P.Feed, HrpState, WhichVariant;
  }

  lemma {:induction false} GoodFits(vals: seq<byte>, room: nat)
    requires G.Converted(vals, 5, 8, false, room).Done?
    ensures |G.Converted(vals, 5, 8, false, room).data| <= room
  {
    hide G.Groups, G.Expand, G.Leading, G.Tail, G.FromBits;
  }
}
