/** Segwit addresses, src/bech32.rs: BIP-173 and BIP-350. */
module Segwit {
  import opened Options
  import opened Bytes
  import opened Ascii
  import opened Bech32
  import opened SliceWriters
  import P = Polymod
  import G = BitGroups

  /** `check_program`. */
  function CheckProgram(version: byte, len: nat): Option<Error> {
    if version > 16 then Some(InvalidWitnessVersion)
    else if !(2 <= len <= 40) || (version == 0 && len != 20 && len != 32) then Some(InvalidProgramLength)
    else None
  }

  function VariantOf(version: byte): Variant {
    if version == 0 then Bech32 else Bech32m
  }

  /** The address of a witness program. */
  ghost function Address(hrp: seq<byte>, version: byte, program: seq<byte>): seq<byte>
    requires version <= 16
  {
    Text(hrp, Some(version), program, VariantOf(version))
  }

  /** `segwit_addr_encode_to_slice`. */
  method EncodeAddress(hrp: seq<byte>, version: byte, program: seq<byte>, out: array<byte>) returns (r: Result<nat>)
    modifies out
    ensures match CheckProgram(version, |program|)
            case Some(e) => r == Err(e)
            case None =>
              var t := Address(hrp, version, program);
              && r == (if |t| <= out.Length then Ok(|t|) else Err(BufferTooSmall))
              && (r.Ok? ==> out[..r.value] == t)
  {
    hide Text;
    var refused := CheckProgram(version, |program|);
    if refused.Some? {
      return Err(refused.value);
    }
    r := EncodeRaw(hrp, Some(version), program, VariantOf(version), out);
  }

  /** The program that follows the version, in at most 40 bytes. */
  function Program(vals: seq<byte>, room: nat): Result<seq<byte>> {
    match G.Converted(vals, 5, 8, false, if room < 40 then room else 40)
    case Full => Err(if room < 40 then BufferTooSmall else InvalidProgramLength)
    case InvalidPadding => Err(InvalidPadding)
    case Done(program) => Ok(program)
  }

  /** What `segwit_addr_decode_to_slice` makes of an address. */
  ghost function Decoded(hrp: seq<byte>, address: seq<byte>, room: nat): Result<(byte, seq<byte>)> {
    var parsed := Parse(address);
    if parsed.Err? then Err(parsed.error)
    else if LowerAll(parsed.value.hrp) != hrp then Err(PrefixMismatch)
    else if parsed.value.chars == [] then Err(EmptyPayload)
    else if !AllLetters(parsed.value.chars) then Err(InvalidChar)
    else DecodedValues(Values(parsed.value.chars), parsed.value.variant, room)
  }

  function DecodedValues(vals: seq<byte>, variant: Variant, room: nat): Result<(byte, seq<byte>)>
    requires vals != []
  {
    var version := vals[0];
    if version > 16 then Err(InvalidWitnessVersion)
    else
      var program := Program(vals[1..], room);
      if program.Err? then Err(program.error)
      else if CheckProgram(version, |program.value|).Some? then Err(CheckProgram(version, |program.value|).value)
      else if variant != VariantOf(version) then Err(WrongVariant)
      else Ok((version, program.value))
  }

  /** `segwit_addr_decode_to_slice`. */
  method DecodeAddress(hrp: seq<byte>, address: seq<byte>, out: array<byte>) returns (r: Result<(byte, nat)>)
    modifies out
    ensures match Decoded(hrp, address, out.Length)
            case Ok((version, program)) =>
              r == Ok((version, |program|)) && |program| <= out.Length && out[..|program|] == program
            case Err(e) => r == Err(e)
  {
    hide Parse, CharsetRev, G.Converted;
    var parsed := ParseText(address);
    if parsed.Err? {
      return Err(parsed.error);
    }
    if LowerAll(parsed.value.hrp) != hrp {
      return Err(PrefixMismatch);
    }
    if parsed.value.chars == [] {
      return Err(EmptyPayload);
    }
    ParsedLetters(address);
    var vals := Values(parsed.value.chars);
    var version := vals[0];
    if version > 16 {
      return Err(InvalidWitnessVersion);
    }
    var limit := if out.Length < 40 then out.Length else 40;
    var regrouped := G.ConvertBits(vals[1..], 5, 8, false, limit);
    match regrouped
    case Full => return Err(if out.Length < 40 then BufferTooSmall else InvalidProgramLength);
    case InvalidPadding => return Err(InvalidPadding);
    case Done(program) =>
      GoodFits(vals[1..], limit);
      var w := new SliceWriter(out);
      var ok := w.PushSlice(program);
      var refused := CheckProgram(version, w.pos);
      if refused.Some? {
        return Err(refused.value);
      }
      if parsed.value.variant != VariantOf(version) {
        return Err(WrongVariant);
      }
      r := Ok((version, w.pos));
  }

  /** The values of an address: the version, and the symbols of the program. */
  lemma {:induction false} AddressValues(version: byte, program: seq<byte>)
    requires version <= 16
    ensures Symbols(Front(Some(version)), program) == [version] + Symbols([], program)
  {
    hide G.Padded, G.Expand;
  }

  /** Every program an address can be made of is decoded from it, given a lower-case
      human-readable part. */
  lemma {:induction false} DecodeInvertsEncode(hrp: seq<byte>, version: byte, program: seq<byte>, room: nat)
    requires hrp != [] && forall i :: 0 <= i < |hrp| ==> !IsUpper(hrp[i])
    requires CheckProgram(version, |program|) == None && room >= |program|
    ensures Decoded(hrp, Address(hrp, version, program), room) == Ok((version, program))
  {
    hide Parse, MixedCaseText, Symbols, Front, Letter, CharsetRev, G.Converted, Sum, Lower;
    var vals, variant := Symbols(Front(Some(version)), program), VariantOf(version);
    ParseInvertsEncode(hrp, vals, variant);
    LowerIsNotMixed(hrp, vals + Sum(hrp, vals, variant));
    SpelledReadsBack(vals);
    AddressValues(version, program);
    assert vals[1..] == Symbols([], program);
    PayloadReadsBack(program, if room < 40 then room else 40);
    LowerStays(hrp);
  }

  lemma {:induction false} LowerStays(hrp: seq<byte>)
    requires forall i :: 0 <= i < |hrp| ==> !IsUpper(hrp[i])
    ensures LowerAll(hrp) == hrp
  {
  }

  /** An address that decodes is, up to case, the address of its program; and the
      program is one that addresses are made of. */
  lemma {:induction false} EncodeInvertsDecode(hrp: seq<byte>, address: seq<byte>, room: nat)
    requires Decoded(hrp, address, room).Ok?
    ensures var (version, program) := Decoded(hrp, address, room).value;
            CheckProgram(version, |program|) == None && LowerAll(address) == Address(hrp, version, program)
  {
    hide Parse, Symbols, Front, Letter, CharsetRev, G.Converted, Sum, LowerAll;
    var Parsed(got, chars, variant) := Parse(address).value;
    var vals := Values(chars);
    EncodeInvertsParse(address);
    DecodedIsOf(vals, variant, room);
    CaseDoesNotCount(got, vals, variant);
  }

  lemma {:induction false} DecodedIsOf(vals: seq<byte>, variant: Variant, room: nat)
    requires vals != [] && P.FiveBit(vals) && DecodedValues(vals, variant, room).Ok?
    ensures var (version, program) := DecodedValues(vals, variant, room).value;
            version <= 16 && vals == Symbols(Front(Some(version)), program) && variant == VariantOf(version)
  {
    hide Symbols, Front, G.Converted;
    var (version, program) := DecodedValues(vals, variant, room).value;
    SymbolsWriteBack(vals[1..], if room < 40 then room else 40);
    AddressValues(version, program);
    assert vals == [version] + vals[1..];
  }

  /** One wrong character is always noticed, wherever it is in a valid address and
      whatever it is: another case of the same letter is the only one that may pass. */
  lemma {:induction false} SubstitutionIsRefused(hrp: seq<byte>, address: seq<byte>, i: nat, c: byte, room: nat)
    requires Decoded(hrp, address, room).Ok?
    requires i < |address| && Lower(c) != Lower(address[i])
    ensures Decoded(hrp, address[i := c], room).Err?
  {
    hide CharsetRev, Parse, Lower, Letter, LastOne, DecodedValues, Program, IsUpper;
    AddressIsShort(hrp, address, room);
    if i > |hrp| && c != ONE {
      DataIsRefused(address, i, c);
    } else {
      PrefixIsWrong(hrp, address, i, c);
    }
  }

  /** A separator in the data, or another character in front of it: what is left is not
      the human-readable part. */
  lemma {:induction false} PrefixIsWrong(hrp: seq<byte>, t: seq<byte>, i: nat, c: byte)
    requires |hrp| < |t| && LastOne(t) == Some(|hrp|) && LowerAll(t[..|hrp|]) == hrp
    requires i < |t| && Lower(c) != Lower(t[i]) && (i <= |hrp| || c == ONE)
    ensures Parse(t[i := c]).Ok? ==> LowerAll(Parse(t[i := c]).value.hrp) != hrp
  {
    hide CharsetRev, Parse, Letter, LastOne;
    var u, pos := t[i := c], |hrp|;
    if i > pos {
      LastOneIs(u, i);
    } else if i < pos {
      LastOneIs(u, pos);
    } else {
      assert forall j :: pos <= j < |u| ==> u[j] != ONE;
    }
    if Parse(u).Ok? {
      ParsedParts(u);
      HrpIsInFront(u);
      var got := Parse(u).value.hrp;
      if i < pos {
        assert LowerAll(got)[i] == Lower(c) && LowerAll(t[..pos])[i] == Lower(t[i]);
      } else {
        assert |got| != pos;
      }
    }
  }

  lemma {:induction false} LastOneIs(t: seq<byte>, i: nat)
    requires i < |t| && t[i] == ONE && forall j :: i < j < |t| ==> t[j] != ONE
    ensures LastOne(t) == Some(i)
  {
    hide LastOne;
  }

  /** The parts of a valid address, which is short enough for its checksum to tell. */
  lemma {:induction false} AddressIsShort(hrp: seq<byte>, address: seq<byte>, room: nat)
    requires Decoded(hrp, address, room).Ok?
    ensures Parse(address).Ok? && LastOne(address) == Some(|hrp|)
    ensures var got := Parse(address).value.hrp; |got| == |hrp| && LowerAll(got) == hrp && got == address[..|hrp|]
    ensures |hrp| < |address| <= |hrp| + 72
  {
    hide CharsetRev, Letter, LastOne, Program, Lower;
    ParsedParts(address);
    var chars := Parse(address).value.chars;
    ProgramIsShort(Values(chars)[1..], room);
    HrpIsInFront(address);
  }

  lemma {:induction false} HrpIsInFront(t: seq<byte>)
    requires Parse(t).Ok? && LastOne(t).Some?
    ensures Parse(t).value.hrp == t[..LastOne(t).value]
  {
    hide CharsetRev, LastOne, MixedCaseText, P.Feed, HrpState, WhichVariant;
  }

  lemma {:induction false} ProgramIsShort(vals: seq<byte>, room: nat)
    requires P.FiveBit(vals) && Program(vals, room).Ok?
    ensures |vals| <= 64
  {
    hide G.Groups, G.Expand, G.Leading, G.Tail, G.Padded;
    var limit := if room < 40 then room else 40;
    SymbolsWriteBack(vals, limit);
    GoodFits(vals, limit);
    SymbolCount(G.Converted(vals, 5, 8, false, limit).data);
  }

  lemma {:induction false} ExpandLength(data: seq<byte>, n: G.Width)
    ensures |G.Expand(data, n)| == |data| * n
  {
    hide G.ToBits;
    if data != [] {
      ExpandLength(data[1..], n);
    }
  }

  /** Forty bytes make up to 64 symbols. */
  lemma {:induction false} SymbolCount(payload: seq<byte>)
    ensures 5 * |Symbols([], payload)| < 8 * |payload| + 5
  {
    hide G.Expand, G.Padded;
    var s := G.Expand(payload, 8);
    ExpandLength(payload, 8);
    G.ExpandPadded(s, 5);
    ExpandLength(G.Padded(s, 5), 5);
  }

  lemma {:induction false} DataIsRefused(t: seq<byte>, i: nat, c: byte)
    requires Parse(t).Ok? && LastOne(t) == Some(|Parse(t).value.hrp|) && |Parse(t).value.hrp| < i < |t|
    requires |t| <= |Parse(t).value.hrp| + 72 && c != ONE && Lower(c) != Lower(t[i])
    ensures Parse(t[i := c]).Err?
  {
    hide CharsetRev, LastOne, MixedCaseText, P.Feed, HrpState, WhichVariant, Letter, Lower;
    if CharsetRev(c).Some? {
      if CharsetRev(c) == CharsetRev(t[i]) {
        SameRevSameLower(c, t[i]);
      }
      ShortSubstitutionIsRefused(t, i, c);
    } else {
      var pos := LastOne(t).value;
      var u := t[i := c];
      SameSeparator(t, i, c);
      assert u[pos + 1..][i - pos - 1] == c;
    }
  }

  lemma {:induction false} SameRevSameLower(c: byte, d: byte)
    requires CharsetRev(c).Some? && CharsetRev(c) == CharsetRev(d)
    ensures Lower(c) == Lower(d)
  {
    hide Letter, Lower;
  }

  /** Where the parts of a string are. */
  lemma {:induction false} ParsedParts(t: seq<byte>)
    requires Parse(t).Ok?
    ensures LastOne(t).Some?
    ensures var Parsed(got, chars, _) := Parse(t).value;
            |got| == LastOne(t).value && |chars| == |t| - |got| - 7 && forall k :: 0 <= k < |chars| ==> chars[k] == t[|got| + 1 + k]
  {
    hide CharsetRev, LastOne, MixedCaseText, P.Feed, HrpState, WhichVariant;
  }
}
