/** Text in either case, and what is accepted exactly: the addresses of src/bech32.rs, the parts
    of src/bbqr.rs and the strings of src/bcur/mod.rs. */
module LetterCase {
  import opened Options
  import opened Bytes
  import opened Ascii
  import B = Bech32
  import S = Segwit
  import C = CashAddr
  import P = Polymod
  import Q = Bbqr
  import T = Base32
  import U = Ur
  import W = Bytewords
  import D = Decoder

  // ----- bech32 and CashAddr -----

  /** The texts differ in the case of letters only. */
  ghost predicate Alike(t: seq<byte>, u: seq<byte>) {
    |t| == |u| && forall i :: 0 <= i < |t| ==> Lower(t[i]) == Lower(u[i])
  }

  lemma {:induction false} AlikeLower(t: seq<byte>, u: seq<byte>)
    requires Alike(t, u)
    ensures LowerAll(t) == LowerAll(u)
  {
    hide Lower;
  }

  lemma {:induction false} SignsStay(c: byte, d: byte)
    requires Lower(c) == Lower(d)
    ensures (c == 49 <==> d == 49) && (c == 58 <==> d == 58)
  {
  }

  lemma {:induction false} LastOneAlike(t: seq<byte>, u: seq<byte>)
    requires Alike(t, u)
    ensures B.LastOne(t) == B.LastOne(u)
  {
    hide Lower;
    if t != [] {
      SignsStay(t[|t| - 1], u[|u| - 1]);
      LastOneAlike(t[..|t| - 1], u[..|u| - 1]);
    }
  }

  lemma {:induction false} LettersAlike(t: seq<byte>, u: seq<byte>)
    requires Alike(t, u)
    ensures B.AllLetters(t) <==> B.AllLetters(u)
    ensures B.AllLetters(t) ==> B.Values(t) == B.Values(u)
  {
    hide Lower, B.FindLetter;
    assert forall i :: 0 <= i < |t| ==> B.CharsetRev(t[i]) == B.CharsetRev(u[i]);
    if B.AllLetters(t) {
      forall i | 0 <= i < |u| ensures B.CharsetRev(u[i]).Some? {
        assert B.CharsetRev(t[i]).Some?;
      }
    }
    if B.AllLetters(u) {
      forall i | 0 <= i < |t| ensures B.CharsetRev(t[i]).Some? {
        assert B.CharsetRev(u[i]).Some?;
      }
    }
  }

  lemma {:induction false} HrpAlike(t: seq<byte>, u: seq<byte>)
    requires Alike(t, u)
    ensures B.HrpState(t) == B.HrpState(u)
  {
    hide P.Feed;
    AlikeLower(t, u);
    assert B.Spread(t) == B.Spread(u);
  }

  lemma {:induction false} ParseAtAlike(hrp: seq<byte>, rest: seq<byte>, hrp': seq<byte>, rest': seq<byte>)
    requires Alike(hrp, hrp') && Alike(rest, rest') && |rest| >= 6
    ensures var a, b := B.ParseAt(hrp, rest), B.ParseAt(hrp', rest');
            && (a.Ok? <==> b.Ok?) && (a.Err? ==> a == b)
            && (a.Ok? ==> Alike(a.value.hrp, b.value.hrp) && Alike(a.value.chars, b.value.chars) && a.value.variant == b.value.variant)
  {
    hide P.Feed, B.HrpState, Lower, B.CharsetRev;
    LettersAlike(rest, rest');
    HrpAlike(hrp, hrp');
  }

  /** A segwit address may be in either case, as long as it is in one. */
  lemma {:induction false} SegwitInEitherCase(hrp: seq<byte>, t: seq<byte>, u: seq<byte>, room: nat)
    requires Alike(t, u) && !B.MixedCaseText(t) && !B.MixedCaseText(u)
    ensures S.Decoded(hrp, t, room) == S.Decoded(hrp, u, room)
  {
    hide B.MixedCaseText, B.LastOne, Lower, B.ParseAt, S.DecodedValues, B.CharsetRev;
    LastOneAlike(t, u);
    var pos := B.LastOne(t);
    if pos.Some? && pos.value > 0 && pos.value + 7 <= |t| {
      var n := pos.value;
      ParseAtAlike(t[..n], t[n + 1..], u[..n], u[n + 1..]);
      if B.Parse(t).Ok? {
        AlikeLower(B.Parse(t).value.hrp, B.Parse(u).value.hrp);
        LettersAlike(B.Parse(t).value.chars, B.Parse(u).value.chars);
      }
    }
  }

  /** In both cases at once it is refused. */
  lemma {:induction false} MixedIsRefused(hrp: seq<byte>, t: seq<byte>, i: nat, j: nat, room: nat)
    requires i < |t| && j < |t| && 97 <= t[i] <= 122 && 65 <= t[j] <= 90
    ensures S.Decoded(hrp, t, room) == B.Err(B.MixedCase)
  {
    hide B.LastOne;
  }

  lemma {:induction false} ColonAlike(t: seq<byte>, u: seq<byte>)
    requires Alike(t, u)
    ensures C.FirstColon(t) == C.FirstColon(u)
  {
    hide Lower;
    if t != [] {
      SignsStay(t[0], u[0]);
      ColonAlike(t[1..], u[1..]);
    }
  }

  lemma {:induction false} BodyAlike(p: seq<byte>, t: seq<byte>, u: seq<byte>, room: nat)
    requires Alike(t, u)
    ensures C.DecodedBody(p, t, room) == C.DecodedBody(p, u, room)
  {
    hide P.Feed, C.State, Lower, B.CharsetRev, C.DecodedValues;
    LettersAlike(t, u);
  }

  /** A CashAddr address may be in any case, mixed even. */
  lemma {:induction false} CashAddrInAnyCase(prefix: seq<byte>, t: seq<byte>, u: seq<byte>, room: nat)
    requires Alike(t, u)
    ensures C.Decoded(prefix, t, room) == C.Decoded(prefix, u, room)
  {
    hide C.FirstColon, Lower, C.DecodedBody;
    ColonAlike(t, u);
    var n, p := C.FirstColon(t), C.Prefix(prefix);
    if n == |t| {
      BodyAlike(p, t, u, room);
    } else {
      AlikeLower(t[..n], u[..n]);
      BodyAlike(p, t[n + 1..], u[n + 1..], room);
    }
  }

  /** And may go without its prefix. */
  lemma {:induction false} PrefixMayBeLeftOut(prefix: seq<byte>, body: seq<byte>, room: nat)
    requires C.Plain(C.Prefix(prefix)) && forall i :: 0 <= i < |body| ==> body[i] != 58
    ensures C.Decoded(prefix, body, room) == C.Decoded(prefix, C.Prefix(prefix) + [58] + body, room)
  {
    hide C.FirstColon, Lower, C.DecodedBody, C.Prefix;
    C.ColonOfAddress(C.Prefix(prefix), body);
    assert C.FirstColon(body) == |body|;
  }

  // ----- BBQr -----

  /** The same, for the letters of BBQr. */
  ghost predicate AlikeUpper(t: seq<byte>, u: seq<byte>) {
    |t| == |u| && forall i :: 0 <= i < |t| ==> T.Upper(t[i]) == T.Upper(u[i])
  }

  lemma {:induction false} CharAlike(c: byte, d: byte)
    requires T.Upper(c) == T.Upper(d)
    ensures Q.EncodingOf(c) == Q.EncodingOf(d) && Q.Value36(c) == Q.Value36(d) && Q.HexValue(c) == Q.HexValue(d)
    ensures T.ValueOf(c) == T.ValueOf(d) && (Q.IsAlphanumeric(c) <==> Q.IsAlphanumeric(d))
    ensures (c == 66 || c == 98 <==> d == 66 || d == 98) && (c == 36 <==> d == 36)
  {
  }

  lemma {:induction false} HexAlike(t: seq<byte>, u: seq<byte>)
    requires AlikeUpper(t, u)
    ensures Q.HexDecoded(t) == Q.HexDecoded(u)
  {
    hide T.Upper, Q.HexValue;
    if |t| >= 2 {
      CharAlike(t[0], u[0]);
      CharAlike(t[1], u[1]);
      HexAlike(t[2..], u[2..]);
    }
  }

  lemma {:induction false} Base32Alike(t: seq<byte>, u: seq<byte>)
    requires AlikeUpper(t, u)
    ensures T.Decoded(t) == T.Decoded(u)
  {
    hide T.Upper, T.ValueOf;
    forall i | 0 <= i < |t| ensures T.ValueOf(t[i]) == T.ValueOf(u[i]) {
      CharAlike(t[i], u[i]);
    }
    if T.AllLetters(t) && T.AllLetters(u) {
      assert T.Values(t) == T.Values(u);
    } else {
      assert T.AllLetters(t) <==> T.AllLetters(u) by {
        LettersAlikeUpper(t, u);
      }
    }
  }

  lemma {:induction false} LettersAlikeUpper(t: seq<byte>, u: seq<byte>)
    requires |t| == |u| && forall i :: 0 <= i < |t| ==> T.ValueOf(t[i]) == T.ValueOf(u[i])
    ensures T.AllLetters(t) <==> T.AllLetters(u)
  {
    hide T.ValueOf;
    if T.AllLetters(t) {
      forall i | 0 <= i < |u| ensures T.ValueOf(u[i]).Some? {
        assert T.ValueOf(t[i]).Some?;
      }
    }
  }

  lemma {:induction false} HeaderAlike(t: seq<byte>, u: seq<byte>)
    requires AlikeUpper(t, u)
    ensures Q.ParseHeader(t).Ok? <==> Q.ParseHeader(u).Ok?
    ensures Q.ParseHeader(t).Ok? ==> Q.ParseHeader(t).value.0 == Q.ParseHeader(u).value.0
  {
    hide T.Upper, Q.EncodingOf, Q.Value36, Q.IsAlphanumeric;
    if |t| >= 8 {
      CharAlike(t[0], u[0]);
      CharAlike(t[1], u[1]);
      CharAlike(t[2], u[2]);
      CharAlike(t[3], u[3]);
      CharAlike(t[4], u[4]);
      CharAlike(t[5], u[5]);
      CharAlike(t[6], u[6]);
      CharAlike(t[7], u[7]);
    }
  }

  /** A part may be in any case: it decodes or not, and to the same. */
  lemma {:induction false} PartInAnyCase(t: seq<byte>, u: seq<byte>, room: nat)
    requires AlikeUpper(t, u)
    ensures Q.DecodedPart(t, room).Ok? <==> Q.DecodedPart(u, room).Ok?
    ensures Q.DecodedPart(t, room).Ok? ==> Q.DecodedPart(t, room) == Q.DecodedPart(u, room)
  {
    hide T.Upper, Q.ParseHeader, Q.DecodedLen, Q.HexDecoded, T.Decoded;
    HeaderAlike(t, u);
    if Q.ParseHeader(t).Ok? {
      assert t[8..] == Q.ParseHeader(t).value.1 && u[8..] == Q.ParseHeader(u).value.1;
      HexAlike(t[8..], u[8..]);
      Base32Alike(t[8..], u[8..]);
    }
  }

  // ----- UR strings -----

  /** What stands between the type and the body: nothing, or what reads as two numbers. */
  ghost predicate Between(sequence: Option<(D.Index, D.Index)>, mid: seq<byte>) {
    match sequence
    case None => mid == []
    case Some(s) => mid != [] && mid[|mid| - 1] == 47 && U.ParseSequence(mid[..|mid| - 1]) == Some(s)
  }

  /** A string is a UR exactly if it is `ur:` in any case, a type, a slash, two numbers and another slash
      or nothing, and a body without slashes. */
  lemma {:induction false} UrExactly(text: seq<byte>, u: U.Ur)
    ensures U.Parse(text) == D.Ok(u) <==>
              && |text| >= 3 && LowerAll(text[..3]) == [117, 114, 58] && U.ValidAnyCase(u.urType)
              && (forall i :: 0 <= i < |u.body| ==> u.body[i] != 47)
              && exists mid :: Between(u.sequence, mid) && text[3..] == u.urType + [47] + mid + u.body
  {
    hide U.Parse, Between, U.ValidAnyCase, LowerAll;
    if U.Parse(text) == D.Ok(u) {
      var mid := PartsOfUr(text, u);
    }
    if |text| >= 3 && LowerAll(text[..3]) == [117, 114, 58] && U.ValidAnyCase(u.urType)
       && forall i :: 0 <= i < |u.body| ==> u.body[i] != 47 {
      if mid :| Between(u.sequence, mid) && text[3..] == u.urType + [47] + mid + u.body {
        IsUr(text, u, mid);
      }
    }
  }

  lemma {:induction false} PartsOfUr(text: seq<byte>, u: U.Ur) returns (mid: seq<byte>)
    requires U.Parse(text) == D.Ok(u)
    ensures |text| >= 3 && LowerAll(text[..3]) == [117, 114, 58] && U.ValidAnyCase(u.urType)
    ensures forall i :: 0 <= i < |u.body| ==> u.body[i] != 47
    ensures Between(u.sequence, mid) && text[3..] == u.urType + [47] + mid + u.body
  {
    hide U.ParseRest, U.ValidAnyCase, W.FirstSep, Between, LowerAll;
    var rest := text[3..];
    var n := W.FirstSep(rest, 47);
    mid := PartsOfRest(rest[..n], rest[n + 1..], u);
    assert rest == rest[..n] + [47] + rest[n + 1..];
    Regroup(u.urType + [47], mid, u.body);
  }

  lemma {:induction false} PartsOfRest(urType: seq<byte>, tail: seq<byte>, u: U.Ur) returns (mid: seq<byte>)
    requires U.ParseRest(urType, tail) == D.Ok(u)
    ensures u.urType == urType && Between(u.sequence, mid) && tail == mid + u.body
    ensures forall i :: 0 <= i < |u.body| ==> u.body[i] != 47
  {
    hide U.ParseSequence, U.LastSep;
    var last := U.LastSep(tail, 47);
    if last.None? {
      mid := [];
    } else {
      mid := tail[..last.value + 1];
      assert mid[..|mid| - 1] == tail[..last.value];
    }
  }

  lemma {:induction false} IsUr(text: seq<byte>, u: U.Ur, mid: seq<byte>)
    requires |text| >= 3 && LowerAll(text[..3]) == [117, 114, 58] && U.ValidAnyCase(u.urType)
    requires forall i :: 0 <= i < |u.body| ==> u.body[i] != 47
    requires Between(u.sequence, mid) && text[3..] == u.urType + [47] + mid + u.body
    ensures U.Parse(text) == D.Ok(u)
  {
    hide U.ParseSequence, U.ValidAnyCase, U.LastSep, W.FirstSep, Lower;
    var rest, n := text[3..], |u.urType|;
    U.TypeHasNoSlash(u.urType);
    U.FirstSepIs(rest, 47, n);
    var tail := mid + u.body;
    assert rest[..n] == u.urType && rest[n + 1..] == tail;
    if u.sequence.Some? {
      U.LastSepIs(tail, 47, |mid| - 1);
      assert tail[..|mid| - 1] == mid[..|mid| - 1] && tail[|mid|..] == u.body;
    } else {
      assert tail == u.body;
    }
  }
}
