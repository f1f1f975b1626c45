/** UR strings of src/bcur by position: the letters of the words, the CBOR of a part and the
    order of what is printed. */
module UrLayout {
  import opened Options
  import opened Bytes
  import opened Layout
  import opened Ascii
  import opened Crc32
  import opened Decoder
  import opened Ur
  import opened UrText
  import C = Cbor
  import F = CborForms
  import R = CborRoundTrip
  import W = Bytewords

  // ----- words -----

  lemma {:induction false} FirstWord(w: W.WordList, style: W.Style, all: seq<byte>)
    requires W.WordListOk(w) && all != []
    ensures var rest := W.Join(W.WordsOf(w, style, all[1..]), style);
            W.Join(W.WordsOf(w, style, all), style)
            == W.Word(w, style, all[0]) + ((if |all| == 1 || style == W.Minimal then [] else [W.Separator(style)]) + rest)
  {
    hide W.Separator, W.Word;
    var words := W.WordsOf(w, style, all);
    assert words[1..] == W.WordsOf(w, style, all[1..]);
    if |words| == 1 {
      assert words[0] + ([] + []) == words[0];
    } else {
      Regroup(words[0], if style == W.Minimal then [] else [W.Separator(style)], W.Join(words[1..], style));
    }
  }

  /** Byte `i` in minimal words: the first and the last letter of its word. */
  lemma {:induction false} MinimalByPosition(w: W.WordList, all: seq<byte>, i: nat)
    requires W.WordListOk(w) && i < |all|
    ensures var t := W.Join(W.WordsOf(w, W.Minimal, all), W.Minimal);
            |t| == 2 * |all| && Holds(t, 2 * i, [w(all[i])[0], w(all[i])[3]])
  {
    hide W.Join, Holds, W.WordsOf;
    var word := W.Word(w, W.Minimal, all[0]);
    var t, rest := W.Join(W.WordsOf(w, W.Minimal, all), W.Minimal), W.Join(W.WordsOf(w, W.Minimal, all[1..]), W.Minimal);
    TextLength(w, W.Minimal, all);
    FirstWord(w, W.Minimal, all);
    assert [] + rest == rest;
    WordAndRest(t, word, [], rest);
    if i > 0 {
      MinimalByPosition(w, all[1..], i - 1);
      HoldsWithin(t, 2, rest, 2 * (i - 1), [w(all[i])[0], w(all[i])[3]]);
    }
  }

  lemma {:induction false} FirstWhole(w: W.WordList, style: W.Style, all: seq<byte>)
    requires W.WordListOk(w) && all != [] && style != W.Minimal
    ensures var t, rest := W.Join(W.WordsOf(w, style, all), style), W.Join(W.WordsOf(w, style, all[1..]), style);
            && |w(all[0])| == 4 && |t| == 5 * |all| - 1 && Holds(t, 0, w(all[0]))
            && (|all| > 1 ==> Holds(t, 4, [if style == W.Standard then 32 else 45]) && Holds(t, 5, rest))
  {
    hide W.Join, Holds, W.WordsOf;
    var rest := W.Join(W.WordsOf(w, style, all[1..]), style);
    TextLength(w, style, all);
    FirstWord(w, style, all);
    WordAndRest(W.Join(W.WordsOf(w, style, all), style), w(all[0]), if |all| == 1 then [] else [W.Separator(style)], rest);
  }

  /** Byte `i` in whole words: its word, and a space or a dash before the next. */
  lemma {:induction false} WholeByPosition(w: W.WordList, style: W.Style, all: seq<byte>, i: nat)
    requires W.WordListOk(w) && i < |all| && style != W.Minimal
    ensures var t := W.Join(W.WordsOf(w, style, all), style);
            && |t| == 5 * |all| - 1 && Holds(t, 5 * i, w(all[i]))
            && (i + 1 < |all| ==> Holds(t, 5 * i + 4, [if style == W.Standard then 32 else 45]))
  {
    hide W.Join, Holds, W.WordsOf, W.WordListOk;
    FirstWhole(w, style, all);
    if i > 0 {
      var t, rest := W.Join(W.WordsOf(w, style, all), style), W.Join(W.WordsOf(w, style, all[1..]), style);
      WholeByPosition(w, style, all[1..], i - 1);
      HoldsWithin(t, 5, rest, 5 * (i - 1), w(all[i]));
      if i + 1 < |all| {
        HoldsWithin(t, 5, rest, 5 * (i - 1) + 4, [if style == W.Standard then 32 else 45]);
      }
    }
  }

  lemma {:induction false} WordAndRest(t: seq<byte>, word: seq<byte>, sep: seq<byte>, rest: seq<byte>)
    requires t == word + (sep + rest)
    ensures Holds(t, 0, word) && Holds(t, |word|, sep) && Holds(t, |word| + |sep|, rest)
  {
    hide Holds;
    Cut(t, 0, word, sep + rest);
    Cut(t, |word|, sep, rest);
    assert rest == rest + [];
    Cut(t, |word| + |sep|, rest, []);
  }

  lemma {:induction false} TextLength(w: W.WordList, style: W.Style, all: seq<byte>)
    requires W.WordListOk(w) && all != []
    ensures |W.Join(W.WordsOf(w, style, all), style)| == if style == W.Minimal then 2 * |all| else 5 * |all| - 1
  {
    hide W.Join;
    W.JoinLength(W.WordsOf(w, style, all), style);
  }

  // ----- parts -----

  /** A part in CBOR: an array of its number, the number of fragments, the length and the CRC-32 of
      the message, and the data. */
  lemma {:induction false} PartIsArray(p: Part)
    requires PartFits(p)
    ensures var v := C.Array([C.Uint(p.seqNum), C.Uint(p.seqLen), C.Uint(p.messageLen), C.Uint(p.checksum as nat),
                              C.Bytes(AsBytes(p.data))]);
            C.Fits(v) && PartBytes(p) == C.Encode(v)
  {
    hide C.WriteHead, AsBytes, C.Encode, C.Fits, PartFits, WriteUints;
    PartNumbers(p);
    var a, b, c, d := C.Uint(p.seqNum), C.Uint(p.seqLen), C.Uint(p.messageLen), C.Uint(p.checksum as nat);
    var e := C.Bytes(AsBytes(p.data));
    Leaves(p.seqNum, []);
    Leaves(p.seqLen, []);
    Leaves(p.messageLen, []);
    Leaves(p.checksum as nat, AsBytes(p.data));
    ItemsOfFive([a, b, c, d, e]);
    FourNumbers([p.seqNum, p.seqLen, p.messageLen, p.checksum as nat]);
    Nest(C.WriteHead(0, p.seqNum), C.WriteHead(0, p.seqLen), C.WriteHead(0, p.messageLen), C.WriteHead(0, p.checksum as nat),
         C.WriteHead(2, |p.data|) + AsBytes(p.data));
  }

  lemma {:induction false} PartNumbers(p: Part)
    requires PartFits(p)
    ensures p.seqNum < U32 && p.seqLen < U32 && p.messageLen < U32 && (p.checksum as nat) < U32 && |AsBytes(p.data)| < U64
    ensures Numbers(p) == [p.seqNum, p.seqLen, p.messageLen, p.checksum as nat]
  {
    WordReadsBack(p.checksum);
  }

  lemma {:induction false} Leaves(n: nat, b: seq<byte>)
    requires n < U64 && |b| < U64
    ensures C.Fits(C.Uint(n)) && C.Encode(C.Uint(n)) == C.WriteHead(0, n)
    ensures C.Fits(C.Bytes(b)) && C.Encode(C.Bytes(b)) == C.WriteHead(2, |b|) + b
  {
    hide C.WriteHead;
  }

  lemma {:induction false} ItemsOfFive(items: seq<C.Cbor>)
    requires |items| == 5 && forall i :: 0 <= i < 5 ==> C.Fits(items[i])
    ensures C.Fits(C.Array(items))
    ensures C.Encode(C.Array(items))
         == C.WriteHead(4, 5) + (C.Encode(items[0]) + (C.Encode(items[1]) + (C.Encode(items[2])
            + (C.Encode(items[3]) + C.Encode(items[4])))))
  {
    hide C.Encode, C.WriteHead, C.Fits;
    ArrayIs(items);
    C.ItemsEncodeInTurn(items, 0);
    C.ItemsEncodeInTurn(items, 1);
    C.ItemsEncodeInTurn(items, 2);
    C.ItemsEncodeInTurn(items, 3);
    C.ItemsEncodeInTurn(items, 4);
    assert items[0..] == items && items[5..] == [];
    assert C.Encode(items[4]) + [] == C.Encode(items[4]);
  }

  lemma {:induction false} ArrayIs(items: seq<C.Cbor>)
    requires |items| < U64 && forall i :: 0 <= i < |items| ==> C.Fits(items[i])
    ensures C.Fits(C.Array(items)) && C.Encode(C.Array(items)) == C.WriteHead(4, |items|) + C.EncodeItems(items)
    ensures C.EncodeItems([]) == []
  {
    hide C.WriteHead;
  }

  lemma {:induction false} FourNumbers(vs: seq<nat>)
    requires |vs| == 4 && forall i :: 0 <= i < 4 ==> vs[i] < U32
    ensures WriteUints(vs) == C.WriteHead(0, vs[0]) + (C.WriteHead(0, vs[1]) + (C.WriteHead(0, vs[2]) + C.WriteHead(0, vs[3])))
  {
    hide C.WriteHead;
    assert vs[1..][1..] == vs[2..] && vs[2..][1..] == vs[3..] && vs[3..][1..] == [];
    assert WriteUints(vs[3..]) == C.WriteHead(0, vs[3]) + [] == C.WriteHead(0, vs[3]);
    assert WriteUints(vs[2..]) == C.WriteHead(0, vs[2]) + WriteUints(vs[3..]);
    assert WriteUints(vs[1..]) == C.WriteHead(0, vs[1]) + WriteUints(vs[2..]);
  }

  lemma {:induction false} Nest(a: seq<byte>, b: seq<byte>, c: seq<byte>, d: seq<byte>, e: seq<byte>)
    ensures a + (b + (c + d)) + e == a + (b + (c + (d + e)))
  {
  }

  /** An array of five: four numbers of 32 bits and a byte string in one piece, each head in any of its
      forms. */
  ghost predicate IsPart(f: F.Form, p: Part) {
    && F.Readable(f) && f.Group? && f.major == 4 && |f.items| == 5
    && (forall i :: 0 <= i < 4 ==> f.items[i].Plain? && f.items[i].major == 0 && f.items[i].arg.value < U32)
    && f.items[4].Text? && f.items[4].major == 2
    && p == Part(f.items[0].arg.value, f.items[1].arg.value, f.items[2].arg.value, f.items[3].arg.value as bv32, AsBits(f.items[4].content))
  }

  ghost predicate AreNumbers(fs: seq<F.Form>, vs: seq<nat>) {
    |fs| == |vs| && forall i :: 0 <= i < |fs| ==> fs[i].Plain? && fs[i].major == 0 && F.Readable(fs[i]) && fs[i].arg.value == vs[i]
  }

  lemma {:induction false} NumbersAreForms(cbor: seq<byte>, pos: nat, n: nat) returns (fs: seq<F.Form>)
    requires pos <= |cbor| && UintsOf(cbor, pos, n).Some?
    ensures AreNumbers(fs, UintsOf(cbor, pos, n).value.0) && F.AllReadable(fs)
    ensures cbor[pos..UintsOf(cbor, pos, n).value.1] == F.SpellAll(fs)
    decreases n
  {
    hide C.ReadHead, F.HeadBytes, F.ArgOk;
    if n == 0 {
      fs := [];
    } else {
      var (v, at) := HeadOf(cbor, pos, 0).value;
      var a := F.HeadIsForm(cbor, pos);
      var rest := NumbersAreForms(cbor, at, n - 1);
      fs := [F.Plain(0, a)] + rest;
      assert fs[1..] == rest;
      F.Split(cbor, pos, at, UintsOf(cbor, pos, n).value.1);
    }
  }

  lemma {:induction false} FormsAreNumbers(fs: seq<F.Form>, vs: seq<nat>, cbor: seq<byte>, pos: nat)
    requires AreNumbers(fs, vs) && F.AllReadable(fs) && (forall i :: 0 <= i < |vs| ==> vs[i] < U32)
    requires pos <= |cbor| && R.At(cbor, pos, F.SpellAll(fs))
    ensures UintsOf(cbor, pos, |fs|) == Some((vs, pos + |F.SpellAll(fs)|))
    decreases fs
  {
    hide C.ReadHead, F.HeadBytes, F.ArgOk, R.At;
    if fs != [] {
      R.AtSplits(cbor, pos, F.Spell(fs[0]), F.SpellAll(fs[1..]));
      F.HeadScans(cbor, pos, 0, fs[0].arg);
      FormsAreNumbers(fs[1..], vs[1..], cbor, pos + |F.Spell(fs[0])|);
      assert vs == [vs[0]] + vs[1..];
    }
  }

  lemma {:induction false} PartIsForm(cbor: seq<byte>) returns (f: F.Form)
    requires PartOf(cbor).Ok?
    ensures IsPart(f, PartOf(cbor).value) && F.Spell(f) == cbor
  {
    hide C.ReadHead, F.HeadBytes, F.ArgOk, UintsOf, F.SpellAll, AsBits;
    var start := HeadOf(cbor, 0, 4).value;
    var a := F.HeadIsForm(cbor, 0);
    var (vs, at) := UintsOf(cbor, start.1, 4).value;
    var fs := NumbersAreForms(cbor, start.1, 4);
    var data := HeadOf(cbor, at, 2).value;
    var b := F.HeadIsForm(cbor, at);
    var text := F.Text(2, b, cbor[data.1..]);
    f := F.Group(4, a, fs + [text]);
    F.SpellSplits(fs, [text]);
    F.SpellFirst([text]);
    F.NothingSpelt();
    assert [text][1..] == [] && F.Spell(text) + [] == F.Spell(text);
    assert cbor[at..] == cbor[at..data.1] + cbor[data.1..];
    assert cbor == cbor[0..start.1] + (cbor[start.1..at] + cbor[at..]);
  }

  lemma {:induction false} FormIsPart(f: F.Form, p: Part)
    requires IsPart(f, p)
    ensures PartOf(F.Spell(f)) == Ok(p)
  {
    hide C.ReadHead, F.Spell, F.SpellAll, F.HeadBytes, F.ArgOk, UintsOf, AsBits, R.At;
    var cbor, fs, text := F.Spell(f), f.items[..4], f.items[4];
    var at := ArrayStarts(f);
    FourThenText(f.items);
    R.AtSplits(cbor, at, F.SpellAll(fs), F.Spell(text));
    FormsAreNumbers(fs, [f.items[0].arg.value, f.items[1].arg.value, f.items[2].arg.value, f.items[3].arg.value], cbor, at);
    TextIsTail(cbor, at + |F.SpellAll(fs)|, text);
  }

  lemma {:induction false} ArrayStarts(f: F.Form) returns (at: nat)
    requires F.Readable(f) && f.Group? && f.major == 4
    ensures var cbor := F.Spell(f);
            HeadOf(cbor, 0, 4) == Some((f.arg.value, at)) && at <= |cbor| && R.At(cbor, at, F.SpellAll(f.items))
            && |cbor| == at + |F.SpellAll(f.items)|
  {
    hide C.ReadHead, F.SpellAll, F.HeadBytes, F.ArgOk, R.At;
    var cbor := F.Spell(f);
    F.ArgFits(f.arg);
    WholeIsAt(cbor);
    R.AtSplits(cbor, 0, F.HeadBytes(4, f.arg), F.SpellAll(f.items));
    F.HeadScans(cbor, 0, 4, f.arg);
    at := 1 + f.arg.width;
  }

  lemma {:induction false} FourThenText(items: seq<F.Form>)
    requires |items| == 5 && F.AllReadable(items)
    ensures F.AllReadable(items[..4]) && F.SpellAll(items) == F.SpellAll(items[..4]) + F.Spell(items[4])
  {
    hide F.Spell, F.SpellAll;
    var fs, text := items[..4], items[4];
    assert items == fs + [text];
    F.SpellSplits(fs, [text]);
    F.SpellFirst([text]);
    F.NothingSpelt();
    assert [text][1..] == [] && F.Spell(text) + [] == F.Spell(text);
  }

  /** A byte string in one piece, at the end of the data. */
  lemma {:induction false} TextIsTail(cbor: seq<byte>, pos: nat, text: F.Form)
    requires text.Text? && text.major == 2 && F.Readable(text)
    requires pos <= |cbor| && R.At(cbor, pos, F.Spell(text)) && |cbor| == pos + |F.Spell(text)|
    ensures HeadOf(cbor, pos, 2) == Some((|text.content|, pos + 1 + text.arg.width))
    ensures pos + 1 + text.arg.width <= |cbor| && cbor[pos + 1 + text.arg.width..] == text.content
  {
    hide C.ReadHead, F.HeadBytes, F.ArgOk, R.At;
    F.ArgFits(text.arg);
    R.AtSplits(cbor, pos, F.HeadBytes(2, text.arg), text.content);
    F.HeadScans(cbor, pos, 2, text.arg);
    AtEnd(cbor, pos + 1 + text.arg.width, text.content);
  }

  lemma {:induction false} WholeIsAt(s: seq<byte>)
    ensures R.At(s, 0, s)
  {
    assert s[0..|s|] == s;
  }

  lemma {:induction false} AtEnd(s: seq<byte>, pos: nat, t: seq<byte>)
    requires R.At(s, pos, t) && |s| == pos + |t|
    ensures s[pos..] == t
  {
    assert s[pos..|s|] == s[pos..];
  }

  /** What is read as a part: exactly such arrays, to the last byte. */
  lemma {:induction false} PartExactly(cbor: seq<byte>, p: Part)
    ensures PartOf(cbor) == Ok(p) <==> exists f :: IsPart(f, p) && F.Spell(f) == cbor
  {
    hide PartOf, F.Spell, F.ArgOk;
    if PartOf(cbor) == Ok(p) {
      var f := PartIsForm(cbor);
      assert IsPart(f, p);
    }
    if f :| IsPart(f, p) && F.Spell(f) == cbor {
      FormIsPart(f, p);
    }
  }

  // ----- strings -----

  /** A number in decimal: as many digits as it takes. */
  lemma {:induction false} DecimalIsShort(n: nat)
    ensures Value(Decimal(n)) == n && (n > 0 ==> Decimal(n)[0] != 48)
  {
    ValueOfDecimal(n);
    DecimalStarts(n);
  }

  lemma {:induction false} DecimalStarts(n: nat)
    ensures n > 0 ==> Decimal(n)[0] != 48
  {
    if n >= 10 {
      DecimalStarts(n / 10);
    }
  }

  /** The string of a part: `ur:`, the type, a slash, for a part of several its number, a dash, their
      number and another slash, and then in minimal words the data, which is `bits`, and its CRC-32. */
  lemma {:induction false} TextInOrder(w: W.WordList, scan: Scan, bits: seq<bv8>)
    requires W.WordListOk(w) && Printable(scan)
    requires if scan.Single? then bits == scan.body.value else AsBytes(bits) == PartBytes(scan.part.value)
    ensures var words := W.Join(W.WordsOf(w, W.Minimal, AsBytes(bits) + Be(Crc(bits) as nat, 4)), W.Minimal);
            TextOf(w, scan)
            == [0x75, 0x72, 0x3a] + scan.urType + [0x2f]
               + (if scan.Single? then [] else Decimal(scan.seqNum) + [0x2d] + Decimal(scan.seqLen) + [0x2f]) + words
  {
    hide W.Join, PartBytes, Decimal, W.WordsOf, Be, Crc, W.Checksum, AsBits, AsBytes;
    ChecksumIsCrc(bits);
    var words := W.Encoded(w, CrcCheck(), W.Minimal, AsBytes(bits));
    var head := if scan.Single? then [] else Decimal(scan.seqNum) + [0x2d] + Decimal(scan.seqLen) + [0x2f];
    Reassociate([0x75, 0x72, 0x3a], scan.urType, [0x2f], head, words);
  }

  lemma {:induction false} Reassociate(a: seq<byte>, b: seq<byte>, c: seq<byte>, d: seq<byte>, e: seq<byte>)
    ensures a + (b + c + d + e) == a + b + c + d + e
  {
  }
}
