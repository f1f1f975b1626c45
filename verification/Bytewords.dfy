/** Bytewords, src/bcur/bytewords.rs: words for bytes, and the delay line that keeps
    the checksum out of the caller's buffer. */
module Bytewords {
  import opened Options
  import opened Bytes
  import opened Ascii

  datatype Error = BufferTooSmall | InvalidLength | InvalidWord | BadChecksum

  datatype Result<+T> = Ok(value: T) | Err(error: Error)

  datatype Style = Standard | Uri | Minimal

  /** The list of words, one for each byte. */
  type WordList = byte -> seq<byte>

  /** Words have four letters, and are told apart by the first and last. */
  ghost predicate WordListOk(w: WordList) {
    && (forall b :: |w(b)| == 4 && forall i :: 0 <= i < 4 ==> IsLower(w(b)[i]))
    && forall a, b :: w(a)[0] == w(b)[0] && w(a)[3] == w(b)[3] ==> a == b
  }

  /** A checksum of four bytes, taken a byte at a time. */
  datatype Check<!R> = Check(start: R, step: (R, byte) -> R, finish: R -> seq<byte>)

  ghost predicate CheckOk<R(!new)>(k: Check<R>) {
    forall c :: |k.finish(c)| == 4
  }

  function Register<R(!new)>(k: Check<R>, data: seq<byte>): R {
    if data == [] then k.start else k.step(Register(k, data[..|data| - 1]), data[|data| - 1])
  }

  function Checksum<R(!new)>(k: Check<R>, data: seq<byte>): seq<byte> {
    k.finish(Register(k, data))
  }

  // ----- words -----

  /** The first byte, from `from` on, whose word starts and ends with these letters. */
  function FindWord(w: WordList, first: byte, last: byte, from: nat): (v: Option<byte>)
    requires WordListOk(w) && from <= 256
    ensures v.Some? ==> from <= v.value as nat && w(v.value)[0] == first && w(v.value)[3] == last
    ensures v.None? ==> forall b: byte :: from <= b as nat ==> !(w(b)[0] == first && w(b)[3] == last)
    decreases 256 - from
  {
    if from == 256 then None
    else if w(from as byte)[0] == first && w(from as byte)[3] == last then Some(from as byte)
    else FindWord(w, first, last, from + 1)
  }

  /** `word_value`. */
  function WordValue(w: WordList, word: seq<byte>): Option<byte>
    requires WordListOk(w)
  {
    if word == [] then None
    else
      var v := FindWord(w, Lower(word[0]), Lower(word[|word| - 1]), 0);
      if v.Some? && |word| == 4 && LowerAll(word[1..3]) != w(v.value)[1..3] then None else v
  }

  function Word(w: WordList, style: Style, b: byte): seq<byte>
    requires WordListOk(w)
  {
    if style == Minimal then [w(b)[0], w(b)[3]] else w(b)
  }

  lemma {:induction false} WordReadsBack(w: WordList, style: Style, b: byte)
    requires WordListOk(w)
    ensures WordValue(w, Word(w, style, b)) == Some(b)
  {
    var word := Word(w, style, b);
    assert LowerAll(word) == word;
    assert style != Minimal ==> LowerAll(word[1..3]) == word[1..3];
  }

  lemma {:induction false} WordWritesBack(w: WordList, style: Style, word: seq<byte>)
    requires WordListOk(w) && |word| == (if style == Minimal then 2 else 4) && WordValue(w, word).Some?
    ensures Word(w, style, WordValue(w, word).value) == LowerAll(word)
  {
    var v := WordValue(w, word).value;
    if style != Minimal {
      assert LowerAll(word) == [Lower(word[0])] + LowerAll(word[1..3]) + [Lower(word[3])];
      assert w(v) == [w(v)[0]] + w(v)[1..3] + [w(v)[3]];
    }
  }

  // ----- texts -----

  function Separator(style: Style): byte {
    if style == Standard then 32 else 45
  }

  /** Words, separated unless they are minimal. */
  function Join(words: seq<seq<byte>>, style: Style): seq<byte> {
    if words == [] then []
    else if |words| == 1 then words[0]
    else words[0] + (if style == Minimal then [] else [Separator(style)]) + Join(words[1..], style)
  }

  function WordsOf(w: WordList, style: Style, data: seq<byte>): (words: seq<seq<byte>>)
    requires WordListOk(w)
    ensures |words| == |data| && forall i :: 0 <= i < |data| ==> words[i] == Word(w, style, data[i])
  {
    seq(|data|, i requires 0 <= i < |data| => Word(w, style, data[i]))
  }

  /** What `encode_to_slice` writes, given room. */
  function Encoded<R(!new)>(w: WordList, k: Check<R>, style: Style, data: seq<byte>): seq<byte>
    requires WordListOk(w)
  {
    Join(WordsOf(w, style, data + Checksum(k, data)), style)
  }

  /** The position of the first separator, or the end. */
  function FirstSep(text: seq<byte>, sep: byte): (n: nat)
    ensures n <= |text| && (n < |text| ==> text[n] == sep) && forall i :: 0 <= i < n ==> text[i] != sep
  {
    if text == [] || text[0] == sep then 0 else 1 + FirstSep(text[1..], sep)
  }

  /** `split`: one more piece than there are separators. */
  function SplitAt(text: seq<byte>, sep: byte): (words: seq<seq<byte>>)
    ensures words != []
    decreases |text|
  {
    var n := FirstSep(text, sep);
    if n == |text| then [text] else [text[..n]] + SplitAt(text[n + 1..], sep)
  }

  /** `chunks(2)`, of an even length. */
  function Pairs(text: seq<byte>): (words: seq<seq<byte>>)
    ensures forall i :: 0 <= i < |words| ==> |words[i]| == 2
  {
    if |text| < 2 then [] else [text[..2]] + Pairs(text[2..])
  }

  function Tokens(text: seq<byte>, style: Style): seq<seq<byte>> {
    if style == Minimal then Pairs(text) else SplitAt(text, Separator(style))
  }

  lemma {:induction false} PairsJoin(text: seq<byte>)
    requires |text| % 2 == 0
    ensures Join(Pairs(text), Minimal) == text
    decreases |text|
  {
    if text != [] {
      PairsJoin(text[2..]);
      assert text == text[..2] + text[2..];
      assert text[2..] == [] ==> text[..2] == text;
      assert text[..2] + [] + text[2..] == text;
    }
  }

  lemma {:induction false} SplitJoin(text: seq<byte>, style: Style)
    requires style != Minimal
    ensures Join(SplitAt(text, Separator(style)), style) == text
    decreases |text|
  {
    var sep := Separator(style);
    var n := FirstSep(text, sep);
    if n < |text| {
      SplitJoin(text[n + 1..], style);
      assert text == text[..n] + [sep] + text[n + 1..];
    }
  }

  lemma {:induction false} JoinPairs(words: seq<seq<byte>>)
    requires forall i :: 0 <= i < |words| ==> |words[i]| == 2
    ensures Pairs(Join(words, Minimal)) == words && |Join(words, Minimal)| % 2 == 0
  {
    if words != [] {
      var t, rest := Join(words, Minimal), Join(words[1..], Minimal);
      JoinPairs(words[1..]);
      assert t == words[0] + rest;
      assert t[..2] == words[0] && t[2..] == rest;
      assert words == [words[0]] + words[1..];
    }
  }

  lemma {:induction false} JoinSplit(words: seq<seq<byte>>, style: Style)
    requires style != Minimal && words != []
    requires forall i, j :: 0 <= i < |words| && 0 <= j < |words[i]| ==> words[i][j] != Separator(style)
    ensures SplitAt(Join(words, style), Separator(style)) == words
  {
    hide FirstSep;
    var sep, t := Separator(style), Join(words, style);
    if |words| > 1 {
      var rest := Join(words[1..], style);
      JoinSplit(words[1..], style);
      assert t == words[0] + [sep] + rest;
      var n := |words[0]|;
      assert t[n] == sep && forall j :: 0 <= j < n ==> t[j] == words[0][j];
      assert FirstSep(t, sep) == n && t[..n] == words[0] && t[n + 1..] == rest;
      assert words == [words[0]] + words[1..];
    } else {
      assert FirstSep(t, sep) == |t|;
    }
  }

  // ----- decoding -----

  ghost predicate GoodToken(w: WordList, style: Style, word: seq<byte>)
    requires WordListOk(w)
  {
    (style != Minimal ==> |word| == 4) && WordValue(w, word).Some?
  }

  /** The values of the tokens before the first that is no word. */
  ghost function Leading(w: WordList, style: Style, tokens: seq<seq<byte>>): (vals: seq<byte>)
    requires WordListOk(w)
    ensures |vals| <= |tokens| && (|vals| < |tokens| ==> !GoodToken(w, style, tokens[|vals|]))
    ensures forall i :: 0 <= i < |vals| ==> GoodToken(w, style, tokens[i]) && WordValue(w, tokens[i]) == Some(vals[i])
  {
    if tokens == [] || !GoodToken(w, style, tokens[0]) then []
    else [WordValue(w, tokens[0]).value] + Leading(w, style, tokens[1..])
  }

  /** What `decode_to_slice` makes of a text, in `room` bytes. */
  ghost function Decoded<R(!new)>(w: WordList, k: Check<R>, style: Style, text: seq<byte>, room: nat): Result<seq<byte>>
    requires WordListOk(w)
  {
    if style == Minimal && |text| % 2 == 1 then Err(InvalidLength)
    else
      var tokens := Tokens(text, style);
      var vals := Leading(w, style, tokens);
      if |vals| > room + 4 then Err(BufferTooSmall)
      else if |vals| < |tokens| then Err(InvalidWord)
      else if |vals| < 4 then Err(InvalidLength)
      else if Checksum(k, vals[..|vals| - 4]) != vals[|vals| - 4..] then Err(BadChecksum)
      else Ok(vals[..|vals| - 4])
  }

  /** The last four of what was pushed are in the ring, each at its position modulo 4. */
  ghost predicate Waiting(delay: seq<byte>, pushed: seq<byte>) {
    |delay| == 4 && forall i :: 0 <= i < |pushed| && i >= |pushed| - 4 ==> delay[i % 4] == pushed[i]
  }

  lemma {:induction false} OldestWaits(delay: seq<byte>, pushed: seq<byte>)
    requires Waiting(delay, pushed) && |pushed| >= 4
    ensures delay[|pushed| % 4] == pushed[|pushed| - 4]
  {
    assert |pushed| % 4 == (|pushed| - 4) % 4;
  }

  lemma {:induction false} NextWaits(delay: seq<byte>, pushed: seq<byte>, b: byte)
    requires Waiting(delay, pushed)
    ensures |delay| == 4 && Waiting(delay[|pushed| % 4 := b], pushed + [b])
  {
    forall i | 0 <= i < |pushed| && i > |pushed| - 4 ensures i % 4 != |pushed| % 4 {
    }
  }

  /** The four bytes received last wait here; those before them are in the buffer. */
  class DelayLine<R(!new)> {
    const k: Check<R>
    const out: array<byte>
    const delay: array<byte>
    var count: nat
    var register: R
    ghost var pushed: seq<byte>

    constructor (k: Check<R>, out: array<byte>)
      ensures Valid() && pushed == [] && this.k == k && this.out == out && fresh(delay)
    {
      this.k, this.out := k, out;
      delay := new byte[4](_ => 0);
      count, register, pushed := 0, k.start, [];
    }

    /** How many bytes have left the line. */
    function Gone(): nat
      reads this
    {
      if count < 4 then 0 else count - 4
    }

    ghost predicate Valid()
      reads this, out, delay
    {
      && delay.Length == 4 && out != delay && count == |pushed| && Gone() <= out.Length
      && out[..Gone()] == pushed[..Gone()]
      && Waiting(delay[..], pushed)
      && register == Register(k, pushed[..Gone()])
    }

    method Push(b: byte) returns (ok: bool)
      requires Valid()
      modifies this`count, this`register, this`pushed, out, delay
      ensures Valid() && ok == (old(count) < out.Length + 4)
      ensures pushed == if ok then old(pushed) + [b] else old(pushed)
    {
      hide Register, Waiting;
      if count >= 4 {
        OldestWaits(delay[..], pushed);
        var oldest := delay[count % 4];
        if count - 4 >= out.Length {
          return false;
        }
        NextRegister(k, pushed, count - 4);
        out[count - 4] := oldest;
        register := k.step(register, oldest);
        assert out[..count - 3] == pushed[..count - 4] + [oldest] == pushed[..count - 3];
      }
      NextWaits(delay[..], pushed, b);
      ghost var ring := delay[..];
      delay[count % 4] := b;
      assert delay[..] == ring[count % 4 := b];
      ghost var gone := if count < 4 then 0 else count - 3;
      assert (pushed + [b])[..gone] == pushed[..gone];
      pushed := pushed + [b];
      count := count + 1;
      assert Gone() == gone && out[..gone] == pushed[..gone];
      assert Waiting(delay[..], pushed) && register == Register(k, pushed[..gone]);
      ok := true;
    }

    /** Unrolls the line: the oldest of the four bytes comes first. */
    method Last4() returns (last: seq<byte>)
      requires Valid() && count >= 4
      ensures last == pushed[count - 4..]
    {
      last := [delay[count % 4], delay[(count + 1) % 4], delay[(count + 2) % 4], delay[(count + 3) % 4]];
      assert count % 4 == (count - 4) % 4 && (count + 1) % 4 == (count - 3) % 4
             && (count + 2) % 4 == (count - 2) % 4 && (count + 3) % 4 == (count - 1) % 4;
    }
  }

  lemma {:induction false} NextRegister<R(!new)>(k: Check<R>, data: seq<byte>, n: nat)
    requires n < |data|
    ensures Register(k, data[..n + 1]) == k.step(Register(k, data[..n]), data[n])
  {
    assert data[..n + 1][..n] == data[..n];
  }

  /** `decode_to_slice`. */
  method DecodeToSlice<R(!new)>(w: WordList, k: Check<R>, style: Style, text: seq<byte>, out: array<byte>) returns (r: Result<nat>)
    requires WordListOk(w) && CheckOk(k)
    modifies out
    ensures match Decoded(w, k, style, text, out.Length)
            case Ok(data) => r == Ok(|data|) && |data| <= out.Length && out[..|data|] == data
            case Err(e) => r == Err(e)
  {
    hide WordValue, Tokens, Register;
    if style == Minimal && |text| % 2 == 1 {
      return Err(InvalidLength);
    }
    var tokens := Tokens(text, style);
    ghost var vals := Leading(w, style, tokens);
    var line := new DelayLine<R>(k, out);
    for i := 0 to |tokens|
      invariant line.Valid() && i <= |vals| && line.pushed == vals[..i] && i <= out.Length + 4
    {
      if style != Minimal && |tokens[i]| != 4 {
        return Err(InvalidWord);
      }
      var v := WordValue(w, tokens[i]);
      if v.None? {
        return Err(InvalidWord);
      }
      assert i < |vals| && vals[i] == v.value;
      var ok := line.Push(v.value);
      if !ok {
        return Err(BufferTooSmall);
      }
    }
    assert vals[..|vals|] == vals;
    if line.count < 4 {
      return Err(InvalidLength);
    }
    var last := line.Last4();
    if k.finish(line.register) != last {
      return Err(BadChecksum);
    }
    r := Ok(line.count - 4);
  }

  // ----- encoding -----

  lemma {:induction false} JoinLast(words: seq<seq<byte>>, word: seq<byte>, style: Style)
    ensures Join(words + [word], style)
         == if words == [] then word
            else Join(words, style) + ((if style == Minimal then [] else [Separator(style)]) + word)
  {
    if words != [] {
      assert (words + [word])[1..] == words[1..] + [word];
      JoinLast(words[1..], word, style);
      if |words| > 1 {
        var sep := if style == Minimal then [] else [Separator(style)];
        var rest := Join(words[1..], style);
        assert words[0] + sep + (rest + (sep + word)) == (words[0] + sep + rest) + (sep + word);
      } else {
        assert words[1..] == [];
      }
    }
  }

  /** `encoded_len`. */
  function EncodedLen(n: nat, style: Style): nat {
    if style == Minimal then (n + 4) * 2 else (n + 4) * 5 - 1
  }

  /** `decoded_len_bound`. */
  function DecodedLenBound(n: nat, style: Style): nat {
    var words := if style == Minimal then n / 2 else (n + 4) / 5;
    if words < 4 then 0 else words - 4
  }

  lemma {:induction false} JoinLength(words: seq<seq<byte>>, style: Style)
    requires forall i :: 0 <= i < |words| ==> |words[i]| == if style == Minimal then 2 else 4
    ensures |Join(words, style)| == if style == Minimal || words == [] then 2 * |words| else 5 * |words| - 1
  {
    if |words| > 1 {
      JoinLength(words[1..], style);
    }
  }

  lemma {:induction false} EncodedLenIsExact<R(!new)>(w: WordList, k: Check<R>, style: Style, data: seq<byte>)
    requires WordListOk(w) && CheckOk(k)
    ensures |Encoded(w, k, style, data)| == EncodedLen(|data|, style)
  {
    hide Join, Register;
    JoinLength(WordsOf(w, style, data + Checksum(k, data)), style);
  }

  /** `crc32` over a whole message. */
  method RunCheck<R(!new)>(k: Check<R>, data: seq<byte>) returns (sum: seq<byte>)
    ensures sum == Checksum(k, data)
  {
    var c := k.start;
    for i := 0 to |data|
      invariant c == Register(k, data[..i])
    {
      NextRegister(k, data, i);
      c := k.step(c, data[i]);
    }
    assert data[..|data|] == data;
    sum := k.finish(c);
  }

  /** What the loop of `encode_to_slice` adds for one byte: `first` writes no separator. */
  function Piece(w: WordList, style: Style, b: byte, first: bool): seq<byte>
    requires WordListOk(w)
  {
    (if style == Minimal || first then [] else [Separator(style)]) + Word(w, style, b)
  }

  lemma {:induction false} NextPiece(w: WordList, style: Style, all: seq<byte>, i: nat)
    requires WordListOk(w) && i < |all|
    ensures Join(WordsOf(w, style, all[..i + 1]), style) == Join(WordsOf(w, style, all[..i]), style) + Piece(w, style, all[i], i == 0)
  {
    hide Join;
    var words, word := WordsOf(w, style, all[..i]), Word(w, style, all[i]);
    assert WordsOf(w, style, all[..i + 1]) == words + [word];
    JoinLast(words, word, style);
    if i == 0 {
      JoinNothing(style);
      assert [] + word == word && [] + ([] + word) == word;
    }
  }

  lemma {:induction false} JoinNothing(style: Style)
    ensures Join([], style) == []
  {
  }

  /** A piece written at `pos`. */
  method Write(out: array<byte>, pos: nat, piece: seq<byte>)
    requires pos + |piece| <= out.Length
    modifies out
    ensures out[..pos + |piece|] == old(out[..pos]) + piece
  {
    forall i | 0 <= i < |piece| {
      out[pos + i] := piece[i];
    }
    assert out[..pos] == old(out[..pos]) && out[pos..pos + |piece|] == piece;
  }

  /** `encode_to_slice`. */
  method EncodeToSlice<R(!new)>(w: WordList, k: Check<R>, style: Style, data: seq<byte>, out: array<byte>) returns (r: Result<nat>)
    requires WordListOk(w) && CheckOk(k)
    modifies out
    ensures var t := Encoded(w, k, style, data);
            && r == (if |t| <= out.Length then Ok(|t|) else Err(BufferTooSmall))
            && (r.Ok? ==> out[..r.value] == t)
  {
    hide Join, Register, Word, WordListOk;
    EncodedLenIsExact(w, k, style, data);
    var len := EncodedLen(|data|, style);
    if len > out.Length {
      return Err(BufferTooSmall);
    }
    var checksum := RunCheck(k, data);
    var all := data + checksum;
    ghost var text := Join(WordsOf(w, style, all), style);
    var pos: nat := 0;
    JoinNothing(style);
    for i := 0 to |all|
      invariant pos <= len && out[..pos] == Join(WordsOf(w, style, all[..i]), style)
    {
      NextPiece(w, style, all, i);
      PrefixIsShorter(w, style, all, i + 1);
      var piece := Piece(w, style, all[i], i == 0);
      Write(out, pos, piece);
      pos := pos + |piece|;
    }
    assert all[..|all|] == all;
    r := Ok(len);
  }

  lemma {:induction false} PrefixIsShorter(w: WordList, style: Style, all: seq<byte>, i: nat)
    requires WordListOk(w) && i <= |all|
    ensures |Join(WordsOf(w, style, all[..i]), style)| <= |Join(WordsOf(w, style, all), style)|
  {
    hide Join;
    JoinLength(WordsOf(w, style, all[..i]), style);
    JoinLength(WordsOf(w, style, all), style);
  }

  // ----- round trips -----

  lemma {:induction false} TokensOfEncoded(w: WordList, style: Style, data: seq<byte>)
    requires WordListOk(w) && data != []
    ensures var text := Join(WordsOf(w, style, data), style);
            Tokens(text, style) == WordsOf(w, style, data) && (style == Minimal ==> |text| % 2 == 0)
  {
    hide Join, Pairs, SplitAt;
    var words := WordsOf(w, style, data);
    if style == Minimal {
      JoinPairs(words);
    } else {
      JoinSplit(words, style);
    }
  }

  lemma {:induction false} LeadingOfWords(w: WordList, style: Style, data: seq<byte>)
    requires WordListOk(w)
    ensures Leading(w, style, WordsOf(w, style, data)) == data
  {
    hide WordValue, Leading;
    var words := WordsOf(w, style, data);
    var vals := Leading(w, style, words);
    forall i | 0 <= i < |data| ensures GoodToken(w, style, words[i]) && WordValue(w, words[i]) == Some(data[i]) {
      WordReadsBack(w, style, data[i]);
    }
    assert |vals| == |data|;
  }

  /** Decoding an encoding, given room for the data. */
  lemma {:induction false} DecodeInvertsEncode<R(!new)>(w: WordList, k: Check<R>, style: Style, data: seq<byte>, room: nat)
    requires WordListOk(w) && CheckOk(k) && room >= |data|
    ensures Decoded(w, k, style, Encoded(w, k, style, data), room) == Ok(data)
  {
    hide Leading, Tokens, Join, Register;
    var all := data + Checksum(k, data);
    TokensOfEncoded(w, style, all);
    LeadingOfWords(w, style, all);
    assert all[..|data|] == data && all[|data|..] == Checksum(k, data);
  }

  /** A text that decodes is, up to case, the encoding of what it decodes to. */
  lemma {:induction false} EncodeInvertsDecode<R(!new)>(w: WordList, k: Check<R>, style: Style, text: seq<byte>, room: nat)
    requires WordListOk(w) && Decoded(w, k, style, text, room).Ok?
    ensures Encoded(w, k, style, Decoded(w, k, style, text, room).value) == LowerAll(text)
  {
    hide Register, WordValue, Word, Join, Pairs, SplitAt;
    var tokens := Tokens(text, style);
    var vals := Leading(w, style, tokens);
    assert vals == vals[..|vals| - 4] + vals[|vals| - 4..];
    forall i | 0 <= i < |vals| ensures Word(w, style, vals[i]) == LowerAll(tokens[i]) {
      assert GoodToken(w, style, tokens[i]);
      WordWritesBack(w, style, tokens[i]);
    }
    var words := WordsOf(w, style, vals);
    LowerJoin(tokens, words, style);
    if style == Minimal {
      PairsJoin(text);
    } else {
      SplitJoin(text, style);
    }
  }

  lemma {:induction false} LowerJoin(tokens: seq<seq<byte>>, words: seq<seq<byte>>, style: Style)
    requires |tokens| == |words| && forall i :: 0 <= i < |words| ==> words[i] == LowerAll(tokens[i])
    ensures Join(words, style) == LowerAll(Join(tokens, style))
  {
    hide Lower;
    if |words| > 1 {
      LowerJoin(tokens[1..], words[1..], style);
      SepIsLower(style);
      assert words[0] == LowerAll(tokens[0]);
    }
  }

  lemma {:induction false} SepIsLower(style: Style)
    ensures Lower(Separator(style)) == Separator(style)
  {
  }

  // ----- case -----

  function LowerEach(words: seq<seq<byte>>): (r: seq<seq<byte>>)
    ensures |r| == |words| && forall i :: 0 <= i < |r| ==> r[i] == LowerAll(words[i])
  {
    seq(|words|, i requires 0 <= i < |words| => LowerAll(words[i]))
  }

  lemma {:induction false} WordValueOfLower(w: WordList, word: seq<byte>)
    requires WordListOk(w)
    ensures WordValue(w, LowerAll(word)) == WordValue(w, word)
  {
    if |word| == 4 {
      assert LowerAll(LowerAll(word)[1..3]) == LowerAll(word[1..3]);
    }
  }

  lemma {:induction false} PairsOfLower(text: seq<byte>)
    ensures Pairs(LowerAll(text)) == LowerEach(Pairs(text))
    decreases |text|
  {
    hide Lower;
    if |text| >= 2 {
      PairsOfLower(text[2..]);
      assert LowerAll(text)[..2] == LowerAll(text[..2]) && LowerAll(text)[2..] == LowerAll(text[2..]);
      assert LowerEach(Pairs(text)) == [LowerAll(text[..2])] + LowerEach(Pairs(text[2..]));
    }
  }

  lemma {:induction false} SepStays(c: byte, style: Style)
    ensures Lower(c) == Separator(style) <==> c == Separator(style)
  {
  }

  lemma {:induction false} FirstSepOfLower(text: seq<byte>, style: Style)
    ensures FirstSep(LowerAll(text), Separator(style)) == FirstSep(text, Separator(style))
  {
    hide Lower;
    if text != [] {
      SepStays(text[0], style);
      FirstSepOfLower(text[1..], style);
      assert LowerAll(text)[1..] == LowerAll(text[1..]);
    }
  }

  lemma {:induction false} SplitOfLower(text: seq<byte>, style: Style)
    ensures SplitAt(LowerAll(text), Separator(style)) == LowerEach(SplitAt(text, Separator(style)))
    decreases |text|
  {
    hide Lower, FirstSep;
    var sep := Separator(style);
    var n := FirstSep(text, sep);
    FirstSepOfLower(text, style);
    if n < |text| {
      SplitOfLower(text[n + 1..], style);
      assert LowerAll(text)[..n] == LowerAll(text[..n]) && LowerAll(text)[n + 1..] == LowerAll(text[n + 1..]);
      assert LowerEach(SplitAt(text, sep)) == [LowerAll(text[..n])] + LowerEach(SplitAt(text[n + 1..], sep));
    }
  }

  lemma {:induction false} LeadingOfLower(w: WordList, style: Style, tokens: seq<seq<byte>>)
    requires WordListOk(w)
    ensures Leading(w, style, LowerEach(tokens)) == Leading(w, style, tokens)
  {
    hide WordValue;
    if tokens != [] {
      WordValueOfLower(w, tokens[0]);
      LeadingOfLower(w, style, tokens[1..]);
      assert LowerEach(tokens)[1..] == LowerEach(tokens[1..]);
    }
  }

  /** Decoding ignores the case of letters. */
  lemma {:induction false} CaseDoesNotCount<R(!new)>(w: WordList, k: Check<R>, style: Style, text: seq<byte>, room: nat)
    requires WordListOk(w)
    ensures Decoded(w, k, style, LowerAll(text), room) == Decoded(w, k, style, text, room)
  {
    hide Leading, Register, Pairs, SplitAt;
    LeadingOfLower(w, style, Tokens(text, style));
    if style == Minimal {
      PairsOfLower(text);
    } else {
      SplitOfLower(text, style);
    }
  }
}
