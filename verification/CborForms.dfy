/** The well-formed items of section 3 of RFC 8949, in every form they may be written in, against
    what src/cbor.rs scans: exactly these, and besides them integers and tags with a length of 31,
    which RFC 8949 reserves. */
module CborForms {
  import opened Bytes
  import opened Cbor
  import opened CborScan
  import R = CborRoundTrip
  import S = CborSplit

  // ----- forms -----

  /** An argument, in the five bits of a head or in 1, 2, 4 or 8 bytes after it, not only as few as
      it takes. */
  datatype Arg = Arg(width: nat, value: nat)

  ghost predicate ArgOk(a: Arg) {
    if a.width == 0 then a.value < 24 else a.width in [1, 2, 4, 8] && a.value < Span(a.width)
  }

  function InfoOf(a: Arg): nat {
    if a.width == 0 then a.value else if a.width == 1 then 24 else if a.width == 2 then 25 else if a.width == 4 then 26 else 27
  }

  function HeadBytes(major: nat, a: Arg): (s: seq<byte>)
    requires major < 8 && (a.width == 0 ==> a.value < 24)
    ensures |s| == 1 + a.width
  {
    [(32 * major + InfoOf(a)) as byte] + Be(a.value, a.width)
  }

  /** An item: a number or simple value, a string in one piece or in chunks, items of a known number
      (of an array, a map, or after a tag), or items up to a break. An odd item is an integer or tag
      that claims an indefinite length. */
  datatype Form =
    | Plain(major: nat, arg: Arg)
    | Text(major: nat, arg: Arg, content: seq<byte>)
    | Chunked(major: nat, chunks: seq<Form>)
    | Group(major: nat, arg: Arg, items: seq<Form>)
    | Streamed(major: nat, items: seq<Form>)
    | Odd(major: nat)
    | OddTag(item: Form)

  /** What RFC 8949 asks for, but for odd items: chunks are strings of the same type in one piece, a map has a key and
      a value for each entry, a tag is followed by one item. */
  ghost predicate Readable(f: Form) {
    match f
    case Plain(major, arg) => major in [0, 1, 7] && ArgOk(arg)
    case Text(major, arg, content) => major in [2, 3] && ArgOk(arg) && |content| == arg.value
    case Chunked(major, chunks) =>
      major in [2, 3] && forall i :: 0 <= i < |chunks| ==> chunks[i].Text? && chunks[i].major == major && Readable(chunks[i])
    case Group(major, arg, items) =>
      && major in [4, 5, 6] && ArgOk(arg)
      && |items| == (if major == 4 then arg.value else if major == 5 then 2 * arg.value else 1)
      && forall i :: 0 <= i < |items| ==> Readable(items[i])
    case Streamed(major, items) =>
      major in [4, 5] && (major == 5 ==> |items| % 2 == 0) && forall i :: 0 <= i < |items| ==> Readable(items[i])
    case Odd(major) => major in [0, 1]
    case OddTag(item) => Readable(item)
  }

  /** No odd item in it: what RFC 8949 calls well-formed. */
  ghost predicate WellFormed(f: Form) {
    match f
    case Plain(_, _) => true
    case Text(_, _, _) => true
    case Chunked(_, _) => true
    case Group(_, _, items) => forall i :: 0 <= i < |items| ==> WellFormed(items[i])
    case Streamed(_, items) => forall i :: 0 <= i < |items| ==> WellFormed(items[i])
    case Odd(_) => false
    case OddTag(_) => false
  }

  ghost predicate AllReadable(fs: seq<Form>) {
    forall i :: 0 <= i < |fs| ==> Readable(fs[i])
  }

  /** How a form is written. */
  ghost function Spell(f: Form): (s: seq<byte>)
    requires Readable(f)
    ensures s != []
    decreases f, 0
  {
    match f
    case Plain(major, arg) => HeadBytes(major, arg)
    case Text(major, arg, content) => HeadBytes(major, arg) + content
    case Chunked(major, chunks) => [(32 * major + 31) as byte] + (SpellAll(chunks) + [0xff])
    case Group(major, arg, items) => HeadBytes(major, arg) + SpellAll(items)
    case Streamed(major, items) => [(32 * major + 31) as byte] + (SpellAll(items) + [0xff])
    case Odd(major) => [(32 * major + 31) as byte]
    case OddTag(item) => [0xdf] + Spell(item)
  }

  ghost function SpellAll(fs: seq<Form>): seq<byte>
    requires AllReadable(fs)
    decreases fs, 1
  {
    if fs == [] then [] else Spell(fs[0]) + SpellAll(fs[1..])
  }

  // ----- heads -----

  lemma {:induction false} ArgFits(a: Arg)
    requires ArgOk(a)
    ensures a.width == 0 ==> a.value < 24
  {
  }

  lemma {:induction false} HeadScans(data: seq<byte>, pos: nat, major: nat, a: Arg)
    requires major < 8 && ArgOk(a) && R.At(data, pos, HeadBytes(major, a))
    ensures ReadHead(data, pos) == Ok((Head(major, a.value, false), pos + 1 + a.width)) && data[pos] != 0xff
    ensures pos + 1 + a.width <= |data|
  {
    hide Be, BeValue, Span, Take;
    var head := HeadBytes(major, a);
    assert data[pos] == data[pos..pos + |head|][0];
    HeadByte(major, InfoOf(a));
    if a.width > 0 {
      assert data[pos + 1..pos + |head|] == data[pos..pos + |head|][1..] == Be(a.value, a.width);
      LongHeadReadsBack(data, pos, major, InfoOf(a), a.value);
    }
  }

  /** A head that is read was written in one of these forms. */
  lemma {:induction false} HeadIsForm(data: seq<byte>, pos: nat) returns (a: Arg)
    requires ReadHead(data, pos).Ok? && !ReadHead(data, pos).value.0.indefinite
    ensures var (head, at) := ReadHead(data, pos).value;
            ArgOk(a) && a.value == head.arg && data[pos..at] == HeadBytes(head.major, a)
  {
    hide Be, BeValue;
    var (head, at) := ReadHead(data, pos).value;
    var info := data[pos] as nat % 32;
    a := Arg(ArgSize(info), head.arg);
    assert data[pos..at] == [data[pos]] + data[pos + 1..at];
    if info >= 24 {
      BeWritesBack(data[pos + 1..at]);
    } else {
      assert data[pos + 1..at] == [] == Be(head.arg, 0) by {
        NoBytes(head.arg);
      }
    }
    HeadByte(head.major, InfoOf(a));
  }

  lemma {:induction false} NoBytes(v: nat)
    ensures Be(v, 0) == []
  {
  }

  lemma {:induction false} OpenHead(data: seq<byte>, pos: nat, major: nat)
    requires pos < |data| && major < 7 && data[pos] == (32 * major + 31) as byte
    ensures ReadHead(data, pos) == Ok((Head(major, 0, true), pos + 1)) && data[pos] != 0xff
  {
    HeadByte(major, 31);
  }

  lemma {:induction false} OpenIsHead(data: seq<byte>, pos: nat)
    requires ReadHead(data, pos).Ok? && ReadHead(data, pos).value.0.indefinite
    ensures var (head, at) := ReadHead(data, pos).value;
            at == pos + 1 && data[pos] == (32 * head.major + 31) as byte
  {
  }

  // ----- every form is scanned -----

  lemma {:induction false} BreakIs(data: seq<byte>, pos: nat)
    requires R.At(data, pos, [0xff])
    ensures pos < |data| && data[pos] == 0xff
  {
    assert data[pos] == data[pos..pos + 1][0];
  }

  /** No item starts like a break. */
  lemma {:induction false} NoBreak(data: seq<byte>, pos: nat, f: Form)
    requires Readable(f) && R.At(data, pos, Spell(f))
    ensures pos < |data| && data[pos] != 0xff
  {
    hide SpellAll, Be;
    assert data[pos] == data[pos..pos + |Spell(f)|][0];
    assert Spell(f)[0] != 0xff;
  }

  lemma {:induction false} ItemFrom(data: seq<byte>, pos: nat, head: Head, at: nat)
    requires ReadHead(data, pos) == Ok((head, at))
    ensures var r := Item(false, data, pos);
            && (head.major <= 1 || (head.major == 7 && !head.indefinite) ==> r == Ok(at))
            && (2 <= head.major <= 3 && !head.indefinite && at + head.arg <= |data| ==> r == Ok(at + head.arg))
            && (2 <= head.major <= 3 && head.indefinite ==> r == Chunks(data, at, head.major))
            && (4 <= head.major <= 5 && !head.indefinite ==> r == Items(false, data, at, head.arg * (head.major - 3)))
            && (4 <= head.major <= 5 && head.indefinite ==> r == UntilBreak(false, data, at, head.major == 5))
            && (head.major == 6 ==> r == Items(false, data, at, 1))
  {
    hide ReadHead, Chunks, Items, UntilBreak;
  }

  lemma {:induction false} FormScans(f: Form, data: seq<byte>, pos: nat)
    requires Readable(f) && R.At(data, pos, Spell(f))
    ensures Item(false, data, pos) == Ok(pos + |Spell(f)|)
    decreases f, 1
  {
    hide Readable, Spell, Item, R.At;
    match f
    case Plain(_, _) => PlainScans(f, data, pos);
    case Text(_, _, _) => TextScans(f, data, pos);
    case Chunked(_, _) => ChunkedScans(f, data, pos);
    case Group(_, _, _) => GroupScans(f, data, pos);
    case Streamed(_, _) => StreamedScans(f, data, pos);
    case Odd(_) => OddScans(f, data, pos);
    case OddTag(_) => OddTagScans(f, data, pos);
  }

  lemma {:induction false} PlainScans(f: Form, data: seq<byte>, pos: nat)
    requires Readable(f) && f.Plain? && R.At(data, pos, Spell(f))
    ensures Item(false, data, pos) == Ok(pos + |Spell(f)|)
    decreases f, 0
  {
    hide HeadBytes, ReadHead, SpellAll, Items, Chunks, UntilBreak, R.At, Item, Span;
    HeadScans(data, pos, f.major, f.arg);
    ItemFrom(data, pos, Head(f.major, f.arg.value, false), pos + 1 + f.arg.width);
  }

  lemma {:induction false} TextScans(f: Form, data: seq<byte>, pos: nat)
    requires Readable(f) && f.Text? && R.At(data, pos, Spell(f))
    ensures Item(false, data, pos) == Ok(pos + |Spell(f)|)
    decreases f, 0
  {
    hide HeadBytes, ReadHead, SpellAll, Items, Chunks, UntilBreak, R.At, Item, Span;
    var at := pos + 1 + f.arg.width;
    R.AtSplits(data, pos, HeadBytes(f.major, f.arg), f.content);
    HeadScans(data, pos, f.major, f.arg);
    AtFits(data, at, f.content);
    ItemFrom(data, pos, Head(f.major, f.arg.value, false), at);
  }

  lemma {:induction false} ChunkedScans(f: Form, data: seq<byte>, pos: nat)
    requires Readable(f) && f.Chunked? && R.At(data, pos, Spell(f))
    ensures Item(false, data, pos) == Ok(pos + |Spell(f)|)
    decreases f, 0
  {
    hide HeadBytes, ReadHead, SpellAll, Items, Chunks, UntilBreak, R.At, Item, Span;
    OpenScans(data, pos, f.major, SpellAll(f.chunks) + [0xff]);
    ItemFrom(data, pos, Head(f.major, 0, true), pos + 1);
    ChunksScan(f.chunks, f.major, data, pos + 1);
  }

  lemma {:induction false} GroupScans(f: Form, data: seq<byte>, pos: nat)
    requires Readable(f) && f.Group? && R.At(data, pos, Spell(f))
    ensures Item(false, data, pos) == Ok(pos + |Spell(f)|)
    decreases f, 0
  {
    hide HeadBytes, ReadHead, SpellAll, Items, Chunks, UntilBreak, R.At, Item, Span;
    var at := pos + 1 + f.arg.width;
    R.AtSplits(data, pos, HeadBytes(f.major, f.arg), SpellAll(f.items));
    HeadScans(data, pos, f.major, f.arg);
    ItemFrom(data, pos, Head(f.major, f.arg.value, false), at);
    FormsScan(f.items, data, at);
  }

  lemma {:induction false} StreamedScans(f: Form, data: seq<byte>, pos: nat)
    requires Readable(f) && f.Streamed? && R.At(data, pos, Spell(f))
    ensures Item(false, data, pos) == Ok(pos + |Spell(f)|)
    decreases f, 0
  {
    hide HeadBytes, ReadHead, SpellAll, Items, Chunks, UntilBreak, R.At, Item, Span;
    OpenScans(data, pos, f.major, SpellAll(f.items) + [0xff]);
    ItemFrom(data, pos, Head(f.major, 0, true), pos + 1);
    StreamScans(f.items, f.major == 5, data, pos + 1);
  }

  lemma {:induction false} OddScans(f: Form, data: seq<byte>, pos: nat)
    requires Readable(f) && f.Odd? && R.At(data, pos, Spell(f))
    ensures Item(false, data, pos) == Ok(pos + |Spell(f)|)
    decreases f, 0
  {
    hide HeadBytes, ReadHead, SpellAll, Items, Chunks, UntilBreak, R.At, Item, Span;
    assert Spell(f) + [] == Spell(f);
    OpenScans(data, pos, f.major, []);
    ItemFrom(data, pos, Head(f.major, 0, true), pos + 1);
  }

  lemma {:induction false} OddTagScans(f: Form, data: seq<byte>, pos: nat)
    requires Readable(f) && f.OddTag? && R.At(data, pos, Spell(f))
    ensures Item(false, data, pos) == Ok(pos + |Spell(f)|)
    decreases f, 0
  {
    hide HeadBytes, ReadHead, SpellAll, Items, Chunks, UntilBreak, R.At, Item, Span;
    OpenScans(data, pos, 6, Spell(f.item));
    ItemFrom(data, pos, Head(6, 0, true), pos + 1);
    FormScans(f.item, data, pos + 1);
    OneItem(data, pos + 1);
  }

  lemma {:induction false} AtFits(data: seq<byte>, pos: nat, s: seq<byte>)
    requires R.At(data, pos, s)
    ensures pos + |s| <= |data|
  {
  }

  lemma {:induction false} OpenScans(data: seq<byte>, pos: nat, major: nat, rest: seq<byte>)
    requires major < 7 && R.At(data, pos, [(32 * major + 31) as byte] + rest)
    ensures ReadHead(data, pos) == Ok((Head(major, 0, true), pos + 1)) && R.At(data, pos + 1, rest) && pos + 1 <= |data|
  {
    hide ReadHead;
    R.AtSplits(data, pos, [(32 * major + 31) as byte], rest);
    assert data[pos] == data[pos..pos + 1][0];
    OpenHead(data, pos, major);
  }

  lemma {:induction false} FormsScan(fs: seq<Form>, data: seq<byte>, pos: nat)
    requires AllReadable(fs) && pos <= |data| && R.At(data, pos, SpellAll(fs))
    ensures Items(false, data, pos, |fs|) == Ok(pos + |SpellAll(fs)|)
    decreases fs, 1
  {
    hide Spell, Item, Readable, R.At;
    if fs != [] {
      R.AtSplits(data, pos, Spell(fs[0]), SpellAll(fs[1..]));
      FormScans(fs[0], data, pos);
      FormsScan(fs[1..], data, pos + |Spell(fs[0])|);
    }
  }

  lemma {:induction false} StreamScans(fs: seq<Form>, pairs: bool, data: seq<byte>, pos: nat)
    requires AllReadable(fs) && (pairs ==> |fs| % 2 == 0) && pos <= |data| && R.At(data, pos, SpellAll(fs) + [0xff])
    ensures UntilBreak(false, data, pos, pairs) == Ok(pos + |SpellAll(fs)| + 1)
    decreases fs, 1
  {
    hide Spell, Item, Readable, R.At, SpellAll, Items;
    NothingSpelt();
    if fs == [] {
      assert [] + [0xff] == [0xff as byte];
      BreakIs(data, pos);
    } else {
      var n := if pairs then 2 else 1;
      var front, back := fs[..n], fs[n..];
      SpellSplits(front, back);
      assert front + back == fs;
      Regroup(SpellAll(front), SpellAll(back), [0xff]);
      R.AtSplits(data, pos, SpellAll(front), SpellAll(back) + [0xff]);
      FirstIsNoBreak(fs, data, pos, [0xff]);
      FrontScans(front, data, pos, fs);
      AtFits(data, pos + |SpellAll(front)|, SpellAll(back) + [0xff]);
      StreamScans(back, pairs, data, pos + |SpellAll(front)|);
    }
  }

  lemma {:induction false} NothingSpelt()
    ensures SpellAll([]) == []
  {
  }

  /** One or two items from the front of more. */
  lemma {:induction false} FrontScans(front: seq<Form>, data: seq<byte>, pos: nat, fs: seq<Form>)
    requires AllReadable(front) && pos <= |data| && R.At(data, pos, SpellAll(front)) && 1 <= |front| <= 2 && front <= fs
    ensures Items(false, data, pos, |front|) == Ok(pos + |SpellAll(front)|)
    decreases fs, 0
  {
    hide Spell, Item, Readable, R.At, SpellAll;
    SpellFirst(front);
    assert front[0] == fs[0];
    R.AtSplits(data, pos, Spell(front[0]), SpellAll(front[1..]));
    FormScans(front[0], data, pos);
    var next := pos + |Spell(front[0])|;
    NothingSpelt();
    if |front| == 2 {
      assert front[1] == fs[1] && front[1..][0] == front[1] && front[1..][1..] == [];
      SpellFirst(front[1..]);
      R.AtSplits(data, next, Spell(front[1]), []);
      FormScans(front[1], data, next);
      OneItem(data, next);
    } else {
      assert front[1..] == [];
    }
  }

  lemma {:induction false} OneItem(data: seq<byte>, pos: nat)
    requires pos <= |data|
    ensures Item(false, data, pos).Ok? ==> Items(false, data, pos, 1) == Item(false, data, pos)
  {
    hide Item;
  }

  lemma {:induction false} SpellFirst(fs: seq<Form>)
    requires AllReadable(fs) && fs != []
    ensures AllReadable(fs[1..]) && SpellAll(fs) == Spell(fs[0]) + SpellAll(fs[1..])
  {
    hide Spell, Readable;
  }

  lemma {:induction false} SpellSplits(a: seq<Form>, b: seq<Form>)
    requires AllReadable(a) && AllReadable(b)
    ensures AllReadable(a + b) && SpellAll(a + b) == SpellAll(a) + SpellAll(b)
  {
    hide Spell, Readable;
    if a == [] {
      assert a + b == b;
    } else {
      assert (a + b)[1..] == a[1..] + b;
      SpellSplits(a[1..], b);
      Regroup(Spell(a[0]), SpellAll(a[1..]), SpellAll(b));
    }
  }

  lemma {:induction false} FirstIsNoBreak(fs: seq<Form>, data: seq<byte>, pos: nat, rest: seq<byte>)
    requires AllReadable(fs) && fs != [] && R.At(data, pos, SpellAll(fs) + rest)
    ensures pos < |data| && data[pos] != 0xff
  {
    hide Spell, Readable, R.At, SpellAll;
    SpellFirst(fs);
    Regroup(Spell(fs[0]), SpellAll(fs[1..]), rest);
    R.AtSplits(data, pos, Spell(fs[0]), SpellAll(fs[1..]) + rest);
    NoBreak(data, pos, fs[0]);
  }

  lemma {:induction false} ChunksFrom(data: seq<byte>, pos: nat, major: nat, head: Head, at: nat)
    requires pos < |data| && data[pos] != 0xff && ReadHead(data, pos) == Ok((head, at))
    requires head.major == major && !head.indefinite && at + head.arg <= |data|
    ensures Chunks(data, pos, major) == Chunks(data, at + head.arg, major)
  {
    hide ReadHead;
  }

  lemma {:induction false} ChunksEnd(data: seq<byte>, pos: nat, major: nat)
    requires pos < |data| && data[pos] == 0xff
    ensures Chunks(data, pos, major) == Ok(pos + 1)
  {
  }

  lemma {:induction false} ChunksScan(chunks: seq<Form>, major: nat, data: seq<byte>, pos: nat)
    requires AllReadable(chunks) && major in [2, 3] && R.At(data, pos, SpellAll(chunks) + [0xff]) && pos <= |data|
    requires forall i :: 0 <= i < |chunks| ==> chunks[i].Text? && chunks[i].major == major
    ensures Chunks(data, pos, major) == Ok(pos + |SpellAll(chunks)| + 1)
    decreases chunks, 1
  {
    hide R.At, SpellAll, HeadBytes, ReadHead, Chunks, Span;
    NothingSpelt();
    if chunks == [] {
      assert [] + [0xff] == [0xff as byte];
      BreakIs(data, pos);
      ChunksEnd(data, pos, major);
    } else {
      var c, rest := chunks[0], SpellAll(chunks[1..]) + [0xff];
      var at := pos + 1 + c.arg.width;
      SpellFirst(chunks);
      Regroup(Spell(c), SpellAll(chunks[1..]), [0xff]);
      Regroup(HeadBytes(major, c.arg), c.content, rest);
      R.AtSplits(data, pos, HeadBytes(major, c.arg), c.content + rest);
      HeadScans(data, pos, major, c.arg);
      R.AtSplits(data, at, c.content, rest);
      AtFits(data, at, c.content);
      ChunksFrom(data, pos, major, Head(major, c.arg.value, false), at);
      ChunksScan(chunks[1..], major, data, at + |c.content|);
    }
  }

  // ----- and nothing else -----

  lemma {:induction false} ItemIsForm(data: seq<byte>, pos: nat) returns (f: Form)
    requires Item(false, data, pos).Ok?
    ensures Readable(f) && data[pos..Item(false, data, pos).value] == Spell(f)
    decreases |data| - (if pos <= |data| then pos else |data|), 0, 0
  {
    hide ReadHead, HeadBytes, SpellAll, Chunks, Items, UntilBreak;
    var end := Item(false, data, pos).value;
    var (head, at) := ReadHead(data, pos).value;
    Split(data, pos, at, end);
    if head.indefinite {
      OpenIsHead(data, pos);
      assert data[pos..at] == [(32 * head.major + 31) as byte];
      if head.major <= 1 {
        f := Odd(head.major);
        assert data[at..end] == [];
      } else if head.major == 6 {
        ItemsOfOne(data, at);
        var item := ItemIsForm(data, at);
        f := OddTag(item);
      } else if head.major <= 3 {
        var chunks := ChunksAreForms(data, at, head.major);
        f := Chunked(head.major, chunks);
      } else {
        var items := RunIsForms(data, at, head.major == 5);
        f := Streamed(head.major, items);
      }
    } else {
      var a := HeadIsForm(data, pos);
      if head.major <= 1 || head.major == 7 {
        f := Plain(head.major, a);
      } else if head.major <= 3 {
        f := Text(head.major, a, data[at..end]);
      } else {
        var items := ItemsAreForms(data, at, if head.major == 6 then 1 else head.arg * (head.major - 3));
        f := Group(head.major, a, items);
      }
    }
  }

  lemma {:induction false} ItemsOfOne(data: seq<byte>, pos: nat)
    requires pos <= |data| && Items(false, data, pos, 1).Ok?
    ensures Item(false, data, pos) == Items(false, data, pos, 1)
  {
    hide Item;
  }

  lemma {:induction false} Split(data: seq<byte>, pos: nat, at: nat, end: nat)
    requires pos <= at <= end <= |data|
    ensures data[pos..end] == data[pos..at] + data[at..end]
  {
  }

  lemma {:induction false} ItemsAreForms(data: seq<byte>, pos: nat, count: nat) returns (fs: seq<Form>)
    requires pos <= |data| && Items(false, data, pos, count).Ok?
    ensures |fs| == count && AllReadable(fs) && data[pos..Items(false, data, pos, count).value] == SpellAll(fs)
    decreases |data| - pos, 1, count
  {
    hide Item, Spell, Readable;
    if count == 0 {
      fs := [];
    } else {
      var first := ItemIsForm(data, pos);
      var mid := Item(false, data, pos).value;
      var rest := ItemsAreForms(data, mid, count - 1);
      fs := [first] + rest;
      assert fs[1..] == rest;
      Split(data, pos, mid, Items(false, data, pos, count).value);
    }
  }

  lemma {:induction false} RunIsForms(data: seq<byte>, pos: nat, pairs: bool) returns (fs: seq<Form>)
    requires pos <= |data| && UntilBreak(false, data, pos, pairs).Ok?
    ensures AllReadable(fs) && (pairs ==> |fs| % 2 == 0)
    ensures data[pos..UntilBreak(false, data, pos, pairs).value] == SpellAll(fs) + [0xff]
    decreases |data| - pos, 2, 0
  {
    hide Item, Spell, Readable, Items, SpellAll;
    var end := UntilBreak(false, data, pos, pairs).value;
    NothingSpelt();
    if pos < |data| && data[pos] == 0xff {
      fs := [];
      assert data[pos..pos + 1] == [] + [0xff];
    } else {
      var n := if pairs then 2 else 1;
      var front := ItemsAreForms(data, pos, n);
      var mid := Items(false, data, pos, n).value;
      var back := RunIsForms(data, mid, pairs);
      fs := front + back;
      SpellSplits(front, back);
      Split(data, pos, mid, end);
      Regroup(SpellAll(front), SpellAll(back), [0xff]);
    }
  }

  lemma {:induction false} ChunksAreForms(data: seq<byte>, pos: nat, major: nat) returns (chunks: seq<Form>)
    requires pos <= |data| && major in [2, 3] && Chunks(data, pos, major).Ok?
    ensures AllReadable(chunks) && forall i :: 0 <= i < |chunks| ==> chunks[i].Text? && chunks[i].major == major
    ensures data[pos..Chunks(data, pos, major).value] == SpellAll(chunks) + [0xff]
    decreases |data| - pos
  {
    hide ReadHead, HeadBytes, SpellAll;
    var end := Chunks(data, pos, major).value;
    NothingSpelt();
    if pos < |data| && data[pos] == 0xff {
      chunks := [];
      assert data[pos..pos + 1] == [] + [0xff];
    } else {
      var (head, at) := ReadHead(data, pos).value;
      var a := HeadIsForm(data, pos);
      var mid := at + head.arg;
      var first := Text(major, a, data[at..mid]);
      var rest := ChunksAreForms(data, mid, major);
      chunks := [first] + rest;
      assert chunks[1..] == rest;
      SpellFirst(chunks);
      Split(data, pos, at, mid);
      Split(data, pos, mid, end);
      Regroup(Spell(first), SpellAll(rest), [0xff]);
    }
  }

  /** Scanning finds an item at a position exactly if one stands there in one of these forms, and it
      ends where that ends. */
  lemma {:induction false} ScanIsExact(data: seq<byte>, pos: nat, end: nat)
    requires |data| < U64
    ensures Item(true, data, pos) == Ok(end) <==>
              pos <= end <= |data| && exists f :: Readable(f) && data[pos..end] == Spell(f)
  {
    hide Item, Readable, Spell;
    ChecksRefuseNoItem(data, pos);
    if Item(true, data, pos) == Ok(end) {
      var f := ItemIsForm(data, pos);
    }
    if pos <= end <= |data| {
      if f :| Readable(f) && data[pos..end] == Spell(f) {
        assert R.At(data, pos, Spell(f));
        FormScans(f, data, pos);
      }
    }
  }

  // ----- one form for each item -----

  ghost function MajorOf(f: Form): nat {
    if f.OddTag? then 6 else f.major
  }

  /** Whether the head has a length of 31. */
  ghost predicate OpenOf(f: Form) {
    f.Chunked? || f.Streamed? || f.Odd? || f.OddTag?
  }

  lemma {:induction false} ArgOfForm(f: Form, data: seq<byte>, pos: nat)
    requires Readable(f) && !OpenOf(f) && R.At(data, pos, Spell(f))
    ensures ArgOk(f.arg) && MajorOf(f) < 8 && R.At(data, pos, HeadBytes(MajorOf(f), f.arg)) && pos < |data|
    ensures ReadHead(data, pos) == Ok((Head(MajorOf(f), f.arg.value, false), pos + 1 + f.arg.width))
    ensures data[pos] as nat % 32 == InfoOf(f.arg)
  {
    hide HeadBytes, ReadHead, SpellAll, R.At, Span;
    match f {
      case Plain(_, _) =>
      case Text(major, arg, content) => R.AtSplits(data, pos, HeadBytes(major, arg), content);
      case Group(major, arg, items) => R.AtSplits(data, pos, HeadBytes(major, arg), SpellAll(items));
    }
    HeadScans(data, pos, MajorOf(f), f.arg);
    InfoIs(data, pos, MajorOf(f), f.arg);
  }

  lemma {:induction false} InfoIs(data: seq<byte>, pos: nat, major: nat, a: Arg)
    requires major < 8 && ArgOk(a) && R.At(data, pos, HeadBytes(major, a))
    ensures pos < |data| && data[pos] as nat % 32 == InfoOf(a)
  {
    hide Be, Span;
    assert data[pos] == data[pos..pos + |HeadBytes(major, a)|][0];
    HeadByte(major, InfoOf(a));
  }

  lemma {:induction false} OpenForm(f: Form, data: seq<byte>, pos: nat)
    requires Readable(f) && OpenOf(f) && R.At(data, pos, Spell(f))
    ensures ReadHead(data, pos) == Ok((Head(MajorOf(f), 0, true), pos + 1)) && pos + 1 <= |data|
    ensures match f
            case Chunked(_, items) => AllReadable(items) && R.At(data, pos + 1, SpellAll(items) + [0xff])
            case Streamed(_, items) => AllReadable(items) && R.At(data, pos + 1, SpellAll(items) + [0xff])
            case OddTag(item) => R.At(data, pos + 1, Spell(item))
            case _ => true
  {
    hide ReadHead, SpellAll, R.At;
    match f
    case Chunked(major, items) => OpenScans(data, pos, major, SpellAll(items) + [0xff]);
    case Streamed(major, items) => OpenScans(data, pos, major, SpellAll(items) + [0xff]);
    case Odd(major) =>
      assert Spell(f) + [] == Spell(f);
      OpenScans(data, pos, major, []);
    case OddTag(item) => OpenScans(data, pos, 6, Spell(item));
  }

  /** What stands at a position stands there in one form only. */
  lemma {:induction false} FormIsUnique(f: Form, g: Form, data: seq<byte>, pos: nat)
    requires Readable(f) && Readable(g) && R.At(data, pos, Spell(f)) && R.At(data, pos, Spell(g))
    ensures f == g
    decreases f, 1
  {
    hide ReadHead, SpellAll, R.At, Spell, Readable;
    if OpenOf(f) {
      OpenForm(f, data, pos);
    } else {
      ArgOfForm(f, data, pos);
    }
    if OpenOf(g) {
      OpenForm(g, data, pos);
    } else {
      ArgOfForm(g, data, pos);
    }
    if OpenOf(f) {
      OpenIsUnique(f, g, data, pos);
    } else {
      ClosedIsUnique(f, g, data, pos);
    }
  }

  lemma {:induction false} OpenIsUnique(f: Form, g: Form, data: seq<byte>, pos: nat)
    requires Readable(f) && Readable(g) && R.At(data, pos, Spell(f)) && R.At(data, pos, Spell(g))
    requires OpenOf(f) && OpenOf(g) && MajorOf(f) == MajorOf(g)
    ensures f == g
    decreases f, 0
  {
    hide ReadHead, SpellAll, R.At, Spell;
    OpenForm(f, data, pos);
    OpenForm(g, data, pos);
    match f
    case Chunked(_, items) => RunIsUnique(items, g.chunks, data, pos + 1);
    case Streamed(_, items) => RunIsUnique(items, g.items, data, pos + 1);
    case Odd(_) =>
    case OddTag(item) => FormIsUnique(item, g.item, data, pos + 1);
  }

  lemma {:induction false} ClosedIsUnique(f: Form, g: Form, data: seq<byte>, pos: nat)
    requires Readable(f) && Readable(g) && R.At(data, pos, Spell(f)) && R.At(data, pos, Spell(g))
    requires !OpenOf(f) && !OpenOf(g) && MajorOf(f) == MajorOf(g)
    ensures f == g
    decreases f, 0
  {
    hide ReadHead, SpellAll, R.At, HeadBytes, Span;
    ArgOfForm(f, data, pos);
    ArgOfForm(g, data, pos);
    assert f.arg == g.arg;
    match f
    case Plain(_, _) =>
    case Text(major, arg, content) =>
      R.AtSplits(data, pos, HeadBytes(major, arg), content);
      R.AtSplits(data, pos, HeadBytes(major, arg), g.content);
      SameText(data, pos + 1 + arg.width, content, g.content);
    case Group(major, arg, items) =>
      R.AtSplits(data, pos, HeadBytes(major, arg), SpellAll(items));
      R.AtSplits(data, pos, HeadBytes(major, arg), SpellAll(g.items));
      FormsAreUnique(items, g.items, data, pos + 1 + arg.width);
  }

  lemma {:induction false} SameText(data: seq<byte>, pos: nat, a: seq<byte>, b: seq<byte>)
    requires R.At(data, pos, a) && R.At(data, pos, b) && |a| == |b|
    ensures a == b
  {
  }

  lemma {:induction false} FormsAreUnique(fs: seq<Form>, gs: seq<Form>, data: seq<byte>, pos: nat)
    requires AllReadable(fs) && AllReadable(gs) && |fs| == |gs|
    requires R.At(data, pos, SpellAll(fs)) && R.At(data, pos, SpellAll(gs))
    ensures fs == gs
    decreases fs, 1
  {
    hide R.At, SpellAll, Spell, Readable;
    if fs != [] {
      SpellFirst(fs);
      SpellFirst(gs);
      R.AtSplits(data, pos, Spell(fs[0]), SpellAll(fs[1..]));
      R.AtSplits(data, pos, Spell(gs[0]), SpellAll(gs[1..]));
      FormIsUnique(fs[0], gs[0], data, pos);
      FormsAreUnique(fs[1..], gs[1..], data, pos + |Spell(fs[0])|);
      assert fs == [fs[0]] + fs[1..] && gs == [gs[0]] + gs[1..];
    }
  }

  lemma {:induction false} RunIsUnique(fs: seq<Form>, gs: seq<Form>, data: seq<byte>, pos: nat)
    requires AllReadable(fs) && AllReadable(gs)
    requires R.At(data, pos, SpellAll(fs) + [0xff]) && R.At(data, pos, SpellAll(gs) + [0xff])
    ensures fs == gs
    decreases fs, 1
  {
    hide R.At, SpellAll, Spell, Readable;
    NothingSpelt();
    if fs == [] {
      assert [] + [0xff] == [0xff as byte];
      BreakIs(data, pos);
      if gs != [] {
        FirstIsNoBreak(gs, data, pos, [0xff]);
      }
    } else {
      FirstIsNoBreak(fs, data, pos, [0xff]);
      if gs == [] {
        assert [] + [0xff] == [0xff as byte];
        BreakIs(data, pos);
      } else {
        SpellFirst(fs);
        SpellFirst(gs);
        Regroup(Spell(fs[0]), SpellAll(fs[1..]), [0xff]);
        Regroup(Spell(gs[0]), SpellAll(gs[1..]), [0xff]);
        R.AtSplits(data, pos, Spell(fs[0]), SpellAll(fs[1..]) + [0xff]);
        R.AtSplits(data, pos, Spell(gs[0]), SpellAll(gs[1..]) + [0xff]);
        FormIsUnique(fs[0], gs[0], data, pos);
        RunIsUnique(fs[1..], gs[1..], data, pos + |Spell(fs[0])|);
        assert fs == [fs[0]] + fs[1..] && gs == [gs[0]] + gs[1..];
      }
    }
  }

  // ----- where the scanner is more lenient than RFC 8949 -----

  ghost predicate Stands(data: seq<byte>, pos: nat, end: nat, f: Form) {
    pos <= end <= |data| && Readable(f) && data[pos..end] == Spell(f)
  }

  /** A scanned item is well-formed if and only if the one form it stands in has no odd head in it. */
  lemma {:induction false} WellFormedUnlessOdd(data: seq<byte>, pos: nat, end: nat, f: Form)
    requires |data| < U64 && Item(true, data, pos) == Ok(end) && Stands(data, pos, end, f)
    ensures (exists g :: WellFormed(g) && Stands(data, pos, end, g)) <==> WellFormed(f)
  {
    hide Item, Readable, Spell, WellFormed;
    if g :| WellFormed(g) && Stands(data, pos, end, g) {
      assert R.At(data, pos, Spell(f)) && R.At(data, pos, Spell(g));
      FormIsUnique(f, g, data, pos);
    }
  }

  /** The single byte 0x1f, an integer that claims an indefinite length, is scanned, and no
      well-formed item is written like that. */
  lemma {:induction false} OddIntegerIsScanned()
    ensures Item(true, [0x1f], 0) == Ok(1)
    ensures !exists g :: WellFormed(g) && Stands([0x1f], 0, 1, g)
  {
    hide Item, Spell;
    var data: seq<byte> := [0x1f];
    assert Readable(Odd(0)) && Spell(Odd(0)) == data by {
      OddZero();
    }
    assert data[0..1] == data;
    ScanIsExact(data, 0, 1);
    WellFormedUnlessOdd(data, 0, 1, Odd(0));
  }

  lemma {:induction false} OddZero()
    ensures Readable(Odd(0)) && Spell(Odd(0)) == [0x1f]
  {
  }

  // ----- splitting an array -----

  ghost predicate IsItem(s: seq<byte>) {
    exists f :: Readable(f) && Spell(f) == s
  }

  /** An array of a known number of items, its head in any form, with these bytes for its items. */
  ghost predicate IsArrayOf(data: seq<byte>, a: Arg, parts: seq<seq<byte>>) {
    && ArgOk(a) && a.value == |parts| && (forall i :: 0 <= i < |parts| ==> IsItem(parts[i]))
    && HeadBytes(4, a) + S.Joined(parts) <= data
  }

  lemma {:induction false} ItemIsOne(s: seq<byte>)
    requires |s| < U64
    ensures IsItem(s) <==> S.OneItem(s)
  {
    hide Item, Readable, Spell;
    ScanIsExact(s, 0, |s|);
    ChecksRefuseNoItem(s, 0);
    assert s[0..|s|] == s;
    if S.OneItem(s) {
      var f :| Readable(f) && s[0..|s|] == Spell(f);
    }
    if f :| Readable(f) && Spell(f) == s {
      assert Readable(f) && s[0..|s|] == Spell(f);
      assert Item(true, s, 0) == Ok(|s|);
    }
  }

  lemma {:induction false} PartsAreOne(parts: seq<seq<byte>>)
    requires |S.Joined(parts)| < U64
    ensures S.AllOne(parts) <==> forall i :: 0 <= i < |parts| ==> IsItem(parts[i])
  {
    hide IsItem, S.OneItem;
    forall i | 0 <= i < |parts| ensures IsItem(parts[i]) <==> S.OneItem(parts[i]) {
      PartIsShorter(parts, i);
      ItemIsOne(parts[i]);
    }
  }

  lemma {:induction false} PartIsShorter(parts: seq<seq<byte>>, i: nat)
    requires i < |parts|
    ensures |parts[i]| <= |S.Joined(parts)|
  {
    if i > 0 {
      PartIsShorter(parts[1..], i - 1);
    }
  }

  lemma {:induction false} SplitIsArray(data: seq<byte>) returns (a: Arg)
    requires |data| < U64 && S.Split(data).Ok?
    ensures IsArrayOf(data, a, S.Split(data).value)
  {
    hide ReadHead, HeadBytes, ArgOk, S.SplitFrom, IsItem, S.AllOne;
    var (head, at) := ReadHead(data, 0).value;
    var parts := S.Split(data).value;
    a := HeadIsForm(data, 0);
    ArgFits(a);
    S.SplitPieces(data, at, head.arg);
    PartsAreOne(parts);
    var all := HeadBytes(4, a) + S.Joined(parts);
    assert data[0..|all|] == data[0..at] + data[at..|all|];
    assert data[..|all|] == data[0..|all|];
  }

  lemma {:induction false} ArrayIsSplit(data: seq<byte>, a: Arg, parts: seq<seq<byte>>)
    requires |data| < U64 && IsArrayOf(data, a, parts)
    ensures S.Split(data) == Ok(parts)
  {
    hide ReadHead, HeadBytes, ArgOk, S.SplitFrom, IsItem, S.AllOne;
    ArgFits(a);
    var head, body := HeadBytes(4, a), S.Joined(parts);
    assert data[0..|head + body|] == head + body;
    assert R.At(data, 0, head + body);
    R.AtSplits(data, 0, head, body);
    HeadScans(data, 0, 4, a);
    PartsAreOne(parts);
    S.SplitOfJoined(data, |head|, parts);
    S.EachTakesAByte(parts);
  }

  /** What splitting an array returns: exactly the items of such an array, each as it is written,
      whatever stands after the array. */
  lemma {:induction false} SplitIsExact(data: seq<byte>, parts: seq<seq<byte>>)
    requires |data| < U64
    ensures S.Split(data) == Ok(parts) <==> exists a :: IsArrayOf(data, a, parts)
  {
    hide S.Split, IsArrayOf;
    if S.Split(data) == Ok(parts) {
      var a := SplitIsArray(data);
    }
    if a :| IsArrayOf(data, a, parts) {
      ArrayIsSplit(data, a, parts);
    }
  }
}
