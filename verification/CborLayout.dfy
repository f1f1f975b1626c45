/** The bytes that src/cbor.rs writes, by position: heads, strings, arrays and maps, as
    RFC 8949 lays them out. */
module CborLayout {
  import opened Bytes
  import opened Layout
  import opened Cbor
  import R = CborRoundTrip

  // ----- heads (section 3 of RFC 8949) -----

  ghost function HeadLen(value: nat): nat {
    if value < 24 then 1 else if value <= 0xff then 2 else if value <= 0xffff then 3 else if value <= 0xffff_ffff then 5 else 9
  }

  /** The big-endian 32-bit number at `at`. */
  ghost function BigWord4(s: seq<byte>, at: nat): nat
    requires at + 4 <= |s|
  {
    0x100_0000 * s[at] as nat + 0x1_0000 * s[at + 1] as nat + 0x100 * s[at + 2] as nat + s[at + 3] as nat
  }

  /** The head of a major type and its argument stands at `at`: the type in the top three bits,
      the argument in the other five or in the bytes that follow, most significant first. */
  ghost predicate HeadAt(s: seq<byte>, at: nat, major: nat, value: nat) {
    && at + HeadLen(value) <= |s|
    && if value < 24 then s[at] as nat == 32 * major + value
       else if value <= 0xff then s[at] as nat == 32 * major + 24 && s[at + 1] as nat == value
       else if value <= 0xffff then s[at] as nat == 32 * major + 25 && 0x100 * s[at + 1] as nat + s[at + 2] as nat == value
       else if value <= 0xffff_ffff then s[at] as nat == 32 * major + 26 && BigWord4(s, at + 1) == value
       else s[at] as nat == 32 * major + 27 && U32 * BigWord4(s, at + 1) + BigWord4(s, at + 5) == value
  }

  lemma {:induction false} BeUnfold(s: seq<byte>)
    requires s != []
    ensures BeValue(s) == 256 * BeValue(s[..|s| - 1]) + s[|s| - 1] as nat
  {
  }

  lemma {:induction false} BeEnds()
    ensures BeValue([]) == 0
  {
  }

  lemma {:induction false} LastWord(s: seq<byte>, at: nat)
    requires |s| == at + 4
    ensures BeValue(s) == U32 * BeValue(s[..at]) + BigWord4(s, at)
  {
    hide BeValue;
    BeUnfold(s);
    BeUnfold(s[..at + 3]);
    BeUnfold(s[..at + 2]);
    BeUnfold(s[..at + 1]);
    assert s[..at + 3][..at + 2] == s[..at + 2] && s[..at + 2][..at + 1] == s[..at + 1] && s[..at + 1][..at] == s[..at];
  }

  lemma {:induction false} BeIsShort(v: nat)
    ensures v <= 0xff ==> Be(v, 1)[0] as nat == v
    ensures v <= 0xffff ==> 0x100 * Be(v, 2)[0] as nat + Be(v, 2)[1] as nat == v
  {
    BeDigit(v, 1, 0);
    BeDigit(v, 2, 0);
    BeDigit(v, 2, 1);
    assert Span(0) == 1 && Span(1) == 0x100;
  }

  lemma {:induction false} BeIsWord4(v: nat)
    requires v < U32
    ensures BigWord4(Be(v, 4), 0) == v
  {
    hide Be, BeValue;
    Spans();
    BeReadsBack(v, 4);
    LastWord(Be(v, 4), 0);
    assert Be(v, 4)[..0] == [];
    BeEnds();
  }

  lemma {:induction false} BeIsWord8(v: nat)
    requires v < U64
    ensures U32 * BigWord4(Be(v, 8), 0) + BigWord4(Be(v, 8), 4) == v
  {
    hide Be, BeValue;
    var s := Be(v, 8);
    Spans();
    BeReadsBack(v, 8);
    LastWord(s, 4);
    LastWord(s[..4], 0);
    assert s[..4][..0] == [];
    BeEnds();
  }

  lemma {:induction false} HeadByPosition(major: nat, value: nat)
    requires major < 8 && value < U64
    ensures |WriteHead(major, value)| == HeadLen(value) && HeadAt(WriteHead(major, value), 0, major, value)
  {
    hide Be;
    var s := WriteHead(major, value);
    if 24 <= value <= 0xffff {
      BeIsShort(value);
    } else if 0xffff < value <= 0xffff_ffff {
      BeIsWord4(value);
      assert BigWord4(s, 1) == BigWord4(Be(value, 4), 0);
    } else if value > 0xffff_ffff {
      BeIsWord8(value);
      assert BigWord4(s, 1) == BigWord4(Be(value, 8), 0) && BigWord4(s, 5) == BigWord4(Be(value, 8), 4);
    }
  }

  lemma {:induction false} HeadFirst(major: nat, value: nat, rest: seq<byte>)
    requires major < 8 && value < U64
    ensures HeadAt(WriteHead(major, value) + rest, 0, major, value)
    ensures |WriteHead(major, value)| == HeadLen(value)
  {
    hide BigWord4, WriteHead;
    HeadByPosition(major, value);
    var head := WriteHead(major, value);
    var s := head + rest;
    assert forall j :: 0 <= j < |head| ==> s[j] == head[j];
    if value > 0xffff {
      SameWord(head, rest, 1);
      if value > 0xffff_ffff {
        SameWord(head, rest, 5);
      }
    }
  }

  lemma {:induction false} SameWord(head: seq<byte>, rest: seq<byte>, at: nat)
    requires at + 4 <= |head|
    ensures BigWord4(head + rest, at) == BigWord4(head, at)
  {
  }

  // ----- values -----

  /** Numbers, byte strings and simple values: major types 0, 2 and 7. */
  lemma {:induction false} ScalarsByPosition(v: Cbor)
    requires Fits(v)
    ensures v.Uint? ==> |Encode(v)| == HeadLen(v.v) && HeadAt(Encode(v), 0, 0, v.v)
    ensures v.Bytes? ==>
              |Encode(v)| == HeadLen(|v.b|) + |v.b| && HeadAt(Encode(v), 0, 2, |v.b|) && Holds(Encode(v), HeadLen(|v.b|), v.b)
    ensures v.Bool? ==> Encode(v) == [if v.yes then 0xf5 else 0xf4]
    ensures v.Null? ==> Encode(v) == [0xf6]
    ensures v.Raw? ==> Encode(v) == v.raw
  {
    hide HeadAt, WriteHead;
    match v
    case Uint(n) => HeadByPosition(0, n);
    case Bytes(b) =>
      HeadFirst(2, |b|, b);
      Cut(Encode(v), 0, WriteHead(2, |b|), b);
      Cut(Encode(v), HeadLen(|b|), b, []);
    case _ =>
  }

  ghost predicate ItemsFit(items: seq<Cbor>) {
    |items| < U64 && forall i :: 0 <= i < |items| ==> Fits(items[i])
  }

  /** Where item `i` of an array's content starts. */
  ghost function StartOf(items: seq<Cbor>, i: nat): nat
    requires i <= |items| && forall k :: 0 <= k < |items| ==> Fits(items[k])
  {
    if i == 0 then 0 else StartOf(items, i - 1) + |Encode(items[i - 1])|
  }

  lemma {:induction false} StartOfRest(items: seq<Cbor>, i: nat)
    requires 0 < i <= |items| && forall k :: 0 <= k < |items| ==> Fits(items[k])
    ensures StartOf(items, i) == |Encode(items[0])| + StartOf(items[1..], i - 1)
  {
    hide Encode, Fits;
    if i > 1 {
      StartOfRest(items, i - 1);
    }
  }

  lemma {:induction false} ItemAt(items: seq<Cbor>, i: nat)
    requires i < |items| && forall k :: 0 <= k < |items| ==> Fits(items[k])
    ensures Holds(EncodeItems(items), StartOf(items, i), Encode(items[i]))
  {
    hide Encode, Fits, Holds;
    var first, rest := Encode(items[0]), EncodeItems(items[1..]);
    Cut(EncodeItems(items), 0, first, rest);
    Cut(EncodeItems(items), |first|, rest, []);
    if i > 0 {
      ItemAt(items[1..], i - 1);
      StartOfRest(items, i);
      HoldsWithin(EncodeItems(items), |first|, rest, StartOf(items[1..], i - 1), Encode(items[i]));
    }
  }

  lemma {:induction false} ItemsLength(items: seq<Cbor>)
    requires forall k :: 0 <= k < |items| ==> Fits(items[k])
    ensures |EncodeItems(items)| == StartOf(items, |items|)
  {
    hide Encode, Fits, EncodeItems, StartOf;
    if items == [] {
      NoItems();
    } else {
      ItemsLength(items[1..]);
      StartOfRest(items, |items|);
      ItemsEncodeInTurn(items, 0);
      assert items[0..] == items;
    }
  }

  lemma {:induction false} NoItems()
    ensures EncodeItems([]) == [] && StartOf([], 0) == 0
  {
  }

  /** An array: major type 4 and the number of items, and then the items one after the other. */
  lemma {:induction false} ArrayByPosition(items: seq<Cbor>, i: nat)
    requires ItemsFit(items)
    ensures var s, at := Encode(Array(items)), HeadLen(|items|);
            && HeadAt(s, 0, 4, |items|) && |s| == at + StartOf(items, |items|)
            && (i < |items| ==> Holds(s, at + StartOf(items, i), Encode(items[i])))
  {
    hide HeadAt, WriteHead, Holds, EncodeItems, StartOf;
    var s, content := Encode(Array(items)), EncodeItems(items);
    HeadFirst(4, |items|, content);
    ItemsLength(items);
    Cut(s, 0, WriteHead(4, |items|), content);
    Cut(s, HeadLen(|items|), content, []);
    if i < |items| {
      ItemAt(items, i);
      HoldsWithin(s, HeadLen(|items|), content, StartOf(items, i), Encode(items[i]));
    }
  }

  // ----- maps -----

  /** The canonical order of keys: the shorter first, and of two as long the one with the smaller
      byte where they first differ. */
  lemma {:induction false} OrderOfKeys(a: seq<byte>, b: seq<byte>, i: nat)
    ensures |a| < |b| ==> KeyLeq(a, b) && !KeyLeq(b, a)
    ensures |a| == |b| && Before(a, b, i) ==> KeyLeq(a, b) && !KeyLeq(b, a)
  {
    if Before(a, b, i) {
      BeforeIsLeq(a, b, i);
    }
  }

  /** Keys and values of a map, in the order given. */
  ghost function InOrder(es: seq<Entry>): seq<byte>
    requires forall k :: 0 <= k < |es| ==> Fits(es[k].key) && Fits(es[k].value)
  {
    if es == [] then [] else Encode(es[0].key) + (Encode(es[0].value) + InOrder(es[1..]))
  }

  lemma {:induction false} PairsInOrder(es: seq<Entry>)
    requires forall k :: 0 <= k < |es| ==> Fits(es[k].key) && Fits(es[k].value)
    ensures JoinPairs(EncodePairs(es)) == InOrder(es)
    ensures |EncodePairs(es)| == |es| && forall k :: 0 <= k < |es| ==> EncodePairs(es)[k].0 == Encode(es[k].key)
  {
    hide Encode, Fits;
    if es != [] {
      PairsInOrder(es[1..]);
      var pairs := EncodePairs(es);
      assert pairs == [EncodeEntry(es[0])] + EncodePairs(es[1..]);
      assert pairs[1..] == EncodePairs(es[1..]);
      assert forall k :: 1 <= k < |es| ==> pairs[k] == pairs[1..][k - 1] && es[k] == es[1..][k - 1];
      Regroup(Encode(es[0].key), Encode(es[0].value), InOrder(es[1..]));
    }
  }

  /** A map: major type 5 and the number of entries, and then each key with its value, once the
      keys are in canonical order. */
  lemma {:induction false} MapByPosition(es: seq<Entry>)
    requires Fits(Map(es)) && forall k :: 0 <= k < |es| ==> Fits(es[k].key) && Fits(es[k].value)
    requires forall i, j :: 0 <= i < j < |es| ==> KeyLeq(Encode(es[i].key), Encode(es[j].key))
    ensures var s := Encode(Map(es));
            HeadAt(s, 0, 5, |es|) && HeadLen(|es|) <= |s| && s[HeadLen(|es|)..] == InOrder(es)
  {
    hide Encode, Fits, HeadAt, WriteHead, KeyLeq, JoinPairs, EncodePairs, InOrder;
    var pairs := EncodePairs(es);
    MapEncodes(es);
    PairsInOrder(es);
    assert R.SortedPairs(pairs);
    R.SortedStays(pairs);
    HeadFirst(5, |es|, InOrder(es));
    Cut(Encode(Map(es)), 0, WriteHead(5, |es|), InOrder(es));
  }

  // ----- what the first byte decides -----

  /** What the decoder makes of a value's first byte alone: nothing, a reserved length, an
      indefinite length, a type or simple value it does not take, or a simple value. */
  lemma {:induction false} FirstByteDecides(data: seq<byte>, pos: nat, depth: nat)
    ensures pos >= |data| ==> Decode(data, pos, depth) == Err(UnexpectedEof)
    ensures pos < |data| ==>
              var b, r := data[pos] as nat, Decode(data, pos, depth);
              && (28 <= b % 32 <= 30 ==> r == Err(ReservedAdditionalInfo(b % 32)))
              && (b in [0x1f, 0x5f, 0x9f, 0xbf] ==> r == Err(UnsupportedIndefiniteLength))
              && (b / 32 in [1, 3, 6] && b % 32 < 24 ==> r == Err(UnsupportedMajorType(b / 32)))
              && (b == 0xf4 ==> r == Ok((Bool(false), pos + 1))) && (b == 0xf5 ==> r == Ok((Bool(true), pos + 1)))
              && (b == 0xf6 || b == 0xf7 ==> r == Ok((Null, pos + 1)))
              && (0xe0 <= b < 0xf4 ==> r == Err(UnsupportedSimpleValue(b - 0xe0)))
              && (depth >= 64 && (0x80 <= b <= 0x97 || 0xa0 <= b <= 0xb7) ==> r == Err(NestingTooDeep))
  {
    hide DecodeItems, DecodeEntries, BeValue;
  }
}
