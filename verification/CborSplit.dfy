/** The scanner reads an item the same wherever it is, so an encoded array splits
    into the encodings of its items: src/cbor.rs. */
module CborSplit {
  import opened Options
  import opened Bytes
  import opened Cbor
  import opened CborScan
  import opened CborRoundTrip

  // ----- an item is read the same wherever it is -----

  /** The bytes `data[pos..end]` are also in `other`, `shift` further on. */
  ghost predicate Moved(data: seq<byte>, pos: nat, end: nat, other: seq<byte>, shift: int) {
    && pos <= end <= |data| && 0 <= pos + shift && end + shift <= |other|
    && forall i {:trigger data[i]} :: pos <= i < end ==> other[i + shift] == data[i]
  }

  lemma {:induction false} TakeMoves(data: seq<byte>, pos: nat, len: nat, other: seq<byte>, shift: int)
    requires Moved(data, pos, pos + len, other, shift)
    ensures Take(other, pos + shift, len) == Ok((data[pos..pos + len], pos + shift + len))
  {
    var a, b := data[pos..pos + len], other[pos + shift..pos + shift + len];
    forall i | 0 <= i < len ensures a[i] == b[i] {
      assert other[pos + i + shift] == data[pos + i];
    }
    assert a == b;
  }

  lemma {:induction false} HeadMoves(data: seq<byte>, pos: nat, other: seq<byte>, shift: int)
    requires ReadHead(data, pos).Ok? && Moved(data, pos, ReadHead(data, pos).value.1, other, shift)
    ensures ReadHead(other, pos + shift) == Ok((ReadHead(data, pos).value.0, ReadHead(data, pos).value.1 + shift))
  {
    var info := data[pos] as nat % 32;
    assert other[pos + shift] == data[pos];
    if 24 <= info <= 27 {
      TakeMoves(data, pos + 1, ArgSize(info), other, shift);
    }
  }

  lemma {:induction false} ChunksMove(data: seq<byte>, pos: nat, major: nat, other: seq<byte>, shift: int)
    requires Chunks(data, pos, major).Ok? && Moved(data, pos, Chunks(data, pos, major).value, other, shift)
    ensures Chunks(other, pos + shift, major) == Ok(Chunks(data, pos, major).value + shift)
    decreases Measure(data, pos)
  {
    hide ReadHead, Take;
    assert other[pos + shift] == data[pos];
    if data[pos] != 0xff {
      HeadMoves(data, pos, other, shift);
      var (head, at) := ReadHead(data, pos).value;
      TakeMoves(data, at, head.arg, other, shift);
      ChunksMove(data, at + head.arg, major, other, shift);
    }
  }

  lemma {:induction false} ItemMoves(data: seq<byte>, pos: nat, other: seq<byte>, shift: int)
    requires Item(false, data, pos).Ok? && Moved(data, pos, Item(false, data, pos).value, other, shift)
    ensures Item(false, other, pos + shift) == Ok(Item(false, data, pos).value + shift)
    decreases Measure(data, pos), 0, 0
  {
    hide ReadHead, ItemBody;
    HeadMoves(data, pos, other, shift);
    var (head, at) := ReadHead(data, pos).value;
    BodyMoves(data, head, at, other, shift);
  }

  lemma {:induction false} BodyMoves(data: seq<byte>, head: Head, at: nat, other: seq<byte>, shift: int)
    requires at <= |data| && head.major < 8 && head.arg < U64
    requires var body := ItemBody(false, data, head, at); body.Ok? && Moved(data, at, body.value, other, shift)
    ensures ItemBody(false, other, head, at + shift) == Ok(ItemBody(false, data, head, at).value + shift)
    decreases Measure(data, at), 3, 0
  {
    hide Items, UntilBreak, Chunks, Take;
    var Head(major, arg, indefinite) := head;
    if major == 2 || major == 3 {
      if indefinite {
        ChunksMove(data, at, major, other, shift);
      } else {
        TakeMoves(data, at, arg, other, shift);
      }
    } else if major == 4 || major == 5 {
      if indefinite {
        RunMoves(data, at, major == 5, other, shift);
      } else {
        ItemsMove(data, at, arg * (major - 3), other, shift);
      }
    } else if major == 6 {
      ItemsMove(data, at, 1, other, shift);
    }
  }

  lemma {:induction false} ItemsMove(data: seq<byte>, pos: nat, count: nat, other: seq<byte>, shift: int)
    requires pos <= |data| && Items(false, data, pos, count).Ok?
    requires Moved(data, pos, Items(false, data, pos, count).value, other, shift)
    ensures Items(false, other, pos + shift, count) == Ok(Items(false, data, pos, count).value + shift)
    decreases Measure(data, pos), 1, count
  {
    hide Item;
    if count > 0 {
      var first := Item(false, data, pos).value;
      ItemMoves(data, pos, other, shift);
      ItemsMove(data, first, count - 1, other, shift);
    }
  }

  lemma {:induction false} RunMoves(data: seq<byte>, pos: nat, pairs: bool, other: seq<byte>, shift: int)
    requires pos <= |data| && UntilBreak(false, data, pos, pairs).Ok?
    requires Moved(data, pos, UntilBreak(false, data, pos, pairs).value, other, shift)
    ensures UntilBreak(false, other, pos + shift, pairs) == Ok(UntilBreak(false, data, pos, pairs).value + shift)
    decreases Measure(data, pos), 2, 0
  {
    hide Items;
    assert other[pos + shift] == data[pos];
    if data[pos] != 0xff {
      var n := if pairs then 2 else 1;
      var items := Items(false, data, pos, n).value;
      ItemsMove(data, pos, n, other, shift);
      RunMoves(data, items, pairs, other, shift);
    }
  }

  // ----- encodings are items -----

  /** `s` is one item, and nothing else. */
  ghost predicate OneItem(s: seq<byte>) {
    Item(false, s, 0) == Ok(|s|)
  }

  /** One item is scanned wherever it is. */
  lemma {:induction false} OneItemAt(s: seq<byte>, data: seq<byte>, pos: nat)
    requires OneItem(s) && At(data, pos, s)
    ensures Item(false, data, pos) == Ok(pos + |s|)
  {
    hide Item;
    forall i | 0 <= i < |s| ensures data[i + pos] == s[i] {
      assert data[pos..pos + |s|][i] == s[i];
    }
    ItemMoves(s, 0, data, pos);
  }

  function Joined(parts: seq<seq<byte>>): seq<byte> {
    if parts == [] then [] else parts[0] + Joined(parts[1..])
  }

  ghost predicate AllOne(parts: seq<seq<byte>>) {
    forall i :: 0 <= i < |parts| ==> OneItem(parts[i])
  }

  lemma {:induction false} PartsAt(parts: seq<seq<byte>>, data: seq<byte>, pos: nat)
    requires AllOne(parts) && At(data, pos, Joined(parts))
    ensures Items(false, data, pos, |parts|) == Ok(pos + |Joined(parts)|)
  {
    hide Item, OneItem;
    if parts != [] {
      var first := parts[0];
      AtSplits(data, pos, first, Joined(parts[1..]));
      OneItemAt(first, data, pos);
      PartsAt(parts[1..], data, pos + |first|);
    }
  }

  /** Each raw part of `v` is one item. */
  ghost predicate RawsAreItems(v: Cbor) {
    match v
    case Array(items) => forall i :: 0 <= i < |items| ==> RawsAreItems(items[i])
    case Map(entries) => forall i :: 0 <= i < |entries| ==> RawsAreItems(entries[i].key) && RawsAreItems(entries[i].value)
    case Raw(raw) => OneItem(raw)
    case _ => true
  }

  function EncodeEach(items: seq<Cbor>): (parts: seq<seq<byte>>)
    requires forall i :: 0 <= i < |items| ==> Fits(items[i])
    ensures |parts| == |items| && forall i :: 0 <= i < |items| ==> parts[i] == Encode(items[i])
    ensures Joined(parts) == EncodeItems(items)
  {
    if items == [] then []
    else
      var parts := [Encode(items[0])] + EncodeEach(items[1..]);
      assert parts[1..] == EncodeEach(items[1..]);
      parts
  }

  /** The keys and values of pairs, in turn. */
  ghost function Sides(pairs: seq<Pair>): (parts: seq<seq<byte>>)
    ensures |parts| == 2 * |pairs| && Joined(parts) == JoinPairs(pairs)
  {
    if pairs == [] then []
    else
      var rest := Sides(pairs[1..]);
      var parts := [pairs[0].0, pairs[0].1] + rest;
      assert parts[1..] == [pairs[0].1] + rest && parts[1..][1..] == rest;
      assert pairs[0].0 + (pairs[0].1 + Joined(rest)) == pairs[0].0 + pairs[0].1 + Joined(rest);
      parts
  }

  ghost predicate PairOne(p: Pair) {
    OneItem(p.0) && OneItem(p.1)
  }

  lemma {:induction false} SidesAreItems(pairs: seq<Pair>)
    requires forall p :: p in pairs ==> PairOne(p)
    ensures AllOne(Sides(pairs))
  {
    hide OneItem;
    if pairs != [] {
      assert pairs[0] in pairs && forall p :: p in pairs[1..] ==> p in pairs;
      SidesAreItems(pairs[1..]);
    }
  }

  /** What follows the head of an array or a map. */
  lemma {:induction false} ContainerIsItem(major: nat, count: nat, parts: seq<seq<byte>>)
    requires (major == 4 || major == 5) && count < U64 && |parts| == count * (major - 3) && AllOne(parts)
    ensures OneItem(WriteHead(major, count) + Joined(parts))
  {
    hide Item, Items, WriteHead, ReadHead;
    var head := WriteHead(major, count);
    var s := head + Joined(parts);
    assert s[0..|head|] == head && At(s, |head|, Joined(parts));
    HeadReadsBack(s, 0, major, count);
    PartsAt(parts, s, |head|);
    ItemOfHead(s, Head(major, count, false), |head|);
  }

  lemma {:induction false} ItemOfHead(s: seq<byte>, head: Head, at: nat)
    requires ReadHead(s, 0) == Ok((head, at))
    ensures Item(false, s, 0) == ItemBody(false, s, head, at)
  {
    hide ReadHead, ItemBody;
  }

  /** An encoded value is one item, if each raw part of it is. */
  lemma {:induction false} EncodingIsItem(v: Cbor)
    requires Fits(v) && RawsAreItems(v)
    ensures OneItem(Encode(v))
    decreases v
  {
    hide Joined, EncodeEach, Sides, WriteHead, SortPairs, EncodePairs, Item;
    match v
    case Array(items) =>
      forall i | 0 <= i < |items| ensures OneItem(Encode(items[i])) {
        EncodingIsItem(items[i]);
      }
      ContainerIsItem(4, |items|, EncodeEach(items));
    case Map(entries) =>
      forall i | 0 <= i < |entries| ensures PairOne(EncodeEntry(entries[i])) {
        EncodingIsItem(entries[i].key);
        EncodingIsItem(entries[i].value);
      }
      SortedPairsAreItems(entries);
      var pairs := SortPairs(EncodePairs(entries));
      SidesAreItems(pairs);
      ContainerIsItem(5, |entries|, Sides(pairs));
    case _ =>
      ScalarIsItem(v);
  }

  lemma {:induction false} SortedPairsAreItems(entries: seq<Entry>)
    requires AllFit(entries) && forall i :: 0 <= i < |entries| ==> PairOne(EncodeEntry(entries[i]))
    ensures forall p :: p in SortPairs(EncodePairs(entries)) ==> PairOne(p)
  {
    hide PairOne, EncodeEntry;
    var pairs := EncodePairs(entries);
    EncodedPairs(entries);
    SortSorts(pairs);
    forall p | p in SortPairs(pairs) ensures PairOne(p) {
      assert p in multiset(SortPairs(pairs));
      assert p in pairs;
    }
  }

  lemma {:induction false} EncodedPairs(entries: seq<Entry>)
    requires AllFit(entries)
    ensures forall i :: 0 <= i < |entries| ==> EncodePairs(entries)[i] == EncodeEntry(entries[i])
  {
    hide EncodeEntry;
    if entries != [] {
      EncodedPairs(entries[1..]);
    }
  }

  lemma {:induction false} ScalarIsItem(v: Cbor)
    requires Fits(v) && RawsAreItems(v) && !v.Array? && !v.Map?
    ensures OneItem(Encode(v))
  {
    hide ReadHead, WriteHead, Item;
    var s := Encode(v);
    match v
    case Uint(n) =>
      assert s[0..|s|] == s;
      HeadReadsBack(s, 0, 0, n);
      ItemOfHead(s, Head(0, n, false), |s|);
    case Bytes(b) =>
      var head := WriteHead(2, |b|);
      assert s[0..|head|] == head;
      HeadReadsBack(s, 0, 2, |b|);
      ItemOfHead(s, Head(2, |b|, false), |head|);
    case Bool(yes) =>
      SimpleHead(s, 0, if yes then 21 else 20);
      ItemOfHead(s, Head(7, if yes then 21 else 20, false), 1);
    case Null =>
      SimpleHead(s, 0, 22);
      ItemOfHead(s, Head(7, 22, false), 1);
    case Raw(_) =>
  }

  // ----- splitting an array -----

  /** The next `count` items, each as it is. */
  function SplitFrom(data: seq<byte>, pos: nat, count: nat): (r: Result<seq<seq<byte>>>)
    requires pos <= |data|
    decreases count
  {
    if count == 0 then Ok([])
    else
      var end := Item(true, data, pos);
      if end.Err? then Err(end.error) else Cons(data[pos..end.value], SplitFrom(data, end.value, count - 1))
  }

  function Cons(part: seq<byte>, rest: Result<seq<seq<byte>>>): Result<seq<seq<byte>>> {
    if rest.Err? then rest else Ok([part] + rest.value)
  }

  function Prepend(parts: seq<seq<byte>>, rest: Result<seq<seq<byte>>>): Result<seq<seq<byte>>> {
    if rest.Err? then rest else Ok(parts + rest.value)
  }

  /** What `split_array_items` returns. */
  function Split(data: seq<byte>): Result<seq<seq<byte>>> {
    var head := ReadHead(data, 0);
    if head.Err? then Err(head.error)
    else
      var (Head(major, arg, indefinite), at) := head.value;
      if major != 4 || indefinite then Err(ExpectedArray)
      else
        var count := CheckCount(data, at, arg);
        if count.Err? then Err(count.error) else SplitFrom(data, at, arg)
  }

  /** `split_array_items`. */
  method SplitArrayItems(data: seq<byte>) returns (r: Result<seq<seq<byte>>>)
    ensures r == Split(data)
  {
    hide Item, ReadHead;
    var head := ReadHead(data, 0);
    if head.Err? {
      return Err(head.error);
    }
    var (Head(major, arg, indefinite), at) := head.value;
    if major != 4 || indefinite {
      return Err(ExpectedArray);
    }
    var count := CheckCount(data, at, arg);
    if count.Err? {
      return Err(count.error);
    }
    var items: seq<seq<byte>>, pos := [], at;
    ghost var all := SplitFrom(data, at, arg);
    assert all.Ok? ==> [] + all.value == all.value;
    for i := 0 to count.value
      invariant at <= pos <= |data|
      invariant Prepend(items, SplitFrom(data, pos, arg - i)) == all
    {
      var end, error := ScanItem(data, pos);
      if error.Some? {
        return Err(error.value);
      }
      ghost var rest := SplitFrom(data, end, arg - i - 1);
      assert rest.Ok? ==> items + ([data[pos..end]] + rest.value) == (items + [data[pos..end]]) + rest.value;
      items, pos := items + [data[pos..end]], end;
    }
    assert items + [] == items;
    r := Ok(items);
  }

  /** The pieces are items, and are what follows the head, end to end. */
  lemma {:induction false} SplitPieces(data: seq<byte>, pos: nat, count: nat)
    requires pos <= |data| < U64 && SplitFrom(data, pos, count).Ok?
    ensures var parts := SplitFrom(data, pos, count).value;
            |parts| == count && AllOne(parts) && At(data, pos, Joined(parts))
    decreases count
  {
    hide Item, OneItem;
    if count > 0 {
      var end := Item(true, data, pos).value;
      SplitPieces(data, end, count - 1);
      PieceIsItem(data, pos);
      var parts := SplitFrom(data, pos, count).value;
      assert parts[1..] == SplitFrom(data, end, count - 1).value;
      assert data[pos..end + |Joined(parts[1..])|] == data[pos..end] + data[end..end + |Joined(parts[1..])|];
    }
  }

  lemma {:induction false} PieceIsItem(data: seq<byte>, pos: nat)
    requires |data| < U64 && Item(true, data, pos).Ok?
    ensures OneItem(data[pos..Item(true, data, pos).value])
  {
    hide Item;
    ChecksRefuseNoItem(data, pos);
    ItemMoves(data, pos, data[pos..Item(true, data, pos).value], 0 - pos as int);
  }

  /** Items end to end split back into themselves. */
  lemma {:induction false} SplitOfJoined(data: seq<byte>, pos: nat, parts: seq<seq<byte>>)
    requires |data| < U64 && AllOne(parts) && At(data, pos, Joined(parts))
    ensures SplitFrom(data, pos, |parts|) == Ok(parts)
    decreases parts
  {
    hide Item, OneItem;
    if parts != [] {
      var first := parts[0];
      AtSplits(data, pos, first, Joined(parts[1..]));
      OneItemAt(first, data, pos);
      ChecksRefuseNoItem(data, pos);
      SplitOfJoined(data, pos + |first|, parts[1..]);
      assert parts == [first] + parts[1..];
    }
  }

  /** An encoded array splits into the encodings of its items, raw items included
      when each is one item. */
  lemma {:induction false} ArraySplits(items: seq<Cbor>, rest: seq<byte>)
    requires Fits(Array(items)) && RawsAreItems(Array(items)) && |Encode(Array(items)) + rest| < U64
    ensures Split(Encode(Array(items)) + rest) == Ok(EncodeEach(items))
  {
    hide Item, OneItem, Encode, ReadHead, WriteHead, SplitFrom;
    var data, head, parts := Encode(Array(items)) + rest, WriteHead(4, |items|), EncodeEach(items);
    forall i | 0 <= i < |items| ensures OneItem(parts[i]) {
      EncodingIsItem(items[i]);
    }
    EncodedArray(items);
    assert data[0..|head|] == head && At(data, |head|, Joined(parts));
    HeadReadsBack(data, 0, 4, |items|);
    SplitOfJoined(data, |head|, parts);
    EachTakesAByte(parts);
  }

  lemma {:induction false} EncodedArray(items: seq<Cbor>)
    requires Fits(Array(items))
    ensures Encode(Array(items)) == WriteHead(4, |items|) + Joined(EncodeEach(items))
  {
  }

  lemma {:induction false} EachTakesAByte(parts: seq<seq<byte>>)
    requires AllOne(parts)
    ensures |Joined(parts)| >= |parts|
  {
    if parts != [] {
      EachTakesAByte(parts[1..]);
    }
  }
}
