/** What src/cbor.rs encodes, it decodes: up to the canonical order of maps, and
    up to a depth of 64. */
module CborRoundTrip {
  import opened Bytes
  import opened Cbor

  // ----- sorting -----

  ghost predicate SortedPairs(s: seq<Pair>) {
    forall i, j :: 0 <= i < j < |s| ==> KeyLeq(s[i].0, s[j].0)
  }

  lemma {:induction false} InsertKeepsOrder(x: Pair, s: seq<Pair>)
    requires SortedPairs(s)
    ensures SortedPairs(InsertPair(x, s))
    ensures multiset(InsertPair(x, s)) == multiset(s) + multiset{x}
  {
    if s != [] {
      var t := s[1..];
      assert s == [s[0]] + t;
      if KeyLeq(x.0, s[0].0) {
        forall j | 0 <= j < |s| ensures KeyLeq(x.0, s[j].0) {
          if j > 0 {
            KeyTransitive(x.0, s[0].0, s[j].0);
          }
        }
      } else {
        KeyOrder(x.0, s[0].0);
        InsertKeepsOrder(x, t);
        var r := InsertPair(x, t);
        forall j | 0 <= j < |r| ensures KeyLeq(s[0].0, r[j].0) {
          assert r[j] in multiset(r);
          if r[j] != x {
            assert r[j] in t;
            var i :| 0 <= i < |t| && t[i] == r[j];
            assert s[i + 1] == r[j];
          }
        }
      }
    }
  }

  /** The pairs come out in canonical order, and none is lost or made up. */
  lemma {:induction false} SortSorts(s: seq<Pair>)
    ensures SortedPairs(SortPairs(s))
    ensures multiset(SortPairs(s)) == multiset(s)
  {
    if s != [] {
      SortSorts(s[1..]);
      InsertKeepsOrder(s[0], SortPairs(s[1..]));
      assert s == [s[0]] + s[1..];
    }
  }

  ghost predicate DistinctKeys(s: seq<Pair>) {
    forall i, j :: 0 <= i < j < |s| ==> s[i].0 != s[j].0
  }

  lemma {:induction false} LeastIsFirst(s: seq<Pair>, i: nat)
    requires SortedPairs(s) && i < |s|
    ensures KeyLeq(s[0].0, s[i].0)
  {
    KeyOrder(s[0].0, s[0].0);
  }

  lemma {:induction false} SameFirst(a: seq<Pair>, b: seq<Pair>, i: nat, j: nat)
    requires SortedPairs(a) && SortedPairs(b) && DistinctKeys(a)
    requires i < |b| && j < |a| && b[i] == a[0] && a[j] == b[0]
    ensures a[0] == b[0]
  {
    KeyOrder(a[0].0, b[0].0);
    LeastIsFirst(b, i);
    LeastIsFirst(a, j);
  }

  lemma {:induction false} RestIsSame(a: seq<Pair>, b: seq<Pair>)
    requires a != [] && b != [] && a[0] == b[0] && multiset(a) == multiset(b)
    ensures multiset(a[1..]) == multiset(b[1..])
  {
    assert a == [a[0]] + a[1..] && b == [b[0]] + b[1..];
    assert multiset(a[1..]) == multiset(a) - multiset{a[0]};
    assert multiset(b[1..]) == multiset(b) - multiset{b[0]};
  }

  /** With distinct keys there is only one canonical order. */
  lemma {:induction false} SortedIsUnique(a: seq<Pair>, b: seq<Pair>)
    requires SortedPairs(a) && SortedPairs(b) && multiset(a) == multiset(b) && DistinctKeys(a)
    ensures a == b
  {
    assert |a| == |multiset(a)| == |multiset(b)| == |b|;
    if a != [] {
      assert a[0] in multiset(b) && b[0] in multiset(a);
      var i :| 0 <= i < |b| && b[i] == a[0];
      var j :| 0 <= j < |a| && a[j] == b[0];
      SameFirst(a, b, i, j);
      RestIsSame(a, b);
      SortedIsUnique(a[1..], b[1..]);
      assert a == [a[0]] + a[1..] && b == [b[0]] + b[1..];
    }
  }

  ghost predicate AllFit(es: seq<Entry>) {
    forall i :: 0 <= i < |es| ==> Fits(es[i].key) && Fits(es[i].value)
  }

  /** Insertion order does not affect the output: maps with the same entries, whose
      keys encode differently, encode the same. */
  lemma {:induction false} MapOrderIsIrrelevant(es: seq<Entry>, fs: seq<Entry>)
    requires Fits(Map(es)) && Fits(Map(fs))
    requires multiset(EncodePairs(es)) == multiset(EncodePairs(fs)) && DistinctKeys(EncodePairs(es))
    ensures Encode(Map(es)) == Encode(Map(fs))
  {
    var a, b := EncodePairs(es), EncodePairs(fs);
    SortSorts(a);
    SortSorts(b);
    DistinctSurvives(a, SortPairs(a));
    SortedIsUnique(SortPairs(a), SortPairs(b));
    assert |multiset(a)| == |multiset(b)|;
  }

  lemma {:induction false} DistinctSurvives(a: seq<Pair>, b: seq<Pair>)
    requires DistinctKeys(a) && multiset(a) == multiset(b)
    ensures DistinctKeys(b)
  {
    forall i, j | 0 <= i < j < |b| ensures b[i].0 != b[j].0 {
      if b[i].0 == b[j].0 {
        assert b[i] in multiset(a) && b[j] in multiset(a);
        var k :| 0 <= k < |a| && a[k] == b[i];
        var l :| 0 <= l < |a| && a[l] == b[j];
        assert k == l;
        Twice(b, i, j);
        Once(a, k);
      }
    }
  }

  lemma {:induction false} Twice(b: seq<Pair>, i: nat, j: nat)
    requires i < j < |b| && b[i] == b[j]
    ensures multiset(b)[b[i]] >= 2
  {
    assert b == b[..j] + [b[j]] + b[j + 1..];
    assert b[..j][i] in multiset(b[..j]);
  }

  lemma {:induction false} Once(a: seq<Pair>, k: nat)
    requires DistinctKeys(a) && k < |a|
    ensures multiset(a)[a[k]] == 1
  {
    assert a == a[..k] + [a[k]] + a[k + 1..];
    assert a[k] !in a[..k] && a[k] !in a[k + 1..];
  }

  // ----- the same sort on entries -----

  function InsertEntry(x: Entry, s: seq<Entry>): (r: seq<Entry>)
    requires Fits(x.key) && Fits(x.value) && AllFit(s)
    ensures AllFit(r) && |r| == |s| + 1
    ensures forall e :: e in r <==> e == x || e in s
  {
    if s == [] || KeyLeq(Encode(x.key), Encode(s[0].key)) then [x] + s else [s[0]] + InsertEntry(x, s[1..])
  }

  /** The entries in the order in which they are encoded. */
  function SortEntries(s: seq<Entry>): (r: seq<Entry>)
    requires AllFit(s)
    ensures AllFit(r) && |r| == |s|
    ensures forall e :: e in r <==> e in s
  {
    if s == [] then [] else InsertEntry(s[0], SortEntries(s[1..]))
  }

  lemma {:induction false} InsertEncodes(x: Entry, s: seq<Entry>)
    requires Fits(x.key) && Fits(x.value) && AllFit(s)
    ensures EncodePairs(InsertEntry(x, s)) == InsertPair(EncodeEntry(x), EncodePairs(s))
  {
    if s == [] || KeyLeq(Encode(x.key), Encode(s[0].key)) {
      assert ([x] + s)[1..] == s;
    } else {
      InsertEncodes(x, s[1..]);
      assert ([s[0]] + InsertEntry(x, s[1..]))[1..] == InsertEntry(x, s[1..]);
    }
  }

  /** Sorting entries, then encoding them, is encoding them, then sorting. */
  lemma {:induction false} SortEncodes(s: seq<Entry>)
    requires AllFit(s)
    ensures EncodePairs(SortEntries(s)) == SortPairs(EncodePairs(s))
  {
    if s != [] {
      SortEncodes(s[1..]);
      InsertEncodes(s[0], SortEntries(s[1..]));
    }
  }

  // ----- canonical values -----

  /** `v` with each map, at any depth, in the order of its encoding. */
  function Canon(v: Cbor): (r: Cbor)
    requires Fits(v)
    ensures Fits(r)
    decreases v, 0
  {
    match v
    case Array(items) => Array(CanonItems(items))
    case Map(entries) => Map(SortEntries(CanonEntries(entries)))
    case _ => v
  }

  function CanonItems(items: seq<Cbor>): (r: seq<Cbor>)
    requires forall i :: 0 <= i < |items| ==> Fits(items[i])
    ensures |r| == |items| && forall i :: 0 <= i < |r| ==> Fits(r[i])
    decreases items, 1
  {
    if items == [] then [] else [Canon(items[0])] + CanonItems(items[1..])
  }

  function CanonEntries(es: seq<Entry>): (r: seq<Entry>)
    requires AllFit(es)
    ensures |r| == |es| && AllFit(r)
    decreases es, 1
  {
    if es == [] then [] else [CanonEntry(es[0])] + CanonEntries(es[1..])
  }

  function CanonEntry(e: Entry): (r: Entry)
    requires Fits(e.key) && Fits(e.value)
    ensures Fits(r.key) && Fits(r.value)
    decreases e, 1
  {
    Entry(Canon(e.key), Canon(e.value))
  }

  lemma {:induction false} InsertCanon(x: Entry, s: seq<Entry>)
    requires Fits(x.key) && Fits(x.value) && AllFit(s)
    requires Encode(CanonEntry(x).key) == Encode(x.key)
    requires forall e :: e in s ==> Encode(CanonEntry(e).key) == Encode(e.key)
    ensures CanonEntries(InsertEntry(x, s)) == InsertEntry(CanonEntry(x), CanonEntries(s))
  {
    if s == [] {
    } else if KeyLeq(Encode(x.key), Encode(s[0].key)) {
      assert ([x] + s)[1..] == s;
      assert s[0] in s;
    } else {
      assert s[0] in s && forall e :: e in s[1..] ==> e in s;
      InsertCanon(x, s[1..]);
      assert ([s[0]] + InsertEntry(x, s[1..]))[1..] == InsertEntry(x, s[1..]);
      assert CanonEntries(s)[1..] == CanonEntries(s[1..]);
    }
  }

  /** Canonical entries sort as the entries do. */
  lemma {:induction false} SortCanon(s: seq<Entry>)
    requires AllFit(s) && forall e :: e in s ==> Encode(CanonEntry(e).key) == Encode(e.key)
    ensures CanonEntries(SortEntries(s)) == SortEntries(CanonEntries(s))
  {
    if s != [] {
      assert s[0] in s && forall e :: e in s[1..] ==> e in s;
      SortCanon(s[1..]);
      InsertCanon(s[0], SortEntries(s[1..]));
      assert CanonEntries(s)[1..] == CanonEntries(s[1..]);
    }
  }

  /** A canonical value encodes as the value does. */
  lemma {:induction false} CanonEncodes(v: Cbor)
    requires Fits(v)
    ensures Encode(Canon(v)) == Encode(v)
    decreases v, 0
  {
    match v
    case Array(items) => CanonItemsEncode(items);
    case Map(entries) =>
      CanonEntriesEncode(entries);
      SortEncodes(CanonEntries(entries));
      SortsTwice(EncodePairs(entries));
    case _ =>
  }

  lemma {:induction false} CanonItemsEncode(items: seq<Cbor>)
    requires forall i :: 0 <= i < |items| ==> Fits(items[i])
    ensures EncodeItems(CanonItems(items)) == EncodeItems(items)
    decreases items, 1
  {
    if items != [] {
      CanonEncodes(items[0]);
      CanonItemsEncode(items[1..]);
      assert CanonItems(items)[1..] == CanonItems(items[1..]);
    }
  }

  lemma {:induction false} CanonEntriesEncode(es: seq<Entry>)
    requires AllFit(es)
    ensures EncodePairs(CanonEntries(es)) == EncodePairs(es)
    decreases es, 1
  {
    if es != [] {
      CanonEntryEncodes(es[0]);
      CanonEntriesEncode(es[1..]);
      assert CanonEntries(es)[1..] == CanonEntries(es[1..]);
    }
  }

  lemma {:induction false} CanonEntryEncodes(e: Entry)
    requires Fits(e.key) && Fits(e.value)
    ensures EncodeEntry(CanonEntry(e)) == EncodeEntry(e)
    decreases e, 1
  {
    CanonEncodes(e.key);
    CanonEncodes(e.value);
  }

  /** Sorting what is sorted changes nothing. */
  lemma {:induction false} SortsTwice(s: seq<Pair>)
    ensures SortPairs(SortPairs(s)) == SortPairs(s)
  {
    SortSorts(s);
    SortedStays(SortPairs(s));
  }

  lemma {:induction false} SortedStays(s: seq<Pair>)
    requires SortedPairs(s)
    ensures SortPairs(s) == s
  {
    if s != [] {
      SortedStays(s[1..]);
      assert s == [s[0]] + s[1..];
    }
  }

  // ----- reading back -----

  ghost predicate RawFree(v: Cbor) {
    match v
    case Array(items) => forall i :: 0 <= i < |items| ==> RawFree(items[i])
    case Map(entries) => forall i :: 0 <= i < |entries| ==> RawFree(entries[i].key) && RawFree(entries[i].value)
    case Raw(_) => false
    case _ => true
  }

  /** How deep arrays and maps are nested in `v`. */
  ghost function Depth(v: Cbor): nat
    decreases v, 0
  {
    match v
    case Array(items) => 1 + ItemsDepth(items)
    case Map(entries) => 1 + EntriesDepth(entries)
    case _ => 0
  }

  ghost function Max(a: nat, b: nat): nat {
    if a > b then a else b
  }

  ghost function ItemsDepth(items: seq<Cbor>): nat
    decreases items, 1
  {
    if items == [] then 0 else Max(Depth(items[0]), ItemsDepth(items[1..]))
  }

  ghost function EntriesDepth(es: seq<Entry>): nat
    decreases es, 1
  {
    if es == [] then 0 else Max(EntryDepth(es[0]), EntriesDepth(es[1..]))
  }

  ghost function EntryDepth(e: Entry): nat
    decreases e, 1
  {
    Max(Depth(e.key), Depth(e.value))
  }

  /** `s` is in `data` at `pos`. */
  ghost predicate At(data: seq<byte>, pos: nat, s: seq<byte>) {
    pos + |s| <= |data| && data[pos..pos + |s|] == s
  }

  lemma {:induction false} AtSplits(data: seq<byte>, pos: nat, a: seq<byte>, b: seq<byte>)
    requires At(data, pos, a + b)
    ensures At(data, pos, a) && At(data, pos + |a|, b)
  {
    var s := data[pos..pos + |a + b|];
    assert data[pos..pos + |a|] == s[..|a|] == a;
    assert data[pos + |a|..pos + |a| + |b|] == s[|a|..] == b;
  }

  ghost predicate GoodEntries(es: seq<Entry>) {
    AllFit(es) && forall e :: e in es ==> RawFree(e.key) && RawFree(e.value)
  }

  /** Every value takes a byte at least. */
  lemma {:induction false} EncodeNonempty(v: Cbor)
    requires Fits(v) && RawFree(v)
    ensures Encode(v) != []
  {
  }

  lemma {:induction false} ItemsTakeBytes(items: seq<Cbor>)
    requires forall i :: 0 <= i < |items| ==> Fits(items[i]) && RawFree(items[i])
    ensures |EncodeItems(items)| >= |items|
  {
    if items != [] {
      EncodeNonempty(items[0]);
      ItemsTakeBytes(items[1..]);
    }
  }

  lemma {:induction false} EntriesTakeBytes(es: seq<Entry>)
    requires GoodEntries(es)
    ensures |JoinPairs(EncodePairs(es))| >= 2 * |es|
  {
    if es != [] {
      assert es[0] in es && forall e :: e in es[1..] ==> e in es;
      EncodeNonempty(es[0].key);
      EncodeNonempty(es[0].value);
      EntriesTakeBytes(es[1..]);
    }
  }

  lemma {:induction false} DepthOfMembers(a: seq<Entry>, b: seq<Entry>)
    requires forall e :: e in a ==> e in b
    ensures EntriesDepth(a) <= EntriesDepth(b)
  {
    if a != [] {
      assert a[0] in a && forall e :: e in a[1..] ==> e in a;
      DepthOfMembers(a[1..], b);
      DepthOfMember(a[0], b);
    }
  }

  lemma {:induction false} DepthOfMember(e: Entry, b: seq<Entry>)
    requires e in b
    ensures EntryDepth(e) <= EntriesDepth(b)
  {
    if b[0] != e {
      assert e in b[1..];
      DepthOfMember(e, b[1..]);
    }
  }

  /** What is to be decoded where `v` is encoded. */
  ghost function Expected(v: Cbor, pos: nat, depth: nat): Result<(Cbor, nat)>
    requires Fits(v)
  {
    if depth + Depth(v) <= MAX_DEPTH then Ok((Canon(v), pos + |Encode(v)|)) else Err(NestingTooDeep)
  }

  ghost predicate ReadsBack(v: Cbor, data: seq<byte>, pos: nat, depth: nat)
    requires Fits(v)
  {
    Decode(data, pos, depth) == Expected(v, pos, depth)
  }

  lemma {:induction false} DecodeArrayAt(data: seq<byte>, pos: nat, depth: nat, count: nat, at: nat)
    requires ReadHead(data, pos) == Ok((Head(4, count, false), at)) && count <= |data| - at
    ensures Decode(data, pos, depth) ==
            if depth >= MAX_DEPTH then Err(NestingTooDeep)
            else var r := DecodeItems(data, at, count, depth + 1);
                 if r.Err? then Err(r.error) else Ok((Array(r.value.0), r.value.1))
  {
  }

  lemma {:induction false} DecodeMapAt(data: seq<byte>, pos: nat, depth: nat, count: nat, at: nat)
    requires ReadHead(data, pos) == Ok((Head(5, count, false), at)) && 2 * count < U64 && 2 * count <= |data| - at
    ensures Decode(data, pos, depth) ==
            if depth >= MAX_DEPTH then Err(NestingTooDeep)
            else var r := DecodeEntries(data, at, count, depth + 1);
                 if r.Err? then Err(r.error) else Ok((Map(r.value.0), r.value.1))
  {
    assert 2 * count / 2 == count;
  }

  /** What `decode` makes of an encoded value, wherever it is: the value with its
      maps in canonical order and the position right past it, or a refusal if the
      value is nested too deep. */
  lemma {:induction false} DecodeReadsBack(v: Cbor, data: seq<byte>, pos: nat, depth: nat)
    requires Fits(v) && RawFree(v) && At(data, pos, Encode(v)) && depth <= MAX_DEPTH
    ensures ReadsBack(v, data, pos, depth)
    decreases v, 4
  {
    match v
    case Array(items) =>
      ArrayReadsBack(v, data, pos, depth);
    case Map(entries) =>
      MapReadsBack(v, data, pos, depth);
    case _ =>
      ScalarReadsBack(v, data, pos, depth);
  }

  lemma {:induction false} ScalarReadsBack(v: Cbor, data: seq<byte>, pos: nat, depth: nat)
    requires Fits(v) && RawFree(v) && !v.Array? && !v.Map? && At(data, pos, Encode(v)) && depth <= MAX_DEPTH
    ensures ReadsBack(v, data, pos, depth)
  {
    hide DecodeItems, DecodeEntries, EncodeItems, EncodePairs, JoinPairs, SortPairs, CanonItems, CanonEntries, SortEntries, ItemsDepth, EntriesDepth, ReadHead, WriteHead;
    match v
    case Uint(n) => HeadReadsBack(data, pos, 0, n);
    case Bytes(b) =>
      AtSplits(data, pos, WriteHead(2, |b|), b);
      HeadReadsBack(data, pos, 2, |b|);
    case Bool(yes) =>
      SimpleHead(data, pos, if yes then 21 else 20);
    case Null =>
      SimpleHead(data, pos, 22);
  }

  lemma {:induction false} SimpleHead(data: seq<byte>, pos: nat, info: nat)
    requires info < 24 && At(data, pos, [(224 + info) as byte])
    ensures ReadHead(data, pos) == Ok((Head(7, info, false), pos + 1))
  {
    assert data[pos] == data[pos..pos + 1][0];
  }

  lemma {:induction false} ArrayReadsBack(v: Cbor, data: seq<byte>, pos: nat, depth: nat)
    requires v.Array? && Fits(v) && RawFree(v) && At(data, pos, Encode(v)) && depth <= MAX_DEPTH
    ensures ReadsBack(v, data, pos, depth)
    decreases v, 3
  {
    hide CanonItems, EntriesDepth, At, WriteHead, ReadHead, KeyLeq, SortPairs, JoinPairs, EncodeItems, EncodePairs, Decode, DecodeItems;
    var items := v.items;
    var head, at := WriteHead(4, |items|), pos + |WriteHead(4, |items|)|;
    AtSplits(data, pos, head, EncodeItems(items));
    HeadReadsBack(data, pos, 4, |items|);
    ItemsTakeBytes(items);
    DecodeArrayAt(data, pos, depth, |items|, at);
    if depth < MAX_DEPTH {
      ItemsReadBack(items, data, at, depth + 1);
    }
  }

  /** What encoding the entries in order leaves as it was. */
  lemma {:induction false} SortedEntries(entries: seq<Entry>)
    requires GoodEntries(entries)
    ensures var sorted := SortEntries(entries);
            && GoodEntries(sorted)
            && EncodePairs(sorted) == SortPairs(EncodePairs(entries))
            && CanonEntries(sorted) == SortEntries(CanonEntries(entries))
            && EntriesDepth(sorted) == EntriesDepth(entries)
            && |JoinPairs(EncodePairs(sorted))| >= 2 * |entries|
  {
    var sorted := SortEntries(entries);
    SortEncodes(entries);
    forall e | e in sorted ensures RawFree(e.key) && RawFree(e.value) {
      assert e in entries;
    }
    EntriesTakeBytes(sorted);
    DepthOfMembers(sorted, entries);
    DepthOfMembers(entries, sorted);
    forall e | e in entries ensures Encode(CanonEntry(e).key) == Encode(e.key) {
      CanonEncodes(e.key);
    }
    SortCanon(entries);
  }

  lemma {:induction false} MapReadsBack(v: Cbor, data: seq<byte>, pos: nat, depth: nat)
    requires v.Map? && Fits(v) && RawFree(v) && At(data, pos, Encode(v)) && depth <= MAX_DEPTH
    ensures ReadsBack(v, data, pos, depth)
    decreases v, 3
  {
    hide Decode, DecodeItems, DecodeEntries, EncodeItems, EncodePairs, JoinPairs, SortPairs, Canon, CanonItems, CanonEntries, SortEntries, Depth, ReadHead, WriteHead, EntriesRead, ReadsBack;
    var entries := v.entries;
    SortedEntries(entries);
    var sorted, head := SortEntries(entries), WriteHead(5, |entries|);
    AtSplits(data, pos, head, JoinPairs(EncodePairs(sorted)));
    HeadReadsBack(data, pos, 5, |entries|);
    if depth < MAX_DEPTH {
      EntriesReadBack(v, sorted, data, pos + |head|, depth + 1);
    }
    MapRead(v, sorted, data, pos, pos + |head|, depth);
  }

  /** A map is read back if its entries, in the order they are encoded, are. */
  lemma {:induction false} MapRead(v: Cbor, sorted: seq<Entry>, data: seq<byte>, pos: nat, at: nat, depth: nat)
    requires v.Map? && Fits(v) && AllFit(sorted) && |sorted| == |v.entries| && depth <= MAX_DEPTH
    requires EncodePairs(sorted) == SortPairs(EncodePairs(v.entries))
    requires CanonEntries(sorted) == SortEntries(CanonEntries(v.entries))
    requires EntriesDepth(sorted) == EntriesDepth(v.entries)
    requires at == pos + |WriteHead(5, |v.entries|)| && at + 2 * |sorted| <= |data|
    requires ReadHead(data, pos) == Ok((Head(5, |sorted|, false), at))
    requires depth < MAX_DEPTH ==> EntriesRead(sorted, data, at, depth + 1)
    ensures ReadsBack(v, data, pos, depth)
  {
    DecodeMapAt(data, pos, depth, |sorted|, at);
  }

  ghost predicate ItemsRead(items: seq<Cbor>, data: seq<byte>, pos: nat, depth: nat)
    requires forall i :: 0 <= i < |items| ==> Fits(items[i])
    requires pos <= |data|
  {
    DecodeItems(data, pos, |items|, depth) ==
    if depth + ItemsDepth(items) <= MAX_DEPTH then Ok((CanonItems(items), pos + |EncodeItems(items)|)) else Err(NestingTooDeep)
  }

  lemma {:induction false} ItemsReadBack(items: seq<Cbor>, data: seq<byte>, pos: nat, depth: nat)
    requires forall i :: 0 <= i < |items| ==> Fits(items[i]) && RawFree(items[i])
    requires At(data, pos, EncodeItems(items)) && depth <= MAX_DEPTH
    ensures ItemsRead(items, data, pos, depth)
    decreases items, 3
  {
    hide RawFree, Depth, At, KeyLeq, Fits, Encode, Decode, PrependItems;
    if items != [] {
      var first := Encode(items[0]);
      AtSplits(data, pos, first, EncodeItems(items[1..]));
      DecodeReadsBack(items[0], data, pos, depth);
      ItemsReadBack(items[1..], data, pos + |first|, depth);
      FirstItemRead(items, data, pos, depth);
    }
  }

  lemma {:induction false} FirstItemRead(items: seq<Cbor>, data: seq<byte>, pos: nat, depth: nat)
    requires items != [] && forall i :: 0 <= i < |items| ==> Fits(items[i])
    requires ReadsBack(items[0], data, pos, depth) && pos + |Encode(items[0])| <= |data|
    requires ItemsRead(items[1..], data, pos + |Encode(items[0])|, depth)
    ensures ItemsRead(items, data, pos, depth)
  {
  }

  ghost predicate EntriesRead(es: seq<Entry>, data: seq<byte>, pos: nat, depth: nat)
    requires AllFit(es) && pos <= |data|
  {
    DecodeEntries(data, pos, |es|, depth) ==
    if depth + EntriesDepth(es) <= MAX_DEPTH then Ok((CanonEntries(es), pos + |JoinPairs(EncodePairs(es))|))
    else Err(NestingTooDeep)
  }

  ghost predicate EntryReads(e: Entry, data: seq<byte>, pos: nat, depth: nat)
    requires Fits(e.key) && Fits(e.value)
  {
    ReadsBack(e.key, data, pos, depth) && ReadsBack(e.value, data, pos + |Encode(e.key)|, depth)
  }

  lemma {:induction false} EntriesReadBack(v: Cbor, es: seq<Entry>, data: seq<byte>, pos: nat, depth: nat)
    requires v.Map? && GoodEntries(es) && forall e :: e in es ==> e in v.entries
    requires At(data, pos, JoinPairs(EncodePairs(es))) && depth <= MAX_DEPTH
    ensures EntriesRead(es, data, pos, depth)
    decreases v, 1, |es|
  {
    hide Decode, DecodeItems, DecodeEntries, EncodePairs, JoinPairs, Depth, EntriesRead, ReadsBack, Encode;
    if es != [] {
      var e, rest := es[0], JoinPairs(EncodePairs(es[1..]));
      assert e in es && forall f :: f in es[1..] ==> f in es;
      JoinFirst(es);
      var key, value := Encode(e.key), Encode(e.value);
      AtSplits(data, pos, key + value, rest);
      AtSplits(data, pos, key, value);
      var i :| 0 <= i < |v.entries| && v.entries[i] == e;
      EntryReadsBack(v.entries[i], data, pos, depth);
      EntriesReadBack(v, es[1..], data, pos + |key| + |value|, depth);
      FirstEntryRead(es, data, pos, depth);
    } else {
      NoEntryRead(data, pos, depth);
    }
  }

  lemma {:induction false} NoEntryRead(data: seq<byte>, pos: nat, depth: nat)
    requires pos <= |data| && depth <= MAX_DEPTH
    ensures EntriesRead([], data, pos, depth)
  {
  }

  lemma {:induction false} JoinFirst(es: seq<Entry>)
    requires AllFit(es) && es != []
    ensures JoinPairs(EncodePairs(es)) == Encode(es[0].key) + Encode(es[0].value) + JoinPairs(EncodePairs(es[1..]))
  {
    assert EncodePairs(es)[1..] == EncodePairs(es[1..]);
  }

  lemma {:induction false} FirstEntryRead(es: seq<Entry>, data: seq<byte>, pos: nat, depth: nat)
    requires es != [] && AllFit(es) && pos + |Encode(es[0].key)| + |Encode(es[0].value)| <= |data|
    requires EntryReads(es[0], data, pos, depth)
    requires EntriesRead(es[1..], data, pos + |Encode(es[0].key)| + |Encode(es[0].value)|, depth)
    ensures EntriesRead(es, data, pos, depth)
  {
    hide Decode, Encode, Canon, Fits;
    JoinFirst(es);
    var e, rest := es[0], es[1..];
    var at := pos + |Encode(e.key)| + |Encode(e.value)|;
    var r := DecodeEntries(data, at, |rest|, depth);
    assert |es| - 1 == |rest|;
    assert EntriesDepth(es) == Max(EntryDepth(e), EntriesDepth(rest));
    assert EntryDepth(e) == Max(Depth(e.key), Depth(e.value));
    assert depth + EntryDepth(e) > MAX_DEPTH ==> DecodeEntries(data, pos, |es|, depth) == Err(NestingTooDeep);
    assert depth + EntryDepth(e) <= MAX_DEPTH ==>
      DecodeEntries(data, pos, |es|, depth) == PrependEntries([Entry(Canon(e.key), Canon(e.value))], r);
    assert CanonEntries(es) == [CanonEntry(e)] + CanonEntries(rest);
  }

  lemma {:induction false} EntryReadsBack(e: Entry, data: seq<byte>, pos: nat, depth: nat)
    requires Fits(e.key) && Fits(e.value) && RawFree(e.key) && RawFree(e.value) && depth <= MAX_DEPTH
    requires At(data, pos, Encode(e.key)) && At(data, pos + |Encode(e.key)|, Encode(e.value))
    ensures EntryReads(e, data, pos, depth)
    decreases e, 3
  {
    hide Decode, Encode, Depth, Canon, ReadsBack;
    DecodeReadsBack(e.key, data, pos, depth);
    DecodeReadsBack(e.value, data, pos + |Encode(e.key)|, depth);
  }

  /** Decoding what was encoded, with anything after it: the value with its maps
      sorted, having read exactly its encoding, if and only if it is nested at most
      64 deep. */
  lemma {:induction false} RoundTrip(v: Cbor, rest: seq<byte>)
    requires Fits(v) && RawFree(v)
    ensures Decode(Encode(v) + rest, 0, 0)
         == if Depth(v) <= MAX_DEPTH then Ok((Canon(v), |Encode(v)|)) else Err(NestingTooDeep)
  {
    assert (Encode(v) + rest)[0..|Encode(v)|] == Encode(v);
    DecodeReadsBack(v, Encode(v) + rest, 0, 0);
  }

  /** Values that encode the same are the same up to the order of their maps. */
  lemma {:induction false} EncodingIsInjective(v: Cbor, w: Cbor)
    requires Fits(v) && RawFree(v) && Fits(w) && RawFree(w) && Depth(v) <= MAX_DEPTH && Depth(w) <= MAX_DEPTH
    ensures Encode(v) == Encode(w) <==> Canon(v) == Canon(w)
  {
    RoundTrip(v, []);
    RoundTrip(w, []);
    CanonEncodes(v);
    CanonEncodes(w);
  }
}
