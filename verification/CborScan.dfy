/** The iterative scanner of src/cbor.rs, against a recursive grammar of CBOR
    items. */
module CborScan {
  import opened Options
  import opened Bytes
  import opened Cbor

  // ----- the grammar -----

  /** The chunks of an indefinite-length string, and its break code. */
  function Chunks(data: seq<byte>, pos: nat, major: nat): (r: Result<nat>)
    ensures r.Ok? ==> pos < r.value <= |data|
    decreases |data| - (if pos <= |data| then pos else |data|)
  {
    if pos < |data| && data[pos] == 0xff then Ok(pos + 1)
    else
      var head := ReadHead(data, pos);
      if head.Err? then Err(head.error)
      else if head.value.0.major != major || head.value.0.indefinite then Err(InvalidChunk)
      else
        var chunk := Take(data, head.value.1, head.value.0.arg);
        if chunk.Err? then Err(chunk.error) else Chunks(data, chunk.value.1, major)
  }

  /** The end of the item at `pos`. When `checked`, a container that claims more
      items than bytes are left is refused right away. */
  function Item(checked: bool, data: seq<byte>, pos: nat): (r: Result<nat>)
    ensures r.Ok? ==> pos < r.value <= |data|
    decreases |data| - (if pos <= |data| then pos else |data|), 0, 0
  {
    var head := ReadHead(data, pos);
    if head.Err? then Err(head.error) else ItemBody(checked, data, head.value.0, head.value.1)
  }

  /** What follows the head of an item. */
  function ItemBody(checked: bool, data: seq<byte>, head: Head, at: nat): (r: Result<nat>)
    requires at <= |data| && head.major < 8 && head.arg < U64
    ensures r.Ok? ==> at <= r.value <= |data|
    decreases |data| - at, 3, 0
  {
    var Head(major, arg, indefinite) := head;
    if major <= 1 then Ok(at)
    else if major <= 3 then
      if indefinite then Chunks(data, at, major)
      else
        var bytes := Take(data, at, arg);
        if bytes.Err? then Err(bytes.error) else Ok(bytes.value.1)
    else if major <= 5 then
      if indefinite then UntilBreak(checked, data, at, major == 5)
      else if checked && (arg * (major - 3) >= U64 || arg * (major - 3) > |data| - at) then Err(UnexpectedEof)
      else Items(checked, data, at, arg * (major - 3))
    else if major == 6 then Items(checked, data, at, 1)
    else if indefinite then Err(UnexpectedBreak)
    else Ok(at)
  }

  /** `count` items. */
  function Items(checked: bool, data: seq<byte>, pos: nat, count: nat): (r: Result<nat>)
    requires pos <= |data|
    ensures r.Ok? ==> pos + count <= r.value <= |data|
    decreases |data| - pos, 1, count
  {
    if count == 0 then Ok(pos)
    else
      var first := Item(checked, data, pos);
      if first.Err? then first else Items(checked, data, first.value, count - 1)
  }

  /** Items, or pairs of items, up to a break code. */
  function UntilBreak(checked: bool, data: seq<byte>, pos: nat, pairs: bool): (r: Result<nat>)
    requires pos <= |data|
    ensures r.Ok? ==> pos < r.value <= |data|
    decreases |data| - pos, 2, 0
  {
    if pos < |data| && data[pos] == 0xff then Ok(pos + 1)
    else
      var items := Items(checked, data, pos, if pairs then 2 else 1);
      if items.Err? then items else UntilBreak(checked, data, items.value, pairs)
  }

  // ----- the scanner's stack -----

  datatype Open = Left(items: nat) | Break(pairs: bool, midPair: bool)

  /** What is still to come in one open container. */
  ghost function Remaining(data: seq<byte>, at: nat, o: Open): (r: Result<nat>)
    requires at <= |data|
    ensures r.Ok? ==> at <= r.value <= |data|
  {
    match o
    case Left(n) => Items(true, data, at, n)
    case Break(pairs, mid) =>
      var first := if mid then Item(true, data, at) else Ok(at);
      if first.Err? then first else UntilBreak(true, data, first.value, pairs)
  }

  /** The container after one of its items. */
  function Tick(o: Open): Open
    requires o.Left? ==> o.items > 0
  {
    match o
    case Left(n) => Left(n - 1)
    case Break(pairs, mid) => Break(pairs, pairs && !mid)
  }

  function TickLast(open: seq<Open>): (r: seq<Open>)
    requires open != [] ==> Busy(open[|open| - 1])
    ensures |r| == |open|
  {
    if open == [] then [] else open[..|open| - 1] + [Tick(open[|open| - 1])]
  }

  predicate Busy(o: Open) {
    o.Left? ==> o.items > 0
  }

  ghost predicate AllBusy(open: seq<Open>) {
    forall i :: 0 <= i < |open| ==> Busy(open[i])
  }

  /** The end of everything that is open: what remains of the innermost container,
      which completes an item of the next. */
  ghost function Rest(data: seq<byte>, at: nat, open: seq<Open>): (r: Result<nat>)
    requires at <= |data|
    requires AllBusy(open[..if open == [] then 0 else |open| - 1])
    decreases |open|
  {
    if open == [] then Ok(at)
    else
      var k := |open| - 1;
      var end := Remaining(data, at, open[k]);
      assert k > 0 ==> open[..k][k - 1] == open[k - 1];
      if end.Err? then end else Rest(data, end.value, TickLast(open[..k]))
  }

  /** Once the innermost container has no more to come, its parent goes on. */
  lemma {:induction false} RestCloses(data: seq<byte>, at: nat, open: seq<Open>)
    requires at <= |data| && open != [] && AllBusy(open[..|open| - 1]) && open[|open| - 1] == Left(0)
    ensures open == [Left(0)] ==> Rest(data, at, open) == Ok(at)
    ensures |open| > 1 ==> Busy(open[|open| - 2]) && Rest(data, at, open) == Rest(data, at, TickLast(open[..|open| - 1]))
  {
    var k := |open| - 1;
    assert k > 0 ==> open[..k][k - 1] == open[k - 1];
    assert Remaining(data, at, open[k]) == Ok(at);
  }

  /** One item of the innermost container read, or refused. */
  lemma {:induction false} ItemRead(data: seq<byte>, at: nat, open: seq<Open>)
    requires at <= |data| && open != [] && AllBusy(open)
    requires open[|open| - 1].Break? && !open[|open| - 1].midPair ==> at == |data| || data[at] != 0xff
    ensures var item := Item(true, data, at);
            Rest(data, at, open) == if item.Err? then item else Rest(data, item.value, TickLast(open))
  {
    hide Item;
    var k := |open| - 1;
    var o, item := open[k], Item(true, data, at);
    assert open[..k + 1] == open && TickLast(open)[..k] == open[..k] && TickLast(open)[k] == Tick(o);
    LastItem(data, at, o);
  }

  lemma {:induction false} FewItems(data: seq<byte>, at: nat)
    requires at <= |data|
    ensures Items(true, data, at, 1) == Item(true, data, at)
    ensures var first := Item(true, data, at);
            Items(true, data, at, 2) == if first.Err? then first else Item(true, data, first.value)
  {
    hide Item;
    var first := Item(true, data, at);
    if first.Ok? {
      assert Items(true, data, at, 2) == Items(true, data, first.value, 1);
      var second := Item(true, data, first.value);
      assert second.Ok? ==> Items(true, data, second.value, 0) == second;
      assert Items(true, data, first.value, 0) == first;
    }
  }

  lemma {:induction false} LastItem(data: seq<byte>, at: nat, o: Open)
    requires at <= |data| && Busy(o)
    requires o.Break? && !o.midPair ==> at == |data| || data[at] != 0xff
    ensures var item := Item(true, data, at);
            Remaining(data, at, o) == if item.Err? then item else Remaining(data, item.value, Tick(o))
  {
    hide Item;
    FewItems(data, at);
    if o.Break? {
      hide Items;
    }
  }

  /** The item at hand opens a container. */
  lemma {:induction false} ContainerOpens(data: seq<byte>, at: nat, open: seq<Open>, inside: nat, o: Open)
    requires at <= inside <= |data| && open != [] && AllBusy(open)
    requires open[|open| - 1].Break? && !open[|open| - 1].midPair ==> at == |data| || data[at] != 0xff
    requires Item(true, data, at) == Remaining(data, inside, o)
    ensures Rest(data, at, open) == Rest(data, inside, open + [o])
  {
    hide Item, Remaining;
    ItemRead(data, at, open);
    assert (open + [o])[..|open|] == open;
  }

  // ----- the scanner -----

  /** `scan_indefinite_chunks`. */
  method ScanChunks(data: seq<byte>, pos: nat, major: nat) returns (r: Result<nat>)
    requires pos <= |data|
    ensures r == Chunks(data, pos, major)
  {
    var at := pos;
    while true
      invariant pos <= at <= |data|
      invariant Chunks(data, at, major) == Chunks(data, pos, major)
      decreases |data| - at
    {
      if at < |data| && data[at] == 0xff {
        return Ok(at + 1);
      }
      var head := ReadHead(data, at);
      if head.Err? {
        return Err(head.error);
      }
      if head.value.0.major != major || head.value.0.indefinite {
        return Err(InvalidChunk);
      }
      var chunk := Take(data, head.value.1, head.value.0.arg);
      if chunk.Err? {
        return Err(chunk.error);
      }
      at := chunk.value.1;
    }
  }

  /** What the head of an item leads to: the end of the item, a container whose
      items come next, or a refusal. */
  datatype Opened = Whole(end: nat) | Container(o: Open) | Refused(error: Error)

  /** The match of `scan_item` on the head of an item. */
  method OpenItem(data: seq<byte>, head: Head, at: nat) returns (r: Opened)
    requires at <= |data| && head.major < 8 && head.arg < U64
    ensures r.Whole? ==> ItemBody(true, data, head, at) == Ok(r.end)
    ensures r.Container? ==> Busy(r.o) && ItemBody(true, data, head, at) == Remaining(data, at, r.o)
    ensures r.Refused? ==> ItemBody(true, data, head, at) == Err(r.error)
  {
    var Head(major, arg, indefinite) := head;
    if major <= 1 {
      return Whole(at);
    } else if major <= 3 && indefinite {
      var chunks := ScanChunks(data, at, major);
      return if chunks.Err? then Refused(chunks.error) else Whole(chunks.value);
    } else if major <= 3 {
      var bytes := Take(data, at, arg);
      return if bytes.Err? then Refused(bytes.error) else Whole(bytes.value.1);
    } else if major <= 5 && indefinite {
      return Container(Break(major == 5, false));
    } else if major <= 5 {
      var items := arg * (major - 3);
      if items >= U64 {
        return Refused(UnexpectedEof);
      }
      var count := CheckCount(data, at, items);
      if count.Err? {
        return Refused(count.error);
      }
      return if items > 0 then Container(Left(items)) else Whole(at);
    } else if major == 6 {
      return Container(Left(1));
    } else if indefinite {
      return Refused(UnexpectedBreak);
    }
    r := Whole(at);
  }

  /** The last item of a definite container completes an item of the next. */
  lemma {:induction false} ParentGoesOn(data: seq<byte>, at: nat, open: seq<Open>)
    requires at <= |data| && open != [] && AllBusy(open) && open[|open| - 1] == Left(1)
    ensures Rest(data, at, TickLast([Left(1)] + open)) == Rest(data, at, TickLast([Left(1)] + open[..|open| - 1]))
  {
    hide Rest;
    var k := |open| - 1;
    var all := [Left(1)] + open;
    assert all[..k + 1] == [Left(1)] + open[..k] && all[k + 1] == open[k];
    assert TickLast(all)[..k + 1] == [Left(1)] + open[..k];
    RestCloses(data, at, TickLast(all));
  }

  lemma {:induction false} TickAbove(open: seq<Open>)
    requires open != [] && AllBusy(open)
    ensures TickLast([Left(1)] + open) == [Left(1)] + TickLast(open)
  {
    var k, all := |open| - 1, [Left(1)] + open;
    assert all[..k + 1] == [Left(1)] + open[..k] && all[k + 1] == open[k];
  }

  /** The inner loop of `scan_item`: an item is complete, and with it every
      container it was the last of. Tells whether nothing is left open. */
  method Complete(data: seq<byte>, at: nat, open0: seq<Open>) returns (open: seq<Open>, finished: bool)
    requires at <= |data| && AllBusy(open0)
    ensures AllBusy(open)
    ensures finished ==> Rest(data, at, TickLast([Left(1)] + open0)) == Ok(at)
    ensures !finished ==> Rest(data, at, TickLast([Left(1)] + open0)) == Rest(data, at, [Left(1)] + open)
  {
    hide Rest;
    open := open0;
    while open != []
      invariant AllBusy(open)
      invariant Rest(data, at, TickLast([Left(1)] + open0)) == Rest(data, at, TickLast([Left(1)] + open))
      decreases |open|
    {
      var k := |open| - 1;
      TickAbove(open);
      match open[k]
      case Break(pairs, midPair) =>
        open := open[..k] + [Break(pairs, pairs && !midPair)];
        return open, false;
      case Left(left) =>
        if left > 1 {
          open := open[..k] + [Left(left - 1)];
          return open, false;
        }
        ParentGoesOn(data, at, open);
        open := open[..k];
    }
    assert TickLast([Left(1)] + []) == [Left(0)];
    RestCloses(data, at, [Left(0)]);
    finished := true;
  }

  /** `scan_item`: the position past the item at `pos`, which is left as it was on
      error. */
  method ScanItem(data: seq<byte>, pos: nat) returns (end: nat, error: Option<Error>)
    requires pos <= |data|
    ensures Item(true, data, pos) == if error.Some? then Err(error.value) else Ok(end)
    ensures error.Some? ==> end == pos
  {
    hide Rest, Item, ItemBody, Remaining, ReadHead, TickLast;
    end, error := pos, None;
    var at, open: seq<Open> := pos, [];
    TopItem(data, pos);
    while true
      invariant pos <= at <= |data| && AllBusy(open) && end == pos && error == None
      invariant Rest(data, at, [Left(1)] + open) == Item(true, data, pos)
      decreases |data| - at
    {
      var closes := open != [] && open[|open| - 1].Break? && !open[|open| - 1].midPair && at < |data| && data[at] == 0xff;
      ghost var all := [Left(1)] + open;
      assert all[|open|] == if open == [] then Left(1) else open[|open| - 1];
      if closes {
        BreakCloses(data, at, open);
        at := at + 1;
        open := open[..|open| - 1];
      } else {
        var head := ReadHead(data, at);
        ItemRead(data, at, all);
        ItemByHead(data, at);
        if head.Err? {
          return pos, Some(head.error);
        }
        var step := OpenItem(data, head.value.0, head.value.1);
        match step
        case Refused(e) =>
          return pos, Some(e);
        case Container(o) =>
          ContainerOpens(data, at, all, head.value.1, o);
          assert all + [o] == [Left(1)] + (open + [o]);
          at, open := head.value.1, open + [o];
          continue;
        case Whole(past) =>
          at := past;
      }
      var finished;
      open, finished := Complete(data, at, open);
      if finished {
        return at, None;
      }
    }
  }

  lemma {:induction false} ItemByHead(data: seq<byte>, at: nat)
    requires at <= |data|
    ensures var head := ReadHead(data, at);
            Item(true, data, at) == if head.Err? then Err(head.error) else ItemBody(true, data, head.value.0, head.value.1)
  {
    hide ReadHead, ItemBody;
  }

  lemma {:induction false} TopItem(data: seq<byte>, pos: nat)
    requires pos <= |data|
    ensures Rest(data, pos, [Left(1)] + []) == Item(true, data, pos)
  {
    assert [Left(1)] + [] == [Left(1)];
    ItemRead(data, pos, [Left(1)]);
    var item := Item(true, data, pos);
    assert TickLast([Left(1)]) == [Left(0)];
    if item.Ok? {
      RestCloses(data, item.value, [Left(0)]);
    }
  }

  /** The break code completes the innermost container. */
  lemma {:induction false} BreakCloses(data: seq<byte>, at: nat, open: seq<Open>)
    requires at < |data| && data[at] == 0xff && open != [] && AllBusy(open)
    requires open[|open| - 1].Break? && !open[|open| - 1].midPair
    ensures Rest(data, at, [Left(1)] + open) == Rest(data, at + 1, TickLast([Left(1)] + open[..|open| - 1]))
  {
    var all := [Left(1)] + open;
    assert all[..|open|] == [Left(1)] + open[..|open| - 1] && all[|open|] == open[|open| - 1];
    assert Remaining(data, at, all[|open|]) == Ok(at + 1);
  }

  // ----- the count check never refuses an item -----

  ghost function Measure(data: seq<byte>, pos: nat): nat {
    |data| - (if pos <= |data| then pos else |data|)
  }

  /** Refusing containers that claim more items than bytes are left refuses
      nothing the bare grammar accepts, in data whose length fits 64 bits. */
  lemma {:induction false} ChecksRefuseNoItem(data: seq<byte>, pos: nat)
    requires |data| < U64
    ensures Item(true, data, pos).Ok? <==> Item(false, data, pos).Ok?
    ensures Item(false, data, pos).Ok? ==> Item(true, data, pos) == Item(false, data, pos)
    decreases Measure(data, pos), 0, 0
  {
    var head := ReadHead(data, pos);
    if head.Ok? {
      var Head(major, arg, indefinite) := head.value.0;
      var at := head.value.1;
      if major == 4 || major == 5 {
        if indefinite {
          ChecksRefuseNoRun(data, at, major == 5);
        } else {
          ChecksRefuseNoItems(data, at, arg * (major - 3));
        }
      } else if major == 6 {
        ChecksRefuseNoItems(data, at, 1);
      }
    }
  }

  lemma {:induction false} ChecksRefuseNoItems(data: seq<byte>, pos: nat, count: nat)
    requires pos <= |data| < U64
    ensures Items(true, data, pos, count).Ok? <==> Items(false, data, pos, count).Ok?
    ensures Items(false, data, pos, count).Ok? ==> Items(true, data, pos, count) == Items(false, data, pos, count)
    decreases Measure(data, pos), 1, count
  {
    hide Item;
    if count > 0 {
      ChecksRefuseNoItem(data, pos);
      var first := Item(false, data, pos);
      if first.Ok? {
        ChecksRefuseNoItems(data, first.value, count - 1);
      }
    }
  }

  lemma {:induction false} ChecksRefuseNoRun(data: seq<byte>, pos: nat, pairs: bool)
    requires pos <= |data| < U64
    ensures UntilBreak(true, data, pos, pairs).Ok? <==> UntilBreak(false, data, pos, pairs).Ok?
    ensures UntilBreak(false, data, pos, pairs).Ok? ==> UntilBreak(true, data, pos, pairs) == UntilBreak(false, data, pos, pairs)
    decreases Measure(data, pos), 2, 0
  {
    hide Item, Items;
    if !(pos < |data| && data[pos] == 0xff) {
      var n := if pairs then 2 else 1;
      ChecksRefuseNoItems(data, pos, n);
      var items := Items(false, data, pos, n);
      if items.Ok? {
        ChecksRefuseNoRun(data, items.value, pairs);
      }
    }
  }

  // ----- the scanner and the decoder -----

  /** Whatever `decode` decodes, the scanner passes over, and both stop at the same
      place. */
  lemma {:induction false} DecodeStopsWhereScanDoes(data: seq<byte>, pos: nat, depth: nat)
    requires Decode(data, pos, depth).Ok?
    ensures Item(true, data, pos) == Ok(Decode(data, pos, depth).value.1)
    decreases Measure(data, pos), 0, 0
  {
    hide ReadHead, Decode, ItemBody;
    DecodedHead(data, pos, depth);
    var (head, at) := ReadHead(data, pos).value;
    if head.major == 4 {
      DecodedItems(data, at, head.arg, depth + 1);
    } else if head.major == 5 {
      DecodedEntries(data, at, head.arg, depth + 1);
    }
    BodyOfDecoded(data, pos, depth, head, at);
  }

  /** What a decoded value starts with, and what was decoded after it. */
  lemma {:induction false} DecodedHead(data: seq<byte>, pos: nat, depth: nat)
    requires Decode(data, pos, depth).Ok?
    ensures ReadHead(data, pos).Ok?
    ensures var (head, at) := ReadHead(data, pos).value;
            && (head.major == 4 ==> DecodeItems(data, at, head.arg, depth + 1).Ok?)
            && (head.major == 5 ==> DecodeEntries(data, at, head.arg, depth + 1).Ok?)
  {
    hide ReadHead, Take, DecodeItems, DecodeEntries;
  }

  lemma {:induction false} IndefiniteHasNoArg(data: seq<byte>, pos: nat)
    requires ReadHead(data, pos).Ok?
    ensures ReadHead(data, pos).value.0.indefinite ==> ReadHead(data, pos).value.0.arg == 0
  {
    hide Take, BeValue;
  }

  lemma {:induction false} BodyOfDecoded(data: seq<byte>, pos: nat, depth: nat, head: Head, at: nat)
    requires Decode(data, pos, depth).Ok? && ReadHead(data, pos) == Ok((head, at))
    requires head.major == 4 ==>
               && DecodeItems(data, at, head.arg, depth + 1).Ok?
               && Items(true, data, at, head.arg) == Ok(DecodeItems(data, at, head.arg, depth + 1).value.1)
    requires head.major == 5 ==>
               && DecodeEntries(data, at, head.arg, depth + 1).Ok?
               && Items(true, data, at, 2 * head.arg) == Ok(DecodeEntries(data, at, head.arg, depth + 1).value.1)
    ensures ItemBody(true, data, head, at) == Ok(Decode(data, pos, depth).value.1)
  {
    hide ReadHead, Take, DecodeItems, DecodeEntries, Items;
    IndefiniteHasNoArg(data, pos);
    if head.major == 4 {
      assert head.arg * (head.major - 3) == head.arg;
    } else if head.major == 5 {
      assert head.arg * (head.major - 3) == 2 * head.arg && 2 * head.arg / 2 == head.arg;
    }
  }

  lemma {:induction false} DecodedItems(data: seq<byte>, pos: nat, count: nat, depth: nat)
    requires pos <= |data| && DecodeItems(data, pos, count, depth).Ok?
    ensures Items(true, data, pos, count) == Ok(DecodeItems(data, pos, count, depth).value.1)
    decreases Measure(data, pos), 1, count
  {
    hide Decode, Item;
    if count > 0 {
      DecodeStopsWhereScanDoes(data, pos, depth);
      var first := Decode(data, pos, depth);
      DecodedItems(data, first.value.1, count - 1, depth);
    }
  }

  lemma {:induction false} DecodedEntries(data: seq<byte>, pos: nat, count: nat, depth: nat)
    requires pos <= |data| && DecodeEntries(data, pos, count, depth).Ok?
    ensures Items(true, data, pos, 2 * count) == Ok(DecodeEntries(data, pos, count, depth).value.1)
    decreases Measure(data, pos), 1, count
  {
    hide Decode, Item;
    if count > 0 {
      var key := Decode(data, pos, depth);
      var value := Decode(data, key.value.1, depth);
      DecodeStopsWhereScanDoes(data, pos, depth);
      DecodeStopsWhereScanDoes(data, key.value.1, depth);
      DecodedEntries(data, value.value.1, count - 1, depth);
      assert Items(true, data, pos, 2 * count) == Items(true, data, key.value.1, 2 * count - 1);
      assert Items(true, data, key.value.1, 2 * count - 1) == Items(true, data, value.value.1, 2 * count - 2);
    }
  }
}
