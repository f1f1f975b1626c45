/** The bytes of src/rlp.rs by position: the head of a string or list, and what follows it. */
module RlpLayout {
  import opened Bytes
  import opened Layout
  import opened Rlp

  /** The head of `ln` bytes of content, and where the content starts: one byte from `base` on for up
      to 55, and otherwise a byte that counts the bytes of the length, which follow without a
      leading zero. */
  ghost predicate HeadAt(s: seq<byte>, base: nat, ln: nat, start: nat) {
    && start <= |s|
    && if ln <= 55 then start == 1 && s[0] as nat == base + ln
       else 2 <= start <= 9 && s[0] as nat == base + 55 + (start - 1) && s[1] != 0 && BeValue(s[1..start]) == ln
  }

  lemma {:induction false} HeadIs(ln: nat, isArray: bool, rest: seq<byte>)
    requires ln < U64
    ensures var head := EncodeLen(ln, isArray);
            HeadAt(head + rest, if isArray then 0xc0 else 0x80, ln, |head|) && (head + rest)[|head|..] == rest
  {
    hide Digits, BeValue;
    var head := EncodeLen(ln, isArray);
    if ln > 55 {
      DigitsReadBack(ln);
      assert head[1..] == Digits(ln);
      assert (head + rest)[1..|head|] == Digits(ln);
    }
  }

  /** A byte below 0x80 is its own encoding. Any other string has a head from 0x80 on, and any list
      one from 0xc0 on, and then the content. */
  lemma {:induction false} ItemByPosition(item: RlpItem)
    requires Fits(item)
    ensures item.Bytes? && |item.b| == 1 && item.b[0] < 0x80 ==> Encode(item) == item.b
    ensures item.Bytes? && !(|item.b| == 1 && item.b[0] < 0x80) ==>
              exists start: nat :: HeadAt(Encode(item), 0x80, |item.b|, start) && Encode(item)[start..] == item.b
    ensures item.List? ==>
              && AllFit(item.items) && |EncodeAll(item.items)| < U64
              && exists start: nat ::
                   HeadAt(Encode(item), 0xc0, |EncodeAll(item.items)|, start) && Encode(item)[start..] == EncodeAll(item.items)
  {
    hide HeadAt, EncodeLen;
    match item
    case Bytes(b) =>
      if !(|b| == 1 && b[0] < 0x80) {
        HeadIs(|b|, false, b);
        assert HeadAt(Encode(item), 0x80, |b|, |EncodeLen(|b|, false)|);
      }
    case List(items) =>
      HeadIs(|EncodeAll(items)|, true, EncodeAll(items));
      assert HeadAt(Encode(item), 0xc0, |EncodeAll(items)|, |EncodeLen(|EncodeAll(items)|, true)|);
  }

  /** The content of a list: its items, one after the other. */
  lemma {:induction false} ItemsInOrder(items: seq<RlpItem>, next: RlpItem)
    requires AllFit(items) && Fits(next)
    ensures AllFit(items + [next]) && EncodeAll(items + [next]) == EncodeAll(items) + Encode(next) && EncodeAll([]) == []
  {
    hide Encode, Fits;
    var all := items + [next];
    if items == [] {
      assert all == [next] && all[1..] == [];
      assert Encode(next) + [] == Encode(next) && [] + Encode(next) == Encode(next);
    } else {
      ItemsInOrder(items[1..], next);
      assert all[1..] == items[1..] + [next];
      Regroup(Encode(items[0]), EncodeAll(items[1..]), Encode(next));
    }
  }
}
