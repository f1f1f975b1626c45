/** `convert_bits` of src/bech32.rs: regrouping a string of bits. */
module BitGroups {
  import opened Bytes
  import opened Radix

  // ----- bits, most significant first -----

  function ToBits(v: nat, n: nat): (s: seq<bool>)
    ensures |s| == n
    decreases n
  {
    if n == 0 then [] else ToBits(v / 2, n - 1) + [v % 2 == 1]
  }

  function FromBits(s: seq<bool>): nat {
    if s == [] then 0 else 2 * FromBits(s[..|s| - 1]) + if s[|s| - 1] then 1 else 0
  }

  lemma {:induction false} FromBitsBelow(s: seq<bool>)
    ensures FromBits(s) < Pow(2, |s|)
  {
    if s != [] {
      FromBitsBelow(s[..|s| - 1]);
    }
  }

  lemma {:induction false} BitsReadBack(v: nat, n: nat)
    requires v < Pow(2, n)
    ensures FromBits(ToBits(v, n)) == v
    decreases n
  {
    if n > 0 {
      BitsReadBack(v / 2, n - 1);
      assert ToBits(v, n)[..n - 1] == ToBits(v / 2, n - 1);
    }
  }

  lemma {:induction false} BitsWriteBack(s: seq<bool>)
    ensures ToBits(FromBits(s), |s|) == s
  {
    if s != [] {
      BitsWriteBack(s[..|s| - 1]);
      assert s == s[..|s| - 1] + [s[|s| - 1]];
    }
  }

  lemma {:induction false} FromBitsAppend(a: seq<bool>, b: seq<bool>)
    ensures FromBits(a + b) == FromBits(a) * Pow(2, |b|) + FromBits(b)
  {
    if b == [] {
      assert a + b == a;
    } else {
      var c := b[..|b| - 1];
      assert (a + b)[..|a + b| - 1] == a + c;
      hide Pow;
      FromBitsAppend(a, c);
      PowStep(2, |b|);
      Doubled(FromBits(a), Pow(2, |c|));
    }
  }

  lemma {:induction false} Doubled(a: nat, b: nat)
    ensures 2 * (a * b) == a * (2 * b)
  {
  }

  function Zeros(n: nat): (s: seq<bool>)
    ensures |s| == n && forall i :: 0 <= i < n ==> !s[i]
  {
    seq(n, _ => false)
  }

  lemma {:induction false} ZeroIsNoBits(s: seq<bool>)
    ensures FromBits(s) == 0 <==> s == Zeros(|s|)
  {
    BitsWriteBack(s);
    if s != [] {
      ZeroIsNoBits(s[..|s| - 1]);
      assert s == s[..|s| - 1] + [s[|s| - 1]];
      assert Zeros(|s|) == Zeros(|s| - 1) + [false];
    }
  }

  // ----- groups of bits -----

  /** A group width. */
  type Width = n: nat | 1 <= n <= 8 witness 1

  ghost predicate Fit(data: seq<byte>, n: Width) {
    forall i :: 0 <= i < |data| ==> data[i] as nat < Pow(2, n)
  }

  function Expand(data: seq<byte>, n: Width): (s: seq<bool>) {
    if data == [] then [] else ToBits(data[0] as nat, n) + Expand(data[1..], n)
  }

  lemma {:induction false} WidthPower(n: Width)
    ensures Pow(2, n) <= 256
  {
    PowGrows(2, n, 8);
    assert Pow(2, 2) == 4 && Pow(2, 4) == 16;
    PowAdd(2, 4, 4);
  }

  function ByteOf(s: seq<bool>): (b: byte)
    requires |s| <= 8
    ensures b as nat == FromBits(s)
  {
    FromBitsBelow(s);
    if s != [] then WidthPower(|s|); FromBits(s) as byte else 0
  }

  /** The whole groups of a string of bits. */
  function Groups(s: seq<bool>, n: Width): (data: seq<byte>)
    decreases |s|
  {
    if |s| < n then [] else [ByteOf(s[..n])] + Groups(s[n..], n)
  }

  /** What is left over of a string of bits after its whole groups. */
  function Tail(s: seq<bool>, n: Width): (t: seq<bool>)
    ensures |t| < n
    decreases |s|
  {
    if |s| < n then s else Tail(s[n..], n)
  }

  lemma {:induction false} GroupsFit(s: seq<bool>, n: Width)
    ensures Fit(Groups(s, n), n)
    decreases |s|
  {
    if |s| >= n {
      FromBitsBelow(s[..n]);
      GroupsFit(s[n..], n);
    }
  }

  lemma {:induction false} ByteBits(s: seq<bool>)
    requires |s| <= 8
    ensures ToBits(ByteOf(s) as nat, |s|) == s
  {
    hide FromBits, ToBits;
    BitsWriteBack(s);
  }

  /** The groups of a string of bits, and what is left over, make it up. */
  lemma {:induction false} ExpandGroups(s: seq<bool>, n: Width)
    ensures Expand(Groups(s, n), n) + Tail(s, n) == s
    decreases |s|
  {
    if |s| < n {
      assert [] + s == s;
    } else {
      var rest := s[n..];
      ExpandGroups(rest, n);
      FirstGroup(s, n);
      Joined3(s[..n], Expand(Groups(rest, n), n), Tail(rest, n));
    }
  }

  lemma {:induction false} Joined3(a: seq<bool>, b: seq<bool>, c: seq<bool>)
    ensures a + b + c == a + (b + c)
  {
  }

  lemma {:induction false} FirstGroup(s: seq<bool>, n: Width)
    requires |s| >= n
    ensures Expand(Groups(s, n), n) == s[..n] + Expand(Groups(s[n..], n), n) && Tail(s, n) == Tail(s[n..], n)
    ensures s == s[..n] + s[n..]
  {
    hide FromBits, ToBits, ByteOf;
    ByteBits(s[..n]);
    assert Groups(s, n)[1..] == Groups(s[n..], n);
  }

  /** Groups laid end to end are found again, whatever less than a group follows. */
  lemma {:induction false} GroupsOfExpand(data: seq<byte>, n: Width, t: seq<bool>)
    requires Fit(data, n) && |t| < n
    ensures Groups(Expand(data, n) + t, n) == data && Tail(Expand(data, n) + t, n) == t
  {
    hide FromBits, ToBits, ByteOf;
    var s := Expand(data, n) + t;
    if data != [] {
      var first := ToBits(data[0] as nat, n);
      GroupsOfExpand(data[1..], n, t);
      BitsReadBack(data[0] as nat, n);
      assert s[..n] == first && s[n..] == Expand(data[1..], n) + t;
      assert data == [data[0]] + data[1..];
    } else {
      assert s == t;
    }
  }

  lemma {:induction false} ExpandAppend(a: seq<byte>, b: seq<byte>, n: Width)
    ensures Expand(a + b, n) == Expand(a, n) + Expand(b, n)
  {
    if a == [] {
      assert a + b == b;
    } else {
      assert (a + b)[1..] == a[1..] + b;
      ExpandAppend(a[1..], b, n);
    }
  }

  lemma {:induction false} ExpandOne(v: byte, n: Width)
    ensures Expand([v], n) == ToBits(v as nat, n)
  {
    assert ToBits(v as nat, n) + [] == ToBits(v as nat, n);
  }

  // ----- regrouping, and back -----

  /** The groups with the last one filled up with zeros. */
  function Padded(s: seq<bool>, n: Width): (data: seq<byte>) {
    var t := Tail(s, n);
    Groups(s, n) + if t == [] then [] else [ByteOf(t + Zeros(n - |t|))]
  }

  lemma {:induction false} PaddedFits(s: seq<bool>, n: Width)
    ensures Fit(Padded(s, n), n)
  {
    GroupsFit(s, n);
    var t := Tail(s, n);
    FromBitsBelow(t + Zeros(n - |t|));
  }

  /** The padding is less than a group of zeros. */
  lemma {:induction false} ExpandPadded(s: seq<bool>, n: Width)
    ensures exists k: nat :: k < n && Expand(Padded(s, n), n) == s + Zeros(k)
  {
    hide Expand, Groups, Tail;
    var t := Tail(s, n);
    ExpandGroups(s, n);
    if t == [] {
      assert Groups(s, n) + [] == Groups(s, n);
      assert Expand(Groups(s, n), n) + [] == Expand(Groups(s, n), n) == s + Zeros(0);
    } else {
      var full := t + Zeros(n - |t|);
      BitsWriteBack(full);
      ExpandAppend(Groups(s, n), [ByteOf(full)], n);
      ExpandOne(ByteOf(full), n);
      assert Expand(Groups(s, n), n) + (t + Zeros(n - |t|)) == (Expand(Groups(s, n), n) + t) + Zeros(n - |t|);
    }
  }

  datatype Regrouped = Good(data: seq<byte>) | BadPadding

  /** Regrouping without padding: less than a group may be left over, of zeros. */
  function Unpadded(s: seq<bool>, from: Width, to: Width): Regrouped {
    var t := Tail(s, to);
    if |t| >= from || FromBits(t) != 0 then BadPadding else Good(Groups(s, to))
  }

  /** Regrouping wide groups into narrow ones, and back, changes nothing. */
  lemma {:induction false} RegroupsBack(data: seq<byte>, wide: Width, narrow: Width)
    requires Fit(data, wide) && narrow <= wide
    ensures Unpadded(Expand(Padded(Expand(data, wide), narrow), narrow), narrow, wide) == Good(data)
  {
    hide Expand, Padded, Groups, Tail;
    var s := Expand(data, wide);
    ExpandPadded(s, narrow);
    var k: nat :| k < narrow && Expand(Padded(s, narrow), narrow) == s + Zeros(k);
    GroupsOfExpand(data, wide, Zeros(k));
    ZeroIsNoBits(Zeros(k));
  }

  /** And the only narrow groups accepted are those that wide ones make. */
  lemma {:induction false} RegroupsOnlyBack(narrowData: seq<byte>, wide: Width, narrow: Width)
    requires Fit(narrowData, narrow) && narrow <= wide
    requires Unpadded(Expand(narrowData, narrow), narrow, wide).Good?
    ensures Padded(Expand(Unpadded(Expand(narrowData, narrow), narrow, wide).data, wide), narrow) == narrowData
  {
    hide Expand, Padded, Groups, Tail;
    var s := Expand(narrowData, narrow);
    var t, data := Tail(s, wide), Groups(s, wide);
    ExpandGroups(s, wide);
    ZeroIsNoBits(t);
    PaddedOfPrefix(narrowData, Expand(data, wide), |t|, narrow);
  }

  lemma {:induction false} PaddedOfPrefix(data: seq<byte>, s: seq<bool>, k: nat, n: Width)
    requires Fit(data, n) && k < n && Expand(data, n) == s + Zeros(k)
    ensures Padded(s, n) == data
  {
    hide Groups, Tail, FromBits, ToBits;
    if k == 0 {
      assert Expand(data, n) + [] == s;
      GroupsOfExpand(data, n, []);
      assert Groups(s, n) + [] == data;
    } else {
      assert data != [];
      var front, last := data[..|data| - 1], data[|data| - 1];
      assert data == front + [last];
      ExpandAppend(front, [last], n);
      ExpandOne(last, n);
      var bits := ToBits(last as nat, n);
      var t := bits[..n - k];
      assert |s| + k == |Expand(front, n)| + n;
      assert s == (Expand(front, n) + bits)[..|s|] == Expand(front, n) + t;
      assert bits == t + Zeros(k) by {
        assert bits == (s + Zeros(k))[|Expand(front, n)|..];
      }
      GroupsOfExpand(front, n, t);
      BitsReadBack(last as nat, n);
    }
  }

  // ----- the accumulator -----

  /** The low `|q|` bits of the accumulator are those not emitted yet. */
  ghost predicate Pending(acc: nat, q: seq<bool>) {
    acc % Pow(2, |q|) == FromBits(q)
  }

  /** What masks and shifts make of a number of two parts. */
  lemma {:induction false} TwoParts(acc: nat, m: nat, n: nat, h: nat, l: nat)
    requires h < Pow(2, m) && l < Pow(2, n) && acc % Pow(2, m + n) == h * Pow(2, n) + l
    ensures acc / Pow(2, n) % Pow(2, m) == h && acc % Pow(2, n) == l
  {
    hide Pow;
    var pm, pn := Pow(2, m), Pow(2, n);
    var q := acc / Pow(2, m + n);
    PowAdd(2, m, n);
    Quotient(acc, pm * pn);
    TwoLevels(q, pm, pn, h);
    DivMod(pn, q * pm + h, l);
    DivMod(pm, q, h);
  }

  lemma {:induction false} Quotient(a: nat, b: nat)
    requires b > 0
    ensures a == a / b * b + a % b
  {
  }

  lemma {:induction false} TwoLevels(q: nat, pm: nat, pn: nat, h: nat)
    ensures q * (pm * pn) + h * pn == pn * (q * pm + h) && q * pm + h == h + pm * q
  {
    MulAssoc(q, pm, pn);
    Distribute(pn, q * pm, h);
  }

  /** One more value comes in from the right; bits past the width of the
      accumulator are masked off. */
  lemma {:induction false} ShiftedIn(acc: nat, p: seq<bool>, v: nat, from: nat, width: nat)
    requires Pending(acc, p) && v < Pow(2, from) && |p| + from <= width
    ensures Pending((acc * Pow(2, from) + v) % Pow(2, width), p + ToBits(v, from))
  {
    hide Pow, ToBits, FromBits;
    var q := p + ToBits(v, from);
    var f, b := Pow(2, from), Pow(2, |p|);
    FromBitsAppend(p, ToBits(v, from));
    BitsReadBack(v, from);
    FromBitsBelow(q);
    var x, h := acc * f + v, acc / b;
    Quotient(acc, b);
    PowAdd(2, |p|, from);
    var l := FromBits(q);
    assert x == l + (b * f) * h by {
      ShiftedParts(acc, h, b, f, FromBits(p), v);
    }
    DivMod(b * f, h, l);
    MaskTwice(x, |q|, width);
  }

  lemma {:induction false} ShiftedParts(acc: nat, h: nat, b: nat, f: nat, low: nat, v: nat)
    requires acc == h * b + low
    ensures acc * f + v == (low * f + v) + (b * f) * h
  {
    assert (h * b + low) * f == h * b * f + low * f;
    assert h * b * f == (b * f) * h by {
      MulAssoc(h, b, f);
    }
  }

  lemma {:induction false} MaskTwice(x: nat, m: nat, n: nat)
    requires m <= n
    ensures x % Pow(2, n) % Pow(2, m) == x % Pow(2, m)
  {
    hide Pow;
    var a, b := Pow(2, m), Pow(2, n - m);
    PowAdd(2, m, n - m);
    var y := x % (a * b);
    Quotient(x, a * b);
    Quotient(y, a);
    var q := x / (a * b);
    assert x == y % a + a * (q * b + y / a) by {
      Nested(x, y, q, a, b);
    }
    DivMod(a, q * b + y / a, y % a);
  }

  lemma {:induction false} Nested(x: nat, y: nat, q: nat, a: nat, b: nat)
    requires a > 0 && x == q * (a * b) + y
    ensures x == y % a + a * (q * b + y / a)
  {
    Quotient(y, a);
    MulAssoc(a, q, b);
    MulAssoc(q, a, b);
    Distribute(a, q * b, y / a);
  }

  /** The next group to emit, and what stays pending. */
  lemma {:induction false} Emitted(acc: nat, q: seq<bool>, to: Width)
    requires Pending(acc, q) && |q| >= to
    ensures acc / Pow(2, |q| - to) % Pow(2, to) == ByteOf(q[..to]) as nat
    ensures Pending(acc, q[to..])
  {
    hide Pow;
    var n := |q| - to;
    assert q == q[..to] + q[to..];
    FromBitsAppend(q[..to], q[to..]);
    FromBitsBelow(q[..to]);
    FromBitsBelow(q[to..]);
    TwoParts(acc, to, n, FromBits(q[..to]), FromBits(q[to..]));
  }

  /** What is pending, shifted up to a whole group. */
  lemma {:induction false} ShiftedUp(acc: nat, q: seq<bool>, to: Width)
    requires Pending(acc, q) && |q| < to
    ensures acc * Pow(2, to - |q|) % Pow(2, to) == ByteOf(q + Zeros(to - |q|)) as nat
    ensures (acc * Pow(2, to - |q|) % Pow(2, to) == 0) == (FromBits(q) == 0)
  {
    hide Pow;
    var k := to - |q|;
    var b, f := Pow(2, |q|), Pow(2, k);
    FromBitsAppend(q, Zeros(k));
    ZeroIsNoBits(Zeros(k));
    FromBitsBelow(q + Zeros(k));
    PowAdd(2, |q|, k);
    Quotient(acc, b);
    ShiftedParts(acc, acc / b, b, f, FromBits(q), 0);
    DivMod(b * f, acc / b, FromBits(q) * f);
    assert FromBits(q) > 0 ==> FromBits(q) * f > 0 by {
      if FromBits(q) > 0 {
        MulMonotone(1, FromBits(q), 1, f);
      }
    }
  }

  // ----- the loop -----

  lemma {:induction false} GroupsAppend(s: seq<bool>, x: seq<bool>, n: Width)
    ensures Groups(s + x, n) == Groups(s, n) + Groups(Tail(s, n) + x, n)
    ensures Tail(s + x, n) == Tail(Tail(s, n) + x, n)
    decreases |s|
  {
    if |s| >= n {
      assert (s + x)[..n] == s[..n] && (s + x)[n..] == s[n..] + x;
      GroupsAppend(s[n..], x, n);
    }
  }

  /** The values of `data` up to the first that has more bits than a group. */
  function Leading(data: seq<byte>, n: Width): (front: seq<byte>)
    ensures front <= data && Fit(front, n)
    ensures |front| < |data| ==> data[|front|] as nat >= Pow(2, n)
  {
    if data == [] || data[0] as nat >= Pow(2, n) then [] else [data[0]] + Leading(data[1..], n)
  }

  lemma {:induction false} LeadingIsAll(data: seq<byte>, n: Width)
    requires Fit(data, n)
    ensures Leading(data, n) == data
  {
  }

  datatype Outcome = Done(data: seq<byte>) | Full | InvalidPadding

  /** What `convert_bits` emits, to a sink with room for so many groups. */
  function Converted(data: seq<byte>, from: Width, to: Width, pad: bool, room: nat): Outcome {
    var front := Leading(data, from);
    var s := Expand(front, from);
    if |Groups(s, to)| > room then Full
    else if |front| < |data| then InvalidPadding
    else if pad then
      if |Padded(s, to)| > room then Full else Done(Padded(s, to))
    else
      match Unpadded(s, from, to)
      case Good(groups) => Done(groups)
      case BadPadding => InvalidPadding
  }

  /** The inner loop: emits the whole groups that are pending. */
  method Emit(acc: nat, bits0: nat, to: Width, out0: seq<byte>, room: nat, ghost q0: seq<bool>)
    returns (out: seq<byte>, bits: nat, full: bool, ghost q: seq<bool>)
    requires |q0| == bits0 && Pending(acc, q0) && |out0| <= room
    ensures full <==> |out0 + Groups(q0, to)| > room
    ensures !full ==> out == out0 + Groups(q0, to) && q == Tail(q0, to) && |q| == bits && Pending(acc, q)
  {
    hide Pow, FromBits, Pending, ByteOf;
    out, bits, q := out0, bits0, q0;
    while bits >= to
      invariant |q| == bits && Pending(acc, q) && |out| <= room
      invariant out + Groups(q, to) == out0 + Groups(q0, to) && Tail(q, to) == Tail(q0, to)
      decreases bits
    {
      Emitted(acc, q, to);
      bits := bits - to;
      if |out| == room {
        full := true;
        return;
      }
      ghost var rest := Groups(q[to..], to);
      assert out + ([ByteOf(q[..to])] + rest) == (out + [ByteOf(q[..to])]) + rest;
      WidthPower(to);
      out := out + [(acc / Pow(2, bits) % Pow(2, to)) as byte];
      q := q[to..];
    }
    assert out + [] == out;
    full := false;
  }

  /** `convert_bits`. */
  method ConvertBits(data: seq<byte>, from: Width, to: Width, pad: bool, room: nat) returns (r: Outcome)
    ensures r == Converted(data, from, to, pad, room)
  {
    hide Pow, FromBits, Pending, ByteOf, Groups, Tail, Expand, Leading, Zeros;
    var acc: nat, bits: nat, out: seq<byte> := 0, 0, [];
    ghost var q: seq<bool> := [];
    NothingPending(from, to);
    for i := 0 to |data|
      invariant |q| == bits < to && Pending(acc, q) && |out| <= room
      invariant i <= |Leading(data, from)|
      invariant out == Groups(Expand(data[..i], from), to) && q == Tail(Expand(data[..i], from), to)
    {
      var v := data[i] as nat;
      ghost var s, x := Expand(data[..i], from), ToBits(v, from);
      assert Leading(data, from)[..i] == data[..i];
      if v >= Pow(2, from) {
        LeadingStops(data, i, from);
        return InvalidPadding;
      }
      ShiftedIn(acc, q, v, from, from + to - 1);
      acc := (acc * Pow(2, from) + v) % Pow(2, from + to - 1);
      GroupsAppend(s, x, to);
      ExpandNext(data, i, from);
      var full;
      out, bits, full, q := Emit(acc, bits + from, to, out, room, q + x);
      if full {
        GroupsOnlyGrow(data, i + 1, from, to);
        return Full;
      }
    }
    assert data[..|data|] == data;
    assert Leading(data, from) == data;
    ShiftedUp(acc, q, to);
    WidthPower(to);
    if pad {
      if bits > 0 {
        if |out| == room {
          return Full;
        }
        out := out + [(acc * Pow(2, to - bits) % Pow(2, to)) as byte];
      }
    } else if bits >= from || acc * Pow(2, to - bits) % Pow(2, to) != 0 {
      return InvalidPadding;
    }
    r := Done(out);
  }

  lemma {:induction false} LeadingStops(data: seq<byte>, i: nat, n: Width)
    requires i < |data| && i <= |Leading(data, n)| && data[i] as nat >= Pow(2, n)
    ensures Leading(data, n) == data[..i]
  {
    hide Leading, Pow;
    var front := Leading(data, n);
    assert forall j :: 0 <= j < |front| ==> front[j] == data[j] && (data[j] as nat) < Pow(2, n);
  }

  lemma {:induction false} NothingPending(from: Width, to: Width)
    ensures Pending(0, []) && Groups(Expand([], from), to) == [] && Tail(Expand([], from), to) == []
  {
    assert 0 % Pow(2, 0) == 0;
  }

  lemma {:induction false} ExpandNext(data: seq<byte>, i: nat, n: Width)
    requires i < |data|
    ensures Expand(data[..i + 1], n) == Expand(data[..i], n) + ToBits(data[i] as nat, n)
  {
    assert data[..i + 1] == data[..i] + [data[i]];
    ExpandAppend(data[..i], [data[i]], n);
    ExpandOne(data[i], n);
  }

  /** More input, more groups. */
  lemma {:induction false} GroupsOnlyGrow(data: seq<byte>, i: nat, from: Width, to: Width)
    requires i <= |data|
    requires forall j :: 0 <= j < i ==> (data[j] as nat) < Pow(2, from)
    ensures |Groups(Expand(data[..i], from), to)| <= |Groups(Expand(Leading(data, from), from), to)|
  {
    hide Groups, Expand, Tail;
    var front := Leading(data, from);
    assert |front| >= i;
    assert front == front[..i] + front[i..] && front[..i] == data[..i];
    ExpandAppend(front[..i], front[i..], from);
    GroupsAppend(Expand(front[..i], from), Expand(front[i..], from), to);
  }
}
