/** Script pushes (src/pushbytes.rs), and an interpreter for the opcodes of the
    standard scripts: the signature opcodes before and under BIP-342. */
module Script {
  import opened Options
  import opened Bytes

  type Item = seq<byte>

  // ----- pushes -----

  /** `push_header`: the shortest. */
  function PushHeader(n: nat): (h: seq<byte>)
    requires n < U32
    ensures 1 <= |h| <= 5
  {
    if n <= 75 then [n as byte]
    else if n <= 0xff then [0x4c, n as byte]
    else if n <= 0xffff then [0x4d] + Le(n, 2)
    else [0x4e] + Le(n, 4)
  }

  /** `push_bytes`. */
  function PushBytes(d: Item): (s: seq<byte>)
    requires |d| < U32
    ensures s != []
  {
    PushHeader(|d|) + d
  }

  /** The `n` bytes after a header of `h`, and what follows. */
  function Payload(s: seq<byte>, h: nat, n: nat): (r: Option<(Item, seq<byte>)>)
    ensures r.Some? <==> h + n <= |s|
    ensures r.Some? ==> s == s[..h] + r.value.0 + r.value.1 && |r.value.0| == n
  {
    if h + n <= |s| then Some((s[h..h + n], s[h + n..])) else None
  }

  /** `parse_push_bytes`: the data pushed at the front, and what follows. */
  function ParsePush(s: seq<byte>): (r: Option<(Item, seq<byte>)>)
    ensures r.Some? ==> |r.value.0| + |r.value.1| < |s|
  {
    if s == [] then None
    else if s[0] <= 75 then Payload(s, 1, s[0] as nat)
    else if s[0] == 0x4c then if |s| < 2 then None else Payload(s, 2, s[1] as nat)
    else if s[0] == 0x4d then if |s| < 3 then None else Payload(s, 3, LeValue(s[1..3]))
    else if s[0] == 0x4e then if |s| < 5 then None else Payload(s, 5, LeValue(s[1..5]))
    else None
  }

  /** A push is read back from the front of whatever follows it. */
  lemma {:induction false} PushReadsBack(d: Item, rest: seq<byte>)
    requires |d| < U32
    ensures ParsePush(PushBytes(d) + rest) == Some((d, rest))
  {
    hide Le, LeValue, Span;
    var n, h, s := |d|, PushHeader(|d|), PushBytes(d) + rest;
    Spans();
    assert s[|h|..|h| + n] == d && s[|h| + n..] == rest && s[0] == h[0];
    if n > 0xffff {
      assert s[1..5] == Le(n, 4);
      LeReadsBack(n, 4);
    } else if n > 0xff {
      assert s[1..3] == Le(n, 2);
      LeReadsBack(n, 2);
    }
  }

  // ----- operations -----

  datatype Op = Push(data: Item) | Code(op: byte)

  /** The operation at the front of a script, and what follows. */
  function Next(s: seq<byte>): (r: Option<(Op, seq<byte>)>)
    ensures r.Some? ==> |r.value.1| < |s|
  {
    if s == [] then None
    else if s[0] <= 0x4e then
      var push := ParsePush(s);
      if push.None? then None else Some((Push(push.value.0), push.value.1))
    else Some((Code(s[0]), s[1..]))
  }

  type Stack = seq<Item>

  /** What signature opcodes depend on: whether the script is a tapscript, what
      signatures are good for what keys, and HASH160. */
  datatype Context = Context(tap: bool, good: (Item, Item) -> bool, hash160: Item -> Item)

  const YES: Item := [1]

  function Bool(b: bool): Item {
    if b then YES else []
  }

  /** Script numbers of at most one byte, which is all that counting keys takes. */
  function Num(d: Item): Option<nat> {
    if d == [] then Some(0)
    else if |d| == 1 && 1 <= d[0] < 128 then Some(d[0] as nat)
    else None
  }

  function NumItem(n: nat): (d: Item)
    requires n < 128
    ensures Num(d) == Some(n)
  {
    if n == 0 then [] else [n as byte]
  }

  /** Whether the signatures match keys, in order: from the last ones on, a key that
      does not match is passed over. */
  function Matches(good: (Item, Item) -> bool, sigs: seq<Item>, keys: seq<Item>): bool {
    if sigs == [] then true
    else if |sigs| > |keys| then false
    else if good(sigs[|sigs| - 1], keys[|keys| - 1]) then Matches(good, sigs[..|sigs| - 1], keys[..|keys| - 1])
    else Matches(good, sigs, keys[..|keys| - 1])
  }

  /** OP_CHECKMULTISIG: an empty dummy, the signatures, their number, the keys, their
      number. */
  function CheckMultisig(cx: Context, st: Stack): Option<Stack> {
    if st == [] || Num(st[|st| - 1]).None? then None
    else
      var n, a := Num(st[|st| - 1]).value, st[..|st| - 1];
      if n > 20 || n >= |a| || Num(a[|a| - n - 1]).None? then None
      else
        var keys, m, b := a[|a| - n..], Num(a[|a| - n - 1]).value, a[..|a| - n - 1];
        if m > n || m >= |b| || b[|b| - m - 1] != [] then None
        else Some(b[..|b| - m - 1] + [Bool(Matches(cx.good, b[|b| - m..], keys))])
  }

  /** OP_CHECKSIG. In a tapscript, a signature that is not good, and not empty, fails. */
  function CheckSig(cx: Context, sig: Item, key: Item): Option<bool> {
    if cx.tap && sig == [] then Some(false)
    else if cx.tap && !cx.good(sig, key) then None
    else Some(cx.good(sig, key))
  }

  function Apply(cx: Context, op: Op, st: Stack): Option<Stack> {
    match op
    case Push(data) => Some(st + [data])
    case Code(c) =>
      var k := |st|;
      if 0x51 <= c <= 0x60 then Some(st + [[c - 0x50]])
      else if c == 0x76 && k >= 1 then Some(st + [st[k - 1]])
      else if c == 0xa9 && k >= 1 then Some(st[..k - 1] + [cx.hash160(st[k - 1])])
      else if c == 0x88 && k >= 2 && st[k - 2] == st[k - 1] then Some(st[..k - 2])
      else if c == 0xac && k >= 2 then
        var ok := CheckSig(cx, st[k - 2], st[k - 1]);
        if ok.None? then None else Some(st[..k - 2] + [Bool(ok.value)])
      else if c == 0xba && cx.tap && k >= 3 then
        var ok, n := CheckSig(cx, st[k - 3], st[k - 1]), Num(st[k - 2]);
        if ok.None? || n.None? || n.value >= 127 then None
        else Some(st[..k - 3] + [NumItem(n.value + if ok.value then 1 else 0)])
      else if c == 0x9c && k >= 2 then
        var a, b := Num(st[k - 2]), Num(st[k - 1]);
        if a.None? || b.None? then None else Some(st[..k - 2] + [Bool(a.value == b.value)])
      else if c == 0xae && !cx.tap then CheckMultisig(cx, st)
      else None
  }

  /** The stack a script leaves. */
  function Exec(cx: Context, script: seq<byte>, st: Stack): Option<Stack>
    decreases |script|
  {
    if script == [] then Some(st)
    else
      var next := Next(script);
      if next.None? then None
      else
        var after := Apply(cx, next.value.0, st);
        if after.None? then None else Exec(cx, next.value.1, after.value)
  }

  /** A push, and the rest of the script. */
  lemma {:induction false} ExecPush(cx: Context, d: Item, rest: seq<byte>, st: Stack)
    requires |d| < U32
    ensures Exec(cx, PushBytes(d) + rest, st) == Exec(cx, rest, st + [d])
  {
    hide PushBytes, ParsePush, PushHeader;
    PushReadsBack(d, rest);
    PushOpcode(d);
  }

  lemma {:induction false} PushOpcode(d: Item)
    requires |d| < U32
    ensures PushBytes(d)[0] <= 0x4e
  {
  }

  /** Any other opcode, and the rest. */
  lemma {:induction false} ExecCode(cx: Context, c: byte, rest: seq<byte>, st: Stack)
    requires c > 0x4e
    ensures Exec(cx, [c] + rest, st)
         == var after := Apply(cx, Code(c), st); if after.None? then None else Exec(cx, rest, after.value)
  {
    hide Apply;
    assert ([c] + rest)[1..] == rest;
  }

  /** A script of pushes, as a scriptSig is. */
  function Pushes(items: seq<Item>): (s: seq<byte>)
    requires forall i :: 0 <= i < |items| ==> |items[i]| < U32
  {
    if items == [] then [] else PushBytes(items[0]) + Pushes(items[1..])
  }

  lemma {:induction false} ExecPushes(cx: Context, items: seq<Item>, rest: seq<byte>, st: Stack)
    requires forall i :: 0 <= i < |items| ==> |items[i]| < U32
    ensures Exec(cx, Pushes(items) + rest, st) == Exec(cx, rest, st + items)
    decreases items
  {
    hide Exec, PushBytes;
    if items == [] {
      assert [] + rest == rest && st + [] == st;
    } else {
      var tail := Pushes(items[1..]) + rest;
      assert Pushes(items) + rest == PushBytes(items[0]) + tail;
      ExecPush(cx, items[0], tail, st);
      ExecPushes(cx, items[1..], rest, st + [items[0]]);
      assert st + [items[0]] + items[1..] == st + items;
    }
  }
}
