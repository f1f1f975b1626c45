/** `satisfy` of src/psbt/finalize.rs: the signature stacks of the script templates,
    and that the scripts accept them. */
module Satisfy {
  import opened Options
  import opened Bytes
  import opened Script
  import opened Templates

  // ----- the stack being built -----

  const ROOM := 20

  /** A stack of at most 20 items. Pushing past them panics in the source. */
  class Builder {
    const items: array<Item>
    var len: nat

    constructor ()
      ensures Valid() && Contents() == [] && fresh(items)
    {
      items := new Item[ROOM](_ => []);
      len := 0;
    }

    ghost predicate Valid()
      reads this
    {
      items.Length == ROOM && len <= ROOM
    }

    ghost function Contents(): (s: seq<Item>)
      requires Valid()
      reads this, items
      ensures |s| == len
    {
      items[..len]
    }

    method Push(item: Item)
      requires Valid() && len < ROOM
      modifies this`len, items
      ensures Valid() && Contents() == old(Contents()) + [item]
    {
      items[len] := item;
      len := len + 1;
    }
  }

  // ----- signatures for scripts before taproot -----

  /** A public key and its signature. */
  type PartialSig = (Item, Item)

  /** `partial_sig`. */
  function SigOf(sigs: seq<PartialSig>, key: Item): (sig: Option<Item>)
    ensures sig.Some? ==> (key, sig.value) in sigs
  {
    if sigs == [] then None else if sigs[0].0 == key then Some(sigs[0].1) else SigOf(sigs[1..], key)
  }

  /** The first key with this hash, and its signature. */
  function KeyOfHash(sigs: seq<PartialSig>, hash160: Item -> Item, hash: Item): (r: Option<PartialSig>)
    ensures r.Some? ==> r.value in sigs && hash160(r.value.0) == hash
  {
    if sigs == [] then None else if hash160(sigs[0].0) == hash then Some(sigs[0]) else KeyOfHash(sigs[1..], hash160, hash)
  }

  /** The signatures of the first `m` keys that have one. */
  function Picked(sigs: seq<PartialSig>, keys: seq<Item>, m: nat): (picks: seq<Item>)
    ensures |picks| <= m && |picks| <= |keys|
  {
    if keys == [] || m == 0 then []
    else
      match SigOf(sigs, keys[0])
      case Some(sig) => [sig] + Picked(sigs, keys[1..], m - 1)
      case None => Picked(sigs, keys[1..], m)
  }

  /** What `satisfy` puts on the stack. */
  function Satisfied(sigs: seq<PartialSig>, hash160: Item -> Item, t: Template): Option<seq<Item>> {
    match t
    case Pkh(hash) =>
      var found := KeyOfHash(sigs, hash160, hash);
      if found.None? then None else Some([found.value.1, found.value.0])
    case Pk(key) =>
      var sig := SigOf(sigs, key);
      if sig.None? then None else Some([sig.value])
    case Multi(m, keys) =>
      var picks := Picked(sigs, keys, m);
      if |picks| < m then None else Some([[]] + picks)
  }

  /** The loop of `satisfy` over the keys of a multisig, above the dummy. */
  method PickSigs(st: Builder, sigs: seq<PartialSig>, keys: seq<Item>, m: nat)
    requires st.Valid() && st.len == 1 && m <= 16
    modifies st, st.items
    ensures st.Valid() && st.Contents() == old(st.Contents()) + Picked(sigs, keys, m)
  {
    hide SigOf;
    ghost var all, dummy := Picked(sigs, keys, m), st.Contents();
    assert keys[0..] == keys;
    for i := 0 to |keys|
      invariant st.Valid() && 1 <= st.len <= m + 1
      invariant dummy + all == st.Contents() + Picked(sigs, keys[i..], m - (st.len - 1))
    {
      if st.len - 1 == m {
        break;
      }
      var sig := SigOf(sigs, keys[i]);
      assert keys[i..][1..] == keys[i + 1..];
      if sig.Some? {
        ghost var rest := Picked(sigs, keys[i + 1..], m - st.len);
        assert st.Contents() + ([sig.value] + rest) == (st.Contents() + [sig.value]) + rest;
        st.Push(sig.value);
      }
    }
    assert st.Contents() + [] == st.Contents();
  }

  /** `satisfy`. */
  method SatisfyTemplate(sigs: seq<PartialSig>, hash160: Item -> Item, t: Template) returns (r: Option<seq<Item>>)
    requires Standard(t)
    ensures r == Satisfied(sigs, hash160, t)
    ensures r.Some? ==> |r.value| <= 17
  {
    hide SigOf, KeyOfHash, Picked;
    var st := new Builder();
    match t {
      case Pkh(hash) =>
        var found := KeyOfHash(sigs, hash160, hash);
        if found.None? {
          return None;
        }
        st.Push(found.value.1);
        st.Push(found.value.0);
        assert st.Contents() == [found.value.1, found.value.0];
      case Pk(key) =>
        var sig := SigOf(sigs, key);
        if sig.None? {
          return None;
        }
        st.Push(sig.value);
        assert st.Contents() == [sig.value];
      case Multi(m, keys) =>
        st.Push([]);
        assert st.Contents() == [[]];
        PickSigs(st, sigs, keys, m);
        if st.len - 1 < m {
          return None;
        }
    }
    r := Some(st.items[..st.len]);
  }

  // ----- signatures match keys -----

  /** Every signature is good for its key. */
  ghost predicate AllGood(cx: Context, sigs: seq<PartialSig>) {
    forall p :: p in sigs ==> cx.good(p.1, p.0)
  }

  /** The signatures are good for some of the keys, in order. */
  ghost predicate Embeds(good: (Item, Item) -> bool, sigs: seq<Item>, keys: seq<Item>) {
    sigs == []
    || (keys != []
        && ((good(sigs[|sigs| - 1], keys[|keys| - 1]) && Embeds(good, sigs[..|sigs| - 1], keys[..|keys| - 1]))
            || Embeds(good, sigs, keys[..|keys| - 1])))
  }

  lemma {:induction false} EmbedsFewer(good: (Item, Item) -> bool, sigs: seq<Item>, keys: seq<Item>)
    requires Embeds(good, sigs, keys) && sigs != []
    ensures Embeds(good, sigs[..|sigs| - 1], keys[..|keys| - 1]) && |sigs| <= |keys|
    decreases |keys|
  {
    var s, k := sigs[..|sigs| - 1], keys[..|keys| - 1];
    if good(sigs[|sigs| - 1], keys[|keys| - 1]) && Embeds(good, s, k) {
      if s != [] {
        EmbedsFewer(good, s, k);
      }
    } else {
      EmbedsFewer(good, sigs, k);
    }
  }

  /** CHECKMULTISIG finds a match whenever there is one. */
  lemma {:induction false} EmbeddedMatches(good: (Item, Item) -> bool, sigs: seq<Item>, keys: seq<Item>)
    requires Embeds(good, sigs, keys)
    ensures Matches(good, sigs, keys)
    decreases |keys|
  {
    if sigs != [] {
      EmbedsFewer(good, sigs, keys);
      if good(sigs[|sigs| - 1], keys[|keys| - 1]) {
        EmbeddedMatches(good, sigs[..|sigs| - 1], keys[..|keys| - 1]);
      } else {
        EmbeddedMatches(good, sigs, keys[..|keys| - 1]);
      }
    }
  }

  /** One more key in front, with or without a signature. */
  lemma {:induction false} EmbedsInFront(good: (Item, Item) -> bool, sigs: seq<Item>, keys: seq<Item>, key: Item, sig: Option<Item>)
    requires Embeds(good, sigs, keys) && (sig.Some? ==> good(sig.value, key))
    ensures Embeds(good, if sig.Some? then [sig.value] + sigs else sigs, [key] + keys)
    decreases |keys|
  {
    var more, all := if sig.Some? then [sig.value] + sigs else sigs, [key] + keys;
    if sigs == [] {
      if sig.Some? {
        EmbedsAtFront(good, sig.value, key, keys);
        assert more == [sig.value];
      }
    } else {
      var s, k := sigs[..|sigs| - 1], keys[..|keys| - 1];
      assert all[..|all| - 1] == [key] + k && more[|more| - 1] == sigs[|sigs| - 1];
      if good(sigs[|sigs| - 1], keys[|keys| - 1]) && Embeds(good, s, k) {
        EmbedsInFront(good, s, k, key, sig);
        assert more[..|more| - 1] == if sig.Some? then [sig.value] + s else s;
      } else {
        EmbedsInFront(good, sigs, k, key, sig);
      }
    }
  }

  lemma {:induction false} EmbedsAtFront(good: (Item, Item) -> bool, sig: Item, key: Item, keys: seq<Item>)
    requires good(sig, key)
    ensures Embeds(good, [sig], [key] + keys)
    decreases |keys|
  {
    var all := [key] + keys;
    if keys != [] {
      assert all[..|all| - 1] == [key] + keys[..|keys| - 1];
      EmbedsAtFront(good, sig, key, keys[..|keys| - 1]);
    } else {
      assert [sig][..0] == [] && all[0] == key;
    }
  }

  lemma {:induction false} PickedEmbeds(cx: Context, sigs: seq<PartialSig>, keys: seq<Item>, m: nat)
    requires AllGood(cx, sigs)
    ensures Embeds(cx.good, Picked(sigs, keys, m), keys)
    decreases |keys|
  {
    hide SigOf;
    if keys != [] && m > 0 {
      var sig := SigOf(sigs, keys[0]);
      PickedEmbeds(cx, sigs, keys[1..], if sig.Some? then m - 1 else m);
      EmbedsInFront(cx.good, Picked(sigs, keys[1..], if sig.Some? then m - 1 else m), keys[1..], keys[0], sig);
      assert keys == [keys[0]] + keys[1..];
    }
  }

  // ----- the scripts accept the stacks -----

  lemma {:induction false} ExecKeyPushes(cx: Context, keys: seq<Item>, rest: seq<byte>, st: Stack)
    requires AllKeySized(keys)
    ensures Exec(cx, KeyPushes(keys) + rest, st) == Exec(cx, rest, st + keys)
    decreases keys
  {
    hide Exec, PushBytes;
    if keys == [] {
      assert [] + rest == rest && st + [] == st;
    } else {
      var k, tail := keys[0], KeyPushes(keys[1..]) + rest;
      assert KeySized(k);
      assert KeyPushes(keys) + rest == PushBytes(k) + tail;
      ExecPush(cx, k, tail, st);
      ExecKeyPushes(cx, keys[1..], rest, st + [k]);
      assert st + [k] + keys[1..] == st + keys;
    }
  }

  lemma {:induction false} PkhAccepts(cx: Context, hash: Item, key: Item, sig: Item)
    requires !cx.tap && |hash| == 20 && cx.hash160(key) == hash && cx.good(sig, key)
    ensures Exec(cx, ScriptOf(Pkh(hash)), [sig, key]) == Some([YES])
  {
    hide Exec, PushBytes, Num, CheckMultisig;
    var none: seq<byte> := [];
    var end := [0x88] + ([0xac] + none);
    assert ScriptOf(Pkh(hash)) == [0x76] + ([0xa9] + (PushBytes(hash) + end));
    ExecCode(cx, 0x76, [0xa9] + (PushBytes(hash) + end), [sig, key]);
    assert [sig, key] + [key] == [sig, key, key];
    ExecCode(cx, 0xa9, PushBytes(hash) + end, [sig, key, key]);
    assert [sig, key, key][..2] + [hash] == [sig, key, hash];
    ExecPush(cx, hash, end, [sig, key, hash]);
    assert [sig, key, hash] + [hash] == [sig, key, hash, hash];
    ExecCode(cx, 0x88, [0xac] + none, [sig, key, hash, hash]);
    assert [sig, key, hash, hash][..2] == [sig, key];
    ExecLastSig(cx, sig, key);
  }

  lemma {:induction false} ExecLastSig(cx: Context, sig: Item, key: Item)
    requires !cx.tap && cx.good(sig, key)
    ensures Exec(cx, [0xac] + [], [sig, key]) == Some([YES])
  {
    hide Exec;
    ExecCode(cx, 0xac, [], [sig, key]);
    assert [sig, key][..0] + [YES] == [YES];
    ExecNothing(cx, [YES]);
  }

  lemma {:induction false} ExecNothing(cx: Context, st: Stack)
    ensures Exec(cx, [], st) == Some(st)
  {
  }

  lemma {:induction false} PkAccepts(cx: Context, key: Item, sig: Item)
    requires !cx.tap && KeySized(key) && cx.good(sig, key)
    ensures Exec(cx, ScriptOf(Pk(key)), [sig]) == Some([YES])
  {
    hide Exec, PushBytes;
    var none: seq<byte> := [];
    assert ScriptOf(Pk(key)) == PushBytes(key) + ([0xac] + none);
    ExecPush(cx, key, [0xac] + none, [sig]);
    assert [sig] + [key] == [sig, key];
    ExecLastSig(cx, sig, key);
  }

  lemma {:induction false} MultisigOf(cx: Context, m: nat, keys: seq<Item>, picks: seq<Item>)
    requires 1 <= m <= |keys| <= 16 && |picks| == m && Matches(cx.good, picks, keys)
    ensures CheckMultisig(cx, [[]] + picks + [[m as byte]] + keys + [[|keys| as byte]]) == Some([YES])
  {
    hide Matches;
    var n := |keys|;
    var b := [[]] + picks;
    var a := b + [[m as byte]] + keys;
    var st := a + [[n as byte]];
    assert Num([m as byte]) == Some(m) && Num([n as byte]) == Some(n);
    assert st[..|st| - 1] == a && st[|st| - 1] == [n as byte];
    assert a[|a| - n..] == keys && a[|a| - n - 1] == [m as byte] && a[..|a| - n - 1] == b;
    assert b[|b| - m..] == picks && b[|b| - m - 1] == [] && b[..|b| - m - 1] + [YES] == [YES];
  }

  lemma {:induction false} MultiAccepts(cx: Context, m: nat, keys: seq<Item>, picks: seq<Item>)
    requires !cx.tap && Standard(Multi(m, keys)) && |picks| == m && Matches(cx.good, picks, keys)
    ensures Exec(cx, ScriptOf(Multi(m, keys)), [[]] + picks) == Some([YES])
  {
    hide Exec, Matches, CheckMultisig, KeyPushes;
    var none: seq<byte> := [];
    var n := |keys|;
    var end := [(0x50 + n) as byte] + ([0xae] + none);
    var st := [[]] + picks;
    assert ScriptOf(Multi(m, keys)) == [(0x50 + m) as byte] + (KeyPushes(keys) + end);
    ExecCode(cx, (0x50 + m) as byte, KeyPushes(keys) + end, st);
    ExecKeyPushes(cx, keys, end, st + [[m as byte]]);
    ExecCode(cx, (0x50 + n) as byte, [0xae] + none, st + [[m as byte]] + keys);
    ExecCode(cx, 0xae, none, st + [[m as byte]] + keys + [[n as byte]]);
    MultisigOf(cx, m, keys, picks);
    ExecNothing(cx, [YES]);
  }

  /** The script of every template accepts the stack built for it, and leaves nothing
      but the verdict: as long as the signatures stored are good. */
  lemma {:induction false} SatisfiedAccepts(cx: Context, sigs: seq<PartialSig>, t: Template)
    requires !cx.tap && Standard(t) && AllGood(cx, sigs) && Satisfied(sigs, cx.hash160, t).Some?
    ensures Exec(cx, ScriptOf(t), Satisfied(sigs, cx.hash160, t).value) == Some([YES])
  {
    hide Exec, ScriptOf, SigOf, KeyOfHash, Picked, Matches, Embeds;
    match t
    case Pkh(hash) =>
      var (key, sig) := KeyOfHash(sigs, cx.hash160, hash).value;
      PkhAccepts(cx, hash, key, sig);
    case Pk(key) =>
      PkAccepts(cx, key, SigOf(sigs, key).value);
    case Multi(m, keys) =>
      var picks := Picked(sigs, keys, m);
      PickedEmbeds(cx, sigs, keys, m);
      EmbeddedMatches(cx.good, picks, keys);
      MultiAccepts(cx, m, keys, picks);
  }

  /** How many of the keys have a signature. */
  function Signed(sigs: seq<PartialSig>, keys: seq<Item>): nat {
    if keys == [] then 0 else (if SigOf(sigs, keys[0]).Some? then 1 else 0) + Signed(sigs, keys[1..])
  }

  /** A multisig is satisfied exactly when enough of its keys have signed. */
  lemma {:induction false} SatisfiedWhenSigned(sigs: seq<PartialSig>, hash160: Item -> Item, m: nat, keys: seq<Item>)
    ensures Satisfied(sigs, hash160, Multi(m, keys)).Some? <==> Signed(sigs, keys) >= m
  {
    PickedCount(sigs, keys, m);
  }

  lemma {:induction false} PickedCount(sigs: seq<PartialSig>, keys: seq<Item>, m: nat)
    ensures |Picked(sigs, keys, m)| == if Signed(sigs, keys) < m then Signed(sigs, keys) else m
    decreases |keys|
  {
    hide SigOf;
    if keys != [] && m > 0 {
      PickedCount(sigs, keys[1..], if SigOf(sigs, keys[0]).Some? then m - 1 else m);
    }
  }
}
