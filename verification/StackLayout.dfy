/** What src/psbt/finalize.rs puts on a stack, by position: which signature stands where, and
    the bytes of the pushes and of the tapscripts it answers. */
module StackLayout {
  import opened Options
  import opened Bytes
  import opened Layout
  import opened Script
  import opened Templates
  import opened Satisfy
  import opened TapSatisfy
  import opened Finalize
  import opened Completeness
  import T = TapControl

  // ----- pushes and tapscripts -----

  /** A push: its length in the opcode, or after it in one, two or four bytes. */
  lemma {:induction false} PushByPosition(d: Item)
    requires |d| < U32
    ensures var s, n := PushBytes(d), |d|;
            if n <= 75 then s == [n as byte] + d
            else if n <= 0xff then s == [0x4c, n as byte] + d
            else if n <= 0xffff then |s| == 3 + n && s[0] == 0x4d && s[1] as nat + 0x100 * s[2] as nat == n && Holds(s, 3, d)
            else |s| == 5 + n && s[0] == 0x4e && Word4(s, 1) == n && Holds(s, 5, d)
  {
    hide Le, Word4;
    var s, n := PushBytes(d), |d|;
    if 0xff < n <= 0xffff {
      LeIsWord2(n);
      Cut(s, 0, [0x4d] + Le(n, 2), d);
      Cut(s, 3, d, []);
    } else if n > 0xffff {
      LeIsWord4(n);
      assert s == [0x4e] + (Le(n, 4) + d);
      Cut(s, 0, [0x4e], Le(n, 4) + d);
      Cut(s, 1, Le(n, 4), d);
      Cut(s, 5, d, []);
      Word4Within(s, 1, Le(n, 4), 0);
    }
  }

  /** A key and the opcode after it stand at `at`: a push of 32 bytes, and one byte more. */
  ghost predicate KeyOpAt(s: seq<byte>, at: nat, key: Item, op: byte) {
    at + 34 <= |s| && |key| == 32 && s[at] == 0x20 && Holds(s, at + 1, key) && s[at + 33] == op
  }

  lemma {:induction false} KeyAndRest(s: seq<byte>, key: Item, op: byte, rest: seq<byte>)
    requires |key| == 32 && s == PushBytes(key) + [op] + rest
    ensures |s| == 34 + |rest| && KeyOpAt(s, 0, key, op) && Holds(s, 34, rest)
  {
    assert PushBytes(key) == [0x20] + key;
    assert s == [0x20] + (key + ([op] + rest));
    Cut(s, 1, key, [op] + rest);
    Cut(s, 33, [op], rest);
    Cut(s, 34, rest, []);
  }

  lemma {:induction false} KeyOpWithin(s: seq<byte>, at: nat, piece: seq<byte>, off: nat, key: Item, op: byte)
    requires Holds(s, at, piece) && KeyOpAt(piece, off, key, op)
    ensures KeyOpAt(s, at + off, key, op)
  {
    HoldsWithin(s, at, piece, off + 1, key);
    assert s[at + (off + 33)] == piece[off + 33];
  }

  lemma {:induction false} KeyOpsFrom(keys: seq<Item>, first: bool)
    requires keys != [] && forall k :: 0 <= k < |keys| ==> |keys[k]| == 32
    ensures KeyOps(keys, first) == PushBytes(keys[0]) + [if first then 0xac else 0xba] + KeyOps(keys[1..], false)
  {
    hide PushBytes;
  }

  lemma {:induction false} KeyOpsAt(keys: seq<Item>, first: bool, i: nat)
    requires i < |keys| && forall k :: 0 <= k < |keys| ==> |keys[k]| == 32
    ensures KeyOpAt(KeyOps(keys, first), 34 * i, keys[i], if first && i == 0 then 0xac else 0xba)
  {
    hide PushBytes, Holds, KeyOpAt, KeyOps;
    var s, rest := KeyOps(keys, first), KeyOps(keys[1..], false);
    KeyOpsFrom(keys, first);
    KeyAndRest(s, keys[0], if first then 0xac else 0xba, rest);
    if i > 0 {
      KeyOpsAt(keys[1..], false, i - 1);
      KeyOpWithin(s, 34, rest, 34 * (i - 1), keys[i], 0xba);
    }
  }

  /** A tapscript of keys: each key checked, the first by CHECKSIG and the others by CHECKSIGADD, and
      at the end the threshold and NUMEQUAL, which a single key may go without. */
  lemma {:induction false} TapScriptByPosition(s: seq<byte>, t: TapKeys, i: nat)
    requires TapStandard(t) && IsTapScript(s, t) && i < |t.keys|
    ensures var n := |t.keys|;
            && KeyOpAt(s, 34 * i, t.keys[i], if i == 0 then 0xac else 0xba) && 34 * n <= |s|
            && (s[34 * n..] == (if t.m <= 16 then [(0x50 + t.m) as byte, 0x9c] else [1, t.m as byte, 0x9c])
                || (n == 1 && s[34..] == []))
  {
    hide KeyOps, KeyOpAt, Ending;
    var ops := KeyOps(t.keys, true);
    var op: byte := if i == 0 then 0xac else 0xba;
    KeyOpsAt(t.keys, true, i);
    if s == ops + Ending(t.m) {
      KeysThenTail(s, ops, Ending(t.m), 34 * i, t.keys[i], op);
      EndingIs(t.m);
    } else {
      assert ops + [] == ops;
      KeysThenTail(s, ops, [], 34 * i, t.keys[i], op);
    }
  }

  lemma {:induction false} EndingIs(m: nat)
    requires 1 <= m <= 18
    ensures Ending(m) == if m <= 16 then [(0x50 + m) as byte, 0x9c] else [1, m as byte, 0x9c]
  {
  }

  lemma {:induction false} KeysThenTail(s: seq<byte>, ops: seq<byte>, tail: seq<byte>, at: nat, key: Item, op: byte)
    requires s == ops + tail && KeyOpAt(ops, at, key, op)
    ensures KeyOpAt(s, at, key, op) && |ops| <= |s| && s[|ops|..] == tail
  {
    hide KeyOpAt;
    Cut(s, 0, ops, tail);
    KeyOpWithin(s, 0, ops, at, key, op);
  }

  // ----- signatures before taproot -----

  lemma {:induction false} PickAt(sigs: seq<PartialSig>, keys: seq<Item>, m: nat, i: nat)
    requires i < |keys| && HasSig(sigs, keys[i]) && Signed(sigs, keys[..i]) < m
    ensures Signed(sigs, keys[..i]) < |Picked(sigs, keys, m)|
    ensures (keys[i], Picked(sigs, keys, m)[Signed(sigs, keys[..i])]) in sigs
  {
    hide SigOf, HasSig;
    SigOfFinds(sigs, keys[0]);
    SigOfFinds(sigs, keys[i]);
    if i > 0 {
      assert keys[..i][1..] == keys[1..][..i - 1];
      PickAt(sigs, keys[1..], if SigOf(sigs, keys[0]).Some? then m - 1 else m, i - 1);
    }
  }

  /** The stack of each standard script: the signature and the key of a key hash, the signature of a
      key, and for a multisig an empty item and then the signatures of its first `m` keys that have
      one, in the order of the keys. */
  ghost predicate StackFor(sigs: seq<PartialSig>, hash160: Item -> Item, t: Template, st: seq<Item>) {
    match t
    case Pkh(hash) => |st| == 2 && (st[1], st[0]) in sigs && hash160(st[1]) == hash
    case Pk(key) => |st| == 1 && (key, st[0]) in sigs
    case Multi(m, keys) =>
      && |st| == m + 1 && st[0] == []
      && forall i :: 0 <= i < |keys| && HasSig(sigs, keys[i]) && |SignedAt(sigs, keys[..i])| < m ==>
           (keys[i], st[1 + |SignedAt(sigs, keys[..i])|]) in sigs
  }

  lemma {:induction false} SatisfiedByPosition(sigs: seq<PartialSig>, hash160: Item -> Item, t: Template)
    requires Satisfied(sigs, hash160, t).Some?
    ensures StackFor(sigs, hash160, t, Satisfied(sigs, hash160, t).value)
  {
    hide SigOf, KeyOfHash, Picked, SignedAt, HasSig, Signed;
    match t
    case Pkh(_) =>
    case Pk(_) =>
    case Multi(m, keys) =>
      var picks := Picked(sigs, keys, m);
      forall i | 0 <= i < |keys| && HasSig(sigs, keys[i]) && |SignedAt(sigs, keys[..i])| < m
        ensures (keys[i], ([[]] + picks)[1 + |SignedAt(sigs, keys[..i])|]) in sigs
      {
        SignedCounts(sigs, keys[..i]);
        PickAt(sigs, keys, m, i);
      }
  }

  /** A finalized input other than a key hash or taproot one: the stack of its script, in the scriptSig, or
      in the witness with the script on top. */
  lemma {:induction false} FinalByPosition(env: Env, psbt: seq<Spent>, index: nat, r: Resolved)
    requires index < |psbt| && Resolve(env, psbt[index].inp, psbt[index].spk) == Ok(r) && (r.kind.Legacy? || r.kind.P2wsh?)
    requires Built(env, psbt, index).Ok? && Built(env, psbt, index).value.Some?
    ensures var f, sigs := Built(env, psbt, index).value.value, psbt[index].inp.partialSigs;
            exists t, st ::
              && Standard(t) && r.kind.script == ScriptOf(t) && StackFor(sigs, env.hash160, t, st)
              && f == if r.kind.Legacy? then Final(st, r.redeem, []) else Final([], r.redeem, st + [ScriptOf(t)])
  {
    hide TemplateOf, Satisfied, ScriptOf, StackFor;
    var sigs, script := psbt[index].inp.partialSigs, r.kind.script;
    var t := TemplateOf(script).value;
    TemplateInvertsScript(script, t);
    SatisfiedByPosition(sigs, env.hash160, t);
  }

  // ----- tapscript witnesses -----

  lemma {:induction false} ChosenAt(sigs: seq<TapSig>, leafHash: Item, keys: seq<Item>, m: nat, i: nat)
    requires i < |keys|
    ensures Chosen(sigs, leafHash, keys, m)[i]
         == if TapSigned(sigs, leafHash, keys[..i]) < m && TapSigOf(sigs, leafHash, keys[i]).Some?
            then TapSigOf(sigs, leafHash, keys[i]).value else []
  {
    hide TapSigOf;
    if i > 0 {
      assert keys[..i][1..] == keys[1..][..i - 1];
      ChosenAt(sigs, leafHash, keys[1..], if m > 0 && TapSigOf(sigs, leafHash, keys[0]).Some? then m - 1 else m, i - 1);
    } else {
      assert keys[..0] == [];
    }
  }

  lemma {:induction false} RevItemsAt(s: seq<Item>, i: nat)
    requires i < |s|
    ensures RevItems(s)[|s| - 1 - i] == s[i]
  {
    if i > 0 {
      RevItemsAt(s[1..], i - 1);
    }
  }

  /** The witness of a leaf: the script and the control block on top, and below them an entry for each
      key, the first key's next to them: a signature of the leaf by that key, if fewer than `m` keys
      before it have signed, and otherwise nothing. */
  lemma {:induction false} LeafWitnessByPosition(out: TapSatisfy.Output, sigs: seq<TapSig>, leaf: TapLeafScript, i: nat)
    requires LeafWitness(out, sigs, leaf).Some?
    ensures exists t ::
              && CanSpendLeaf(out, sigs, leaf, t)
              && var w, n, leafHash := LeafWitness(out, sigs, leaf).value, |t.keys|, out.h.leaf(0xc0, leaf.script);
                 && |w| == n + 2 && w[n] == leaf.script && w[n + 1] == leaf.controlBlock
                 && (i < n ==>
                       if HasTapSig(sigs, leafHash, t.keys[i]) && |TapSignedAt(sigs, leafHash, t.keys[..i])| < t.m
                       then TapSig(t.keys[i], leafHash, w[n - 1 - i]) in sigs
                       else w[n - 1 - i] == [])
  {
    hide T.Parse, T.Verify, TapFrom, IsTapScript, Chosen, RevItems, TapSigOf, HasTapSig, TapSignedAt, TapSigned;
    var t := TapFrom(leaf.script, []).value;
    var leafHash := out.h.leaf(0xc0, leaf.script);
    TapTemplateInvertsScript(leaf.script, t);
    TapSignedCounts(sigs, leafHash, t.keys);
    assert CanSpendLeaf(out, sigs, leaf, t);
    if i < |t.keys| {
      ChosenAt(sigs, leafHash, t.keys, t.m, i);
      RevItemsAt(Chosen(sigs, leafHash, t.keys, t.m), i);
      TapSigOfFinds(sigs, leafHash, t.keys[i]);
      TapSignedCounts(sigs, leafHash, t.keys[..i]);
    }
  }
}
