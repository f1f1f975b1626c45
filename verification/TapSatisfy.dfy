/** The taproot script path of src/psbt/finalize.rs: the witness of a multi_a leaf,
    and that the leaf accepts it. */
module TapSatisfy {
  import opened Options
  import opened Bytes
  import opened Script
  import opened Templates
  import opened Satisfy
  import T = TapControl
  import Tree = TapTree

  const TAPSCRIPT_LEAF_VERSION: byte := 0xc0

  datatype TapLeafScript = TapLeafScript(controlBlock: Item, script: Item, leafVersion: byte)

  /** An x-only key, a leaf hash, and the signature for them. */
  datatype TapSig = TapSig(key: Item, leafHash: Item, sig: Item)

  /** The commitments of a taproot output: its key, and how keys are tweaked. */
  datatype Output = Output(h: Tree.Hasher, tweak: T.Tweak, key: Item)

  function TapSigOf(sigs: seq<TapSig>, leafHash: Item, key: Item): (sig: Option<Item>)
    ensures sig.Some? ==> TapSig(key, leafHash, sig.value) in sigs
  {
    if sigs == [] then None
    else if sigs[0].key == key && sigs[0].leafHash == leafHash then Some(sigs[0].sig)
    else TapSigOf(sigs[1..], leafHash, key)
  }

  /** One entry for each key: the signatures of the first `m` keys that have one, and
      empty for the others. */
  function Chosen(sigs: seq<TapSig>, leafHash: Item, keys: seq<Item>, m: nat): (entries: seq<Item>)
    ensures |entries| == |keys|
  {
    if keys == [] then []
    else
      var sig := TapSigOf(sigs, leafHash, keys[0]);
      if m > 0 && sig.Some? then [sig.value] + Chosen(sigs, leafHash, keys[1..], m - 1)
      else [[]] + Chosen(sigs, leafHash, keys[1..], m)
  }

  /** How many of the keys have signed. */
  function TapSigned(sigs: seq<TapSig>, leafHash: Item, keys: seq<Item>): nat {
    if keys == [] then 0
    else (if TapSigOf(sigs, leafHash, keys[0]).Some? then 1 else 0) + TapSigned(sigs, leafHash, keys[1..])
  }

  function RevItems(s: seq<Item>): (r: seq<Item>)
    ensures |r| == |s|
  {
    if s == [] then [] else RevItems(s[1..]) + [s[0]]
  }

  // ----- the witness of a leaf -----

  /** Whether a leaf is a tapscript with a template, and part of the output. */
  function Usable(out: Output, leaf: TapLeafScript): Option<TapKeys> {
    var t, block := TapFrom(leaf.script, []), T.Parse(leaf.controlBlock);
    if leaf.leafVersion == TAPSCRIPT_LEAF_VERSION && t.Some? && block.Ok?
       && block.value.leafVersion == leaf.leafVersion && T.Verify(out.h, out.tweak, block.value, leaf.script, out.key)
    then t else None
  }

  /** The witness of a leaf, if enough of its keys have signed. */
  function LeafWitness(out: Output, sigs: seq<TapSig>, leaf: TapLeafScript): Option<seq<Item>> {
    var t := Usable(out, leaf);
    if t.None? then None
    else
      var leafHash := out.h.leaf(leaf.leafVersion, leaf.script);
      if TapSigned(sigs, leafHash, t.value.keys) < t.value.m then None
      else Some(RevItems(Chosen(sigs, leafHash, t.value.keys, t.value.m)) + [leaf.script, leaf.controlBlock])
  }

  /** The best witness so far, of a leaf with a control block this long. */
  datatype Best = Best(len: nat, stack: seq<Item>)

  /** What the loop of `tap_script_witness` makes of one more leaf. */
  function Better(out: Output, sigs: seq<TapSig>, best: Option<Best>, leaf: TapLeafScript): Option<Best> {
    if best.Some? && best.value.len <= |leaf.controlBlock| then best
    else
      var w := LeafWitness(out, sigs, leaf);
      if w.None? then best else Some(Best(|leaf.controlBlock|, w.value))
  }

  function BestOf(out: Output, sigs: seq<TapSig>, leaves: seq<TapLeafScript>): Option<Best> {
    if leaves == [] then None
    else Better(out, sigs, BestOf(out, sigs, leaves[..|leaves| - 1]), leaves[|leaves| - 1])
  }

  /** The two loops over the keys: who signs, and the entries, the last key's first. */
  method PushChosen(st: Builder, sigs: seq<TapSig>, leafHash: Item, keys: seq<Item>, m: nat) returns (enough: bool)
    requires st.Valid() && st.len == 0 && |keys| <= 18
    modifies st, st.items
    ensures st.Valid() && enough == (TapSigned(sigs, leafHash, keys) >= m)
    ensures enough ==> st.Contents() == RevItems(Chosen(sigs, leafHash, keys, m))
  {
    hide TapSigOf, RevItems;
    var used: seq<bool>, count := [], 0;
    ghost var all := Chosen(sigs, leafHash, keys, m);
    assert keys[0..] == keys && all[0..] == all;
    for i := 0 to |keys|
      invariant st.Valid() && st.len == 0 && |used| == i && 0 <= count <= m
      invariant count + TapSigned(sigs, leafHash, keys[i..]) == TapSigned(sigs, leafHash, keys)
                || (count == m && TapSigned(sigs, leafHash, keys) >= m)
      invariant all[i..] == Chosen(sigs, leafHash, keys[i..], m - count)
      invariant forall j :: 0 <= j < i ==> all[j] == Entry(sigs, leafHash, keys[j], used[j])
    {
      assert keys[i..][1..] == keys[i + 1..] && all[i..][1..] == all[i + 1..] && all[i] == all[i..][0];
      var signs := count < m && TapSigOf(sigs, leafHash, keys[i]).Some?;
      used := used + [signs];
      count := count + if signs then 1 else 0;
    }
    if count < m {
      return false;
    }
    assert all[|keys|..] == [];
    RevNothing();
    for i := |keys| downto 0
      invariant st.Valid() && st.len == |keys| - i && st.Contents() == RevItems(all[i..])
    {
      RevOneMore(all, i);
      st.Push(Entry(sigs, leafHash, keys[i], used[i]));
    }
    enough := true;
  }

  function Entry(sigs: seq<TapSig>, leafHash: Item, key: Item, used: bool): Item {
    if used && TapSigOf(sigs, leafHash, key).Some? then TapSigOf(sigs, leafHash, key).value else []
  }

  lemma {:induction false} RevNothing()
    ensures RevItems([]) == []
  {
  }

  lemma {:induction false} RevOneMore(s: seq<Item>, i: nat)
    requires i < |s|
    ensures RevItems(s[i..]) == RevItems(s[i + 1..]) + [s[i]]
  {
    assert s[i..][1..] == s[i + 1..];
  }

  /** The body of the loop of `tap_script_witness`. */
  method TryLeaf(out: Output, sigs: seq<TapSig>, leaf: TapLeafScript) returns (w: Option<seq<Item>>)
    ensures w == LeafWitness(out, sigs, leaf)
    ensures w.Some? ==> |w.value| <= 20
  {
    hide TapFrom, T.Parse, T.Verify, TapSigned, Chosen, RevItems;
    if leaf.leafVersion != TAPSCRIPT_LEAF_VERSION {
      return None;
    }
    var t := ReadTapTemplate(leaf.script);
    if t.None? {
      return None;
    }
    var block := T.Parse(leaf.controlBlock);
    if block.Err? {
      return None;
    }
    if block.value.leafVersion != leaf.leafVersion || !T.Verify(out.h, out.tweak, block.value, leaf.script, out.key) {
      return None;
    }
    TapTemplateInvertsScript(leaf.script, t.value);
    var TapKeys(m, keys) := t.value;
    var st := new Builder();
    var enough := PushChosen(st, sigs, out.h.leaf(leaf.leafVersion, leaf.script), keys, m);
    if !enough {
      return None;
    }
    st.Push(leaf.script);
    st.Push(leaf.controlBlock);
    assert st.Contents() == RevItems(Chosen(sigs, out.h.leaf(leaf.leafVersion, leaf.script), keys, m)) + [leaf.script, leaf.controlBlock];
    w := Some(st.items[..st.len]);
  }

  /** `tap_script_witness`. */
  method TapScriptWitness(out: Output, sigs: seq<TapSig>, leaves: seq<TapLeafScript>) returns (best: Option<Best>)
    ensures best == BestOf(out, sigs, leaves)
  {
    hide LeafWitness;
    best := None;
    for i := 0 to |leaves|
      invariant best == BestOf(out, sigs, leaves[..i])
    {
      var leaf := leaves[i];
      assert leaves[..i + 1][..i] == leaves[..i];
      if best.None? || best.value.len > |leaf.controlBlock| {
        var w := TryLeaf(out, sigs, leaf);
        if w.Some? {
          best := Some(Best(|leaf.controlBlock|, w.value));
        }
      }
    }
    assert leaves[..|leaves|] == leaves;
  }

  /** Leaf `k` is the first of those with a witness and the shortest control block, and
      `best` is its witness. */
  ghost predicate IsBest(out: Output, sigs: seq<TapSig>, leaves: seq<TapLeafScript>, best: Best, k: nat) {
    && k < |leaves|
    && best.len == |leaves[k].controlBlock|
    && LeafWitness(out, sigs, leaves[k]) == Some(best.stack)
    && forall j :: 0 <= j < |leaves| && LeafWitness(out, sigs, leaves[j]).Some? ==>
         best.len < |leaves[j].controlBlock| || (k <= j && best.len == |leaves[j].controlBlock|)
  }

  /** The witness chosen is the best, and there is none only if no leaf has one. */
  lemma {:induction false} BestIsShortest(out: Output, sigs: seq<TapSig>, leaves: seq<TapLeafScript>)
    ensures BestOf(out, sigs, leaves).None? ==> forall leaf :: leaf in leaves ==> LeafWitness(out, sigs, leaf).None?
    ensures BestOf(out, sigs, leaves).Some? ==> exists k: nat :: IsBest(out, sigs, leaves, BestOf(out, sigs, leaves).value, k)
  {
    hide LeafWitness, IsBest;
    if leaves != [] {
      var n: nat := |leaves| - 1;
      var rest := leaves[..n];
      assert leaves == rest + [leaves[n]];
      BestIsShortest(out, sigs, rest);
      var best, was := BestOf(out, sigs, leaves), BestOf(out, sigs, rest);
      if was.Some? {
        var k: nat :| IsBest(out, sigs, rest, was.value, k);
        OneMoreLeaf(out, sigs, rest, leaves[n], was.value, k);
      } else if best.Some? {
        FirstWitness(out, sigs, rest, leaves[n], best.value);
      }
    }
  }

  lemma {:induction false} OneMoreLeaf(out: Output, sigs: seq<TapSig>, rest: seq<TapLeafScript>, leaf: TapLeafScript, was: Best, k: nat)
    requires IsBest(out, sigs, rest, was, k)
    ensures var w, len := LeafWitness(out, sigs, leaf), |leaf.controlBlock|;
            if was.len > len && w.Some? then IsBest(out, sigs, rest + [leaf], Best(len, w.value), |rest|)
            else IsBest(out, sigs, rest + [leaf], was, k)
  {
    hide LeafWitness;
  }

  lemma {:induction false} FirstWitness(out: Output, sigs: seq<TapSig>, rest: seq<TapLeafScript>, leaf: TapLeafScript, best: Best)
    requires forall l :: l in rest ==> LeafWitness(out, sigs, l).None?
    requires LeafWitness(out, sigs, leaf) == Some(best.stack) && best.len == |leaf.controlBlock|
    ensures IsBest(out, sigs, rest + [leaf], best, |rest|)
  {
    hide LeafWitness;
  }

  // ----- the leaf accepts its witness -----

  /** A context in which the signatures stored for a leaf are good, and none is empty. */
  ghost predicate TapGood(cx: Context, sigs: seq<TapSig>, leafHash: Item) {
    cx.tap && forall s :: s in sigs && s.leafHash == leafHash ==> s.sig != [] && cx.good(s.sig, s.key)
  }

  /** Each entry is empty, or good for its key. */
  ghost predicate Aligned(cx: Context, entries: seq<Item>, keys: seq<Item>) {
    |entries| == |keys| && forall i :: 0 <= i < |keys| ==> entries[i] == [] || cx.good(entries[i], keys[i])
  }

  function Nonempty(entries: seq<Item>): (n: nat)
    ensures n <= |entries|
  {
    if entries == [] then 0 else (if entries[0] != [] then 1 else 0) + Nonempty(entries[1..])
  }

  /** Exactly `m` entries are signatures, each in the place of its key. */
  lemma {:induction false} ChosenAligned(cx: Context, sigs: seq<TapSig>, leafHash: Item, keys: seq<Item>, m: nat)
    requires TapGood(cx, sigs, leafHash)
    ensures var entries := Chosen(sigs, leafHash, keys, m);
            && Aligned(cx, entries, keys)
            && Nonempty(entries) == if TapSigned(sigs, leafHash, keys) < m then TapSigned(sigs, leafHash, keys) else m
    decreases keys
  {
    hide TapSigOf;
    if keys != [] {
      var sig := TapSigOf(sigs, leafHash, keys[0]);
      ChosenAligned(cx, sigs, leafHash, keys[1..], if m > 0 && sig.Some? then m - 1 else m);
    }
  }

  /** One key, and the opcode after it. */
  lemma {:induction false} ExecKey(cx: Context, key: Item, entry: Item, rest: seq<byte>, below: Stack, count: nat, first: bool)
    requires cx.tap && |key| == 32 && count < 100 && (first ==> count == 0) && (entry == [] || cx.good(entry, key))
    ensures Exec(cx, PushBytes(key) + [if first then 0xac else 0xba] + rest,
                 below + [entry] + if first then [] else [NumItem(count)])
         == Exec(cx, rest, below + [NumItem(count + if entry == [] then 0 else 1)])
  {
    hide Exec, PushBytes;
    var op: byte := if first then 0xac else 0xba;
    var num: seq<Item> := if first then [] else [NumItem(count)];
    var st := below + [entry] + num;
    assert PushBytes(key) + [op] + rest == PushBytes(key) + ([op] + rest);
    ExecPush(cx, key, [op] + rest, st);
    ExecCode(cx, op, rest, st + [key]);
    var full := st + [key];
    assert full[..|below|] == below;
    if first {
      assert full[|full| - 2] == entry && full[|full| - 1] == key && |below| == |full| - 2;
    } else {
      assert full[|full| - 3] == entry && full[|full| - 2] == NumItem(count) && full[|full| - 1] == key && |below| == |full| - 3;
    }
  }

  lemma {:induction false} ExecKeys(cx: Context, keys: seq<Item>, entries: seq<Item>, rest: seq<byte>, count: nat, first: bool)
    requires cx.tap && Keys32(keys) && Aligned(cx, entries, keys) && count + |keys| < 100 && (first ==> count == 0 && keys != [])
    ensures Exec(cx, KeyOps(keys, first) + rest, RevItems(entries) + if first then [] else [NumItem(count)])
         == Exec(cx, rest, [NumItem(count + Nonempty(entries))])
    decreases keys
  {
    hide Exec, PushBytes, NumItem;
    if keys == [] {
      assert [] + rest == rest;
      var none: seq<Item> := [];
      assert RevItems(entries) + [NumItem(count)] == none + [NumItem(count)] == [NumItem(count)];
    } else {
      var below, num := RevItems(entries[1..]), if first then [] else [NumItem(count)];
      var more := KeyOps(keys[1..], false) + rest;
      var op: byte := if first then 0xac else 0xba;
      FirstKeyOps(keys, first);
      assert KeyOps(keys, first) + rest == PushBytes(keys[0]) + [op] + more by {
        JoinOps(keys[0], first, KeyOps(keys[1..], false), rest);
      }
      ExecKey(cx, keys[0], entries[0], more, below, count, first);
      ExecKeys(cx, keys[1..], entries[1..], rest, count + if entries[0] == [] then 0 else 1, false);
    }
  }

  lemma {:induction false} ExecEnding(cx: Context, m: nat)
    requires 1 <= m <= 18
    ensures Exec(cx, Ending(m), [NumItem(m)]) == Some([YES])
  {
    hide Exec, PushBytes, CheckMultisig;
    var none: seq<byte> := [];
    var st := [NumItem(m)] + [[m as byte]];
    if m <= 16 {
      assert Ending(m) == [(0x50 + m) as byte] + ([0x9c] + none);
      ExecCode(cx, (0x50 + m) as byte, [0x9c] + none, [NumItem(m)]);
    } else {
      OneBytePush(m as byte);
      assert Ending(m) == PushBytes([m as byte]) + ([0x9c] + none);
      ExecPush(cx, [m as byte], [0x9c] + none, [NumItem(m)]);
    }
    assert Num([m as byte]) == Some(m);
    ExecCode(cx, 0x9c, none, st);
    assert st[..0] + [YES] == [YES];
    ExecNothing(cx, [YES]);
  }

  lemma {:induction false} OneBytePush(b: byte)
    ensures PushBytes([b]) == [1, b]
  {
  }

  /** A multi_a script accepts entries in the places of its keys of which exactly the
      threshold are signatures. */
  lemma {:induction false} TapScriptAccepts(cx: Context, script: seq<byte>, t: TapKeys, entries: seq<Item>)
    requires cx.tap && TapStandard(t) && IsTapScript(script, t) && Aligned(cx, entries, t.keys) && Nonempty(entries) == t.m
    ensures Exec(cx, script, RevItems(entries)) == Some([YES])
  {
    hide Exec, KeyOps, Ending, RevItems;
    assert RevItems(entries) + [] == RevItems(entries);
    ExecKeys(cx, t.keys, entries, Ending(t.m), 0, true);
    ExecEnding(cx, t.m);
    if |t.keys| == 1 && script == KeyOps(t.keys, true) {
      var none: seq<byte> := [];
      ExecKeys(cx, t.keys, entries, none, 0, true);
      assert KeyOps(t.keys, true) + none == script;
      ExecNothing(cx, [NumItem(1)]);
    }
  }

  /** The leaf of a witness accepts it. */
  lemma {:induction false} LeafAccepts(cx: Context, out: Output, sigs: seq<TapSig>, leaf: TapLeafScript)
    requires LeafWitness(out, sigs, leaf).Some? && TapGood(cx, sigs, out.h.leaf(leaf.leafVersion, leaf.script))
    ensures var w := LeafWitness(out, sigs, leaf).value;
            && |w| >= 3 && w[|w| - 1] == leaf.controlBlock && w[|w| - 2] == leaf.script
            && Exec(cx, leaf.script, w[..|w| - 2]) == Some([YES])
  {
    hide TapFrom, T.Parse, T.Verify, Chosen, TapSigned, Nonempty, Exec, RevItems;
    var leafHash := out.h.leaf(leaf.leafVersion, leaf.script);
    var t := Usable(out, leaf).value;
    var entries := Chosen(sigs, leafHash, t.keys, t.m);
    var w := LeafWitness(out, sigs, leaf).value;
    TapTemplateInvertsScript(leaf.script, t);
    ChosenAligned(cx, sigs, leafHash, t.keys, t.m);
    TapScriptAccepts(cx, leaf.script, t, entries);
    assert w[..|w| - 2] == RevItems(entries);
  }
}
