/** Exactly which stacks the standard scripts accept, under the interpreter that judges what
    src/psbt/finalize.rs writes: so that accepting means what it should. */
module Acceptance {
  import opened Options
  import opened Bytes
  import opened Script
  import opened Templates
  import opened Satisfy
  import opened TapSatisfy
  import opened Finalize
  import T = TapControl

  // ----- signatures in the order of keys -----

  /** `at` gives each signature a key it is good for, in ascending order. */
  ghost predicate Assigns(good: (Item, Item) -> bool, sigs: seq<Item>, keys: seq<Item>, at: seq<nat>) {
    && |at| == |sigs| && (forall j :: 0 <= j < |at| ==> at[j] < |keys| && good(sigs[j], keys[at[j]]))
    && forall i, j :: 0 <= i < j < |at| ==> at[i] < at[j]
  }

  /** The greedy search from the last key on finds an assignment if there is one. */
  lemma {:induction false} MatchesExactly(good: (Item, Item) -> bool, sigs: seq<Item>, keys: seq<Item>)
    ensures Matches(good, sigs, keys) <==> exists at :: Assigns(good, sigs, keys, at)
    decreases |keys|
  {
    if sigs == [] {
      assert Assigns(good, sigs, keys, []);
    } else if keys == [] {
      forall at ensures !Assigns(good, sigs, keys, at) {
        NoKeys(good, sigs, at);
      }
    } else {
      var s, k := sigs[..|sigs| - 1], keys[..|keys| - 1];
      MatchesExactly(good, s, k);
      MatchesExactly(good, sigs, k);
      if Matches(good, sigs, keys) {
        if good(sigs[|sigs| - 1], keys[|keys| - 1]) {
          var at :| Assigns(good, s, k, at);
          LastAssigned(good, sigs, keys, at);
        } else {
          var at :| Assigns(good, sigs, k, at);
          assert Assigns(good, sigs, keys, at);
        }
      }
      if at :| Assigns(good, sigs, keys, at) {
        AssignedBefore(good, sigs, keys, at);
        if at[|at| - 1] < |keys| - 1 {
          assert Assigns(good, sigs, k, at);
        }
        assert Assigns(good, s, k, at[..|at| - 1]);
        EnoughKeys(good, sigs, keys, at);
      }
    }
  }

  lemma {:induction false} NoKeys(good: (Item, Item) -> bool, sigs: seq<Item>, at: seq<nat>)
    requires sigs != []
    ensures !Assigns(good, sigs, [], at)
  {
    var first := if at == [] then 0 else at[0];
  }

  lemma {:induction false} LastAssigned(good: (Item, Item) -> bool, sigs: seq<Item>, keys: seq<Item>, at: seq<nat>)
    requires sigs != [] && keys != [] && good(sigs[|sigs| - 1], keys[|keys| - 1])
    requires Assigns(good, sigs[..|sigs| - 1], keys[..|keys| - 1], at)
    ensures Assigns(good, sigs, keys, at + [|keys| - 1])
  {
  }

  lemma {:induction false} AssignedBefore(good: (Item, Item) -> bool, sigs: seq<Item>, keys: seq<Item>, at: seq<nat>)
    requires sigs != [] && keys != [] && Assigns(good, sigs, keys, at)
    ensures forall j :: 0 <= j < |at| - 1 ==> at[j] < |keys| - 1
  {
    var last := |at| - 1;
    assert at[last] < |keys|;
    assert forall j :: 0 <= j < last ==> at[j] < at[last];
  }

  lemma {:induction false} EnoughKeys(good: (Item, Item) -> bool, sigs: seq<Item>, keys: seq<Item>, at: seq<nat>)
    requires Assigns(good, sigs, keys, at)
    ensures |sigs| <= |keys|
    decreases |keys|
  {
    if sigs != [] {
      assert at[0] < |keys|;
      AssignedBefore(good, sigs, keys, at);
      EnoughKeys(good, sigs[..|sigs| - 1], keys[..|keys| - 1], at[..|at| - 1]);
    }
  }

  // ----- scripts before taproot -----

  /** What a stack must be for a standard script. */
  ghost predicate Opens(cx: Context, t: Template, st: Stack) {
    match t
    case Pkh(hash) => |st| == 2 && cx.hash160(st[1]) == hash && cx.good(st[0], st[1])
    case Pk(key) => |st| == 1 && cx.good(st[0], key)
    case Multi(m, keys) => |st| == m + 1 && st[0] == [] && exists at :: Assigns(cx.good, st[1..], keys, at)
  }

  /** CHECKSIG at the end of a script. */
  lemma {:induction false} LastSig(cx: Context, st: Stack, key: Item)
    requires !cx.tap
    ensures Exec(cx, [0xac] + [], st + [key]) == Some([YES]) <==> |st| == 1 && cx.good(st[0], key)
  {
    hide Exec;
    var full := st + [key];
    ExecCode(cx, 0xac, [], full);
    if st != [] {
      var ok := cx.good(st[|st| - 1], key);
      assert full[|full| - 2] == st[|st| - 1] && full[..|full| - 2] == st[..|st| - 1];
      ExecNothing(cx, st[..|st| - 1] + [Bool(ok)]);
      OneIsYes(st[..|st| - 1], ok);
    }
  }

  lemma {:induction false} OneIsYes(below: Stack, ok: bool)
    ensures below + [Bool(ok)] == [YES] <==> below == [] && ok
  {
    var full := below + [Bool(ok)];
    assert |full| == |below| + 1 && full[|below|] == Bool(ok);
    assert [YES][0] != [];
  }

  lemma {:induction false} PkExactly(cx: Context, key: Item, st: Stack)
    requires !cx.tap && KeySized(key)
    ensures Exec(cx, ScriptOf(Pk(key)), st) == Some([YES]) <==> Opens(cx, Pk(key), st)
  {
    hide Exec, PushBytes;
    var none: seq<byte> := [];
    assert ScriptOf(Pk(key)) == PushBytes(key) + ([0xac] + none);
    ExecPush(cx, key, [0xac] + none, st);
    LastSig(cx, st, key);
  }

  lemma {:induction false} PkhExactly(cx: Context, hash: Item, st: Stack)
    requires !cx.tap && |hash| == 20
    ensures Exec(cx, ScriptOf(Pkh(hash)), st) == Some([YES]) <==> Opens(cx, Pkh(hash), st)
  {
    hide Exec, PushBytes, Num, CheckMultisig;
    var none: seq<byte> := [];
    var end := [0x88] + ([0xac] + none);
    assert ScriptOf(Pkh(hash)) == [0x76] + ([0xa9] + (PushBytes(hash) + end));
    ExecCode(cx, 0x76, [0xa9] + (PushBytes(hash) + end), st);
    if st != [] {
      var key, h := st[|st| - 1], cx.hash160(st[|st| - 1]);
      var two := st + [key];
      ExecCode(cx, 0xa9, PushBytes(hash) + end, two);
      assert two[..|two| - 1] == st;
      ExecPush(cx, hash, end, st + [h]);
      var four := st + [h] + [hash];
      ExecCode(cx, 0x88, [0xac] + none, four);
      assert four[|four| - 2] == h && four[|four| - 1] == hash && four[..|four| - 2] == st;
      assert st == st[..|st| - 1] + [key];
      LastSig(cx, st[..|st| - 1], key);
    }
  }

  lemma {:induction false} MultisigExactly(cx: Context, m: nat, keys: seq<Item>, st: Stack)
    requires 1 <= m <= |keys| <= 16
    ensures CheckMultisig(cx, st + [[m as byte]] + keys + [[|keys| as byte]])
         == if |st| <= m || st[|st| - m - 1] != [] then None
            else Some(st[..|st| - m - 1] + [Bool(Matches(cx.good, st[|st| - m..], keys))])
  {
    hide Matches;
    var n := |keys|;
    var a := st + [[m as byte]] + keys;
    var full := a + [[n as byte]];
    assert Num([m as byte]) == Some(m) && Num([n as byte]) == Some(n);
    assert full[..|full| - 1] == a && full[|full| - 1] == [n as byte];
    assert a[|a| - n..] == keys && a[|a| - n - 1] == [m as byte] && a[..|a| - n - 1] == st;
  }

  lemma {:induction false} MultiExactly(cx: Context, m: nat, keys: seq<Item>, st: Stack)
    requires !cx.tap && Standard(Multi(m, keys))
    ensures Exec(cx, ScriptOf(Multi(m, keys)), st) == Some([YES]) <==> Opens(cx, Multi(m, keys), st)
  {
    hide Exec, Matches, CheckMultisig, KeyPushes, Assigns;
    var none: seq<byte> := [];
    var n := |keys|;
    var end := [(0x50 + n) as byte] + ([0xae] + none);
    assert ScriptOf(Multi(m, keys)) == [(0x50 + m) as byte] + (KeyPushes(keys) + end);
    ExecCode(cx, (0x50 + m) as byte, KeyPushes(keys) + end, st);
    ExecKeyPushes(cx, keys, end, st + [[m as byte]]);
    ExecCode(cx, (0x50 + n) as byte, [0xae] + none, st + [[m as byte]] + keys);
    ExecCode(cx, 0xae, none, st + [[m as byte]] + keys + [[n as byte]]);
    MultisigExactly(cx, m, keys, st);
    if |st| > m && st[|st| - m - 1] == [] {
      var ok := Matches(cx.good, st[|st| - m..], keys);
      ExecNothing(cx, st[..|st| - m - 1] + [Bool(ok)]);
      OneIsYes(st[..|st| - m - 1], ok);
      MatchesExactly(cx.good, st[|st| - m..], keys);
    }
  }

  /** A standard script leaves nothing but true of exactly the stacks that open it. */
  lemma {:induction false} ScriptAcceptsExactly(cx: Context, t: Template, st: Stack)
    requires !cx.tap && Standard(t)
    ensures Exec(cx, ScriptOf(t), st) == Some([YES]) <==> Opens(cx, t, st)
  {
    hide Exec, ScriptOf, Opens;
    match t
    case Pkh(hash) => PkhExactly(cx, hash, st);
    case Pk(key) => PkExactly(cx, key, st);
    case Multi(m, keys) => MultiExactly(cx, m, keys, st);
  }

  // ----- tapscripts -----

  /** The entry of key `i`, the first key's on top. */
  ghost predicate EntriesOk(cx: Context, keys: seq<Item>, st: Stack) {
    |st| >= |keys| && forall i :: 0 <= i < |keys| ==> st[|st| - 1 - i] == [] || cx.good(st[|st| - 1 - i], keys[i])
  }

  /** How many of the top `n` entries are not empty. */
  ghost function Filled(st: Stack, n: nat): (c: nat)
    requires n <= |st|
    ensures c <= n
  {
    if n == 0 then 0 else (if st[|st| - 1] != [] then 1 else 0) + Filled(st[..|st| - 1], n - 1)
  }

  lemma {:induction false} OneKey(cx: Context, key: Item, rest: seq<byte>, st: Stack, count: nat, first: bool)
    requires cx.tap && |key| == 32 && count < 100 && (first ==> count == 0)
    ensures Exec(cx, PushBytes(key) + [if first then 0xac else 0xba] + rest, st + if first then [] else [NumItem(count)])
         == if st == [] then None
            else
              var entry := st[|st| - 1];
              if entry != [] && !cx.good(entry, key) then None
              else Exec(cx, rest, st[..|st| - 1] + [NumItem(count + if entry == [] then 0 else 1)])
  {
    hide Exec, PushBytes, CheckMultisig;
    var op: byte := if first then 0xac else 0xba;
    var num: seq<Item> := if first then [] else [NumItem(count)];
    var s := st + num;
    Regroup(PushBytes(key), [op], rest);
    ExecPush(cx, key, [op] + rest, s);
    var full := s + [key];
    ExecCode(cx, op, rest, full);
    if st != [] {
      if first {
        assert full[|full| - 2] == st[|st| - 1] && full[..|full| - 2] == st[..|st| - 1];
      } else {
        assert full[|full| - 3] == st[|st| - 1] && full[|full| - 2] == NumItem(count) && full[..|full| - 3] == st[..|st| - 1];
      }
    }
  }

  lemma {:induction false} KeysExactly(cx: Context, keys: seq<Item>, rest: seq<byte>, st: Stack, count: nat, first: bool)
    requires cx.tap && Keys32(keys) && count + |keys| < 100 && (first ==> count == 0 && keys != [])
    ensures Exec(cx, KeyOps(keys, first) + rest, st + if first then [] else [NumItem(count)])
         == if !EntriesOk(cx, keys, st) then None
            else Exec(cx, rest, st[..|st| - |keys|] + [NumItem(count + Filled(st, |keys|))])
    decreases keys
  {
    hide Exec, PushBytes, NumItem;
    if keys == [] {
      assert [] + rest == rest && st[..|st|] == st;
    } else {
      var more := KeyOps(keys[1..], false) + rest;
      FirstKeyOps(keys, first);
      JoinOps(keys[0], first, KeyOps(keys[1..], false), rest);
      OneKey(cx, keys[0], more, st, count, first);
      if st != [] && (st[|st| - 1] == [] || cx.good(st[|st| - 1], keys[0])) {
        var below := st[..|st| - 1];
        KeysExactly(cx, keys[1..], rest, below, count + if st[|st| - 1] == [] then 0 else 1, false);
        EntriesBelow(cx, keys, st);
        if EntriesOk(cx, keys, st) {
          assert below[..|below| - (|keys| - 1)] == st[..|st| - |keys|];
        }
      } else if st != [] {
        assert st[|st| - 1 - 0] == st[|st| - 1];
      }
    }
  }

  lemma {:induction false} EntriesBelow(cx: Context, keys: seq<Item>, st: Stack)
    requires keys != [] && st != [] && (st[|st| - 1] == [] || cx.good(st[|st| - 1], keys[0]))
    ensures EntriesOk(cx, keys, st) <==> EntriesOk(cx, keys[1..], st[..|st| - 1])
  {
    var below := st[..|st| - 1];
    if EntriesOk(cx, keys[1..], below) {
      forall i | 0 <= i < |keys| ensures st[|st| - 1 - i] == [] || cx.good(st[|st| - 1 - i], keys[i]) {
        if i > 0 {
          assert below[|below| - 1 - (i - 1)] == st[|st| - 1 - i] && keys[1..][i - 1] == keys[i];
        }
      }
    }
    if EntriesOk(cx, keys, st) {
      forall i | 0 <= i < |keys| - 1
        ensures below[|below| - 1 - i] == [] || cx.good(below[|below| - 1 - i], keys[1..][i])
      {
        assert below[|below| - 1 - i] == st[|st| - 1 - (i + 1)] && keys[1..][i] == keys[i + 1];
      }
    }
  }

  lemma {:induction false} EndingExactly(cx: Context, m: nat, below: Stack, c: nat)
    requires 1 <= m <= 18 && c < 100
    ensures Exec(cx, Ending(m), below + [NumItem(c)]) == Some([YES]) <==> below == [] && c == m
  {
    hide Exec, PushBytes, CheckMultisig;
    var none: seq<byte> := [];
    var one := below + [NumItem(c)];
    var st := one + [[m as byte]];
    if m <= 16 {
      assert Ending(m) == [(0x50 + m) as byte] + ([0x9c] + none);
      ExecCode(cx, (0x50 + m) as byte, [0x9c] + none, one);
    } else {
      OneBytePush(m as byte);
      assert Ending(m) == PushBytes([m as byte]) + ([0x9c] + none);
      ExecPush(cx, [m as byte], [0x9c] + none, one);
    }
    assert Num([m as byte]) == Some(m);
    ExecCode(cx, 0x9c, none, st);
    assert st[|st| - 2] == NumItem(c) && st[..|st| - 2] == below;
    ExecNothing(cx, below + [Bool(c == m)]);
    OneIsYes(below, c == m);
  }

  /** A tapscript of keys leaves nothing but true of exactly the stacks with one entry for each key, the
      first key's on top, empty or good for it, and as many not empty as the threshold asks for. */
  lemma {:induction false} TapScriptAcceptsExactly(cx: Context, script: seq<byte>, t: TapKeys, st: Stack)
    requires cx.tap && TapStandard(t) && IsTapScript(script, t)
    ensures Exec(cx, script, st) == Some([YES]) <==>
              |st| == |t.keys| && EntriesOk(cx, t.keys, st) && Filled(st, |t.keys|) == t.m
  {
    hide Exec, KeyOps, Ending, Filled, EntriesOk;
    var n := |t.keys|;
    assert st + [] == st;
    if script == KeyOps(t.keys, true) + Ending(t.m) {
      KeysExactly(cx, t.keys, Ending(t.m), st, 0, true);
      if EntriesOk(cx, t.keys, st) {
        EntriesCount(cx, t.keys, st);
        EndingExactly(cx, t.m, st[..|st| - n], Filled(st, n));
      }
    } else {
      var none: seq<byte> := [];
      assert KeyOps(t.keys, true) + none == script;
      KeysExactly(cx, t.keys, none, st, 0, true);
      if EntriesOk(cx, t.keys, st) {
        EntriesCount(cx, t.keys, st);
        var below, c := st[..|st| - n], Filled(st, n);
        ExecNothing(cx, below + [NumItem(c)]);
        assert NumItem(c) == Bool(c == 1);
        OneIsYes(below, c == 1);
      }
    }
    if |st| == n && EntriesOk(cx, t.keys, st) {
      assert st[..0] == [];
    }
  }

  lemma {:induction false} EntriesCount(cx: Context, keys: seq<Item>, st: Stack)
    requires EntriesOk(cx, keys, st)
    ensures |st| >= |keys|
  {
  }

  // ----- outputs -----

  lemma {:induction false} NotNested(program: Item, version: byte)
    requires |program| == 20 || |program| == 32
    requires version == 0 || version == 0x51
    ensures var spk := [version, |program| as byte] + program;
            && !IsP2sh(spk) && IsWitnessProgram(spk) && Program(spk, version, |program| as byte) == Some(program)
            && Program(spk, 0x51 - version, 20) == None && Program(spk, 0x51 - version, 32) == None
            && Program(spk, version, if |program| == 20 then 32 else 20) == None
  {
    var spk := [version, |program| as byte] + program;
    assert spk[2..] == program;
  }

  lemma {:induction false} WitnessSpent(env: Env, program: Item, version: byte, scriptSig: seq<byte>, stack: seq<Item>)
    requires |program| == 20 || |program| == 32
    requires version == 0 || version == 0x51
    ensures var spk := [version, |program| as byte] + program;
            Spends(env, spk, scriptSig, stack) <==> scriptSig == [] && SpendsProgram(env, spk, stack, false)
  {
    hide Exec, SpendsProgram;
    NotNested(program, version);
    ExecNothing(ScriptContext(env), []);
  }

  /** A version 0 key hash is spent by exactly a signature and its key, of that hash, in the witness. */
  lemma {:induction false} KeyHashSpent(env: Env, hash: Item, scriptSig: seq<byte>, stack: seq<Item>)
    requires |hash| == 20
    ensures Spends(env, [0x00, 0x14] + hash, scriptSig, stack) <==>
              scriptSig == [] && |stack| == 2 && env.hash160(stack[1]) == hash && env.ecdsa(stack[0], stack[1])
  {
    hide Exec, Spends, ScriptOf;
    WitnessSpent(env, hash, 0, scriptSig, stack);
    NotNested(hash, 0);
    PkhExactly(ScriptContext(env), hash, stack);
  }

  /** A version 0 script hash, with a standard script on top of the witness: by exactly the stacks that
      open the script, if the hash is its hash. */
  lemma {:induction false} ScriptHashSpent(env: Env, hash: Item, t: Template, scriptSig: seq<byte>, st: Stack)
    requires |hash| == 32 && Standard(t)
    ensures Spends(env, [0x00, 0x20] + hash, scriptSig, st + [ScriptOf(t)]) <==>
              scriptSig == [] && env.sha256(ScriptOf(t)) == hash && Opens(ScriptContext(env), t, st)
  {
    hide Exec, Spends, ScriptOf, Opens;
    var stack := st + [ScriptOf(t)];
    WitnessSpent(env, hash, 0, scriptSig, stack);
    NotNested(hash, 0);
    assert stack[|stack| - 1] == ScriptOf(t) && stack[..|stack| - 1] == st;
    ScriptAcceptsExactly(ScriptContext(env), t, st);
  }

  /** A taproot output, by its key: by exactly one signature that is good for it. */
  lemma {:induction false} KeyPathSpent(env: Env, key: Item, scriptSig: seq<byte>, sig: Item)
    requires |key| == 32
    ensures Spends(env, [0x51, 0x20] + key, scriptSig, [sig]) <==> scriptSig == [] && env.keyPath(sig, key)
  {
    hide Exec, Spends, T.Parse, T.Verify;
    WitnessSpent(env, key, 0x51, scriptSig, [sig]);
    NotNested(key, 0x51);
  }

  /** A taproot output, by a tapscript of keys: exactly if the control block proves the script to be a
      leaf, and the stack has as many good signatures as it asks for, each in the place of its key. */
  lemma {:induction false} LeafSpent(env: Env, key: Item, script: Item, t: TapKeys, block: Item, scriptSig: seq<byte>, st: Stack)
    requires |key| == 32 && TapStandard(t) && IsTapScript(script, t)
    ensures Spends(env, [0x51, 0x20] + key, scriptSig, st + [script] + [block]) <==>
              var cx := TapContext(env, env.h.leaf(0xc0, script));
              && scriptSig == [] && block != [] && block[0] != 0x50
              && T.Parse(block).Ok? && T.Parse(block).value.leafVersion == 0xc0
              && T.Verify(env.h, env.tweak, T.Parse(block).value, script, key)
              && |st| == |t.keys| && EntriesOk(cx, t.keys, st) && Filled(st, |t.keys|) == t.m
  {
    hide Exec, Spends, T.Parse, T.Verify, EntriesOk, Filled, TapStandard, IsTapScript;
    var stack := st + [script] + [block];
    WitnessSpent(env, key, 0x51, scriptSig, stack);
    NotNested(key, 0x51);
    var n := |stack|;
    assert stack[n - 1] == block && stack[n - 2] == script && stack[..n - 2] == st;
    TapScriptAcceptsExactly(TapContext(env, env.h.leaf(0xc0, script)), script, t, st);
  }
}
