/** The script templates of src/psbt/finalize.rs: which scripts they are read from,
    and what those scripts do. */
module Templates {
  import opened Options
  import opened Bytes
  import opened Script

  // ----- single keys and multisig -----

  datatype Template = Pkh(hash: Item) | Pk(key: Item) | Multi(m: nat, keys: seq<Item>)

  predicate KeySized(k: Item) {
    |k| == 33 || |k| == 65
  }

  /** Direct pushes, one after another. */
  function KeyPushes(keys: seq<Item>): (s: seq<byte>)
    requires forall i :: 0 <= i < |keys| ==> KeySized(keys[i])
  {
    if keys == [] then []
    else
      assert KeySized(keys[0]);
      PushBytes(keys[0]) + KeyPushes(keys[1..])
  }

  ghost predicate Standard(t: Template) {
    match t
    case Pkh(hash) => |hash| == 20
    case Pk(key) => KeySized(key)
    case Multi(m, keys) => 1 <= m <= |keys| <= 16 && forall i :: 0 <= i < |keys| ==> KeySized(keys[i])
  }

  /** The script of a template. */
  function ScriptOf(t: Template): seq<byte>
    requires Standard(t)
  {
    match t
    case Pkh(hash) => [0x76, 0xa9] + PushBytes(hash) + [0x88, 0xac]
    case Pk(key) => PushBytes(key) + [0xac]
    case Multi(m, keys) => [(0x50 + m) as byte] + KeyPushes(keys) + [(0x50 + |keys|) as byte, 0xae]
  }

  /** `for_each_push`: what a script pushes, up to malformed data. */
  function PushesIn(s: seq<byte>): seq<Item>
    decreases |s|
  {
    if s == [] then []
    else if 1 <= s[0] <= 0x4e then
      var push := ParsePush(s);
      if push.None? then [] else [push.value.0] + PushesIn(push.value.1)
    else PushesIn(s[1..])
  }

  /** The bytes that direct pushes of `keys` take. */
  function Used(keys: seq<Item>): nat {
    if keys == [] then 0 else 1 + |keys[0]| + Used(keys[1..])
  }

  predicate AllKeySized(keys: seq<Item>) {
    forall i :: 0 <= i < |keys| ==> KeySized(keys[i])
  }

  function MultiOf(m: nat, n: nat, body: seq<byte>): Option<Template> {
    var keys := PushesIn(body);
    if AllKeySized(keys) && |keys| <= 16 && Used(keys) == |body| && |keys| == n && m <= n then Some(Multi(m, keys)) else None
  }

  /** What `template` reads from a script. */
  function TemplateOf(s: seq<byte>): Option<Template> {
    var n := |s|;
    if n == 25 && s[..3] == [0x76, 0xa9, 0x14] && s[23..] == [0x88, 0xac] then Some(Pkh(s[3..23]))
    else if n == 35 && s[0] == 0x21 && s[34] == 0xac then Some(Pk(s[1..34]))
    else if n == 67 && s[0] == 0x41 && s[66] == 0xac then Some(Pk(s[1..66]))
    else if n >= 3 && 0x51 <= s[0] <= 0x60 && 0x51 <= s[n - 2] <= 0x60 && s[n - 1] == 0xae then
      MultiOf((s[0] - 0x50) as nat, (s[n - 2] - 0x50) as nat, s[1..n - 2])
    else None
  }

  /** The callback of `template`, over the pushes of the body. */
  method CollectKeys(body: seq<byte>) returns (keys: seq<Item>, used: nat, ok: bool)
    ensures ok <==> AllKeySized(PushesIn(body)) && |PushesIn(body)| <= 16
    ensures ok ==> keys == PushesIn(body) && used == Used(keys)
  {
    hide ParsePush;
    keys, used, ok := [], 0, true;
    var rest := body;
    ghost var all := PushesIn(body);
    while rest != []
      invariant ok ==> keys + PushesIn(rest) == all && AllKeySized(keys) && |keys| <= 16 && used == Used(keys)
      invariant !ok ==> !(AllKeySized(all) && |all| <= 16)
      decreases |rest|
    {
      if 1 <= rest[0] <= 0x4e {
        var push := ParsePush(rest);
        if push.None? {
          assert keys + [] == keys;
          return;
        }
        var k := push.value.0;
        if KeySized(k) && |keys| < 16 {
          assert keys + ([k] + PushesIn(push.value.1)) == (keys + [k]) + PushesIn(push.value.1);
          UsedAppend(keys, k);
          keys := keys + [k];
          used := used + 1 + |k|;
        } else {
          assert ok ==> all[|keys|] == k;
          ok := false;
        }
        rest := push.value.1;
      } else {
        rest := rest[1..];
      }
    }
    assert keys + [] == keys;
  }

  lemma {:induction false} UsedAppend(keys: seq<Item>, k: Item)
    ensures Used(keys + [k]) == Used(keys) + 1 + |k|
  {
    if keys != [] {
      assert (keys + [k])[1..] == keys[1..] + [k];
      UsedAppend(keys[1..], k);
    }
  }

  /** `template`. */
  method ReadTemplate(s: seq<byte>) returns (t: Option<Template>)
    ensures t == TemplateOf(s)
  {
    hide PushesIn, Used;
    var n := |s|;
    if n == 25 && s[..3] == [0x76, 0xa9, 0x14] && s[23..] == [0x88, 0xac] {
      return Some(Pkh(s[3..23]));
    } else if n == 35 && s[0] == 0x21 && s[34] == 0xac {
      return Some(Pk(s[1..34]));
    } else if n == 67 && s[0] == 0x41 && s[66] == 0xac {
      return Some(Pk(s[1..66]));
    } else if n >= 3 && 0x51 <= s[0] <= 0x60 && 0x51 <= s[n - 2] <= 0x60 && s[n - 1] == 0xae {
      var m, k := (s[0] - 0x50) as nat, (s[n - 2] - 0x50) as nat;
      var keys, used, ok := CollectKeys(s[1..n - 2]);
      if ok && used == n - 3 && |keys| == k && m <= k {
        return Some(Multi(m, keys));
      }
    }
    t := None;
  }

  // ----- a template is read from its script, and no other -----

  lemma {:induction false} KeyPush(k: Item)
    requires KeySized(k)
    ensures PushBytes(k) == [|k| as byte] + k
  {
  }

  /** Pushes take up a script only if they are direct, and all there is. */
  lemma {:induction false} DirectPushes(s: seq<byte>)
    ensures Used(PushesIn(s)) <= |s|
    ensures AllKeySized(PushesIn(s)) && Used(PushesIn(s)) == |s| ==> s == KeyPushes(PushesIn(s))
    decreases |s|
  {
    if s != [] {
      if 1 <= s[0] <= 0x4e {
        var push := ParsePush(s);
        if push.Some? {
          var (k, rest) := push.value;
          DirectPushes(rest);
          FirstPush(s);
        }
      } else {
        DirectPushes(s[1..]);
      }
    }
  }

  lemma {:induction false} FirstPush(s: seq<byte>)
    requires ParsePush(s).Some?
    ensures var (k, rest) := ParsePush(s).value;
            1 + |k| + |rest| <= |s| && (1 + |k| + |rest| == |s| && KeySized(k) ==> s == PushBytes(k) + rest)
  {
    hide LeValue;
    var (k, rest) := ParsePush(s).value;
    if s[0] <= 75 {
      assert s[..1] == [s[0]];
    }
  }

  lemma {:induction false} PushesOfKeys(keys: seq<Item>)
    requires AllKeySized(keys)
    ensures PushesIn(KeyPushes(keys)) == keys && Used(keys) == |KeyPushes(keys)|
  {
    hide ParsePush, PushBytes;
    if keys != [] {
      var k := keys[0];
      PushesOfKeys(keys[1..]);
      KeyPush(k);
      PushReadsBack(k, KeyPushes(keys[1..]));
      assert keys == [k] + keys[1..];
    }
  }

  lemma {:induction false} ReadsOnlyOwnMulti(s: seq<byte>)
    requires TemplateOf(s).Some? && TemplateOf(s).value.Multi?
    ensures Standard(TemplateOf(s).value) && s == ScriptOf(TemplateOf(s).value)
  {
    hide PushesIn, Used, KeyPushes;
    var n := |s|;
    var body := s[1..n - 2];
    DirectPushes(body);
    assert s == [s[0]] + body + [s[n - 2], s[n - 1]];
  }

  lemma {:induction false} ReadsOnlyOwnSingle(s: seq<byte>)
    requires TemplateOf(s).Some? && !TemplateOf(s).value.Multi?
    ensures Standard(TemplateOf(s).value) && s == ScriptOf(TemplateOf(s).value)
  {
    hide PushesIn, Used;
    var n := |s|;
    match TemplateOf(s).value
    case Pkh(hash) =>
      assert s == s[..3] + hash + s[23..];
      assert s == [0x76, 0xa9] + ([0x14] + hash) + [0x88, 0xac];
    case Pk(key) =>
      assert s == [s[0]] + key + [s[n - 1]];
  }

  lemma {:induction false} ReadsOwn(t: Template)
    requires Standard(t)
    ensures TemplateOf(ScriptOf(t)) == Some(t)
  {
    hide PushesIn, Used, KeyPushes;
    var s := ScriptOf(t);
    match t
    case Pkh(hash) =>
      assert s[..3] == [0x76, 0xa9, 0x14] && s[3..23] == hash && s[23..] == [0x88, 0xac];
    case Pk(key) =>
      assert s[0] == |key| as byte && s[1..1 + |key|] == key;
    case Multi(m, keys) =>
      PushesOfKeys(keys);
      assert s[1..|s| - 2] == KeyPushes(keys);
  }

  /** `template` recognises exactly the scripts of the standard templates. */
  lemma {:induction false} TemplateInvertsScript(s: seq<byte>, t: Template)
    ensures TemplateOf(s) == Some(t) <==> Standard(t) && s == ScriptOf(t)
  {
    hide TemplateOf, ScriptOf;
    if TemplateOf(s) == Some(t) {
      if t.Multi? {
        ReadsOnlyOwnMulti(s);
      } else {
        ReadsOnlyOwnSingle(s);
      }
    }
    if Standard(t) && s == ScriptOf(t) {
      ReadsOwn(t);
    }
  }

  // ----- tapscript -----

  /** How a multi_a script ends: the threshold, after keys enough. */
  function Threshold(tail: seq<byte>, keys: nat): Option<nat> {
    if tail == [] && keys == 1 then Some(1)
    else if |tail| == 2 && 0x51 <= tail[0] <= 0x60 && tail[1] == 0x9c then Some((tail[0] - 0x50) as nat)
    else if |tail| == 3 && tail[0] == 1 && 17 <= tail[1] <= 0x7f && tail[2] == 0x9c then Some(tail[1] as nat)
    else None
  }

  datatype TapKeys = TapKeys(m: nat, keys: seq<Item>)

  /** What the loop of `tap_template` makes of the rest of a script. */
  function TapFrom(rest: seq<byte>, keys: seq<Item>): Option<TapKeys>
    decreases |rest|
  {
    if |rest| < 34 || rest[0] != 0x20 || rest[33] != (if keys == [] then 0xac else 0xba) || |keys| == 18 then None
    else
      var more, tail := keys + [rest[1..33]], rest[34..];
      var m := Threshold(tail, |more|);
      if m.None? then TapFrom(tail, more)
      else if 1 <= m.value <= |more| then Some(TapKeys(m.value, more))
      else None
  }

  /** `tap_template`. */
  method ReadTapTemplate(script: seq<byte>) returns (t: Option<TapKeys>)
    ensures t == TapFrom(script, [])
  {
    hide Threshold;
    var keys: seq<Item>, rest := [], script;
    while true
      invariant TapFrom(rest, keys) == TapFrom(script, [])
      decreases |rest|
    {
      if rest == [] || rest[0] != 0x20 || |rest| < 33 {
        return None;
      }
      var key, tail := rest[1..33], rest[33..];
      if tail == [] {
        return None;
      }
      if tail[0] != (if keys == [] then 0xac else 0xba) {
        return None;
      }
      if |keys| == 18 {
        return None;
      }
      assert tail[1..] == rest[34..];
      keys, rest := keys + [key], tail[1..];
      var m := Threshold(rest, |keys|);
      if m.Some? {
        return if 1 <= m.value <= |keys| then Some(TapKeys(m.value, keys)) else None;
      }
    }
  }

  /** Each key, and the opcode that counts its signature. */
  function KeyOps(keys: seq<Item>, first: bool): (s: seq<byte>)
    requires forall i :: 0 <= i < |keys| ==> |keys[i]| == 32
    ensures |s| == 34 * |keys|
  {
    if keys == [] then [] else PushBytes(keys[0]) + [if first then 0xac else 0xba] + KeyOps(keys[1..], false)
  }

  function Ending(m: nat): (s: seq<byte>)
    requires 1 <= m <= 18
  {
    if m <= 16 then [(0x50 + m) as byte, 0x9c] else [1, m as byte, 0x9c]
  }

  ghost predicate TapStandard(t: TapKeys) {
    1 <= t.m <= |t.keys| <= 18 && forall i :: 0 <= i < |t.keys| ==> |t.keys[i]| == 32
  }

  /** The scripts of a multi_a template: a single key may go without the threshold. */
  ghost predicate IsTapScript(s: seq<byte>, t: TapKeys)
    requires TapStandard(t)
  {
    s == KeyOps(t.keys, true) + Ending(t.m) || (|t.keys| == 1 && s == KeyOps(t.keys, true))
  }

  lemma {:induction false} EndingIsThreshold(m: nat, n: nat)
    requires 1 <= m <= 18
    ensures Threshold(Ending(m), n) == Some(m)
  {
  }

  lemma {:induction false} ThresholdIsEnding(tail: seq<byte>, n: nat)
    requires Threshold(tail, n).Some? && 1 <= Threshold(tail, n).value <= 18
    ensures var m := Threshold(tail, n).value; tail == Ending(m) || (tail == [] && n == 1 && m == 1)
  {
  }

  lemma {:induction false} TapKeyPush(k: Item)
    requires |k| == 32
    ensures PushBytes(k) == [0x20] + k
  {
  }

  ghost predicate Keys32(keys: seq<Item>) {
    forall i :: 0 <= i < |keys| ==> |keys[i]| == 32
  }

  /** One more key read. */
  lemma {:induction false} KeyRead(k: Item, keys: seq<Item>, tail: seq<byte>)
    requires |k| == 32 && |keys| < 18
    ensures var m, more := Threshold(tail, |keys| + 1), keys + [k];
            TapFrom(PushBytes(k) + [if keys == [] then 0xac else 0xba] + tail, keys)
            == if m.None? then TapFrom(tail, more)
               else if 1 <= m.value <= |more| then Some(TapKeys(m.value, more)) else None
  {
    hide Threshold;
    TapKeyPush(k);
    var rest := PushBytes(k) + [if keys == [] then 0xac else 0xba] + tail;
    assert rest[1..33] == k && rest[34..] == tail;
  }

  /** The keys of a script are read one after another. */
  lemma {:induction false} TapReadsOwn(keys: seq<Item>, more: seq<Item>, m: nat)
    requires more != [] && Keys32(more) && |keys| + |more| <= 18 && 1 <= m <= |keys| + |more|
    ensures TapFrom(KeyOps(more, keys == []) + Ending(m), keys) == Some(TapKeys(m, keys + more))
    decreases |more|
  {
    hide TapFrom, Threshold, Ending, PushBytes;
    var k, rest := more[0], more[1..];
    var tail := KeyOps(rest, false) + Ending(m);
    assert KeyOps(more, keys == []) + Ending(m) == PushBytes(k) + [if keys == [] then 0xac else 0xba] + tail;
    KeyRead(k, keys, tail);
    if rest == [] {
      assert KeyOps(rest, false) + Ending(m) == Ending(m);
      EndingIsThreshold(m, |keys| + 1);
      assert keys + more == keys + [k];
    } else {
      LongTail(rest, m, |keys| + 1);
      TapReadsOwn(keys + [k], rest, m);
      assert keys + [k] + rest == keys + more;
    }
  }

  lemma {:induction false} LongTail(rest: seq<Item>, m: nat, n: nat)
    requires rest != [] && Keys32(rest) && 1 <= m <= 18
    ensures Threshold(KeyOps(rest, false) + Ending(m), n) == None
  {
  }

  lemma {:induction false} TapReadsBare(k: Item)
    requires |k| == 32
    ensures TapFrom(KeyOps([k], true), []) == Some(TapKeys(1, [k]))
  {
    hide TapFrom, PushBytes;
    assert [k][1..] == [];
    assert KeyOps([k], true) == PushBytes(k) + [0xac] + [];
    KeyRead(k, [], []);
    var none: seq<Item> := [];
    assert none + [k] == [k];
  }

  /** And nothing else is read. */
  lemma {:induction false} TapReadsOnly(rest: seq<byte>, keys: seq<Item>)
    requires |keys| <= 18 && Keys32(keys) && TapFrom(rest, keys).Some?
    ensures var TapKeys(m, all) := TapFrom(rest, keys).value;
            && |keys| < |all| <= 18 && all[..|keys|] == keys && Keys32(all) && 1 <= m <= |all|
            && (rest == KeyOps(all[|keys|..], keys == []) + Ending(m)
                || (|all| == 1 && m == 1 && rest == KeyOps(all, true)))
    decreases |rest|
  {
    hide Threshold, Ending, PushBytes, KeyOps;
    var k, tail := rest[1..33], rest[34..];
    var more := keys + [k];
    var TapKeys(m, all) := TapFrom(rest, keys).value;
    RestOfKey(rest, keys == []);
    OneKeyOps(k, keys == []);
    if Threshold(tail, |more|).None? {
      TapReadsOnly(tail, more);
      assert all[..|keys|] == all[..|more|][..|keys|] == keys;
      FirstKeyOps(all[|keys|..], keys == []);
      assert all[|keys|..][0] == all[..|more|][|keys|] == k && all[|keys|..][1..] == all[|more|..];
      JoinOps(k, keys == [], KeyOps(all[|more|..], false), Ending(m));
    } else {
      ThresholdIsEnding(tail, |more|);
      assert all[|keys|..] == [k];
      assert rest[..34] + [] == rest[..34];
    }
  }

  lemma {:induction false} JoinOps(k: Item, first: bool, ops: seq<byte>, ending: seq<byte>)
    requires |k| == 32
    ensures PushBytes(k) + [if first then 0xac else 0xba] + (ops + ending)
         == PushBytes(k) + [if first then 0xac else 0xba] + ops + ending
  {
  }

  lemma {:induction false} RestOfKey(rest: seq<byte>, first: bool)
    requires |rest| >= 34 && rest[0] == 0x20 && rest[33] == (if first then 0xac else 0xba)
    ensures rest[..34] == PushBytes(rest[1..33]) + [if first then 0xac else 0xba] && rest == rest[..34] + rest[34..]
  {
    TapKeyPush(rest[1..33]);
  }

  lemma {:induction false} OneKeyOps(k: Item, first: bool)
    requires |k| == 32
    ensures KeyOps([k], first) == PushBytes(k) + [if first then 0xac else 0xba]
  {
    assert [k][1..] == [];
  }

  lemma {:induction false} FirstKeyOps(keys: seq<Item>, first: bool)
    requires keys != [] && Keys32(keys)
    ensures KeyOps(keys, first) == PushBytes(keys[0]) + [if first then 0xac else 0xba] + KeyOps(keys[1..], false)
  {
  }

  /** `tap_template` recognises exactly the scripts of up to 18 keys and a threshold
      they can reach. */
  lemma {:induction false} TapTemplateInvertsScript(s: seq<byte>, t: TapKeys)
    ensures TapFrom(s, []) == Some(t) <==> TapStandard(t) && IsTapScript(s, t)
  {
    hide TapFrom, KeyOps, Ending;
    if TapFrom(s, []) == Some(t) {
      TapReadsOnly(s, []);
      assert t.keys[0..] == t.keys;
    }
    if TapStandard(t) && IsTapScript(s, t) {
      TapReadsOwn([], t.keys, t.m);
      assert [] + t.keys == t.keys;
      if |t.keys| == 1 {
        TapReadsBare(t.keys[0]);
        assert t.keys == [t.keys[0]];
      }
    }
  }
}
