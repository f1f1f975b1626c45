/** Reading the tokens of a Cardano output back, src/cardanotx.rs: `flatten_assets`, and what
    it makes of the map that `multiasset_map` wrote. */
module Flatten {
  import opened Options
  import opened Bytes
  import opened Multiasset
  import opened MultiassetCbor
  import C = Cbor
  import R = CborRoundTrip

  // ----- flattening -----

  function FlattenTokens(policy: seq<byte>, es: seq<C.Entry>): Option<seq<Asset>> {
    if es == [] then Some([])
    else if !es[0].key.Bytes? || !es[0].value.Uint? then None
    else
      var rest := FlattenTokens(policy, es[1..]);
      if rest.None? then None else Some([Asset(policy, es[0].key.b, es[0].value.v)] + rest.value)
  }

  /** The assets of a decoded map, in its order: none if it is not of the right form. */
  function Flattened(es: seq<C.Entry>): Option<seq<Asset>> {
    if es == [] then Some([])
    else if !es[0].key.Bytes? || !es[0].value.Map? then None
    else
      var tokens, rest := FlattenTokens(es[0].key.b, es[0].value.entries), Flattened(es[1..]);
      if tokens.None? || rest.None? then None else Some(tokens.value + rest.value)
  }

  /** By policy, then by name. */
  predicate AssetLeq(a: Asset, b: Asset) {
    if a.policy != b.policy then LexLeq(a.policy, b.policy) else LexLeq(a.name, b.name)
  }

  function InsertAsset(x: Asset, s: seq<Asset>): (r: seq<Asset>)
    ensures |r| == |s| + 1 && forall a :: a in r <==> a == x || a in s
  {
    if s == [] || AssetLeq(x, s[0]) then [x] + s else [s[0]] + InsertAsset(x, s[1..])
  }

  /** `sort_by`, which is stable. */
  function SortAssets(s: seq<Asset>): (r: seq<Asset>)
    ensures |r| == |s| && forall a :: a in r <==> a in s
  {
    if s == [] then [] else InsertAsset(s[0], SortAssets(s[1..]))
  }

  function Prepended(front: seq<Asset>, rest: Option<seq<Asset>>): Option<seq<Asset>> {
    if rest.None? then None else Some(front + rest.value)
  }

  lemma {:induction false} PrependedChains(a: seq<Asset>, b: seq<Asset>, rest: Option<seq<Asset>>)
    ensures Prepended(a, Prepended(b, rest)) == Prepended(a + b, rest) && Prepended([], rest) == rest
  {
    if rest.Some? {
      assert a + (b + rest.value) == a + b + rest.value && [] + rest.value == rest.value;
    }
  }

  /** The inner loop of `flatten_assets`. */
  method PushTokens(policy: seq<byte>, es: seq<C.Entry>, assets0: seq<Asset>) returns (r: Option<seq<Asset>>)
    ensures r == Prepended(assets0, FlattenTokens(policy, es))
  {
    var assets := assets0;
    assert es[0..] == es;
    for i := 0 to |es|
      invariant Prepended(assets, FlattenTokens(policy, es[i..])) == Prepended(assets0, FlattenTokens(policy, es))
    {
      assert es[i..][1..] == es[i + 1..];
      if !es[i].key.Bytes? || !es[i].value.Uint? {
        return None;
      }
      var a := Asset(policy, es[i].key.b, es[i].value.v);
      PrependedChains(assets, [a], FlattenTokens(policy, es[i + 1..]));
      assets := assets + [a];
    }
    assert assets + [] == assets;
    r := Some(assets);
  }

  /** `flatten_assets`. */
  method FlattenAssets(es: seq<C.Entry>) returns (r: Option<seq<Asset>>)
    ensures r == if Flattened(es).None? then None else Some(SortAssets(Flattened(es).value))
  {
    hide FlattenTokens, SortAssets;
    var assets: seq<Asset> := [];
    assert es[0..] == es;
    PrependedChains([], [], Flattened(es));
    for i := 0 to |es|
      invariant Prepended(assets, Flattened(es[i..])) == Flattened(es)
    {
      assert es[i..][1..] == es[i + 1..];
      if !es[i].key.Bytes? || !es[i].value.Map? {
        return None;
      }
      ghost var tokens := FlattenTokens(es[i].key.b, es[i].value.entries);
      var more := PushTokens(es[i].key.b, es[i].value.entries, assets);
      if more.None? {
        return None;
      }
      PrependedChains(assets, tokens.value, Flattened(es[i + 1..]));
      assets := more.value;
    }
    assert assets + [] == assets;
    r := Some(SortAssets(assets));
  }

  lemma {:induction false} AssetOrder(a: Asset, b: Asset, c: Asset)
    ensures AssetLeq(a, b) || AssetLeq(b, a)
    ensures AssetLeq(a, b) && AssetLeq(b, c) ==> AssetLeq(a, c)
  {
    LexTotal(a.policy, b.policy);
    LexTotal(a.name, b.name);
    LexTotal(b.policy, c.policy);
    if LexLeq(a.policy, b.policy) && LexLeq(b.policy, c.policy) {
      LexTransitive(a.policy, b.policy, c.policy);
    }
    if LexLeq(a.name, b.name) && LexLeq(b.name, c.name) {
      LexTransitive(a.name, b.name, c.name);
    }
  }

  ghost predicate Ordered(s: seq<Asset>) {
    forall i, j :: 0 <= i < j < |s| ==> AssetLeq(s[i], s[j])
  }

  lemma {:induction false} InsertOrders(x: Asset, s: seq<Asset>)
    requires Ordered(s)
    ensures Ordered(InsertAsset(x, s)) && multiset(InsertAsset(x, s)) == multiset(s) + multiset{x}
  {
    hide AssetLeq;
    if s == [] {
    } else if AssetLeq(x, s[0]) {
      forall j | 0 <= j < |s| ensures AssetLeq(x, s[j]) {
        AssetOrder(x, s[0], s[j]);
      }
    } else {
      InsertOrders(x, s[1..]);
      AssetOrder(s[0], x, x);
      assert s == [s[0]] + s[1..];
      var r := InsertAsset(x, s[1..]);
      forall j | 0 <= j < |r| ensures AssetLeq(s[0], r[j]) {
        assert r[j] in r;
      }
    }
  }

  /** The assets come out in order, none lost and none made up. */
  lemma {:induction false} SortOrders(s: seq<Asset>)
    ensures Ordered(SortAssets(s)) && multiset(SortAssets(s)) == multiset(s)
  {
    if s != [] {
      SortOrders(s[1..]);
      InsertOrders(s[0], SortAssets(s[1..]));
      assert s == [s[0]] + s[1..];
    }
  }

  // ----- lists without a token twice -----

  ghost predicate DistinctAssets(s: seq<Asset>) {
    forall i, j :: 0 <= i < j < |s| ==> s[i].policy != s[j].policy || s[i].name != s[j].name
  }

  /** Each balance is then one asset. */
  lemma {:induction false} BalanceIs(s: seq<Asset>, policy: seq<byte>, name: seq<byte>)
    requires DistinctAssets(s)
    ensures var b := Balance(s, policy, name);
            if b.Some? then Asset(policy, name, b.value) in s
            else forall i :: 0 <= i < |s| ==> s[i].policy != policy || s[i].name != name
  {
    if s != [] {
      var n := |s| - 1;
      BalanceIs(s[..n], policy, name);
      assert forall i :: 0 <= i < n ==> s[i] == s[..n][i];
    }
  }

  /** Two such lists of the same assets have the same balances. */
  lemma {:induction false} SameBalances(s: seq<Asset>, t: seq<Asset>, policy: seq<byte>, name: seq<byte>)
    requires DistinctAssets(s) && DistinctAssets(t) && forall a :: a in s <==> a in t
    ensures Balance(s, policy, name) == Balance(t, policy, name)
  {
    hide Balance;
    BalanceIs(s, policy, name);
    BalanceIs(t, policy, name);
    var b, c := Balance(s, policy, name), Balance(t, policy, name);
    if b.Some? {
      assert Asset(policy, name, b.value) in t;
    }
    if c.Some? {
      assert Asset(policy, name, c.value) in s;
    }
  }

  lemma {:induction false} InsertStaysDistinct(x: Asset, s: seq<Asset>)
    requires DistinctAssets(s) && forall a :: a in s ==> a.policy != x.policy || a.name != x.name
    ensures DistinctAssets(InsertAsset(x, s))
  {
    hide AssetLeq;
    if s != [] && !AssetLeq(x, s[0]) {
      InsertStaysDistinct(x, s[1..]);
      var r := InsertAsset(x, s[1..]);
      forall j | 0 <= j < |r| ensures r[j].policy != s[0].policy || r[j].name != s[0].name {
        assert r[j] in r;
      }
    } else {
      assert forall j :: 0 <= j < |s| ==> s[j] in s;
    }
  }

  lemma {:induction false} SortStaysDistinct(s: seq<Asset>)
    requires DistinctAssets(s)
    ensures DistinctAssets(SortAssets(s))
  {
    if s != [] {
      SortStaysDistinct(s[1..]);
      InsertStaysDistinct(s[0], SortAssets(s[1..]));
    }
  }

  // ----- flattening groups -----

  function FlatTokens(policy: seq<byte>, tokens: seq<Token>): (s: seq<Asset>)
    ensures |s| == |tokens| && forall i :: 0 <= i < |s| ==> s[i] == Asset(policy, tokens[i].name, tokens[i].amount)
  {
    seq(|tokens|, i requires 0 <= i < |tokens| => Asset(policy, tokens[i].name, tokens[i].amount))
  }

  function Flat(policies: seq<Policy>): seq<Asset> {
    if policies == [] then [] else FlatTokens(policies[0].id, policies[0].tokens) + Flat(policies[1..])
  }

  lemma {:induction false} TokensFlatten(policy: seq<byte>, tokens: seq<Token>)
    ensures FlattenTokens(policy, TokenEntries(tokens)) == Some(FlatTokens(policy, tokens))
  {
    if tokens != [] {
      TokensFlatten(policy, tokens[1..]);
      assert TokenEntries(tokens)[1..] == TokenEntries(tokens[1..]);
      assert FlatTokens(policy, tokens) == [Asset(policy, tokens[0].name, tokens[0].amount)] + FlatTokens(policy, tokens[1..]);
    }
  }

  lemma {:induction false} PoliciesFlatten(policies: seq<Policy>)
    ensures Flattened(PolicyEntries(policies)) == Some(Flat(policies))
  {
    hide FlattenTokens;
    if policies != [] {
      TokensFlatten(policies[0].id, policies[0].tokens);
      PoliciesFlatten(policies[1..]);
      assert PolicyEntries(policies)[1..] == PolicyEntries(policies[1..]);
    }
  }

  lemma {:induction false} FlatHas(policies: seq<Policy>, a: Asset)
    ensures a in Flat(policies) <==> exists i :: 0 <= i < |policies| && policies[i].id == a.policy && Token(a.name, a.amount) in policies[i].tokens
  {
    if policies != [] {
      FlatHas(policies[1..], a);
      var head := FlatTokens(policies[0].id, policies[0].tokens);
      assert forall i :: 1 <= i < |policies| ==> policies[i] == policies[1..][i - 1];
      if a in head {
        var k :| 0 <= k < |head| && head[k] == a;
        assert policies[0].tokens[k] == Token(a.name, a.amount);
      }
      if policies[0].id == a.policy && Token(a.name, a.amount) in policies[0].tokens {
        var k :| 0 <= k < |policies[0].tokens| && policies[0].tokens[k] == Token(a.name, a.amount);
        assert head[k] == a;
      }
      if a in Flat(policies[1..]) {
        var i :| 0 <= i < |policies[1..]| && policies[1..][i].id == a.policy && Token(a.name, a.amount) in policies[1..][i].tokens;
        assert policies[i + 1].id == a.policy;
      }
    }
  }

  lemma {:induction false} FlatIsDistinct(policies: seq<Policy>)
    requires WellGrouped(policies)
    ensures DistinctAssets(Flat(policies))
  {
    if policies != [] {
      var head, rest := FlatTokens(policies[0].id, policies[0].tokens), Flat(policies[1..]);
      FlatIsDistinct(policies[1..]);
      assert TokensOk(policies[0].tokens);
      forall j | 0 <= j < |rest| ensures rest[j].policy != policies[0].id {
        assert rest[j] in rest;
        FlatHas(policies[1..], rest[j]);
      }
    }
  }

  /** The flat list has the balances of the groups. */
  lemma {:induction false} FlatBalances(policies: seq<Policy>, policy: seq<byte>, name: seq<byte>)
    requires WellGrouped(policies)
    ensures Balance(Flat(policies), policy, name) == Lookup(policies, policy, name)
  {
    hide Flat, Balance, PolicyOf, TokenOf, DistinctAssets;
    FlatIsDistinct(policies);
    BalanceIs(Flat(policies), policy, name);
    var b := Balance(Flat(policies), policy, name);
    if b.Some? {
      FlatHas(policies, Asset(policy, name, b.value));
      var i :| 0 <= i < |policies| && policies[i].id == policy && Token(name, b.value) in policies[i].tokens;
      PolicyInList(policies, policies[i]);
      assert TokensOk(policies[i].tokens);
      TokenInList(policies[i].tokens, Token(name, b.value));
    } else if Lookup(policies, policy, name).Some? {
      NotFlat(policies, policy, name);
    }
  }

  lemma {:induction false} NotFlat(policies: seq<Policy>, policy: seq<byte>, name: seq<byte>)
    requires Lookup(policies, policy, name).Some?
    ensures exists i :: 0 <= i < |Flat(policies)| && Flat(policies)[i].policy == policy && Flat(policies)[i].name == name
  {
    hide Flat, PolicyOf, TokenOf;
    PolicyOfIs(policies, policy);
    var tokens := PolicyOf(policies, policy).value;
    TokenOfIs(tokens, name);
    var a := Asset(policy, name, TokenOf(tokens, name).value);
    assert Policy(policy, tokens) in policies;
    FlatHas(policies, a);
    assert a in Flat(policies);
  }

  // ----- reading back -----

  /** What is read back from the map of groups, decoded: a list in order with the same
      balances, which groups and is encoded as the groups are. */
  lemma {:induction false} TokensReadBack(policies: seq<Policy>)
    requires PoliciesFit(policies) && WellGrouped(policies)
    ensures C.Fits(ToCbor(policies)) && R.Canon(ToCbor(policies)).Map? && Flattened(R.Canon(ToCbor(policies)).entries).Some?
    ensures var assets := SortAssets(Flattened(R.Canon(ToCbor(policies)).entries).value);
            && (policies != [] ==> assets != [])
            && AmountsFit(assets) && Ordered(assets)
            && (forall policy, name :: Balance(assets, policy, name) == Lookup(policies, policy, name))
            && Grouped(assets).Some? && PoliciesFit(Grouped(assets).value)
            && C.Fits(ToCbor(Grouped(assets).value))
            && C.Encode(ToCbor(Grouped(assets).value)) == C.Encode(ToCbor(policies))
  {
    hide C.Encode, C.Fits, R.Canon, Flattened, SortAssets, Grouped, Lookup, Balance, PoliciesFit, WellGrouped, PolicyEntries, Ordered;
    PoliciesFitCbor(policies);
    var sorted := CanonPolicies(policies);
    PoliciesFlatten(sorted);
    var assets := SortAssets(Flat(sorted));
    SortOrders(Flat(sorted));
    FlatIsDistinct(sorted);
    SortStaysDistinct(Flat(sorted));
    forall policy, name ensures Balance(assets, policy, name) == Lookup(policies, policy, name) {
      SameBalances(assets, Flat(sorted), policy, name);
      FlatBalances(sorted, policy, name);
    }
    BalancesRegroup(policies, assets);
    if policies != [] {
      var policy, name := HasBalance(policies);
      assert Balance(assets, policy, name).Some?;
      NothingHasNone(policy, name);
    }
  }

  lemma {:induction false} HasBalance(policies: seq<Policy>) returns (policy: seq<byte>, name: seq<byte>)
    requires WellGrouped(policies) && policies != []
    ensures Lookup(policies, policy, name).Some?
  {
    assert TokensOk(policies[0].tokens);
    policy, name := policies[0].id, policies[0].tokens[0].name;
  }

  lemma {:induction false} NothingHasNone(policy: seq<byte>, name: seq<byte>)
    ensures Balance([], policy, name) == None
  {
  }

  /** A list with the balances of groups groups into what is encoded as they are. */
  lemma {:induction false} BalancesRegroup(policies: seq<Policy>, assets: seq<Asset>)
    requires PoliciesFit(policies) && WellGrouped(policies) && DistinctAssets(assets)
    requires forall policy, name :: Balance(assets, policy, name) == Lookup(policies, policy, name)
    ensures AmountsFit(assets) && Grouped(assets).Some? && PoliciesFit(Grouped(assets).value)
    ensures C.Fits(ToCbor(policies)) && C.Fits(ToCbor(Grouped(assets).value))
    ensures C.Encode(ToCbor(Grouped(assets).value)) == C.Encode(ToCbor(policies))
  {
    hide C.Encode, C.Fits, Grouped, Lookup, Balance, PoliciesFit, WellGrouped, ToCbor;
    forall i | 0 <= i < |assets| ensures assets[i].amount < U64 {
      var a := assets[i];
      AssetIsBalance(assets, i);
      LookupFits(policies, a.policy, a.name);
      assert Balance(assets, a.policy, a.name) == Lookup(policies, a.policy, a.name);
    }
    GroupedConserves(assets);
    NotOutgrown(assets, policies);
    var groups := Grouped(assets).value;
    GroupsFitAlike(policies, groups);
    GroupsEncodeAlike(groups, policies);
  }

  lemma {:induction false} AssetIsBalance(s: seq<Asset>, i: nat)
    requires DistinctAssets(s) && i < |s|
    ensures Balance(s, s[i].policy, s[i].name) == Some(s[i].amount)
  {
    hide Balance;
    BalanceIs(s, s[i].policy, s[i].name);
    var b := Balance(s, s[i].policy, s[i].name);
    if b.Some? {
      var j :| 0 <= j < |s| && s[j] == Asset(s[i].policy, s[i].name, b.value);
      assert i == j;
    }
  }
}
