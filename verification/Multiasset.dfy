/** The native tokens of a Cardano output, src/cardanotx.rs: grouped by policy and name with
    their amounts added up, as a CBOR map, and flattened again. */
module Multiasset {
  import opened Options
  import opened Bytes
  import C = Cbor
  import R = CborRoundTrip
  import S = CborSplit

  datatype Asset = Asset(policy: seq<byte>, name: seq<byte>, amount: nat)

  datatype Token = Token(name: seq<byte>, amount: nat)

  datatype Policy = Policy(id: seq<byte>, tokens: seq<Token>)

  // ----- grouping -----

  /** One more amount of a token: none if it outgrows 64 bits. */
  function AddToken(tokens: seq<Token>, name: seq<byte>, amount: nat): Option<seq<Token>> {
    if tokens == [] then Some([Token(name, amount)])
    else if tokens[0].name == name then
      if tokens[0].amount + amount >= U64 then None else Some([Token(name, tokens[0].amount + amount)] + tokens[1..])
    else
      var rest := AddToken(tokens[1..], name, amount);
      if rest.None? then None else Some([tokens[0]] + rest.value)
  }

  function AddAsset(policies: seq<Policy>, a: Asset): Option<seq<Policy>> {
    if policies == [] then Some([Policy(a.policy, [Token(a.name, a.amount)])])
    else if policies[0].id == a.policy then
      var tokens := AddToken(policies[0].tokens, a.name, a.amount);
      if tokens.None? then None else Some([Policy(a.policy, tokens.value)] + policies[1..])
    else
      var rest := AddAsset(policies[1..], a);
      if rest.None? then None else Some([policies[0]] + rest.value)
  }

  /** The groups that `multiasset_map` makes of assets, in the order they first come. */
  function Grouped(assets: seq<Asset>): Option<seq<Policy>> {
    if assets == [] then Some([])
    else
      var front := Grouped(assets[..|assets| - 1]);
      if front.None? then None else AddAsset(front.value, assets[|assets| - 1])
  }

  lemma {:induction false} GroupedStops(assets: seq<Asset>, i: nat)
    requires i <= |assets| && Grouped(assets[..i]).None?
    ensures Grouped(assets).None?
    decreases |assets| - i
  {
    if i < |assets| {
      assert assets[..i + 1][..i] == assets[..i];
      GroupedStops(assets, i + 1);
    } else {
      assert assets[..i] == assets;
    }
  }

  /** The loop of `multiasset_map`. */
  method GroupAssets(assets: seq<Asset>) returns (r: Option<seq<Policy>>)
    ensures r == Grouped(assets)
  {
    var policies: seq<Policy> := [];
    for i := 0 to |assets|
      invariant Grouped(assets[..i]) == Some(policies)
    {
      assert assets[..i + 1][..i] == assets[..i];
      var more := AddAsset(policies, assets[i]);
      if more.None? {
        GroupedStops(assets, i + 1);
        return None;
      }
      policies := more.value;
    }
    assert assets[..|assets|] == assets;
    r := Some(policies);
  }

  // ----- balances -----

  /** How much of a token a list has, if it has it at all. */
  function Balance(assets: seq<Asset>, policy: seq<byte>, name: seq<byte>): Option<nat> {
    if assets == [] then None
    else
      var front, a := Balance(assets[..|assets| - 1], policy, name), assets[|assets| - 1];
      if a.policy == policy && a.name == name then Some((if front.Some? then front.value else 0) + a.amount) else front
  }

  function TokenOf(tokens: seq<Token>, name: seq<byte>): Option<nat> {
    if tokens == [] then None
    else if tokens[0].name == name then Some(tokens[0].amount)
    else TokenOf(tokens[1..], name)
  }

  function PolicyOf(policies: seq<Policy>, id: seq<byte>): Option<seq<Token>> {
    if policies == [] then None
    else if policies[0].id == id then Some(policies[0].tokens)
    else PolicyOf(policies[1..], id)
  }

  function Lookup(policies: seq<Policy>, id: seq<byte>, name: seq<byte>): Option<nat> {
    var tokens := PolicyOf(policies, id);
    if tokens.None? then None else TokenOf(tokens.value, name)
  }

  ghost predicate DistinctNames(tokens: seq<Token>) {
    forall i, j :: 0 <= i < j < |tokens| ==> tokens[i].name != tokens[j].name
  }

  ghost predicate TokensOk(tokens: seq<Token>) {
    tokens != [] && DistinctNames(tokens) && forall i :: 0 <= i < |tokens| ==> tokens[i].amount < U64
  }

  ghost predicate DistinctIds(policies: seq<Policy>) {
    forall i, j :: 0 <= i < j < |policies| ==> policies[i].id != policies[j].id
  }

  /** Each policy once, each of its tokens once, and amounts of 64 bits. */
  ghost predicate WellGrouped(policies: seq<Policy>) {
    DistinctIds(policies) && forall i :: 0 <= i < |policies| ==> TokensOk(policies[i].tokens)
  }

  /** What is in a list of tokens, and what is not. */
  lemma {:induction false} TokenOfIs(tokens: seq<Token>, name: seq<byte>)
    ensures TokenOf(tokens, name).None? <==> forall i :: 0 <= i < |tokens| ==> tokens[i].name != name
    ensures TokenOf(tokens, name).Some? ==> Token(name, TokenOf(tokens, name).value) in tokens
  {
    if tokens != [] && tokens[0].name != name {
      TokenOfIs(tokens[1..], name);
      assert forall i :: 1 <= i < |tokens| ==> tokens[i] == tokens[1..][i - 1];
    }
  }

  lemma {:induction false} TokenInList(tokens: seq<Token>, t: Token)
    requires DistinctNames(tokens) && t in tokens
    ensures TokenOf(tokens, t.name) == Some(t.amount)
  {
    if tokens[0] != t {
      assert t in tokens[1..];
      TokenInList(tokens[1..], t);
    }
  }

  lemma {:induction false} PolicyOfIs(policies: seq<Policy>, id: seq<byte>)
    ensures PolicyOf(policies, id).None? <==> forall i :: 0 <= i < |policies| ==> policies[i].id != id
    ensures PolicyOf(policies, id).Some? ==> Policy(id, PolicyOf(policies, id).value) in policies
  {
    if policies != [] && policies[0].id != id {
      PolicyOfIs(policies[1..], id);
      assert forall i :: 1 <= i < |policies| ==> policies[i] == policies[1..][i - 1];
    }
  }

  lemma {:induction false} PolicyInList(policies: seq<Policy>, p: Policy)
    requires DistinctIds(policies) && p in policies
    ensures PolicyOf(policies, p.id) == Some(p.tokens)
  {
    if policies[0] != p {
      assert p in policies[1..];
      PolicyInList(policies[1..], p);
    }
  }

  /** The sum, if 64 bits hold it. */
  function Sum64(was: Option<nat>, amount: nat): nat {
    (if was.Some? then was.value else 0) + amount
  }

  lemma {:induction false} AddTokenAdds(tokens: seq<Token>, name: seq<byte>, amount: nat)
    requires amount < U64 && DistinctNames(tokens) && forall i :: 0 <= i < |tokens| ==> tokens[i].amount < U64
    ensures AddToken(tokens, name, amount).None? <==> Sum64(TokenOf(tokens, name), amount) >= U64
    ensures AddToken(tokens, name, amount).Some? ==>
              && TokensOk(AddToken(tokens, name, amount).value)
              && forall m :: TokenOf(AddToken(tokens, name, amount).value, m)
                          == if m == name then Some(Sum64(TokenOf(tokens, name), amount)) else TokenOf(tokens, m)
  {
    if tokens != [] && tokens[0].name != name {
      var rest := tokens[1..];
      AddTokenAdds(rest, name, amount);
      var added := AddToken(rest, name, amount);
      if added.Some? {
        TokenOfIs(rest, tokens[0].name);
        TokenOfIs(added.value, tokens[0].name);
        assert TokenOf(added.value, tokens[0].name).None?;
        var all := [tokens[0]] + added.value;
        assert all[1..] == added.value;
      }
    } else if tokens != [] {
      var all := [Token(name, tokens[0].amount + amount)] + tokens[1..];
      assert all[1..] == tokens[1..];
    }
  }

  lemma {:induction false} AddAssetAdds(policies: seq<Policy>, a: Asset)
    requires a.amount < U64 && WellGrouped(policies)
    ensures AddAsset(policies, a).None? <==> Sum64(Lookup(policies, a.policy, a.name), a.amount) >= U64
    ensures AddAsset(policies, a).Some? ==> Added(policies, a, AddAsset(policies, a).value)
  {
    hide AddToken, TokenOf, TokensOk;
    if policies == [] {
      OneToken(a);
    } else if policies[0].id == a.policy {
      FirstPolicyAdds(policies, a);
    } else {
      var rest := policies[1..];
      AddAssetAdds(rest, a);
      var added := AddAsset(rest, a);
      if added.Some? {
        OtherPolicyAdds(policies, a, added.value);
      }
    }
  }

  /** The groups `r` are `policies` and one more asset. */
  ghost predicate Added(policies: seq<Policy>, a: Asset, r: seq<Policy>) {
    && WellGrouped(r)
    && (forall id, name :: Lookup(r, id, name)
                        == if id == a.policy && name == a.name then Some(Sum64(Lookup(policies, id, name), a.amount))
                           else Lookup(policies, id, name))
    && (forall id :: PolicyOf(r, id).None? <==> PolicyOf(policies, id).None? && id != a.policy)
  }

  lemma {:induction false} OneToken(a: Asset)
    requires a.amount < U64
    ensures Added([], a, [Policy(a.policy, [Token(a.name, a.amount)])])
  {
    var tokens := [Token(a.name, a.amount)];
    var r := [Policy(a.policy, tokens)];
    assert tokens[1..] == [] && r[1..] == [];
    assert TokensOk(tokens);
    forall id, name ensures Lookup(r, id, name) == if id == a.policy && name == a.name then Some(a.amount) else None {
      assert PolicyOf(r, id) == if id == a.policy then Some(tokens) else None;
      assert TokenOf(tokens, name) == if name == a.name then Some(a.amount) else None;
    }
  }

  lemma {:induction false} FirstPolicyAdds(policies: seq<Policy>, a: Asset)
    requires a.amount < U64 && WellGrouped(policies) && policies != [] && policies[0].id == a.policy
    ensures var tokens := AddToken(policies[0].tokens, a.name, a.amount);
            && (tokens.None? <==> Sum64(Lookup(policies, a.policy, a.name), a.amount) >= U64)
            && (tokens.Some? ==> Added(policies, a, [Policy(a.policy, tokens.value)] + policies[1..]))
  {
    hide AddToken, TokenOf;
    AddTokenAdds(policies[0].tokens, a.name, a.amount);
    var tokens := AddToken(policies[0].tokens, a.name, a.amount);
    if tokens.Some? {
      var r := [Policy(a.policy, tokens.value)] + policies[1..];
      assert r[1..] == policies[1..];
    }
  }

  lemma {:induction false} OtherPolicyAdds(policies: seq<Policy>, a: Asset, added: seq<Policy>)
    requires WellGrouped(policies) && policies != [] && policies[0].id != a.policy && Added(policies[1..], a, added)
    ensures Added(policies, a, [policies[0]] + added)
  {
    hide AddToken, TokenOf, TokensOk;
    var r := [policies[0]] + added;
    assert r[1..] == added;
    PolicyOfIs(policies[1..], policies[0].id);
    PolicyOfIs(added, policies[0].id);
    assert PolicyOf(added, policies[0].id).None?;
    assert forall id :: PolicyOf(r, id) == if id == policies[0].id then Some(policies[0].tokens) else PolicyOf(added, id);
    assert forall id :: PolicyOf(policies, id) == if id == policies[0].id then Some(policies[0].tokens) else PolicyOf(policies[1..], id);
    forall id, name
      ensures Lookup(r, id, name) == if id == a.policy && name == a.name then Some(Sum64(Lookup(policies, id, name), a.amount))
                                     else Lookup(policies, id, name)
    {
      if id != policies[0].id {
        assert Lookup(r, id, name) == Lookup(added, id, name) && Lookup(policies, id, name) == Lookup(policies[1..], id, name);
      }
    }
  }

  ghost predicate AmountsFit(assets: seq<Asset>) {
    forall i :: 0 <= i < |assets| ==> assets[i].amount < U64
  }

  /** Some token of the list amounts to more than 64 bits hold. */
  ghost predicate Outgrown(assets: seq<Asset>) {
    exists policy, name :: Balance(assets, policy, name).Some? && Balance(assets, policy, name).value >= U64
  }

  /** Grouping fails exactly when the total of some token outgrows 64 bits, and otherwise
      keeps every total: nothing is lost, made up, or put under another policy or name. */
  lemma {:induction false} GroupedConserves(assets: seq<Asset>)
    requires AmountsFit(assets)
    ensures Grouped(assets).None? <==> Outgrown(assets)
    ensures Grouped(assets).Some? ==>
              && WellGrouped(Grouped(assets).value)
              && forall policy, name :: Lookup(Grouped(assets).value, policy, name) == Balance(assets, policy, name)
  {
    hide Lookup, AddAsset, WellGrouped, Outgrown;
    if assets == [] {
      NothingGrouped();
    } else {
      var front, a := assets[..|assets| - 1], assets[|assets| - 1];
      GroupedConserves(front);
      if Grouped(front).None? {
        StaysOutgrown(assets);
      } else {
        var ps := Grouped(front).value;
        AddAssetAdds(ps, a);
        if AddAsset(ps, a).None? {
          IsOutgrown(assets, a.policy, a.name);
        } else {
          var qs := AddAsset(ps, a).value;
          NotOutgrown(assets, qs);
        }
      }
    }
  }

  lemma {:induction false} NothingGrouped()
    ensures WellGrouped([]) && !Outgrown([]) && forall policy, name :: Lookup([], policy, name) == Balance([], policy, name)
  {
  }

  lemma {:induction false} StaysOutgrown(assets: seq<Asset>)
    requires assets != [] && Outgrown(assets[..|assets| - 1])
    ensures Outgrown(assets)
  {
    var front := assets[..|assets| - 1];
    var policy, name :| Balance(front, policy, name).Some? && Balance(front, policy, name).value >= U64;
    assert Balance(assets, policy, name).Some? && Balance(assets, policy, name).value >= U64;
  }

  lemma {:induction false} IsOutgrown(assets: seq<Asset>, policy: seq<byte>, name: seq<byte>)
    requires Balance(assets, policy, name).Some? && Balance(assets, policy, name).value >= U64
    ensures Outgrown(assets)
  {
  }

  lemma {:induction false} NotOutgrown(assets: seq<Asset>, policies: seq<Policy>)
    requires WellGrouped(policies) && forall policy, name :: Lookup(policies, policy, name) == Balance(assets, policy, name)
    ensures !Outgrown(assets)
  {
    hide Lookup, WellGrouped;
    forall policy, name | Balance(assets, policy, name).Some? ensures Balance(assets, policy, name).value < U64 {
      assert Lookup(policies, policy, name) == Balance(assets, policy, name);
      LookupFits(policies, policy, name);
    }
  }

  lemma {:induction false} LookupFits(policies: seq<Policy>, id: seq<byte>, name: seq<byte>)
    requires WellGrouped(policies)
    ensures Lookup(policies, id, name).Some? ==> Lookup(policies, id, name).value < U64
  {
    hide PolicyOf, TokenOf;
    PolicyOfIs(policies, id);
    if PolicyOf(policies, id).Some? {
      var tokens := PolicyOf(policies, id).value;
      var i :| 0 <= i < |policies| && policies[i] == Policy(id, tokens);
      TokenOfIs(tokens, name);
    }
  }
}
