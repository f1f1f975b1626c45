/** The CBOR map of a Cardano output's tokens, src/cardanotx.rs: what it is encoded as does
    not depend on the order of the tokens, and flattening the map decoded gives them back. */
module MultiassetCbor {
  import opened Options
  import opened Bytes
  import opened Multiasset
  import C = Cbor
  import R = CborRoundTrip
  import S = CborSplit

  // ----- the map -----

  function TokenEntry(t: Token): C.Entry {
    C.Entry(C.Bytes(t.name), C.Uint(t.amount))
  }

  function TokenEntries(tokens: seq<Token>): (es: seq<C.Entry>)
    ensures |es| == |tokens| && forall i :: 0 <= i < |es| ==> es[i] == TokenEntry(tokens[i])
  {
    seq(|tokens|, i requires 0 <= i < |tokens| => TokenEntry(tokens[i]))
  }

  function PolicyEntry(p: Policy): C.Entry {
    C.Entry(C.Bytes(p.id), C.Map(TokenEntries(p.tokens)))
  }

  function PolicyEntries(policies: seq<Policy>): (es: seq<C.Entry>)
    ensures |es| == |policies| && forall i :: 0 <= i < |es| ==> es[i] == PolicyEntry(policies[i])
  {
    seq(|policies|, i requires 0 <= i < |policies| => PolicyEntry(policies[i]))
  }

  /** `{policy => {name => amount}}`. */
  function ToCbor(policies: seq<Policy>): C.Cbor {
    C.Map(PolicyEntries(policies))
  }

  ghost predicate TokensFit(tokens: seq<Token>) {
    2 * |tokens| < U64 && forall i :: 0 <= i < |tokens| ==> |tokens[i].name| < U64 && tokens[i].amount < U64
  }

  ghost predicate PoliciesFit(policies: seq<Policy>) {
    2 * |policies| < U64 && forall i :: 0 <= i < |policies| ==> |policies[i].id| < U64 && TokensFit(policies[i].tokens)
  }

  lemma {:induction false} TokensFitCbor(tokens: seq<Token>)
    requires TokensFit(tokens)
    ensures C.Fits(C.Map(TokenEntries(tokens))) && R.AllFit(TokenEntries(tokens))
  {
    var es := TokenEntries(tokens);
    forall i | 0 <= i < |es| ensures C.Fits(es[i].key) && C.Fits(es[i].value) {
      assert es[i] == TokenEntry(tokens[i]);
    }
  }

  lemma {:induction false} PoliciesFitCbor(policies: seq<Policy>)
    requires PoliciesFit(policies)
    ensures C.Fits(ToCbor(policies)) && R.AllFit(PolicyEntries(policies))
  {
    hide TokensFit;
    var es := PolicyEntries(policies);
    forall i | 0 <= i < |es| ensures C.Fits(es[i].key) && C.Fits(es[i].value) {
      assert es[i] == PolicyEntry(policies[i]);
      TokensFitCbor(policies[i].tokens);
    }
  }

  // ----- the encoding does not depend on the order -----

  /** Pairs without a key twice are determined by which pairs they are. */
  lemma {:induction false} SameMembers(a: seq<C.Pair>, b: seq<C.Pair>)
    requires R.DistinctKeys(a) && R.DistinctKeys(b) && forall x :: x in a <==> x in b
    ensures multiset(a) == multiset(b)
  {
    forall x ensures multiset(a)[x] == multiset(b)[x] {
      if x in a {
        var i :| 0 <= i < |a| && a[i] == x;
        var j :| 0 <= j < |b| && b[j] == x;
        R.Once(a, i);
        R.Once(b, j);
      } else {
        assert x !in multiset(a) && x !in multiset(b);
      }
    }
  }

  /** Byte strings of different bytes have different encodings. */
  lemma {:induction false} KeysDiffer(a: seq<byte>, b: seq<byte>)
    requires |a| < U64 && |b| < U64 && C.Encode(C.Bytes(a)) == C.Encode(C.Bytes(b))
    ensures a == b
  {
    hide C.WriteHead;
    R.EncodingIsInjective(C.Bytes(a), C.Bytes(b));
  }

  lemma {:induction false} TokenPairs(tokens: seq<Token>)
    requires TokensFit(tokens)
    ensures R.AllFit(TokenEntries(tokens))
    ensures var pairs := C.EncodePairs(TokenEntries(tokens));
            && |pairs| == |tokens|
            && (forall i :: 0 <= i < |tokens| ==> pairs[i] == C.EncodeEntry(TokenEntry(tokens[i])))
            && (DistinctNames(tokens) ==> R.DistinctKeys(pairs))
  {
    hide C.EncodePairs, C.WriteHead;
    TokensFitCbor(tokens);
    S.EncodedPairs(TokenEntries(tokens));
    if DistinctNames(tokens) {
      forall i, j | 0 <= i < j < |tokens|
        ensures C.EncodeEntry(TokenEntry(tokens[i])).0 != C.EncodeEntry(TokenEntry(tokens[j])).0
      {
        if C.Encode(C.Bytes(tokens[i].name)) == C.Encode(C.Bytes(tokens[j].name)) {
          KeysDiffer(tokens[i].name, tokens[j].name);
        }
      }
    }
  }

  /** The same tokens, in another order, are encoded the same. */
  lemma {:induction false} TokensEncodeAlike(a: seq<Token>, b: seq<Token>)
    requires TokensFit(a) && TokensFit(b) && DistinctNames(a) && DistinctNames(b)
    requires forall name :: TokenOf(a, name) == TokenOf(b, name)
    ensures C.Fits(C.Map(TokenEntries(a))) && C.Fits(C.Map(TokenEntries(b)))
    ensures C.Encode(C.Map(TokenEntries(a))) == C.Encode(C.Map(TokenEntries(b)))
  {
    hide C.Encode, C.EncodePairs, C.EncodeEntry, TokenOf, TokensFit, DistinctNames, R.DistinctKeys;
    TokensFitCbor(a);
    TokensFitCbor(b);
    TokenPairs(a);
    TokenPairs(b);
    var x, y := C.EncodePairs(TokenEntries(a)), C.EncodePairs(TokenEntries(b));
    TokenMembers(a, b, x, y);
    TokenMembers(b, a, y, x);
    SameMembers(x, y);
    R.MapOrderIsIrrelevant(TokenEntries(a), TokenEntries(b));
  }

  lemma {:induction false} TokenMembers(a: seq<Token>, b: seq<Token>, x: seq<C.Pair>, y: seq<C.Pair>)
    requires DistinctNames(a) && (forall name :: TokenOf(a, name) == TokenOf(b, name))
    requires TokensFit(a) && TokensFit(b) && |x| == |a| && |y| == |b|
    requires forall i :: 0 <= i < |a| ==> x[i] == C.EncodeEntry(TokenEntry(a[i]))
    requires forall i :: 0 <= i < |b| ==> y[i] == C.EncodeEntry(TokenEntry(b[i]))
    ensures forall p :: p in x ==> p in y
  {
    hide C.EncodeEntry, TokenOf, DistinctNames;
    forall i | 0 <= i < |a| ensures x[i] in y {
      TokenInList(a, a[i]);
      TokenOfIs(b, a[i].name);
      assert a[i] in b;
      var j :| 0 <= j < |b| && b[j] == a[i];
      assert y[j] == x[i];
    }
  }

  lemma {:induction false} PolicyPairs(policies: seq<Policy>)
    requires PoliciesFit(policies)
    ensures R.AllFit(PolicyEntries(policies))
    ensures var pairs := C.EncodePairs(PolicyEntries(policies));
            && |pairs| == |policies|
            && (forall i :: 0 <= i < |policies| ==> pairs[i] == C.EncodeEntry(PolicyEntry(policies[i])))
            && (DistinctIds(policies) ==> R.DistinctKeys(pairs))
  {
    hide C.EncodePairs, C.Encode, TokensFit;
    PoliciesFitCbor(policies);
    S.EncodedPairs(PolicyEntries(policies));
    if DistinctIds(policies) {
      forall i, j | 0 <= i < j < |policies|
        ensures C.EncodeEntry(PolicyEntry(policies[i])).0 != C.EncodeEntry(PolicyEntry(policies[j])).0
      {
        if C.Encode(C.Bytes(policies[i].id)) == C.Encode(C.Bytes(policies[j].id)) {
          KeysDiffer(policies[i].id, policies[j].id);
        }
      }
    }
  }

  /** Groups that hold the same amounts of the same tokens are encoded the same, whatever the
      order of their policies and tokens. */
  lemma {:induction false} GroupsEncodeAlike(a: seq<Policy>, b: seq<Policy>)
    requires PoliciesFit(a) && PoliciesFit(b) && WellGrouped(a) && WellGrouped(b)
    requires forall id, name :: Lookup(a, id, name) == Lookup(b, id, name)
    ensures C.Fits(ToCbor(a)) && C.Fits(ToCbor(b)) && C.Encode(ToCbor(a)) == C.Encode(ToCbor(b))
  {
    hide C.Encode, C.EncodePairs, C.EncodeEntry, Lookup, PoliciesFit, R.DistinctKeys, TokensOk;
    PoliciesFitCbor(a);
    PoliciesFitCbor(b);
    PolicyPairs(a);
    PolicyPairs(b);
    var x, y := C.EncodePairs(PolicyEntries(a)), C.EncodePairs(PolicyEntries(b));
    PolicyMembers(a, b, x, y);
    PolicyMembers(b, a, y, x);
    SameMembers(x, y);
    R.MapOrderIsIrrelevant(PolicyEntries(a), PolicyEntries(b));
  }

  lemma {:induction false} PolicyMembers(a: seq<Policy>, b: seq<Policy>, x: seq<C.Pair>, y: seq<C.Pair>)
    requires PoliciesFit(a) && PoliciesFit(b) && WellGrouped(a) && WellGrouped(b)
    requires forall id, name :: Lookup(a, id, name) == Lookup(b, id, name)
    requires R.AllFit(PolicyEntries(a)) && R.AllFit(PolicyEntries(b)) && |x| == |a| && |y| == |b|
    requires forall i :: 0 <= i < |a| ==> x[i] == C.EncodeEntry(PolicyEntry(a[i]))
    requires forall i :: 0 <= i < |b| ==> y[i] == C.EncodeEntry(PolicyEntry(b[i]))
    ensures forall p :: p in x ==> p in y
  {
    hide C.EncodeEntry, PoliciesFit, WellGrouped, Lookup, R.AllFit;
    forall i | 0 <= i < |a| ensures x[i] in y {
      var j := SamePolicy(a, b, i);
      PolicyEntriesAlike(a[i], b[j]);
    }
  }

  lemma {:induction false} PolicyEntriesAlike(p: Policy, q: Policy)
    requires p.id == q.id && |p.id| < U64 && TokensFit(p.tokens) && TokensFit(q.tokens)
    requires DistinctNames(p.tokens) && DistinctNames(q.tokens)
    requires forall name :: TokenOf(p.tokens, name) == TokenOf(q.tokens, name)
    ensures C.Fits(PolicyEntry(p).key) && C.Fits(PolicyEntry(p).value) && C.Fits(PolicyEntry(q).key) && C.Fits(PolicyEntry(q).value)
    ensures C.EncodeEntry(PolicyEntry(p)) == C.EncodeEntry(PolicyEntry(q))
  {
    hide C.Encode, TokensFit, DistinctNames, TokenOf, TokenEntries;
    TokensEncodeAlike(p.tokens, q.tokens);
  }

  /** The policy of the same id on the other side: it is there, and holds the same. */
  lemma {:induction false} SamePolicy(a: seq<Policy>, b: seq<Policy>, i: nat) returns (j: nat)
    requires PoliciesFit(a) && PoliciesFit(b) && WellGrouped(a) && WellGrouped(b) && i < |a|
    requires forall id, name :: Lookup(a, id, name) == Lookup(b, id, name)
    ensures j < |b| && b[j].id == a[i].id && |a[i].id| < U64
    ensures TokensFit(a[i].tokens) && TokensFit(b[j].tokens) && DistinctNames(a[i].tokens) && DistinctNames(b[j].tokens)
    ensures forall name :: TokenOf(a[i].tokens, name) == TokenOf(b[j].tokens, name)
  {
    hide PolicyOf, TokenOf, TokensFit;
    var p := a[i];
    PolicyInList(a, p);
    var t := p.tokens[0];
    TokenInList(p.tokens, t);
    assert Lookup(a, p.id, t.name).Some? && Lookup(b, p.id, t.name).Some?;
    PolicyOfIs(b, p.id);
    var tokens := PolicyOf(b, p.id).value;
    j :| 0 <= j < |b| && b[j] == Policy(p.id, tokens);
    forall name ensures TokenOf(p.tokens, name) == TokenOf(tokens, name) {
      assert Lookup(a, p.id, name) == Lookup(b, p.id, name);
    }
  }

  // ----- groups of the same size -----

  /** Distinct byte strings, each one of others: no more than those. */
  lemma {:induction false} NoMore(a: seq<seq<byte>>, b: seq<seq<byte>>)
    requires (forall i, j :: 0 <= i < j < |a| ==> a[i] != a[j]) && forall x :: x in a ==> x in b
    ensures |a| <= |b|
    decreases |a|
  {
    if a != [] {
      var n := |a| - 1;
      assert a[n] in a;
      var j :| 0 <= j < |b| && b[j] == a[n];
      var rest := b[..j] + b[j + 1..];
      forall x | x in a[..n] ensures x in rest {
        assert x in a;
        var k :| 0 <= k < |b| && b[k] == x;
        var i :| 0 <= i < n && a[..n][i] == x;
        assert a[i] == x && k != j;
        assert x in if k < j then b[..j] else b[j + 1..] by {
          assert if k < j then b[..j][k] == x else b[j + 1..][k - j - 1] == x;
        }
      }
      NoMore(a[..n], rest);
    }
  }

  function Names(tokens: seq<Token>): (s: seq<seq<byte>>)
    ensures |s| == |tokens| && forall i :: 0 <= i < |s| ==> s[i] == tokens[i].name
  {
    seq(|tokens|, i requires 0 <= i < |tokens| => tokens[i].name)
  }

  function Ids(policies: seq<Policy>): (s: seq<seq<byte>>)
    ensures |s| == |policies| && forall i :: 0 <= i < |s| ==> s[i] == policies[i].id
  {
    seq(|policies|, i requires 0 <= i < |policies| => policies[i].id)
  }

  lemma {:induction false} TokensFitAlike(a: seq<Token>, b: seq<Token>)
    requires TokensFit(a) && TokensOk(b) && forall name :: TokenOf(a, name) == TokenOf(b, name)
    ensures TokensFit(b)
  {
    hide TokenOf;
    forall i | 0 <= i < |b| ensures b[i].name in Names(a) && |b[i].name| < U64 {
      TokenInList(b, b[i]);
      TokenOfIs(a, b[i].name);
      var j :| 0 <= j < |a| && a[j] == Token(b[i].name, TokenOf(a, b[i].name).value);
      assert Names(a)[j] == b[i].name;
    }
    NoMore(Names(b), Names(a));
  }

  /** Groups that hold the same fit as well. */
  lemma {:induction false} GroupsFitAlike(a: seq<Policy>, b: seq<Policy>)
    requires PoliciesFit(a) && WellGrouped(a) && WellGrouped(b)
    requires forall id, name :: Lookup(b, id, name) == Lookup(a, id, name)
    ensures PoliciesFit(b)
  {
    hide Lookup, TokensFit, TokensOk;
    forall i | 0 <= i < |b| ensures b[i].id in Ids(a) && |b[i].id| < U64 && TokensFit(b[i].tokens) {
      var j := PolicyBehind(a, b, i);
      assert Ids(a)[j] == b[i].id;
      TokensFitAlike(a[j].tokens, b[i].tokens);
    }
    NoMore(Ids(b), Ids(a));
  }

  lemma {:induction false} PolicyBehind(a: seq<Policy>, b: seq<Policy>, i: nat) returns (j: nat)
    requires WellGrouped(a) && WellGrouped(b) && i < |b|
    requires forall id, name :: Lookup(b, id, name) == Lookup(a, id, name)
    ensures j < |a| && a[j].id == b[i].id && TokensOk(a[j].tokens)
    ensures forall name :: TokenOf(a[j].tokens, name) == TokenOf(b[i].tokens, name)
  {
    hide PolicyOf, TokenOf;
    var p := b[i];
    PolicyInList(b, p);
    var t := p.tokens[0];
    TokenInList(p.tokens, t);
    assert Lookup(b, p.id, t.name).Some? && Lookup(a, p.id, t.name).Some?;
    PolicyOfIs(a, p.id);
    var tokens := PolicyOf(a, p.id).value;
    j :| 0 <= j < |a| && a[j] == Policy(p.id, tokens);
    forall name ensures TokenOf(tokens, name) == TokenOf(p.tokens, name) {
      assert Lookup(a, p.id, name) == Lookup(b, p.id, name);
    }
  }

  // ----- the canonical map -----

  lemma {:induction false} CanonTokenEntries(tokens: seq<Token>)
    requires TokensFit(tokens)
    ensures R.AllFit(TokenEntries(tokens)) && R.CanonEntries(TokenEntries(tokens)) == TokenEntries(tokens)
  {
    TokensFitCbor(tokens);
    if tokens != [] {
      CanonTokenEntries(tokens[1..]);
      assert TokenEntries(tokens)[1..] == TokenEntries(tokens[1..]);
      assert TokenEntries(tokens) == [TokenEntry(tokens[0])] + TokenEntries(tokens[1..]);
      LeafIsCanon(C.Bytes(tokens[0].name));
      LeafIsCanon(C.Uint(tokens[0].amount));
    }
  }

  lemma {:induction false} LeafIsCanon(v: C.Cbor)
    requires C.Fits(v) && (v.Bytes? || v.Uint?)
    ensures R.Canon(v) == v
  {
  }

  lemma {:induction false} CanonPolicyEntry(p: Policy, tokens: seq<Token>)
    requires |p.id| < U64 && C.Fits(C.Map(TokenEntries(p.tokens)))
    requires R.Canon(C.Map(TokenEntries(p.tokens))) == C.Map(TokenEntries(tokens))
    ensures C.Fits(PolicyEntry(p).key) && R.CanonEntry(PolicyEntry(p)) == PolicyEntry(Policy(p.id, tokens))
  {
    hide R.CanonEntries, R.SortEntries, TokenEntries;
    LeafIsCanon(C.Bytes(p.id));
  }

  /** The tokens that entries stand for. */
  lemma {:induction false} TokensBehind(es: seq<C.Entry>, tokens: seq<Token>) returns (sorted: seq<Token>)
    requires forall e :: e in es <==> e in TokenEntries(tokens)
    ensures TokenEntries(sorted) == es && forall t :: t in sorted <==> t in tokens
  {
    forall i | 0 <= i < |es| ensures es[i].key.Bytes? && es[i].value.Uint? && Token(es[i].key.b, es[i].value.v) in tokens {
      assert es[i] in TokenEntries(tokens);
      var j :| 0 <= j < |tokens| && TokenEntries(tokens)[j] == es[i];
      assert tokens[j] == Token(es[i].key.b, es[i].value.v);
    }
    sorted := seq(|es|, i requires 0 <= i < |es| => Token(es[i].key.b, es[i].value.v));
    forall t | t in tokens ensures t in sorted {
      var j :| 0 <= j < |tokens| && tokens[j] == t;
      assert TokenEntries(tokens)[j] in es;
      var i :| 0 <= i < |es| && es[i] == TokenEntry(t);
      assert sorted[i] == t;
    }
  }

  /** Sorting the entries of distinct names keeps them distinct. */
  lemma {:induction false} SortedNames(tokens: seq<Token>, sorted: seq<Token>)
    requires TokensFit(tokens) && DistinctNames(tokens) && TokensFit(sorted)
    requires R.AllFit(TokenEntries(tokens)) && TokenEntries(sorted) == R.SortEntries(TokenEntries(tokens))
    ensures DistinctNames(sorted)
  {
    hide C.EncodePairs, C.EncodeEntry, C.SortPairs, R.SortEntries;
    var es := TokenEntries(tokens);
    TokenPairs(tokens);
    TokenPairs(sorted);
    R.SortEncodes(es);
    R.SortSorts(C.EncodePairs(es));
    R.DistinctSurvives(C.EncodePairs(es), C.EncodePairs(TokenEntries(sorted)));
    var pairs := C.EncodePairs(TokenEntries(sorted));
    forall i, j | 0 <= i < j < |sorted| ensures sorted[i].name != sorted[j].name {
      SameNameSameKey(sorted[i], sorted[j]);
      assert pairs[i].0 != pairs[j].0;
    }
  }

  lemma {:induction false} SameNameSameKey(s: Token, t: Token)
    requires |s.name| < U64 && |t.name| < U64 && s.amount < U64 && t.amount < U64
    ensures s.name == t.name ==> C.EncodeEntry(TokenEntry(s)).0 == C.EncodeEntry(TokenEntry(t)).0
  {
    hide C.Encode;
  }

  lemma {:induction false} MembersFit(tokens: seq<Token>, sorted: seq<Token>)
    requires TokensFit(tokens) && |sorted| == |tokens| && forall t :: t in sorted ==> t in tokens
    ensures TokensFit(sorted)
  {
    forall i | 0 <= i < |sorted| ensures |sorted[i].name| < U64 && sorted[i].amount < U64 {
      assert sorted[i] in tokens;
    }
  }

  /** A map of tokens in canonical form is one of the same tokens. */
  lemma {:induction false} CanonTokens(tokens: seq<Token>) returns (sorted: seq<Token>)
    requires TokensFit(tokens) && TokensOk(tokens)
    ensures C.Fits(C.Map(TokenEntries(tokens)))
    ensures R.Canon(C.Map(TokenEntries(tokens))) == C.Map(TokenEntries(sorted))
    ensures TokensFit(sorted) && TokensOk(sorted) && forall name :: TokenOf(sorted, name) == TokenOf(tokens, name)
  {
    hide R.SortEntries, R.CanonEntries, TokenOf, TokensFit, DistinctNames;
    TokensFitCbor(tokens);
    CanonTokenEntries(tokens);
    var es := R.SortEntries(TokenEntries(tokens));
    sorted := TokensBehind(es, tokens);
    MembersFit(tokens, sorted);
    SortedNames(tokens, sorted);
    SameTokens(tokens, sorted);
  }

  lemma {:induction false} SameTokens(a: seq<Token>, b: seq<Token>)
    requires TokensOk(a) && DistinctNames(b) && |a| == |b| && forall t :: t in a <==> t in b
    ensures TokensOk(b) && forall name :: TokenOf(b, name) == TokenOf(a, name)
  {
    hide TokenOf;
    forall i | 0 <= i < |b| ensures b[i].amount < U64 {
      assert b[i] in a;
    }
    forall name ensures TokenOf(b, name) == TokenOf(a, name) {
      TokenOfIs(a, name);
      TokenOfIs(b, name);
      if TokenOf(a, name).Some? {
        TokenInList(b, Token(name, TokenOf(a, name).value));
      } else if TokenOf(b, name).Some? {
        TokenInList(a, Token(name, TokenOf(b, name).value));
      }
    }
  }

  /** Policies with the same ids, one by one, that hold the same tokens. */
  ghost predicate Alike(a: seq<Policy>, b: seq<Policy>) {
    |a| == |b| && forall i :: 0 <= i < |a| ==>
      b[i].id == a[i].id && TokensFit(b[i].tokens) && TokensOk(b[i].tokens)
      && forall name :: TokenOf(b[i].tokens, name) == TokenOf(a[i].tokens, name)
  }

  lemma {:induction false} FirstEntry(policies: seq<Policy>)
    requires policies != []
    ensures PolicyEntries(policies) == [PolicyEntry(policies[0])] + PolicyEntries(policies[1..])
  {
    hide PolicyEntry;
  }

  lemma {:induction false} OneMoreAlike(a: seq<Policy>, tokens: seq<Token>, rest: seq<Policy>)
    requires a != [] && Alike(a[1..], rest) && TokensFit(tokens) && TokensOk(tokens)
    requires forall name :: TokenOf(tokens, name) == TokenOf(a[0].tokens, name)
    ensures Alike(a, [Policy(a[0].id, tokens)] + rest)
  {
    hide TokensFit, TokensOk, TokenOf;
    var b := [Policy(a[0].id, tokens)] + rest;
    assert forall i :: 1 <= i < |a| ==> a[i] == a[1..][i - 1] && b[i] == rest[i - 1];
  }

  /** Each map of tokens in canonical form. */
  lemma {:induction false} CanonEach(policies: seq<Policy>) returns (each: seq<Policy>)
    requires PoliciesFit(policies) && forall i :: 0 <= i < |policies| ==> TokensOk(policies[i].tokens)
    ensures R.AllFit(PolicyEntries(policies)) && R.CanonEntries(PolicyEntries(policies)) == PolicyEntries(each)
    ensures Alike(policies, each)
    decreases |policies|
  {
    hide TokensFit, TokensOk, TokenOf, PolicyEntry, PolicyEntries, R.AllFit, Alike;
    PoliciesFitCbor(policies);
    if policies == [] {
      each := [];
      NoneAlike();
    } else {
      var p := policies[0];
      var rest := CanonEach(policies[1..]);
      var tokens := CanonTokens(p.tokens);
      CanonPolicyEntry(p, tokens);
      each := [Policy(p.id, tokens)] + rest;
      FirstEntry(policies);
      FirstEntry(each);
      assert each[1..] == rest;
      OneMoreAlike(policies, tokens, rest);
    }
  }

  lemma {:induction false} NoneAlike()
    ensures Alike([], []) && PolicyEntries([]) == []
  {
  }

  lemma {:induction false} AlikeLookup(a: seq<Policy>, b: seq<Policy>, id: seq<byte>, name: seq<byte>)
    requires Alike(a, b)
    ensures Lookup(b, id, name) == Lookup(a, id, name)
  {
    hide TokensFit, TokensOk, TokenOf;
    if a != [] && a[0].id != id {
      assert forall i :: 0 <= i < |a| - 1 ==> a[1..][i] == a[i + 1] && b[1..][i] == b[i + 1];
      AlikeLookup(a[1..], b[1..], id, name);
    }
  }

  lemma {:induction false} AlikeIds(a: seq<Policy>, b: seq<Policy>)
    requires Alike(a, b) && DistinctIds(a)
    ensures DistinctIds(b)
  {
    hide TokensFit, TokensOk, TokenOf;
  }

  /** The policies that entries stand for. */
  lemma {:induction false} PoliciesBehind(es: seq<C.Entry>, policies: seq<Policy>) returns (sorted: seq<Policy>)
    requires forall e :: e in es ==> e in PolicyEntries(policies)
    ensures PolicyEntries(sorted) == es && forall p :: p in sorted ==> p in policies
    decreases |es|
  {
    hide PolicyEntry;
    if es == [] {
      sorted := [];
    } else {
      assert es[0] in PolicyEntries(policies);
      var j :| 0 <= j < |policies| && PolicyEntries(policies)[j] == es[0];
      var rest := PoliciesBehind(es[1..], policies);
      sorted := [policies[j]] + rest;
      FirstEntry(sorted);
      assert sorted[1..] == rest && es == [es[0]] + es[1..];
    }
  }

  lemma {:induction false} EntryTells(p: Policy, q: Policy)
    requires PolicyEntry(p) == PolicyEntry(q)
    ensures p == q
  {
    var a, b := TokenEntries(p.tokens), TokenEntries(q.tokens);
    assert a == b;
    forall i | 0 <= i < |p.tokens| ensures p.tokens[i] == q.tokens[i] {
      assert a[i] == b[i];
    }
  }

  /** Sorting the entries of distinct ids keeps them distinct. */
  lemma {:induction false} SortedIds(policies: seq<Policy>, sorted: seq<Policy>)
    requires PoliciesFit(policies) && DistinctIds(policies) && PoliciesFit(sorted)
    requires R.AllFit(PolicyEntries(policies)) && PolicyEntries(sorted) == R.SortEntries(PolicyEntries(policies))
    ensures DistinctIds(sorted)
  {
    hide C.EncodePairs, C.EncodeEntry, C.SortPairs, R.SortEntries, TokensFit;
    var es := PolicyEntries(policies);
    PolicyPairs(policies);
    PolicyPairs(sorted);
    R.SortEncodes(es);
    R.SortSorts(C.EncodePairs(es));
    R.DistinctSurvives(C.EncodePairs(es), C.EncodePairs(PolicyEntries(sorted)));
    var pairs := C.EncodePairs(PolicyEntries(sorted));
    forall i, j | 0 <= i < j < |sorted| ensures sorted[i].id != sorted[j].id {
      SameIdSameKey(sorted[i], sorted[j]);
      assert pairs[i].0 != pairs[j].0;
    }
  }

  lemma {:induction false} SameIdSameKey(p: Policy, q: Policy)
    requires |p.id| < U64 && |q.id| < U64 && TokensFit(p.tokens) && TokensFit(q.tokens)
    ensures C.Fits(PolicyEntry(p).key) && C.Fits(PolicyEntry(p).value) && C.Fits(PolicyEntry(q).key) && C.Fits(PolicyEntry(q).value)
    ensures p.id == q.id ==> C.EncodeEntry(PolicyEntry(p)).0 == C.EncodeEntry(PolicyEntry(q)).0
  {
    hide C.Encode, TokensFit;
    TokensFitCbor(p.tokens);
    TokensFitCbor(q.tokens);
  }

  lemma {:induction false} PolicyMembersFit(policies: seq<Policy>, sorted: seq<Policy>)
    requires PoliciesFit(policies) && |sorted| == |policies| && forall p :: p in sorted ==> p in policies
    requires forall i :: 0 <= i < |policies| ==> TokensOk(policies[i].tokens)
    ensures PoliciesFit(sorted) && forall i :: 0 <= i < |sorted| ==> TokensOk(sorted[i].tokens)
  {
    hide TokensFit, TokensOk;
    forall i | 0 <= i < |sorted| ensures |sorted[i].id| < U64 && TokensFit(sorted[i].tokens) && TokensOk(sorted[i].tokens) {
      assert sorted[i] in policies;
    }
  }

  lemma {:induction false} MembersLookup(a: seq<Policy>, b: seq<Policy>, id: seq<byte>, name: seq<byte>)
    requires DistinctIds(a) && DistinctIds(b) && forall p :: p in a <==> p in b
    ensures Lookup(b, id, name) == Lookup(a, id, name)
  {
    hide PolicyOf, TokenOf;
    PolicyOfIs(a, id);
    PolicyOfIs(b, id);
    if PolicyOf(a, id).Some? {
      PolicyInList(b, Policy(id, PolicyOf(a, id).value));
    } else if PolicyOf(b, id).Some? {
      PolicyInList(a, Policy(id, PolicyOf(b, id).value));
    }
  }

  /** The map of groups in canonical form is one of groups that hold the same. */
  lemma {:induction false} CanonPolicies(policies: seq<Policy>) returns (sorted: seq<Policy>)
    requires PoliciesFit(policies) && WellGrouped(policies)
    ensures C.Fits(ToCbor(policies)) && R.Canon(ToCbor(policies)) == ToCbor(sorted)
    ensures WellGrouped(sorted) && forall id, name :: Lookup(sorted, id, name) == Lookup(policies, id, name)
  {
    hide R.SortEntries, R.CanonEntries, R.AllFit, R.Canon, Lookup, TokensFit, TokensOk, TokenOf, C.Fits, PolicyEntries, DistinctIds;
    PoliciesFitCbor(policies);
    var each := CanonEach(policies);
    PoliciesFitCbor(each);
    var es := R.SortEntries(PolicyEntries(each));
    sorted := PoliciesBehind(es, each);
    AllBehind(each, sorted);
    PolicyMembersFit(each, sorted);
    AlikeIds(policies, each);
    SortedIds(each, sorted);
    forall id, name ensures Lookup(sorted, id, name) == Lookup(policies, id, name) {
      AlikeLookup(policies, each, id, name);
      MembersLookup(each, sorted, id, name);
    }
    CanonOfMap(policies);
  }

  lemma {:induction false} CanonOfMap(policies: seq<Policy>)
    requires C.Fits(ToCbor(policies)) && R.AllFit(PolicyEntries(policies))
    ensures R.Canon(ToCbor(policies)) == C.Map(R.SortEntries(R.CanonEntries(PolicyEntries(policies))))
  {
    hide R.SortEntries, R.CanonEntries;
  }

  /** And they are all of them. */
  lemma {:induction false} AllBehind(policies: seq<Policy>, sorted: seq<Policy>)
    requires forall e :: e in PolicyEntries(policies) ==> e in PolicyEntries(sorted)
    ensures forall p :: p in policies ==> p in sorted
  {
    hide PolicyEntry;
    forall j | 0 <= j < |policies| ensures policies[j] in sorted {
      assert PolicyEntries(policies)[j] in PolicyEntries(sorted);
      var i :| 0 <= i < |sorted| && PolicyEntries(sorted)[i] == PolicyEntry(policies[j]);
      EntryTells(sorted[i], policies[j]);
    }
  }
}
