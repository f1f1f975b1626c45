/** What a child key of src/cardano_derive.rs is made of: the two HMAC inputs by position,
    and the child's scalar, nonce and chain code as numbers and bytes. */
module CardanoInputs {
  import opened Options
  import opened Bytes
  import opened Layout
  import opened CardanoDerive

  ghost predicate KeyOk(k: XPrv) {
    |k.scalar| == |k.nonce| == |k.pubKey| == 32
  }

  // ----- the two inputs -----

  /** The input of a hardened child: a tag, scalar, nonce and index. */
  ghost predicate HardAt(s: seq<byte>, tag: byte, k: XPrv, index: Index) {
    |s| == 69 && s[0] == tag && Holds(s, 1, k.scalar) && Holds(s, 33, k.nonce) && Word4(s, 65) == index
  }

  /** The input of a soft child: a tag, the public key and the index. */
  ghost predicate SoftAt(s: seq<byte>, tag: byte, pubKey: seq<byte>, index: Index) {
    |s| == 37 && s[0] == tag && Holds(s, 1, pubKey) && Word4(s, 33) == index
  }

  lemma {:induction false} HardBytes(tag: byte, k: XPrv, index: Index)
    requires KeyOk(k)
    ensures HardAt([tag] + k.scalar + k.nonce + Le(index, 4), tag, k, index)
  {
    hide Le, Word4;
    var s := [tag] + k.scalar + k.nonce + Le(index, 4);
    assert s == [tag] + (k.scalar + (k.nonce + Le(index, 4)));
    Cut(s, 0, [tag], k.scalar + (k.nonce + Le(index, 4)));
    Cut(s, 1, k.scalar, k.nonce + Le(index, 4));
    Cut(s, 33, k.nonce, Le(index, 4));
    Cut(s, 65, Le(index, 4), []);
    LeIsWord4(index);
    Word4Within(s, 65, Le(index, 4), 0);
  }

  lemma {:induction false} SoftBytes(tag: byte, pubKey: seq<byte>, index: Index)
    requires |pubKey| == 32
    ensures SoftAt([tag] + pubKey + Le(index, 4), tag, pubKey, index)
  {
    hide Le, Word4;
    var s := [tag] + pubKey + Le(index, 4);
    assert s == [tag] + (pubKey + Le(index, 4));
    Cut(s, 0, [tag], pubKey + Le(index, 4));
    Cut(s, 1, pubKey, Le(index, 4));
    Cut(s, 33, Le(index, 4), []);
    LeIsWord4(index);
    Word4Within(s, 33, Le(index, 4), 0);
  }

  /** Tags 0 and 1 and the private key for a hardened child; tags 2 and 3 and the public key
      for a soft one, of a private or a public key. */
  lemma {:induction false} InputsByPosition(k: XPrv, index: Index)
    requires KeyOk(k)
    ensures index >= 0x8000_0000 ==> HardAt(Inputs(k, index).0, 0, k, index) && HardAt(Inputs(k, index).1, 1, k, index)
    ensures index < 0x8000_0000 ==> SoftAt(Inputs(k, index).0, 2, k.pubKey, index) && SoftAt(Inputs(k, index).1, 3, k.pubKey, index)
    ensures index < 0x8000_0000 ==> Inputs(k, index) == SoftInputs(k.pubKey, index)
  {
    hide HardAt, SoftAt;
    HardBytes(0, k, index);
    HardBytes(1, k, index);
    SoftBytes(2, k.pubKey, index);
    SoftBytes(3, k.pubKey, index);
  }

  /** No two children of a key share an HMAC input, and no child uses one twice. */
  lemma {:induction false} InputsDiffer(k: XPrv, index: Index, other: Index)
    requires KeyOk(k)
    ensures Inputs(k, index).0 != Inputs(k, other).1
    ensures index != other ==> Inputs(k, index).0 != Inputs(k, other).0 && Inputs(k, index).1 != Inputs(k, other).1
  {
    hide Inputs, Holds;
    InputsByPosition(k, index);
    InputsByPosition(k, other);
  }

  /** Hardened children of keys that differ have different inputs. */
  lemma {:induction false} KeysDiffer(k: XPrv, other: XPrv, index: Index)
    requires KeyOk(k) && KeyOk(other) && index >= HARDENED
    requires Inputs(k, index).0 == Inputs(other, index).0 || Inputs(k, index).1 == Inputs(other, index).1
    ensures k.scalar == other.scalar && k.nonce == other.nonce
  {
    hide Inputs, Word4;
    InputsByPosition(k, index);
    InputsByPosition(other, index);
    var s := if Inputs(k, index).0 == Inputs(other, index).0 then Inputs(k, index).0 else Inputs(k, index).1;
    SamePiece(s, 1, k.scalar, other.scalar);
    SamePiece(s, 33, k.nonce, other.nonce);
  }

  lemma {:induction false} SamePiece(s: seq<byte>, at: nat, a: seq<byte>, b: seq<byte>)
    requires Holds(s, at, a) && Holds(s, at, b) && |a| == |b|
    ensures a == b
  {
    assert forall j :: 0 <= j < |a| ==> a[j] == s[at + j] == b[j];
  }

  // ----- the child -----

  /** From the two HMAC outputs: the scalar grows by eight times the first 28 bytes of the one,
      the nonce by its last 32, both modulo 2^256, and the chain code is the last half of the
      other. */
  lemma {:induction false} ChildByPosition(env: Env, k: XPrv, index: Index)
    requires EnvOk(env) && XPrvOk(env, k) && KeyOk(k)
    ensures k.chainCode.None? ==> Child(env, k, index) == Err(NoChainCode)
    ensures k.chainCode.Some? ==>
              exists zIn, iIn :: Derived(env, k, index, zIn, iIn) && Child(env, k, index).Ok?
  {
    hide LeValue, Span, Tweaked, Sum256, Inputs, HardAt, SoftAt;
    if k.chainCode.Some? {
      var (zIn, iIn) := Inputs(k, index);
      var z := env.hmac(k.chainCode.value, zIn);
      InputsByPosition(k, index);
      TweakedIs(k.scalar, z[..32]);
      SumIs(k.nonce, z[32..64]);
      Halves(z);
      Halves(env.hmac(k.chainCode.value, iIn));
      assert Derived(env, k, index, zIn, iIn);
    }
  }

  ghost predicate Derived(env: Env, k: XPrv, index: Index, zIn: seq<byte>, iIn: seq<byte>)
    requires EnvOk(env) && XPrvOk(env, k) && k.chainCode.Some?
  {
    && (if index >= 0x8000_0000 then HardAt(zIn, 0, k, index) && HardAt(iIn, 1, k, index)
        else SoftAt(zIn, 2, k.pubKey, index) && SoftAt(iIn, 3, k.pubKey, index))
    && Child(env, k, index).Ok?
    && var z, i, child := env.hmac(k.chainCode.value, zIn), env.hmac(k.chainCode.value, iIn), Child(env, k, index).value;
       && LeValue(child.scalar) == (LeValue(k.scalar) + 8 * LeValue(z[..28])) % Span(32)
       && LeValue(child.nonce) == (LeValue(k.nonce) + LeValue(z[32..])) % Span(32)
       && child.pubKey == env.mulBase(child.scalar) && child.chainCode == Some(i[32..])
  }

  lemma {:induction false} Halves(z: seq<byte>)
    requires |z| == 64
    ensures z[..32][..28] == z[..28] && z[32..64] == z[32..]
  {
  }

  lemma {:induction false} TweakedIs(x: seq<byte>, y: seq<byte>)
    requires |x| == |y| == 32
    ensures LeValue(Tweaked(x, y)) == (LeValue(x) + 8 * LeValue(y[..28])) % Span(32)
  {
    hide LeValue, Span, Le;
    LeReadsBack((LeValue(x) + 8 * LeValue(y[..28])) % Span(32), 32);
  }

  lemma {:induction false} SumIs(x: seq<byte>, y: seq<byte>)
    ensures LeValue(Sum256(x, y)) == (LeValue(x) + LeValue(y)) % Span(32)
  {
    hide LeValue, Span, Le;
    LeReadsBack((LeValue(x) + LeValue(y)) % Span(32), 32);
  }

  /** The same step from a public key: the same inputs, the point moved by eight times the first
      28 bytes of the one output, and the last half of the other as chain code. */
  lemma {:induction false} PublicChildByPosition(env: Env, p: XPub, index: Index)
    requires EnvOk(env) && |p.pubKey| == 32 && index < 0x8000_0000
    ensures exists zIn, iIn, tweak ::
              && SoftAt(zIn, 2, p.pubKey, index) && SoftAt(iIn, 3, p.pubKey, index)
              && |tweak| == 32 && LeValue(tweak) == 8 * LeValue(env.hmac(p.chainCode, zIn)[..28]) % Span(32)
              && PublicChild(env, p, index) ==
                   match env.addBase(p.pubKey, tweak)
                   case None => Err(InvalidPoint)
                   case Some(point) => Ok(XPub(point, env.hmac(p.chainCode, iIn)[32..]))
  {
    hide LeValue, Span, Tweaked, SoftAt;
    var (zIn, iIn) := SoftInputs(p.pubKey, index);
    SoftBytes(2, p.pubKey, index);
    SoftBytes(3, p.pubKey, index);
    var z := env.hmac(p.chainCode, zIn);
    var tweak := Tweaked(NO_SCALAR, z[..32]);
    TweakedIs(NO_SCALAR, z[..32]);
    NoScalarIsZero(32);
    Halves(z);
    Halves(env.hmac(p.chainCode, iIn));
    assert SoftAt(zIn, 2, p.pubKey, index) && SoftAt(iIn, 3, p.pubKey, index);
    assert |tweak| == 32 && LeValue(tweak) == 8 * LeValue(env.hmac(p.chainCode, zIn)[..28]) % Span(32);
  }

  /** A path is walked from its front: going down one path and then another is going down both,
      and one step is one child. */
  lemma {:induction false} PathsCompose(env: Env, k: XPrv, first: seq<Index>, rest: seq<Index>, index: Index)
    requires EnvOk(env) && XPrvOk(env, k) && Descendant(env, k, first).Ok?
    ensures Descendant(env, k, first + rest) == Descendant(env, Descendant(env, k, first).value, rest)
    ensures Descendant(env, k, [index]) == Child(env, k, index)
    decreases |rest|
  {
    hide Child;
    assert [index][..0] == [] && Descendant(env, k, []) == Ok(k);
    if rest == [] {
      assert first + rest == first;
    } else {
      var n := |rest| - 1;
      assert (first + rest)[..|first + rest| - 1] == first + rest[..n];
      PathsCompose(env, k, first, rest[..n], index);
    }
  }

  // ----- the clamp -----

  /** The clamp of a root: the first byte goes down to a multiple of 8, the last keeps its low
      five bits and gets the second highest set, and nothing else changes. */
  lemma {:induction false} ClampByPosition(xprv: seq<byte>)
    requires |xprv| == 32
    ensures var s := Clamped(xprv);
            && s[0] % 8 == 0 && xprv[0] as int - 7 <= s[0] as int <= xprv[0] as int
            && s[31] % 32 == xprv[31] % 32 && 64 <= s[31] < 96
            && forall i :: 1 <= i < 31 ==> s[i] == xprv[i]
  {
  }
}
