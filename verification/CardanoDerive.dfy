/** BIP32-Ed25519 key derivation, src/cardano_derive.rs: scalars along a path, and
    public derivation against private. */
module CardanoDerive {
  import opened Options
  import opened Bytes
  import R = Radix

  const HARDENED := 0x8000_0000

  type Index = i: nat | i < 0x1_0000_0000

  datatype Error = NoChainCode | HardenedFromPublic | InvalidPoint

  datatype Result<+T> = Ok(value: T) | Err(error: Error)

  // ----- little-endian arithmetic -----

  lemma {:induction false} LeAppend(s: seq<byte>, b: byte)
    ensures LeValue(s + [b]) == LeValue(s) + b as nat * Span(|s|)
  {
    if s == [] {
      assert s + [b] == [b];
      assert LeValue([b]) == b as nat + 256 * LeValue([]);
    } else {
      assert (s + [b])[1..] == s[1..] + [b];
      LeAppend(s[1..], b);
      R.MulAssoc(256, b as nat, Span(|s| - 1));
      R.Commute(256, b as nat);
      R.MulAssoc(b as nat, 256, Span(|s| - 1));
    }
  }

  /** One more digit of a sum. */
  lemma {:induction false} SumStep(out: nat, carry: nat, sum: nat, r: nat, digit: nat, span: nat)
    requires out + carry * span == sum && r == digit + carry
    ensures (out + (r % 256) * span) + (r / 256) * (256 * span) == sum + digit * span
  {
    var q := r / 256;
    R.MulAssoc(q, 256, span);
    assert r == r % 256 + q * 256;
    assert (r % 256) * span + q * 256 * span == r * span;
    assert r * span == digit * span + carry * span;
  }

  lemma {:induction false} Weighted(a: nat, b: nat, k: nat, span: nat)
    ensures (a + k * b) * span == a * span + k * (b * span)
  {
    R.MulAssoc(k, b, span);
  }

  /** `add28_mul8`: nothing but the carry out of the last byte is lost. */
  method Add28Mul8(x: seq<byte>, y: seq<byte>) returns (out: seq<byte>)
    requires |x| == |y| == 32
    ensures |out| == 32 && LeValue(out) == (LeValue(x) + 8 * LeValue(y[..28])) % Span(32)
    ensures out == Tweaked(x, y)
  {
    hide LeValue, Span, Le;
    out := [];
    var carry: nat := 0;
    NoBytes();
    assert x[..0] == [] && y[..0] == [];
    for i := 0 to 28
      invariant |out| == i && carry <= 9
      invariant LeValue(out) + carry * Span(i) == LeValue(x[..i]) + 8 * LeValue(y[..i])
    {
      var r := x[i] as nat + 8 * y[i] as nat + carry;
      SumStep(LeValue(out), carry, LeValue(x[..i]) + 8 * LeValue(y[..i]), r, x[i] as nat + 8 * y[i] as nat, Span(i));
      Weighted(x[i] as nat, y[i] as nat, 8, Span(i));
      LeAppend(out, (r % 256) as byte);
      LeAppend(x[..i], x[i]);
      LeAppend(y[..i], y[i]);
      assert x[..i + 1] == x[..i] + [x[i]] && y[..i + 1] == y[..i] + [y[i]];
      NextSpan(i);
      out, carry := out + [(r % 256) as byte], r / 256;
    }
    for i := 28 to 32
      invariant |out| == i && carry <= 9
      invariant LeValue(out) + carry * Span(i) == LeValue(x[..i]) + 8 * LeValue(y[..28])
    {
      var r := x[i] as nat + carry;
      SumStep(LeValue(out), carry, LeValue(x[..i]) + 8 * LeValue(y[..28]), r, x[i] as nat, Span(i));
      LeAppend(out, (r % 256) as byte);
      LeAppend(x[..i], x[i]);
      assert x[..i + 1] == x[..i] + [x[i]];
      NextSpan(i);
      out, carry := out + [(r % 256) as byte], r / 256;
    }
    assert x[..32] == x;
    Wrapped(out, carry, LeValue(x) + 8 * LeValue(y[..28]));
  }

  lemma {:induction false} NoBytes()
    ensures LeValue([]) == 0
  {
  }

  lemma {:induction false} NextSpan(n: nat)
    ensures Span(n + 1) == 256 * Span(n)
  {
  }

  lemma {:induction false} Wrapped(out: seq<byte>, carry: nat, sum: nat)
    requires LeValue(out) + carry * Span(|out|) == sum
    ensures LeValue(out) == sum % Span(|out|) && out == Le(sum % Span(|out|), |out|)
  {
    hide LeValue, Span;
    R.Commute(carry, Span(|out|));
    R.DivMod(Span(|out|), carry, LeValue(out));
    LeWritesBack(out);
  }

  lemma {:induction false} LeFirst(b: byte, rest: seq<byte>)
    ensures LeValue([b] + rest) == b as nat + 256 * LeValue(rest)
    ensures Le(LeValue([b] + rest), |rest| + 1) == [b] + Le(LeValue(rest), |rest|)
    ensures Le(LeValue([]), 0) == []
  {
    hide Span;
    assert ([b] + rest)[0] == b && ([b] + rest)[1..] == rest;
  }

  lemma {:induction false} LeWritesBack(s: seq<byte>)
    ensures Le(LeValue(s), |s|) == s
  {
    hide LeValue, Le, Span;
    if s != [] {
      LeWritesBack(s[1..]);
      LeFirst(s[0], s[1..]);
      assert s == [s[0]] + s[1..];
    }
  }

  /** The scalar of a child: `x + 8y` over the low 28 bytes of `y`, in 32 bytes. */
  function Tweaked(x: seq<byte>, y: seq<byte>): (r: seq<byte>)
    requires |x| == |y| == 32
    ensures |r| == 32
  {
    Le((LeValue(x) + 8 * LeValue(y[..28])) % Span(32), 32)
  }

  /** `add256`. */
  function Sum256(x: seq<byte>, y: seq<byte>): (r: seq<byte>)
    ensures |r| == 32
  {
    Le((LeValue(x) + LeValue(y)) % Span(32), 32)
  }

  method Add256(x: seq<byte>, y: seq<byte>) returns (out: seq<byte>)
    requires |x| == |y| == 32
    ensures out == Sum256(x, y)
  {
    hide LeValue, Span, Le;
    out := [];
    var carry: nat := 0;
    NoBytes();
    assert x[..0] == [] && y[..0] == [];
    for i := 0 to 32
      invariant |out| == i && carry <= 1
      invariant LeValue(out) + carry * Span(i) == LeValue(x[..i]) + LeValue(y[..i])
    {
      var r := x[i] as nat + y[i] as nat + carry;
      SumStep(LeValue(out), carry, LeValue(x[..i]) + LeValue(y[..i]), r, x[i] as nat + y[i] as nat, Span(i));
      Weighted(x[i] as nat, y[i] as nat, 1, Span(i));
      LeAppend(out, (r % 256) as byte);
      LeAppend(x[..i], x[i]);
      LeAppend(y[..i], y[i]);
      assert x[..i + 1] == x[..i] + [x[i]] && y[..i + 1] == y[..i] + [y[i]];
      NextSpan(i);
      out, carry := out + [(r % 256) as byte], r / 256;
    }
    assert x[..32] == x && y[..32] == y;
    Wrapped(out, carry, LeValue(x) + LeValue(y));
  }

  // ----- keys -----

  /** HMAC-SHA512, and the curve: multiples of the base point, and adding one to a
      point. Left open. */
  datatype Env = Env(hmac: (seq<byte>, seq<byte>) -> seq<byte>, mulBase: seq<byte> -> seq<byte>,
                     addBase: (seq<byte>, seq<byte>) -> Option<seq<byte>>)

  ghost predicate EnvOk(env: Env) {
    forall k, d :: |env.hmac(k, d)| == 64
  }

  /** Scalar multiplication is a homomorphism on scalars whose sum fits 32 bytes. */
  ghost predicate Homomorphic(env: Env) {
    forall a: seq<byte>, b: seq<byte>, c: seq<byte> {:trigger env.addBase(env.mulBase(a), b), env.mulBase(c)} ::
      |a| == |b| == |c| == 32 && LeValue(c) == LeValue(a) + LeValue(b) ==> env.addBase(env.mulBase(a), b) == Some(env.mulBase(c))
  }

  datatype XPrv = XPrv(scalar: seq<byte>, nonce: seq<byte>, pubKey: seq<byte>, chainCode: Option<seq<byte>>)

  datatype XPub = XPub(pubKey: seq<byte>, chainCode: seq<byte>)

  /** The public key of a private key is its own. */
  ghost predicate XPrvOk(env: Env, k: XPrv) {
    |k.scalar| == |k.nonce| == 32 && k.pubKey == env.mulBase(k.scalar)
  }

  /** The two HMAC inputs of a child. */
  function Inputs(k: XPrv, index: Index): (seq<byte>, seq<byte>) {
    if index >= HARDENED then ([0] + k.scalar + k.nonce + Le(index, 4), [1] + k.scalar + k.nonce + Le(index, 4))
    else SoftInputs(k.pubKey, index)
  }

  function SoftInputs(pubKey: seq<byte>, index: Index): (seq<byte>, seq<byte>) {
    ([2] + pubKey + Le(index, 4), [3] + pubKey + Le(index, 4))
  }

  /** `CardanoExtendedKey::derive_child`. */
  function Child(env: Env, k: XPrv, index: Index): (r: Result<XPrv>)
    requires EnvOk(env) && XPrvOk(env, k)
    ensures r.Ok? ==> XPrvOk(env, r.value) && r.value.chainCode.Some?
  {
    if k.chainCode.None? then Err(NoChainCode)
    else
      var (zIn, iIn) := Inputs(k, index);
      var z, i := env.hmac(k.chainCode.value, zIn), env.hmac(k.chainCode.value, iIn);
      var scalar := Tweaked(k.scalar, z[..32]);
      Ok(XPrv(scalar, Sum256(k.nonce, z[32..64]), env.mulBase(scalar), Some(i[32..64])))
  }

  /** `extended_public_key`. */
  function Public(k: XPrv): Option<XPub> {
    if k.chainCode.None? then None else Some(XPub(k.pubKey, k.chainCode.value))
  }

  const NO_SCALAR: seq<byte> := seq(32, _ => 0 as byte)

  /** `CardanoExtendedPubKey::derive_child`. */
  function PublicChild(env: Env, p: XPub, index: Index): Result<XPub>
    requires EnvOk(env)
  {
    if index >= HARDENED then Err(HardenedFromPublic)
    else
      var (zIn, iIn) := SoftInputs(p.pubKey, index);
      var z, i := env.hmac(p.chainCode, zIn), env.hmac(p.chainCode, iIn);
      var point := env.addBase(p.pubKey, Tweaked(NO_SCALAR, z[..32]));
      if point.None? then Err(InvalidPoint) else Ok(XPub(point.value, i[32..64]))
  }

  /** The key at the end of a path. */
  ghost function Descendant(env: Env, k: XPrv, path: seq<Index>): (r: Result<XPrv>)
    requires EnvOk(env) && XPrvOk(env, k)
    ensures r.Ok? ==> XPrvOk(env, r.value)
  {
    if path == [] then Ok(k)
    else
      var last := Descendant(env, k, path[..|path| - 1]);
      if last.Err? then last else Child(env, last.value, path[|path| - 1])
  }

  ghost function PublicDescendant(env: Env, p: XPub, path: seq<Index>): Result<XPub>
    requires EnvOk(env)
  {
    if path == [] then Ok(p)
    else
      var last := PublicDescendant(env, p, path[..|path| - 1]);
      if last.Err? then last else PublicChild(env, last.value, path[|path| - 1])
  }

  method DeriveChild(env: Env, k: XPrv, index: Index) returns (r: Result<XPrv>)
    requires EnvOk(env) && XPrvOk(env, k)
    ensures r == Child(env, k, index)
  {
    hide Tweaked, Sum256;
    if k.chainCode.None? {
      return Err(NoChainCode);
    }
    var (zIn, iIn) := Inputs(k, index);
    var z, i := env.hmac(k.chainCode.value, zIn), env.hmac(k.chainCode.value, iIn);
    var scalar := Add28Mul8(k.scalar, z[..32]);
    var nonce := Add256(k.nonce, z[32..64]);
    r := Ok(XPrv(scalar, nonce, env.mulBase(scalar), Some(i[32..64])));
  }

  /** `derive_path`, on private keys. */
  method DerivePath(env: Env, k: XPrv, path: seq<Index>) returns (r: Result<XPrv>)
    requires EnvOk(env) && XPrvOk(env, k)
    ensures r == Descendant(env, k, path)
  {
    hide Child;
    var cur := k;
    for i := 0 to |path|
      invariant XPrvOk(env, cur) && Descendant(env, k, path[..i]) == Ok(cur)
    {
      assert path[..i + 1][..i] == path[..i];
      var child := DeriveChild(env, cur, path[i]);
      if child.Err? {
        ErrorStays(env, k, path, i + 1);
        return child;
      }
      cur := child.value;
    }
    assert path[..|path|] == path;
    r := Ok(cur);
  }

  lemma {:induction false} ErrorStays(env: Env, k: XPrv, path: seq<Index>, i: nat)
    requires EnvOk(env) && XPrvOk(env, k) && i <= |path| && Descendant(env, k, path[..i]).Err?
    ensures Descendant(env, k, path) == Descendant(env, k, path[..i])
    decreases |path|
  {
    hide Child;
    if i < |path| {
      assert path[..|path| - 1][..i] == path[..i];
      ErrorStays(env, k, path[..|path| - 1], i);
    } else {
      assert path[..i] == path;
    }
  }

  // ----- scalars along a path -----

  /** A tweak is a multiple of 8 below 2^227. */
  lemma {:induction false} TweakBound(y: seq<byte>)
    requires |y| == 28
    ensures 8 * LeValue(y) < 8 * Span(28)
  {
  }

  /** While it does not wrap, a child's scalar is the parent's plus eight times the
      tweak. */
  lemma {:induction false} TweakedAdds(x: seq<byte>, y: seq<byte>)
    requires |x| == |y| == 32 && LeValue(x) + 8 * Span(28) <= Span(32)
    ensures LeValue(Tweaked(x, y)) == LeValue(x) + 8 * LeValue(y[..28])
    ensures LeValue(Tweaked(x, y)) < LeValue(x) + 8 * Span(28)
  {
    hide LeValue, Span, Le;
    var sum := LeValue(x) + 8 * LeValue(y[..28]);
    TweakBound(y[..28]);
    Small(sum, Span(32));
    LeReadsBack(sum, 32);
  }

  lemma {:induction false} Small(a: nat, b: nat)
    requires a < b
    ensures a % b == a
  {
  }

  /** The clamp of a root: CIP-3's, which also clears the third highest bit. */
  function Clamped(xprv: seq<byte>): (s: seq<byte>)
    requires |xprv| == 32
    ensures |s| == 32
  {
    [xprv[0] - xprv[0] % 8] + xprv[1..31] + [xprv[31] % 32 + 64]
  }

  /** A clamped scalar is a multiple of 8, at least 2^254, and below 2^254 + 2^253. */
  lemma {:induction false} ClampedScalar(xprv: seq<byte>)
    requires |xprv| == 32
    ensures var v := LeValue(Clamped(xprv));
            v % 8 == 0 && 64 * Span(31) <= v < 96 * Span(31)
  {
    hide LeValue, Span;
    var s := Clamped(xprv);
    var last := xprv[31] % 32 + 64;
    assert s == s[..31] + [last];
    LeAppend(s[..31], last);
    TopByte(LeValue(s[..31]), last as nat, Span(31));
    LowByte(s);
  }

  lemma {:induction false} TopByte(low: nat, top: nat, span: nat)
    requires low < span && 64 <= top < 96
    ensures 64 * span <= low + top * span < 96 * span
  {
    R.MulMonotone(64, top, span, span);
    R.MulMonotone(top, 95, span, span);
  }

  lemma {:induction false} LowByte(s: seq<byte>)
    requires s != [] && s[0] % 8 == 0
    ensures LeValue(s) % 8 == 0
  {
  }

  /** From a clamped root, along any path of up to 2^26 steps, hard and soft: scalars
      stay multiples of 8 below 2^255, and never wrap. */
  lemma {:induction false} ScalarsStayBelow(env: Env, root: XPrv, xprv: seq<byte>, path: seq<Index>)
    requires EnvOk(env) && XPrvOk(env, root) && |xprv| == 32 && root.scalar == Clamped(xprv) && root.chainCode.Some?
    requires |path| <= 0x400_0000
    ensures var r := Descendant(env, root, path);
            && r.Ok? && r.value.chainCode.Some? && LeValue(r.value.scalar) % 8 == 0
            && LeValue(r.value.scalar) < 96 * Span(31) + |path| * (8 * Span(28))
            && LeValue(r.value.scalar) < 128 * Span(31)
    decreases |path|
  {
    hide LeValue, Span, Child, Clamped;
    ClampedScalar(xprv);
    SpanRatios();
    PathBound(96 * Span(31), |path|, 8 * Span(28), 32 * Span(31));
    if path != [] {
      var k := |path| - 1;
      ScalarsStayBelow(env, root, xprv, path[..k]);
      ChildScalar(env, Descendant(env, root, path[..k]).value, path[k]);
      OneMoreStep(k, 8 * Span(28));
    }
  }

  lemma {:induction false} PathBound(start: nat, n: nat, step: nat, most: nat)
    requires n <= 0x400_0000 && 0x400_0000 * step == most
    ensures start + n * step <= start + most
  {
    R.MulMonotone(n, 0x400_0000, step, step);
  }

  lemma {:induction false} OneMoreStep(k: nat, step: nat)
    ensures (k + 1) * step == k * step + step
  {
  }

  lemma {:induction false} SpanRatios()
    ensures Span(32) == 256 * Span(31) && Span(31) == 0x100_0000 * Span(28)
    ensures 0x400_0000 * (8 * Span(28)) == 32 * Span(31)
  {
    hide Span;
    NextSpan(28);
    NextSpan(29);
    NextSpan(30);
    NextSpan(31);
  }

  lemma {:induction false} ChildScalar(env: Env, k: XPrv, index: Index)
    requires EnvOk(env) && XPrvOk(env, k) && k.chainCode.Some? && LeValue(k.scalar) % 8 == 0
    requires LeValue(k.scalar) + 8 * Span(28) <= Span(32)
    ensures var r := Child(env, k, index);
            r.Ok? && LeValue(r.value.scalar) % 8 == 0 && LeValue(r.value.scalar) < LeValue(k.scalar) + 8 * Span(28)
  {
    hide LeValue, Span, Tweaked, Sum256;
    TweakedAdds(k.scalar, env.hmac(k.chainCode.value, Inputs(k, index).0)[..32]);
  }

  // ----- public derivation -----

  lemma {:induction false} NoScalarIsZero(n: nat)
    ensures LeValue(seq(n, _ => 0 as byte)) == 0
    decreases n
  {
    var s := seq(n, _ => 0 as byte);
    if n > 0 {
      assert s[1..] == seq(n - 1, _ => 0 as byte);
      NoScalarIsZero(n - 1);
    }
  }

  lemma {:induction false} SoftChildAgrees(env: Env, k: XPrv, index: Index)
    requires EnvOk(env) && Homomorphic(env) && XPrvOk(env, k) && k.chainCode.Some? && index < HARDENED
    requires LeValue(k.scalar) + 8 * Span(28) <= Span(32)
    ensures var r := Child(env, k, index);
            r.Ok? && PublicChild(env, Public(k).value, index) == Ok(Public(r.value).value)
  {
    hide LeValue, Span, Tweaked, Sum256;
    var z := env.hmac(k.chainCode.value, SoftInputs(k.pubKey, index).0)[..32];
    NoScalarIsZero(32);
    SpanIsLarge();
    TweakedAdds(NO_SCALAR, z);
    TweakedAdds(k.scalar, z);
    var scalar, tweak := Tweaked(k.scalar, z), Tweaked(NO_SCALAR, z);
    assert env.addBase(env.mulBase(k.scalar), tweak) == Some(env.mulBase(scalar));
  }

  lemma {:induction false} SpanIsLarge()
    ensures 8 * Span(28) <= Span(32)
  {
    SpanRatios();
  }

  /** Over every soft path from a clamped root, deriving the extended public key gives
      the extended public key of the derived private key. */
  lemma {:induction false} PublicPathAgrees(env: Env, root: XPrv, xprv: seq<byte>, path: seq<Index>)
    requires EnvOk(env) && Homomorphic(env) && XPrvOk(env, root) && |xprv| == 32 && root.scalar == Clamped(xprv)
    requires root.chainCode.Some? && |path| <= 0x400_0000 && forall i :: 0 <= i < |path| ==> path[i] < HARDENED
    ensures Descendant(env, root, path).Ok? && Public(Descendant(env, root, path).value).Some?
    ensures PublicDescendant(env, Public(root).value, path) == Ok(Public(Descendant(env, root, path).value).value)
    decreases |path|
  {
    hide LeValue, Span, Child, PublicChild, Homomorphic, Clamped;
    ScalarsStayBelow(env, root, xprv, path);
    if path != [] {
      var k := |path| - 1;
      PublicPathAgrees(env, root, xprv, path[..k]);
      ScalarsStayBelow(env, root, xprv, path[..k]);
      SpanRatios();
      SoftChildAgrees(env, Descendant(env, root, path[..k]).value, path[k]);
    }
  }

  /** And no hardened step can be taken from a public key. */
  lemma {:induction false} HardenedIsRefused(env: Env, p: XPub, path: seq<Index>)
    requires EnvOk(env) && exists i :: 0 <= i < |path| && path[i] >= HARDENED
    ensures PublicDescendant(env, p, path).Err?
    decreases |path|
  {
    var k := |path| - 1;
    if path[k] < HARDENED {
      var i :| 0 <= i < |path| && path[i] >= HARDENED;
      assert path[..k][i] >= HARDENED;
      HardenedIsRefused(env, p, path[..k]);
    }
  }
}
