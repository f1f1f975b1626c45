/** Taproot script trees as values (src/taproot.rs): binary trees, their
    depth-first listings, merkle roots and paths. */
module TapTree {
  import opened Options
  import opened Bytes

  type Hash = seq<byte>

  /** BIP-340 tagged hashing, left open but for its length. */
  type Tagged = (string, seq<byte>) -> Hash

  ghost predicate Digests(tagged: Tagged) {
    forall tag: string, input: seq<byte> :: |tagged(tag, input)| == 32
  }

  /** How leaves and branches are hashed. */
  datatype Hasher = Hasher(leaf: (byte, seq<byte>) -> Hash, branch: (Hash, Hash) -> Hash)

  /** A merkle path needs no left or right. */
  ghost predicate Symmetric(h: Hasher) {
    forall a: Hash, b: Hash :: h.branch(a, b) == h.branch(b, a)
  }

  datatype TapLeaf = TapLeaf(depth: nat, version: byte, script: seq<byte>)

  datatype Tree = Leaf(version: byte, script: seq<byte>) | Branch(left: Tree, right: Tree)

  const MAX_TAPROOT_DEPTH := 128

  predicate ValidVersion(v: byte) {
    v % 2 == 0 && v != 0x50
  }

  // ----- hashes -----

  function LeafInput(version: byte, script: seq<byte>): seq<byte> {
    [version] + CompactSize(|script|) + script
  }

  /** `tapbranch_hash` takes its children in lexicographic order. */
  function BranchInput(a: Hash, b: Hash): seq<byte> {
    if LexLeq(a, b) then a + b else b + a
  }

  /** `tapleaf_hash`. */
  function LeafHash(tagged: Tagged): (byte, seq<byte>) -> Hash {
    (version: byte, script: seq<byte>) => tagged("TapLeaf", LeafInput(version, script))
  }

  /** `tapbranch_hash`. */
  function BranchHash(tagged: Tagged): (Hash, Hash) -> Hash {
    (a: Hash, b: Hash) => tagged("TapBranch", BranchInput(a, b))
  }

  function Bip341(tagged: Tagged): Hasher {
    Hasher(LeafHash(tagged), BranchHash(tagged))
  }

  /** Branches hash their children in lexicographic order, so either way round. */
  lemma {:induction false} Bip341IsSymmetric(tagged: Tagged)
    ensures Symmetric(Bip341(tagged))
  {
    forall a: Hash, b: Hash ensures BranchHash(tagged)(a, b) == BranchHash(tagged)(b, a) {
      LexTotal(a, b);
      assert BranchInput(a, b) == BranchInput(b, a);
    }
  }

  // ----- trees -----

  /** All leaf versions are valid. */
  ghost predicate WellFormed(t: Tree) {
    match t
    case Leaf(version, _) => ValidVersion(version)
    case Branch(l, r) => WellFormed(l) && WellFormed(r)
  }

  /** All scripts have a 64-bit length, as they do in memory. */
  ghost predicate Sized(t: Tree) {
    match t
    case Leaf(_, script) => |script| < U64
    case Branch(l, r) => Sized(l) && Sized(r)
  }

  function Height(t: Tree): nat {
    match t
    case Leaf(_, _) => 0
    case Branch(l, r) => 1 + if Height(l) > Height(r) then Height(l) else Height(r)
  }

  function Count(t: Tree): (n: nat)
    ensures n > 0
  {
    match t
    case Leaf(_, _) => 1
    case Branch(l, r) => Count(l) + Count(r)
  }

  /** The leaves of `t` in depth-first order, with `t` itself at depth `d`. */
  function Listing(t: Tree, d: nat): (leaves: seq<TapLeaf>)
    ensures |leaves| == Count(t)
  {
    match t
    case Leaf(version, script) => [TapLeaf(d, version, script)]
    case Branch(l, r) => Listing(l, d + 1) + Listing(r, d + 1)
  }

  /** The first leaf listed is at the tree's own depth only if the tree is a leaf. */
  lemma {:induction false} FirstIsDeep(t: Tree, d: nat)
    ensures Listing(t, d)[0].depth >= d && (t.Branch? ==> Listing(t, d)[0].depth > d)
  {
    if t.Branch? {
      FirstIsDeep(t.left, d + 1);
    }
  }

  function Root(h: Hasher, t: Tree): Hash {
    match t
    case Leaf(version, script) => h.leaf(version, script)
    case Branch(l, r) => h.branch(Root(h, l), Root(h, r))
  }

  /** The siblings met on the way up from leaf `k`. */
  function Path(h: Hasher, t: Tree, k: nat): (path: seq<Hash>)
    requires k < Count(t)
    ensures |path| <= Height(t)
  {
    match t
    case Leaf(_, _) => []
    case Branch(l, r) =>
      if k < Count(l) then Path(h, l, k) + [Root(h, r)]
      else Path(h, r, k - Count(l)) + [Root(h, l)]
  }

  /** The path of a leaf is as long as the leaf is deep. */
  lemma {:induction false} PathIsAsLongAsDeep(h: Hasher, t: Tree, d: nat, k: nat)
    requires k < Count(t)
    ensures d + |Path(h, t, k)| == Listing(t, d)[k].depth
  {
    match t
    case Leaf(_, _) =>
    case Branch(l, r) =>
      if k < Count(l) {
        PathIsAsLongAsDeep(h, l, d + 1, k);
      } else {
        PathIsAsLongAsDeep(h, r, d + 1, k - Count(l));
      }
  }

  /** Listings are a prefix code: the tree at the front of a listing is
      determined, and so is what follows it. */
  lemma {:induction false} ListingDeterminesTree(t: Tree, u: Tree, d: nat, a: seq<TapLeaf>, b: seq<TapLeaf>)
    requires Listing(t, d) + a == Listing(u, d) + b
    ensures t == u && a == b
  {
    var x, y := Listing(t, d) + a, Listing(u, d) + b;
    assert x[0] == Listing(t, d)[0] && y[0] == Listing(u, d)[0];
    FirstIsDeep(t, d);
    FirstIsDeep(u, d);
    match t
    case Leaf(_, _) =>
      assert u.Leaf?;
      assert a == x[1..] && b == y[1..];
    case Branch(l, r) =>
      assert u.Branch?;
      assert x == Listing(l, d + 1) + (Listing(r, d + 1) + a);
      assert y == Listing(u.left, d + 1) + (Listing(u.right, d + 1) + b);
      ListingDeterminesTree(l, u.left, d + 1, Listing(r, d + 1) + a, Listing(u.right, d + 1) + b);
      ListingDeterminesTree(r, u.right, d + 1, a, b);
  }

  /** The leaves of a well-formed tree of height at most `h` have valid versions,
      sizes and depths. */
  lemma {:induction false} ListedLeaves(t: Tree, d: nat, k: nat)
    requires k < Count(t)
    ensures Listing(t, d)[k].depth <= d + Height(t)
    ensures WellFormed(t) ==> ValidVersion(Listing(t, d)[k].version)
  {
    match t
    case Leaf(_, _) =>
    case Branch(l, r) =>
      if k < Count(l) {
        ListedLeaves(l, d + 1, k);
      } else {
        ListedLeaves(r, d + 1, k - Count(l));
      }
  }

  // ----- folding a path -----

  /** `merkle_root_from_path` on 32-byte nodes. */
  function FoldPath(h: Hasher, node: Hash, path: seq<Hash>): Hash {
    if path == [] then node
    else h.branch(FoldPath(h, node, path[..|path| - 1]), path[|path| - 1])
  }

  /** Folding a leaf's path from its hash gives the root. */
  lemma {:induction false} PathLeadsToRoot(h: Hasher, t: Tree, d: nat, k: nat)
    requires Symmetric(h) && k < Count(t)
    ensures var leaf := Listing(t, d)[k];
            FoldPath(h, h.leaf(leaf.version, leaf.script), Path(h, t, k)) == Root(h, t)
  {
    match t
    case Leaf(_, _) =>
    case Branch(l, r) =>
      var path := Path(h, t, k);
      if k < Count(l) {
        PathLeadsToRoot(h, l, d + 1, k);
        assert path[..|path| - 1] == Path(h, l, k);
      } else {
        PathLeadsToRoot(h, r, d + 1, k - Count(l));
        assert path[..|path| - 1] == Path(h, r, k - Count(l));
      }
  }
}
