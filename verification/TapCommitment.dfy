/** What a taproot merkle root commits to (src/taproot.rs), as long as the hash
    does not collide on the inputs it was given. */
module TapCommitment {
  import opened Bytes
  import opened TapTree

  /** A tagged-hash input. */
  type Input = (string, seq<byte>)

  /** Everything hashed for the root of a tree. */
  ghost function TreeInputs(h: Hasher, t: Tree): set<Input> {
    match t
    case Leaf(version, script) => {("TapLeaf", LeafInput(version, script))}
    case Branch(l, r) =>
      TreeInputs(h, l) + TreeInputs(h, r) + {("TapBranch", BranchInput(Root(h, l), Root(h, r)))}
  }

  /** Everything hashed on the way up a path. */
  ghost function FoldInputs(h: Hasher, node: Hash, path: seq<Hash>): set<Input> {
    if path == [] then {}
    else
      var init := path[..|path| - 1];
      FoldInputs(h, node, init) + {("TapBranch", BranchInput(FoldPath(h, node, init), path[|path| - 1]))}
  }

  /** The hash tells the inputs of `s` apart. */
  ghost predicate NoCollision(tagged: Tagged, s: set<Input>) {
    forall x, y :: x in s && y in s && tagged(x.0, x.1) == tagged(y.0, y.1) ==> x == y
  }

  lemma {:induction false} LeafInputSeparates(v: byte, s: seq<byte>, w: byte, r: seq<byte>)
    requires |s| < U64 && |r| < U64 && LeafInput(v, s) == LeafInput(w, r)
    ensures v == w && s == r
  {
    Regroup([v], CompactSize(|s|), s);
    Regroup([w], CompactSize(|r|), r);
    HeadSeparates(v, CompactSize(|s|) + s, w, CompactSize(|r|) + r);
    CompactSizeSeparates(|s|, |r|, s, r);
  }

  lemma {:induction false} BranchInputSeparates(a: Hash, b: Hash, c: Hash, d: Hash)
    requires |a| == |b| == |c| == |d| && BranchInput(a, b) == BranchInput(c, d)
    ensures (a == c && b == d) || (a == d && b == c)
  {
    var n, x := |a|, BranchInput(a, b);
    assert x[..n] == (if LexLeq(a, b) then a else b) && x[n..] == (if LexLeq(a, b) then b else a);
    assert x[..n] == (if LexLeq(c, d) then c else d) && x[n..] == (if LexLeq(c, d) then d else c);
  }

  lemma {:induction false} SameInput(tagged: Tagged, s: set<Input>, x: Input, y: Input)
    requires NoCollision(tagged, s) && x in s && y in s && tagged(x.0, x.1) == tagged(y.0, y.1)
    ensures x == y
  {
  }

  lemma {:induction false} TagsDiffer(a: seq<byte>, b: seq<byte>)
    ensures ("TapLeaf", a) != ("TapBranch", b)
  {
    assert "TapLeaf"[3] != "TapBranch"[3];
  }

  /** The leaf of `t` at index `k`, whatever depth `t` is listed at. */
  function LeafOf(t: Tree, k: nat): (leaf: (byte, seq<byte>))
    requires k < Count(t)
    ensures forall d :: leaf == (Listing(t, d)[k].version, Listing(t, d)[k].script)
  {
    match t
    case Leaf(version, script) => (version, script)
    case Branch(l, r) => if k < Count(l) then LeafOf(l, k) else LeafOf(r, k - Count(l))
  }

  /** Leaf `k` of `t` has this version, script and path. */
  ghost predicate LeafAt(h: Hasher, t: Tree, k: nat, version: byte, script: seq<byte>, path: seq<Hash>) {
    k < Count(t) && LeafOf(t, k) == (version, script) && path == Path(h, t, k)
  }

  ghost predicate IsLeaf(h: Hasher, t: Tree, version: byte, script: seq<byte>, path: seq<Hash>) {
    exists k :: LeafAt(h, t, k, version, script, path)
  }

  /** A leaf of a subtree is a leaf of the tree, its path one sibling longer. */
  lemma {:induction false} LeafOfBranch(h: Hasher, l: Tree, r: Tree, version: byte, script: seq<byte>, init: seq<Hash>)
    ensures IsLeaf(h, l, version, script, init) ==> IsLeaf(h, Branch(l, r), version, script, init + [Root(h, r)])
    ensures IsLeaf(h, r, version, script, init) ==> IsLeaf(h, Branch(l, r), version, script, init + [Root(h, l)])
  {
    if k :| LeafAt(h, l, k, version, script, init) {
      assert LeafAt(h, Branch(l, r), k, version, script, init + [Root(h, r)]);
    }
    if k :| LeafAt(h, r, k, version, script, init) {
      assert LeafAt(h, Branch(l, r), Count(l) + k, version, script, init + [Root(h, l)]);
    }
  }

  /** The input hashed last on the way up a path. */
  ghost function TopInput(h: Hasher, version: byte, script: seq<byte>, path: seq<Hash>): Input {
    if path == [] then ("TapLeaf", LeafInput(version, script))
    else ("TapBranch", BranchInput(FoldPath(h, h.leaf(version, script), path[..|path| - 1]), path[|path| - 1]))
  }

  ghost function RootInput(h: Hasher, t: Tree): Input {
    match t
    case Leaf(version, script) => ("TapLeaf", LeafInput(version, script))
    case Branch(l, r) => ("TapBranch", BranchInput(Root(h, l), Root(h, r)))
  }

  ghost predicate Lengths(h: Hasher, path: seq<Hash>) {
    forall i :: 0 <= i < |path| ==> |path[i]| == 32
  }

  lemma {:induction false} HashesAre32(tagged: Tagged, t: Tree, version: byte, script: seq<byte>, path: seq<Hash>)
    requires Digests(tagged)
    ensures |Root(Bip341(tagged), t)| == 32
    ensures |FoldPath(Bip341(tagged), Bip341(tagged).leaf(version, script), path)| == 32
  {
    assert |tagged(RootInput(Bip341(tagged), t).0, RootInput(Bip341(tagged), t).1)| == 32;
    var top := TopInput(Bip341(tagged), version, script, path);
    assert |tagged(top.0, top.1)| == 32;
  }

  lemma {:induction false} Bound(tagged: Tagged, s: set<Input>, t: Tree, version: byte, script: seq<byte>, path: seq<Hash>)
    requires Digests(tagged) && Lengths(Bip341(tagged), path) && Sized(t) && |script| < U64 && NoCollision(tagged, s)
    requires var h := Bip341(tagged);
             && FoldPath(h, h.leaf(version, script), path) == Root(h, t)
             && TreeInputs(h, t) <= s && FoldInputs(h, h.leaf(version, script), path) <= s
             && ("TapLeaf", LeafInput(version, script)) in s
    ensures IsLeaf(Bip341(tagged), t, version, script, path)
    decreases t
  {
    hide LexLeq;
    var h := Bip341(tagged);
    SameInput(tagged, s, TopInput(h, version, script, path), RootInput(h, t));
    match t
    case Leaf(v, r) =>
      if path != [] {
        TagsDiffer(LeafInput(v, r), TopInput(h, version, script, path).1);
      }
      LeafInputSeparates(version, script, v, r);
      assert LeafAt(h, t, 0, version, script, path);
    case Branch(l, r) =>
      TagsDiffer(LeafInput(version, script), RootInput(h, t).1);
      var init, last := path[..|path| - 1], path[|path| - 1];
      assert path == init + [last];
      var below := FoldPath(h, h.leaf(version, script), init);
      HashesAre32(tagged, l, version, script, init);
      HashesAre32(tagged, r, version, script, init);
      BranchInputSeparates(below, last, Root(h, l), Root(h, r));
      if below == Root(h, l) && last == Root(h, r) {
        Bound(tagged, s, l, version, script, init);
      } else {
        Bound(tagged, s, r, version, script, init);
      }
      LeafOfBranch(h, l, r, version, script, init);
  }

  /** Unless the hash collides on what was hashed, a path leads from a script to
      the root of a tree if and only if the script is a leaf of the tree and the
      path that leaf's. */
  lemma {:induction false} RootBindsLeaves(tagged: Tagged, t: Tree, version: byte, script: seq<byte>, path: seq<Hash>)
    requires Digests(tagged) && Lengths(Bip341(tagged), path) && Sized(t) && |script| < U64
    requires var h := Bip341(tagged);
             NoCollision(tagged, TreeInputs(h, t) + FoldInputs(h, h.leaf(version, script), path)
                                 + {("TapLeaf", LeafInput(version, script))})
    ensures var h := Bip341(tagged);
            FoldPath(h, h.leaf(version, script), path) == Root(h, t) <==> IsLeaf(h, t, version, script, path)
  {
    var h := Bip341(tagged);
    if FoldPath(h, h.leaf(version, script), path) == Root(h, t) {
      var s := TreeInputs(h, t) + FoldInputs(h, h.leaf(version, script), path) + {("TapLeaf", LeafInput(version, script))};
      Bound(tagged, s, t, version, script, path);
    }
    if k :| LeafAt(h, t, k, version, script, path) {
      Bip341IsSymmetric(tagged);
      PathLeadsToRoot(h, t, 0, k);
    }
  }
}
