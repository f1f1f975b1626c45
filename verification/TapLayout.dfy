/** The bytes behind taproot hashes and control blocks of src/taproot.rs, by position. */
module TapLayout {
  import opened Options
  import opened Bytes
  import opened Layout
  import opened TapTree
  import opened Taproot
  import opened TapControl

  lemma {:induction false} BranchIs(tagged: Tagged, a: Hash, b: Hash)
    ensures Bip341(tagged).branch(a, b) == tagged("TapBranch", BranchInput(a, b))
  {
    assert BranchHash(tagged)(a, b) == tagged("TapBranch", BranchInput(a, b));
  }

  /** A branch hashes the child that comes first, then the other, whichever way round it is
      given them. */
  lemma {:induction false} SmallerChildFirst(tagged: Tagged, a: Hash, b: Hash, i: nat)
    requires Before(a, b, i)
    ensures Bip341(tagged).branch(a, b) == tagged("TapBranch", a + b) == Bip341(tagged).branch(b, a)
  {
    hide LexLeq;
    BeforeIsLeq(a, b, i);
    BranchIs(tagged, a, b);
    BranchIs(tagged, b, a);
  }

  /** Of any two hashes one comes first, unless they are equal: then the order is no matter. */
  lemma {:induction false} BranchOfAnyTwo(tagged: Tagged, a: Hash, b: Hash)
    requires |a| == |b| == 32
    ensures a == b ==> Bip341(tagged).branch(a, b) == tagged("TapBranch", a + a)
    ensures a != b ==>
              exists i :: (Before(a, b, i) && Bip341(tagged).branch(a, b) == tagged("TapBranch", a + b))
                          || (Before(b, a, i) && Bip341(tagged).branch(a, b) == tagged("TapBranch", b + a))
  {
    hide LexLeq, Before;
    BranchIs(tagged, a, b);
    if a != b {
      var i := SomeDifference(a, b);
      if Before(a, b, i) {
        SmallerChildFirst(tagged, a, b, i);
      } else {
        SmallerChildFirst(tagged, b, a, i);
      }
    }
  }

  /** A leaf hashes its version, the CompactSize of its script, and the script. */
  lemma {:induction false} LeafByPosition(tagged: Tagged, version: byte, script: seq<byte>)
    requires |script| < U64
    ensures exists s ::
              && Bip341(tagged).leaf(version, script) == tagged("TapLeaf", s)
              && |s| == 1 + SizeLen(|script|) + |script| && s[0] == version
              && SizeAt(s, 1, |script|) && Holds(s, 1 + SizeLen(|script|), script)
  {
    hide CompactSize, SizeAt;
    var s := LeafInput(version, script);
    Regroup([version], CompactSize(|script|), script);
    CompactSizeBytes(|script|);
    Cut(s, 0, [version], CompactSize(|script|) + script);
    Cut(s, 1, CompactSize(|script|), script);
    Cut(s, 1 + SizeLen(|script|), script, []);
    SizeWithin(s, 1, CompactSize(|script|), 0, |script|);
    assert Bip341(tagged).leaf(version, script) == tagged("TapLeaf", s);
  }

  /** The tree of the module's own documentation: a leaf beside two deeper ones. */
  lemma {:induction false} RootOfThree(tagged: Tagged, a: TapLeaf, b: TapLeaf, c: TapLeaf)
    requires ValidVersion(a.version) && ValidVersion(b.version) && ValidVersion(c.version)
    requires a.depth == 1 && b.depth == c.depth == 2
    ensures var h := Bip341(tagged);
            Conclude(Final(h, [a, b, c], None, 0))
            == Done(h.branch(h.leaf(a.version, a.script), h.branch(h.leaf(b.version, b.script), h.leaf(c.version, c.script))), 0)
  {
    hide Final, Bip341, Listing, WellFormed, Height, Root;
    var h := Bip341(tagged);
    var l, m, n := Leaf(a.version, a.script), Leaf(b.version, b.script), Leaf(c.version, c.script);
    LeafListed(h, a);
    LeafListed(h, b);
    LeafListed(h, c);
    BranchListed(h, m, n, 1);
    BranchListed(h, l, Branch(m, n), 0);
    assert [b] + [c] == [b, c] && [a] + [b, c] == [a, b, c];
    WalkOfTree(h, Branch(l, Branch(m, n)), [a, b, c], None, 0);
  }

  lemma {:induction false} LeafListed(h: Hasher, leaf: TapLeaf)
    requires ValidVersion(leaf.version)
    ensures var t := Leaf(leaf.version, leaf.script);
            Listing(t, leaf.depth) == [leaf] && WellFormed(t) && Height(t) == 0 && Root(h, t) == h.leaf(leaf.version, leaf.script)
  {
  }

  lemma {:induction false} BranchListed(h: Hasher, l: Tree, r: Tree, d: nat)
    requires WellFormed(l) && WellFormed(r)
    ensures var t := Branch(l, r);
            && Listing(t, d) == Listing(l, d + 1) + Listing(r, d + 1) && WellFormed(t)
            && Height(t) <= 1 + Height(l) + Height(r) && Root(h, t) == h.branch(Root(h, l), Root(h, r))
  {
  }

  // ----- control blocks -----

  /** A control block: version and parity in one byte, the internal key, then the path from the
      leaf's sibling up, 32 bytes a node. */
  lemma {:induction false} BlockByPosition(version: byte, parity: byte, internalKey: Hash, path: seq<Hash>, m: nat)
    requires ValidVersion(version) && parity <= 1 && |internalKey| == 32
    requires forall i :: 0 <= i < |path| ==> |path[i]| == 32
    ensures var s := Block(version, parity, internalKey, path);
            && |s| == 33 + 32 * |path| && s[0] == version + parity && Holds(s, 1, internalKey)
            && (m < |path| ==> Holds(s, 33 + 32 * m, path[m]))
  {
    hide Flat, Holds;
    var s := Block(version, parity, internalKey, path);
    var head: seq<byte> := [version + parity];
    FlatLength(path);
    Regroup(head, internalKey, Flat(path));
    Cut(s, 0, head, internalKey + Flat(path));
    Cut(s, 1, internalKey, Flat(path));
    Cut(s, 33, Flat(path), []);
    if m < |path| {
      NodeAt(path, m);
      HoldsWithin(s, 33, Flat(path), 32 * m, path[m]);
    }
  }

  lemma {:induction false} NodeAt(path: seq<Hash>, m: nat)
    requires m < |path| && forall i :: 0 <= i < |path| ==> |path[i]| == 32
    ensures Holds(Flat(path), 32 * m, path[m])
  {
    hide Holds;
    var k := |path| - 1;
    FlatLength(path[..k]);
    if m == k {
      Cut(Flat(path), 32 * k, path[k], []);
    } else {
      NodeAt(path[..k], m);
      Cut(Flat(path), 0, Flat(path[..k]), path[k]);
      HoldsWithin(Flat(path), 0, Flat(path[..k]), 32 * m, path[m]);
    }
  }

  /** What the version check is for: no control block starts with the byte that marks an annex,
      and every even byte but that one is a version. */
  lemma {:induction false} NoBlockIsAnnex(version: byte, parity: byte, internalKey: Hash, path: seq<Hash>)
    requires version % 2 == 0 && parity <= 1
    ensures ValidVersion(version) <==> Block(version, parity, internalKey, path)[0] - parity != 0x50
    ensures ValidVersion(version) ==> Block(version, parity, internalKey, path)[0] != 0x50
  {
    hide Flat;
  }

  /** What parses as a control block, and into what: 33 bytes and up to 128 nodes of 32 more, with a
      first byte that makes a version and a parity. */
  lemma {:induction false} ParsesExactly(data: seq<byte>)
    ensures Parse(data).Ok? <==>
              |data| >= 33 && (|data| - 33) % 32 == 0 && |data| <= 33 + 32 * 128 && data[0] != 0x50 && data[0] != 0x51
    ensures Parse(data).Ok? ==>
              var block := Parse(data).value;
              && block.leafVersion as nat + block.outputKeyParity as nat == data[0] as nat && block.outputKeyParity <= 1
              && block.leafVersion % 2 == 0 && block.internalKey == data[1..33] && block.path == data[33..]
  {
    hide Chunks;
  }
}
