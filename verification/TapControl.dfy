/** Control blocks (src/taproot.rs): written for a leaf of a tree, parsed back,
    and checked against the output key. */
module TapControl {
  import opened Options
  import opened Bytes
  import opened TapTree
  import opened Taproot

  datatype ControlBlock = ControlBlock(leafVersion: byte, outputKeyParity: byte, internalKey: Hash, path: seq<byte>)

  /** Tweaking an internal key with a merkle root: the output key and its parity,
      unless the key is invalid. Left open. */
  type Tweak = (Hash, Hash) -> Option<(Hash, byte)>

  /** How writing a control block ends. */
  datatype Outcome = Wrote(len: nat) | Denied(error: Error) | Crashed

  // ----- paths in bytes -----

  /** The 32-byte nodes of a path, from its end. */
  function Chunks(path: seq<byte>): (nodes: seq<Hash>)
    requires |path| % 32 == 0
    ensures 32 * |nodes| == |path|
  {
    if path == [] then [] else Chunks(path[..|path| - 32]) + [path[|path| - 32..]]
  }

  /** `path_nodes`. */
  function PathNodes(path: seq<byte>): Result<seq<Hash>> {
    if |path| % 32 != 0 then Err(InvalidLength)
    else if |path| / 32 > MAX_TAPROOT_DEPTH then Err(TooLarge)
    else Ok(Chunks(path))
  }

  lemma {:induction false} FlatLength(path: seq<Hash>)
    requires forall i :: 0 <= i < |path| ==> |path[i]| == 32
    ensures |Flat(path)| == 32 * |path| && |Flat(path)| % 32 == 0 && |Flat(path)| / 32 == |path|
  {
    if path != [] {
      FlatLength(path[..|path| - 1]);
    }
  }

  lemma {:induction false} ChunksOfFlat(path: seq<Hash>)
    requires forall i :: 0 <= i < |path| ==> |path[i]| == 32
    ensures |Flat(path)| % 32 == 0 && Chunks(Flat(path)) == path
  {
    FlatLength(path);
    if path != [] {
      var k := |path| - 1;
      FlatLength(path[..k]);
      ChunksOfFlat(path[..k]);
      assert Flat(path) == Flat(path[..k]) + path[k];
      assert Flat(path)[..|Flat(path)| - 32] == Flat(path[..k]);
      assert Flat(path)[|Flat(path)| - 32..] == path[k];
      assert path == path[..k] + [path[k]];
    }
  }

  lemma {:induction false} PathIs32(h: Hasher, t: Tree, k: nat)
    requires Hashes32(h) && k < Count(t)
    ensures forall i :: 0 <= i < |Path(h, t, k)| ==> |Path(h, t, k)[i]| == 32
  {
    if t.Branch? {
      RootIs32(h, t.left);
      RootIs32(h, t.right);
      if k < Count(t.left) {
        PathIs32(h, t.left, k);
      } else {
        PathIs32(h, t.right, k - Count(t.left));
      }
    }
  }

  lemma {:induction false} RootIs32(h: Hasher, t: Tree)
    requires Hashes32(h)
    ensures |Root(h, t)| == 32
  {
  }

  // ----- reading -----

  /** `merkle_root_from_path`. */
  function RootFromPath(h: Hasher, leafHash: Hash, path: seq<byte>): Result<Hash> {
    var nodes := PathNodes(path);
    if nodes.Err? then Err(nodes.error) else Ok(FoldPath(h, leafHash, nodes.value))
  }

  method MerkleRootFromPath(h: Hasher, leafHash: Hash, path: seq<byte>) returns (r: Result<Hash>)
    ensures r == RootFromPath(h, leafHash, path)
  {
    var nodes := PathNodes(path);
    if nodes.Err? {
      return Err(nodes.error);
    }
    var siblings := nodes.value;
    var node := leafHash;
    for i := 0 to |siblings|
      invariant node == FoldPath(h, leafHash, siblings[..i])
    {
      node := h.branch(node, siblings[i]);
      assert siblings[..i + 1][..i] == siblings[..i];
    }
    assert siblings[..|siblings|] == siblings;
    r := Ok(node);
  }

  /** `ControlBlock::parse`. */
  function Parse(data: seq<byte>): Result<ControlBlock> {
    if |data| < 33 then Err(InvalidLength)
    else
      var nodes := PathNodes(data[33..]);
      var version := data[0] - data[0] % 2;
      if nodes.Err? then Err(nodes.error)
      else if !ValidVersion(version) then Err(InvalidData)
      else Ok(ControlBlock(version, data[0] % 2, data[1..33], data[33..]))
  }

  /** `ControlBlock::verify`. */
  predicate Verify(h: Hasher, tweak: Tweak, block: ControlBlock, script: seq<byte>, outputKey: Hash) {
    var root := RootFromPath(h, h.leaf(block.leafVersion, script), block.path);
    root.Ok? && tweak(block.internalKey, root.value) == Some((outputKey, block.outputKeyParity))
  }

  // ----- writing -----

  /** The control block of a leaf. */
  function Block(version: byte, parity: byte, internalKey: Hash, path: seq<Hash>): seq<byte>
    requires version % 2 == 0 && parity <= 1
  {
    [version + parity] + internalKey + Flat(path)
  }

  /** How `control_block_to_slice` ends with room for `size` bytes. */
  ghost function Control(h: Hasher, tweak: Tweak, internalKey: Hash, leaves: seq<TapLeaf>, index: nat, size: nat): Outcome {
    if index >= |leaves| then Denied(IndexOutOfRange)
    else if size < 33 then Denied(BufferTooSmall)
    else
      match Conclude(Final(h, leaves, Some(index), size - 33))
      case Refused(error) => Denied(error)
      case Panicked => Crashed
      case Done(root, pathLen) => if tweak(internalKey, root).None? then Denied(InvalidKey) else Wrote(33 + pathLen)
  }

  ghost predicate ParityBit(tweak: Tweak) {
    forall key: Hash, root: Hash :: tweak(key, root).Some? ==> tweak(key, root).value.1 <= 1
  }

  lemma {:induction false} TakenVersionsAreValid(h: Hasher, p: Progress, leaves: seq<TapLeaf>, at: nat, target: Option<nat>, room: nat)
    requires Run(Pusher(h, room), p, leaves, at, target).Running?
    ensures p.Running?
    ensures forall j :: 0 <= j < |leaves| ==> ValidVersion(leaves[j].version)
    decreases |leaves|
  {
    if leaves != [] {
      var q := Push(h, p, leaves[0], target == Some(at), room);
      if !q.Running? {
        RunStuck(h, q, leaves[1..], at + 1, target, room);
      }
      TakenVersionsAreValid(h, q, leaves[1..], at + 1, target, room);
      assert leaves == [leaves[0]] + leaves[1..];
    }
  }

  /** `control_block_to_slice`. */
  method ControlBlockToSlice(h: Hasher, tweak: Tweak, internalKey: Hash, leaves: seq<TapLeaf>, index: nat, out: array<byte>)
    returns (r: Outcome)
    requires Hashes32(h) && ParityBit(tweak) && |internalKey| == 32
    modifies out
    ensures r == Control(h, tweak, internalKey, leaves, index, out.Length)
    ensures r.Wrote? ==>
              var p := Final(h, leaves, Some(index), out.Length - 33);
              && p.Running? && p.stack != [] && ValidVersion(leaves[index].version) && r.len <= out.Length
              && tweak(internalKey, p.stack[0].hash).Some?
              && out[..r.len] == Block(leaves[index].version, tweak(internalKey, p.stack[0].hash).value.1, internalKey, p.path)
  {
    if index >= |leaves| {
      return Denied(IndexOutOfRange);
    }
    var leaf := leaves[index];
    if out.Length < 33 {
      return Denied(BufferTooSmall);
    }
    var walked := Walk(h, leaves, Some(index), out, 33);
    if walked.Refused? {
      return Denied(walked.error);
    }
    if walked.Panicked? {
      return Crashed;
    }
    var tweaked := tweak(internalKey, walked.root);
    if tweaked.None? {
      return Denied(InvalidKey);
    }
    ghost var p := Final(h, leaves, Some(index), out.Length - 33);
    TakenVersionsAreValid(h, Running([], []), leaves, 0, Some(index), out.Length - 33);
    out[0] := leaf.version + tweaked.value.1;
    forall i | 0 <= i < 32 {
      out[1 + i] := internalKey[i];
    }
    r := Wrote(33 + walked.pathLen);
    assert out[1..33] == internalKey;
    assert out[33..r.len] == Flat(p.path);
    assert out[..r.len] == [out[0]] + out[1..33] + out[33..r.len];
  }

  // ----- what is written is what spends -----

  /** The control block of any leaf of any tree is `33 + 32 * depth` bytes long,
      parses back to its parts, and proves the leaf's script to the tweaked output
      key, and to no other. */
  lemma {:induction false} ControlBlockSpends(h: Hasher, tweak: Tweak, internalKey: Hash, t: Tree, leaves: seq<TapLeaf>, index: nat, size: nat)
    requires Hashes32(h) && Symmetric(h) && ParityBit(tweak) && |internalKey| == 32
    requires IsTreeOf(t, leaves) && index < |leaves| && tweak(internalKey, Root(h, t)).Some?
    requires size >= 33 + 32 * leaves[index].depth
    ensures Control(h, tweak, internalKey, leaves, index, size) == Wrote(33 + 32 * leaves[index].depth)
    ensures var p := Final(h, leaves, Some(index), size - 33);
            && p.Running? && p.stack != [] && p.stack[0].hash == Root(h, t) && p.path == Path(h, t, index)
    ensures var leaf, (key, parity) := leaves[index], tweak(internalKey, Root(h, t)).value;
            ValidVersion(leaf.version) &&
            var block := Block(leaf.version, parity, internalKey, Path(h, t, index));
            && |block| == 33 + 32 * leaf.depth
            && Parse(block) == Ok(ControlBlock(leaf.version, parity, internalKey, Flat(Path(h, t, index))))
            && forall other: Hash :: Verify(h, tweak, Parse(block).value, leaf.script, other) <==> other == key
  {
    hide PathNodes, Block, Height, Count, Listing, Root, Path, FoldPath, Final, Flat, Hashes32;
    PathIsAsLongAsDeep(h, t, 0, index);
    ListedLeaves(t, 0, index);
    WalkOfTree(h, t, leaves, Some(index), size - 33);
    PathLeadsToRoot(h, t, 0, index);
    PathIs32(h, t, index);
    BlockParses(leaves[index].version, tweak(internalKey, Root(h, t)).value.1, internalKey, Path(h, t, index));
  }

  lemma {:induction false} BlockParses(version: byte, parity: byte, internalKey: Hash, path: seq<Hash>)
    requires ValidVersion(version) && parity <= 1 && |internalKey| == 32 && |path| <= MAX_TAPROOT_DEPTH
    requires forall i :: 0 <= i < |path| ==> |path[i]| == 32
    ensures var block := Block(version, parity, internalKey, path);
            && |block| == 33 + 32 * |path|
            && Parse(block) == Ok(ControlBlock(version, parity, internalKey, Flat(path)))
            && PathNodes(Flat(path)) == Ok(path)
  {
    FlatLength(path);
    ChunksOfFlat(path);
    var block := Block(version, parity, internalKey, path);
    assert block[33..] == Flat(path) && block[1..33] == internalKey;
    assert (version + parity) % 2 == parity;
  }
}
