/** Exactly when `walk` of src/taproot.rs writes past the end of its stack. Its
    comment says the stack never outgrows the deepest leaf; a malformed listing
    that folds to depth 0 and goes on can fill every slot first. */
module TapOverrun {
  import opened Options
  import opened Bytes
  import opened TapTree
  import opened Taproot

  /** The listing of trees at depths 0, 1, 2 and so on: none can merge. */
  ghost function Spine(forest: seq<Tree>): seq<TapLeaf> {
    if forest == [] then []
    else
      var k := |forest| - 1;
      Spine(forest[..k]) + Listing(forest[k], k)
  }

  ghost predicate SpineOk(forest: seq<Tree>) {
    forall j :: 0 <= j < |forest| ==> WellFormed(forest[j]) && j + Height(forest[j]) <= MAX_TAPROOT_DEPTH
  }

  /** The first leaves list trees at depths 0 to 128, and a valid leaf at depth 128
      follows. */
  ghost predicate OverfullAt(leaves: seq<TapLeaf>, forest: seq<Tree>, k: nat) {
    && k < |leaves| && |forest| == SLOTS && SpineOk(forest) && leaves[..k] == Spine(forest)
    && leaves[k].depth == MAX_TAPROOT_DEPTH && ValidVersion(leaves[k].version)
  }

  ghost predicate Overfull(leaves: seq<TapLeaf>) {
    exists forest: seq<Tree>, k: nat :: OverfullAt(leaves, forest, k)
  }

  /** The tree of the spine that lists leaf `i`: its depth. */
  ghost function Base(forest: seq<Tree>, i: nat): (j: nat)
    requires i < |Spine(forest)|
    ensures j < |forest|
  {
    var k := |forest| - 1;
    if i < |Spine(forest[..k])| then Base(forest[..k], i) else k
  }

  /** The path of a target in the spine, from its leaf to the root of its tree, has room. */
  ghost predicate SpineRoom(forest: seq<Tree>, target: Option<nat>, room: nat) {
    target.Some? && target.value < |Spine(forest)| ==>
      32 * (Spine(forest)[target.value].depth - Base(forest, target.value)) <= room
  }

  /** A valid target, or none, and an overfull listing whose path has room. */
  ghost predicate OverrunsAt(leaves: seq<TapLeaf>, target: Option<nat>, room: nat, forest: seq<Tree>, k: nat) {
    OverfullAt(leaves, forest, k) && (target.Some? ==> target.value < |leaves|) && SpineRoom(forest, target, room)
  }

  ghost predicate Overruns(leaves: seq<TapLeaf>, target: Option<nat>, room: nat) {
    exists forest: seq<Tree>, k: nat :: OverrunsAt(leaves, target, room, forest, k)
  }

  // ----- a spine fills the stack -----

  /** What a spine leaves behind: one node a tree, or a path too long. */
  ghost predicate SpineRun(r: Progress, forest: seq<Tree>, target: Option<nat>, room: nat) {
    if SpineRoom(forest, target, room) then
      && r.Running? && |r.stack| == |forest|
      && (forall j :: 0 <= j < |forest| ==> r.stack[j].depth == j)
      && (target.None? || target.value >= |Spine(forest)| ==> r.path == [])
    else r == Failed(BufferTooSmall)
  }

  lemma {:induction false} RunSpine(h: Hasher, forest: seq<Tree>, target: Option<nat>, room: nat)
    requires SpineOk(forest) && |forest| <= SLOTS
    ensures SpineRun(Run(Pusher(h, room), Running([], []), Spine(forest), 0, target), forest, target, room)
  {
    hide Pusher, Run, SpineRun, Listing;
    if forest == [] {
      RunNothing(h, room, Running([], []), 0, target);
      NoSpine(target, room);
    } else {
      var k: nat := |forest| - 1;
      RunSpine(h, forest[..k], target, room);
      var p := Run(Pusher(h, room), Running([], []), Spine(forest[..k]), 0, target);
      RunConcat(Pusher(h, room), Running([], []), Spine(forest[..k]), Listing(forest[k], k), 0, target);
      OneMoreTree(h, forest, p, target, room);
    }
  }

  lemma {:induction false} NoSpine(target: Option<nat>, room: nat)
    ensures SpineRun(Running([], []), [], target, room)
  {
  }

  /** A tree at the depth of the stack's size, run on a rising stack. */
  lemma {:induction false} TreeOnStack(h: Hasher, t: Tree, stack: seq<Node>, path: seq<Hash>, at: nat, target: Option<nat>, room: nat)
    requires WellFormed(t) && |stack| + Height(t) <= MAX_TAPROOT_DEPTH && (Inside(t, at, target) ==> path == [])
    requires forall j :: 0 <= j < |stack| ==> stack[j].depth == j
    ensures |Listing(t, |stack|)| == Count(t)
    ensures var k, inside := |stack|, Inside(t, at, target);
            Run(Pusher(h, room), Running(stack, path), Listing(t, k), at, target)
            == if inside && 32 * (Listing(t, k)[target.value - at].depth - k) > room then Failed(BufferTooSmall)
               else Running(stack + [Node(Root(h, t), k, inside)], Own(h, t, path, at, target))
  {
    hide Pusher, Run, Listing, Collapser, Path, Root, Height, WellFormed;
    var k := |stack|;
    RunTree(h, t, k, stack, path, at, target, room);
    PlantOn(h, t, k, stack, path, at, target, room);
    CollapseOne(h, stack, Node(Root(h, t), k, Inside(t, at, target)), Own(h, t, path, at, target), room);
    if Inside(t, at, target) {
      PathIsAsLongAsDeep(h, t, k, target.value - at);
    }
  }

  lemma {:induction false} OneMoreTree(h: Hasher, forest: seq<Tree>, p: Progress, target: Option<nat>, room: nat)
    requires forest != [] && SpineOk(forest) && |forest| <= SLOTS
    requires SpineRun(p, forest[..|forest| - 1], target, room)
    ensures var k: nat := |forest| - 1;
            SpineRun(Run(Pusher(h, room), p, Listing(forest[k], k), |Spine(forest[..k])|, target), forest, target, room)
  {
    hide Pusher, Run, Listing, Own, Root, Height, WellFormed;
    var k: nat := |forest| - 1;
    var t, at := forest[k], |Spine(forest[..k])|;
    if p.Running? {
      TreeOnStack(h, t, p.stack, p.path, at, target, room);
      if Inside(t, at, target) {
        assert Spine(forest)[target.value] == Listing(t, k)[target.value - at];
      } else {
        OwnIsPath(h, t, p.path, at, target);
        if target.Some? && target.value < at {
          assert Spine(forest)[target.value] == Spine(forest[..k])[target.value];
        }
      }
    } else {
      RunStuck(h, p, Listing(t, k), at, target, room);
      assert Spine(forest)[target.value] == Spine(forest[..k])[target.value];
    }
  }

  lemma {:induction false} OwnIsPath(h: Hasher, t: Tree, path: seq<Hash>, at: nat, target: Option<nat>)
    requires !Inside(t, at, target)
    ensures Own(h, t, path, at, target) == path
  {
  }

  // ----- and nothing else does -----

  /** The leaf at which a walk overran. */
  lemma {:induction false} OverranAt(h: Hasher, leaves: seq<TapLeaf>, target: Option<nat>, room: nat) returns (k: nat)
    requires Run(Pusher(h, room), Running([], []), leaves, 0, target) == Overran
    ensures k < |leaves|
    ensures var p := Run(Pusher(h, room), Running([], []), leaves[..k], 0, target);
            p.Running? && Push(h, p, leaves[k], target == Some(k), room) == Overran
  {
    var l := |leaves| - 1;
    RunLast(Pusher(h, room), Running([], []), leaves, target);
    var p := Run(Pusher(h, room), Running([], []), leaves[..l], 0, target);
    if p.Running? {
      k := l;
    } else {
      k := OverranAt(h, leaves[..l], target, room);
      assert leaves[..l][..k] == leaves[..k];
    }
  }

  /** Collapsing never overruns: only a push onto a full stack does. */
  lemma {:induction false} CollapseNeverOverruns(h: Hasher, stack: seq<Node>, path: seq<Hash>, room: nat)
    ensures !Collapse(h, stack, path, room).Overran?
    decreases |stack|
  {
    var n := |stack|;
    if n >= 2 && stack[n - 1].depth == stack[n - 2].depth {
      var a, b := stack[n - 2], stack[n - 1];
      var held := a.holdsTarget || b.holdsTarget;
      CollapseNeverOverruns(h, stack[..n - 2] + [Node(h.branch(a.hash, b.hash), if a.depth > 0 then a.depth - 1 else 0, held)],
                            if held then path + [if a.holdsTarget then b.hash else a.hash] else path, room);
    }
  }

  /** A full rising stack has one node at every depth. */
  lemma {:induction false} FullStack(stack: seq<Node>, j: nat)
    requires Rising(stack) && |stack| == SLOTS && j < SLOTS
    ensures stack[j].depth == j
  {
    RisingFits(stack[..j + 1]);
    AtMost(stack, j);
  }

  lemma {:induction false} AtMost(stack: seq<Node>, j: nat)
    requires Rising(stack) && |stack| == SLOTS && j < SLOTS
    ensures stack[j].depth <= j
    decreases SLOTS - j
  {
    if j + 1 < SLOTS {
      AtMost(stack, j + 1);
    }
  }

  lemma {:induction false} FullForestIsSpine(stack: seq<Node>, forest: seq<Tree>)
    requires |forest| == |stack| && forall j :: 0 <= j < |stack| ==> stack[j].depth == j
    ensures ForestListing(stack, forest) == Spine(forest)
  {
    if stack != [] {
      FullForestIsSpine(stack[..|stack| - 1], forest[..|stack| - 1]);
    }
  }

  /** Trees whose leaves are shallow enough are low enough. */
  lemma {:induction false} SpineIsLow(forest: seq<Tree>, j: nat)
    requires j < |forest| && forall i :: 0 <= i < |Spine(forest)| ==> Spine(forest)[i].depth <= MAX_TAPROOT_DEPTH
    ensures j + Height(forest[j]) <= MAX_TAPROOT_DEPTH
  {
    var k := |forest| - 1;
    var front := Spine(forest[..k]);
    assert Spine(forest) == front + Listing(forest[k], k);
    if j == k {
      HeightIsReached(forest[k], k);
      var i :| 0 <= i < Count(forest[k]) && Listing(forest[k], k)[i].depth == k + Height(forest[k]);
      assert Spine(forest)[|front| + i] == Listing(forest[k], k)[i];
    } else {
      assert forall i :: 0 <= i < |front| ==> front[i] == Spine(forest)[i];
      SpineIsLow(forest[..k], j);
    }
  }

  lemma {:induction false} PanicIsOverrun(h: Hasher, leaves: seq<TapLeaf>, target: Option<nat>, room: nat)
    requires Run(Pusher(h, room), Running([], []), leaves, 0, target) == Overran
    requires target.Some? ==> target.value < |leaves|
    ensures Overruns(leaves, target, room)
  {
    var start := Running([], []);
    var k := OverranAt(h, leaves, target, room);
    var p := Run(Pusher(h, room), start, leaves[..k], 0, target);
    RunKeepsForest(h, leaves[..k], target, room);
    var pushed := p.stack + [Node(h.leaf(leaves[k].version, leaves[k].script), leaves[k].depth, target == Some(k))];
    CollapseNeverOverruns(h, pushed, p.path, room);
    var f :| Stands(p.stack, f, leaves[..k]);
    forall j | 0 <= j < SLOTS ensures p.stack[j].depth == j {
      FullStack(p.stack, j);
    }
    FullForestIsSpine(p.stack, f);
    TakenLeavesAreShallow(h, start, leaves[..k], 0, target, room);
    forall j | 0 <= j < SLOTS ensures j + Height(f[j]) <= MAX_TAPROOT_DEPTH {
      SpineIsLow(f, j);
    }
    RunSpine(h, f, target, room);
    assert OverrunsAt(leaves, target, room, f, k);
  }

  lemma {:induction false} OverrunPanics(h: Hasher, leaves: seq<TapLeaf>, forest: seq<Tree>, k: nat, target: Option<nat>, room: nat)
    requires OverrunsAt(leaves, target, room, forest, k)
    ensures Run(Pusher(h, room), Running([], []), leaves, 0, target) == Overran
  {
    var step, start := Pusher(h, room), Running([], []);
    RunSpine(h, forest, target, room);
    var p := Run(step, start, leaves[..k], 0, target);
    assert Push(h, p, leaves[k], target == Some(k), room) == Overran;
    RunLast(step, start, leaves[..k + 1], target);
    assert leaves[..k + 1][..k] == leaves[..k];
    assert leaves == leaves[..k + 1] + leaves[k + 1..];
    RunConcat(step, start, leaves[..k + 1], leaves[k + 1..], 0, target);
    RunStuck(h, Overran, leaves[k + 1..], k + 1, target, room);
  }

  /** `walk` panics exactly on overfull listings, unless its target is no leaf or the room
      for its path runs out first. */
  lemma {:induction false} WalkPanicsExactlyWhenOverfull(h: Hasher, leaves: seq<TapLeaf>, target: Option<nat>, room: nat)
    ensures Conclude(Final(h, leaves, target, room)) == Panicked <==> Overruns(leaves, target, room)
  {
    hide OverrunsAt, Run, Pusher;
    if Final(h, leaves, target, room) == Overran {
      PanicIsOverrun(h, leaves, target, room);
    }
    if Overruns(leaves, target, room) {
      var forest: seq<Tree>, k: nat :| OverrunsAt(leaves, target, room, forest, k);
      TargetIsLeaf(leaves, target, room, forest, k);
      OverrunPanics(h, leaves, forest, k, target, room);
    }
  }

  lemma {:induction false} TargetIsLeaf(leaves: seq<TapLeaf>, target: Option<nat>, room: nat, forest: seq<Tree>, k: nat)
    requires OverrunsAt(leaves, target, room, forest, k)
    ensures target.Some? ==> target.value < |leaves|
  {
  }

  /** An overfull listing goes on after a complete tree: no listing does that has
      no leaf after a fold to depth 0. */
  lemma {:induction false} OverfullGoesOn(leaves: seq<TapLeaf>)
    requires Overfull(leaves)
    ensures exists t: Tree, k: nat :: 0 < k < |leaves| && leaves[..k] == Listing(t, 0)
  {
    var forest: seq<Tree>, k: nat :| OverfullAt(leaves, forest, k);
    SpineStarts(forest);
    var t := forest[0];
    assert leaves[..Count(t)] == leaves[..k][..Count(t)] == Listing(t, 0);
  }

  lemma {:induction false} SpineStarts(forest: seq<Tree>)
    requires forest != []
    ensures |Spine(forest)| >= Count(forest[0]) && Spine(forest)[..Count(forest[0])] == Listing(forest[0], 0)
  {
    if |forest| == 1 {
      assert Spine(forest[..0]) == [];
    } else {
      SpineStarts(forest[..|forest| - 1]);
    }
  }

  /** A listing that panics: leaves at depths 0, 1, and so on to 128, and again 128. */
  lemma {:induction false} StaircasePanics(h: Hasher, script: seq<byte>)
    ensures var leaves := seq(SLOTS + 1, i requires 0 <= i <= SLOTS => TapLeaf(if i < SLOTS then i else MAX_TAPROOT_DEPTH, 0xc0, script));
            Conclude(Final(h, leaves, None, 0)) == Panicked
  {
    var leaves := seq(SLOTS + 1, i requires 0 <= i <= SLOTS => TapLeaf(if i < SLOTS then i else MAX_TAPROOT_DEPTH, 0xc0, script));
    var forest := seq(SLOTS, _ => Leaf(0xc0, script));
    StairsAreSpine(forest, 0xc0, script, SLOTS);
    assert forest[..SLOTS] == forest;
    assert leaves[..SLOTS] == Spine(forest);
    assert OverrunsAt(leaves, None, 0, forest, SLOTS);
    WalkPanicsExactlyWhenOverfull(h, leaves, None, 0);
  }

  lemma {:induction false} StairsAreSpine(forest: seq<Tree>, version: byte, script: seq<byte>, k: nat)
    requires k <= |forest| && forall i :: 0 <= i < |forest| ==> forest[i] == Leaf(version, script)
    ensures Spine(forest[..k]) == seq(k, i requires 0 <= i < k => TapLeaf(i, version, script))
  {
    if k > 0 {
      assert forest[..k][..k - 1] == forest[..k - 1];
      StairsAreSpine(forest, version, script, k - 1);
    }
  }
}
