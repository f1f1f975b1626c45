/** `walk` of src/taproot.rs, which folds a depth-first leaf listing with an
    explicit stack, and the control blocks built on it. */
module Taproot {
  import opened Options
  import opened Bytes
  import opened TapTree

  datatype Error = InvalidData | TooLarge | IndexOutOfRange | BufferTooSmall | InvalidLength | InvalidKey

  datatype Result<+T> = Ok(value: T) | Err(error: Error)

  datatype Node = Node(hash: Hash, depth: nat, holdsTarget: bool)

  /** The size of the stack. */
  const SLOTS := MAX_TAPROOT_DEPTH + 1

  /** The state of a walk: the finished subtrees, and the path so far. A walk may
      also have ended, with an error or by writing past the end of the stack. */
  datatype Progress = Running(stack: seq<Node>, path: seq<Hash>) | Failed(error: Error) | Overran

  /** How a walk ends: with the root and the length of the path in bytes, with an
      error, or by a panic on the stack's bounds. */
  datatype Walked = Done(root: Hash, pathLen: nat) | Refused(error: Error) | Panicked

  // ----- one walk, on values -----

  /** Two finished subtrees at the same depth become their parent. */
  function Collapse(h: Hasher, stack: seq<Node>, path: seq<Hash>, room: nat): Progress
    decreases |stack|
  {
    if |stack| < 2 || stack[|stack| - 1].depth != stack[|stack| - 2].depth then Running(stack, path)
    else
      var a, b := stack[|stack| - 2], stack[|stack| - 1];
      var held := a.holdsTarget || b.holdsTarget;
      if a.depth == 0 then Failed(InvalidData)
      else if held && 32 * |path| + 32 > room then Failed(BufferTooSmall)
      else
        var parent := Node(h.branch(a.hash, b.hash), a.depth - 1, held);
        Collapse(h, stack[..|stack| - 2] + [parent],
                 if held then path + [if a.holdsTarget then b.hash else a.hash] else path, room)
  }

  /** Collapsing, as a function of the stack and the path. */
  function Collapser(h: Hasher, room: nat): (seq<Node>, seq<Hash>) -> Progress {
    (stack: seq<Node>, path: seq<Hash>) => Collapse(h, stack, path, room)
  }

  /** One leaf. */
  function Push(h: Hasher, p: Progress, leaf: TapLeaf, isTarget: bool, room: nat): Progress {
    if !p.Running? then p
    else if !ValidVersion(leaf.version) then Failed(InvalidData)
    else if leaf.depth > MAX_TAPROOT_DEPTH then Failed(TooLarge)
    else if p.stack != [] && leaf.depth < p.stack[|p.stack| - 1].depth then Failed(InvalidData)
    else if |p.stack| >= SLOTS then Overran
    else Collapse(h, p.stack + [Node(h.leaf(leaf.version, leaf.script), leaf.depth, isTarget)], p.path, room)
  }

  type Step = (Progress, TapLeaf, bool) -> Progress

  function Pusher(h: Hasher, room: nat): Step {
    (p: Progress, leaf: TapLeaf, isTarget: bool) => Push(h, p, leaf, isTarget, room)
  }

  /** The leaves from index `at` on. */
  ghost function Run(step: Step, p: Progress, leaves: seq<TapLeaf>, at: nat, target: Option<nat>): Progress
    decreases |leaves|
  {
    if leaves == [] then p
    else Run(step, step(p, leaves[0], target == Some(at)), leaves[1..], at + 1, target)
  }

  /** A complete tree folds to a single node at depth 0. */
  function Conclude(p: Progress): Walked {
    match p
    case Running(stack, path) =>
      if |stack| != 1 || stack[0].depth != 0 then Refused(InvalidData) else Done(stack[0].hash, 32 * |path|)
    case Failed(error) => Refused(error)
    case Overran => Panicked
  }

  ghost function Final(h: Hasher, leaves: seq<TapLeaf>, target: Option<nat>, room: nat): Progress {
    if target.Some? && target.value >= |leaves| then Failed(IndexOutOfRange)
    else Run(Pusher(h, room), Running([], []), leaves, 0, target)
  }

  lemma {:induction false} RunConcat(step: Step, p: Progress, a: seq<TapLeaf>, b: seq<TapLeaf>, at: nat, target: Option<nat>)
    ensures Run(step, p, a + b, at, target) == Run(step, Run(step, p, a, at, target), b, at + |a|, target)
    decreases |a|
  {
    if a == [] {
      assert a + b == b;
    } else {
      assert (a + b)[1..] == a[1..] + b && (a + b)[0] == a[0];
      RunConcat(step, step(p, a[0], target == Some(at)), a[1..], b, at + 1, target);
    }
  }

  /** A walk that has ended stays as it ended. */
  lemma {:induction false} RunStuck(h: Hasher, p: Progress, leaves: seq<TapLeaf>, at: nat, target: Option<nat>, room: nat)
    requires !p.Running?
    ensures Run(Pusher(h, room), p, leaves, at, target) == p
    decreases |leaves|
  {
    if leaves != [] {
      RunStuck(h, p, leaves[1..], at + 1, target, room);
    }
  }

  lemma {:induction false} RunNothing(h: Hasher, room: nat, p: Progress, at: nat, target: Option<nat>)
    ensures Run(Pusher(h, room), p, [], at, target) == p
  {
  }

  /** One more leaf, pushed or refused. */
  lemma {:induction false} RunTurn(h: Hasher, room: nat, p: Progress, leaves: seq<TapLeaf>, i: nat, target: Option<nat>)
    requires i < |leaves|
    ensures var q := Push(h, p, leaves[i], target == Some(i), room);
            Run(Pusher(h, room), p, leaves[i..], i, target)
            == if q.Running? then Run(Pusher(h, room), q, leaves[i + 1..], i + 1, target) else q
  {
    hide Push;
    assert leaves[i..][1..] == leaves[i + 1..];
    var q := Push(h, p, leaves[i], target == Some(i), room);
    if !q.Running? {
      RunStuck(h, q, leaves[i + 1..], i + 1, target, room);
    }
  }

  // ----- the stack stands for a forest -----

  /** Depths strictly increase up the stack. */
  ghost predicate Rising(stack: seq<Node>) {
    && (forall i :: 0 <= i < |stack| ==> stack[i].depth <= MAX_TAPROOT_DEPTH)
    && forall i, j :: 0 <= i < j < |stack| ==> stack[i].depth < stack[j].depth
  }

  /** So a stack never outgrows its slots. */
  lemma {:induction false} RisingFits(stack: seq<Node>)
    requires Rising(stack) && stack != []
    ensures |stack| <= stack[|stack| - 1].depth + 1 <= SLOTS
  {
    if |stack| > 1 {
      RisingFits(stack[..|stack| - 1]);
    }
  }

  /** Rising, up to the last two nodes, which may be level. */
  ghost predicate Settling(stack: seq<Node>) {
    && stack != []
    && (forall i :: 0 <= i < |stack| ==> stack[i].depth <= MAX_TAPROOT_DEPTH)
    && (forall i, j :: 0 <= i < j < |stack| - 1 ==> stack[i].depth < stack[j].depth)
    && (|stack| >= 2 ==> stack[|stack| - 2].depth <= stack[|stack| - 1].depth)
  }

  /** The leaves of a forest, each tree at the depth of its node. */
  ghost function ForestListing(stack: seq<Node>, forest: seq<Tree>): seq<TapLeaf>
    requires |forest| == |stack|
  {
    if stack == [] then []
    else
      var k := |stack| - 1;
      ForestListing(stack[..k], forest[..k]) + Listing(forest[k], stack[k].depth)
  }

  /** A forest whose listing, at the depths of the stack, is `leaves`. */
  ghost predicate Stands(stack: seq<Node>, forest: seq<Tree>, leaves: seq<TapLeaf>) {
    && |forest| == |stack|
    && (forall i :: 0 <= i < |forest| ==> WellFormed(forest[i]))
    && ForestListing(stack, forest) == leaves
  }

  /** The parent of two level nodes stands for the tree over theirs. */
  lemma {:induction false} MergeKeepsForest(stack: seq<Node>, forest: seq<Tree>, leaves: seq<TapLeaf>, parent: Node)
    requires Stands(stack, forest, leaves) && |stack| >= 2
    requires stack[|stack| - 1].depth == stack[|stack| - 2].depth == parent.depth + 1
    ensures var n := |stack|;
            Stands(stack[..n - 2] + [parent], forest[..n - 2] + [Branch(forest[n - 2], forest[n - 1])], leaves)
  {
    var n := |stack|;
    var below, trees := stack[..n - 2], forest[..n - 2];
    var l, r := forest[n - 2], forest[n - 1];
    var merged, f := below + [parent], trees + [Branch(l, r)];
    assert stack[..n - 1][..n - 2] == below && forest[..n - 1][..n - 2] == trees;
    assert merged[..n - 2] == below && f[..n - 2] == trees;
    var front, d := ForestListing(below, trees), parent.depth;
    assert ForestListing(stack[..n - 1], forest[..n - 1]) == front + Listing(l, d + 1);
    assert leaves == front + Listing(l, d + 1) + Listing(r, d + 1);
    assert ForestListing(merged, f) == front + Listing(Branch(l, r), d);
    assert front + (Listing(l, d + 1) + Listing(r, d + 1)) == leaves;
  }

  /** What is left to settle after a merge. */
  lemma {:induction false} MergeSettles(stack: seq<Node>, parent: Node)
    requires Settling(stack) && |stack| >= 2
    requires stack[|stack| - 1].depth == stack[|stack| - 2].depth == parent.depth + 1
    ensures Settling(stack[..|stack| - 2] + [parent])
  {
    assert |stack| >= 3 ==> stack[|stack| - 3].depth < stack[|stack| - 2].depth;
  }

  /** A stack whose last two nodes are not level has settled. */
  lemma {:induction false} Settled(stack: seq<Node>)
    requires Settling(stack) && (|stack| >= 2 ==> stack[|stack| - 1].depth != stack[|stack| - 2].depth)
    ensures Rising(stack)
  {
    forall i, j | 0 <= i < j < |stack| ensures stack[i].depth < stack[j].depth {
      assert i < |stack| - 2 ==> stack[i].depth < stack[|stack| - 2].depth;
    }
  }

  lemma {:induction false} CollapseKeepsForest(h: Hasher, stack: seq<Node>, path: seq<Hash>, room: nat,
                                               forest: seq<Tree>, leaves: seq<TapLeaf>)
    requires Settling(stack) && Stands(stack, forest, leaves)
    ensures var r := Collapse(h, stack, path, room);
            && !r.Overran?
            && (r.Running? ==> Rising(r.stack) && exists f :: Stands(r.stack, f, leaves))
    decreases |stack|
  {
    hide Settling, Count, Listing;
    var n := |stack|;
    if n >= 2 && stack[n - 1].depth == stack[n - 2].depth {
      var a, b := stack[n - 2], stack[n - 1];
      var held := a.holdsTarget || b.holdsTarget;
      if a.depth > 0 && !(held && 32 * |path| + 32 > room) {
        var parent := Node(h.branch(a.hash, b.hash), a.depth - 1, held);
        MergeKeepsForest(stack, forest, leaves, parent);
        MergeSettles(stack, parent);
        CollapseKeepsForest(h, stack[..n - 2] + [parent],
                            if held then path + [if a.holdsTarget then b.hash else a.hash] else path, room,
                            forest[..n - 2] + [Branch(forest[n - 2], forest[n - 1])], leaves);
      }
    } else {
      Settled(stack);
    }
  }

  lemma {:induction false} PushKeepsForest(h: Hasher, p: Progress, leaf: TapLeaf, isTarget: bool, room: nat, forest: seq<Tree>, leaves: seq<TapLeaf>)
    requires p.Running? && Rising(p.stack) && Stands(p.stack, forest, leaves)
    ensures var r := Push(h, p, leaf, isTarget, room);
            r.Running? ==> Rising(r.stack) && exists f :: Stands(r.stack, f, leaves + [leaf])
  {
    var node := Node(h.leaf(leaf.version, leaf.script), leaf.depth, isTarget);
    var f := forest + [Leaf(leaf.version, leaf.script)];
    if ValidVersion(leaf.version) && leaf.depth <= MAX_TAPROOT_DEPTH
       && (p.stack == [] || leaf.depth >= p.stack[|p.stack| - 1].depth) {
      assert (p.stack + [node])[..|p.stack|] == p.stack && f[..|p.stack|] == forest;
      CollapseKeepsForest(h, p.stack + [node], p.path, room, f, leaves + [leaf]);
    }
  }

  /** The state after the first leaves, and then one more. */
  lemma {:induction false} RunLast(step: Step, p: Progress, leaves: seq<TapLeaf>, target: Option<nat>)
    requires leaves != []
    ensures var k := |leaves| - 1;
            Run(step, p, leaves, 0, target) == step(Run(step, p, leaves[..k], 0, target), leaves[k], target == Some(k))
  {
    var k := |leaves| - 1;
    assert leaves == leaves[..k] + [leaves[k]];
    RunConcat(step, p, leaves[..k], [leaves[k]], 0, target);
    assert [leaves[k]][1..] == [];
  }

  /** Whatever has been taken in, the stack rises within its slots and stands for
      the leaves so far. */
  lemma {:induction false} RunKeepsForest(h: Hasher, leaves: seq<TapLeaf>, target: Option<nat>, room: nat)
    ensures var r := Run(Pusher(h, room), Running([], []), leaves, 0, target);
            r.Running? ==> Rising(r.stack) && |r.stack| <= SLOTS && exists f :: Stands(r.stack, f, leaves)
  {
    if leaves == [] {
      assert Stands([], [], []);
    } else {
      var k := |leaves| - 1;
      RunLast(Pusher(h, room), Running([], []), leaves, target);
      RunKeepsForest(h, leaves[..k], target, room);
      var p := Run(Pusher(h, room), Running([], []), leaves[..k], 0, target);
      if p.Running? {
        var f :| Stands(p.stack, f, leaves[..k]);
        PushKeepsForest(h, p, leaves[k], target == Some(k), room, f, leaves[..k]);
        assert leaves == leaves[..k] + [leaves[k]];
      }
      var r := Run(Pusher(h, room), Running([], []), leaves, 0, target);
      if r.Running? && r.stack != [] {
        RisingFits(r.stack);
      }
    }
  }

  // ----- a tree's listing folds to its root -----

  predicate Inside(t: Tree, at: nat, target: Option<nat>) {
    target.Some? && at <= target.value < at + Count(t)
  }

  /** The path after a whole tree: the target's, if the tree has it. */
  function Own(h: Hasher, t: Tree, path: seq<Hash>, at: nat, target: Option<nat>): seq<Hash> {
    if Inside(t, at, target) then Path(h, t, target.value - at) else path
  }

  /** The state a whole tree at depth `d` leaves a stack in. */
  function Planted(h: Hasher, t: Tree, d: nat, stack: seq<Node>, path: seq<Hash>, at: nat, target: Option<nat>, room: nat): Progress {
    var own, inside := Own(h, t, path, at, target), Inside(t, at, target);
    if inside && 32 * |own| > room then Failed(BufferTooSmall)
    else Collapser(h, room)(stack + [Node(Root(h, t), d, inside)], own)
  }

  lemma {:induction false} LeafPlants(h: Hasher, t: Tree, d: nat, stack: seq<Node>, path: seq<Hash>, at: nat, target: Option<nat>, room: nat)
    requires t.Leaf? && WellFormed(t) && d <= MAX_TAPROOT_DEPTH
    requires |stack| <= d && (stack != [] ==> stack[|stack| - 1].depth <= d)
    requires Inside(t, at, target) ==> path == []
    ensures Run(Pusher(h, room), Running(stack, path), Listing(t, d), at, target)
         == Planted(h, t, d, stack, path, at, target, room)
  {
    var leaf := TapLeaf(d, t.version, t.script);
    var q := Push(h, Running(stack, path), leaf, target == Some(at), room);
    assert Listing(t, d) == [leaf] && [leaf][1..] == [];
    assert Run(Pusher(h, room), Running(stack, path), [leaf], at, target) == Run(Pusher(h, room), q, [], at + 1, target);
    assert Inside(t, at, target) <==> target == Some(at);
  }

  /** Two level nodes on top of a stack become their parent. */
  lemma {:induction false} CollapsePair(h: Hasher, below: seq<Node>, a: Node, b: Node, path: seq<Hash>, room: nat)
    requires a.depth == b.depth > 0
    ensures var held := a.holdsTarget || b.holdsTarget;
            Collapser(h, room)(below + [a] + [b], path) ==
            if held && 32 * |path| + 32 > room then Failed(BufferTooSmall)
            else Collapser(h, room)(below + [Node(h.branch(a.hash, b.hash), a.depth - 1, held)],
                                    if held then path + [if a.holdsTarget then b.hash else a.hash] else path)
  {
    var stack := below + [a] + [b];
    assert stack[..|stack| - 2] == below;
  }

  /** A node below the top of a stack stays on it. */
  lemma {:induction false} CollapseOne(h: Hasher, below: seq<Node>, a: Node, path: seq<Hash>, room: nat)
    requires below != [] ==> below[|below| - 1].depth < a.depth
    ensures Collapser(h, room)(below + [a], path) == Running(below + [a], path)
  {
  }

  /** A whole tree acts on the stack as one node. */
  lemma {:induction false} RunTree(h: Hasher, t: Tree, d: nat, stack: seq<Node>, path: seq<Hash>, at: nat, target: Option<nat>, room: nat)
    requires WellFormed(t) && d + Height(t) <= MAX_TAPROOT_DEPTH
    requires |stack| <= d && (stack != [] ==> stack[|stack| - 1].depth <= d)
    requires Inside(t, at, target) ==> path == []
    ensures Run(Pusher(h, room), Running(stack, path), Listing(t, d), at, target)
         == Planted(h, t, d, stack, path, at, target, room)
  {
    hide Pusher, Push, Run, Collapser;
    match t
    case Leaf(_, _) => LeafPlants(h, t, d, stack, path, at, target, room);
    case Branch(l, r) =>
      var p := Planted(h, l, d + 1, stack, path, at, target, room);
      RunTree(h, l, d + 1, stack, path, at, target, room);
      LeftStays(h, l, d, stack, path, at, target, room);
      if p.Running? {
        RunTree(h, r, d + 1, p.stack, p.path, at + Count(l), target, room);
      }
      RunOverBranch(h, l, r, d, stack, path, at, target, room);
  }

  /** If both children act as nodes, so does the branch. */
  lemma {:induction false} RunOverBranch(h: Hasher, l: Tree, r: Tree, d: nat, stack: seq<Node>, path: seq<Hash>, at: nat, target: Option<nat>, room: nat)
    requires stack != [] ==> stack[|stack| - 1].depth <= d
    requires Inside(Branch(l, r), at, target) ==> path == []
    requires Run(Pusher(h, room), Running(stack, path), Listing(l, d + 1), at, target)
          == Planted(h, l, d + 1, stack, path, at, target, room)
    requires var p := Planted(h, l, d + 1, stack, path, at, target, room);
             p.Running? ==> (Run(Pusher(h, room), p, Listing(r, d + 1), at + Count(l), target)
                             == Planted(h, r, d + 1, p.stack, p.path, at + Count(l), target, room))
    ensures Run(Pusher(h, room), Running(stack, path), Listing(Branch(l, r), d), at, target)
         == Planted(h, Branch(l, r), d, stack, path, at, target, room)
  {
    var p := Planted(h, l, d + 1, stack, path, at, target, room);
    BranchPlants(h, l, r, d, stack, path, at, target, room);
    RunBranch(Pusher(h, room), l, r, d, Running(stack, path), p, at, target);
    if !p.Running? {
      RunStuck(h, p, Listing(r, d + 1), at + Count(l), target, room);
    }
  }

  lemma {:induction false} RunBranch(step: Step, l: Tree, r: Tree, d: nat, start: Progress, middle: Progress, at: nat, target: Option<nat>)
    requires Run(step, start, Listing(l, d + 1), at, target) == middle
    ensures Run(step, start, Listing(Branch(l, r), d), at, target)
         == Run(step, middle, Listing(r, d + 1), at + Count(l), target)
  {
    RunConcat(step, start, Listing(l, d + 1), Listing(r, d + 1), at, target);
  }

  /** A left child stays on the stack by itself. */
  lemma {:induction false} LeftStays(h: Hasher, l: Tree, d: nat, stack: seq<Node>, path: seq<Hash>, at: nat, target: Option<nat>, room: nat)
    requires stack != [] ==> stack[|stack| - 1].depth <= d
    ensures var own, inside := Own(h, l, path, at, target), Inside(l, at, target);
            Planted(h, l, d + 1, stack, path, at, target, room)
            == if inside && 32 * |own| > room then Failed(BufferTooSmall)
               else Running(stack + [Node(Root(h, l), d + 1, inside)], own)
  {
  }

  /** The path of a target in a branch ends with the other child. */
  lemma {:induction false} OwnOfBranch(h: Hasher, l: Tree, r: Tree, path: seq<Hash>, at: nat, target: Option<nat>)
    requires Inside(Branch(l, r), at, target) ==> path == []
    ensures var left := Own(h, l, path, at, target);
            var both := Own(h, r, left, at + Count(l), target);
            && (Inside(Branch(l, r), at, target) <==> Inside(l, at, target) || Inside(r, at + Count(l), target))
            && Own(h, Branch(l, r), path, at, target) ==
               (if Inside(l, at, target) then left + [Root(h, r)]
                else if Inside(r, at + Count(l), target) then both + [Root(h, l)] else path)
            && (!Inside(r, at + Count(l), target) ==> both == left)
            && (Inside(l, at, target) ==> !Inside(r, at + Count(l), target))
  {
  }

  /** Planting the right child on the left one. */
  lemma {:induction false} PlantPair(h: Hasher, l: Tree, r: Tree, d: nat, stack: seq<Node>, path: seq<Hash>, at: nat, target: Option<nat>, room: nat)
    requires Inside(Branch(l, r), at, target) ==> path == []
    requires Inside(l, at, target) ==> 32 * |Own(h, l, path, at, target)| <= room
    ensures var nl := Node(Root(h, l), d + 1, Inside(l, at, target));
            Planted(h, r, d + 1, stack + [nl], Own(h, l, path, at, target), at + Count(l), target, room)
            == Planted(h, Branch(l, r), d, stack, path, at, target, room)
  {
    OwnOfBranch(h, l, r, path, at, target);
    var nl := Node(Root(h, l), d + 1, Inside(l, at, target));
    var nr := Node(Root(h, r), d + 1, Inside(r, at + Count(l), target));
    var left := Own(h, l, path, at, target);
    var both := Own(h, r, left, at + Count(l), target);
    var collapse, parent := Collapser(h, room), Node(Root(h, Branch(l, r)), d, nl.holdsTarget || nr.holdsTarget);
    CollapsePair(h, stack, nl, nr, both, room);
    if nl.holdsTarget {
      assert collapse(stack + [nl] + [nr], both) ==
             if 32 * |left| + 32 > room then Failed(BufferTooSmall) else collapse(stack + [parent], left + [nr.hash]);
    } else if nr.holdsTarget {
      assert collapse(stack + [nl] + [nr], both) ==
             if 32 * |both| + 32 > room then Failed(BufferTooSmall) else collapse(stack + [parent], both + [nl.hash]);
    } else {
      assert collapse(stack + [nl] + [nr], both) == collapse(stack + [parent], path);
    }
    PlantOn(h, r, d + 1, stack + [nl], left, at + Count(l), target, room);
    PlantOn(h, Branch(l, r), d, stack, path, at, target, room);
  }

  /** Planting a branch is planting its children, one on the other. */
  lemma {:induction false} BranchPlants(h: Hasher, l: Tree, r: Tree, d: nat, stack: seq<Node>, path: seq<Hash>, at: nat, target: Option<nat>, room: nat)
    requires Inside(Branch(l, r), at, target) ==> path == []
    requires stack != [] ==> stack[|stack| - 1].depth <= d
    ensures var p := Planted(h, l, d + 1, stack, path, at, target, room);
            Planted(h, Branch(l, r), d, stack, path, at, target, room)
            == if p.Running? then Planted(h, r, d + 1, p.stack, p.path, at + Count(l), target, room) else p
  {
    LeftStays(h, l, d, stack, path, at, target, room);
    if Planted(h, l, d + 1, stack, path, at, target, room).Running? {
      PlantPair(h, l, r, d, stack, path, at, target, room);
    } else {
      OwnOfBranch(h, l, r, path, at, target);
    }
  }

  lemma {:induction false} PlantOn(h: Hasher, t: Tree, d: nat, stack: seq<Node>, path: seq<Hash>, at: nat, target: Option<nat>, room: nat)
    ensures var own, node := Own(h, t, path, at, target), Node(Root(h, t), d, Inside(t, at, target));
            Planted(h, t, d, stack, path, at, target, room)
            == if node.holdsTarget && 32 * |own| > room then Failed(BufferTooSmall)
               else Collapser(h, room)(stack + [node], own)
  {
  }

  // ----- exact acceptance -----

  /** `t` is the tree that `leaves` lists. */
  ghost predicate IsTreeOf(t: Tree, leaves: seq<TapLeaf>) {
    WellFormed(t) && Height(t) <= MAX_TAPROOT_DEPTH && Listing(t, 0) == leaves
  }

  /** The listing of a tree folds to its root and the target's path, if the path
      has room. */
  lemma {:induction false} WalkOfTree(h: Hasher, t: Tree, leaves: seq<TapLeaf>, target: Option<nat>, room: nat)
    requires IsTreeOf(t, leaves)
    ensures Conclude(Final(h, leaves, target, room)) ==
            if target == None then Done(Root(h, t), 0)
            else if target.value >= |leaves| then Refused(IndexOutOfRange)
            else if 32 * |Path(h, t, target.value)| > room then Refused(BufferTooSmall)
            else Done(Root(h, t), 32 * |Path(h, t, target.value)|)
    ensures Final(h, leaves, target, room).Running? && target.Some? ==>
              target.value < |leaves| && Final(h, leaves, target, room).path == Path(h, t, target.value)
  {
    RunTree(h, t, 0, [], [], 0, target, room);
    var root := Node(Root(h, t), 0, Inside(t, 0, target));
    var own := if Inside(t, 0, target) then Path(h, t, target.value) else [];
    CollapseOne(h, [], root, own, room);
    assert [] + [root] == [root];
  }

  lemma {:induction false} HeightIsReached(t: Tree, d: nat)
    ensures exists k :: 0 <= k < Count(t) && Listing(t, d)[k].depth == d + Height(t)
  {
    match t
    case Leaf(version, script) =>
      assert Listing(t, d)[0].depth == d;
    case Branch(l, r) =>
      HeightIsReached(l, d + 1);
      HeightIsReached(r, d + 1);
      if Height(l) > Height(r) {
        var k :| 0 <= k < Count(l) && Listing(l, d + 1)[k].depth == d + 1 + Height(l);
        assert Listing(t, d)[k].depth == d + Height(t);
      } else {
        var k :| 0 <= k < Count(r) && Listing(r, d + 1)[k].depth == d + 1 + Height(r);
        assert Listing(t, d)[Count(l) + k].depth == d + Height(t);
      }
  }

  /** Leaves taken in are no deeper than allowed. */
  lemma {:induction false} TakenLeavesAreShallow(h: Hasher, p: Progress, leaves: seq<TapLeaf>, at: nat, target: Option<nat>, room: nat)
    requires Run(Pusher(h, room), p, leaves, at, target).Running?
    ensures p.Running?
    ensures forall j :: 0 <= j < |leaves| ==> leaves[j].depth <= MAX_TAPROOT_DEPTH
    decreases |leaves|
  {
    if leaves != [] {
      var q := Push(h, p, leaves[0], target == Some(at), room);
      if !q.Running? {
        RunStuck(h, q, leaves[1..], at + 1, target, room);
      }
      TakenLeavesAreShallow(h, q, leaves[1..], at + 1, target, room);
      assert leaves == [leaves[0]] + leaves[1..];
    }
  }

  /** `walk` succeeds exactly on the depth-first listings of full binary trees, of
      height at most 128 and with valid leaf versions, that have the target and
      room for its path; and the tree is the only one of that listing. */
  lemma {:induction false} WalkAcceptsExactlyTrees(h: Hasher, leaves: seq<TapLeaf>, target: Option<nat>, room: nat)
    ensures Conclude(Final(h, leaves, target, room)).Done? <==>
            exists t :: IsTreeOf(t, leaves) &&
              (target.Some? ==> target.value < |leaves| && 32 * |Path(h, t, target.value)| <= room)
    ensures forall t, u :: IsTreeOf(t, leaves) && IsTreeOf(u, leaves) ==> t == u
  {
    var p := Final(h, leaves, target, room);
    if Conclude(p).Done? {
      RunKeepsForest(h, leaves, target, room);
      TakenLeavesAreShallow(h, Running([], []), leaves, 0, target, room);
      var f :| Stands(p.stack, f, leaves);
      var t := f[0];
      assert ForestListing(p.stack[..0], f[..0]) == [];
      assert leaves == [] + Listing(t, 0) == Listing(t, 0);
      HeightIsReached(t, 0);
      assert IsTreeOf(t, leaves);
      WalkOfTree(h, t, leaves, target, room);
    }
    forall t | IsTreeOf(t, leaves)
      ensures Conclude(p).Done? <==> (target.Some? ==> target.value < |leaves| && 32 * |Path(h, t, target.value)| <= room)
    {
      WalkOfTree(h, t, leaves, target, room);
    }
    forall t, u | IsTreeOf(t, leaves) && IsTreeOf(u, leaves) ensures t == u {
      assert Listing(t, 0) + [] == Listing(u, 0) + [];
      ListingDeterminesTree(t, u, 0, [], []);
    }
  }

  // ----- the loop, over its stack and buffer -----

  /** The nodes of a path end to end. */
  function Flat(path: seq<Hash>): seq<byte> {
    if path == [] then [] else Flat(path[..|path| - 1]) + path[|path| - 1]
  }

  ghost predicate Hashes32(h: Hasher) {
    && (forall version: byte, script: seq<byte> :: |h.leaf(version, script)| == 32)
    && (forall a: Hash, b: Hash :: |h.branch(a, b)| == 32)
  }

  ghost predicate All32(stack: seq<Node>) {
    forall i :: 0 <= i < |stack| ==> |stack[i].hash| == 32
  }

  /** `out[from..]` starts with the path. */
  ghost predicate Written(out: array<byte>, from: nat, path: seq<Hash>)
    reads out
  {
    from + 32 * |path| <= out.Length && out[from..from + 32 * |path|] == Flat(path)
  }

  /** Writes the next node of the path. */
  method WriteNode(out: array<byte>, from: nat, pathLen: nat, node: Hash, ghost path: seq<Hash>)
    requires |node| == 32 && Written(out, from, path) && pathLen == 32 * |path| && from + pathLen + 32 <= out.Length
    modifies out
    ensures Written(out, from, path + [node]) && out[..from] == old(out[..from])
  {
    var at := from + pathLen;
    forall i | 0 <= i < 32 {
      out[at + i] := node[i];
    }
    assert (path + [node])[..|path|] == path;
    assert out[from..at] == old(out[from..at]);
    assert out[at..at + 32] == node;
    assert out[from..at + 32] == out[from..at] + out[at..at + 32];
  }

  /** One turn of the inner loop: the two nodes on top become their parent. */
  method Merge(h: Hasher, stack: array<Node>, len: nat, out: array<byte>, from: nat, pathLen0: nat, ghost path0: seq<Hash>)
    returns (pathLen: nat, error: Option<Error>, ghost path: seq<Hash>)
    requires Hashes32(h) && 2 <= len <= stack.Length && All32(stack[..len])
    requires stack[len - 1].depth == stack[len - 2].depth
    requires Written(out, from, path0) && pathLen0 == 32 * |path0|
    modifies stack, out
    ensures out[..from] == old(out[..from])
    ensures Collapse(h, old(stack[..len]), path0, out.Length - from)
         == if error.Some? then Failed(error.value) else Collapse(h, stack[..len - 1], path, out.Length - from)
    ensures error == None ==> Written(out, from, path) && pathLen == 32 * |path| && All32(stack[..len - 1])
  {
    pathLen, error, path := pathLen0, None, path0;
    var a, b := stack[len - 2], stack[len - 1];
    ghost var before := stack[..len];
    assert before[len - 2] == a && before[len - 1] == b;
    var held := a.holdsTarget || b.holdsTarget;
    if a.depth == 0 {
      error := Some(InvalidData);
      return;
    }
    if held {
      var sibling := if a.holdsTarget then b.hash else a.hash;
      if from + pathLen + 32 > out.Length {
        error := Some(BufferTooSmall);
        return;
      }
      WriteNode(out, from, pathLen, sibling, path);
      pathLen, path := pathLen + 32, path + [sibling];
    }
    stack[len - 2] := Node(h.branch(a.hash, b.hash), a.depth - 1, held);
    assert stack[..len - 1] == before[..len - 2] + [stack[len - 2]];
  }

  /** The inner loop: merges level nodes on top of the stack. */
  method Settle(h: Hasher, stack: array<Node>, len0: nat, out: array<byte>, from: nat, pathLen0: nat, ghost path0: seq<Hash>)
    returns (len: nat, pathLen: nat, error: Option<Error>, ghost path: seq<Hash>)
    requires Hashes32(h) && len0 <= stack.Length && All32(stack[..len0])
    requires Written(out, from, path0) && pathLen0 == 32 * |path0|
    modifies stack, out
    ensures len <= stack.Length && out[..from] == old(out[..from])
    ensures Collapse(h, old(stack[..len0]), path0, out.Length - from)
         == if error.Some? then Failed(error.value) else Running(stack[..len], path)
    ensures error == None ==> Written(out, from, path) && pathLen == 32 * |path| && All32(stack[..len])
  {
    ghost var room := out.Length - from;
    ghost var whole := Collapse(h, stack[..len0], path0, room);
    len, pathLen, error, path := len0, pathLen0, None, path0;
    while len >= 2 && stack[len - 1].depth == stack[len - 2].depth
      invariant len <= stack.Length && All32(stack[..len]) && out[..from] == old(out[..from])
      invariant Written(out, from, path) && pathLen == 32 * |path|
      invariant whole == Collapse(h, stack[..len], path, room)
      decreases len
    {
      pathLen, error, path := Merge(h, stack, len, out, from, pathLen, path);
      if error.Some? {
        return;
      }
      len := len - 1;
    }
    error := None;
  }

  /** `walk`: the root, and the length of the path written at `out[from..]`. */
  method Walk(h: Hasher, leaves: seq<TapLeaf>, target: Option<nat>, out: array<byte>, from: nat) returns (r: Walked)
    requires Hashes32(h) && from <= out.Length
    modifies out
    ensures r == Conclude(Final(h, leaves, target, out.Length - from))
    ensures r.Done? ==> Written(out, from, Final(h, leaves, target, out.Length - from).path)
    ensures out[..from] == old(out[..from])
  {
    hide Collapse, Pusher, Run;
    var stack := new Node[SLOTS](_ => Node([], 0, false));
    var len: nat, pathLen: nat := 0, 0;
    ghost var path: seq<Hash>, room, final := [], out.Length - from, Final(h, leaves, target, out.Length - from);
    if target.Some? && target.value >= |leaves| {
      return Refused(IndexOutOfRange);
    }
    assert stack[..0] == [] && leaves[0..] == leaves;
    for i := 0 to |leaves|
      invariant len <= SLOTS == stack.Length && All32(stack[..len]) && out[..from] == old(out[..from])
      invariant Written(out, from, path) && pathLen == 32 * |path|
      invariant Run(Pusher(h, room), Running(stack[..len], path), leaves[i..], i, target) == final
    {
      var leaf := leaves[i];
      RunTurn(h, room, Running(stack[..len], path), leaves, i, target);
      if !ValidVersion(leaf.version) {
        return Refused(InvalidData);
      }
      if leaf.depth > MAX_TAPROOT_DEPTH {
        return Refused(TooLarge);
      }
      if len > 0 && leaf.depth < stack[len - 1].depth {
        return Refused(InvalidData);
      }
      if len == stack.Length {
        // the source indexes past the end of the stack here
        return Panicked;
      }
      ghost var before := stack[..len];
      stack[len] := Node(h.leaf(leaf.version, leaf.script), leaf.depth, target == Some(i));
      len := len + 1;
      assert stack[..len] == before + [stack[len - 1]];
      var error;
      len, pathLen, error, path := Settle(h, stack, len, out, from, pathLen, path);
      if error.Some? {
        RunStuck(h, Failed(error.value), leaves[i + 1..], i + 1, target, room);
        return Refused(error.value);
      }
    }
    RunNothing(h, room, Running(stack[..len], path), |leaves|, target);
    assert leaves[|leaves|..] == [];
    if len != 1 || stack[0].depth != 0 {
      return Refused(InvalidData);
    }
    r := Done(stack[0].hash, pathLen);
  }
}
