/** Lookup and visiting of a constructed tree, and the promises of the whole class
    (`include/wedding_cake/shallow_tree.hpp`). */
module ShallowTreeQueries {
  import opened Wrappers
  import opened Bytes
  import opened Buckets
  import opened TreeSpec
  import opened TreeTheorems
  import opened LookupTheorems
  import opened ShallowTrees

  /** What the lookup loop relies on when it indexes into the nodes. */
  predicate Shaped(node: Node, n: nat, r: nat) {
    match node
    case Leaf(_, reassurance, _) => |reassurance| == r
    case Slots(_, b, slots) =>
      && b < n && |slots| == 256
      && forall v | 0 <= v < |slots| && slots[v].Some? :: Shaped(slots[v].value, n, r)
  }

  predicate WellFormed(t: ShallowTree) {
    t.root.Some? ==> t.reassuranceBytes >= 1 && Shaped(t.root.value, t.hashBytes, t.reassuranceBytes)
  }

  lemma {:induction false} GrownIsShaped(s: seq<Item>, unused: set<nat>, n: nat, depth: nat, r: nat)
    requires InRange(unused, n) && Grow(s, unused, n, depth, r).Ok?
    ensures var node := Grow(s, unused, n, depth, r).value; node.Some? ==> Shaped(node.value, n, r)
    decreases |unused|
  {
    if |s| >= 2 {
      var b, slots := Branches(s, unused, n, depth, r);
      forall v: nat | v < 256 && slots[v].Some?
        ensures Shaped(slots[v].value, n, r)
      {
        assert Grow(Bucket(s, b, v), unused - {b}, n, depth + 1, r) == Ok(slots[v]);
        GrownIsShaped(Bucket(s, b, v), unused - {b}, n, depth + 1, r);
      }
    }
  }

  /** A node above two hashes or more branches on the chosen byte, and its slot `v` holds the subtree
      of the hashes whose byte there is `v`. */
  lemma Branches(s: seq<Item>, unused: set<nat>, n: nat, depth: nat, r: nat)
    returns (b: nat, slots: seq<Option<Node>>)
    requires InRange(unused, n) && |s| >= 2 && Grow(s, unused, n, depth, r).Ok?
    ensures unused != {} && b == ChosenByte(s, unused, n) && b in unused && |slots| == 256
    ensures Grow(s, unused, n, depth, r) == Ok(Some(Slots(depth, b, slots)))
    ensures forall v: nat | v < 256 :: Grow(Bucket(s, b, v), unused - {b}, n, depth + 1, r) == Ok(slots[v])
  {
    b := ChosenByte(s, unused, n);
    slots := Build(s, unused, n, depth, r).value.slots;
  }

  /** Every tree that construction returns can be looked up in. */
  lemma ConstructedIsWellFormed(s: seq<Item>, n: nat, tailBits: nat, r: nat)
    requires TreeOf(s, n, tailBits, r).Ok? && (s != [] ==> r >= 1)
    ensures WellFormed(TreeOf(s, n, tailBits, r).value)
  {
    GrownIsShaped(s, InitialMask(n, tailBits), n, HandledBytes(tailBits), r);
  }

  // ---------------------------------------------------------------- lookup

  /** Checks the reassurance bytes of a leaf against the target, byte by byte. */
  method CheckLeaf(leaf: Node, unused: set<nat>, h: seq<byte>, r: nat) returns (res: Option<LocalPi>)
    requires leaf.Leaf? && |leaf.reassurance| == r && r >= 1
    ensures res == Find(leaf, unused, h)
  {
    var index := 0;
    for b := 0 to |h|
      invariant index == |Unused(h, unused, b)| < r
      invariant Matches(Unused(h, unused, b), leaf.reassurance)
    {
      UnusedPrefix(h, unused, b + 1, |h|);
      if b !in unused {
        continue;
      }
      assert Unused(h, unused, b + 1)[index] == h[b];
      if h[b] != leaf.reassurance[index] {
        assert Unused(h, unused, |h|)[index] == h[b];
        return None;
      }
      index := index + 1;
      if index >= r {
        assert forall i :: 0 <= i < r ==> Unused(h, unused, |h|)[i] == Unused(h, unused, b + 1)[i];
        return Some(leaf.pi);
      }
    }
    res := Some(leaf.pi);
  }

  /** Walks down from the root, re-deriving the mask of unused bytes on the way. */
  method LookupHashUniqueReassuredCandidate(t: ShallowTree, h: seq<byte>) returns (res: Option<LocalPi>)
    requires WellFormed(t)
    ensures res == Answer(t, h)
  {
    if |h| != t.hashBytes || t.root.None? {
      return None;
    }
    var handled := (t.tailBits + 7) / 8;
    var unused := Range(0, t.hashBytes);
    for b := 0 to handled
      invariant unused == Range(b, t.hashBytes)
    {
      unused := unused - {b};
    }
    var current := t.root.value;
    while true
      invariant Shaped(current, t.hashBytes, t.reassuranceBytes)
      invariant Find(current, unused, h) == Answer(t, h)
      decreases current
    {
      match current {
        case Leaf(_, _, _) =>
          res := CheckLeaf(current, unused, h, t.reassuranceBytes);
          return;
        case Slots(_, b, slots) =>
          var v := h[b];
          unused := unused - {b};
          if slots[v].None? {
            return None;
          }
          current := slots[v].value;
      }
    }
  }

  // ---------------------------------------------------------------- visiting

  function StackNodes(stack: seq<Node>): multiset<Node> {
    if stack == [] then multiset{} else StackNodes(stack[..|stack| - 1]) + Nodes(stack[|stack| - 1])
  }

  lemma {:induction false} StackPush(stack: seq<Node>, x: Node)
    ensures StackNodes(stack + [x]) == StackNodes(stack) + Nodes(x)
  {
  }

  method PushChildren(curr: Node, below: seq<Node>) returns (stack: seq<Node>)
    requires curr.Slots?
    ensures StackNodes(stack) == StackNodes(below) + ChildNodes(curr, |curr.slots|)
  {
    stack := below;
    for i := 0 to |curr.slots|
      invariant StackNodes(stack) == StackNodes(below) + ChildNodes(curr, i)
    {
      if curr.slots[i].Some? {
        StackPush(stack, curr.slots[i].value);
        stack := stack + [curr.slots[i].value];
      }
    }
  }

  /** Depth-first with an explicit stack; every node of the tree is visited once. */
  method VisitAllNodes(t: ShallowTree) returns (visited: seq<Node>)
    ensures multiset(visited) == TreeNodes(t)
  {
    visited := [];
    if t.root.None? {
      return;
    }
    var stack := [t.root.value];
    StackPush([], t.root.value);
    while stack != []
      invariant multiset(visited) + StackNodes(stack) == TreeNodes(t)
      decreases |StackNodes(stack)|
    {
      var curr := stack[|stack| - 1];
      var below := stack[..|stack| - 1];
      var above := below;
      if curr.Slots? {
        above := PushChildren(curr, below);
      }
      VisitNext(visited, stack, below, curr, above, TreeNodes(t));
      visited := visited + [curr];
      stack := above;
    }
  }

  /** Visiting the top of the stack and replacing it by its children. */
  lemma {:induction false} VisitNext(visited: seq<Node>, stack: seq<Node>, below: seq<Node>, curr: Node,
      above: seq<Node>, all: multiset<Node>)
    requires stack != [] && below == stack[..|stack| - 1] && curr == stack[|stack| - 1]
    requires StackNodes(above) == StackNodes(below) + if curr.Slots? then ChildNodes(curr, |curr.slots|) else multiset{}
    requires multiset(visited) + StackNodes(stack) == all
    ensures multiset(visited + [curr]) + StackNodes(above) == all
    ensures |StackNodes(above)| < |StackNodes(stack)|
  {
    TopIsVisited(stack, StackNodes(above));
    MoveOne(visited, curr, StackNodes(stack), StackNodes(above));
  }

  lemma {:induction false} TopIsVisited(stack: seq<Node>, above: multiset<Node>)
    requires stack != []
    requires var below, curr := stack[..|stack| - 1], stack[|stack| - 1];
             above == StackNodes(below) + if curr.Slots? then ChildNodes(curr, |curr.slots|) else multiset{}
    ensures StackNodes(stack) == multiset{stack[|stack| - 1]} + above
  {
  }

  lemma MoveOne(visited: seq<Node>, curr: Node, before: multiset<Node>, after: multiset<Node>)
    requires before == multiset{curr} + after
    ensures multiset(visited) + before == multiset(visited + [curr]) + after && |after| < |before|
  {
  }

  /** The node that the byte values of a path lead to. */
  function NodeAt(node: Node, path: seq<nat>): Option<Node>
    decreases |path|
  {
    if path == [] then Some(node)
    else if node.Slots? && path[0] < |node.slots| && node.slots[path[0]].Some? then
      NodeAt(node.slots[path[0]].value, path[1..])
    else None
  }

  lemma {:induction false} ChildIsNode(node: Node, v: nat, k: nat, x: Node)
    requires node.Slots? && v < k <= |node.slots| && node.slots[v].Some? && x in Nodes(node.slots[v].value)
    ensures x in ChildNodes(node, k)
  {
    if v < k - 1 {
      ChildIsNode(node, v, k - 1, x);
    }
  }

  lemma {:induction false} ReachedIsNode(node: Node, path: seq<nat>, x: Node)
    requires NodeAt(node, path) == Some(x)
    ensures x in Nodes(node)
    decreases |path|
  {
    if path != [] {
      ReachedIsNode(node.slots[path[0]].value, path[1..], x);
      ChildIsNode(node, path[0], |node.slots|, x);
    }
  }

  lemma {:induction false} NodeIsReached(node: Node, x: Node) returns (path: seq<nat>)
    requires x in Nodes(node)
    ensures NodeAt(node, path) == Some(x)
    decreases node, if node.Slots? then |node.slots| + 1 else 0
  {
    if x == node {
      path := [];
    } else {
      path := ChildIsReached(node, |node.slots|, x);
    }
  }

  lemma {:induction false} ChildIsReached(node: Node, k: nat, x: Node) returns (path: seq<nat>)
    requires node.Slots? && k <= |node.slots| && x in ChildNodes(node, k)
    ensures NodeAt(node, path) == Some(x)
    decreases node, k
  {
    if node.slots[k - 1].Some? && x in Nodes(node.slots[k - 1].value) {
      var below := NodeIsReached(node.slots[k - 1].value, x);
      path := [k - 1] + below;
      assert path[1..] == below;
    } else {
      path := ChildIsReached(node, k - 1, x);
    }
  }

  /** The visited nodes are exactly those that some path of byte values leads to. */
  lemma {:induction false} NodesAreReached(node: Node, x: Node)
    ensures x in Nodes(node) <==> exists path :: NodeAt(node, path) == Some(x)
  {
    if x in Nodes(node) {
      var path := NodeIsReached(node, x);
    }
    if path :| NodeAt(node, path) == Some(x) {
      ReachedIsNode(node, path, x);
    }
  }

  method CountNodes(t: ShallowTree) returns (count: nat)
    ensures count == |TreeNodes(t)|
  {
    var visited := VisitAllNodes(t);
    count := 0;
    for i := 0 to |visited|
      invariant count == i
    {
      count := count + 1;
    }
    assert |multiset(visited)| == |visited|;
  }

  // ---------------------------------------------------------------- the promises

  /** Two hashes agree on every byte outside the tail. */
  ghost predicate SameOutsideTail(x: seq<byte>, y: seq<byte>, n: nat, tailBits: nat) {
    Agree(x, y, InitialMask(n, tailBits))
  }

  /** That is: on every byte that starts behind the tail bits. */
  lemma {:induction false} SameOutsideTailMeans(x: seq<byte>, y: seq<byte>, n: nat, tailBits: nat)
    requires |x| == |y| == n
    ensures SameOutsideTail(x, y, n, tailBits) <==> forall b :: 0 <= b < n && tailBits <= 8 * b ==> x[b] == y[b]
  {
    var mask := InitialMask(n, tailBits);
    forall b: nat | b < n
      ensures b in mask <==> tailBits <= 8 * b
    {
    }
    if Agree(x, y, mask) {
      forall b: nat | b < n && tailBits <= 8 * b
        ensures x[b] == y[b]
      {
        assert b in mask && At(x, b) == At(y, b);
      }
    }
  }

  /** When there is a tree, and what it remembers of its input. */
  lemma {:induction false} ConstructsExactly(s: seq<Item>, n: nat, tailBits: nat, r: nat)
    ensures var t := TreeOf(s, n, tailBits, r);
            && (t == Err(UnsupportedHashSize) <==> !(1 <= n <= 64))
            && (t == Err(TailExceedsHash) <==> 1 <= n <= 64 && tailBits > 8 * n)
            && (t == Err(DuplicateHashes) <==>
                  && 1 <= n <= 64 && tailBits <= 8 * n
                  && exists i, j :: 0 <= i < j < |s| && SameOutsideTail(s[i].hash, s[j].hash, n, tailBits))
            && (t.Ok? ==>
                  && t.value.hashBytes == n && t.value.tailBits == tailBits && t.value.reassuranceBytes == r
                  && t.value.hashCount == |s| && (t.value.root.None? <==> s == []))
  {
    if 1 <= n <= 64 && HandledBytes(tailBits) <= n {
      ConstructionFailsExactlyOnDuplicates(s, n, tailBits, r);
    }
  }

  /** Targets of another size, and every target in an empty tree, have no match. */
  lemma {:induction false} NothingElseIsFound(s: seq<Item>, n: nat, tailBits: nat, r: nat, h: seq<byte>)
    requires TreeOf(s, n, tailBits, r).Ok? && (|h| != n || s == [])
    ensures Answer(TreeOf(s, n, tailBits, r).value, h) == None
  {
    ConstructsExactly(s, n, tailBits, r);
  }

  /** Construction succeeds exactly on supported sizes and hashes that are pairwise
      distinct outside the tail. */
  lemma ConstructionFailsExactlyOnDuplicates(s: seq<Item>, n: nat, tailBits: nat, r: nat)
    requires 1 <= n <= 64 && HandledBytes(tailBits) <= n
    ensures TreeOf(s, n, tailBits, r) == Err(DuplicateHashes) <==>
            exists i, j :: 0 <= i < j < |s| && SameOutsideTail(s[i].hash, s[j].hash, n, tailBits)
    ensures TreeOf(s, n, tailBits, r).Err? ==> TreeOf(s, n, tailBits, r) == Err(DuplicateHashes)
  {
    DuplicatesDetectedExactly(s, InitialMask(n, tailBits), n, HandledBytes(tailBits), r);
  }

  /** The tree agrees with the map from hash to presentation index, and the tail of
      the target is ignored. */
  lemma TreeAgreesWithMap(s: seq<Item>, n: nat, tailBits: nat, r: nat, x: Item, target: seq<byte>)
    requires TreeOf(s, n, tailBits, r).Ok? && Uniform(s, n) && x in s
    requires |target| == n && SameOutsideTail(x.hash, target, n, tailBits)
    ensures Answer(TreeOf(s, n, tailBits, r).value, target) == Some(x.pi)
  {
    InsertedIsFound(s, InitialMask(n, tailBits), n, HandledBytes(tailBits), r, x, target);
  }

  /** The order in which the hashes are presented does not show in the tree. */
  lemma TreeIgnoresInputOrder(s: seq<Item>, t: seq<Item>, n: nat, tailBits: nat, r: nat)
    requires multiset(s) == multiset(t)
    ensures TreeOf(s, n, tailBits, r) == TreeOf(t, n, tailBits, r)
  {
    OrderIndependence(s, t, InitialMask(n, tailBits), n, HandledBytes(tailBits), r);
    assert |multiset(s)| == |s| && |multiset(t)| == |t|;
  }

  /** `m` hashes make exactly `m` leaves and at most `2m - 1` nodes, and at every node
      depth and unused bytes make up the width of the hash. */
  lemma {:induction false} TreeIsSmall(s: seq<Item>, n: nat, tailBits: nat, r: nat)
    requires s != [] && TreeOf(s, n, tailBits, r).Ok?
    ensures var t := TreeOf(s, n, tailBits, r).value;
            && t.root.Some?
            && Leaves(t.root.value) == |s|
            && |TreeNodes(t)| <= 2 * |s| - 1
            && Balanced(t.root.value, InitialMask(n, tailBits), n)
  {
    RangeSize(HandledBytes(tailBits), n);
    SizeBound(s, InitialMask(n, tailBits), n, HandledBytes(tailBits), r,
              Grow(s, InitialMask(n, tailBits), n, HandledBytes(tailBits), r).value);
  }

  lemma {:induction false} RangeSize(lo: nat, hi: nat)
    requires lo <= hi
    ensures |Range(lo, hi)| == hi - lo
    decreases hi - lo
  {
    if lo < hi {
      RangeSize(lo + 1, hi);
    }
  }

  /** For any number of reassurance bytes: an answer `p` belongs to an inserted hash that
      agrees with the target on all bytes of the path and on the first unused bytes,
      and whenever there is such a hash at the leaf reached, it is the answer. */
  lemma {:induction false} AnswersAreReassured(s: seq<Item>, n: nat, tailBits: nat, r: nat, h: seq<byte>, p: LocalPi)
    requires TreeOf(s, n, tailBits, r).Ok? && |h| == n && s != []
    ensures var t := TreeOf(s, n, tailBits, r).value;
            var all := InitialMask(n, tailBits);
            && t.root.Some?
            && var m := LeafMask(t.root.value, all, h);
            (Answer(t, h) == Some(p) <==>
              m.Some? && exists x :: x in s && x.pi == p && Accepts(x, h, all, m.value, n, r))
  {
    LookupExact(s, InitialMask(n, tailBits), n, HandledBytes(tailBits), r, h, p);
  }

  /** With enough reassurance bytes the tree is exactly the map outside the tail. */
  lemma EnoughReassuranceMakesAnswersExact(s: seq<Item>, n: nat, tailBits: nat, r: nat, h: seq<byte>, p: LocalPi)
    requires TreeOf(s, n, tailBits, r).Ok? && |h| == n && r >= n - HandledBytes(tailBits)
    ensures Answer(TreeOf(s, n, tailBits, r).value, h) == Some(p) <==>
            exists x :: x in s && x.pi == p && SameOutsideTail(x.hash, h, n, tailBits)
  {
    RangeSize(HandledBytes(tailBits), n);
    if s != [] {
      FullReassuranceIsTheMap(s, InitialMask(n, tailBits), n, HandledBytes(tailBits), r, h, p);
    }
  }
}
