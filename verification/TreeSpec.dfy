/** What the shallow tree of a collection is, what looking a hash up in it means,
    and how many nodes it has. The imperative builder is proved against `Build`. */
module TreeSpec {
  import opened Wrappers
  import opened Bytes
  import opened Buckets

  datatype Node =
    | Leaf(depth: nat, reassurance: seq<byte>, pi: LocalPi)
    | Slots(depth: nat, byteIndex: nat, slots: seq<Option<Node>>)

  datatype TreeError = DuplicateHashes | UnsupportedHashSize | TailExceedsHash

  // ---------------------------------------------------------------- choice of byte

  /** Sum of the squared sizes of the buckets of the byte values below `v`. */
  function SumSquares(s: seq<Item>, b: nat, v: nat): nat {
    if v == 0 then 0
    else SumSquares(s, b, v - 1) + |Bucket(s, b, v - 1)| * |Bucket(s, b, v - 1)|
  }

  /** The lower, the more evenly byte `b` splits the span. */
  function Score(s: seq<Item>, b: nat): nat {
    SumSquares(s, b, 256)
  }

  /** The first unused byte below `k` that has the least score. */
  function Best(s: seq<Item>, unused: set<nat>, k: nat): (r: Option<nat>)
    ensures r.None? <==> forall b: nat | b < k :: b !in unused
    ensures r.Some? ==>
              && r.value in unused && r.value < k
              && (forall b: nat | b < k && b in unused :: Score(s, r.value) <= Score(s, b))
              && (forall b: nat | b < r.value && b in unused :: Score(s, r.value) < Score(s, b))
  {
    if k == 0 then None
    else
      var p := Best(s, unused, k - 1);
      if k - 1 in unused && (p.None? || Score(s, k - 1) < Score(s, p.value)) then Some(k - 1)
      else p
  }

  // ---------------------------------------------------------------- building

  /** The mask of a hash of `n` bytes; its one bits as a set of byte indexes. */
  predicate InRange(unused: set<nat>, n: nat) {
    forall b :: b in unused ==> b < n
  }

  /** The bytes of `h` below `k` that the mask still holds, lowest index first. */
  function Unused(h: seq<byte>, unused: set<nat>, k: nat): seq<byte> {
    if k == 0 then []
    else Unused(h, unused, k - 1) + if k - 1 in unused then [At(h, k - 1)] else []
  }

  /** Cut or zero-filled to exactly `r` bytes. */
  function Pad(u: seq<byte>, r: nat): (p: seq<byte>)
    ensures |p| == r
    ensures forall i :: 0 <= i < r ==> p[i] == if i < |u| then u[i] else 0
  {
    seq(r, i requires 0 <= i < r => if i < |u| then u[i] else 0)
  }

  function MakeLeaf(x: Item, unused: set<nat>, n: nat, depth: nat, r: nat): Node {
    Leaf(depth, Pad(Unused(x.hash, unused, n), r), x.pi)
  }

  /** The subtree of a bucket: nothing, a leaf, or a node that branches. */
  function Grow(s: seq<Item>, unused: set<nat>, n: nat, depth: nat, r: nat): Result<Option<Node>, TreeError>
    requires InRange(unused, n)
    decreases |unused|, 1
  {
    if |s| == 0 then Ok(None)
    else if |s| == 1 then Ok(Some(MakeLeaf(s[0], unused, n, depth, r)))
    else
      match Build(s, unused, n, depth, r)
      case Ok(node) => Ok(Some(node))
      case Err(e) => Err(e)
  }

  /** A node on the byte with the least score, above the subtrees of its buckets. */
  function Build(s: seq<Item>, unused: set<nat>, n: nat, depth: nat, r: nat): Result<Node, TreeError>
    requires InRange(unused, n)
    decreases |unused|, 0
  {
    if unused == {} then Err(DuplicateHashes)
    else
      var b := ChosenByte(s, unused, n);
      var rest := unused - {b};
      if forall v: nat | v < 256 :: Grow(Bucket(s, b, v), rest, n, depth + 1, r).Ok? then
        Ok(Slots(depth, b, seq(256, v requires 0 <= v < 256 => Grow(Bucket(s, b, v), rest, n, depth + 1, r).value)))
      else
        Err(DuplicateHashes)
  }

  function ChosenByte(s: seq<Item>, unused: set<nat>, n: nat): (b: nat)
    requires InRange(unused, n) && unused != {}
    ensures b in unused && b < n
    ensures forall c | c in unused :: Score(s, b) <= Score(s, c)
  {
    assert exists b :: b in unused && b < n;
    Best(s, unused, n).value
  }

  // ---------------------------------------------------------------- looking up

  /** Position by position, as far as both reach. */
  predicate Matches(u: seq<byte>, reassurance: seq<byte>) {
    forall i :: 0 <= i < |u| && i < |reassurance| ==> u[i] == reassurance[i]
  }

  function Find(node: Node, unused: set<nat>, h: seq<byte>): Option<LocalPi> {
    match node
    case Leaf(_, reassurance, pi) =>
      if Matches(Unused(h, unused, |h|), reassurance) then Some(pi) else None
    case Slots(_, b, slots) =>
      var v := At(h, b);
      if v < |slots| && slots[v].Some? then Find(slots[v].value, unused - {b}, h) else None
  }

  /** The mask left at the leaf that a lookup of `h` reaches, if it reaches one. */
  function LeafMask(node: Node, unused: set<nat>, h: seq<byte>): Option<set<nat>> {
    match node
    case Leaf(_, _, _) => Some(unused)
    case Slots(_, b, slots) =>
      var v := At(h, b);
      if v < |slots| && slots[v].Some? then LeafMask(slots[v].value, unused - {b}, h) else None
  }

  // ---------------------------------------------------------------- visiting

  /** Every node of the tree, each as often as it occurs. */
  function Nodes(node: Node): (m: multiset<Node>)
    ensures |m| >= 1
    decreases node, if node.Slots? then |node.slots| + 1 else 0
  {
    multiset{node} + if node.Slots? then ChildNodes(node, |node.slots|) else multiset{}
  }

  /** Every node below the first `k` slots. */
  function ChildNodes(node: Node, k: nat): multiset<Node>
    requires node.Slots? && k <= |node.slots|
    decreases node, k
  {
    if k == 0 then multiset{}
    else
      ChildNodes(node, k - 1)
      + if node.slots[k - 1].Some? then Nodes(node.slots[k - 1].value) else multiset{}
  }

  function Leaves(node: Node): nat
    decreases node, if node.Slots? then |node.slots| + 1 else 0
  {
    if node.Leaf? then 1 else ChildLeaves(node, |node.slots|)
  }

  function ChildLeaves(node: Node, k: nat): nat
    requires node.Slots? && k <= |node.slots|
    decreases node, k
  {
    if k == 0 then 0
    else ChildLeaves(node, k - 1) + if node.slots[k - 1].Some? then Leaves(node.slots[k - 1].value) else 0
  }

  /** At every node the depth and the unused bytes make up the hash, and every
      slots node branches on an unused byte to at least two children. */
  predicate Balanced(node: Node, unused: set<nat>, n: nat) {
    && node.depth + |unused| == n
    && (node.Slots? ==>
          && node.byteIndex in unused
          && |node.slots| == 256
          && (exists v, w :: 0 <= v < w < 256 && node.slots[v].Some? && node.slots[w].Some?)
          && forall v | 0 <= v < 256 && node.slots[v].Some? ::
               Balanced(node.slots[v].value, unused - {node.byteIndex}, n))
  }
}
