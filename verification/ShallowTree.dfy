/** The tree as it is built in place, looked up and visited
    (`include/wedding_cake/shallow_tree.hpp`), proved against `TreeSpec`. */
module ShallowTrees {
  import opened Wrappers
  import opened Bytes
  import opened Buckets
  import opened TreeSpec

  datatype ShallowTree = ShallowTree(
    hashBytes: nat, tailBits: nat, reassuranceBytes: nat, hashCount: nat, root: Option<Node>)

  /** Whole bytes touched by the tail bits. */
  function HandledBytes(tailBits: nat): nat {
    (tailBits + 7) / 8
  }

  function InitialMask(n: nat, tailBits: nat): (m: set<nat>)
    ensures InRange(m, n)
  {
    Range(HandledBytes(tailBits), n)
  }

  function Range(lo: nat, hi: nat): (m: set<nat>)
    ensures forall b :: b in m <==> lo <= b < hi
    decreases hi - lo
  {
    if lo >= hi then {} else {lo} + Range(lo + 1, hi)
  }

  /** The tree of a collection, or why there is none. */
  function TreeOf(s: seq<Item>, n: nat, tailBits: nat, r: nat): Result<ShallowTree, TreeError> {
    if n < 1 || n > 64 then Err(UnsupportedHashSize)
    else if HandledBytes(tailBits) > n then Err(TailExceedsHash)
    else
      match Grow(s, InitialMask(n, tailBits), n, HandledBytes(tailBits), r)
      case Ok(root) => Ok(ShallowTree(n, tailBits, r, |s|, root))
      case Err(e) => Err(e)
  }

  /** The answer of a tree to a target hash; `None` is the no-match sentinel. */
  function Answer(t: ShallowTree, h: seq<byte>): Option<LocalPi> {
    if |h| != t.hashBytes || t.root.None? then None
    else Find(t.root.value, InitialMask(t.hashBytes, t.tailBits), h)
  }

  function TreeNodes(t: ShallowTree): multiset<Node> {
    if t.root.None? then multiset{} else Nodes(t.root.value)
  }

  // ---------------------------------------------------------------- the partition

  /** The buffer holds `bucket` at offset `o`. */
  ghost predicate Holds(sc: seq<Item>, o: nat, bucket: seq<Item>) {
    o + |bucket| <= |sc| && sc[o..o + |bucket|] == bucket
  }

  /** Every bucket of `s[..k]` sits in the buffer at the start of its range. */
  ghost predicate Placed(sc: seq<Item>, s: seq<Item>, k: nat, b: nat)
    requires k <= |s|
  {
    forall v: nat | v < 256 :: Holds(sc, Offset(s, b, v), Bucket(s[..k], b, v))
  }

  lemma HoldsElsewhere(sc: seq<Item>, o: nat, bucket: seq<Item>, i: nat, x: Item)
    requires Holds(sc, o, bucket) && i < |sc| && (i < o || i >= o + |bucket|)
    ensures Holds(sc[i := x], o, bucket)
  {
  }

  lemma HoldsNext(sc: seq<Item>, o: nat, bucket: seq<Item>, x: Item)
    requires Holds(sc, o, bucket) && o + |bucket| < |sc|
    ensures Holds(sc[o + |bucket| := x], o, bucket + [x])
  {
  }

  /** Where the next item goes: right after its bucket so far, within its range. */
  lemma {:induction false} NextPlace(s: seq<Item>, k: nat, b: nat, v: nat)
    requires k < |s| && v == At(s[k].hash, b)
    ensures Offset(s, b, v) + |Bucket(s[..k], b, v)| < |s|
    ensures forall w: nat | w < 256 && w != v ::
              var i := Offset(s, b, v) + |Bucket(s[..k], b, v)|;
              i < Offset(s, b, w) || i >= Offset(s, b, w) + |Bucket(s[..k], b, w)|
  {
    assert s[..k + 1] == s[..k] + [s[k]];
    BucketPush(s[..k], s[k], b, v);
    BucketMono(s, k + 1, b, v);
    OffsetTotal(s, b);
    OffsetMono(s, b, v, 256);
    forall w: nat | w < 256 && w != v
      ensures var i := Offset(s, b, v) + |Bucket(s[..k], b, v)|;
              i < Offset(s, b, w) || i >= Offset(s, b, w) + |Bucket(s[..k], b, w)|
    {
      BucketMono(s, k, b, w);
      if w < v {
        OffsetMono(s, b, w, v);
      } else {
        OffsetMono(s, b, v, w);
      }
    }
  }

  lemma {:induction false} PlaceNext(sc: seq<Item>, s: seq<Item>, k: nat, b: nat, v: nat, i: nat)
    requires k < |s| <= |sc| && Placed(sc, s, k, b)
    requires v == At(s[k].hash, b) && i == Offset(s, b, v) + |Bucket(s[..k], b, v)|
    ensures i < |s| && Placed(sc[i := s[k]], s, k + 1, b)
  {
    NextPlace(s, k, b, v);
    assert s[..k + 1] == s[..k] + [s[k]];
    forall w: nat | w < 256
      ensures Holds(sc[i := s[k]], Offset(s, b, w), Bucket(s[..k + 1], b, w))
    {
      BucketPush(s[..k], s[k], b, w);
      assert Holds(sc, Offset(s, b, w), Bucket(s[..k], b, w));
      if w == v {
        HoldsNext(sc, Offset(s, b, w), Bucket(s[..k], b, w), s[k]);
      } else {
        HoldsElsewhere(sc, Offset(s, b, w), Bucket(s[..k], b, w), i, s[k]);
        assert Bucket(s[..k + 1], b, w) == Bucket(s[..k], b, w);
      }
    }
  }

  lemma {:induction false} PlacedAll(sc: seq<Item>, s: seq<Item>, b: nat, v: nat)
    requires |s| <= |sc| && v <= 256
    requires forall w: nat | w < 256 :: Holds(sc, Offset(s, b, w), Bucket(s, b, w))
    ensures Offset(s, b, v) <= |s| && sc[Offset(s, b, v)..|s|] == BucketsFrom(s, b, v)
    decreases 256 - v
  {
    if v == 256 {
      OffsetTotal(s, b);
    } else {
      PlacedAll(sc, s, b, v + 1);
      assert Holds(sc, Offset(s, b, v), Bucket(s, b, v));
      PlacedFrom(sc, s, b, v, Offset(s, b, v), Offset(s, b, v + 1));
    }
  }

  lemma {:induction false} PlacedFrom(sc: seq<Item>, s: seq<Item>, b: nat, v: nat, o: nat, e: nat)
    requires v < 256 && o == Offset(s, b, v) && e == Offset(s, b, v + 1) <= |s| <= |sc|
    requires Holds(sc, o, Bucket(s, b, v)) && sc[e..|s|] == BucketsFrom(s, b, v + 1)
    ensures o <= |s| && sc[o..|s|] == BucketsFrom(s, b, v)
  {
    JoinSlices(sc, o, e, |s|);
  }

  lemma JoinSlices(sc: seq<Item>, o: nat, e: nat, m: nat)
    requires o <= e <= m <= |sc|
    ensures sc[o..m] == sc[o..e] + sc[e..m]
  {
  }

  /** The running offsets after `k` items. */
  ghost predicate Running(running: seq<nat>, s: seq<Item>, k: nat, b: nat)
    requires k <= |s|
  {
    && |running| == 256
    && forall v: nat | v < 256 :: running[v] == Offset(s, b, v) + |Bucket(s[..k], b, v)|
  }

  lemma ScatterStep(sc: seq<Item>, running: seq<nat>, s: seq<Item>, k: nat, b: nat, v: nat)
    requires k < |s| <= |sc| && Placed(sc, s, k, b) && Running(running, s, k, b)
    requires v == At(s[k].hash, b)
    ensures running[v] < |s|
    ensures Placed(sc[running[v] := s[k]], s, k + 1, b)
    ensures Running(running[v := running[v] + 1], s, k + 1, b)
  {
    PlaceNext(sc, s, k, b, v, running[v]);
    forall w: nat | w < 256
      ensures running[v := running[v] + 1][w] == Offset(s, b, w) + |Bucket(s[..k + 1], b, w)|
    {
      CountPush(s, k, b, w);
    }
  }

  lemma {:induction false} CountPush(s: seq<Item>, k: nat, b: nat, v: nat)
    requires k < |s|
    ensures |Bucket(s[..k + 1], b, v)| == |Bucket(s[..k], b, v)| + if At(s[k].hash, b) == v then 1 else 0
  {
    assert s[..k + 1] == s[..k] + [s[k]];
    BucketPush(s[..k], s[k], b, v);
  }

  /** Counts the values of byte `b` in a span. */
  method CountByte(a: array<Item>, lo: nat, hi: nat, n: nat, b: nat) returns (counts: seq<nat>)
    requires lo <= hi <= a.Length && Uniform(a[lo..hi], n) && b < n
    ensures |counts| == 256 && forall v :: 0 <= v < 256 ==> counts[v] == |Bucket(a[lo..hi], b, v)|
  {
    ghost var s := a[lo..hi];
    counts := seq(256, _ => 0);
    for i := lo to hi
      invariant |counts| == 256
      invariant forall v :: 0 <= v < 256 ==> counts[v] == |Bucket(s[..i - lo], b, v)|
    {
      assert a[i] == s[i - lo];
      var v := a[i].hash[b];
      ghost var before := counts;
      counts := counts[v := counts[v] + 1];
      forall w | 0 <= w < 256
        ensures counts[w] == |Bucket(s[..i + 1 - lo], b, w)|
      {
        assert before[w] == |Bucket(s[..i - lo], b, w)|;
        CountPush(s, i - lo, b, w);
      }
    }
    assert s[..hi - lo] == s;
  }

  /** Running sums of the counts. */
  method BucketOffsets(counts: seq<nat>, ghost s: seq<Item>, ghost b: nat) returns (offsets: seq<nat>)
    requires |counts| == 256 && forall v :: 0 <= v < 256 ==> counts[v] == |Bucket(s, b, v)|
    ensures |offsets| == 256 && forall v :: 0 <= v < 256 ==> offsets[v] == Offset(s, b, v)
  {
    offsets := seq(256, _ => 0);
    for i := 1 to 256
      invariant |offsets| == 256
      invariant forall v :: 0 <= v < i ==> offsets[v] == Offset(s, b, v)
    {
      offsets := offsets[i := offsets[i - 1] + counts[i - 1]];
    }
  }

  /** Copies every item to the running offset of its bucket. */
  method Scatter(a: array<Item>, lo: nat, hi: nat, n: nat, b: nat, offsets: seq<nat>, scratch: array<Item>)
    requires a != scratch && lo <= hi <= a.Length && hi - lo <= scratch.Length
    requires Uniform(a[lo..hi], n) && b < n
    requires |offsets| == 256 && forall v :: 0 <= v < 256 ==> offsets[v] == Offset(a[lo..hi], b, v)
    modifies scratch
    ensures Placed(scratch[..], a[lo..hi], hi - lo, b)
    ensures scratch[hi - lo..] == old(scratch[hi - lo..])
  {
    ghost var s := a[lo..hi];
    var running := offsets;
    NothingPlaced(scratch[..], running, s, b);
    for i := lo to hi
      invariant a[lo..hi] == s && scratch[hi - lo..] == old(scratch[hi - lo..])
      invariant Running(running, s, i - lo, b) && Placed(scratch[..], s, i - lo, b)
    {
      running := PlaceOne(a[i], a[i].hash[b], running, scratch, s, i - lo, b);
    }
  }

  /** One item to the running offset of its bucket. */
  method PlaceOne(x: Item, v: nat, running: seq<nat>, scratch: array<Item>, ghost s: seq<Item>, ghost k: nat,
      ghost b: nat) returns (next: seq<nat>)
    requires k < |s| <= scratch.Length && x == s[k] && v == At(x.hash, b)
    requires Placed(scratch[..], s, k, b) && Running(running, s, k, b)
    modifies scratch
    ensures Placed(scratch[..], s, k + 1, b) && Running(next, s, k + 1, b)
    ensures scratch[|s|..] == old(scratch[|s|..])
  {
    ghost var before := scratch[..];
    ScatterStep(before, running, s, k, b, v);
    scratch[running[v]] := x;
    assert scratch[..] == before[running[v] := x];
    TailKept(before, running[v], x, |s|);
    next := running[v := running[v] + 1];
  }

  lemma {:induction false} NothingPlaced(sc: seq<Item>, running: seq<nat>, s: seq<Item>, b: nat)
    requires |s| <= |sc| && |running| == 256 && forall v :: 0 <= v < 256 ==> running[v] == Offset(s, b, v)
    ensures Running(running, s, 0, b) && Placed(sc, s, 0, b)
  {
    PlacedNone(sc, s, b);
    assert s[..0] == [];
  }

  lemma TailKept(sc: seq<Item>, i: nat, x: Item, m: nat)
    requires i < m <= |sc|
    ensures sc[i := x][m..] == sc[m..]
  {
  }

  lemma PlacedNone(sc: seq<Item>, s: seq<Item>, b: nat)
    requires |s| <= |sc|
    ensures Placed(sc, s, 0, b)
  {
    forall v: nat | v < 256
      ensures Holds(sc, Offset(s, b, v), Bucket(s[..0], b, v))
    {
      OffsetTotal(s, b);
      OffsetMono(s, b, v, 256);
    }
  }

  /** A stable counting sort by byte `b`: afterwards the span holds the buckets of
      0, 1, ..., 255, each in the old order, whatever the scratch buffer held. */
  method BucketPartitionByByte(a: array<Item>, lo: nat, hi: nat, n: nat, b: nat, scratch: array<Item>)
    returns (counts: seq<nat>)
    requires a != scratch && lo <= hi <= a.Length && hi - lo <= scratch.Length
    requires Uniform(a[lo..hi], n) && b < n
    modifies a, scratch
    ensures |counts| == 256 && forall v :: 0 <= v < 256 ==> counts[v] == |Bucket(old(a[lo..hi]), b, v)|
    ensures a[lo..hi] == BucketsFrom(old(a[lo..hi]), b, 0)
    ensures a[..lo] == old(a[..lo]) && a[hi..] == old(a[hi..])
    ensures scratch[hi - lo..] == old(scratch[hi - lo..])
  {
    ghost var s := a[lo..hi];
    counts := CountByte(a, lo, hi, n, b);
    var offsets := BucketOffsets(counts, s, b);
    Scatter(a, lo, hi, n, b, offsets, scratch);
    assert s[..hi - lo] == s;
    PlacedAll(scratch[..], s, b, 0);
    CopyBack(a, lo, hi, scratch);
    assert scratch[..hi - lo] == scratch[..][0..hi - lo];
  }

  method CopyBack(a: array<Item>, lo: nat, hi: nat, scratch: array<Item>)
    requires a != scratch && lo <= hi <= a.Length && hi - lo <= scratch.Length
    modifies a
    ensures a[lo..hi] == scratch[..hi - lo]
    ensures a[..lo] == old(a[..lo]) && a[hi..] == old(a[hi..])
  {
    forall i | 0 <= i < hi - lo {
      a[lo + i] := scratch[i];
    }
  }

  // ---------------------------------------------------------------- building

  lemma {:induction false} UnusedPrefix(h: seq<byte>, unused: set<nat>, k: nat, n: nat)
    requires k <= n
    ensures Unused(h, unused, k) <= Unused(h, unused, n)
  {
    if k < n {
      UnusedPrefix(h, unused, k, n - 1);
    }
  }

  method MakeLeafNode(x: Item, unused: set<nat>, n: nat, depth: nat, r: nat) returns (node: Node)
    requires |x.hash| == n && r >= 1
    ensures node == MakeLeaf(x, unused, n, depth, r)
  {
    var reassurance: seq<byte> := seq(r, _ => 0);
    var index := 0;
    ghost var seen := 0;
    for b := 0 to n
      invariant index == |Unused(x.hash, unused, b)| < r && |reassurance| == r
      invariant reassurance == Pad(Unused(x.hash, unused, b), r)
      invariant seen == b
    {
      seen := b + 1;
      if b !in unused {
        continue;
      }
      reassurance := reassurance[index := x.hash[b]];
      index := index + 1;
      if index >= r {
        break;
      }
    }
    UnusedPrefix(x.hash, unused, seen, n);
    while index < r
      invariant index <= r && |reassurance| == r
      invariant reassurance == Pad(Unused(x.hash, unused, n), r)
      invariant index >= r || index >= |Unused(x.hash, unused, n)|
    {
      reassurance := reassurance[index := 0];
      index := index + 1;
    }
    node := Leaf(depth, reassurance, x.pi);
  }

  /** The integer under the sign that the source turns into a double. */
  method CalculateByteScore(a: array<Item>, lo: nat, hi: nat, n: nat, b: nat) returns (sumSquares: nat)
    requires lo <= hi <= a.Length && Uniform(a[lo..hi], n) && b < n
    ensures sumSquares == Score(a[lo..hi], b)
  {
    var counts := CountByte(a, lo, hi, n, b);
    sumSquares := 0;
    for v := 0 to 256
      invariant sumSquares == SumSquares(a[lo..hi], b, v)
    {
      sumSquares := sumSquares + counts[v] * counts[v];
    }
  }

  /** The best byte below `k` and its score. */
  ghost predicate BestSoFar(s: seq<Item>, unused: set<nat>, k: nat, best: nat, least: Option<nat>) {
    var p := Best(s, unused, k);
    if p.None? then least.None? else p.value == best && least == Some(Score(s, best))
  }

  lemma {:induction false} BestNext(s: seq<Item>, unused: set<nat>, k: nat, best: nat, least: Option<nat>)
    requires BestSoFar(s, unused, k, best, least)
    ensures if k in unused && (least.None? || Score(s, k) < least.value)
            then BestSoFar(s, unused, k + 1, k, Some(Score(s, k)))
            else BestSoFar(s, unused, k + 1, best, least)
  {
  }

  method ChooseByte(a: array<Item>, lo: nat, hi: nat, n: nat, unused: set<nat>) returns (best: nat)
    requires lo <= hi <= a.Length && Uniform(a[lo..hi], n) && InRange(unused, n) && unused != {}
    ensures best == ChosenByte(a[lo..hi], unused, n)
  {
    ghost var s := a[lo..hi];
    var least: Option<nat> := None;
    best := 0;
    for b := 0 to n
      invariant a[lo..hi] == s && BestSoFar(s, unused, b, best, least)
    {
      BestNext(s, unused, b, best, least);
      if b in unused {
        var score := CalculateByteScore(a, lo, hi, n, b);
        if least.None? || score < least.value {
          least := Some(score);
          best := b;
        }
      }
    }
  }

  /** The subtree of one bucket, which occupies the span `lo..hi`. */
  method GenerateSlot(
    a: array<Item>, lo: nat, hi: nat, n: nat, unused: set<nat>, depth: nat, r: nat, scratch: array<Item>)
    returns (res: Result<Option<Node>, TreeError>)
    requires a != scratch && lo <= hi <= a.Length && hi - lo <= scratch.Length
    requires Uniform(a[lo..hi], n) && InRange(unused, n) && r >= 1
    modifies a, scratch
    ensures res == Grow(old(a[lo..hi]), unused, n, depth, r)
    ensures multiset(a[lo..hi]) == multiset(old(a[lo..hi]))
    ensures a[..lo] == old(a[..lo]) && a[hi..] == old(a[hi..])
    decreases |unused|, 1
  {
    var count := hi - lo;
    if count == 0 {
      res := Ok(None);
    } else if count == 1 {
      assert a[lo] == a[lo..hi][0];
      var leaf := MakeLeafNode(a[lo], unused, n, depth, r);
      res := Ok(Some(leaf));
    } else {
      var sub := RecurseGenerateNode(a, lo, hi, n, unused, depth, r, scratch);
      res := if sub.Ok? then Ok(Some(sub.value)) else Err(sub.error);
    }
  }

  /** Partitions the span by its best byte and generates one slot per bucket. */
  method RecurseGenerateNode(
    a: array<Item>, lo: nat, hi: nat, n: nat, unused: set<nat>, depth: nat, r: nat, scratch: array<Item>)
    returns (res: Result<Node, TreeError>)
    requires a != scratch && lo + 2 <= hi <= a.Length && hi - lo <= scratch.Length
    requires Uniform(a[lo..hi], n) && InRange(unused, n) && r >= 1
    modifies a, scratch
    ensures res == Build(old(a[lo..hi]), unused, n, depth, r)
    ensures multiset(a[lo..hi]) == multiset(old(a[lo..hi]))
    ensures a[..lo] == old(a[..lo]) && a[hi..] == old(a[hi..])
    decreases |unused|, 0
  {
    if unused == {} {
      return Err(DuplicateHashes);
    }
    ghost var s := a[lo..hi];
    var b := ChooseByte(a, lo, hi, n, unused);
    var rest := unused - {b};
    var counts := BucketPartitionByByte(a, lo, hi, n, b, scratch);
    PartitionPermutes(s, b);
    var slots := FillSlots(a, lo, hi, n, rest, depth, r, scratch, counts, s, b);
    BuildFromSlots(s, unused, n, depth, r, slots);
    if slots.Err? {
      return Err(slots.error);
    }
    res := Ok(Slots(depth, b, slots.value));
  }

  /** Walks the partitioned span bucket by bucket. */
  method FillSlots(
    a: array<Item>, lo: nat, hi: nat, n: nat, rest: set<nat>, depth: nat, r: nat, scratch: array<Item>,
    counts: seq<nat>, ghost s: seq<Item>, ghost b: nat)
    returns (res: Result<seq<Option<Node>>, TreeError>)
    requires a != scratch && lo <= hi <= a.Length && hi - lo <= scratch.Length
    requires Uniform(s, n) && InRange(rest, n) && r >= 1 && |s| == hi - lo
    requires |counts| == 256 && forall v :: 0 <= v < 256 ==> counts[v] == |Bucket(s, b, v)|
    requires a[lo..hi] == BucketsFrom(s, b, 0)
    modifies a, scratch
    ensures IsSlotsOf(res, s, b, rest, n, depth, r)
    ensures multiset(a[lo..hi]) == multiset(old(a[lo..hi]))
    ensures a[..lo] == old(a[..lo]) && a[hi..] == old(a[hi..])
    decreases |rest|, 3
  {
    var slots: seq<Option<Node>> := seq(256, _ => None);
    var start := lo;
    for v := 0 to 256
      invariant start == lo + Offset(s, b, v) <= hi && |slots| == 256
      invariant a[start..hi] == BucketsFrom(s, b, v)
      invariant Filled(slots, s, b, v, rest, n, depth, r)
      invariant multiset(a[lo..hi]) == multiset(old(a[lo..hi]))
      invariant a[..lo] == old(a[..lo]) && a[hi..] == old(a[hi..])
    {
      var end := start + counts[v];
      var slot := FillSlot(a, lo, start, end, hi, n, rest, depth, r, scratch, s, b, v);
      if slot.Err? {
        FailsAt(s, b, v, rest, n, depth, r);
        return Err(slot.error);
      }
      FillNext(slots, s, b, v, rest, n, depth, r, slot.value);
      slots := slots[v := slot.value];
      start := end;
    }
    res := Ok(slots);
  }

  /** One bucket, at the front of what is left of the span. */
  method FillSlot(
    a: array<Item>, lo: nat, start: nat, end: nat, hi: nat, n: nat, rest: set<nat>, depth: nat, r: nat,
    scratch: array<Item>, ghost s: seq<Item>, ghost b: nat, ghost v: nat)
    returns (slot: Result<Option<Node>, TreeError>)
    requires a != scratch && lo <= start <= hi <= a.Length && hi - lo <= scratch.Length
    requires Uniform(s, n) && InRange(rest, n) && r >= 1 && v < 256
    requires a[start..hi] == BucketsFrom(s, b, v) && end == start + |Bucket(s, b, v)|
    modifies a, scratch
    ensures end <= hi && a[end..hi] == BucketsFrom(s, b, v + 1)
    ensures slot == Grow(Bucket(s, b, v), rest, n, depth + 1, r)
    ensures multiset(a[lo..hi]) == multiset(old(a[lo..hi]))
    ensures a[..lo] == old(a[..lo]) && a[hi..] == old(a[hi..])
    decreases |rest|, 2
  {
    BucketUniform(s, b, v, n);
    SplitSpan(a[..], start, hi, s, b, v);
    ghost var before := a[..];
    assert a[start..end] == Bucket(s, b, v);
    slot := GenerateSlot(a, start, end, n, rest, depth + 1, r, scratch);
    FrameOfSubspan(before, a[..], lo, start, end, hi);
  }

  /** What filling the slots yields: all subtrees, or the failure of one of them. */
  ghost predicate IsSlotsOf(
    res: Result<seq<Option<Node>>, TreeError>, s: seq<Item>, b: nat, rest: set<nat>, n: nat, depth: nat, r: nat)
    requires InRange(rest, n)
  {
    match res
    case Ok(slots) => |slots| == 256 && Filled(slots, s, b, 256, rest, n, depth, r)
    case Err(e) => e == DuplicateHashes && exists v: nat :: v < 256 && Grow(Bucket(s, b, v), rest, n, depth + 1, r).Err?
  }

  lemma {:induction false} BuildFromSlots(
    s: seq<Item>, unused: set<nat>, n: nat, depth: nat, r: nat, res: Result<seq<Option<Node>>, TreeError>)
    requires InRange(unused, n) && unused != {}
    requires IsSlotsOf(res, s, ChosenByte(s, unused, n), unused - {ChosenByte(s, unused, n)}, n, depth, r)
    ensures Build(s, unused, n, depth, r) ==
            match res
            case Ok(slots) => Ok(Slots(depth, ChosenByte(s, unused, n), slots))
            case Err(e) => Err(e)
  {
    if res.Ok? {
      assert res.value == Build(s, unused, n, depth, r).value.slots;
    }
  }

  lemma {:induction false} FailsAt(s: seq<Item>, b: nat, v: nat, rest: set<nat>, n: nat, depth: nat, r: nat)
    requires v < 256 && InRange(rest, n) && Grow(Bucket(s, b, v), rest, n, depth + 1, r).Err?
    ensures IsSlotsOf(Err(Grow(Bucket(s, b, v), rest, n, depth + 1, r).error), s, b, rest, n, depth, r)
  {
  }

  lemma {:induction false} FillNext(
    slots: seq<Option<Node>>, s: seq<Item>, b: nat, v: nat, rest: set<nat>, n: nat, depth: nat, r: nat,
    x: Option<Node>)
    requires v < |slots| && InRange(rest, n) && Filled(slots, s, b, v, rest, n, depth, r)
    requires Grow(Bucket(s, b, v), rest, n, depth + 1, r) == Ok(x)
    ensures Filled(slots[v := x], s, b, v + 1, rest, n, depth, r)
  {
  }

  /** The first `k` slots are the subtrees of the first `k` buckets. */
  ghost predicate Filled(
    slots: seq<Option<Node>>, s: seq<Item>, b: nat, k: nat, rest: set<nat>, n: nat, depth: nat, r: nat)
    requires k <= |slots| && InRange(rest, n)
  {
    forall v: nat | v < k :: Grow(Bucket(s, b, v), rest, n, depth + 1, r) == Ok(slots[v])
  }

  lemma {:induction false} SplitSpan(a: seq<Item>, start: nat, hi: nat, s: seq<Item>, b: nat, v: nat)
    requires start <= hi <= |a| && v < 256 && a[start..hi] == BucketsFrom(s, b, v)
    ensures var end := start + |Bucket(s, b, v)|;
            end <= hi && a[start..end] == Bucket(s, b, v) && a[end..hi] == BucketsFrom(s, b, v + 1)
  {
    var c := |Bucket(s, b, v)|;
    assert a[start..hi][..c] == a[start..start + c] && a[start..hi][c..] == a[start + c..hi];
  }

  /** Permuting a sub-span permutes the span and leaves everything else alone. */
  lemma FrameOfSubspan(before: seq<Item>, after: seq<Item>, lo: nat, i: nat, j: nat, hi: nat)
    requires lo <= i <= j <= hi <= |before| == |after|
    requires after[..i] == before[..i] && after[j..] == before[j..]
    requires multiset(after[i..j]) == multiset(before[i..j])
    ensures after[..lo] == before[..lo] && after[hi..] == before[hi..] && after[j..hi] == before[j..hi]
    ensures multiset(after[lo..hi]) == multiset(before[lo..hi])
  {
    assert after[..lo] == after[..i][..lo] && before[..lo] == before[..i][..lo];
    assert after[hi..] == after[j..][hi - j..] && before[hi..] == before[j..][hi - j..];
    assert after[j..hi] == after[j..][..hi - j] && before[j..hi] == before[j..][..hi - j];
    assert after[lo..i] == after[..i][lo..] && before[lo..i] == before[..i][lo..];
    assert after[lo..hi] == after[lo..i] + after[i..j] + after[j..hi];
    assert before[lo..hi] == before[lo..i] + before[i..j] + before[j..hi];
  }

  /** A leaf needs a reassurance byte to write to; without leaves there need not be one. */
  method Construct(input: array<Item>, n: nat, tailBits: nat, r: nat) returns (res: Result<ShallowTree, TreeError>)
    requires Uniform(input[..], n)
    requires input.Length > 0 && 1 <= n <= 64 && HandledBytes(tailBits) <= n ==> r >= 1
    modifies input
    ensures res == TreeOf(old(input[..]), n, tailBits, r)
    ensures multiset(input[..]) == multiset(old(input[..]))
  {
    var handled := (tailBits + 7) / 8;
    if n < 1 || n > 64 {
      return Err(UnsupportedHashSize);
    }
    if handled > n {
      return Err(TailExceedsHash);
    }
    if input.Length == 0 {
      return Ok(ShallowTree(n, tailBits, r, 0, None));
    }
    var unused := Range(0, n);
    for b := 0 to handled
      invariant unused == Range(b, n)
    {
      unused := unused - {b};
    }
    assert unused == InitialMask(n, tailBits);
    if input.Length == 1 {
      var leaf := MakeLeafNode(input[0], unused, n, handled, r);
      return Ok(ShallowTree(n, tailBits, r, 1, Some(leaf)));
    }
    var scratch := new Item[input.Length](_ => Item([], 0));
    assert input[0..input.Length] == input[..];
    var sub := RecurseGenerateNode(input, 0, input.Length, n, unused, handled, r, scratch);
    assert input[0..input.Length] == input[..];
    match sub {
      case Err(e) => res := Err(e);
      case Ok(node) => res := Ok(ShallowTree(n, tailBits, r, input.Length, Some(node)));
    }
  }
}
