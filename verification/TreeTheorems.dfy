/** What the shallow tree promises: duplicates are detected exactly, the order of
    the input is immaterial, the size is linear, and lookups agree with the map. */
module TreeTheorems {
  import opened Wrappers
  import opened Bytes
  import opened Buckets
  import opened TreeSpec

  ghost predicate Agree(x: seq<byte>, y: seq<byte>, m: set<nat>) {
    forall b :: b in m ==> At(x, b) == At(y, b)
  }

  /** Two positions hold hashes that agree on all of `m`. */
  ghost predicate HasTwins(s: seq<Item>, m: set<nat>) {
    exists i, j :: 0 <= i < j < |s| && Agree(s[i].hash, s[j].hash, m)
  }

  // ---------------------------------------------------------------- duplicates

  lemma TwinsPush(t: seq<Item>, x: Item, m: set<nat>)
    ensures HasTwins(t + [x], m) <==> HasTwins(t, m) || exists y :: y in t && Agree(y.hash, x.hash, m)
  {
    var s := t + [x];
    if HasTwins(s, m) {
      var i, j :| 0 <= i < j < |s| && Agree(s[i].hash, s[j].hash, m);
      assert s[i] == t[i];
      if j < |t| {
        assert s[j] == t[j];
      }
    }
    if HasTwins(t, m) {
      var i, j :| 0 <= i < j < |t| && Agree(t[i].hash, t[j].hash, m);
      assert s[i] == t[i] && s[j] == t[j];
    }
    if exists y :: y in t && Agree(y.hash, x.hash, m) {
      var y :| y in t && Agree(y.hash, x.hash, m);
      var i :| 0 <= i < |t| && t[i] == y;
      assert s[i] == y && s[|t|] == x;
    }
  }

  lemma {:induction false} BucketTwins(s: seq<Item>, b: nat, v: nat, m: set<nat>)
    requires HasTwins(Bucket(s, b, v), m)
    ensures HasTwins(s, m + {b})
  {
    if s != [] {
      var t, x := s[..|s| - 1], s[|s| - 1];
      assert s == t + [x];
      TwinsPush(t, x, m + {b});
      if HasTwins(Bucket(t, b, v), m) {
        BucketTwins(t, b, v, m);
      } else {
        TwinsPush(Bucket(t, b, v), x, m);
        var y :| y in Bucket(t, b, v) && Agree(y.hash, x.hash, m);
        BucketSound(t, b, v, y);
        assert Agree(y.hash, x.hash, m + {b});
      }
    }
  }

  lemma {:induction false} TwinsBucket(s: seq<Item>, b: nat, m: set<nat>) returns (v: nat)
    requires HasTwins(s, m) && b in m
    ensures v < 256 && HasTwins(Bucket(s, b, v), m - {b})
  {
    var t, x := s[..|s| - 1], s[|s| - 1];
    assert s == t + [x];
    TwinsPush(t, x, m);
    if HasTwins(t, m) {
      v := TwinsBucket(t, b, m);
      if At(x.hash, b) == v {
        TwinsPush(Bucket(t, b, v), x, m - {b});
      } else {
        assert Bucket(s, b, v) == Bucket(t, b, v);
      }
    } else {
      var y :| y in t && Agree(y.hash, x.hash, m);
      v := At(x.hash, b);
      BucketSound(t, b, v, y);
      assert Agree(y.hash, x.hash, m - {b});
      TwinsPush(Bucket(t, b, v), x, m - {b});
    }
  }

  /** Building fails exactly when two of the hashes agree on every unused byte. */
  lemma {:induction false} DuplicatesDetectedExactly(s: seq<Item>, unused: set<nat>, n: nat, depth: nat, r: nat)
    requires InRange(unused, n)
    ensures Grow(s, unused, n, depth, r).Err? <==> HasTwins(s, unused)
    decreases |unused|
  {
    if |s| >= 2 {
      if unused == {} {
        assert Agree(s[0].hash, s[1].hash, unused);
      } else {
        var b := ChosenByte(s, unused, n);
        var rest := unused - {b};
        forall v: nat | v < 256
          ensures Grow(Bucket(s, b, v), rest, n, depth + 1, r).Err? <==> HasTwins(Bucket(s, b, v), rest)
        {
          DuplicatesDetectedExactly(Bucket(s, b, v), rest, n, depth + 1, r);
        }
        if HasTwins(s, unused) {
          var v := TwinsBucket(s, b, unused);
          assert Grow(Bucket(s, b, v), rest, n, depth + 1, r).Err?;
        }
        if Build(s, unused, n, depth, r).Err? {
          var v: nat :| v < 256 && Grow(Bucket(s, b, v), rest, n, depth + 1, r).Err?;
          BucketTwins(s, b, v, rest);
          assert rest + {b} == unused;
        }
      }
    }
  }

  // ---------------------------------------------------------------- what the score counts

  /** The places whose hashes have value `v` at byte `b`. */
  function Places(s: seq<Item>, b: nat, v: nat): set<nat> {
    set i: nat | i < |s| && At(s[i].hash, b) == v
  }

  lemma PlacesPush(s: seq<Item>, k: nat, b: nat, v: nat)
    requires |s| == k + 1
    ensures Places(s, b, v) == Places(s[..k], b, v) + if At(s[k].hash, b) == v then {k} else {}
    ensures k !in Places(s[..k], b, v)
  {
  }

  lemma {:induction false} PlacesSize(s: seq<Item>, b: nat, v: nat)
    ensures |Places(s, b, v)| == |Bucket(s, b, v)|
  {
    if s != [] {
      var k := |s| - 1;
      PlacesSize(s[..k], b, v);
      PlacesPush(s, k, b, v);
    }
  }

  /** The pairs of places whose hashes agree at byte `b` on a value below `v`. */
  function EqualPairsBelow(s: seq<Item>, b: nat, v: nat): set<(nat, nat)> {
    set i: nat, j: nat | i < |s| && j < |s| && At(s[i].hash, b) == At(s[j].hash, b) < v :: (i, j)
  }

  /** The pairs of places whose hashes agree at byte `b`. */
  function EqualPairs(s: seq<Item>, b: nat): set<(nat, nat)> {
    set i: nat, j: nat | i < |s| && j < |s| && At(s[i].hash, b) == At(s[j].hash, b) :: (i, j)
  }

  function Product(a: set<nat>, b: set<nat>): set<(nat, nat)> {
    set i, j | i in a && j in b :: (i, j)
  }

  lemma {:induction false} RowSize(i: nat, b: set<nat>)
    ensures |Product({i}, b)| == |b|
  {
    if b != {} {
      var j :| j in b;
      RowSize(i, b - {j});
      assert Product({i}, b) == Product({i}, b - {j}) + {(i, j)};
    } else {
      assert Product({i}, b) == {};
    }
  }

  lemma ProductSplit(a: set<nat>, i: nat, b: set<nat>)
    requires i in a
    ensures Product(a, b) == Product(a - {i}, b) + Product({i}, b)
    ensures Product(a - {i}, b) * Product({i}, b) == {}
  {
  }

  lemma OneRowMore(rows: nat, columns: nat)
    ensures (rows + 1) * columns == rows * columns + columns
  {
  }

  lemma {:induction false} ProductSize(a: set<nat>, b: set<nat>)
    ensures |Product(a, b)| == |a| * |b|
  {
    if a == {} {
      assert Product(a, b) == {};
    } else {
      var i :| i in a;
      ProductSize(a - {i}, b);
      RowSize(i, b);
      ProductSplit(a, i, b);
      OneRowMore(|a - {i}|, |b|);
      assert |a| == |a - {i}| + 1;
    }
  }

  /** One value more. */
  lemma PairsSplit(s: seq<Item>, b: nat, v: nat)
    ensures var same := Places(s, b, v);
            && EqualPairsBelow(s, b, v + 1) == EqualPairsBelow(s, b, v) + Product(same, same)
            && EqualPairsBelow(s, b, v) * Product(same, same) == {}
  {
  }

  lemma UnionSize(a: set<(nat, nat)>, b: set<(nat, nat)>)
    requires a * b == {}
    ensures |a + b| == |a| + |b|
  {
  }

  lemma {:induction false} SumCountsPairs(s: seq<Item>, b: nat, v: nat)
    ensures SumSquares(s, b, v) == |EqualPairsBelow(s, b, v)|
  {
    if v == 0 {
      assert EqualPairsBelow(s, b, 0) == {};
    } else {
      SumCountsPairs(s, b, v - 1);
      PairsNext(s, b, v - 1);
      SquareOf(s, b, v - 1, |Bucket(s, b, v - 1)|);
    }
  }

  lemma PairsNext(s: seq<Item>, b: nat, v: nat)
    ensures var same := Places(s, b, v);
            |EqualPairsBelow(s, b, v + 1)| == |EqualPairsBelow(s, b, v)| + |Product(same, same)|
  {
    PairsSplit(s, b, v);
    UnionSize(EqualPairsBelow(s, b, v), Product(Places(s, b, v), Places(s, b, v)));
  }

  lemma {:induction false} SquareOf(s: seq<Item>, b: nat, v: nat, size: nat)
    requires size == |Bucket(s, b, v)|
    ensures |Product(Places(s, b, v), Places(s, b, v))| == size * size
  {
    PlacesSize(s, b, v);
    ProductSize(Places(s, b, v), Places(s, b, v));
  }

  /** The score of a byte is the number of pairs of places that it leaves together. */
  lemma {:induction false} ScoreCountsPairs(s: seq<Item>, b: nat)
    ensures Score(s, b) == |EqualPairs(s, b)|
  {
    SumCountsPairs(s, b, 256);
    assert EqualPairsBelow(s, b, 256) == EqualPairs(s, b);
  }

  /** The chosen byte is the first of the unused ones that leave the fewest pairs together. */
  lemma {:induction false} ChosenByteSeparatesMost(s: seq<Item>, unused: set<nat>, n: nat, c: nat)
    requires InRange(unused, n) && c in unused
    ensures var b := ChosenByte(s, unused, n);
            && b in unused
            && |EqualPairs(s, b)| <= |EqualPairs(s, c)|
            && (|EqualPairs(s, b)| == |EqualPairs(s, c)| ==> b <= c)
  {
    ScoreCountsPairs(s, ChosenByte(s, unused, n));
    ScoreCountsPairs(s, c);
  }

  // ---------------------------------------------------------------- order of the input

  lemma {:induction false} SumSquaresPermutation(s: seq<Item>, t: seq<Item>, b: nat, v: nat)
    requires multiset(s) == multiset(t)
    ensures SumSquares(s, b, v) == SumSquares(t, b, v)
  {
    if v > 0 {
      SumSquaresPermutation(s, t, b, v - 1);
      BucketPermutation(s, t, b, v - 1);
    }
  }

  lemma ScorePermutation(s: seq<Item>, t: seq<Item>, b: nat)
    requires multiset(s) == multiset(t)
    ensures Score(s, b) == Score(t, b)
  {
    SumSquaresPermutation(s, t, b, 256);
  }

  /** The first best byte is determined by the scores. */
  lemma {:induction false} BestPermutation(s: seq<Item>, t: seq<Item>, unused: set<nat>, k: nat)
    requires multiset(s) == multiset(t)
    ensures Best(s, unused, k) == Best(t, unused, k)
  {
    var p, q := Best(s, unused, k), Best(t, unused, k);
    if p.Some? {
      assert q.Some?;
      ScorePermutation(s, t, p.value);
      ScorePermutation(s, t, q.value);
    }
  }

  /** Two orderings of one collection give the same tree, or both fail. */
  lemma {:induction false} OrderIndependence(
    s: seq<Item>, t: seq<Item>, unused: set<nat>, n: nat, depth: nat, r: nat)
    requires InRange(unused, n) && multiset(s) == multiset(t)
    ensures Grow(s, unused, n, depth, r) == Grow(t, unused, n, depth, r)
    decreases |unused|
  {
    assert |multiset(s)| == |s| && |multiset(t)| == |t|;
    if |s| == 1 {
      assert s[0] in multiset(t);
    } else if |s| >= 2 && unused != {} {
      BestPermutation(s, t, unused, n);
      var b := ChosenByte(s, unused, n);
      var rest := unused - {b};
      forall v: nat | v < 256
        ensures Grow(Bucket(s, b, v), rest, n, depth + 1, r) == Grow(Bucket(t, b, v), rest, n, depth + 1, r)
      {
        BucketPermutation(s, t, b, v);
        OrderIndependence(Bucket(s, b, v), Bucket(t, b, v), rest, n, depth + 1, r);
      }
      SameBuckets(s, t, unused, n, depth, r, b, rest);
    }
  }

  lemma {:induction false} SameBuckets(
    s: seq<Item>, t: seq<Item>, unused: set<nat>, n: nat, depth: nat, r: nat, b: nat, rest: set<nat>)
    requires InRange(unused, n) && unused != {} && rest == unused - {b}
    requires b == ChosenByte(s, unused, n) == ChosenByte(t, unused, n)
    requires forall v: nat | v < 256 ::
               Grow(Bucket(s, b, v), rest, n, depth + 1, r) == Grow(Bucket(t, b, v), rest, n, depth + 1, r)
    ensures Build(s, unused, n, depth, r) == Build(t, unused, n, depth, r)
  {
    var x, y := Build(s, unused, n, depth, r), Build(t, unused, n, depth, r);
    assert x.Ok? <==> y.Ok?;
    if x.Ok? {
      forall v: nat | v < 256
        ensures x.value.slots[v] == y.value.slots[v]
      {
        assert Grow(Bucket(s, b, v), rest, n, depth + 1, r) == Grow(Bucket(t, b, v), rest, n, depth + 1, r);
      }
      assert x.value.slots == y.value.slots;
    }
  }

  // ---------------------------------------------------------------- size

  lemma {:induction false} BucketFull(s: seq<Item>, b: nat, v: nat)
    ensures |Bucket(s, b, v)| <= |s|
    ensures |Bucket(s, b, v)| == |s| <==> forall x :: x in s ==> At(x.hash, b) == v
  {
    if s != [] {
      BucketFull(s[..|s| - 1], b, v);
      assert s == s[..|s| - 1] + [s[|s| - 1]];
    }
  }

  /** Squares of parts add up to the square of the whole only if one part is the whole. */
  lemma {:induction false} SumSquaresBound(s: seq<Item>, b: nat, v: nat)
    ensures SumSquares(s, b, v) <= Offset(s, b, v) * Offset(s, b, v)
    ensures SumSquares(s, b, v) == Offset(s, b, v) * Offset(s, b, v) && Offset(s, b, v) > 0 ==>
              exists w :: 0 <= w < v && |Bucket(s, b, w)| == Offset(s, b, v)
  {
    if v > 0 {
      SumSquaresBound(s, b, v - 1);
      var t, c := Offset(s, b, v - 1), |Bucket(s, b, v - 1)|;
      SquareOfSum(SumSquares(s, b, v - 1), t, c);
      if t == 0 {
        assert |Bucket(s, b, v - 1)| == Offset(s, b, v);
      }
    }
  }

  lemma SquareOfSum(q: nat, t: nat, c: nat)
    requires q <= t * t
    ensures q + c * c <= (t + c) * (t + c)
    ensures q + c * c == (t + c) * (t + c) ==> q == t * t && (t == 0 || c == 0)
  {
  }

  lemma {:induction false} SumSquaresAtLeast(s: seq<Item>, b: nat, v: nat, w: nat)
    requires w < v
    ensures SumSquares(s, b, v) >= |Bucket(s, b, w)| * |Bucket(s, b, w)|
  {
    var c := |Bucket(s, b, v - 1)|;
    assert c * c >= 0;
    if w < v - 1 {
      SumSquaresAtLeast(s, b, v - 1, w);
    }
  }

  /** A byte splits the span exactly if its score is below the square of the size. */
  lemma SplitsByScore(s: seq<Item>, b: nat)
    requires s != []
    ensures Score(s, b) < |s| * |s| <==> exists x, y :: x in s && y in s && At(x.hash, b) != At(y.hash, b)
  {
    OffsetTotal(s, b);
    SumSquaresBound(s, b, 256);
    if exists x, y :: x in s && y in s && At(x.hash, b) != At(y.hash, b) {
      if Score(s, b) == |s| * |s| {
        var w :| 0 <= w < 256 && |Bucket(s, b, w)| == |s|;
        BucketFull(s, b, w);
      }
    } else {
      var v := At(s[0].hash, b);
      BucketFull(s, b, v);
      SumSquaresAtLeast(s, b, 256, v);
    }
  }

  /** The greedy choice always picks a byte that splits the span. */
  lemma ChosenByteSplits(s: seq<Item>, unused: set<nat>, n: nat) returns (v: nat, w: nat)
    requires |s| >= 2 && InRange(unused, n) && unused != {} && !HasTwins(s, unused)
    ensures v < w < 256
    ensures Bucket(s, ChosenByte(s, unused, n), v) != [] && Bucket(s, ChosenByte(s, unused, n), w) != []
  {
    var b := ChosenByte(s, unused, n);
    assert !Agree(s[0].hash, s[1].hash, unused);
    var c :| c in unused && At(s[0].hash, c) != At(s[1].hash, c);
    assert s[0] in s && s[1] in s;
    SplitsByScore(s, c);
    SplitsByScore(s, b);
    var x, y :| x in s && y in s && At(x.hash, b) != At(y.hash, b);
    BucketSound(s, b, At(x.hash, b), x);
    BucketSound(s, b, At(y.hash, b), y);
    v, w := At(x.hash, b), At(y.hash, b);
    if v > w {
      v, w := w, v;
    }
  }

  /** How many of the first `k` slots are taken. */
  function Children(node: Node, k: nat): nat
    requires node.Slots? && k <= |node.slots|
  {
    if k == 0 then 0 else Children(node, k - 1) + if node.slots[k - 1].Some? then 1 else 0
  }

  lemma {:induction false} TwoChildren(node: Node, v: nat, w: nat, k: nat)
    requires node.Slots? && v < k <= |node.slots| && node.slots[v].Some?
    requires w < |node.slots| && v < w && node.slots[w].Some?
    ensures Children(node, k) >= if w < k then 2 else 1
  {
    if v < k - 1 {
      TwoChildren(node, v, w, k - 1);
    }
  }

  /** What holds of the subtree grown from `size` hashes. */
  ghost predicate Sized(child: Option<Node>, size: nat, unused: set<nat>, n: nat) {
    if size == 0 then child.None?
    else
      && child.Some?
      && Leaves(child.value) == size
      && |Nodes(child.value)| <= 2 * size - 1
      && Balanced(child.value, unused, n)
  }

  /** A tree of `m` hashes has exactly `m` leaves and at most `2m - 1` nodes; every
      branching node has two children, and depth and unused bytes always add up. */
  lemma {:induction false} SizeBound(s: seq<Item>, unused: set<nat>, n: nat, depth: nat, r: nat, tree: Option<Node>)
    requires InRange(unused, n) && depth + |unused| == n
    requires Grow(s, unused, n, depth, r) == Ok(tree)
    ensures Sized(tree, |s|, unused, n)
    decreases |unused|
  {
    if |s| >= 2 {
      DuplicatesDetectedExactly(s, unused, n, depth, r);
      var b := ChosenByte(s, unused, n);
      var rest := unused - {b};
      var node := tree.value;
      assert |rest| == |unused| - 1;
      forall v: nat | v < 256
        ensures Sized(node.slots[v], |Bucket(s, b, v)|, rest, n)
      {
        SizeBound(Bucket(s, b, v), rest, n, depth + 1, r, node.slots[v]);
      }
      assert SlotsSized(s, node, rest, n);
      var v, w := ChosenByteSplits(s, unused, n);
      NodeSize(s, node, v, w, unused, n);
    }
  }

  /** Every slot holds what was grown from its bucket. */
  ghost predicate SlotsSized(s: seq<Item>, node: Node, rest: set<nat>, n: nat) {
    && node.Slots? && |node.slots| == 256
    && forall x: nat | x < 256 :: Sized(node.slots[x], |Bucket(s, node.byteIndex, x)|, rest, n)
  }

  lemma {:induction false} NodeSize(s: seq<Item>, node: Node, v: nat, w: nat, unused: set<nat>, n: nat)
    requires node.Slots? && node.byteIndex in unused && node.depth + |unused| == n
    requires SlotsSized(s, node, unused - {node.byteIndex}, n)
    requires s != [] && v < w < 256
    requires Bucket(s, node.byteIndex, v) != [] && Bucket(s, node.byteIndex, w) != []
    ensures Sized(Some(node), |s|, unused, n)
  {
    NodeBalanced(s, node, v, w, unused, n);
    NodeCounts(s, node, v, w, unused - {node.byteIndex}, n);
  }

  lemma {:induction false} NodeBalanced(s: seq<Item>, node: Node, v: nat, w: nat, unused: set<nat>, n: nat)
    requires node.Slots? && node.byteIndex in unused && node.depth + |unused| == n
    requires SlotsSized(s, node, unused - {node.byteIndex}, n) && v < w < 256
    requires Bucket(s, node.byteIndex, v) != [] && Bucket(s, node.byteIndex, w) != []
    ensures Balanced(node, unused, n)
  {
  }

  lemma {:induction false} NodeCounts(s: seq<Item>, node: Node, v: nat, w: nat, rest: set<nat>, n: nat)
    requires node.Slots? && SlotsSized(s, node, rest, n) && v < w < 256
    requires Bucket(s, node.byteIndex, v) != [] && Bucket(s, node.byteIndex, w) != []
    ensures Leaves(node) == |s| && |Nodes(node)| <= 2 * |s| - 1
  {
    ChildrenSize(s, node, rest, n, 256);
    assert node.slots[v].Some? && node.slots[w].Some?;
    TwoChildren(node, v, w, 256);
    OffsetTotal(s, node.byteIndex);
  }

  lemma {:induction false} ChildrenSize(s: seq<Item>, node: Node, rest: set<nat>, n: nat, k: nat)
    requires node.Slots? && SlotsSized(s, node, rest, n) && k <= 256
    ensures ChildLeaves(node, k) == Offset(s, node.byteIndex, k)
    ensures |ChildNodes(node, k)| + Children(node, k) <= 2 * Offset(s, node.byteIndex, k)
  {
    if k > 0 {
      ChildrenSize(s, node, rest, n, k - 1);
      assert Sized(node.slots[k - 1], |Bucket(s, node.byteIndex, k - 1)|, rest, n);
    }
  }
}
