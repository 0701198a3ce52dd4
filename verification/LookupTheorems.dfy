/** What a lookup in a grown tree returns, for any target and any number of
    reassurance bytes. */
module LookupTheorems {
  import opened Wrappers
  import opened Bytes
  import opened Buckets
  import opened TreeSpec
  import opened TreeTheorems

  function First(u: seq<byte>, r: nat): seq<byte> {
    if |u| <= r then u else u[..r]
  }

  /** The two hashes agree on the first `r` bytes that `m` still holds. */
  ghost predicate Reassured(x: seq<byte>, h: seq<byte>, m: set<nat>, n: nat, r: nat) {
    First(Unused(x, m, n), r) == First(Unused(h, m, n), r)
  }

  /** `x` agrees with the target on the path bytes and on the reassurance bytes. */
  ghost predicate Accepts(x: Item, h: seq<byte>, unused: set<nat>, m: set<nat>, n: nat, r: nat) {
    Agree(x.hash, h, unused - m) && Reassured(x.hash, h, m, n, r)
  }

  /** The byte string of unused bytes has one length for all hashes, and is equal
      for two hashes exactly if they agree on the mask. */
  lemma {:induction false} UnusedAgree(x: seq<byte>, y: seq<byte>, m: set<nat>, k: nat)
    ensures |Unused(x, m, k)| == |Unused(y, m, k)|
    ensures Unused(x, m, k) == Unused(y, m, k) <==> forall b: nat :: b in m && b < k ==> At(x, b) == At(y, b)
  {
    if k > 0 {
      UnusedAgree(x, y, m, k - 1);
      var u, w := Unused(x, m, k - 1), Unused(y, m, k - 1);
      if k - 1 in m {
        assert u + [At(x, k - 1)] == w + [At(y, k - 1)] <==> u == w && At(x, k - 1) == At(y, k - 1) by {
          if u + [At(x, k - 1)] == w + [At(y, k - 1)] {
            assert u == (u + [At(x, k - 1)])[..|u|] == w;
            assert (u + [At(x, k - 1)])[|u|] == (w + [At(y, k - 1)])[|u|];
          }
        }
      } else {
        assert u + [] == u && w + [] == w;
      }
    }
  }

  lemma MatchesPadded(u: seq<byte>, w: seq<byte>, r: nat)
    requires |u| == |w|
    ensures Matches(u, Pad(w, r)) <==> First(w, r) == First(u, r)
  {
  }

  lemma {:induction false} LeafMaskShrinks(node: Node, unused: set<nat>, h: seq<byte>)
    ensures LeafMask(node, unused, h).Some? ==> LeafMask(node, unused, h).value <= unused
  {
    match node
    case Leaf(_, _, _) =>
    case Slots(_, b, slots) =>
      var v := At(h, b);
      if v < |slots| && slots[v].Some? {
        LeafMaskShrinks(slots[v].value, unused - {b}, h);
      }
  }

  /** Some hash of `s` with index `p` is accepted for the target. */
  ghost predicate Hit(s: seq<Item>, h: seq<byte>, unused: set<nat>, m: set<nat>, n: nat, r: nat, p: LocalPi) {
    exists x :: x in s && x.pi == p && Accepts(x, h, unused, m, n, r)
  }

  lemma {:induction false} HitInBucket(s: seq<Item>, h: seq<byte>, b: nat, unused: set<nat>, m: set<nat>, n: nat,
      r: nat, p: LocalPi)
    requires b in unused && m <= unused - {b}
    ensures Hit(Bucket(s, b, At(h, b)), h, unused - {b}, m, n, r, p) <==> Hit(s, h, unused, m, n, r, p)
  {
    assert unused - m == {b} + (unused - {b} - m);
    forall x
      ensures x in Bucket(s, b, At(h, b)) && Accepts(x, h, unused - {b}, m, n, r) <==>
              x in s && Accepts(x, h, unused, m, n, r)
    {
      BucketSound(s, b, At(h, b), x);
    }
  }

  lemma {:induction false} LeafExact(s: seq<Item>, h: seq<byte>, depth: nat, unused: set<nat>, n: nat, r: nat,
      p: LocalPi)
    requires |s| == 1 && |h| == n
    ensures Find(MakeLeaf(s[0], unused, n, depth, r), unused, h) == Some(p) <==> Hit(s, h, unused, unused, n, r, p)
  {
    UnusedAgree(s[0].hash, h, unused, n);
    MatchesPadded(Unused(h, unused, n), Unused(s[0].hash, unused, n), r);
    assert Agree(s[0].hash, h, unused - unused);
    assert s[0] in s;
  }

  /** One step of a lookup: into the subtree of the target's bucket, or out. */
  lemma LookupStep(s: seq<Item>, unused: set<nat>, n: nat, depth: nat, r: nat, h: seq<byte>)
    returns (b: nat, child: Option<Node>)
    requires InRange(unused, n) && |s| >= 2 && Grow(s, unused, n, depth, r).Ok?
    ensures b in unused
    ensures Grow(Bucket(s, b, At(h, b)), unused - {b}, n, depth + 1, r) == Ok(child)
    ensures var node := Grow(s, unused, n, depth, r).value.value;
            && Find(node, unused, h) == (if child.None? then None else Find(child.value, unused - {b}, h))
            && LeafMask(node, unused, h) == (if child.None? then None else LeafMask(child.value, unused - {b}, h))
  {
    b := ChosenByte(s, unused, n);
    child := Grow(Bucket(s, b, At(h, b)), unused - {b}, n, depth + 1, r).value;
  }

  /** A lookup answers `p` exactly if it reaches a leaf and some inserted hash of index
      `p` agrees with the target on the bytes of the path and of the reassurance. */
  lemma {:induction false} LookupExact(
    s: seq<Item>, unused: set<nat>, n: nat, depth: nat, r: nat, h: seq<byte>, p: LocalPi)
    requires InRange(unused, n) && |h| == n && s != []
    requires Grow(s, unused, n, depth, r).Ok?
    ensures var node := Grow(s, unused, n, depth, r).value;
            && node.Some?
            && var m := LeafMask(node.value, unused, h);
            (Find(node.value, unused, h) == Some(p) <==> m.Some? && Hit(s, h, unused, m.value, n, r, p))
    decreases |unused|
  {
    if |s| == 1 {
      LeafExact(s, h, depth, unused, n, r, p);
    } else {
      var b, child := LookupStep(s, unused, n, depth, r, h);
      if child.Some? {
        LookupExact(Bucket(s, b, At(h, b)), unused - {b}, n, depth + 1, r, h, p);
        LeafMaskShrinks(child.value, unused - {b}, h);
        var m := LeafMask(child.value, unused - {b}, h);
        if m.Some? {
          HitInBucket(s, h, b, unused, m.value, n, r, p);
        }
      }
    }
  }

  /** A target that agrees with an inserted hash outside the tail reaches a leaf. */
  lemma {:induction false} LeafReached(
    s: seq<Item>, unused: set<nat>, n: nat, depth: nat, r: nat, x: Item, h: seq<byte>)
    requires InRange(unused, n) && |h| == n && x in s && Agree(x.hash, h, unused)
    requires Grow(s, unused, n, depth, r).Ok?
    ensures var node := Grow(s, unused, n, depth, r).value;
            node.Some? && LeafMask(node.value, unused, h).Some?
    decreases |unused|
  {
    if |s| >= 2 {
      var b := ChosenByte(s, unused, n);
      BucketSound(s, b, At(h, b), x);
      LeafReached(Bucket(s, b, At(h, b)), unused - {b}, n, depth + 1, r, x, h);
    }
  }

  /** Every inserted hash is found, with its own index; bytes outside the mask, that
      is the tail, do not matter. */
  lemma {:induction false} InsertedIsFound(s: seq<Item>, unused: set<nat>, n: nat, depth: nat, r: nat, x: Item,
      h: seq<byte>)
    requires InRange(unused, n) && |h| == n && x in s && Agree(x.hash, h, unused)
    requires Grow(s, unused, n, depth, r).Ok?
    ensures var node := Grow(s, unused, n, depth, r).value;
            node.Some? && Find(node.value, unused, h) == Some(x.pi)
  {
    LeafReached(s, unused, n, depth, r, x, h);
    var node := Grow(s, unused, n, depth, r).value.value;
    var m := LeafMask(node, unused, h).value;
    LeafMaskShrinks(node, unused, h);
    UnusedAgree(x.hash, h, m, n);
    assert Accepts(x, h, unused, m, n, r);
    LookupExact(s, unused, n, depth, r, h, x.pi);
  }

  lemma {:induction false} UnusedLength(h: seq<byte>, m: set<nat>, k: nat)
    requires InRange(m, k)
    ensures |Unused(h, m, k)| == |m|
    decreases k
  {
    if k == 0 {
      assert m == {};
    } else {
      var m' := m - {k - 1};
      UnusedLength(h, m', k - 1);
      UnusedSame(h, m, m', k - 1);
      if k - 1 in m {
        assert m == m' + {k - 1};
      } else {
        assert m == m';
      }
    }
  }

  lemma {:induction false} UnusedSame(h: seq<byte>, m: set<nat>, m': set<nat>, k: nat)
    requires forall b: nat | b < k :: b in m <==> b in m'
    ensures Unused(h, m, k) == Unused(h, m', k)
  {
    if k > 0 {
      UnusedSame(h, m, m', k - 1);
    }
  }

  /** When the reassurance covers every unused byte the tree is the map itself: it
      answers `p` exactly for the targets that equal, outside the tail, a hash of index `p`. */
  lemma {:induction false} FullReassuranceIsTheMap(s: seq<Item>, unused: set<nat>, n: nat, depth: nat, r: nat,
      h: seq<byte>, p: LocalPi)
    requires InRange(unused, n) && |h| == n && s != [] && r >= |unused|
    requires Grow(s, unused, n, depth, r).Ok?
    ensures var node := Grow(s, unused, n, depth, r).value;
            && node.Some?
            && (Find(node.value, unused, h) == Some(p) <==>
                  exists x :: x in s && x.pi == p && Agree(x.hash, h, unused))
  {
    LookupExact(s, unused, n, depth, r, h, p);
    var node := Grow(s, unused, n, depth, r).value.value;
    if Find(node, unused, h) == Some(p) {
      var m := LeafMask(node, unused, h).value;
      LeafMaskShrinks(node, unused, h);
      var x :| x in s && x.pi == p && Accepts(x, h, unused, m, n, r);
      UnusedLength(x.hash, m, n);
      UnusedLength(h, m, n);
      SubsetSize(m, unused);
      UnusedAgree(x.hash, h, m, n);
      assert Agree(x.hash, h, unused);
    }
    if x :| x in s && x.pi == p && Agree(x.hash, h, unused) {
      InsertedIsFound(s, unused, n, depth, r, x, h);
    }
  }

  /** The bytes that a leaf keeps come in the order of their places: byte `b` stands behind those
      of the unused places below it. */
  lemma {:induction false} UnusedInOrder(h: seq<byte>, unused: set<nat>, b: nat, k: nat)
    requires b in unused && b < k
    ensures |Unused(h, unused, b)| == |set c | c in unused && c < b| < |Unused(h, unused, k)|
    ensures Unused(h, unused, k)[|Unused(h, unused, b)|] == At(h, b)
  {
    UnusedCount(h, unused, b);
    if b < k - 1 {
      UnusedInOrder(h, unused, b, k - 1);
    }
  }

  lemma {:induction false} UnusedCount(h: seq<byte>, unused: set<nat>, k: nat)
    ensures |Unused(h, unused, k)| == |set c | c in unused && c < k|
  {
    var below := set c | c in unused && c < k;
    if k == 0 {
      assert below == {};
    } else {
      UnusedCount(h, unused, k - 1);
      assert below == (set c | c in unused && c < k - 1) + if k - 1 in unused then {k - 1} else {};
    }
  }
}
