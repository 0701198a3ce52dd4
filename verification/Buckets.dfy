/** Buckets of a span of hashes by one byte, their sizes and their order:
    the vocabulary in which the partition and the choice of byte are specified. */
module Buckets {
  import opened Bytes

  const NO_MATCH: nat := 0xFFFF_FFFF_FFFF_FFFF

  /** A presentation index; the all-ones word is the sentinel and no index. */
  type LocalPi = p: int | 0 <= p < NO_MATCH

  datatype Item = Item(hash: seq<byte>, pi: LocalPi)

  /** Byte `b` of a hash; total, so that specifications need no width. */
  function At(h: seq<byte>, b: nat): byte {
    if b < |h| then h[b] else 0
  }

  /** Every hash has the width of the template argument. */
  predicate Uniform(s: seq<Item>, n: nat) {
    forall i :: 0 <= i < |s| ==> |s[i].hash| == n
  }

  /** The items whose byte `b` is `v`, in their order in `s`. */
  function Bucket(s: seq<Item>, b: nat, v: nat): seq<Item> {
    if s == [] then []
    else
      var last := s[|s| - 1];
      Bucket(s[..|s| - 1], b, v) + if At(last.hash, b) == v then [last] else []
  }

  /** Where the bucket of `v` starts when buckets are laid out in byte order. */
  function Offset(s: seq<Item>, b: nat, v: nat): nat {
    if v == 0 then 0 else Offset(s, b, v - 1) + |Bucket(s, b, v - 1)|
  }

  /** The buckets of `v`, `v + 1`, ..., 255, one after the other. */
  function BucketsFrom(s: seq<Item>, b: nat, v: nat): seq<Item>
    requires v <= 256
    decreases s, b, 256 - v
  {
    if v == 256 then [] else Bucket(s, b, v) + BucketsFrom(s, b, v + 1)
  }

  lemma {:induction false} BucketPush(s: seq<Item>, x: Item, b: nat, v: nat)
    ensures Bucket(s + [x], b, v) == Bucket(s, b, v) + if At(x.hash, b) == v then [x] else []
  {
  }

  lemma {:induction false} BucketSound(s: seq<Item>, b: nat, v: nat, x: Item)
    ensures x in Bucket(s, b, v) <==> x in s && At(x.hash, b) == v
  {
    if s != [] {
      BucketSound(s[..|s| - 1], b, v, x);
      assert s == s[..|s| - 1] + [s[|s| - 1]];
    }
  }

  lemma {:induction false} BucketUniform(s: seq<Item>, b: nat, v: nat, n: nat)
    requires Uniform(s, n)
    ensures Uniform(Bucket(s, b, v), n)
  {
    forall i | 0 <= i < |Bucket(s, b, v)|
      ensures |Bucket(s, b, v)[i].hash| == n
    {
      BucketSound(s, b, v, Bucket(s, b, v)[i]);
    }
  }

  /** A longer span has longer buckets. */
  lemma {:induction false} BucketMono(s: seq<Item>, i: nat, b: nat, v: nat)
    requires i <= |s|
    ensures |Bucket(s[..i], b, v)| <= |Bucket(s, b, v)|
    decreases |s| - i
  {
    if i == |s| {
      assert s[..i] == s;
    } else {
      assert s[..i + 1] == s[..i] + [s[i]];
      BucketPush(s[..i], s[i], b, v);
      BucketMono(s, i + 1, b, v);
    }
  }

  /** A bucket keeps the order of the span: each item comes behind those before it. */
  lemma {:induction false} BucketInOrder(s: seq<Item>, i: nat, b: nat)
    requires i < |s|
    ensures var v := At(s[i].hash, b);
            |Bucket(s[..i], b, v)| < |Bucket(s, b, v)| && Bucket(s, b, v)[|Bucket(s[..i], b, v)|] == s[i]
  {
    var front := s[..|s| - 1];
    if i < |front| {
      BucketInOrder(front, i, b);
      assert front[..i] == s[..i];
    }
  }

  lemma {:induction false} OffsetPush(s: seq<Item>, x: Item, b: nat, v: nat)
    ensures Offset(s + [x], b, v) == Offset(s, b, v) + if At(x.hash, b) < v then 1 else 0
  {
    if v > 0 {
      OffsetPush(s, x, b, v - 1);
      BucketPush(s, x, b, v - 1);
    }
  }

  /** The buckets of all byte values partition the span. */
  lemma {:induction false} OffsetTotal(s: seq<Item>, b: nat)
    ensures Offset(s, b, 256) == |s|
  {
    if s == [] {
      OffsetEmpty(b, 256);
    } else {
      OffsetTotal(s[..|s| - 1], b);
      assert s == s[..|s| - 1] + [s[|s| - 1]];
      OffsetPush(s[..|s| - 1], s[|s| - 1], b, 256);
    }
  }

  lemma {:induction false} OffsetEmpty(b: nat, v: nat)
    ensures Offset([], b, v) == 0
  {
    if v > 0 {
      OffsetEmpty(b, v - 1);
    }
  }

  lemma {:induction false} OffsetMono(s: seq<Item>, b: nat, v: nat, w: nat)
    requires v < w
    ensures Offset(s, b, v) + |Bucket(s, b, v)| <= Offset(s, b, w)
  {
    if v + 1 < w {
      OffsetMono(s, b, v, w - 1);
    }
  }

  /** Partitioning permutes the span. */
  lemma {:induction false} BucketsFromMultiset(s: seq<Item>, b: nat, v: nat, x: Item)
    requires v <= 256
    ensures multiset(BucketsFrom(s, b, v))[x] == if v <= At(x.hash, b) then multiset(s)[x] else 0
    decreases 256 - v
  {
    if v < 256 {
      BucketsFromMultiset(s, b, v + 1, x);
      BucketMultiset(s, b, v, x);
    }
  }

  lemma {:induction false} PartitionPermutes(s: seq<Item>, b: nat)
    ensures multiset(BucketsFrom(s, b, 0)) == multiset(s)
  {
    forall x: Item
      ensures multiset(BucketsFrom(s, b, 0))[x] == multiset(s)[x]
    {
      BucketsFromMultiset(s, b, 0, x);
    }
  }

  lemma {:induction false} BucketMultiset(s: seq<Item>, b: nat, v: nat, x: Item)
    ensures multiset(Bucket(s, b, v))[x] == if At(x.hash, b) == v then multiset(s)[x] else 0
  {
    if s != [] {
      BucketMultiset(s[..|s| - 1], b, v, x);
      assert s == s[..|s| - 1] + [s[|s| - 1]];
    }
  }

  /** Buckets of two orderings of one collection are orderings of one collection. */
  lemma {:induction false} BucketPermutation(s: seq<Item>, t: seq<Item>, b: nat, v: nat)
    requires multiset(s) == multiset(t)
    ensures multiset(Bucket(s, b, v)) == multiset(Bucket(t, b, v))
    ensures |Bucket(s, b, v)| == |Bucket(t, b, v)|
  {
    forall x: Item
      ensures multiset(Bucket(s, b, v))[x] == multiset(Bucket(t, b, v))[x]
    {
      BucketMultiset(s, b, v, x);
      BucketMultiset(t, b, v, x);
    }
    assert multiset(Bucket(s, b, v)) == multiset(Bucket(t, b, v));
    assert |multiset(Bucket(s, b, v))| == |Bucket(s, b, v)|;
    assert |multiset(Bucket(t, b, v))| == |Bucket(t, b, v)|;
  }
}
