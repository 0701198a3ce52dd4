/** A donut after any number of appends: when it can be reloaded. */
module DonutHistories {
  import opened Wrappers
  import opened Bits
  import opened Bytes
  import opened DonutEntries
  import opened DonutFiles
  import opened DonutHydrations

  type Batches = seq<seq<HashItem>>

  function Flatten(batches: Batches): seq<HashItem> {
    if batches == [] then [] else Flatten(batches[..|batches| - 1]) + batches[|batches| - 1]
  }

  /** The donut after one call of `append_hashes` per batch. */
  function DonutAfter(batches: Batches, capacity: nat, first: nat): Donut {
    if batches == [] then NewDonut(capacity, first)
    else Appended(DonutAfter(batches[..|batches| - 1], capacity, first), batches[|batches| - 1])
  }

  /** Whenever a batch with a hash was appended, no hash had been repeated before. */
  ghost predicate Resumable(batches: Batches) {
    batches == []
    || (var front, last := batches[..|batches| - 1], batches[|batches| - 1];
        Resumable(front) && (NonGaps(last) == 0 || NoRepeats(Flatten(front))))
  }

  lemma {:induction false} AnyDonutIsOk(batches: Batches, capacity: nat, first: nat, n: nat)
    requires 1 <= capacity <= MAX_CAPACITY && |Flatten(batches)| <= capacity && HashesOf(Flatten(batches), n)
    ensures var d := DonutAfter(batches, capacity, first);
            DonutOk(d, n) && d.capacity == capacity && d.first == first && d.forward == Flatten(batches)
               && |d.order| == 1 + INDEX_BYTES * |d.forward|
  {
    if batches != [] {
      var front, last := batches[..|batches| - 1], batches[|batches| - 1];
      HashesOfParts(Flatten(front), last, n);
      AnyDonutIsOk(front, capacity, first, n);
      AppendedIsOk(DonutAfter(front, capacity, first), last, n);
      OrderBytesSize(last, |DonutAfter(front, capacity, first).reverse|);
    }
  }

  lemma HashesOfParts(a: seq<HashItem>, b: seq<HashItem>, n: nat)
    ensures HashesOf(a + b, n) <==> HashesOf(a, n) && HashesOf(b, n)
  {
    if HashesOf(a + b, n) {
      forall i | 0 <= i < |a| && a[i].Some?
        ensures |a[i].value| == n
      {
        assert (a + b)[i] == a[i];
      }
      forall i | 0 <= i < |b| && b[i].Some?
        ensures |b[i].value| == n
      {
        assert (a + b)[|a| + i] == b[i];
      }
    }
  }

  /** Order records show where the gaps are, and at which number they start. */
  lemma {:induction false} RecordsTell(s: seq<HashItem>, k: nat, t: seq<HashItem>, k': nat)
    requires |s| == |t| && OrderBytes(s, k) == OrderBytes(t, k')
    requires k + NonGaps(s) <= MAX_CAPACITY && k' + NonGaps(t) <= MAX_CAPACITY
    ensures NonGaps(s) == NonGaps(t) && (NonGaps(s) == 0 || k == k')
  {
    if s != [] {
      var s', x, t', y := s[..|s| - 1], s[|s| - 1], t[..|t| - 1], t[|t| - 1];
      OrderBytesSize(s', k);
      OrderBytesSize(t', k');
      ConcatInjective(OrderBytes(s', k), OrderRecord(x, k + NonGaps(s')),
                      OrderBytes(t', k'), OrderRecord(y, k' + NonGaps(t')));
      RecordsTell(s', k, t', k');
      RecordTells(x, k + NonGaps(s'), y, k' + NonGaps(t'));
    }
  }

  lemma RecordTells(x: HashItem, i: nat, y: HashItem, j: nat)
    requires OrderRecord(x, i) == OrderRecord(y, j)
    requires x.Some? ==> i < MAX_CAPACITY
    requires y.Some? ==> j < MAX_CAPACITY
    ensures (x.Some? <==> y.Some?) && (x.Some? ==> i == j)
  {
    RecordParsed(OrderRecord(x, i), i);
    RecordParsed(OrderRecord(y, j), j);
  }

  lemma {:induction false} SplitOrderFile(front: seq<byte>, tail: seq<byte>, a: seq<HashItem>, b: seq<HashItem>, k: nat)
    requires front + tail == OrderFile(a + b) && |front| == 1 + INDEX_BYTES * |a| && k == NonGaps(a)
    ensures front == OrderFile(a) && tail == OrderBytes(b, k)
  {
    OrderBytesSize(a, 0);
    AppendedOrder(a, b, k);
    ConcatInjective(front, tail, OrderFile(a), OrderBytes(b, k));
  }

  lemma LastBatchTells(f: seq<HashItem>, last: seq<HashItem>, k: nat, s: seq<HashItem>, t: seq<HashItem>)
    requires |s| == |f| && |t| == |last| && k == |ReverseOf(f)|
    requires OrderFile(f) == OrderFile(s) && OrderBytes(last, k) == OrderBytes(t, NonGaps(s))
    requires NonGaps(f) + NonGaps(last) <= MAX_CAPACITY && NonGaps(s) + NonGaps(t) <= MAX_CAPACITY
    ensures NonGaps(last) == 0 || NoRepeats(f)
  {
    ReverseSize(f);
    ConcatInjective([INDEX_BYTES], OrderBytes(f, 0), [INDEX_BYTES], OrderBytes(s, 0));
    RecordsTell(f, 0, s, 0);
    RecordsTell(last, k, t, NonGaps(s));
  }

  /** The order file is the one for its contents alone exactly if the history is resumable. */
  lemma {:induction false} OrderFileIsCanonicalExactly(batches: Batches, capacity: nat, first: nat, n: nat,
      s: seq<HashItem>)
    requires 1 <= capacity <= MAX_CAPACITY && |Flatten(batches)| <= capacity && HashesOf(Flatten(batches), n)
    ensures var order := DonutAfter(batches, capacity, first).order;
            && (order == OrderFile(s) && NonGaps(s) <= MAX_CAPACITY ==> Resumable(batches))
            && (Resumable(batches) ==> order == OrderFile(Flatten(batches)))
  {
    if batches != [] {
      var front, last := batches[..|batches| - 1], batches[|batches| - 1];
      var d, f := DonutAfter(front, capacity, first), Flatten(front);
      HashesOfParts(f, last, n);
      AnyDonutIsOk(front, capacity, first, n);
      ReverseSize(f);
      NonGapsConcat(f, last);
      OrderFileIsCanonicalExactly(front, capacity, first, n, s[..if |f| <= |s| then |f| else 0]);
      if Resumable(batches) {
        LastBatchContinues(d.order, f, last, |d.reverse|);
      }
      if d.order + OrderBytes(last, |d.reverse|) == OrderFile(s) && NonGaps(s) <= MAX_CAPACITY {
        LastBatchSplits(d.order, f, last, |d.reverse|, s);
        LastBatchTells(f, last, |d.reverse|, s[..|f|], s[|f|..]);
      }
    }
  }

  lemma {:induction false} LastBatchSplits(order: seq<byte>, f: seq<HashItem>, last: seq<HashItem>, k: nat,
      s: seq<HashItem>)
    requires |order| == 1 + INDEX_BYTES * |f| && order + OrderBytes(last, k) == OrderFile(s)
    ensures |s| == |f| + |last|
    ensures order == OrderFile(s[..|f|]) && OrderBytes(last, k) == OrderBytes(s[|f|..], NonGaps(s[..|f|]))
    ensures NonGaps(s) == NonGaps(s[..|f|]) + NonGaps(s[|f|..])
  {
    OrderBytesSize(last, k);
    OrderBytesSize(s, 0);
    assert s == s[..|f|] + s[|f|..];
    NonGapsConcat(s[..|f|], s[|f|..]);
    SplitOrderFile(order, OrderBytes(last, k), s[..|f|], s[|f|..], NonGaps(s[..|f|]));
  }

  // ---------------------------------------------------------------- reloading

  /** The suffix file holds the hashes in order, and nothing else. */
  lemma {:induction false} BehindOwnHashes(s: seq<HashItem>, n: nat, w: nat, tail: seq<byte>)
    requires HashesOf(s, n)
    ensures BehindHashes(SuffixBytes(s, 0, w) + tail, s, n, w) == Some(tail)
  {
    if s == [] {
      assert SuffixBytes(s, 0, w) + tail == tail;
    } else {
      var front, last := s[..|s| - 1], s[|s| - 1];
      var record := SuffixRecord(last, |front|, w);
      BehindOwnHashes(front, n, w, record + tail);
      SuffixBytesPush(front, last, w);
      assert s == front + [last];
      Reassociate(SuffixBytes(front, 0, w), record, tail);
      if last.Some? {
        assert |last.value| == n;
        RecordThenTail(last.value, LittleEndian(|front|, w), tail);
      } else {
        assert record + tail == tail;
      }
    }
  }

  lemma SuffixBytesPush(front: seq<HashItem>, last: HashItem, w: nat)
    ensures SuffixBytes(front + [last], 0, w) == SuffixBytes(front, 0, w) + SuffixRecord(last, |front|, w)
  {
  }

  lemma RecordThenTail(h: Hash, index: seq<byte>, tail: seq<byte>)
    ensures (h + index + tail)[..|h|] == h && (h + index + tail)[|h| + |index|..] == tail
  {
  }

  /** A restart rebuilds the slots, gaps included, and the map, and no check fires, if and only
      if no hash had been repeated when a later batch brought a hash. */
  lemma {:induction false} ReloadsExactlyIfResumable(batches: Batches, capacity: nat, first: nat, n: nat)
    requires 1 <= capacity <= MAX_CAPACITY && |Flatten(batches)| <= capacity && HashesOf(Flatten(batches), n)
    ensures var d := DonutAfter(batches, capacity, first);
            var r := Hydrate(Some(d.order), Some(d.suffix), n, LocalPiBytes(capacity));
            && (r.Ok? <==> Resumable(batches))
            && (r.Ok? ==> r.value == Hydration(d.forward, d.reverse, NonGaps(d.forward), []))
  {
    var d, s, w := DonutAfter(batches, capacity, first), Flatten(batches), LocalPiBytes(capacity);
    AnyDonutIsOk(batches, capacity, first, n);
    var r := Hydrate(Some(d.order), Some(d.suffix), n, w);
    var h := Hydration(d.forward, d.reverse, NonGaps(d.forward), []);
    if r.Ok? {
      HydrationAcceptsExactlyWrittenFiles(d.order, d.suffix, n, w, r.value);
      OrderFileIsCanonicalExactly(batches, capacity, first, n, r.value.forward);
    }
    OrderFileIsCanonicalExactly(batches, capacity, first, n, []);
    BehindOwnHashes(s, n, w, []);
    assert d.suffix + [] == d.suffix;
    ReverseSize(s);
    HydrationAcceptsExactlyWrittenFiles(d.order, d.suffix, n, w, h);
  }

  /** The donut's order file is the one for its contents. */
  ghost predicate Legible(d: Donut) {
    d.order == OrderFile(d.forward)
  }

  /** The donut came about by appends. */
  ghost predicate Written(d: Donut) {
    exists batches :: d == DonutAfter(batches, d.capacity, d.first)
  }

  lemma {:induction false} NewIsWritten(capacity: nat, first: nat)
    ensures Written(NewDonut(capacity, first))
  {
    assert NewDonut(capacity, first) == DonutAfter([], capacity, first);
  }

  lemma {:induction false} AppendedIsWritten(d: Donut, batch: seq<HashItem>)
    requires Written(d)
    ensures Written(Appended(d, batch))
  {
    var batches :| d == DonutAfter(batches, d.capacity, d.first);
    var more := batches + [batch];
    assert more[..|more| - 1] == batches;
    assert Appended(d, batch) == DonutAfter(more, d.capacity, d.first);
  }

  lemma {:induction false} ContentsAfter(batches: Batches, capacity: nat, first: nat)
    ensures DonutAfter(batches, capacity, first).forward == Flatten(batches)
  {
    if batches != [] {
      ContentsAfter(batches[..|batches| - 1], capacity, first);
    }
  }

  /** Whatever its history, a donut reloads, and as it was, exactly if it is legible. */
  lemma {:induction false} ReloadsExactlyIfLegible(d: Donut, n: nat)
    requires DonutOk(d, n) && Written(d)
    ensures var r := Hydrate(Some(d.order), Some(d.suffix), n, LocalPiBytes(d.capacity));
            && (r.Ok? <==> Legible(d))
            && (r.Ok? ==> r.value == Hydration(d.forward, d.reverse, NonGaps(d.forward), []))
  {
    var batches :| d == DonutAfter(batches, d.capacity, d.first);
    ContentsAfter(batches, d.capacity, d.first);
    ReloadsExactlyIfResumable(batches, d.capacity, d.first, n);
    ReverseSize(d.forward);
    OrderFileIsCanonicalExactly(batches, d.capacity, d.first, n, d.forward);
  }

  // ---------------------------------------------------------------- chunking

  lemma {:induction false} ReproducibleIsResumable(batches: Batches)
    requires Reproducible(Flatten(batches))
    ensures Resumable(batches)
  {
    if batches != [] {
      var front, last := batches[..|batches| - 1], batches[|batches| - 1];
      ReproducibleParts(Flatten(front), last);
      ReproducibleIsResumable(front);
    }
  }

  lemma {:induction false} InOneGo(w: seq<HashItem>, capacity: nat, first: nat)
    ensures Flatten([w]) == w && DonutAfter([w], capacity, first) == Appended(NewDonut(capacity, first), w)
  {
    assert [w][..0] == [];
    assert Flatten([]) == [] && [] + w == w;
  }

  /** Reproducible contents: however they are cut, the donut and its bytes are the same. */
  lemma {:induction false} BytesDependOnContentsAlone(batches: Batches, w: seq<HashItem>, capacity: nat, first: nat,
      n: nat)
    requires 1 <= capacity <= MAX_CAPACITY && |w| <= capacity && HashesOf(w, n)
    requires Flatten(batches) == w && Reproducible(w)
    ensures DonutAfter(batches, capacity, first) == DonutAfter([w], capacity, first)
  {
    InOneGo(w, capacity, first);
    ReproducibleIsResumable(batches);
    ReproducibleIsResumable([w]);
    AnyDonutIsOk(batches, capacity, first, n);
    AnyDonutIsOk([w], capacity, first, n);
    OrderFileIsCanonicalExactly(batches, capacity, first, n, []);
    OrderFileIsCanonicalExactly([w], capacity, first, n, []);
  }

  /** Two batches with a repeat before the cut and a hash behind it show where the cut was. */
  lemma {:induction false} CutShows(a: seq<HashItem>, b: seq<HashItem>, capacity: nat, first: nat)
    requires |a| + |b| <= MAX_CAPACITY && !NoRepeats(a) && NonGaps(b) > 0
    ensures Appended(Appended(NewDonut(capacity, first), a), b) != Appended(NewDonut(capacity, first), a + b)
  {
    var d := NewDonut(capacity, first);
    assert d.reverse.Keys == {};
    NonGapsConcat(a, b);
    Pow2Words();
    ChunkingIsInvisibleExactlyWithoutRepeats(d, a, b);
  }

  /** Every way to cut the contents into batches leaves what appending them at once leaves. */
  ghost predicate CutsDoNotShow(w: seq<HashItem>, capacity: nat, first: nat) {
    forall batches: Batches :: Flatten(batches) == w ==>
      DonutAfter(batches, capacity, first) == DonutAfter([w], capacity, first)
  }

  lemma {:induction false} DifferenceShows(w: seq<HashItem>, batches: Batches, capacity: nat, first: nat)
    requires Flatten(batches) == w && DonutAfter(batches, capacity, first) != DonutAfter([w], capacity, first)
    ensures !CutsDoNotShow(w, capacity, first)
  {
  }

  lemma {:induction false} SomeCutShows(w: seq<HashItem>, a: seq<HashItem>, b: seq<HashItem>, capacity: nat, first: nat)
    requires w == a + b && |a| + |b| <= MAX_CAPACITY && !NoRepeats(a) && NonGaps(b) > 0
    ensures !CutsDoNotShow(w, capacity, first)
  {
    var twice, once := DonutAfter([a, b], capacity, first), DonutAfter([w], capacity, first);
    TwoBatches(a, b, capacity, first);
    CutShows(a, b, capacity, first);
    InOneGo(w, capacity, first);
    assert twice != once;
    DifferenceShows(w, [a, b], capacity, first);
  }

  /** Exactly which contents leave the same bytes however they are cut into batches. */
  lemma {:induction false} ChunkingIsInvisibleExactlyIfReproducible(w: seq<HashItem>, capacity: nat, first: nat, n: nat)
    requires 1 <= capacity <= MAX_CAPACITY && |w| <= capacity && HashesOf(w, n)
    ensures CutsDoNotShow(w, capacity, first) <==> Reproducible(w)
  {
    if Reproducible(w) {
      forall batches: Batches | Flatten(batches) == w
        ensures DonutAfter(batches, capacity, first) == DonutAfter([w], capacity, first)
      {
        BytesDependOnContentsAlone(batches, w, capacity, first, n);
      }
    } else {
      var cut :| 0 <= cut <= |w| && !(NoRepeats(w[..cut]) || NonGaps(w[cut..]) == 0);
      assert w == w[..cut] + w[cut..];
      SomeCutShows(w, w[..cut], w[cut..], capacity, first);
    }
  }

  lemma {:induction false} TwoBatches(a: seq<HashItem>, b: seq<HashItem>, capacity: nat, first: nat)
    ensures Flatten([a, b]) == a + b
    ensures DonutAfter([a, b], capacity, first) == Appended(Appended(NewDonut(capacity, first), a), b)
  {
    InOneGo(a, capacity, first);
    assert [a, b][..1] == [a];
  }

  /** Any repeated hash with another hash in a later batch: such a donut does not reload. */
  lemma {:induction false} RepeatDoesNotReload(h: Hash, g: Hash, capacity: nat, first: nat)
    requires |h| == |g| && 3 <= capacity <= MAX_CAPACITY
    ensures var d := Appended(Appended(NewDonut(capacity, first), [Some(h), Some(h)]), [Some(g)]);
            && Hydrate(Some(d.order), Some(d.suffix), |h|, LocalPiBytes(capacity)).Err?
            && !Legible(d)
  {
    var a: seq<HashItem>, b: seq<HashItem> := [Some(h), Some(h)], [Some(g)];
    TwoBatches(a, b, capacity, first);
    RepeatIsNotResumable(h, g, a, b, [a, b]);
    NotResumableIsIllegible([a, b], capacity, first, |h|);
  }

  lemma {:induction false} NotResumableIsIllegible(batches: Batches, capacity: nat, first: nat, n: nat)
    requires 1 <= capacity <= MAX_CAPACITY && |Flatten(batches)| <= capacity && HashesOf(Flatten(batches), n)
    requires !Resumable(batches)
    ensures var d := DonutAfter(batches, capacity, first);
            Hydrate(Some(d.order), Some(d.suffix), n, LocalPiBytes(capacity)).Err? && !Legible(d)
  {
    ReloadsExactlyIfResumable(batches, capacity, first, n);
    AnyDonutIsOk(batches, capacity, first, n);
    WrittenByBatches(batches, DonutAfter(batches, capacity, first));
    ReloadsExactlyIfLegible(DonutAfter(batches, capacity, first), n);
  }

  lemma {:induction false} WrittenByBatches(batches: Batches, d: Donut)
    requires d == DonutAfter(batches, d.capacity, d.first)
    ensures Written(d)
  {
  }

  lemma {:induction false} RepeatIsNotResumable(h: Hash, g: Hash, a: seq<HashItem>, b: seq<HashItem>, batches: Batches)
    requires a == [Some(h), Some(h)] && b == [Some(g)] && batches == [a, b]
    ensures !Resumable(batches)
  {
    assert b[..0] == [] && NonGaps(b) == 1;
    assert batches[..1] == [a] && [a][..0] == [] && [] + a == a;
    assert Flatten([a]) == a;
    assert a[0] == a[1] && !NoRepeats(a);
  }
}
