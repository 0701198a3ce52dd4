/** The contents of a donut and of its two files as functions of what was appended
    (`apps/wedding_cake/include/ingester_evolver_types.hpp`). */
module DonutFiles {
  import opened Wrappers
  import opened Bits
  import opened Bytes
  import opened DonutEntries

  /** Bytes per suffix index in `HashesOrder.bin`; also its header byte. */
  const INDEX_BYTES: nat := 2

  /** The largest donut whose indices fit the record buffers. */
  const MAX_CAPACITY: nat := 65535

  type Reverse = map<Hash, nat>

  datatype Donut = Donut(
    capacity: nat, first: nat, forward: seq<HashItem>, reverse: Reverse, order: seq<byte>, suffix: seq<byte>)

  /** Bytes per local index in the suffix file. */
  function LocalPiBytes(capacity: nat): nat {
    if capacity == 0 then 0 else BytesPerLocalPi(capacity).value
  }

  function NonGaps(s: seq<HashItem>): nat {
    if s == [] then 0 else NonGaps(s[..|s| - 1]) + if s[|s| - 1].Some? then 1 else 0
  }

  /** With no prefix bits an order record is the index alone, */
  function OrderRecord(item: HashItem, k: nat): (r: seq<byte>)
    ensures |r| == INDEX_BYTES
  {
    if item.None? then Ones(INDEX_BYTES) else LittleEndian(k, INDEX_BYTES)
  }

  /** and a suffix record holds the whole hash. */
  function SuffixRecord(item: HashItem, i: nat, w: nat): seq<byte> {
    if item.None? then [] else item.value + LittleEndian(i, w)
  }

  lemma RecordsWithoutPrefix(item: HashItem, k: nat, i: nat, w: nat)
    ensures OrderEntryBytes(item, k, 0, INDEX_BYTES) == OrderRecord(item, k)
    ensures SuffixEntryBytes(item, i, 0, w) == SuffixRecord(item, i, w)
  {
  }

  /** How one slot is written, given the number that goes with it. */
  type Encoder = (HashItem, nat) -> seq<byte>

  function SuffixEncoder(w: nat): Encoder {
    (item, i) => SuffixRecord(item, i, w)
  }

  /** Records numbered by the hashes written before, the first of them having number `k`. */
  function HashNumbered(enc: Encoder, s: seq<HashItem>, k: nat): seq<byte> {
    if s == [] then []
    else
      var front := s[..|s| - 1];
      HashNumbered(enc, front, k) + enc(s[|s| - 1], k + NonGaps(front))
  }

  /** Records numbered by the slots written before, the first of them having number `i`. */
  function SlotNumbered(enc: Encoder, s: seq<HashItem>, i: nat): seq<byte> {
    if s == [] then []
    else
      var front := s[..|s| - 1];
      SlotNumbered(enc, front, i) + enc(s[|s| - 1], i + |front|)
  }

  /** Order records of `s` when `k` hashes were written before. */
  function OrderBytes(s: seq<HashItem>, k: nat): seq<byte> {
    HashNumbered(OrderRecord, s, k)
  }

  /** Suffix records of `s` when its first slot has local index `i`. */
  function SuffixBytes(s: seq<HashItem>, i: nat, w: nat): seq<byte> {
    SlotNumbered(SuffixEncoder(w), s, i)
  }

  /** `std::map::insert` of every hash with its local index: the first one stays. */
  function InsertAll(m: Reverse, s: seq<HashItem>, i: nat): Reverse {
    if s == [] then m
    else
      var front, last := s[..|s| - 1], s[|s| - 1];
      var m' := InsertAll(m, front, i);
      if last.Some? && last.value !in m' then m'[last.value := i + |front|] else m'
  }

  function NewDonut(capacity: nat, first: nat): Donut {
    Donut(capacity, first, [], map[], [INDEX_BYTES], [])
  }

  function Appended(d: Donut, batch: seq<HashItem>): Donut {
    d.(forward := d.forward + batch,
       reverse := InsertAll(d.reverse, batch, |d.forward|),
       order := d.order + OrderBytes(batch, |d.reverse|),
       suffix := d.suffix + SuffixBytes(batch, |d.forward|, LocalPiBytes(d.capacity)))
  }

  /** The files of a donut as a function of its contents alone. */
  function OrderFile(s: seq<HashItem>): seq<byte> {
    [INDEX_BYTES] + OrderBytes(s, 0)
  }

  function SuffixFile(s: seq<HashItem>, capacity: nat): seq<byte> {
    SuffixBytes(s, 0, LocalPiBytes(capacity))
  }

  function ReverseOf(s: seq<HashItem>): Reverse {
    InsertAll(map[], s, 0)
  }

  /** No hash of `s` is known already or occurs twice. */
  ghost predicate Fresh(known: set<Hash>, s: seq<HashItem>) {
    && (forall i :: 0 <= i < |s| && s[i].Some? ==> s[i].value !in known)
    && (forall i, j :: 0 <= i < j < |s| && s[i].Some? && s[j].Some? ==> s[i] != s[j])
  }

  ghost predicate NoRepeats(s: seq<HashItem>) {
    Fresh({}, s)
  }

  /** Wherever the slots are cut, no hash is repeated before the cut, or none follows it. */
  ghost predicate Reproducible(s: seq<HashItem>) {
    forall cut :: 0 <= cut <= |s| ==> NoRepeats(s[..cut]) || NonGaps(s[cut..]) == 0
  }

  ghost predicate HashesOf(s: seq<HashItem>, n: nat) {
    forall i :: 0 <= i < |s| && s[i].Some? ==> |s[i].value| == n
  }

  // ---------------------------------------------------------------- appending in parts

  lemma {:induction false} NonGapsConcat(a: seq<HashItem>, b: seq<HashItem>)
    ensures NonGaps(a + b) == NonGaps(a) + NonGaps(b) <= |a| + |b|
    ensures NonGaps(a) <= |a|
  {
    if b == [] {
      assert a + b == a;
      if a != [] {
        NonGapsConcat(a[..|a| - 1], []);
      }
    } else {
      assert (a + b)[..|a + b| - 1] == a + b[..|b| - 1];
      NonGapsConcat(a, b[..|b| - 1]);
    }
  }

  lemma {:induction false} HashNumberedPush(enc: Encoder, s: seq<HashItem>, x: HashItem, k: nat, number: nat)
    requires number == k + NonGaps(s)
    ensures HashNumbered(enc, s + [x], k) == HashNumbered(enc, s, k) + enc(x, number)
  {
  }

  lemma LastOfTwo(a: seq<HashItem>, b: seq<HashItem>)
    requires b != []
    ensures var front, x := b[..|b| - 1], b[|b| - 1];
            a + b == (a + front) + [x] && b == front + [x]
  {
  }

  lemma {:induction false} HashNumberedConcat(enc: Encoder, a: seq<HashItem>, b: seq<HashItem>, k: nat, next: nat)
    requires next == k + NonGaps(a)
    ensures HashNumbered(enc, a + b, k) == HashNumbered(enc, a, k) + HashNumbered(enc, b, next)
  {
    if b == [] {
      assert a + b == a;
    } else {
      var front, x := b[..|b| - 1], b[|b| - 1];
      var number := next + NonGaps(front);
      NonGapsConcat(a, front);
      HashNumberedConcat(enc, a, front, k, next);
      HashNumberedPush(enc, front, x, next, number);
      HashNumberedPush(enc, a + front, x, k, number);
      LastOfTwo(a, b);
    }
  }

  lemma {:induction false} SlotNumberedConcat(enc: Encoder, a: seq<HashItem>, b: seq<HashItem>, i: nat)
    ensures SlotNumbered(enc, a + b, i) == SlotNumbered(enc, a, i) + SlotNumbered(enc, b, i + |a|)
  {
    if b == [] {
      assert a + b == a;
    } else {
      var front := b[..|b| - 1];
      assert (a + b)[..|a + b| - 1] == a + front;
      SlotNumberedConcat(enc, a, front, i);
    }
  }

  lemma {:induction false} OrderBytesConcat(a: seq<HashItem>, b: seq<HashItem>, k: nat, next: nat)
    requires next == k + NonGaps(a)
    ensures OrderBytes(a + b, k) == OrderBytes(a, k) + OrderBytes(b, next)
  {
    HashNumberedConcat(OrderRecord, a, b, k, next);
  }

  lemma SuffixBytesConcat(a: seq<HashItem>, b: seq<HashItem>, i: nat, w: nat)
    ensures SuffixBytes(a + b, i, w) == SuffixBytes(a, i, w) + SuffixBytes(b, i + |a|, w)
  {
    SlotNumberedConcat(SuffixEncoder(w), a, b, i);
  }

  lemma {:induction false} InsertAllConcat(m: Reverse, a: seq<HashItem>, b: seq<HashItem>, i: nat)
    ensures InsertAll(m, a + b, i) == InsertAll(InsertAll(m, a, i), b, i + |a|)
  {
    if b == [] {
      assert a + b == a;
    } else {
      var front := b[..|b| - 1];
      assert (a + b)[..|a + b| - 1] == a + front;
      InsertAllConcat(m, a, front, i);
    }
  }

  /** The map holds the known hashes and those of `s`, and every index of a new hash
      points at it. */
  lemma {:induction false} InsertAllMeaning(m: Reverse, s: seq<HashItem>, i: nat, h: Hash)
    ensures var r := InsertAll(m, s, i);
            && (h in r <==> h in m || Some(h) in s)
            && (h in m ==> r[h] == m[h])
            && (h in r && h !in m ==> i <= r[h] < i + |s| && s[r[h] - i] == Some(h))
  {
    if s != [] {
      var front := s[..|s| - 1];
      InsertAllMeaning(m, front, i, h);
      assert s == front + [s[|s| - 1]];
    }
  }

  lemma FreshPush(known: set<Hash>, s: seq<HashItem>)
    requires s != []
    ensures var front, last := s[..|s| - 1], s[|s| - 1];
            Fresh(known, s) <==> Fresh(known, front) && (last.Some? ==> last.value !in known && last !in front)
  {
  }

  /** The map grows by one per hash exactly if no hash is repeated. */
  lemma {:induction false} InsertAllSize(m: Reverse, s: seq<HashItem>, i: nat)
    ensures |m| <= |InsertAll(m, s, i)| <= |m| + NonGaps(s)
    ensures |InsertAll(m, s, i)| == |m| + NonGaps(s) <==> Fresh(m.Keys, s)
  {
    if s != [] {
      var front, last := s[..|s| - 1], s[|s| - 1];
      InsertAllSize(m, front, i);
      FreshPush(m.Keys, s);
      if last.Some? {
        InsertAllMeaning(m, front, i, last.value);
      }
    }
  }

  /** Records of a fixed size that tell the numbers of hashes below a bound apart. */
  ghost predicate Telling(enc: Encoder, size: nat, bound: nat) {
    && (forall item: HashItem, i: nat :: |enc(item, i)| == size)
    && (forall item: HashItem, i: nat, j: nat :: item.None? ==> enc(item, i) == enc(item, j))
    && (forall item: HashItem, i: nat, j: nat ::
          item.Some? && i < bound && j < bound && enc(item, i) == enc(item, j) ==> i == j)
  }

  /** The number at which a batch starts shows in its bytes if it holds a hash. */
  lemma {:induction false} NumbersTell(enc: Encoder, size: nat, bound: nat, s: seq<HashItem>, k: nat, k': nat)
    requires Telling(enc, size, bound) && k + NonGaps(s) <= bound && k' + NonGaps(s) <= bound
    ensures |HashNumbered(enc, s, k)| == |HashNumbered(enc, s, k')|
    ensures HashNumbered(enc, s, k) == HashNumbered(enc, s, k') <==> NonGaps(s) == 0 || k == k'
  {
    if s != [] {
      var front, last := s[..|s| - 1], s[|s| - 1];
      NumbersTell(enc, size, bound, front, k, k');
      ConcatInjective(HashNumbered(enc, front, k), enc(last, k + NonGaps(front)),
                      HashNumbered(enc, front, k'), enc(last, k' + NonGaps(front)));
    }
  }

  lemma OrderRecordsTell()
    ensures Telling(OrderRecord, INDEX_BYTES, Pow2(16))
  {
    forall item: HashItem, i: nat, j: nat | item.Some? && i < Pow2(16) && j < Pow2(16)
        && OrderRecord(item, i) == OrderRecord(item, j)
      ensures i == j
    {
      RecordTellsIndex(item, i, j);
    }
  }

  lemma ConcatInjective(a: seq<byte>, x: seq<byte>, b: seq<byte>, y: seq<byte>)
    requires |a| == |b|
    ensures a + x == b + y <==> a == b && x == y
  {
    if a + x == b + y {
      assert a == (a + x)[..|a|] && b == (b + y)[..|b|];
      assert x == (a + x)[|a|..] && y == (b + y)[|b|..];
    }
  }

  lemma RecordTellsIndex(item: HashItem, i: nat, j: nat)
    requires item.Some? && i < Pow2(16) && j < Pow2(16)
    ensures OrderRecord(item, i) == OrderRecord(item, j) <==> i == j
  {
    LittleEndianRoundTrip(i, INDEX_BYTES);
    LittleEndianRoundTrip(j, INDEX_BYTES);
  }

  /** Appending `a` and then `b` leaves the same donut and the same bytes as appending both
      at once, if and only if `a` repeats no hash or `b` holds none: the next suffix index
      is taken from the size of the map, which repeats do not increase. */
  lemma {:induction false} ChunkingIsInvisibleExactlyWithoutRepeats(d: Donut, a: seq<HashItem>, b: seq<HashItem>)
    requires |d.reverse| + NonGaps(a) + NonGaps(b) <= Pow2(16)
    ensures Appended(Appended(d, a), b) == Appended(d, a + b) <==> Fresh(d.reverse.Keys, a) || NonGaps(b) == 0
  {
    var twice, once := Appended(Appended(d, a), b), Appended(d, a + b);
    var known, front := InsertAll(d.reverse, a, |d.forward|), d.order + OrderBytes(a, |d.reverse|);
    InsertAllSize(d.reverse, a, |d.forward|);
    var k := |d.reverse| + NonGaps(a);
    OneAppend(d, a, b, once, k);
    TwoAppends(d, a, b, twice);
    OrdersAgree(twice, once, front, b, |known|, k);
  }

  lemma {:induction false} OrdersAgree(twice: Donut, once: Donut, front: seq<byte>, b: seq<HashItem>, k: nat, k': nat)
    requires twice == once.(order := twice.order)
    requires twice.order == front + OrderBytes(b, k) && once.order == front + OrderBytes(b, k')
    requires k + NonGaps(b) <= Pow2(16) && k' + NonGaps(b) <= Pow2(16)
    ensures twice == once <==> NonGaps(b) == 0 || k == k'
  {
    NumbersShow(front, b, k, k');
  }

  lemma {:induction false} NumbersShow(front: seq<byte>, b: seq<HashItem>, k: nat, k': nat)
    requires k + NonGaps(b) <= Pow2(16) && k' + NonGaps(b) <= Pow2(16)
    ensures front + OrderBytes(b, k) == front + OrderBytes(b, k') <==> NonGaps(b) == 0 || k == k'
  {
    OrderRecordsTell();
    NumbersTell(OrderRecord, INDEX_BYTES, Pow2(16), b, k, k');
    ConcatInjective(front, OrderBytes(b, k), front, OrderBytes(b, k'));
  }

  /** What appending at once, and what appending in two parts writes. */
  lemma {:induction false} OneAppend(d: Donut, a: seq<HashItem>, b: seq<HashItem>, once: Donut, k: nat)
    requires once == Appended(d, a + b) && k == |d.reverse| + NonGaps(a)
    ensures var w := LocalPiBytes(d.capacity);
            && once.capacity == d.capacity && once.first == d.first
            && once.forward == d.forward + (a + b)
            && once.reverse == InsertAll(InsertAll(d.reverse, a, |d.forward|), b, |d.forward| + |a|)
            && once.order == d.order + OrderBytes(a, |d.reverse|) + OrderBytes(b, k)
            && once.suffix == d.suffix + SuffixBytes(a, |d.forward|, w) + SuffixBytes(b, |d.forward| + |a|, w)
  {
    var w := LocalPiBytes(d.capacity);
    OrderBytesConcat(a, b, |d.reverse|, k);
    SuffixBytesConcat(a, b, |d.forward|, w);
    InsertAllConcat(d.reverse, a, b, |d.forward|);
    Reassociate(d.order, OrderBytes(a, |d.reverse|), OrderBytes(b, k));
    Reassociate(d.suffix, SuffixBytes(a, |d.forward|, w), SuffixBytes(b, |d.forward| + |a|, w));
  }

  lemma {:induction false} TwoAppends(d: Donut, a: seq<HashItem>, b: seq<HashItem>, twice: Donut)
    requires twice == Appended(Appended(d, a), b)
    ensures var known, w := InsertAll(d.reverse, a, |d.forward|), LocalPiBytes(d.capacity);
            && twice.capacity == d.capacity && twice.first == d.first
            && twice.forward == d.forward + (a + b)
            && twice.reverse == InsertAll(known, b, |d.forward| + |a|)
            && twice.order == d.order + OrderBytes(a, |d.reverse|) + OrderBytes(b, |known|)
            && twice.suffix == d.suffix + SuffixBytes(a, |d.forward|, w) + SuffixBytes(b, |d.forward| + |a|, w)
  {
  }

  /** The smallest disagreement: a repeated hash, then another one. */
  lemma ChunkingCanShow()
    ensures var h, g := [1, 1], [2, 2];
            var d := NewDonut(4, 0);
            Appended(Appended(d, [Some(h), Some(h)]), [Some(g)]) != Appended(d, [Some(h), Some(h)] + [Some(g)])
  {
    var h, g := [1, 1], [2, 2];
    var a: seq<HashItem>, b: seq<HashItem> := [Some(h), Some(h)], [Some(g)];
    assert NonGaps(b[..0]) == 0 && NonGaps(b) == 1;
    assert a[0] == a[1] && !Fresh({}, a);
    NonGapsConcat(a, b);
    Pow2Words();
    ChunkingIsInvisibleExactlyWithoutRepeats(NewDonut(4, 0), a, b);
  }

  // ---------------------------------------------------------------- what every donut keeps

  /** The contents determine everything but the order file, and if reproducible that too. */
  ghost predicate DonutOk(d: Donut, n: nat) {
    && 1 <= d.capacity <= MAX_CAPACITY
    && |d.forward| <= d.capacity
    && HashesOf(d.forward, n)
    && d.reverse == ReverseOf(d.forward)
    && d.suffix == SuffixFile(d.forward, d.capacity)
    && (Reproducible(d.forward) ==> d.order == OrderFile(d.forward))
  }

  lemma NewDonutOk(capacity: nat, first: nat, n: nat)
    requires 1 <= capacity <= MAX_CAPACITY
    ensures DonutOk(NewDonut(capacity, first), n)
  {
  }

  lemma NoRepeatsInFront(a: seq<HashItem>, b: seq<HashItem>)
    requires NoRepeats(a + b)
    ensures NoRepeats(a)
  {
    forall i, j | 0 <= i < j < |a| && a[i].Some? && a[j].Some?
      ensures a[i] != a[j]
    {
      assert a[i] == (a + b)[i] && a[j] == (a + b)[j];
    }
  }

  lemma {:induction false} NoRepeatsIsReproducible(s: seq<HashItem>)
    requires NoRepeats(s)
    ensures Reproducible(s)
  {
    forall cut | 0 <= cut <= |s|
      ensures NoRepeats(s[..cut])
    {
      assert s == s[..cut] + s[cut..];
      NoRepeatsInFront(s[..cut], s[cut..]);
    }
  }

  /** A cut at the end of a front part, and every cut before it. */
  lemma {:induction false} ReproducibleParts(a: seq<HashItem>, b: seq<HashItem>)
    requires Reproducible(a + b)
    ensures Reproducible(a) && (NoRepeats(a) || NonGaps(b) == 0)
  {
    var s := a + b;
    assert s[..|a|] == a && s[|a|..] == b;
    forall cut | 0 <= cut <= |a|
      ensures NoRepeats(a[..cut]) || NonGaps(a[cut..]) == 0
    {
      assert s[..cut] == a[..cut] && s[cut..] == a[cut..] + b;
      NonGapsConcat(a[cut..], b);
    }
  }

  /** The map has at most one entry per hash, and exactly one without repeats. */
  lemma {:induction false} ReverseSize(s: seq<HashItem>)
    ensures |ReverseOf(s)| <= NonGaps(s) <= |s|
    ensures |ReverseOf(s)| == NonGaps(s) <==> NoRepeats(s)
  {
    var none: Reverse := map[];
    assert none.Keys == {};
    InsertAllSize(none, s, 0);
    NonGapsConcat(s, []);
  }

  lemma AppendedOrder(f: seq<HashItem>, batch: seq<HashItem>, k: nat)
    requires k == NonGaps(f)
    ensures OrderFile(f) + OrderBytes(batch, k) == OrderFile(f + batch)
  {
    OrderBytesConcat(f, batch, 0, k);
    Reassociate([INDEX_BYTES], OrderBytes(f, 0), OrderBytes(batch, k));
  }

  lemma {:induction false} LastBatchContinues(order: seq<byte>, f: seq<HashItem>, last: seq<HashItem>, k: nat)
    requires order == OrderFile(f) && k <= NonGaps(f) && NonGaps(f) + NonGaps(last) <= MAX_CAPACITY
    requires NonGaps(last) == 0 || k == NonGaps(f)
    ensures order + OrderBytes(last, k) == OrderFile(f + last)
  {
    var number := NonGaps(f);
    Pow2Words();
    OrderRecordsTell();
    NumbersTell(OrderRecord, INDEX_BYTES, Pow2(16), last, k, number);
    AppendedOrder(f, last, number);
  }

  lemma AppendedIsOk(d: Donut, batch: seq<HashItem>, n: nat)
    requires DonutOk(d, n) && |d.forward| + |batch| <= d.capacity && HashesOf(batch, n)
    ensures DonutOk(Appended(d, batch), n)
  {
    AppendedMemory(d.forward, batch, d.capacity);
    if Reproducible(d.forward + batch) {
      ReproducibleParts(d.forward, batch);
      AppendedIsCanonical(d.order, d.forward, batch, |d.reverse|);
    }
  }

  lemma {:induction false} AppendedMemory(f: seq<HashItem>, batch: seq<HashItem>, capacity: nat)
    ensures InsertAll(ReverseOf(f), batch, |f|) == ReverseOf(f + batch)
    ensures SuffixFile(f, capacity) + SuffixBytes(batch, |f|, LocalPiBytes(capacity)) == SuffixFile(f + batch, capacity)
  {
    InsertAllConcat(map[], f, batch, 0);
    SuffixBytesConcat(f, batch, 0, LocalPiBytes(capacity));
  }

  lemma {:induction false} AppendedIsCanonical(order: seq<byte>, f: seq<HashItem>, batch: seq<HashItem>, k: nat)
    requires order == OrderFile(f) && k == |ReverseOf(f)| && |f| + |batch| <= MAX_CAPACITY
    requires NoRepeats(f) || NonGaps(batch) == 0
    ensures order + OrderBytes(batch, k) == OrderFile(f + batch)
  {
    ReverseSize(f);
    NonGapsConcat(batch, []);
    LastBatchContinues(order, f, batch, k);
  }

  // ---------------------------------------------------------------- the files, record by record

  /** The width of an index is the one that the capacity just needs. */
  lemma {:induction false} WidthOfIndex(capacity: nat, w: nat)
    requires w > 0 && Pow2(8 * (w - 1)) <= capacity < Pow2(8 * w)
    ensures LocalPiBytes(capacity) == w
  {
    WidthIsLeast(capacity, w);
    WidthIsLeast(capacity, w - 1);
  }

  lemma {:induction false} SuffixSize(s: seq<HashItem>, i: nat, n: nat, w: nat)
    requires HashesOf(s, n)
    ensures |SuffixBytes(s, i, w)| == NonGaps(s) * (n + w)
  {
    if s != [] {
      var front, x := s[..|s| - 1], s[|s| - 1];
      SuffixSize(front, i, n, w);
      OneRecordMore(NonGaps(front), n + w);
    }
  }

  lemma OneRecordMore(k: nat, size: nat)
    ensures (k + 1) * size == k * size + size
  {
  }

  /** What stands before and behind a slot. */
  lemma SlotInside(s: seq<HashItem>, j: nat)
    requires j < |s|
    ensures s == s[..j] + ([s[j]] + s[j + 1..])
  {
  }

  lemma BytesInside(a: seq<byte>, b: seq<byte>, c: seq<byte>)
    ensures (a + (b + c))[|a|..|a| + |b|] == b
  {
  }

  /** The record of a hash stands behind those of the hashes before it. */
  lemma {:induction false} SuffixRecordAt(s: seq<HashItem>, n: nat, w: nat, j: nat, o: nat)
    requires HashesOf(s, n) && j < |s| && s[j].Some? && o == NonGaps(s[..j]) * (n + w)
    ensures o + (n + w) <= |SuffixBytes(s, 0, w)| && SuffixBytes(s, 0, w)[o..o + (n + w)] == SuffixRecord(s[j], j, w)
  {
    var rest := SuffixBytes(s[j + 1..], j + 1, w);
    SuffixParts(s, w, j);
    SuffixSize(s[..j], 0, n, w);
    BytesInside(SuffixBytes(s[..j], 0, w), SuffixRecord(s[j], j, w), rest);
  }

  lemma {:induction false} SuffixParts(s: seq<HashItem>, w: nat, j: nat)
    requires j < |s|
    ensures SuffixBytes(s, 0, w) ==
            SuffixBytes(s[..j], 0, w) + (SuffixRecord(s[j], j, w) + SuffixBytes(s[j + 1..], j + 1, w))
  {
    SlotInside(s, j);
    SuffixBytesConcat(s[..j], [s[j]] + s[j + 1..], 0, w);
    SuffixBytesConcat([s[j]], s[j + 1..], j, w);
    OneSuffixRecord(s[j], j, w);
  }

  lemma {:induction false} OneSuffixRecord(item: HashItem, j: nat, w: nat)
    ensures SuffixBytes([item], j, w) == SuffixRecord(item, j, w)
  {
    assert [item][..0] == [] && SlotNumbered(SuffixEncoder(w), [], j) == [];
    assert [] + SuffixRecord(item, j, w) == SuffixRecord(item, j, w);
  }

  /** Where the record of slot `j` starts. */
  function RecordStart(s: seq<HashItem>, j: nat, size: nat): nat
    requires j <= |s|
  {
    NonGaps(s[..j]) * size
  }

  /** The bytes there read back as the hash of slot `j` and its index. */
  ghost predicate SlotReadsBack(suffix: seq<byte>, s: seq<HashItem>, j: nat, o: nat, n: nat, w: nat)
    requires j < |s| && s[j].Some?
  {
    o + (n + w) <= |suffix| && ReadSuffixEntry(suffix[o..o + (n + w)], n, 0, w) == SuffixEntry(s[j].value, j)
  }

  /** After any appends the suffix file has one record per hash, of the hash and an index of as many
      bytes as the capacity needs, and each record reads back as the hash and its slot. */
  lemma {:induction false} SuffixFileReadsBack(d: Donut, n: nat, w: nat)
    requires DonutOk(d, n) && w > 0 && Pow2(8 * (w - 1)) <= d.capacity < Pow2(8 * w)
    ensures |d.suffix| == NonGaps(d.forward) * (n + w)
    ensures forall j :: 0 <= j < |d.forward| && d.forward[j].Some? ==>
              SlotReadsBack(d.suffix, d.forward, j, RecordStart(d.forward, j, n + w), n, w)
  {
    WidthOfIndex(d.capacity, w);
    SuffixSize(d.forward, 0, n, w);
    forall j | 0 <= j < |d.forward| && d.forward[j].Some?
      ensures SlotReadsBack(d.suffix, d.forward, j, RecordStart(d.forward, j, n + w), n, w)
    {
      SlotIsReadBack(d.suffix, d.forward, j, RecordStart(d.forward, j, n + w), n, w);
    }
  }

  lemma {:induction false} SlotIsReadBack(suffix: seq<byte>, s: seq<HashItem>, j: nat, o: nat, n: nat, w: nat)
    requires suffix == SuffixBytes(s, 0, w) && HashesOf(s, n) && j < |s| && s[j].Some? && j < Pow2(8 * w)
    requires o == RecordStart(s, j, n + w)
    ensures SlotReadsBack(suffix, s, j, o, n, w)
  {
    SuffixRecordAt(s, n, w, j, o);
    SuffixRecordReadsBack(s[j].value, j, n, w);
  }

  lemma {:induction false} SuffixRecordReadsBack(h: Hash, j: nat, n: nat, w: nat)
    requires |h| == n && j < Pow2(8 * w)
    ensures ReadSuffixEntry(SuffixRecord(Some(h), j, w), n, 0, w) == SuffixEntry(h, j)
  {
    assert (h + LittleEndian(j, w))[..n] == h && (h + LittleEndian(j, w))[n..n + w] == LittleEndian(j, w);
    LittleEndianRoundTrip(j, w);
  }

  lemma {:induction false} OrderSize(s: seq<HashItem>, k: nat)
    ensures |OrderBytes(s, k)| == 2 * |s|
  {
    if s != [] {
      OrderSize(s[..|s| - 1], k);
    }
  }

  /** The order file of some contents: a header byte that tells the width of an index, and one index
      per slot, the number of hashes before it, or all ones for a gap. */
  lemma {:induction false} OrderFileReadsBack(s: seq<HashItem>, j: nat)
    requires j < |s| && NonGaps(s) <= MAX_CAPACITY
    ensures |OrderFile(s)| == 1 + 2 * |s| && OrderFile(s)[0] == 2
    ensures ParseOrderEntry(OrderFile(s)[1 + 2 * j..3 + 2 * j], 0, 2) ==
            if s[j].Some? then Entry([], NonGaps(s[..j])) else Sentinel
  {
    var before, behind := OrderRecordInside(s, j, NonGaps(s[..j]));
    BytesInside(before, OrderRecord(s[j], NonGaps(s[..j])), behind);
    NonGapsBefore(s, j);
    OrderRecordReadsBack(s[j], NonGaps(s[..j]));
  }

  lemma {:induction false} NonGapsBefore(s: seq<HashItem>, j: nat)
    requires j < |s|
    ensures NonGaps(s[..j]) + (if s[j].Some? then 1 else 0) <= NonGaps(s)
  {
    SlotInside(s, j);
    NonGapsConcat(s[..j], [s[j]] + s[j + 1..]);
    NonGapsConcat([s[j]], s[j + 1..]);
    OneNonGap(s[j]);
  }

  /** What stands before and behind the record of a slot. */
  lemma {:induction false} OrderRecordInside(s: seq<HashItem>, j: nat, k: nat)
    returns (before: seq<byte>, behind: seq<byte>)
    requires j < |s| && k == NonGaps(s[..j])
    ensures OrderFile(s) == before + (OrderRecord(s[j], k) + behind) && |before| == 1 + 2 * j
    ensures |OrderFile(s)| == 1 + 2 * |s| && OrderFile(s)[0] == 2
  {
    var front, rest := s[..j], s[j + 1..];
    var next := k + NonGaps([s[j]]);
    OrderSize(s, 0);
    OrderSize(front, 0);
    SlotInside(s, j);
    OrderBytesConcat(front, [s[j]] + rest, 0, k);
    OrderBytesConcat([s[j]], rest, k, next);
    OneOrderRecord(s[j], k);
    before, behind := [INDEX_BYTES] + OrderBytes(front, 0), OrderBytes(rest, next);
    Reassociate([INDEX_BYTES], OrderBytes(front, 0), OrderRecord(s[j], k) + behind);
  }

  lemma {:induction false} OneNonGap(item: HashItem)
    ensures NonGaps([item]) == if item.Some? then 1 else 0
  {
    assert [item][..0] == [];
  }

  lemma {:induction false} OneOrderRecord(item: HashItem, k: nat)
    ensures OrderBytes([item], k) == OrderRecord(item, k)
  {
    assert [item][..0] == [] && HashNumbered(OrderRecord, [], k) == [] && NonGaps([]) == 0;
    assert [] + OrderRecord(item, k) == OrderRecord(item, k);
  }

  lemma {:induction false} OrderRecordReadsBack(item: HashItem, k: nat)
    requires item.Some? ==> k < MAX_CAPACITY
    ensures ParseOrderEntry(OrderRecord(item, k), 0, 2) == if item.Some? then Entry([], k) else Sentinel
  {
    var record := OrderRecord(item, k);
    assert record[..2] == record && record[0..2] == record && record[..0] == [];
    if item.Some? {
      Pow2Words();
      LittleEndianRoundTrip(k, 2);
      OnesAtTop(k, 2);
    }
  }

  // ---------------------------------------------------------------- where a hash stands

  /** `i` is the last, and the first, place of `h` between two places. */
  ghost predicate LastPlace(s: seq<HashItem>, lo: nat, hi: nat, h: Hash, i: nat) {
    hi <= |s| && lo <= i < hi && s[i] == Some(h) && forall j :: i < j < hi ==> s[j] != Some(h)
  }

  ghost predicate FirstPlace(s: seq<HashItem>, lo: nat, hi: nat, h: Hash, i: nat) {
    hi <= |s| && lo <= i < hi && s[i] == Some(h) && forall j :: lo <= j < i ==> s[j] != Some(h)
  }

  ghost predicate Absent(s: seq<HashItem>, lo: nat, hi: nat, h: Hash) {
    hi <= |s| && forall j :: lo <= j < hi ==> s[j] != Some(h)
  }

  /** A reverse lookup in a stretch of the stream: the first place, or absence. */
  ghost predicate FirstOrAbsent(s: seq<HashItem>, lo: nat, hi: nat, h: Hash, pi: Option<nat>) {
    match pi
    case Some(i) => FirstPlace(s, lo, hi, h, i)
    case None => Absent(s, lo, hi, h)
  }

  lemma {:induction false} ReverseMeaning(s: seq<HashItem>, h: Hash)
    ensures var m := ReverseOf(s);
            FirstOrAbsent(s, 0, |s|, h, if h in m then Some(m[h]) else None)
  {
    if s != [] {
      ReverseMeaning(s[..|s| - 1], h);
    }
  }

  /** What holds of a part of the stream holds of the stream at the part's place. */
  lemma FirstInPart(s: seq<HashItem>, lo: nat, part: seq<HashItem>, h: Hash, pi: Option<nat>)
    requires lo + |part| <= |s| && s[lo..lo + |part|] == part && FirstOrAbsent(part, 0, |part|, h, pi)
    ensures FirstOrAbsent(s, lo, lo + |part|, h, if pi.Some? then Some(lo + pi.value) else None)
  {
    forall j | lo <= j < lo + |part|
      ensures s[j] == part[j - lo]
    {
      assert s[lo..lo + |part|][j - lo] == s[j];
    }
  }
}
