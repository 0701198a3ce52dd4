/** Rebuilding a donut from its two files
    (`apps/wedding_cake/include/ingester_evolver_types.hpp:195-290`). */
module DonutHydrations {
  import opened Wrappers
  import opened Bits
  import opened Bytes
  import opened PrefixSuffix
  import opened DonutEntries
  import opened DonutFiles

  /** What has been rebuilt, the next suffix index, and the unread end of the suffix file. */
  datatype Hydration = Hydration(forward: seq<HashItem>, reverse: Reverse, expected: nat, rest: seq<byte>)

  const NOTHING := Hydration([], map[], 0, [])

  /** One order record and, unless it is a gap, the next suffix record. */
  function AfterRecord(h: Hydration, record: seq<byte>, n: nat, w: nat): Result<Hydration, string>
    requires |record| == INDEX_BYTES
  {
    match ParseOrderEntry(record, 0, INDEX_BYTES)
    case Sentinel => Ok(h.(forward := h.forward + [None]))
    case Entry(prefix, index) =>
      if index != h.expected then Err("out-of-order suffix index")
      else if |h.rest| < n + w then Err("truncated HashEntries.bin record")
      else
        var hash := HashFromPrefixSuffix(prefix, ReadSuffixEntry(h.rest[..n + w], n, 0, w).suffix, n, 0);
        Ok(Hydration(h.forward + [Some(hash)], WithFirst(h.reverse, hash, |h.forward|), h.expected + 1,
            h.rest[n + w..]))
  }

  /** `std::map::insert` */
  function WithFirst(m: Reverse, h: Hash, i: nat): Reverse {
    if h in m then m else m[h := i]
  }

  /** The first `i` order records. */
  function AfterRecords(payload: seq<byte>, i: nat, suffix: seq<byte>, n: nat, w: nat): Result<Hydration, string>
    requires INDEX_BYTES * i <= |payload|
  {
    if i == 0 then Ok(Hydration([], map[], 0, suffix))
    else
      var before := AfterRecords(payload, i - 1, suffix, n, w);
      if before.Err? then before
      else AfterRecord(before.value, payload[INDEX_BYTES * (i - 1)..INDEX_BYTES * i], n, w)
  }

  /** The whole reload; a missing file stands for a donut without slots. */
  function Hydrate(order: Option<seq<byte>>, suffix: Option<seq<byte>>, n: nat, w: nat): Result<Hydration, string> {
    if order.None? || suffix.None? || order.value == [] then Ok(NOTHING)
    else if order.value[0] != INDEX_BYTES then Err("unexpected bytes_per_suffix_index header byte")
    else if (|order.value| - 1) % INDEX_BYTES != 0 then Err("HashesOrder.bin size misaligned with entry size")
    else AfterRecords(order.value[1..], (|order.value| - 1) / INDEX_BYTES, suffix.value, n, w)
  }

  // ---------------------------------------------------------------- which files are accepted

  /** The end of the suffix bytes behind the hashes of `s`, if they start with these
      hashes, each followed by `w` bytes. */
  function BehindHashes(suffix: seq<byte>, s: seq<HashItem>, n: nat, w: nat): Option<seq<byte>> {
    if s == [] then Some(suffix)
    else
      var last, r := s[|s| - 1], BehindHashes(suffix, s[..|s| - 1], n, w);
      if last.None? || r.None? then r
      else if |r.value| >= n + w && last.value == r.value[..n] then Some(r.value[n + w..])
      else None
  }

  /** `h` is what its contents and the suffix bytes determine. */
  ghost predicate Determined(h: Hydration, suffix: seq<byte>, n: nat, w: nat) {
    && h.reverse == ReverseOf(h.forward)
    && h.expected == NonGaps(h.forward)
    && BehindHashes(suffix, h.forward, n, w) == Some(h.rest)
  }

  /** Reading a slot: the record must be the one that would be written next. */
  lemma RecordAccepted(h: Hydration, item: HashItem, record: seq<byte>, n: nat, w: nat)
    requires |record| == INDEX_BYTES
    ensures AfterRecord(h, record, n, w).Ok? && AfterRecord(h, record, n, w).value.forward == h.forward + [item] <==>
            && record == OrderRecord(item, h.expected)
            && (item.Some? ==> h.expected < MAX_CAPACITY && |h.rest| >= n + w && item.value == h.rest[..n])
  {
    var next := AfterRecord(h, record, n, w);
    assert (h.forward + [item])[|h.forward|] == item;
    RecordParsed(record, h.expected);
    if next.Ok? {
      assert next.value.forward[|h.forward|] == if record == Ones(INDEX_BYTES) then None else Some(h.rest[..n]) by {
        if record != Ones(INDEX_BYTES) {
          WholeSuffix(h.rest, n, w);
        }
      }
    }
  }

  lemma {:induction false} RecordParsed(record: seq<byte>, k: nat)
    requires |record| == INDEX_BYTES
    ensures ParseOrderEntry(record, 0, INDEX_BYTES) == if record == Ones(INDEX_BYTES) then Sentinel
              else Entry([], Value(record))
    ensures record == LittleEndian(k, INDEX_BYTES) && k < MAX_CAPACITY <==>
            record != Ones(INDEX_BYTES) && Value(record) == k
  {
    assert record[..INDEX_BYTES] == record && record[0..INDEX_BYTES] == record;
    Pow2Words();
    ValueBound(record);
    ValueOnes(INDEX_BYTES);
    if k <= MAX_CAPACITY {
      LittleEndianRoundTrip(k, INDEX_BYTES);
      if Value(record) == k {
        ValueInjective(record, LittleEndian(k, INDEX_BYTES));
      }
      OnesAtTop(k, INDEX_BYTES);
    }
  }

  lemma WholeSuffix(rest: seq<byte>, n: nat, w: nat)
    requires |rest| >= n + w
    ensures HashFromPrefixSuffix([], ReadSuffixEntry(rest[..n + w], n, 0, w).suffix, n, 0) == rest[..n]
  {
  }

  lemma RecordKeepsDetermined(b: Hydration, item: HashItem, record: seq<byte>, suffix: seq<byte>, n: nat, w: nat,
      h: Hydration)
    requires |record| == INDEX_BYTES && Determined(b, suffix, n, w)
    requires AfterRecord(b, record, n, w) == Ok(h) && h.forward == b.forward + [item]
    ensures Determined(h, suffix, n, w)
  {
    ReversePush(b.forward, item);
    OrderBytesPush(b.forward, item, b.expected);
    BehindPush(suffix, b.forward, item, n, w, b.rest);
    RecordParsed(record, b.expected);
    assert h.forward[|b.forward|] == item;
    if item.Some? {
      WholeSuffix(b.rest, n, w);
    }
  }

  lemma ReversePush(front: seq<HashItem>, item: HashItem)
    ensures ReverseOf(front + [item]) ==
            if item.Some? then WithFirst(ReverseOf(front), item.value, |front|) else ReverseOf(front)
  {
    assert (front + [item])[..|front|] == front;
  }

  lemma {:induction false} BehindPush(suffix: seq<byte>, front: seq<HashItem>, item: HashItem, n: nat, w: nat,
      rest: seq<byte>)
    requires BehindHashes(suffix, front, n, w) == Some(rest)
    ensures BehindHashes(suffix, front + [item], n, w) ==
            if item.None? then Some(rest)
            else if |rest| >= n + w && item.value == rest[..n] then Some(rest[n + w..])
            else None
  {
    assert (front + [item])[..|front|] == front;
  }

  /** The first `i` records are accepted exactly if they are the records of the contents
      found, and the contents come out. */
  lemma {:induction false} RecordsAccepted(payload: seq<byte>, i: nat, suffix: seq<byte>, n: nat, w: nat, h: Hydration)
    requires INDEX_BYTES * i <= |payload|
    ensures AfterRecords(payload, i, suffix, n, w) == Ok(h) <==>
            && Determined(h, suffix, n, w) && |h.forward| == i && NonGaps(h.forward) <= MAX_CAPACITY
            && payload[..INDEX_BYTES * i] == OrderBytes(h.forward, 0)
    decreases i, 1
  {
    if i == 0 {
      assert Determined(Hydration([], map[], 0, suffix), suffix, n, w);
    } else if AfterRecords(payload, i, suffix, n, w) == Ok(h) {
      AcceptedIsWritten(payload, i, suffix, n, w, h);
    } else if |h.forward| == i {
      var front, item := h.forward[..i - 1], h.forward[i - 1];
      if Determined(h, suffix, n, w) && NonGaps(h.forward) <= MAX_CAPACITY
          && payload[..INDEX_BYTES * i] == OrderBytes(h.forward, 0) {
        WrittenIsAccepted(payload, i, suffix, n, w, h, front, item);
      }
    }
  }

  lemma {:induction false} AcceptedIsWritten(payload: seq<byte>, i: nat, suffix: seq<byte>, n: nat, w: nat,
      h: Hydration)
    requires 0 < i && INDEX_BYTES * i <= |payload| && AfterRecords(payload, i, suffix, n, w) == Ok(h)
    ensures Determined(h, suffix, n, w) && |h.forward| == i && NonGaps(h.forward) <= MAX_CAPACITY
    ensures payload[..INDEX_BYTES * i] == OrderBytes(h.forward, 0)
    decreases i, 0
  {
    var b := AfterRecords(payload, i - 1, suffix, n, w).value;
    var record := payload[INDEX_BYTES * (i - 1)..INDEX_BYTES * i];
    RecordsAccepted(payload, i - 1, suffix, n, w, b);
    var item := h.forward[|h.forward| - 1];
    NextRecordIsWritten(b, item, record, suffix, n, w, h, payload[..INDEX_BYTES * (i - 1)]);
    OneRecordMore(payload, INDEX_BYTES * (i - 1), INDEX_BYTES * i);
  }

  lemma OneRecordMore(payload: seq<byte>, from: nat, to: nat)
    requires from <= to <= |payload|
    ensures payload[..to] == payload[..from] + payload[from..to]
  {
  }

  lemma {:induction false} NextRecordIsWritten(
    b: Hydration, item: HashItem, record: seq<byte>, suffix: seq<byte>, n: nat, w: nat, h: Hydration, front: seq<byte>)
    requires |record| == INDEX_BYTES && Determined(b, suffix, n, w) && NonGaps(b.forward) <= MAX_CAPACITY
    requires AfterRecord(b, record, n, w) == Ok(h) && h.forward == b.forward + [item]
    requires front == OrderBytes(b.forward, 0)
    ensures Determined(h, suffix, n, w) && NonGaps(h.forward) <= MAX_CAPACITY
    ensures front + record == OrderBytes(h.forward, 0)
  {
    RecordAccepted(b, item, record, n, w);
    RecordKeepsDetermined(b, item, record, suffix, n, w, h);
    OrderBytesPush(b.forward, item, b.expected);
  }

  lemma OrderBytesPush(front: seq<HashItem>, item: HashItem, k: nat)
    requires k == NonGaps(front)
    ensures OrderBytes(front + [item], 0) == OrderBytes(front, 0) + OrderRecord(item, k)
    ensures NonGaps(front + [item]) == if item.Some? then k + 1 else k
  {
  }

  lemma {:induction false} WrittenIsAccepted(payload: seq<byte>, i: nat, suffix: seq<byte>, n: nat, w: nat,
      h: Hydration, front: seq<HashItem>, item: HashItem)
    requires 0 < i && INDEX_BYTES * i <= |payload| && Determined(h, suffix, n, w) && |h.forward| == i
    requires NonGaps(h.forward) <= MAX_CAPACITY && payload[..INDEX_BYTES * i] == OrderBytes(h.forward, 0)
    requires front == h.forward[..i - 1] && item == h.forward[i - 1]
    ensures AfterRecords(payload, i, suffix, n, w) == Ok(h)
    decreases i, 0
  {
    var b := Hydration(front, ReverseOf(front), NonGaps(front), BehindHashes(suffix, front, n, w).value);
    var record := payload[INDEX_BYTES * (i - 1)..INDEX_BYTES * i];
    OrderBytesSize(front, 0);
    var bytes := payload[..INDEX_BYTES * i];
    assert bytes[..INDEX_BYTES * (i - 1)] == payload[..INDEX_BYTES * (i - 1)]
        && bytes[INDEX_BYTES * (i - 1)..] == record;
    OrderBytesPush(front, item, b.expected);
    assert h.forward == front + [item];
    RecordsAccepted(payload, i - 1, suffix, n, w, b);
    RecordAccepted(b, item, record, n, w);
    assert h.forward == front + [item];
    RecordKeepsDetermined(b, item, record, suffix, n, w, AfterRecord(b, record, n, w).value);
  }

  lemma {:induction false} OrderBytesSize(s: seq<HashItem>, k: nat)
    ensures |OrderBytes(s, k)| == INDEX_BYTES * |s|
  {
    if s != [] {
      OrderBytesSize(s[..|s| - 1], k);
    }
  }

  /** Reloading accepts an order file exactly if it is the one written for the contents that
      come out, and the suffix file holds their hashes; the map is then rebuilt too. */
  lemma HydrationAcceptsExactlyWrittenFiles(order: seq<byte>, suffix: seq<byte>, n: nat, w: nat, h: Hydration)
    requires order != []
    ensures Hydrate(Some(order), Some(suffix), n, w) == Ok(h) <==>
            && Determined(h, suffix, n, w) && NonGaps(h.forward) <= MAX_CAPACITY
            && order == OrderFile(h.forward)
  {
    var i := (|order| - 1) / INDEX_BYTES;
    OrderFileIs(order, h.forward);
    if order[0] == INDEX_BYTES && |order| == 1 + INDEX_BYTES * i {
      assert Hydrate(Some(order), Some(suffix), n, w) == AfterRecords(order[1..], i, suffix, n, w);
      RecordsAccepted(order[1..], i, suffix, n, w, h);
      assert order[1..][..INDEX_BYTES * i] == order[1..];
    } else {
      assert Hydrate(Some(order), Some(suffix), n, w).Err?;
    }
  }

  lemma OrderFileIs(order: seq<byte>, s: seq<HashItem>)
    requires order != []
    ensures order == OrderFile(s) <==>
            order[0] == INDEX_BYTES && |order| == 1 + INDEX_BYTES * |s| && order[1..] == OrderBytes(s, 0)
  {
    OrderBytesSize(s, 0);
    assert order == [order[0]] + order[1..];
    assert OrderFile(s)[0] == INDEX_BYTES && OrderFile(s)[1..] == OrderBytes(s, 0);
  }

  /** Files that are missing, or an order file without its header, reload as a donut without slots,
      whatever the other file holds; any other header is refused. */
  lemma {:induction false} MissingFilesAreEmpty(order: Option<seq<byte>>, suffix: Option<seq<byte>>, n: nat, w: nat)
    ensures order.None? || suffix.None? || order.value == [] ==>
              var h := Hydrate(order, suffix, n, w);
              h.Ok? && h.value.forward == [] && h.value.reverse == map[]
    ensures order.Some? && suffix.Some? && order.value != [] && order.value[0] != 2 ==>
              Hydrate(order, suffix, n, w).Err?
  {
  }
}
