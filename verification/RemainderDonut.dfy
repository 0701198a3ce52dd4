/** `Ingester_ST00_RemainderDonut` (`apps/wedding_cake/include/ingester_evolver_types.hpp`):
    the donut that is being filled, in memory and on disk. */
module RemainderDonuts {
  import opened Wrappers
  import opened Bits
  import opened Bytes
  import opened PrefixSuffix
  import opened DonutEntries
  import opened DonutFiles
  import opened DonutHydrations

  class RemainderDonut {
    const capacity: nat
    const first: nat
    /** Bytes per hash. */
    const n: nat
    var forward: seq<HashItem>
    var reverse: Reverse
    /** The two files; `None` for one that does not exist. */
    var order: Option<seq<byte>>
    var suffix: Option<seq<byte>>
    var isOpen: bool
    var isSealed: bool

    ghost predicate Valid()
      reads this
    {
      && 1 <= capacity <= MAX_CAPACITY
      && |reverse| <= |forward| <= capacity
      && (isOpen ==> order.Some? && suffix.Some?)
    }

    function Value(): Donut
      reads this
      requires order.Some? && suffix.Some?
    {
      Donut(capacity, first, forward, reverse, order.value, suffix.value)
    }

    /** A folder that did not exist: two new files, the first with its header byte. */
    constructor CreateNew(capacity: nat, first: nat, n: nat)
      requires 1 <= capacity <= MAX_CAPACITY
      ensures Valid() && isOpen && !isSealed && Value() == NewDonut(capacity, first) && this.n == n
    {
      this.capacity, this.first, this.n := capacity, first, n;
      forward, reverse := [], map[];
      order, suffix := Some([INDEX_BYTES]), Some([]);
      isOpen, isSealed := true, false;
    }

    /** A folder that existed: its files are there, but are not opened again. */
    constructor Existing(capacity: nat, first: nat, n: nat, order: Option<seq<byte>>, suffix: Option<seq<byte>>)
      requires 1 <= capacity <= MAX_CAPACITY
      ensures Valid() && !isOpen && !isSealed && forward == [] && reverse == map[]
      ensures this.capacity == capacity && this.first == first && this.n == n
      ensures this.order == order && this.suffix == suffix
    {
      this.capacity, this.first, this.n := capacity, first, n;
      forward, reverse := [], map[];
      this.order, this.suffix := order, suffix;
      isOpen, isSealed := false, false;
    }

    function RemainingCapacity(): int
      reads this
    {
      capacity - |forward|
    }

    function NextOffset(): nat
      reads this
    {
      first + |forward|
    }

    /** One slot: its suffix record unless it is a gap, then its order record. */
    method WriteSlot(item: HashItem, i: nat, k: nat, suffixBuffer: array<byte>, orderBuffer: array<byte>)
      requires isOpen && Valid() && (item.Some? ==> |item.value| == n) && k < MAX_CAPACITY
      requires suffixBuffer.Length >= n + LocalPiBytes(capacity) && orderBuffer.Length >= INDEX_BYTES
      requires suffixBuffer != orderBuffer
      modifies this`order, this`suffix, suffixBuffer, orderBuffer
      ensures order == Some(old(order.value) + OrderRecord(item, k))
      ensures suffix == Some(old(suffix.value) + SuffixRecord(item, i, LocalPiBytes(capacity)))
    {
      var w := LocalPiBytes(capacity);
      var recorded := if item.Some? then k else Pow2(64) - 1;
      SlotRecords(item, i, k, recorded, first, w);
      var count := WriteSuffixesFileEntry(item, first + i, first, 0, w, suffixBuffer);
      suffix := Some(suffix.value + suffixBuffer[..count]);
      var written := WriteHashesOrderFileEntry(item, recorded, 0, INDEX_BYTES, orderBuffer);
      order := Some(order.value + orderBuffer[..written.value]);
    }

    /** Takes as many slots as fit; `Err` is the exception for files that are not open. */
    method AppendHashes(ram: seq<HashItem>) returns (res: Result<nat, string>)
      requires Valid() && HashesOf(ram, n)
      modifies this
      ensures Valid()
      ensures var taking := if |ram| <= old(RemainingCapacity()) then |ram| else old(RemainingCapacity());
              && (res.Err? <==> taking > 0 && !old(isOpen))
              && (res.Ok? ==> res.value == taking)
              && (res.Ok? && taking > 0 ==>
                    order.Some? && suffix.Some? && Value() == Appended(old(Value()), ram[..taking]))
              && (res.Err? || taking == 0 ==> unchanged(`forward, `reverse, `order, `suffix))
      ensures res.Ok? ==> isSealed == (old(isSealed) || |forward| == capacity)
      ensures res.Ok? ==> isOpen == (old(isOpen) && |forward| < capacity)
      ensures res.Err? ==> unchanged(this)
    {
      var taking := if |ram| <= RemainingCapacity() then |ram| else RemainingCapacity();
      if taking > 0 && !isOpen {
        return Err("append_to_file(): File is not open");
      }
      var batch, w := ram[..taking], LocalPiBytes(capacity);
      if taking > 0 {
        WriteSlots(batch);
        WriteReverse(batch);
        forward := forward + batch;
      }
      if |forward| == capacity {
        isOpen, isSealed := false, true;
      }
      res := Ok(taking);
    }

    /** The first loop of `append_hashes`: the records of a batch. */
    method WriteSlots(batch: seq<HashItem>)
      requires Valid() && isOpen && HashesOf(batch, n) && |forward| + |batch| <= capacity
      modifies this`order, this`suffix
      ensures order == Some(old(order.value) + OrderBytes(batch, |reverse|))
      ensures suffix == Some(old(suffix.value) + SuffixBytes(batch, |forward|, LocalPiBytes(capacity)))
    {
      var w, known := LocalPiBytes(capacity), |reverse|;
      var suffixBuffer := new byte[n + w];
      var orderBuffer := new byte[INDEX_BYTES];
      ghost var o, s := order.value, suffix.value;
      var j, k := 0, known;
      NothingWrote(batch, known, |forward|, w, o, s);
      while j < |batch|
        invariant 0 <= j <= |batch| && 0 <= k <= |forward| + j
        invariant Wrote(batch, j, k, known, |forward|, w, o, s, order, suffix)
      {
        k := WriteNext(batch, j, k, suffixBuffer, orderBuffer, known, o, s);
        j := j + 1;
      }
      AllWrote(batch, k, known, |forward|, w, o, s, order, suffix);
    }

    /** The next slot of a batch, and the number of the next hash. */
    method WriteNext(batch: seq<HashItem>, j: nat, k: nat, suffixBuffer: array<byte>, orderBuffer: array<byte>,
        ghost known: nat, ghost o: seq<byte>, ghost s: seq<byte>)
      returns (next: nat)
      requires isOpen && Valid() && j < |batch| && (batch[j].Some? ==> |batch[j].value| == n) && k < MAX_CAPACITY
      requires suffixBuffer.Length >= n + LocalPiBytes(capacity) && orderBuffer.Length >= INDEX_BYTES
      requires suffixBuffer != orderBuffer
      requires Wrote(batch, j, k, known, |forward|, LocalPiBytes(capacity), o, s, order, suffix)
      modifies this`order, this`suffix, suffixBuffer, orderBuffer
      ensures next <= k + 1 && order.Some? && suffix.Some?
      ensures Wrote(batch, j + 1, next, known, |forward|, LocalPiBytes(capacity), o, s, order, suffix)
    {
      NextSlot(batch, j, known, k, |forward|, LocalPiBytes(capacity), o, s, order, suffix);
      WriteSlot(batch[j], |forward| + j, k, suffixBuffer, orderBuffer);
      next := if batch[j].Some? then k + 1 else k;
    }

    /** The second loop: the map keeps the first index of every hash. */
    method WriteReverse(batch: seq<HashItem>)
      requires Valid() && |forward| + |batch| <= capacity
      modifies this`reverse
      ensures reverse == InsertAll(old(reverse), batch, |forward|)
      ensures |reverse| <= |forward| + |batch|
    {
      var j := 0;
      while j < |batch|
        invariant 0 <= j <= |batch|
        invariant reverse == InsertAll(old(reverse), batch[..j], |forward|)
      {
        assert batch[..j + 1][..j] == batch[..j];
        if batch[j].Some? && batch[j].value !in reverse {
          reverse := reverse[batch[j].value := |forward| + j];
        }
        j := j + 1;
      }
      assert batch[..j] == batch;
      InsertAllSize(old(reverse), batch, |forward|);
      NonGapsConcat(batch, []);
    }

    /** The map is the one of the slots. */
    ghost predicate Mapped()
      reads this
    {
      reverse == ReverseOf(forward)
    }

    /** `Err` is the failed assertion on the range. */
    method ForwardLookup(pi: nat) returns (item: Result<HashItem, string>)
      ensures item.Ok? <==> first <= pi < NextOffset()
      ensures item.Ok? ==> forward[pi - first] == item.value
    {
      if pi < first || pi >= NextOffset() {
        return Err("forward_lookup(): Calling container should check bounds");
      }
      return Ok(forward[pi - first]);
    }

    /** The first slot that holds the hash; `None` is `GLOBAL_PI_NO_MATCH`. */
    method ReverseLookup(h: Hash) returns (pi: Option<nat>)
      requires Mapped()
      ensures pi.Some? ==> pi.value >= first
      ensures FirstOrAbsent(forward, 0, |forward|, h, if pi.Some? then Some(pi.value - first) else None)
    {
      ReverseMeaning(forward, h);
      pi := if h in reverse then Some(first + reverse[h]) else None;
    }

    /** Rebuilds the memory of the donut from its files; `Err` is an exception or a failed
        assertion. */
    method HydrateSelfForLookup() returns (res: Result<(), string>)
      requires 1 <= capacity <= MAX_CAPACITY
      modifies this`forward, this`reverse
      ensures var h := Hydrate(order, suffix, n, LocalPiBytes(capacity));
              && (res.Ok? <==> h.Ok?)
              && (h.Ok? ==> forward == h.value.forward && reverse == h.value.reverse)
      ensures res.Ok? ==> Mapped()
    {
      HydratedIsMapped(order, suffix, n, LocalPiBytes(capacity));
      forward, reverse := [], map[];
      if order.None? || suffix.None? || |order.value| == 0 {
        return Ok(());
      }
      if order.value[0] != INDEX_BYTES {
        return Err("unexpected bytes_per_suffix_index header byte");
      }
      var payload := order.value[1..];
      if |payload| % INDEX_BYTES != 0 {
        return Err("HashesOrder.bin size misaligned with entry size");
      }
      res := HydrateRecords(payload, |payload| / INDEX_BYTES);
    }

    /** The order records one after the other, and the suffix records they call for. */
    method HydrateRecords(payload: seq<byte>, count: nat) returns (res: Result<(), string>)
      requires suffix.Some? && INDEX_BYTES * count <= |payload| && forward == [] && reverse == map[]
      modifies this`forward, this`reverse
      ensures var h := AfterRecords(payload, count, suffix.value, n, LocalPiBytes(capacity));
              && (res.Ok? <==> h.Ok?)
              && (h.Ok? ==> forward == h.value.forward && reverse == h.value.reverse)
    {
      ghost var w := LocalPiBytes(capacity);
      var expected, rest, i := 0, suffix.value, 0;
      while i < count
        invariant 0 <= i <= count
        invariant AfterRecords(payload, i, suffix.value, n, w) == Ok(Hydration(forward, reverse, expected, rest))
      {
        var record := payload[INDEX_BYTES * i..INDEX_BYTES * (i + 1)];
        NextRecord(payload, i, count, suffix.value, n, w, Hydration(forward, reverse, expected, rest), record);
        var next := HydrateRecord(record, expected, rest);
        if next.Err? {
          return Err(next.error);
        }
        expected, rest := next.value.0, next.value.1;
        i := i + 1;
      }
      res := Ok(());
    }

    /** One round of the loop; returns the next suffix index and the unread suffix bytes. */
    method HydrateRecord(record: seq<byte>, expected: nat, rest: seq<byte>)
      returns (res: Result<(nat, seq<byte>), string>)
      requires |record| == INDEX_BYTES
      modifies this`forward, this`reverse
      ensures var before := Hydration(old(forward), old(reverse), expected, rest);
              var next := AfterRecord(before, record, n, LocalPiBytes(capacity));
              && (res.Ok? <==> next.Ok?)
              && (next.Ok? ==> next.value == Hydration(forward, reverse, res.value.0, res.value.1))
    {
      var w := LocalPiBytes(capacity);
      var entry := ReadHashesOrderEntryFromBytes(record, 0, INDEX_BYTES);
      if entry.Sentinel? {
        forward := forward + [None];
        return Ok((expected, rest));
      }
      if entry.suffixIndex != expected {
        return Err("out-of-order suffix index");
      }
      if |rest| < n + w {
        return Err("truncated HashEntries.bin record");
      }
      var hash := HashFromPrefixSuffix(entry.prefix, ReadSuffixEntry(rest[..n + w], n, 0, w).suffix, n, 0);
      if hash !in reverse {
        reverse := reverse[hash := |forward|];
      }
      forward := forward + [Some(hash)];
      return Ok((expected + 1, rest[n + w..]));
    }
  }

  lemma {:induction false} SlotRecords(item: HashItem, i: nat, k: nat, recorded: nat, first: nat, w: nat)
    requires k < MAX_CAPACITY && recorded == if item.Some? then k else Pow2(64) - 1
    ensures recorded < Pow2(64) && !SentinelCollision(item, recorded, INDEX_BYTES)
    ensures OrderEntryBytes(item, recorded, 0, INDEX_BYTES) == OrderRecord(item, k)
    ensures SuffixEntryBytes(item, LocalPi(first + i, first), 0, w) == SuffixRecord(item, i, w)
    ensures item.Some? ==> SuffixBytesCount(|item.value|, 0) == |item.value|
  {
    Pow2Words();
    OnesAtTop(k, INDEX_BYTES);
    RecordsWithoutPrefix(item, k, i, w);
  }

  /** What the first `j` slots of a batch wrote behind the bytes `o` and `s`, `k` being the
      number of the next hash. */
  ghost predicate Wrote(batch: seq<HashItem>, j: nat, k: nat, known: nat, i: nat, w: nat, o: seq<byte>, s: seq<byte>,
      order: Option<seq<byte>>, suffix: Option<seq<byte>>)
  {
    && j <= |batch| && k == known + NonGaps(batch[..j])
    && order == Some(o + OrderBytes(batch[..j], known))
    && suffix == Some(s + SuffixBytes(batch[..j], i, w))
  }

  lemma NothingWrote(batch: seq<HashItem>, known: nat, i: nat, w: nat, o: seq<byte>, s: seq<byte>)
    ensures Wrote(batch, 0, known, known, i, w, o, s, Some(o), Some(s))
  {
    assert o + [] == o && s + [] == s;
  }

  lemma AllWrote(batch: seq<HashItem>, k: nat, known: nat, i: nat, w: nat, o: seq<byte>, s: seq<byte>,
      order: Option<seq<byte>>, suffix: Option<seq<byte>>)
    requires Wrote(batch, |batch|, k, known, i, w, o, s, order, suffix)
    ensures order == Some(o + OrderBytes(batch, known)) && suffix == Some(s + SuffixBytes(batch, i, w))
  {
    assert batch[..|batch|] == batch;
  }

  lemma NextSlot(batch: seq<HashItem>, j: nat, known: nat, k: nat, i: nat, w: nat, o: seq<byte>, s: seq<byte>,
      order: Option<seq<byte>>, suffix: Option<seq<byte>>)
    requires j < |batch| && Wrote(batch, j, k, known, i, w, o, s, order, suffix)
    ensures Wrote(batch, j + 1, if batch[j].Some? then k + 1 else k, known, i, w, o, s,
              Some(order.value + OrderRecord(batch[j], k)), Some(suffix.value + SuffixRecord(batch[j], i + j, w)))
  {
    assert batch[..j + 1][..j] == batch[..j];
    Reassociate(o, OrderBytes(batch[..j], known), OrderRecord(batch[j], k));
    Reassociate(s, SuffixBytes(batch[..j], i, w), SuffixRecord(batch[j], i + j, w));
  }

  /** Reloading leaves the map of the slots it found. */
  lemma {:induction false} HydratedIsMapped(order: Option<seq<byte>>, suffix: Option<seq<byte>>, n: nat, w: nat)
    ensures var h := Hydrate(order, suffix, n, w);
            h.Ok? ==> h.value.reverse == ReverseOf(h.value.forward)
  {
    var h := Hydrate(order, suffix, n, w);
    if h.Ok? && order.Some? && suffix.Some? && order.value != [] {
      HydrationAcceptsExactlyWrittenFiles(order.value, suffix.value, n, w, h.value);
    }
  }

  /** One record more, or the failure of the whole. */
  lemma {:induction false} NextRecord(payload: seq<byte>, i: nat, count: nat, suffix: seq<byte>, n: nat, w: nat,
      h: Hydration, record: seq<byte>)
    requires i < count && INDEX_BYTES * count <= |payload| && AfterRecords(payload, i, suffix, n, w) == Ok(h)
    requires record == payload[INDEX_BYTES * i..INDEX_BYTES * (i + 1)]
    ensures var next := AfterRecord(h, record, n, w);
            && (next.Ok? ==> AfterRecords(payload, i + 1, suffix, n, w) == next)
            && (next.Err? ==> AfterRecords(payload, count, suffix, n, w).Err?)
  {
    RecordsPropagate(payload, i + 1, count, suffix, n, w);
  }

  /** Once reading fails it stays failed. */
  lemma {:induction false} RecordsPropagate(payload: seq<byte>, i: nat, count: nat, suffix: seq<byte>, n: nat, w: nat)
    requires i <= count && INDEX_BYTES * count <= |payload|
    ensures AfterRecords(payload, i, suffix, n, w).Err? ==> AfterRecords(payload, count, suffix, n, w).Err?
    decreases count - i
  {
    if i < count {
      RecordsPropagate(payload, i + 1, count, suffix, n, w);
    }
  }
}
