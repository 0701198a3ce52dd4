/** Records of the two files of a donut
    (`apps/wedding_cake/include/donut_entries_calculator.hpp`). */
module DonutEntries {
  import opened Wrappers
  import opened Bits
  import opened Bytes
  import opened PrefixSuffix

  type Hash = seq<byte>

  /** A presented slot: a hash or a gap. */
  type HashItem = Option<Hash>

  // ---------------------------------------------------------------- width of an index

  /** `std::bit_width` */
  function BitWidth(v: nat): nat {
    if v == 0 then 0 else 1 + BitWidth(v / 2)
  }

  /** Bytes per index in a donut of `entries` slots, with room for the sentinel. */
  function BytesPerLocalPi(entries: nat): Result<nat, string> {
    if entries == 0 then Err("entries_per_donut must be greater than 0")
    else Ok((BitWidth(entries) + 7) / 8)
  }

  lemma {:induction false} BitWidthBounds(v: nat)
    ensures v < Pow2(BitWidth(v))
    ensures v > 0 ==> BitWidth(v) > 0 && Pow2(BitWidth(v) - 1) <= v
  {
    if v > 0 {
      BitWidthBounds(v / 2);
      if v / 2 > 0 {
        assert Pow2(BitWidth(v) - 1) == 2 * Pow2(BitWidth(v / 2) - 1);
      }
    }
  }

  /** The width is the least whose largest number is not below `entries`; so the indices of
      a donut, and the donut's size itself, never need more bytes, and with one byte
      less some index would not fit or would look like the sentinel. */
  lemma {:induction false} WidthIsLeast(entries: nat, w: nat)
    requires entries > 0
    ensures var b := BytesPerLocalPi(entries);
            b.Ok? && (b.value <= w <==> entries < Pow2(8 * w))
  {
    BitWidthBounds(entries);
    var bits := BitWidth(entries);
    if (bits + 7) / 8 <= w {
      Pow2Mono(bits, 8 * w);
    } else {
      Pow2Mono(8 * w, bits - 1);
    }
  }

  /** Only a donut without slots has no width. */
  lemma WidthExists(entries: nat)
    ensures BytesPerLocalPi(entries).Ok? <==> entries > 0
  {
  }

  /** Within the donut no index is written as the sentinel, and only the least width and
      those above it achieve that. */
  lemma {:induction false} IndicesAvoidSentinel(entries: nat, w: nat)
    requires entries > 0
    ensures BytesPerLocalPi(entries).Ok?
    ensures BytesPerLocalPi(entries).value <= w <==>
            forall i: nat | i < entries :: i < Pow2(8 * w) && LittleEndian(i, w) != Ones(w)
  {
    WidthIsLeast(entries, w);
    if entries >= Pow2(8 * w) {
      var i: nat := Pow2(8 * w) - 1;
      OnesAtTop(i, w);
      assert i < entries && LittleEndian(i, w) == Ones(w);
    } else {
      forall i: nat | i < entries
        ensures i < Pow2(8 * w) && LittleEndian(i, w) != Ones(w)
      {
        OnesAtTop(i, w);
      }
    }
  }

  lemma {:induction false} OnesAtTop(i: nat, w: nat)
    requires i < Pow2(8 * w)
    ensures LittleEndian(i, w) == Ones(w) <==> i == Pow2(8 * w) - 1
  {
    LittleEndianRoundTrip(i, w);
    ValueOnes(w);
    if i == Pow2(8 * w) - 1 {
      ValueInjective(LittleEndian(i, w), Ones(w));
    }
  }

  // ---------------------------------------------------------------- HashesOrder.bin records

  datatype OrderEntry = Sentinel | Entry(prefix: seq<byte>, suffixIndex: nat)

  function OrderEntrySize(p: nat, w: nat): nat {
    WholeBytes(p) + w
  }

  /** The bytes of a record; all ones stand for a gap. */
  function OrderEntryBytes(item: HashItem, suffixIndex: nat, p: nat, w: nat): (r: seq<byte>)
    requires item.Some? ==> p <= 8 * |item.value|
    ensures |r| == OrderEntrySize(p, w)
  {
    match item
    case None => Ones(OrderEntrySize(p, w))
    case Some(h) => MsPrefixBytesMasked(h, p) + LittleEndian(suffixIndex, w)
  }

  /** The assertion that guards the writer: a real index must not look like the sentinel. */
  predicate SentinelCollision(item: HashItem, suffixIndex: nat, w: nat) {
    item.Some? && LittleEndian(suffixIndex, w) == Ones(w)
  }

  /** It does exactly if the bytes that are kept of it are all ones. */
  lemma {:induction false} CollisionExactly(item: HashItem, suffixIndex: nat, w: nat)
    ensures SentinelCollision(item, suffixIndex, w) <==>
            item.Some? && suffixIndex % Pow2(8 * w) == Pow2(8 * w) - 1
  {
    ValueLittleEndian(suffixIndex, w);
    ValueOnes(w);
    if suffixIndex % Pow2(8 * w) == Pow2(8 * w) - 1 {
      ValueInjective(LittleEndian(suffixIndex, w), Ones(w));
    }
  }

  function ParseOrderEntry(bytes: seq<byte>, p: nat, w: nat): OrderEntry
    requires |bytes| >= OrderEntrySize(p, w)
  {
    if bytes[..OrderEntrySize(p, w)] == Ones(OrderEntrySize(p, w)) then Sentinel
    else Entry(bytes[..WholeBytes(p)], Value(bytes[WholeBytes(p)..OrderEntrySize(p, w)]))
  }

  method AllOnes(bytes: seq<byte>) returns (allOnes: bool)
    ensures allOnes <==> bytes == Ones(|bytes|)
  {
    for i := 0 to |bytes|
      invariant forall j :: 0 <= j < i ==> bytes[j] == 0xFF
    {
      if bytes[i] != 0xFF {
        return false;
      }
    }
    return true;
  }

  method Put(bytes: seq<byte>, out: array<byte>)
    requires |bytes| <= out.Length
    modifies out
    ensures out[..|bytes|] == bytes && out[|bytes|..] == old(out[|bytes|..])
  {
    forall i | 0 <= i < |bytes| {
      out[i] := bytes[i];
    }
  }

  /** Fills the first bytes of a buffer with a record; `Err` is the failed assertion. */
  method WriteHashesOrderFileEntry(item: HashItem, suffixIndex: nat, p: nat, w: nat, out: array<byte>)
    returns (res: Result<nat, string>)
    requires item.Some? ==> p <= 8 * |item.value|
    requires out.Length >= OrderEntrySize(p, w) && w <= 8 && suffixIndex < Pow2(64)
    modifies out
    ensures res.Ok? <==> !SentinelCollision(item, suffixIndex, w)
    ensures res.Ok? ==> res.value == OrderEntrySize(p, w) <= out.Length
                        && out[..res.value] == OrderEntryBytes(item, suffixIndex, p, w)
    ensures out[OrderEntrySize(p, w)..] == old(out[OrderEntrySize(p, w)..])
  {
    var required := WholeBytes(p) + w;
    if item.None? {
      Put(Ones(required), out);
      return Ok(required);
    }
    var prefix, index := MsPrefixBytesMasked(item.value, p), LittleEndian(suffixIndex, w);
    Put(prefix + index, out);
    assert (prefix + index)[|prefix|..] == index;
    assert out[|prefix|..required] == out[..required][|prefix|..];
    var allOnes := AllOnes(out[|prefix|..required]);
    if allOnes {
      return Err("valid suffix_index collision with the sentinel");
    }
    return Ok(required);
  }

  method ReadHashesOrderEntryFromBytes(bytes: seq<byte>, p: nat, w: nat) returns (entry: OrderEntry)
    requires |bytes| >= OrderEntrySize(p, w)
    ensures entry == ParseOrderEntry(bytes, p, w)
  {
    var required := WholeBytes(p) + w;
    var allOnes := AllOnes(bytes[..required]);
    if allOnes {
      return Sentinel;
    }
    entry := Entry(bytes[..WholeBytes(p)], Value(bytes[WholeBytes(p)..required]));
  }

  /** A gap always reads back as a gap. */
  lemma GapReadsBack(p: nat, w: nat)
    ensures ParseOrderEntry(OrderEntryBytes(None, 0, p, w), p, w) == Sentinel
  {
  }

  /** A real record reads back as written exactly if its index fits and the record is not
      all ones; an index below the sentinel is enough for that. */
  lemma {:induction false} EntryReadsBack(h: Hash, i: nat, p: nat, w: nat)
    requires p <= 8 * |h|
    ensures ParseOrderEntry(OrderEntryBytes(Some(h), i, p, w), p, w) == Entry(MsPrefixBytesMasked(h, p), i) <==>
            i < Pow2(8 * w) && (i < Pow2(8 * w) - 1 || MsPrefixBytesMasked(h, p) != Ones(WholeBytes(p)))
  {
    var prefix, index := MsPrefixBytesMasked(h, p), LittleEndian(i, w);
    var bytes, n, k := prefix + index, OrderEntrySize(p, w), WholeBytes(p);
    assert bytes[..n] == bytes && bytes[..k] == prefix && bytes[k..n] == index;
    ValueLittleEndian(i, w);
    ValueBound(index);
    if bytes == Ones(n) {
      assert index == Ones(n)[k..] && Ones(n)[k..] == Ones(w);
      ValueOnes(w);
    }
    if i < Pow2(8 * w) {
      LittleEndianRoundTrip(i, w);
      OnesAtTop(i, w);
      if index == Ones(w) && prefix == Ones(k) {
        assert bytes == Ones(n);
      }
    }
  }

  // ---------------------------------------------------------------- suffix records

  function SuffixBytesCount(n: nat, p: nat): nat
    requires p <= 8 * n
  {
    WholeBytes(8 * n - p)
  }

  /** The bytes of a suffix record; a gap has none. */
  function SuffixEntryBytes(item: HashItem, localPi: nat, p: nat, w: nat): (r: seq<byte>)
    requires item.Some? ==> p <= 8 * |item.value|
  {
    match item
    case None => []
    case Some(h) => LsSuffixBytesMasked(h, p) + LittleEndian(localPi, w)
  }

  /** The index within a donut; below its start it is the no-match value, all ones. */
  function LocalPi(globalPi: nat, first: nat): nat {
    if globalPi < first then Pow2(64) - 1 else globalPi - first
  }

  /** An index counts from the start of its donut; one from before it is no match. */
  lemma {:induction false} LocalPiIs(globalPi: nat, first: nat)
    ensures globalPi >= first ==> first + LocalPi(globalPi, first) == globalPi
    ensures globalPi < first ==> LocalPi(globalPi, first) == 0xFFFF_FFFF_FFFF_FFFF
  {
    Pow2Words();
  }

  method WriteSuffixesFileEntry(item: HashItem, globalPi: nat, first: nat, p: nat, w: nat, out: array<byte>)
    returns (count: nat)
    requires item.Some? ==> p <= 8 * |item.value| && out.Length >= SuffixBytesCount(|item.value|, p) + w
    modifies out
    ensures count <= out.Length && out[..count] == SuffixEntryBytes(item, LocalPi(globalPi, first), p, w)
    ensures out[count..] == old(out[count..])
  {
    if item.None? {
      return 0;
    }
    var localPi := LocalPi(globalPi, first);
    var entry := LsSuffixBytesMasked(item.value, p) + LittleEndian(localPi, w);
    count := |entry|;
    Put(entry, out);
  }

  datatype SuffixEntry = SuffixEntry(suffix: seq<byte>, localPi: nat)

  function ReadSuffixEntry(bytes: seq<byte>, n: nat, p: nat, w: nat): SuffixEntry
    requires p <= 8 * n && |bytes| >= SuffixBytesCount(n, p) + w
  {
    var k := SuffixBytesCount(n, p);
    SuffixEntry(bytes[..k], Value(bytes[k..k + w]))
  }

  /** A suffix record gives back its suffix and its index, and with the prefix of the
      matching order record the whole hash. */
  lemma {:induction false} RecordsGiveTheHashBack(h: Hash, localPi: nat, p: nat, w: nat)
    requires p <= 8 * |h| && localPi < Pow2(8 * w)
    ensures |SuffixEntryBytes(Some(h), localPi, p, w)| == SuffixBytesCount(|h|, p) + w
    ensures var e := ReadSuffixEntry(SuffixEntryBytes(Some(h), localPi, p, w), |h|, p, w);
            && e.localPi == localPi
            && |e.suffix| == SuffixBytesCount(|h|, p)
            && HashFromPrefixSuffix(MsPrefixBytesMasked(h, p), e.suffix, |h|, p) == h
  {
    var bytes, k := SuffixEntryBytes(Some(h), localPi, p, w), SuffixBytesCount(|h|, p);
    assert bytes[..k] == LsSuffixBytesMasked(h, p) && bytes[k..k + w] == LittleEndian(localPi, w);
    LittleEndianRoundTrip(localPi, w);
    SplitThenJoin(h, p);
  }
}
