/** The file that lists the hashes of a donut in presentation order
    (`apps/wedding_cake/include/hashes_order_file.hpp`): a writer that appends records
    and a reader with a position in the file. */
module HashesOrderFiles {
  import opened Wrappers
  import opened Bits
  import opened Bytes

  /** `localPi` is `None` for the no-match index. */
  datatype Record = Record(localPi: Option<nat>, msPrefixBits: nat, spareBits: nat)

  datatype Format = Format(localPiBytes: nat, prefixBits: nat) {
    predicate Supported() {
      1 <= localPiBytes <= 8 && prefixBits <= 64
    }

    function PrefixBytes(): nat {
      (prefixBits + 7) / 8
    }

    function SpareBitsCount(): nat {
      PrefixBytes() * 8 - prefixBits
    }

    function EntrySize(): nat {
      localPiBytes + PrefixBytes()
    }
  }

  /** A 64-bit index is written by its low bytes, the no-match index by ones. */
  function LocalPiField(f: Format, localPi: Option<nat>): (r: seq<byte>)
    ensures |r| == f.localPiBytes
  {
    match localPi
    case None => Ones(f.localPiBytes)
    case Some(v) => LittleEndian(v, f.localPiBytes)
  }

  /** Prefix bits below, spare bits above, each masked to its width. */
  function PrefixField(f: Format, msPrefixBits: nat, spareBits: nat): nat {
    Or(And(msPrefixBits, Pow2(f.prefixBits) - 1),
       And(spareBits, Pow2(f.SpareBitsCount()) - 1) * Pow2(f.prefixBits))
  }

  function Encode(f: Format, r: Record): (bytes: seq<byte>)
    ensures |bytes| == f.EntrySize()
  {
    LocalPiField(f, r.localPi) + LittleEndian(PrefixField(f, r.msPrefixBits, r.spareBits), f.PrefixBytes())
  }

  function Decode(f: Format, bytes: seq<byte>): Record
    requires |bytes| == f.EntrySize()
  {
    DecodeWords(f, Value(bytes[..f.localPiBytes]), Value(bytes[f.localPiBytes..]))
  }

  function DecodeWords(f: Format, pi: nat, raw: nat): Record {
    Record(if pi == Pow2(8 * f.localPiBytes) - 1 then None else Some(pi),
           raw % Pow2(f.prefixBits), Shr(raw, f.prefixBits))
  }

  /** Where the record of an index starts. */
  function EntryOffset(f: Format, k: nat): nat {
    k * f.EntrySize()
  }

  /** Every field fits its width and the index is not the sentinel. */
  predicate InRange(f: Format, r: Record) {
    && (r.localPi.Some? ==> r.localPi.value < Pow2(8 * f.localPiBytes) - 1)
    && r.msPrefixBits < Pow2(f.prefixBits)
    && r.spareBits < Pow2(f.SpareBitsCount())
  }

  // ---------------------------------------------------------------- one record

  lemma PrefixFieldValue(f: Format, ms: nat, spare: nat)
    ensures var lo, hi := ms % Pow2(f.prefixBits), spare % Pow2(f.SpareBitsCount());
            PrefixField(f, ms, spare) == lo + hi * Pow2(f.prefixBits) < Pow2(8 * f.PrefixBytes())
  {
    FieldWidth(f);
    FieldOfWidths(ms, spare, f.prefixBits, f.SpareBitsCount(), 8 * f.PrefixBytes());
  }

  lemma FieldWidth(f: Format)
    ensures f.prefixBits + f.SpareBitsCount() == 8 * f.PrefixBytes()
  {
  }

  lemma {:induction false} FieldOfWidths(ms: nat, spare: nat, p: nat, q: nat, width: nat)
    requires width == p + q
    ensures Or(And(ms, Pow2(p) - 1), And(spare, Pow2(q) - 1) * Pow2(p)) ==
            ms % Pow2(p) + spare % Pow2(q) * Pow2(p) < Pow2(width)
  {
    AndLowMask(ms, p);
    AndLowMask(spare, q);
    Pow2Add(p, q);
    FieldParts(ms % Pow2(p), spare % Pow2(q), p, Pow2(q));
  }

  lemma {:induction false} FieldParts(lo: nat, hi: nat, k: nat, b: nat)
    requires lo < Pow2(k) && hi < b
    ensures Or(lo, hi * Pow2(k)) == lo + hi * Pow2(k) < Pow2(k) * b
  {
    DivModUnique(hi * Pow2(k), Pow2(k), hi, 0);
    OrCommutes(lo, hi * Pow2(k));
    OrDisjoint(hi * Pow2(k), lo, k);
    FieldBound(lo, hi, Pow2(k), b);
  }

  lemma FieldBound(lo: nat, hi: nat, a: nat, b: nat)
    requires lo < a && hi < b
    ensures lo + hi * a < a * b
  {
    assert (hi + 1) * a <= b * a;
  }

  /** A record reads back as written exactly if its fields are in range. */
  lemma RecordReadsBack(f: Format, r: Record)
    ensures Decode(f, Encode(f, r)) == r <==> InRange(f, r)
  {
    var bytes := Encode(f, r);
    var pi := LocalPiField(f, r.localPi);
    var field := PrefixField(f, r.msPrefixBits, r.spareBits);
    assert bytes[..f.localPiBytes] == pi && bytes[f.localPiBytes..] == LittleEndian(field, f.PrefixBytes());
    LocalPiReadsBack(f, r.localPi);
    PrefixFieldValue(f, r.msPrefixBits, r.spareBits);
    LittleEndianRoundTrip(field, f.PrefixBytes());
    FieldReadsBack(r.msPrefixBits, r.spareBits, Pow2(f.prefixBits), Pow2(f.SpareBitsCount()));
  }

  lemma LocalPiReadsBack(f: Format, localPi: Option<nat>)
    ensures var v, top := Value(LocalPiField(f, localPi)), Pow2(8 * f.localPiBytes) - 1;
            (if v == top then None else Some(v)) == localPi <==> (localPi.Some? ==> localPi.value < top)
  {
    ValueOnes(f.localPiBytes);
    if localPi.Some? {
      ValueLittleEndian(localPi.value, f.localPiBytes);
      if localPi.value <= Pow2(8 * f.localPiBytes) - 1 {
        LittleEndianRoundTrip(localPi.value, f.localPiBytes);
      }
    }
  }

  lemma FieldReadsBack(ms: nat, spare: nat, a: nat, b: nat)
    requires a > 0 && b > 0
    ensures var raw := ms % a + spare % b * a;
            raw % a == ms && raw / a == spare <==> ms < a && spare < b
  {
    DivModUnique(ms % a + spare % b * a, a, spare % b, ms % a);
    if ms < a {
      DivModUnique(ms, a, 0, ms);
    }
    if spare < b {
      DivModUnique(spare, b, 0, spare);
    }
  }

  /** A format has as few bytes of prefix and spare bits as hold the prefix, and the spare bits fill
      them up. */
  lemma PrefixBytesIsLeast(f: Format, k: nat)
    ensures f.PrefixBytes() <= k <==> f.prefixBits <= 8 * k
    ensures f.SpareBitsCount() < 8 && f.prefixBits + f.SpareBitsCount() == 8 * f.PrefixBytes()
  {
  }

  /** A record in range is one little-endian number: the index, above it the prefix bits, above them the
      spare bits; for no match the index is all ones. */
  lemma {:induction false} RecordIsOneNumber(f: Format, r: Record)
    requires InRange(f, r)
    ensures |Encode(f, r)| == f.localPiBytes + f.PrefixBytes()
    ensures Value(Encode(f, r)) ==
            (if r.localPi.Some? then r.localPi.value else Pow2(8 * f.localPiBytes) - 1)
            + Pow2(8 * f.localPiBytes) * (r.msPrefixBits + r.spareBits * Pow2(f.prefixBits))
  {
    var pi, field := LocalPiField(f, r.localPi), PrefixField(f, r.msPrefixBits, r.spareBits);
    ValueConcat(pi, LittleEndian(field, f.PrefixBytes()));
    LocalPiValue(f, r.localPi);
    PrefixFieldValue(f, r.msPrefixBits, r.spareBits);
    DivModUnique(r.msPrefixBits, Pow2(f.prefixBits), 0, r.msPrefixBits);
    DivModUnique(r.spareBits, Pow2(f.SpareBitsCount()), 0, r.spareBits);
    LittleEndianRoundTrip(field, f.PrefixBytes());
  }

  lemma {:induction false} LocalPiValue(f: Format, localPi: Option<nat>)
    requires localPi.Some? ==> localPi.value < Pow2(8 * f.localPiBytes) - 1
    ensures Value(LocalPiField(f, localPi)) == if localPi.Some? then localPi.value else Pow2(8 * f.localPiBytes) - 1
  {
    ValueOnes(f.localPiBytes);
    if localPi.Some? {
      LittleEndianRoundTrip(localPi.value, f.localPiBytes);
    }
  }

  // ---------------------------------------------------------------- files

  /** The bytes of a list of records. */
  function FileOf(f: Format, records: seq<Record>): seq<byte> {
    if records == [] then []
    else FileOf(f, records[..|records| - 1]) + Encode(f, records[|records| - 1])
  }

  class HashesOrderFileWriter {
    const format: Format
    var file: seq<byte>

    constructor (format: Format, file: seq<byte>)
      requires format.Supported()
      ensures this.format == format && this.file == file
    {
      this.format := format;
      this.file := file;
    }

    /** Appends one record: index, then prefix and spare bits if the format has any. */
    method Append(r: Record)
      modifies this
      ensures file == old(file) + Encode(format, r)
    {
      var pi := match r.localPi
        case None => Ones(format.localPiBytes)
        case Some(v) => LittleEndian(v, format.localPiBytes);
      file := file + pi;
      if format.PrefixBytes() > 0 {
        var raw := RawField(r.msPrefixBits, r.spareBits);
        file := file + LittleEndian(raw, format.PrefixBytes());
      }
    }

    /** The prefix and the spare bits, each only if the format has any. */
    method RawField(msPrefixBits: nat, spareBits: nat) returns (raw: nat)
      ensures raw == PrefixField(format, msPrefixBits, spareBits)
    {
      var p, q := format.prefixBits, format.SpareBitsCount();
      raw := 0;
      NoPrefixBits(msPrefixBits);
      if p > 0 {
        raw := And(msPrefixBits, Pow2(p) - 1);
      }
      NoSpareBits(raw, spareBits, Pow2(p));
      if q > 0 {
        raw := Or(raw, And(spareBits, Pow2(q) - 1) * Pow2(p));
      }
    }
  }

  lemma {:induction false} NoSpareBits(raw: nat, spareBits: nat, shift: nat)
    ensures Or(raw, And(spareBits, Pow2(0) - 1) * shift) == raw
  {
    OrZero(raw);
  }

  lemma {:induction false} NoPrefixBits(msPrefixBits: nat)
    ensures And(msPrefixBits, Pow2(0) - 1) == 0
  {
  }

  class HashesOrderFileReader {
    const format: Format
    const file: seq<byte>
    var position: nat

    constructor (format: Format, file: seq<byte>)
      requires format.Supported()
      ensures this.format == format && this.file == file && position == 0
    {
      this.format := format;
      this.file := file;
      this.position := 0;
    }

    predicate HasMore()
      reads this
    {
      position < |file|
    }

    method SeekEntry(index: nat)
      modifies this
      ensures position == EntryOffset(format, index)
    {
      position := EntryOffset(format, index);
    }

    /** `file_.read` into a zeroed 64-bit word: the bytes there are, the rest stays zero. */
    method ReadWord(n: nat) returns (word: nat)
      requires position <= |file|
      modifies this
      ensures position == Min(old(position) + n, |file|)
      ensures word == Value(Padded(file, old(position), n))
    {
      word := Value(Padded(file, position, n));
      position := Min(position + n, |file|);
    }

    /** Reads the record at the position; at the end of the file the default record. */
    method ReadNext() returns (r: Record)
      requires format.Supported() && format.prefixBits <= 63
      modifies this
      ensures old(position) >= |file| ==> r == Record(None, 0, 0) && position == old(position)
      ensures old(position) < |file| ==>
                && position == Min(old(position) + format.EntrySize(), |file|)
                && r == Decode(format, Padded(file, old(position), format.EntrySize()))
    {
      if !HasMore() {
        return Record(None, 0, 0);
      }
      DecodePadded(format, file, position);
      var pi := ReadWord(format.localPiBytes);
      var raw := 0;
      if format.PrefixBytes() > 0 {
        raw := ReadWord(format.PrefixBytes());
      }
      r := Unpack(format, pi, raw);
    }
  }

  /** Unmasking and shifting the two words of a record. */
  function Unpack(f: Format, pi: nat, raw: nat): (r: Record)
    ensures r == DecodeWords(f, pi, raw)
  {
    AndLowMask(raw, f.prefixBits);
    Record(if pi == Pow2(8 * f.localPiBytes) - 1 then None else Some(pi),
           And(raw, Pow2(f.prefixBits) - 1), Shr(raw, f.prefixBits))
  }

  /** Decoding the bytes at a position, word by word. */
  lemma DecodePadded(f: Format, file: seq<byte>, position: nat)
    requires position <= |file|
    ensures var pi := Value(Padded(file, position, f.localPiBytes));
            var raw := Value(Padded(file, Min(position + f.localPiBytes, |file|), f.PrefixBytes()));
            && Decode(f, Padded(file, position, f.EntrySize())) == DecodeWords(f, pi, raw)
            && (f.PrefixBytes() == 0 ==> raw == 0)
  {
    PaddedSplit(file, position, f.localPiBytes, f.PrefixBytes());
  }

  function Min(a: nat, b: nat): nat {
    if a < b then a else b
  }

  /** The `n` bytes at a position, with zeros for those beyond the end. */
  function Padded(file: seq<byte>, position: nat, n: nat): (r: seq<byte>)
    ensures |r| == n
  {
    seq(n, i requires 0 <= i < n => if position + i < |file| then file[position + i] else 0)
  }

  lemma PaddedSplit(file: seq<byte>, position: nat, a: nat, b: nat)
    requires position <= |file|
    ensures Padded(file, position, a + b)[..a] == Padded(file, position, a)
    ensures Padded(file, position, a + b)[a..] == Padded(file, Min(position + a, |file|), b)
  {
  }

  lemma PaddedInside(file: seq<byte>, position: nat, n: nat)
    requires position + n <= |file|
    ensures Padded(file, position, n) == file[position..position + n]
  {
  }

  lemma {:induction false} FileLength(f: Format, records: seq<Record>)
    ensures |FileOf(f, records)| == EntryOffset(f, |records|)
  {
    if records != [] {
      FileLength(f, records[..|records| - 1]);
      RecordBounds(|records| - 1, |records|, f.EntrySize());
    }
  }

  /** What stands before and behind a record. */
  lemma {:induction false} RecordInside(f: Format, records: seq<Record>, k: nat) returns (tail: seq<byte>)
    requires k < |records|
    ensures FileOf(f, records) == FileOf(f, records[..k]) + (Encode(f, records[k]) + tail)
  {
    var front := records[..|records| - 1];
    if k == |front| {
      tail := [];
      assert Encode(f, records[k]) + [] == Encode(f, records[k]);
    } else {
      var more := RecordInside(f, front, k);
      assert front[..k] == records[..k];
      tail := more + Encode(f, records[|records| - 1]);
      Regroup(FileOf(f, records[..k]), Encode(f, records[k]), more, Encode(f, records[|records| - 1]));
    }
  }

  lemma Regroup(a: seq<byte>, b: seq<byte>, c: seq<byte>, d: seq<byte>)
    ensures a + (b + c) + d == a + (b + (c + d))
  {
  }

  lemma Inside(front: seq<byte>, bytes: seq<byte>, tail: seq<byte>, o: nat, size: nat)
    requires |front| == o && |bytes| == size
    ensures o + size <= |front + (bytes + tail)|
    ensures (front + (bytes + tail))[o..o + size] == bytes
  {
  }

  lemma RecordBounds(k: nat, m: nat, size: nat)
    requires k < m
    ensures 0 <= k * size && (k + 1) * size == k * size + size && (k + 1) * size <= m * size
  {
  }

  /** What was appended is read back at any index one seeks to, if and only if the fields
      of the record at that index are in range. */
  lemma SeekAndReadGivesTheRecord(f: Format, records: seq<Record>, k: nat)
    requires k < |records|
    ensures EntryOffset(f, k) + f.EntrySize() <= |FileOf(f, records)|
    ensures Decode(f, EntryBytes(f, FileOf(f, records), EntryOffset(f, k))) == records[k] <==> InRange(f, records[k])
  {
    var o, bytes := EntryOffset(f, k), Encode(f, records[k]);
    var tail := RecordInside(f, records, k);
    FileLength(f, records[..k]);
    Inside(FileOf(f, records[..k]), bytes, tail, o, f.EntrySize());
    assert EntryBytes(f, FileOf(f, records), o) == bytes;
    RecordReadsBack(f, records[k]);
  }

  function EntryBytes(f: Format, file: seq<byte>, o: nat): (bytes: seq<byte>)
    requires o + f.EntrySize() <= |file|
    ensures |bytes| == f.EntrySize()
  {
    file[o..o + f.EntrySize()]
  }

  method WriteAll(f: Format, records: seq<Record>) returns (file: seq<byte>)
    requires f.Supported()
    ensures file == FileOf(f, records)
  {
    var writer := new HashesOrderFileWriter(f, []);
    for i := 0 to |records|
      invariant writer.format == f && writer.file == FileOf(f, records[..i])
    {
      writer.Append(records[i]);
      assert records[..i + 1][..i] == records[..i];
    }
    assert records[..|records|] == records;
    file := writer.file;
  }

  lemma {:induction false} EntryInside(f: Format, file: seq<byte>, o: nat)
    requires f.Supported() && o + f.EntrySize() <= |file|
    ensures o < |file| && Padded(file, o, f.EntrySize()) == EntryBytes(f, file, o)
  {
    PaddedInside(file, o, f.EntrySize());
  }

  lemma EncodedIsNotAtEnd(f: Format, records: seq<Record>, k: nat)
    requires f.Supported() && k < |records| && InRange(f, records[k])
    ensures EntryOffset(f, k) < |FileOf(f, records)|
    ensures Decode(f, Padded(FileOf(f, records), EntryOffset(f, k), f.EntrySize())) == records[k]
  {
    SeekAndReadGivesTheRecord(f, records, k);
    EntryInside(f, FileOf(f, records), EntryOffset(f, k));
  }

  /** Writing a list and reading one entry of it back through the two classes. */
  method WriteThenRead(f: Format, records: seq<Record>, k: nat) returns (r: Record)
    requires f.Supported() && f.prefixBits <= 63 && k < |records| && InRange(f, records[k])
    ensures r == records[k]
  {
    var file := WriteAll(f, records);
    var reader := new HashesOrderFileReader(f, file);
    EncodedIsNotAtEnd(f, records, k);
    reader.SeekEntry(k);
    r := reader.ReadNext();
  }
}
