/** Splitting a hash at a bit position (`apps/wedding_cake/include/hash_prefix_suffix.hpp`)
    and joining the parts (`apps/wedding_cake/include/donut_entries_calculator.hpp`).
    Hashes are little-endian numbers; the prefix is the most significant `p` bits. */
module PrefixSuffix {
  import opened Wrappers
  import opened Bits
  import opened Bytes

  function WholeBytes(bits: nat): nat {
    (bits + 7) / 8
  }

  function MsPrefixBytes(h: seq<byte>, p: nat): (r: seq<byte>)
    requires p <= 8 * |h|
    ensures |r| == WholeBytes(p)
  {
    h[|h| - WholeBytes(p)..]
  }

  function LsSuffixBytes(h: seq<byte>, p: nat): (r: seq<byte>)
    requires p <= 8 * |h|
    ensures |r| == WholeBytes(8 * |h| - p)
  {
    h[..WholeBytes(8 * |h| - p)]
  }

  /** `x & y` of two bytes is a byte. */
  lemma {:induction false} AndBound(x: nat, y: nat)
    ensures And(x, y) <= x
  {
    if x != 0 && y != 0 {
      AndBound(x / 2, y / 2);
    }
  }

  function AndByte(x: byte, mask: nat): byte {
    AndBound(x, mask);
    And(x, mask)
  }

  /** Prefix bytes with the low bits that belong to the suffix zeroed. */
  function MsPrefixBytesMasked(h: seq<byte>, p: nat): (r: seq<byte>)
    requires p <= 8 * |h|
    ensures |r| == WholeBytes(p)
  {
    var bytes := MsPrefixBytes(h, p);
    var zeroBits := WholeBytes(p) * 8 - p;
    if zeroBits > 0 then bytes[0 := AndByte(bytes[0], 0xFF * Pow2(zeroBits) % 256)] else bytes
  }

  /** Suffix bytes with the high bits that belong to the prefix zeroed. */
  function LsSuffixBytesMasked(h: seq<byte>, p: nat): (r: seq<byte>)
    requires p <= 8 * |h|
    ensures |r| == WholeBytes(8 * |h| - p)
  {
    var bytes := LsSuffixBytes(h, p);
    var zeroBits := |bytes| * 8 - (8 * |h| - p);
    if zeroBits > 0 then bytes[|bytes| - 1 := AndByte(bytes[|bytes| - 1], 0xFF / Pow2(zeroBits))] else bytes
  }

  /** The prefix as a number, read from a window of at most eight bytes. */
  function MsPrefixIndex(h: seq<byte>, p: nat): nat
    requires p <= 64 && p <= 8 * |h|
  {
    if p == 0 then 0
    else
      var w := if |h| < 8 then |h| else 8;
      Shr(Value(h[|h| - w..]), 8 * w - p)
  }

  /** `x | y` of two bytes. */
  lemma {:induction false} OrBound(x: nat, y: nat, k: nat)
    requires x < Pow2(k) && y < Pow2(k)
    ensures Or(x, y) < Pow2(k)
  {
    if x != 0 || y != 0 {
      OrBound(x / 2, y / 2, k - 1);
    }
  }

  function OrByte(x: byte, y: byte): byte {
    assert Pow2(8) == 256;
    OrBound(x, y, 8);
    Or(x, y)
  }

  /** A hash of `n` bytes from its masked parts: the suffix is copied to the low end, the
      prefix to the high end, and a byte that belongs to both is or-ed together. */
  function HashFromPrefixSuffix(prefix: seq<byte>, suffix: seq<byte>, n: nat, p: nat): (h: seq<byte>)
    requires p <= 8 * n && |prefix| == WholeBytes(p) && |suffix| == WholeBytes(8 * n - p)
    ensures |h| == n
  {
    var start := n - |prefix|;
    if p % 8 == 0 then suffix[..start] + prefix
    else suffix[..start] + [OrByte(suffix[start], prefix[0])] + prefix[1..]
  }

  // ---------------------------------------------------------------- split, then join

  lemma {:induction false} SmallMasks(k: nat)
    requires 1 <= k <= 7
    ensures 0xFF * Pow2(k) % 256 == HighMask(k, 8)
    ensures 0xFF / Pow2(8 - k) == Pow2(k) - 1
    ensures Pow2(8) == 256
  {
    assert Pow2(1) == 2 && Pow2(2) == 4 && Pow2(3) == 8 && Pow2(4) == 16;
    assert Pow2(5) == 32 && Pow2(6) == 64 && Pow2(7) == 128 && Pow2(8) == 256;
  }

  lemma ClearLow(x: nat, d: nat)
    requires d > 0
    ensures x % d <= x && (x - x % d) % d == 0
  {
    DivModUnique(x - x % d, d, x / d, 0);
  }

  /** The two masks cut a byte at bit `k`. */
  lemma {:induction false} MaskedByte(x: byte, k: nat)
    requires 1 <= k <= 7
    ensures AndByte(x, 0xFF * Pow2(k) % 256) == x - x % Pow2(k)
    ensures AndByte(x, 0xFF / Pow2(8 - k)) == x % Pow2(k)
  {
    SmallMasks(k);
    AndHighMask(x, k, 8);
    AndLowMask(x, k);
  }

  /** Or-ing the parts of a byte cut at bit `k` gives the byte back. */
  lemma {:induction false} SharedByte(x: byte, k: nat)
    requires 1 <= k <= 7
    ensures OrByte(AndByte(x, 0xFF / Pow2(8 - k)), AndByte(x, 0xFF * Pow2(k) % 256)) == x
  {
    MaskedByte(x, k);
    ClearLow(x, Pow2(k));
    OrDisjoint(x - x % Pow2(k), x % Pow2(k), k);
    OrCommutes(x - x % Pow2(k), x % Pow2(k));
  }

  /** A bit position inside a byte: `k` bits of byte `start` belong to the suffix. */
  lemma CutPosition(p: nat, n: nat) returns (start: nat, k: nat)
    requires p <= 8 * n && p % 8 != 0
    ensures start < n && 1 <= k <= 7 && p + 8 * start + k == 8 * n
    ensures WholeBytes(p) == n - start && WholeBytes(8 * n - p) == start + 1
  {
    start, k := n - WholeBytes(p), 8 - p % 8;
  }

  /** The parts of a hash that is cut inside byte `start`. */
  lemma {:induction false} UnalignedParts(h: seq<byte>, p: nat, start: nat, k: nat)
    requires start < |h| && 1 <= k <= 7 && p + 8 * start + k == 8 * |h|
    ensures MsPrefixBytesMasked(h, p) == [AndByte(h[start], 0xFF * Pow2(k) % 256)] + h[start + 1..]
    ensures LsSuffixBytesMasked(h, p) == h[..start] + [AndByte(h[start], 0xFF / Pow2(8 - k))]
  {
    assert WholeBytes(p) == |h| - start && WholeBytes(8 * |h| - p) == start + 1;
    FirstChanged(h[start..], AndByte(h[start], 0xFF * Pow2(k) % 256));
    LastChanged(h[..start + 1], AndByte(h[start], 0xFF / Pow2(8 - k)));
  }

  lemma FirstChanged(s: seq<byte>, x: byte)
    requires s != []
    ensures s[0 := x] == [x] + s[1..]
  {
  }

  lemma LastChanged(s: seq<byte>, x: byte)
    requires s != []
    ensures s[|s| - 1 := x] == s[..|s| - 1] + [x]
  {
  }

  /** The parts of a hash that is cut between bytes. */
  lemma AlignedParts(h: seq<byte>, p: nat, start: nat)
    requires start <= |h| && p + 8 * start == 8 * |h|
    ensures MsPrefixBytesMasked(h, p) == h[start..] && LsSuffixBytesMasked(h, p) == h[..start]
  {
  }

  lemma JoinAligned(h: seq<byte>, p: nat, start: nat)
    requires start <= |h| && p + 8 * start == 8 * |h|
    ensures WholeBytes(p) == |h| - start && WholeBytes(8 * |h| - p) == start
    ensures HashFromPrefixSuffix(h[start..], h[..start], |h|, p) == h
  {
  }

  lemma JoinUnaligned(h: seq<byte>, p: nat, start: nat, k: nat, hi: byte, lo: byte)
    requires start < |h| && 1 <= k <= 7 && p + 8 * start + k == 8 * |h| && OrByte(lo, hi) == h[start]
    ensures WholeBytes(p) == |h| - start && WholeBytes(8 * |h| - p) == start + 1
    ensures HashFromPrefixSuffix([hi] + h[start + 1..], h[..start] + [lo], |h|, p) == h
  {
  }

  /** The shared byte goes partly to the suffix and partly to the prefix. */
  lemma PartsOfCut(h: seq<byte>, p: nat, start: nat, k: nat) returns (lo: byte, hi: byte)
    requires start < |h| && 1 <= k <= 7 && p + 8 * start + k == 8 * |h|
    ensures MsPrefixBytesMasked(h, p) == [hi] + h[start + 1..]
    ensures LsSuffixBytesMasked(h, p) == h[..start] + [lo]
    ensures OrByte(lo, hi) == h[start] && lo == h[start] % Pow2(k)
  {
    lo, hi := AndByte(h[start], 0xFF / Pow2(8 - k)), AndByte(h[start], 0xFF * Pow2(k) % 256);
    UnalignedParts(h, p, start, k);
    SharedByte(h[start], k);
    MaskedByte(h[start], k);
  }

  /** Splitting a hash at any bit and joining the parts gives the hash back. */
  lemma SplitThenJoin(h: seq<byte>, p: nat)
    requires p <= 8 * |h|
    ensures HashFromPrefixSuffix(MsPrefixBytesMasked(h, p), LsSuffixBytesMasked(h, p), |h|, p) == h
  {
    if p % 8 == 0 {
      var start := |h| - p / 8;
      AlignedParts(h, p, start);
      JoinAligned(h, p, start);
    } else {
      var start, k := CutPosition(p, |h|);
      var lo, hi := PartsOfCut(h, p, start, k);
      JoinUnaligned(h, p, start, k, hi, lo);
    }
  }

  // ---------------------------------------------------------------- the arithmetic meaning

  /** Dividing a number whose low part is below `a`. */
  lemma DivideHigh(lo: nat, a: nat, x: nat, b: nat)
    requires a > 0 && b > 0 && lo < a
    ensures a * b > 0
    ensures (lo + a * x) / (a * b) == x / b
    ensures (lo + a * x) % (a * b) == lo + a * (x % b)
  {
    var q, r := x / b, x % b;
    assert a * b > 0;
    assert lo + a * x == q * (a * b) + (lo + a * r) by {
      assert x == q * b + r;
      assert a * x == a * (q * b) + a * r;
      assert a * (q * b) == q * (a * b);
    }
    assert lo + a * r < a * b by {
      assert a * (r + 1) <= a * b;
      assert a * (r + 1) == a * r + a;
    }
    DivModUnique(lo + a * x, a * b, q, lo + a * r);
  }

  lemma {:induction false} SplitValue(h: seq<byte>, i: nat)
    requires i <= |h|
    ensures Value(h) == Value(h[..i]) + Pow2(8 * i) * Value(h[i..])
    ensures Value(h[..i]) < Pow2(8 * i)
  {
    assert h == h[..i] + h[i..];
    ValueConcat(h[..i], h[i..]);
    ValueBound(h[..i]);
  }

  lemma {:induction false} PrefixIndexIsQuotient(h: seq<byte>, p: nat)
    requires p <= 64 && p <= 8 * |h|
    ensures MsPrefixIndex(h, p) == Value(h) / Pow2(8 * |h| - p)
  {
    ValueBound(h);
    if p == 0 {
      DivModUnique(Value(h), Pow2(8 * |h|), 0, Value(h));
    } else {
      var w := if |h| < 8 then |h| else 8;
      SplitValue(h, |h| - w);
      var a, b := Pow2(8 * (|h| - w)), Pow2(8 * w - p);
      Pow2Add(8 * (|h| - w), 8 * w - p);
      DivideHigh(Value(h[..|h| - w]), a, Value(h[|h| - w..]), b);
    }
  }

  lemma AddMultiple(x: nat, m: nat, d: nat)
    requires d > 0
    ensures (x + d * m) % d == x % d
  {
    assert (x / d + m) * d == x / d * d + d * m;
    DivModUnique(x + d * m, d, x / d + m, x % d);
  }

  lemma {:induction false} LowBitsOfByte(x: nat, rest: nat, k: nat)
    requires k <= 8
    ensures (x + 256 * rest) % Pow2(k) == x % Pow2(k)
  {
    Pow2Add(k, 8 - k);
    assert Pow2(8) == 256;
    Associate(Pow2(k), Pow2(8 - k), rest);
    AddMultiple(x, Pow2(8 - k) * rest, Pow2(k));
  }

  lemma Associate(a: nat, b: nat, c: nat)
    ensures (a * b) * c == a * (b * c)
  {
  }

  lemma {:induction false} ValueOfLast(a: seq<byte>, x: byte)
    ensures Value(a + [x]) == Value(a) + Pow2(8 * |a|) * x
  {
    ValueConcat(a, [x]);
    assert Value([x]) == x;
  }

  /** A number cut at bit `8i + k`. */
  lemma {:induction false} CutInsideByte(h: seq<byte>, i: nat, k: nat)
    requires i < |h| && k <= 8
    ensures Value(h) % Pow2(8 * i + k) == Value(h[..i]) + Pow2(8 * i) * (h[i] % Pow2(k))
  {
    SplitValue(h, i);
    assert h[i..][1..] == h[i + 1..];
    LowBitsOfByte(h[i], Value(h[i + 1..]), k);
    Pow2Add(8 * i, k);
    DivideHigh(Value(h[..i]), Pow2(8 * i), Value(h[i..]), Pow2(k));
  }

  lemma {:induction false} SuffixIsRemainder(h: seq<byte>, p: nat)
    requires p <= 8 * |h|
    ensures Value(LsSuffixBytesMasked(h, p)) == Value(h) % Pow2(8 * |h| - p)
  {
    if p % 8 == 0 {
      var start := |h| - p / 8;
      AlignedParts(h, p, start);
      CutBetweenBytes(h, start);
    } else {
      var start, k := CutPosition(p, |h|);
      var lo, _ := PartsOfCut(h, p, start, k);
      ValueOfCut(h, start, k, lo);
      assert 8 * |h| - p == 8 * start + k;
    }
  }

  lemma {:induction false} ValueOfCut(h: seq<byte>, start: nat, k: nat, lo: byte)
    requires start < |h| && 1 <= k <= 7 && lo == h[start] % Pow2(k)
    ensures Value(h[..start] + [lo]) == Value(h) % Pow2(8 * start + k)
  {
    CutInsideByte(h, start, k);
    ValueOfLast(h[..start], lo);
  }

  lemma {:induction false} CutBetweenBytes(h: seq<byte>, i: nat)
    requires i <= |h|
    ensures Value(h) % Pow2(8 * i) == Value(h[..i])
  {
    SplitValue(h, i);
    AddMultiple(Value(h[..i]), Value(h[i..]), Pow2(8 * i));
    DivModUnique(Value(h[..i]), Pow2(8 * i), 0, Value(h[..i]));
  }

  /** The hash as a number is its prefix index followed by its masked suffix. */
  lemma {:induction false} IndexAndSuffixMakeTheHash(h: seq<byte>, p: nat)
    requires p <= 64 && p <= 8 * |h|
    ensures Value(h) == MsPrefixIndex(h, p) * Pow2(8 * |h| - p) + Value(LsSuffixBytesMasked(h, p))
    ensures Value(LsSuffixBytesMasked(h, p)) < Pow2(8 * |h| - p)
    ensures MsPrefixIndex(h, p) < Pow2(p)
  {
    PrefixIndexIsQuotient(h, p);
    SuffixIsRemainder(h, p);
    ValueBound(h);
    Pow2Add(p, 8 * |h| - p);
    DivideBack(Value(h), Pow2(p), Pow2(8 * |h| - p));
  }

  lemma DivideBack(x: nat, a: nat, b: nat)
    requires b > 0 && x < a * b
    ensures x == x / b * b + x % b && 0 <= x % b < b && x / b < a
  {
  }

  /** The masked prefix, put back in its place, is the hash without its suffix. */
  lemma {:induction false} PrefixIsTheRest(h: seq<byte>, p: nat)
    requires p <= 8 * |h|
    ensures Value(MsPrefixBytesMasked(h, p)) * Pow2(8 * (|h| - WholeBytes(p))) ==
            Value(h) - Value(h) % Pow2(8 * |h| - p)
  {
    if p % 8 == 0 {
      var start := |h| - p / 8;
      AlignedParts(h, p, start);
      AlignedHigh(h, start);
      assert WholeBytes(p) == |h| - start && 8 * |h| - p == 8 * start;
    } else {
      var start, k := CutPosition(p, |h|);
      UnalignedHigh(h, p, start, k);
      assert 8 * |h| - p == 8 * start + k;
    }
  }

  lemma {:induction false} AlignedHigh(h: seq<byte>, start: nat)
    requires start <= |h|
    ensures Value(h[start..]) * Pow2(8 * start) == Value(h) - Value(h) % Pow2(8 * start)
  {
    CutBetweenBytes(h, start);
    SplitValue(h, start);
  }

  lemma {:induction false} UnalignedHigh(h: seq<byte>, p: nat, start: nat, k: nat)
    requires start < |h| && 1 <= k <= 7 && p + 8 * start + k == 8 * |h|
    ensures Value(MsPrefixBytesMasked(h, p)) * Pow2(8 * start) == Value(h) - Value(h) % Pow2(8 * start + k)
  {
    UnalignedParts(h, p, start, k);
    MaskedByte(h[start], k);
    ClearLow(h[start], Pow2(k));
    ValueOfHigh(h, start, k, AndByte(h[start], 0xFF * Pow2(k) % 256));
  }

  lemma {:induction false} ValueOfHigh(h: seq<byte>, start: nat, k: nat, hi: byte)
    requires start < |h| && 1 <= k <= 7 && hi + h[start] % Pow2(k) == h[start]
    ensures Value([hi] + h[start + 1..]) * Pow2(8 * start) == Value(h) - Value(h) % Pow2(8 * start + k)
  {
    var above := h[start + 1..];
    CutInsideByte(h, start, k);
    SplitValue(h, start);
    assert h[start..][1..] == above && ([hi] + above)[1..] == above;
    HighParts(Value(h), Value(h[..start]), Pow2(8 * start), h[start], h[start] % Pow2(k), hi, Value(above));
  }

  lemma HighParts(v: nat, low: nat, weight: nat, x: nat, r: nat, hi: nat, above: nat)
    requires v == low + weight * (x + 256 * above) && hi + r == x
    ensures (hi + 256 * above) * weight == v - (low + weight * r)
  {
    assert weight * (x + 256 * above) == weight * r + weight * (hi + 256 * above);
  }

  /** The whole bytes of some bits are the least number of bytes that hold them. */
  lemma WholeBytesIsLeast(bits: nat, k: nat)
    ensures WholeBytes(bits) <= k <==> bits <= 8 * k
  {
  }

  // ---------------------------------------------------------------- file paths

  type Path = seq<string>

  function HexDigit(d: nat): char
    requires d < 16
  {
    if d < 10 then (48 + d) as char else (55 + d) as char
  }

  /** Two upper-case hexadecimal digits. */
  function Hex(b: byte): string {
    [HexDigit(b / 16), HexDigit(b % 16)]
  }

  const FILE_SUFFIX := "_LsSuffixEntries.bin"

  /** The folders and the file of an index below `2^p`, one byte per level. */
  function PathLevels(index: nat, levels: nat, k: nat): Path
    requires k <= levels
  {
    if k == 0 then []
    else
      var b := Shr(index, 8 * (levels - k)) % 256;
      PathLevels(index, levels, k - 1) + [Hex(b) + if k == levels then FILE_SUFFIX else ""]
  }

  function MsPrefixPath(base: Path, p: nat, index: nat): Option<Path> {
    if p > 64 then None
    else if p == 0 then Some(base + ["HashEntries.bin"])
    else Some(base + ["MsPrefix"] + PathLevels(index % Pow2(p), WholeBytes(p), WholeBytes(p)))
  }

  method MakeMsPrefixPath(base: Path, p: nat, index: nat) returns (path: Option<Path>)
    ensures path == MsPrefixPath(base, p, index)
  {
    if p > 64 {
      return None;
    }
    if p == 0 {
      return Some(base + ["HashEntries.bin"]);
    }
    var result := base + ["MsPrefix"];
    var levels := (p + 7) / 8;
    var masked := And(index, Pow2(p) - 1);
    AndLowMask(index, p);
    for level := 0 to levels
      invariant result == base + ["MsPrefix"] + PathLevels(masked, levels, level)
    {
      var shift := levels * 8 - (level + 1) * 8;
      var b := ByteAt(masked, shift);
      assert shift == 8 * (levels - (level + 1));
      ghost var before := result;
      if level == levels - 1 {
        result := result + [Hex(b) + FILE_SUFFIX];
      } else {
        result := result + [Hex(b) + ""];
      }
      PathGrows(before, base, masked, levels, level, b);
    }
    path := Some(result);
  }

  /** `(x >> shift) & 0xFF` */
  function ByteAt(x: nat, shift: nat): (b: byte)
    ensures b == Shr(x, shift) % 256
  {
    ByteMask(Shr(x, shift));
    And(Shr(x, shift), 0xFF)
  }

  lemma {:induction false} ByteMask(x: nat)
    ensures And(x, 0xFF) == x % 256
  {
    assert Pow2(8) == 256;
    AndLowMask(x, 8);
  }

  lemma {:induction false} PathGrows(before: Path, base: Path, masked: nat, levels: nat, level: nat, b: byte)
    requires level < levels && before == base + ["MsPrefix"] + PathLevels(masked, levels, level)
    requires b == Shr(masked, 8 * (levels - (level + 1))) % 256
    ensures before + [Hex(b) + if level == levels - 1 then FILE_SUFFIX else ""]
            == base + ["MsPrefix"] + PathLevels(masked, levels, level + 1)
  {
  }

  lemma HexInjective(a: byte, b: byte, s: string, t: string)
    requires Hex(a) + s == Hex(b) + t
    ensures a == b
  {
    assert (Hex(a) + s)[0] == HexDigit(a / 16) && (Hex(a) + s)[1] == HexDigit(a % 16);
    assert (Hex(b) + t)[0] == HexDigit(b / 16) && (Hex(b) + t)[1] == HexDigit(b % 16);
  }

  lemma {:induction false} PathLevelsLength(index: nat, levels: nat, k: nat)
    requires k <= levels
    ensures |PathLevels(index, levels, k)| == k
  {
    if k > 0 {
      PathLevelsLength(index, levels, k - 1);
    }
  }

  lemma {:induction false} PathLevelsDigits(i: nat, j: nat, levels: nat, k: nat, l: nat)
    requires l < k <= levels && PathLevels(i, levels, k) == PathLevels(j, levels, k)
    ensures Shr(i, 8 * (levels - 1 - l)) % 256 == Shr(j, 8 * (levels - 1 - l)) % 256
  {
    PathLevelsLength(i, levels, k - 1);
    PathLevelsLength(j, levels, k - 1);
    var u, w := PathLevels(i, levels, k), PathLevels(j, levels, k);
    if l == k - 1 {
      assert u[k - 1] == w[k - 1];
      var tail := if k == levels then FILE_SUFFIX else "";
      HexInjective(Shr(i, 8 * (levels - k)) % 256, Shr(j, 8 * (levels - k)) % 256, tail, tail);
    } else {
      assert u[..k - 1] == PathLevels(i, levels, k - 1) && w[..k - 1] == PathLevels(j, levels, k - 1);
      PathLevelsDigits(i, j, levels, k - 1, l);
    }
  }

  lemma {:induction false} LittleEndianDigit(v: nat, n: nat, k: nat)
    requires k < n
    ensures LittleEndian(v, n)[k] == Shr(v, 8 * k) % 256
  {
    if k > 0 {
      LittleEndianDigit(v / 256, n - 1, k - 1);
      Pow2Byte(k - 1);
      DivDiv(v, 256, Pow2(8 * (k - 1)));
    }
  }

  lemma DivDiv(v: nat, a: nat, b: nat)
    requires a > 0 && b > 0
    ensures a * b > 0 && v / a / b == v / (a * b)
  {
    var lo, x := v % a, v / a;
    assert v == lo + a * x;
    DivideHigh(lo, a, x, b);
  }

  lemma {:induction false} LevelsAreDistinct(i: nat, j: nat, levels: nat)
    requires i < Pow2(8 * levels) && j < Pow2(8 * levels)
    requires PathLevels(i, levels, levels) == PathLevels(j, levels, levels)
    ensures i == j
  {
    forall k | 0 <= k < levels
      ensures LittleEndian(i, levels)[k] == LittleEndian(j, levels)[k]
    {
      LittleEndianDigit(i, levels, k);
      LittleEndianDigit(j, levels, k);
      PathLevelsDigits(i, j, levels, levels, levels - 1 - k);
    }
    assert LittleEndian(i, levels) == LittleEndian(j, levels);
    LittleEndianRoundTrip(i, levels);
    LittleEndianRoundTrip(j, levels);
  }

  /** Different prefix indices live in different files. */
  lemma {:induction false} PathsAreDistinct(base: Path, p: nat, i: nat, j: nat)
    requires 1 <= p <= 64 && i < Pow2(p) && j < Pow2(p)
    requires MsPrefixPath(base, p, i) == MsPrefixPath(base, p, j)
    ensures i == j
  {
    var levels := WholeBytes(p);
    DivModUnique(i, Pow2(p), 0, i);
    DivModUnique(j, Pow2(p), 0, j);
    Pow2Mono(p, 8 * levels);
    var u, w := PathLevels(i, levels, levels), PathLevels(j, levels, levels);
    var front := base + ["MsPrefix"];
    assert u == (front + u)[|front|..] && w == (front + w)[|front|..];
    LevelsAreDistinct(i, j, levels);
  }

  const HEX_DIGITS := "0123456789ABCDEF"

  lemma {:induction false} HexDigitIs(d: nat)
    requires d < 16
    ensures HexDigit(d) == HEX_DIGITS[d]
  {
  }

  /** Byte `l` of an index from the top, as two digits out of `HEX_DIGITS`, with the end of the file's
      name behind the last one. */
  ghost predicate SpellsByte(name: string, index: nat, levels: nat, l: nat)
    requires l < levels
  {
    var b := index / Pow2(8 * (levels - 1 - l)) % 256;
    name == [HEX_DIGITS[b / 16], HEX_DIGITS[b % 16]] + if l == levels - 1 then "_LsSuffixEntries.bin" else ""
  }

  lemma {:induction false} LevelsSpellTheIndex(index: nat, levels: nat, k: nat)
    requires k <= levels
    ensures |PathLevels(index, levels, k)| == k
    ensures forall l :: 0 <= l < k ==> SpellsByte(PathLevels(index, levels, k)[l], index, levels, l)
  {
    if k > 0 {
      LevelsSpellTheIndex(index, levels, k - 1);
      var b := Shr(index, 8 * (levels - k)) % 256;
      HexDigitIs(b / 16);
      HexDigitIs(b % 16);
    }
  }

  /** The path of an index spells the bytes of its low `p` bits, most significant first, one folder
      each, in as few levels as hold them; without prefix bits there is one file, and beyond 64
      bits no path. */
  lemma {:induction false} PathSpellsTheIndex(base: Path, p: nat, index: nat)
    ensures MsPrefixPath(base, p, index).None? <==> p > 64
    ensures p == 0 ==> MsPrefixPath(base, p, index) == Some(base + ["HashEntries.bin"])
    ensures 1 <= p <= 64 ==>
              exists names: Path ::
                && MsPrefixPath(base, p, index) == Some(base + ["MsPrefix"] + names)
                && 8 * (|names| - 1) < p <= 8 * |names|
                && forall l :: 0 <= l < |names| ==> SpellsByte(names[l], index % Pow2(p), |names|, l)
  {
    if 1 <= p <= 64 {
      LevelsSpellTheIndex(index % Pow2(p), WholeBytes(p), WholeBytes(p));
    }
  }
}
