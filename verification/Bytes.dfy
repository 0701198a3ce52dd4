/** Byte strings read and written as little-endian numbers. */
module Bytes {
  import opened Bits

  type byte = x: int | 0 <= x < 256

  const ALL_ONES: byte := 0xFF

  /** The `n` low bytes of `v`, least significant first. */
  function LittleEndian(v: nat, n: nat): (r: seq<byte>)
    ensures |r| == n
  {
    if n == 0 then [] else [v % 256] + LittleEndian(v / 256, n - 1)
  }

  function Value(s: seq<byte>): nat {
    if s == [] then 0 else s[0] + 256 * Value(s[1..])
  }

  /** The `n`-byte sentinel. */
  function Ones(n: nat): (r: seq<byte>)
    ensures |r| == n && forall i :: 0 <= i < n ==> r[i] == ALL_ONES
  {
    seq(n, _ => ALL_ONES)
  }

  lemma {:induction false} Pow2Byte(n: nat)
    ensures Pow2(8 * (n + 1)) == 256 * Pow2(8 * n)
  {
    Pow2Add(8 * n, 8);
    assert Pow2(8) == 256;
  }

  lemma {:induction false} ValueBound(s: seq<byte>)
    ensures Value(s) < Pow2(8 * |s|)
  {
    if s != [] {
      ValueBound(s[1..]);
      Pow2Byte(|s| - 1);
    }
  }

  lemma Shuffle(q: nat, m: nat)
    ensures q * (256 * m) == 256 * (q * m)
  {
  }

  lemma {:induction false} ValueConcat(a: seq<byte>, b: seq<byte>)
    ensures Value(a + b) == Value(a) + Pow2(8 * |a|) * Value(b)
  {
    if a == [] {
      assert a + b == b;
    } else {
      assert (a + b)[1..] == a[1..] + b;
      ValueConcat(a[1..], b);
      Pow2Byte(|a| - 1);
      Carry(a[0], Value(a[1..]), Pow2(8 * (|a| - 1)), Value(b), Pow2(8 * |a|));
    }
  }

  lemma Carry(x: nat, high: nat, p: nat, y: nat, q: nat)
    requires q == 256 * p
    ensures x + 256 * (high + p * y) == (x + 256 * high) + q * y
  {
  }

  /** The low byte and the digits above it. */
  lemma DigitsModulo(v: nat, m: nat)
    requires m > 0
    ensures v % (256 * m) == v % 256 + 256 * (v / 256 % m)
  {
    var h, d := v / 256, v % 256;
    var q, r := h / m, h % m;
    assert h == q * m + r;
    Shuffle(q, m);
    DivModUnique(v, 256 * m, q, d + 256 * r);
  }

  /** Writing keeps exactly the number modulo the width. */
  lemma {:induction false} ValueLittleEndian(v: nat, n: nat)
    ensures Value(LittleEndian(v, n)) == v % Pow2(8 * n)
  {
    if n > 0 {
      var rest := LittleEndian(v / 256, n - 1);
      assert ([v % 256] + rest)[1..] == rest;
      ValueLittleEndian(v / 256, n - 1);
      Pow2Byte(n - 1);
      DigitsModulo(v, Pow2(8 * (n - 1)));
    }
  }

  lemma {:induction false} LittleEndianRoundTrip(v: nat, n: nat)
    requires v < Pow2(8 * n)
    ensures Value(LittleEndian(v, n)) == v
  {
    ValueLittleEndian(v, n);
    DivModUnique(v, Pow2(8 * n), 0, v);
  }

  /** A byte string is determined by its length and its number. */
  lemma {:induction false} ValueInjective(a: seq<byte>, b: seq<byte>)
    requires |a| == |b| && Value(a) == Value(b)
    ensures a == b
  {
    if a != [] {
      DivModUnique(Value(a), 256, Value(a[1..]), a[0]);
      DivModUnique(Value(b), 256, Value(b[1..]), b[0]);
      ValueInjective(a[1..], b[1..]);
      assert a == [a[0]] + a[1..] && b == [b[0]] + b[1..];
    }
  }

  lemma {:induction false} ValueOnes(n: nat)
    ensures Value(Ones(n)) == Pow2(8 * n) - 1
  {
    if n > 0 {
      assert Ones(n)[1..] == Ones(n - 1);
      ValueOnes(n - 1);
      Pow2Byte(n - 1);
    }
  }
}
