/**
 Bytes as the integers they hold, powers, and unsigned numbers of several bytes,
 least significant byte first.
 */
module Bytes {
  type Byte = b: int | 0 <= b < 256

  function Pow(b: nat, n: nat): (p: nat)
    ensures b > 0 ==> p > 0
  {
    if n == 0 then 1 else b * Pow(b, n - 1)
  }

  lemma Doubled(p: nat, r: nat)
    ensures 2 * p * r == 2 * (p * r)
  {
  }

  lemma EightBits()
    ensures Pow(2, 8) == 256
  {
    assert Pow(2, 4) == 16;
  }

  /** The number a machine reads from these bytes. */
  function Unsigned(b: seq<Byte>): (u: nat)
    ensures u < Pow(256, |b|)
  {
    if b == [] then 0 else var low: int := b[0]; low + 256 * Unsigned(b[1..])
  }

  /** The `w` bytes it writes for a number. */
  function ToBytes(u: nat, w: nat): (b: seq<Byte>)
    ensures |b| == w
  {
    if w == 0 then [] else [u % 256] + ToBytes(u / 256, w - 1)
  }

  /** Least significant byte first. */
  lemma {:induction false} ToBytesAt(u: nat, w: nat, i: nat)
    requires i < w
    ensures ToBytes(u, w)[i] == u / Pow(256, i) % 256
  {
    if i > 0 {
      hide Pow;
      ToBytesAt(u / 256, w - 1, i - 1);
      PowStep(i);
      DivTwice(u, Pow(256, i - 1));
    }
  }

  lemma PowStep(i: nat)
    requires i > 0
    ensures Pow(256, i) == 256 * Pow(256, i - 1)
  {
  }

  lemma DivTwice(u: nat, p: nat)
    requires p > 0
    ensures u / 256 / p == u / (256 * p)
  {
    var q, r := u / 256 / p, u / 256 % p;
    assert u / 256 == q * p + r;
    assert u == q * (256 * p) + (256 * r + u % 256);
    QuotientIs(u, 256 * p, q, 256 * r + u % 256);
  }

  lemma QuotientIs(u: nat, m: nat, q: nat, r: nat)
    requires m > 0 && u == q * m + r && r < m
    ensures u / m == q
  {
    var p, s := u / m, u % m;
    assert u == p * m + s;
    if p > q { Wider(p, q, m); } else if p < q { Wider(q, p, m); }
  }

  lemma Wider(a: nat, b: nat, m: nat)
    requires a > b
    ensures a * m >= b * m + m
  {
    assert a * m == b * m + (a - b) * m;
    assert (a - b) * m == m + (a - b - 1) * m;
  }

  lemma {:induction false} UnsignedToBytes(u: nat, w: nat)
    requires u < Pow(256, w)
    ensures Unsigned(ToBytes(u, w)) == u
  {
    if w > 0 {
      UnsignedToBytes(u / 256, w - 1);
      assert ToBytes(u, w)[1..] == ToBytes(u / 256, w - 1);
    }
  }

  lemma {:induction false} ToBytesUnsigned(b: seq<Byte>)
    ensures ToBytes(Unsigned(b), |b|) == b
  {
    if b != [] {
      hide Pow;
      ToBytesUnsigned(b[1..]);
      var low: int, r := b[0], Unsigned(b[1..]);
      assert (low + 256 * r) % 256 == low && (low + 256 * r) / 256 == r;
      assert b == [b[0]] + b[1..];
    }
  }
}
