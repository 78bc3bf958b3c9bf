/**
 bitops.c: counting the bits of a byte string sixteen bytes at a time. Masks and
 shifts of unsigned words are written as arithmetic on their digits.
 */
module Popcount {
  import opened Bytes

  /** The number of ones among the low `n` bits. */
  function Ones(x: nat, n: nat): (r: nat)
    ensures r <= n
  {
    if n == 0 then 0 else x % 2 + Ones(x / 2, n - 1)
  }

  function Count(s: seq<Byte>): nat {
    if s == [] then 0 else Ones(s[0], 8) + Count(s[1..])
  }

  lemma {:induction false} CountAppend(s: seq<Byte>, t: seq<Byte>)
    ensures Count(s + t) == Count(s) + Count(t)
  {
    if s == [] {
      assert s + t == t;
    } else {
      assert (s + t)[1..] == s[1..] + t;
      CountAppend(s[1..], t);
    }
  }

  // Fields of 2, 4 and 8 bits.

  /** `x & 0x55..`, `n` fields of two bits. */
  function And5(x: nat, n: nat): nat {
    if n == 0 then 0 else x % 2 + 4 * And5(x / 4, n - 1)
  }

  /** `x & 0x33..`, `n` fields of four bits. */
  function And3(x: nat, n: nat): nat {
    if n == 0 then 0 else x % 4 + 16 * And3(x / 16, n - 1)
  }

  /** `x & 0x0F..`, `n` fields of eight bits. */
  function AndF(x: nat, n: nat): nat {
    if n == 0 then 0 else x % 16 + 256 * AndF(x / 256, n - 1)
  }

  /** Bit counts of the two-bit fields of `x`, as digits in base 4. */
  function Pairs(x: nat, n: nat): nat {
    if n == 0 then 0 else Ones(x, 2) + 4 * Pairs(x / 4, n - 1)
  }

  function Quads(x: nat, n: nat): nat {
    if n == 0 then 0 else Ones(x, 4) + 16 * Quads(x / 16, n - 1)
  }

  function Octets(x: nat, n: nat): nat {
    if n == 0 then 0 else Ones(x, 8) + 256 * Octets(x / 256, n - 1)
  }

  lemma Ones2(x: nat)
    ensures Ones(x, 2) == x % 2 + x / 2 % 2
  {
    assert Ones(x / 2, 1) == x / 2 % 2 + Ones(x / 2 / 2, 0);
  }

  lemma OnesMore(x: nat, m: nat)
    ensures Ones(x, m + 2) == Ones(x, 2) + Ones(x / 4, m)
  {
    Ones2(x);
    assert x / 2 / 2 == x / 4;
    assert Ones(x, m + 2) == x % 2 + Ones(x / 2, m + 1);
    assert Ones(x / 2, m + 1) == x / 2 % 2 + Ones(x / 4, m);
  }

  lemma Ones4(x: nat)
    ensures Ones(x, 4) == Ones(x, 2) + Ones(x / 4, 2)
  {
    OnesMore(x, 2);
  }

  lemma Ones8(x: nat)
    ensures Ones(x, 8) == Ones(x, 4) + Ones(x / 16, 4)
  {
    hide Ones;
    OnesMore(x, 6);
    OnesMore(x / 4, 4);
    assert x / 4 / 4 == x / 16;
    Ones4(x);
  }

  /** `x - ((x >> 1) & 0x55..)` counts the bits of each pair. */
  lemma {:induction false} PairStage(x: nat, n: nat)
    requires x < Pow(4, n)
    ensures x - And5(x / 2, n) == Pairs(x, n)
  {
    if n > 0 {
      hide Ones;
      var p, a, b, c := Pow(4, n - 1), And5(x / 2, n), And5(x / 2 / 4, n - 1), Pairs(x / 4, n - 1);
      assert Pow(4, n) == 4 * p && a == x / 2 % 2 + 4 * b && Pairs(x, n) == Ones(x, 2) + 4 * c;
      Ones2(x);
      Digits2(x, p);
      PairStage(x / 4, n - 1);
    }
  }

  lemma Digits2(x: nat, p: nat)
    ensures x < 4 * p ==> x / 4 < p
    ensures x == x % 2 + 2 * (x / 2 % 2) + 4 * (x / 4) && x / 2 / 4 == x / 4 / 2
  {
    Quarters(x / 4, x % 4);
    Eighths(x / 8, x % 8);
  }

  lemma Quarters(q: nat, r: nat)
    requires r < 4
    ensures var x := 4 * q + r; x == x % 2 + 2 * (x / 2 % 2) + 4 * q && x / 4 == q
  {
    var x := 4 * q + r;
    assert x / 2 == 2 * q + (if r < 2 then 0 else 1);
  }

  lemma Eighths(q: nat, r: nat)
    requires r < 8
    ensures var x := 8 * q + r; x / 2 / 4 == q && x / 4 / 2 == q
  {
    var x := 8 * q + r;
    assert x / 2 == 4 * q + r / 2;
    assert x / 4 == 2 * q + r / 4;
  }

  /** `(y & 0x33..) + ((y >> 2) & 0x33..)` adds neighbouring pairs. */
  lemma {:induction false} QuadStage(x: nat, m: nat)
    ensures var y := Pairs(x, 2 * m); And3(y, m) + And3(y / 4, m) == Quads(x, m)
  {
    if m > 0 {
      var y, y' := Pairs(x, 2 * m), Pairs(x / 16, 2 * (m - 1));
      var a, b := Ones(x, 2), Ones(x / 4, 2);
      assert x / 4 / 4 == x / 16;
      assert y == a + 4 * Pairs(x / 4, 2 * m - 1);
      assert Pairs(x / 4, 2 * m - 1) == b + 4 * Pairs(x / 4 / 4, 2 * m - 2);
      Digits4(y, a, b, y');
      QuadStage(x / 16, m - 1);
      Ones4(x);
    }
  }

  lemma Digits4(y: nat, a: nat, b: nat, r: nat)
    requires a <= 2 && b <= 2 && y == a + 4 * (b + 4 * r)
    ensures y % 4 == a && y / 4 % 4 == b && y / 16 == r && y / 4 / 16 == r / 4
  {
  }

  lemma {:induction false} QuadsBound(x: nat, n: nat)
    ensures 3 * Quads(x, n) < Pow(16, n)
    ensures Quads(x, n) % 16 <= 4
  {
    if n > 0 {
      hide Ones;
      QuadsBound(x / 16, n - 1);
      LowDigit(Ones(x, 4), Quads(x / 16, n - 1));
    }
  }

  lemma LowDigit(a: nat, r: nat)
    requires a < 16
    ensures (a + 16 * r) % 16 == a
  {
  }

  /** `(z + (z >> 4)) & 0x0F..` adds neighbouring quads. */
  function Folded(x: nat, m: nat): nat {
    var z := Quads(x, 2 * m);
    AndF(z + z / 16, m)
  }

  lemma {:induction false} OctetStage(x: nat, m: nat)
    ensures Folded(x, m) == Octets(x, m)
  {
    if m > 0 {
      hide Folded, Ones;
      FoldNext(x, m);
      OctetStage(x / 256, m - 1);
    }
  }

  lemma FoldNext(x: nat, m: nat)
    requires m > 0
    ensures Folded(x, m) == Ones(x, 8) + 256 * Folded(x / 256, m - 1)
  {
    hide Ones, Quads, AndF;
    var z := Quads(x, 2 * m);
    NextOctet(x, m);
    FirstOctet(z + z / 16, m);
  }

  lemma NextOctet(x: nat, m: nat)
    requires m > 0
    ensures var z, r := Quads(x, 2 * m), Quads(x / 256, 2 * (m - 1));
            (z + z / 16) % 16 == Ones(x, 8) && (z + z / 16) / 256 == r + r / 16
  {
    hide Ones, Quads;
    TwoQuads(x, m);
    QuadsBound(x / 256, 2 * (m - 1));
    Ones8(x);
    Digits16(Quads(x, 2 * m), Ones(x, 4), Ones(x / 16, 4), Quads(x / 256, 2 * (m - 1)));
  }

  lemma FirstOctet(u: nat, m: nat)
    requires m > 0
    ensures AndF(u, m) == u % 16 + 256 * AndF(u / 256, m - 1)
  {
  }

  lemma TwoQuads(x: nat, m: nat)
    requires m > 0
    ensures Quads(x, 2 * m) == Ones(x, 4) + 16 * (Ones(x / 16, 4) + 16 * Quads(x / 256, 2 * (m - 1)))
  {
    hide Ones;
    assert x / 16 / 16 == x / 256;
    assert Quads(x / 16, 2 * m - 1) == Ones(x / 16, 4) + 16 * Quads(x / 16 / 16, 2 * m - 2);
  }

  lemma Digits16(z: nat, a: nat, b: nat, r: nat)
    requires a <= 4 && b <= 4 && r % 16 <= 4 && z == a + 16 * (b + 16 * r)
    ensures (z + z / 16) % 16 == a + b && (z + z / 16) / 256 == r + r / 16
  {
    assert z / 16 == b + 16 * r;
    assert (b + r) / 16 == r / 16;
    assert z + z / 16 == (a + b) + 16 * (b + r + 16 * r);
  }

  /** The product with 0x01010101 collects the four bytes in the top one. */
  lemma ByteSum(d0: nat, d1: nat, d2: nat, d3: nat)
    requires d0 <= 8 && d1 <= 8 && d2 <= 8 && d3 <= 8
    ensures var w := d0 + 256 * (d1 + 256 * (d2 + 256 * d3));
            w * 0x01010101 % 0x1_0000_0000 / 0x100_0000 == d0 + d1 + d2 + d3
  {
    var w := d0 + 256 * (d1 + 256 * (d2 + 256 * d3));
    var low := d0 + 256 * (d0 + d1) + 0x1_0000 * (d0 + d1 + d2);
    var high := (d1 + d2 + d3) + 256 * (d2 + d3) + 0x1_0000 * d3;
    TopByte(w * 0x01010101, low, d0 + d1 + d2 + d3, high);
  }

  lemma TopByte(x: nat, low: nat, top: nat, high: nat)
    requires low < 0x100_0000 && top < 256 && x == low + 0x100_0000 * top + 0x1_0000_0000 * high
    ensures x % 0x1_0000_0000 / 0x100_0000 == top
  {
    assert x % 0x1_0000_0000 == low + 0x100_0000 * top;
  }

  /** The count of one 32-bit word; only the product exceeds 32 bits. */
  function WordCount(aux: nat): (r: nat)
    requires aux < 0x1_0000_0000
  {
    WordStages(aux);
    var y := aux - And5(aux / 2, 16);
    var z := And3(y, 8) + And3(y / 4, 8);
    AndF(z + z / 16, 4) * 0x01010101 % 0x1_0000_0000 / 0x100_0000
  }

  lemma WordStages(aux: nat)
    requires aux < 0x1_0000_0000
    ensures aux >= And5(aux / 2, 16)
    ensures var y := aux - And5(aux / 2, 16);
            var z := And3(y, 8) + And3(y / 4, 8);
            && 3 * z < 0x1_0000_0000
            && AndF(z + z / 16, 4) * 0x01010101 % 0x1_0000_0000 / 0x100_0000 ==
               Ones(aux, 8) + Ones(aux / 0x100, 8) + Ones(aux / 0x1_0000, 8) + Ones(aux / 0x100_0000, 8)
  {
    hide And5, And3, AndF, Pairs, Quads, Octets, Ones, Pow;
    Powers();
    PairStage(aux, 16);
    QuadStage(aux, 8);
    QuadsBound(aux, 8);
    OctetStage(aux, 4);
    FourOctets(aux);
    ByteSum(Ones(aux, 8), Ones(aux / 0x100, 8), Ones(aux / 0x1_0000, 8), Ones(aux / 0x100_0000, 8));
  }

  lemma Powers()
    ensures Pow(4, 16) == 0x1_0000_0000 && Pow(16, 8) == 0x1_0000_0000
  {
    assert Pow(4, 4) == 256 && Pow(16, 2) == 256;
    assert Pow(4, 8) == 0x1_0000 by { assert Pow(4, 6) == 0x1000; }
    assert Pow(4, 12) == 0x100_0000 by { assert Pow(4, 10) == 0x10_0000; }
    assert Pow(4, 14) == 0x1000_0000;
    assert Pow(16, 4) == 0x1_0000;
    assert Pow(16, 6) == 0x100_0000;
  }

  lemma FourOctets(x: nat)
    ensures Octets(x, 4) ==
            Ones(x, 8) + 256 * (Ones(x / 0x100, 8) + 256 * (Ones(x / 0x1_0000, 8) + 256 * Ones(x / 0x100_0000, 8)))
  {
    hide Ones;
    assert x / 256 / 256 == x / 0x1_0000 && x / 0x1_0000 / 256 == x / 0x100_0000;
    assert Octets(x, 4) == Ones(x, 8) + 256 * Octets(x / 0x100, 3);
    assert Octets(x / 0x100, 3) == Ones(x / 0x100, 8) + 256 * Octets(x / 0x1_0000, 2);
    assert Octets(x / 0x1_0000, 2) == Ones(x / 0x1_0000, 8) + 256 * Octets(x / 0x100_0000, 1);
  }

  // Byte strings.

  function Load32(s: seq<Byte>, p: nat): (x: nat)
    requires p + 4 <= |s|
    ensures x < 0x1_0000_0000
  {
    assert Pow(256, 4) == 0x1_0000_0000 by { assert Pow(256, 2) == 0x1_0000; }
    Unsigned(s[p..p + 4])
  }

  lemma FourDigits(b: seq<Byte>)
    requires |b| == 4
    ensures var b0: int, b1: int, b2: int, b3: int := b[0], b[1], b[2], b[3];
            Unsigned(b) == b0 + 256 * (b1 + 256 * (b2 + 256 * b3))
  {
    assert Unsigned(b[1..]) == b[1] as int + 256 * Unsigned(b[1..][1..]) && b[1..][1..] == b[2..];
    assert Unsigned(b[2..]) == b[2] as int + 256 * Unsigned(b[2..][1..]) && b[2..][1..] == b[3..];
    assert Unsigned(b[3..]) == b[3] as int + 256 * Unsigned(b[3..][1..]) && b[3..][1..] == [];
  }

  lemma {:induction false} OnesLow(x: nat, r: nat, n: nat)
    ensures Ones(x + Pow(2, n) * r, n) == Ones(x, n)
  {
    if n > 0 {
      var k := Pow(2, n - 1) * r;
      Doubled(Pow(2, n - 1), r);
      assert (x + 2 * k) % 2 == x % 2 && (x + 2 * k) / 2 == x / 2 + k;
      OnesLow(x / 2, r, n - 1);
    }
  }

  lemma LoadedOnes(b: Byte, r: nat)
    ensures Ones(b + 256 * r, 8) == Ones(b, 8) && (b + 256 * r) / 256 == r
  {
    EightBits();
    OnesLow(b, r, 8);
  }

  lemma WordCounts(s: seq<Byte>, p: nat)
    requires p + 4 <= |s|
    ensures WordCount(Load32(s, p)) == Count(s[p..p + 4])
  {
    hide Ones, And5, And3, AndF, Unsigned;
    var x := Load32(s, p);
    FourDigits(s[p..p + 4]);
    var b1: int, b2: int, b3: int := s[p + 1], s[p + 2], s[p + 3];
    LoadedOnes(s[p], b1 + 256 * (b2 + 256 * b3));
    LoadedOnes(b1, b2 + 256 * b3);
    LoadedOnes(b2, b3);
    WordStages(x);
    assert x / 256 / 256 == x / 0x1_0000 && x / 0x1_0000 / 256 == x / 0x100_0000;
    FourBytes(s[p..p + 4]);
  }

  lemma FourBytes(s: seq<Byte>)
    requires |s| == 4
    ensures Count(s) == Ones(s[0], 8) + Ones(s[1], 8) + Ones(s[2], 8) + Ones(s[3], 8)
  {
    hide Ones;
    assert Count(s) == Ones(s[0], 8) + Count(s[1..]);
    assert Count(s[1..]) == Ones(s[1], 8) + Count(s[1..][1..]) && s[1..][1..] == s[2..];
    assert Count(s[2..]) == Ones(s[2], 8) + Count(s[2..][1..]) && s[2..][1..] == s[3..];
    assert Count(s[3..]) == Ones(s[3], 8) + Count(s[3..][1..]) && s[3..][1..] == [];
  }

  lemma CountStep(s: seq<Byte>, p: nat, q: nat)
    requires p <= q <= |s|
    ensures Count(s[..q]) == Count(s[..p]) + Count(s[p..q])
  {
    assert s[..q] == s[..p] + s[p..q];
    CountAppend(s[..p], s[p..q]);
  }

  lemma CountByte(s: seq<Byte>, p: nat)
    requires p < |s|
    ensures Count(s[..p + 1]) == Count(s[..p]) + Ones(s[p], 8)
  {
    CountStep(s, p, p + 1);
    assert s[p..p + 1] == [s[p]] && [s[p]][1..] == [];
  }

  /** `redisPopcount` of a string that starts at address `addr`. */
  method RedisPopcount(s: seq<Byte>, addr: nat) returns (bits: nat)
    ensures bits == Count(s)
  {
    hide Ones, Count, WordCount, Load32;
    var p: nat, count: nat := 0, |s|;
    bits := 0;
    assert Count(s[..0]) == 0 by { NoBytes(s); }
    while (addr + p) % 4 != 0 && count > 0
      invariant p + count == |s| && bits == Count(s[..p])
      decreases count
    {
      CountByte(s, p);
      bits := bits + Ones(s[p], 8);
      p, count := p + 1, count - 1;
    }
    while count >= 16
      invariant p + count == |s| && bits == Count(s[..p])
    {
      WordCounts(s, p);
      WordCounts(s, p + 4);
      WordCounts(s, p + 8);
      WordCounts(s, p + 12);
      CountStep(s, p, p + 4);
      CountStep(s, p + 4, p + 8);
      CountStep(s, p + 8, p + 12);
      CountStep(s, p + 12, p + 16);
      var aux1, aux2, aux3, aux4 := Load32(s, p), Load32(s, p + 4), Load32(s, p + 8), Load32(s, p + 12);
      p, count := p + 16, count - 16;
      bits := bits + WordCount(aux1) + WordCount(aux2) + WordCount(aux3) + WordCount(aux4);
    }
    while count > 0
      invariant p + count == |s| && bits == Count(s[..p])
      decreases count
    {
      CountByte(s, p);
      bits := bits + Ones(s[p], 8);
      p, count := p + 1, count - 1;
    }
    assert s[..p] == s;
  }

  lemma NoBytes(s: seq<Byte>)
    ensures Count(s[..0]) == 0
  {
    assert s[..0] == [];
  }
}
