/**
 Machine words as bit sequences, least significant bit first.

 `Num` reads a word as the number it holds; `Rank` reads the same bits in the
 opposite order, so `Rank(w)` is the number held by the bit reversal of `w`.
 */
module Words {

  const WIDTH: nat := 64

  type Bits = seq<bool>
  type Word = w: Bits | |w| == WIDTH witness seq(WIDTH, _ => false)

  function Pow2(n: nat): (p: nat)
    ensures p >= 1
  {
    if n == 0 then 1 else 2 * Pow2(n - 1)
  }

  function Bit(b: bool): (n: nat)
    ensures n <= 1
  {
    if b then 1 else 0
  }

  function Num(b: Bits): nat {
    if b == [] then 0 else Bit(b[0]) + 2 * Num(b[1..])
  }

  function Rank(b: Bits): nat {
    if b == [] then 0 else Bit(b[0]) * Pow2(|b| - 1) + Rank(b[1..])
  }

  function Repeat(x: bool, n: nat): (b: Bits)
    ensures |b| == n && forall i :: 0 <= i < n ==> b[i] == x
  {
    seq(n, _ => x)
  }

  function ToBits(n: nat, width: nat): (b: Bits)
    ensures |b| == width
  {
    if width == 0 then [] else [n % 2 == 1] + ToBits(n / 2, width - 1)
  }

  // C operators on words.

  function And(a: Word, b: Word): Word {
    seq(WIDTH, i requires 0 <= i < WIDTH => a[i] && b[i])
  }

  function Or(a: Word, b: Word): Word {
    seq(WIDTH, i requires 0 <= i < WIDTH => a[i] || b[i])
  }

  function Xor(a: Word, b: Word): Word {
    seq(WIDTH, i requires 0 <= i < WIDTH => a[i] != b[i])
  }

  function Not(a: Word): Word {
    seq(WIDTH, i requires 0 <= i < WIDTH => !a[i])
  }

  function Shl(a: Word, s: nat): Word {
    seq(WIDTH, i requires 0 <= i < WIDTH => i >= s && a[i - s])
  }

  function Shr(a: Word, s: nat): Word {
    seq(WIDTH, i requires 0 <= i < WIDTH => i + s < WIDTH && a[i + s])
  }

  /** Addition of one with ripple carry; the carry out of the last bit is lost. */
  function Inc(b: Bits): (r: Bits)
    ensures |r| == |b|
  {
    if b == [] then [] else if b[0] then [false] + Inc(b[1..]) else [true] + b[1..]
  }

  function Reverse(b: Bits): (r: Bits)
    ensures |r| == |b| && forall i :: 0 <= i < |b| ==> r[i] == b[|b| - 1 - i]
  {
    seq(|b|, i requires 0 <= i < |b| => b[|b| - 1 - i])
  }

  // Arithmetic of the two readings.

  lemma {:induction false} Pow2Add(a: nat, b: nat)
    ensures Pow2(a + b) == Pow2(a) * Pow2(b)
  {
    if a > 0 {
      Pow2Add(a - 1, b);
    }
  }

  lemma Pow2Mono(a: nat, b: nat)
    requires a <= b
    ensures Pow2(a) <= Pow2(b)
    ensures a < b ==> Pow2(a) < Pow2(b)
  {
    Pow2Add(a, b - a);
    if a < b {
      Pow2Add(1, b - a - 1);
      assert Pow2(1) == 2;
      assert Pow2(b - a) >= 2;
    }
    MulMono(Pow2(a), 1, Pow2(b - a));
  }

  lemma MulMono(a: nat, x: nat, y: nat)
    requires x <= y
    ensures a * x <= a * y
    ensures x < y && a > 0 ==> a * x < a * y
  {
  }

  /** Numbers written as a multiple of `p` and a remainder compare part by part. */
  lemma Lexicographic(p: nat, x: nat, r: nat, y: nat, q: nat)
    requires r < p && q < p
    ensures x < y ==> x * p + r < y * p + q && (x + 1) * p <= y * p + q
    ensures y < x ==> y * p + q < x * p + r
    ensures x == y ==> (x * p + r <= y * p + q <==> r <= q) && y * p + q < (x + 1) * p
  {
    if x < y { MulMono(p, x + 1, y); }
    if y < x { MulMono(p, y + 1, x); }
  }

  lemma {:induction false} NumBound(b: Bits)
    ensures Num(b) < Pow2(|b|)
  {
    if b != [] {
      NumBound(b[1..]);
    }
  }

  lemma {:induction false} RankBound(b: Bits)
    ensures Rank(b) < Pow2(|b|)
  {
    if b != [] {
      RankBound(b[1..]);
    }
  }

  lemma {:induction false} NumAppend(a: Bits, b: Bits)
    ensures Num(a + b) == Num(a) + Pow2(|a|) * Num(b)
  {
    if a == [] {
      assert a + b == b;
    } else {
      assert (a + b)[1..] == a[1..] + b;
      NumAppend(a[1..], b);
      Associate(2, Pow2(|a| - 1), Num(b));
    }
  }

  lemma {:induction false} RankAppend(a: Bits, b: Bits)
    ensures Rank(a + b) == Rank(a) * Pow2(|b|) + Rank(b)
  {
    if a == [] {
      assert a + b == b;
    } else {
      assert (a + b)[1..] == a[1..] + b;
      RankAppend(a[1..], b);
      Pow2Add(|a| - 1, |b|);
      Distribute(if a[0] then Pow2(|a| - 1) else 0, Rank(a[1..]), Pow2(|b|));
    }
  }

  lemma Associate(x: nat, y: nat, z: nat)
    ensures x * (y * z) == (x * y) * z
  {
  }

  lemma Distribute(x: nat, y: nat, p: nat)
    ensures (x + y) * p == x * p + y * p
  {
  }

  lemma RankSplit(b: Bits, k: nat)
    requires k <= |b|
    ensures Rank(b) == Rank(b[..k]) * Pow2(|b| - k) + Rank(b[k..])
    ensures Rank(b[k..]) < Pow2(|b| - k)
    ensures Rank(b[..k]) < Pow2(k)
  {
    assert b == b[..k] + b[k..];
    RankAppend(b[..k], b[k..]);
    RankBound(b[k..]);
    RankBound(b[..k]);
  }

  lemma {:induction false} NumInjective(a: Bits, b: Bits)
    requires |a| == |b| && Num(a) == Num(b)
    ensures a == b
  {
    if a != [] {
      assert Bit(a[0]) == Num(a) % 2 == Bit(b[0]);
      NumInjective(a[1..], b[1..]);
      assert a == [a[0]] + a[1..] && b == [b[0]] + b[1..];
    }
  }

  lemma {:induction false} RankInjective(a: Bits, b: Bits)
    requires |a| == |b| && Rank(a) == Rank(b)
    ensures a == b
  {
    if a != [] {
      RankBound(a[1..]);
      RankBound(b[1..]);
      assert a[0] == b[0];
      RankInjective(a[1..], b[1..]);
      assert a == [a[0]] + a[1..] && b == [b[0]] + b[1..];
    }
  }

  lemma {:induction false} NumToBits(n: nat, width: nat)
    requires n < Pow2(width)
    ensures Num(ToBits(n, width)) == n
  {
    if width > 0 {
      NumToBits(n / 2, width - 1);
      assert ToBits(n, width)[1..] == ToBits(n / 2, width - 1);
    }
  }

  lemma {:induction false} NumRepeat(x: bool, n: nat)
    ensures Num(Repeat(x, n)) == if x then Pow2(n) - 1 else 0
  {
    if n > 0 {
      assert Repeat(x, n)[1..] == Repeat(x, n - 1);
      NumRepeat(x, n - 1);
    }
  }

  lemma {:induction false} RankRepeat(x: bool, n: nat)
    ensures Rank(Repeat(x, n)) == if x then Pow2(n) - 1 else 0
  {
    if n > 0 {
      assert Repeat(x, n)[1..] == Repeat(x, n - 1);
      RankRepeat(x, n - 1);
    }
  }

  lemma SingleBit(x: bool)
    ensures Num([x]) == Bit(x) && Rank([x]) == Bit(x) && Pow2(1) == 2
  {
    assert [x][1..] == [] && Pow2(0) == 1;
  }

  lemma SnocNum(b: Bits, x: bool)
    ensures Num(b + [x]) == Num(b) + Bit(x) * Pow2(|b|)
    ensures Rank(b + [x]) == 2 * Rank(b) + Bit(x)
  {
    hide Num, Rank, Pow2;
    SingleBit(x);
    NumAppend(b, [x]);
    RankAppend(b, [x]);
  }

  /** The bit reversal of a word holds the number that its rank reads. */
  lemma {:induction false} NumReverse(b: Bits)
    ensures Num(Reverse(b)) == Rank(b)
    ensures Rank(Reverse(b)) == Num(b)
  {
    if b != [] {
      var t := b[1..];
      NumReverse(t);
      assert Reverse(b) == Reverse(t) + [b[0]];
      SnocNum(Reverse(t), b[0]);
    }
  }

  lemma {:induction false} NumInc(b: Bits)
    ensures Num(b) + 1 < Pow2(|b|) ==> Num(Inc(b)) == Num(b) + 1
    ensures Num(b) + 1 == Pow2(|b|) ==> Num(Inc(b)) == 0
  {
    NumBound(b);
    if b != [] {
      NumInc(b[1..]);
      NumBound(b[1..]);
      assert Inc(b)[1..] == if b[0] then Inc(b[1..]) else b[1..];
    }
  }

  /** The low bits of an incremented word do not depend on the high ones. */
  lemma {:induction false} IncPrefix(b: Bits, d: nat)
    requires d <= |b|
    ensures Inc(b)[..d] == Inc(b[..d])
  {
    if d > 0 {
      IncPrefix(b[1..], d - 1);
      assert b[..d][1..] == b[1..][..d - 1];
      if b[0] {
        assert Inc(b)[..d] == [false] + Inc(b[1..])[..d - 1];
      } else {
        assert Inc(b)[..d] == [true] + b[1..][..d - 1];
      }
    }
  }

  /** A carry runs through a block of ones. */
  lemma {:induction false} IncOnes(k: nat, hi: Bits)
    ensures Inc(Repeat(true, k) + hi) == Repeat(false, k) + Inc(hi)
  {
    if k == 0 {
      assert Repeat(true, 0) + hi == hi;
      assert Repeat(false, 0) + Inc(hi) == Inc(hi);
    } else {
      var b := Repeat(true, k) + hi;
      assert b[0] && b[1..] == Repeat(true, k - 1) + hi;
      IncOnes(k - 1, hi);
      assert Repeat(false, k) + Inc(hi) == [false] + (Repeat(false, k - 1) + Inc(hi));
    }
  }

  lemma {:induction false} ToBitsOnes(k: nat, width: nat)
    requires k <= width
    ensures ToBits(Pow2(k) - 1, width) == Repeat(true, k) + Repeat(false, width - k)
  {
    if width > 0 {
      var j := if k == 0 then 0 else k - 1;
      ToBitsOnes(j, width - 1);
      var n := Pow2(k) - 1;
      assert n / 2 == Pow2(j) - 1 && n % 2 == Bit(k > 0);
      assert Repeat(true, k) + Repeat(false, width - k)
          == [k > 0] + (Repeat(true, j) + Repeat(false, width - 1 - j));
    }
  }
}
