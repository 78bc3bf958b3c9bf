/**
 bitops.c: the position of the first bit of a given value, skipping whole bytes and
 words. Bits are numbered from the most significant one of the first byte.
 */
module BitPos {
  import opened Bytes

  /** Bit `k` of a number, from the least significant one. */
  function BitOf(x: nat, k: nat): (b: nat)
    ensures b <= 1
  {
    if k == 0 then x % 2 else BitOf(x / 2, k - 1)
  }

  function At(s: seq<Byte>, j: nat): Byte {
    if j < |s| then s[j] else 0
  }

  /** Bit `i` of a string, zeros beyond its end. */
  function Bit(s: seq<Byte>, i: nat): (b: nat)
    ensures b <= 1
  {
    BitOf(At(s, i / 8), 7 - i % 8)
  }

  /** The byte without the wanted bit. */
  function SkipByte(bit: nat): Byte {
    if bit == 0 then 255 else 0
  }

  // Numbers with all bits alike.

  lemma {:induction false} AllOnes(n: nat, k: nat)
    requires k < n
    ensures BitOf(Pow(2, n) - 1, k) == 1
  {
    Odd(Pow(2, n - 1));
    if k > 0 { AllOnes(n - 1, k - 1); }
  }

  lemma Odd(p: nat)
    requires p > 0
    ensures (2 * p - 1) % 2 == 1 && (2 * p - 1) / 2 == p - 1
  {
  }

  lemma {:induction false} AllZeros(k: nat)
    ensures BitOf(0, k) == 0
  {
    if k > 0 { AllZeros(k - 1); }
  }

  lemma {:induction false} FromBits(x: nat, n: nat, b: nat)
    requires x < Pow(2, n) && b <= 1 && forall k: nat :: k < n ==> BitOf(x, k) == b
    ensures x == if b == 0 then 0 else Pow(2, n) - 1
  {
    if n > 0 {
      assert BitOf(x, 0) == b;
      forall k: nat | k < n - 1 ensures BitOf(x / 2, k) == b { assert BitOf(x, k + 1) == b; }
      FromBits(x / 2, n - 1, b);
    }
  }

  /** A byte is the skipped one exactly when no bit of it is wanted. */
  lemma SkipBits(s: seq<Byte>, j: nat, bit: nat)
    requires bit <= 1
    ensures At(s, j) == SkipByte(bit) <==> forall i: nat :: 8 * j <= i < 8 * j + 8 ==> Bit(s, i) != bit
  {
    EightBits();
    var b := At(s, j);
    if b == SkipByte(bit) {
      forall i: nat | 8 * j <= i < 8 * j + 8 ensures Bit(s, i) != bit {
        assert i / 8 == j;
        if bit == 0 { AllOnes(8, 7 - i % 8); } else { AllZeros(7 - i % 8); }
      }
    }
    if forall i: nat :: 8 * j <= i < 8 * j + 8 ==> Bit(s, i) != bit {
      forall k: nat | k < 8 ensures BitOf(b, k) == 1 - bit {
        var i := 8 * j + 7 - k;
        assert i / 8 == j && i % 8 == 7 - k;
        assert Bit(s, i) != bit;
      }
      FromBits(b, 8, 1 - bit);
    }
  }

  // Words.

  /** A word of `n` bytes, first byte most significant. */
  function Big(s: seq<Byte>, p: nat, n: nat): nat {
    if n == 0 then 0 else var b: int := At(s, p + n - 1); 256 * Big(s, p, n - 1) + b
  }

  /** A word all of whose bits are the unwanted ones. */
  function SkipWord(bit: nat): nat {
    if bit == 0 then Pow(256, 8) - 1 else 0
  }

  lemma {:induction false} SkipLoad(b: seq<Byte>, bit: nat)
    requires bit <= 1
    ensures Unsigned(b) == (if bit == 0 then Pow(256, |b|) - 1 else 0) <==>
            forall j :: 0 <= j < |b| ==> b[j] == SkipByte(bit)
  {
    if b != [] {
      SkipLoad(b[1..], bit);
      LowByte(b[0], Unsigned(b[1..]), Pow(256, |b| - 1));
      assert forall j :: 1 <= j < |b| ==> b[j] == b[1..][j - 1];
    }
  }

  /** The whole words that are skipped hold only skipped bytes. */
  lemma SkipLoaded(s: seq<Byte>, c: nat, bit: nat)
    requires bit <= 1 && c + 8 <= |s|
    ensures Unsigned(s[c..c + 8]) == SkipWord(bit) <==>
            forall j: nat :: c <= j < c + 8 ==> At(s, j) == SkipByte(bit)
  {
    hide Unsigned, Pow;
    var b := s[c..c + 8];
    SkipLoad(b, bit);
    if forall j :: 0 <= j < 8 ==> b[j] == SkipByte(bit) {
      forall j: nat | c <= j < c + 8 ensures At(s, j) == SkipByte(bit) { assert b[j - c] == SkipByte(bit); }
    } else {
      var j :| 0 <= j < 8 && b[j] != SkipByte(bit);
      assert At(s, c + j) != SkipByte(bit);
    }
  }

  lemma LowByte(b: int, r: nat, p: nat)
    requires 0 <= b < 256 && r <= p - 1
    ensures b + 256 * r <= 256 * p - 1
    ensures b + 256 * r == 0 <==> b == 0 && r == 0
    ensures b + 256 * r == 256 * p - 1 <==> b == 255 && r == p - 1
  {
  }

  lemma {:induction false} LowBits(x: nat, b: nat, k: nat, n: nat)
    requires b < Pow(2, n)
    ensures BitOf(Pow(2, n) * x + b, k) == if k < n then BitOf(b, k) else BitOf(x, k - n)
  {
    if n == 0 {
      assert Pow(2, n) * x + b == x;
    } else {
      var h := Pow(2, n - 1) * x;
      Doubled(Pow(2, n - 1), x);
      assert (2 * h + b) % 2 == b % 2 && (2 * h + b) / 2 == h + b / 2;
      if k > 0 { LowBits(x, b / 2, k - 1, n - 1); }
    }
  }

  lemma {:induction false} BigBits(s: seq<Byte>, p: nat, n: nat, i: nat)
    requires i < 8 * n
    ensures BitOf(Big(s, p, n), 8 * n - 1 - i) == Bit(s, 8 * p + i)
  {
    var b: int := At(s, p + n - 1);
    EightBits();
    LowBits(Big(s, p, n - 1), b, 8 * n - 1 - i, 8);
    if i >= 8 * (n - 1) {
      assert (8 * p + i) / 8 == p + n - 1 && (8 * p + i) % 8 == i - 8 * (n - 1);
    } else {
      BigBits(s, p, n - 1, i);
    }
  }

  lemma {:induction false} BigZero(s: seq<Byte>, p: nat, n: nat)
    ensures Big(s, p, n) == 0 <==> forall j: nat :: p <= j < p + n ==> At(s, j) == 0
  {
    if n > 0 { BigZero(s, p, n - 1); }
  }

  /** Testing a bit with a mask that has only that one. */
  lemma {:induction false} MaskBit(x: nat, k: nat)
    ensures x / Pow(2, k) % 2 == BitOf(x, k)
  {
    if k > 0 {
      MaskBit(x / 2, k - 1);
      HalveTwice(x, Pow(2, k - 1));
    }
  }

  lemma HalveTwice(x: nat, p: nat)
    requires p > 0
    ensures x / 2 / p == x / (2 * p)
  {
    var h := x / 2;
    var q, r := h / p, h % p;
    Quotient(h, p);
    Twofold(q, p);
    assert x == 2 * h + x % 2;
    DivIs(x, 2 * p, q, 2 * r + x % 2);
  }

  lemma Quotient(n: nat, p: nat)
    requires p > 0
    ensures n == n / p * p + n % p && 0 <= n % p < p
  {
  }

  lemma Twofold(q: nat, p: nat)
    ensures q * (2 * p) == 2 * (q * p)
  {
  }

  lemma DivIs(x: nat, m: nat, q: nat, r: nat)
    requires m > 0 && x == q * m + r && r < m
    ensures x / m == q
  {
    var p, s := x / m, x % m;
    Quotient(x, m);
    if p > q { Gap(p, q, m); } else if p < q { Gap(q, p, m); }
  }

  lemma Gap(a: nat, b: nat, m: nat)
    requires a > b
    ensures a * m >= b * m + m
  {
    assert a * m == b * m + (a - b) * m;
    assert (a - b) * m == m + (a - b - 1) * m;
  }

  // The search.

  /** No wanted bit before position `n`. */
  ghost predicate NoneBefore(s: seq<Byte>, n: nat, bit: nat) {
    forall i: nat :: i < n ==> Bit(s, i) != bit
  }

  lemma SkipOne(s: seq<Byte>, c: nat, bit: nat)
    requires bit <= 1 && NoneBefore(s, 8 * c, bit) && At(s, c) == SkipByte(bit)
    ensures NoneBefore(s, 8 * (c + 1), bit)
  {
    SkipBits(s, c, bit);
  }

  lemma SkipEight(s: seq<Byte>, c: nat, bit: nat)
    requires bit <= 1 && NoneBefore(s, 8 * c, bit)
    requires c + 8 <= |s| && Unsigned(s[c..c + 8]) == SkipWord(bit)
    ensures NoneBefore(s, 8 * (c + 8), bit)
  {
    hide Bit, At;
    SkipLoaded(s, c, bit);
    forall i: nat | 8 * c <= i < 8 * (c + 8) ensures Bit(s, i) != bit {
      SkipBits(s, i / 8, bit);
    }
  }

  /** The word that ends the search holds a wanted bit, unless it is zero. */
  lemma InWord(s: seq<Byte>, c: nat, bit: nat)
    requires bit <= 1 && c <= |s|
    requires c + 8 <= |s| ==> Unsigned(s[c..c + 8]) != SkipWord(bit)
    requires bit == 1 ==> Big(s, c, 8) != 0
    ensures exists i: nat :: 8 * c <= i < 8 * c + 64 && Bit(s, i) == bit
  {
    hide Bit;
    if forall j: nat :: c <= j < c + 8 ==> At(s, j) == SkipByte(bit) {
      if c + 8 <= |s| { SkipLoaded(s, c, bit); }
      BigZero(s, c, 8);
    } else {
      var j: nat :| c <= j < c + 8 && At(s, j) != SkipByte(bit);
      SkipBits(s, j, bit);
    }
  }

  /** With nothing left but zeros there is no one at all. */
  lemma NoOnes(s: seq<Byte>, c: nat)
    requires c <= |s| && NoneBefore(s, 8 * c, 1) && Big(s, c, 8) == 0
    requires c + 8 <= |s| ==> Unsigned(s[c..c + 8]) != SkipWord(1)
    ensures forall i: nat :: Bit(s, i) == 0
  {
    BigZero(s, c, 8);
    if c + 8 <= |s| { SkipLoaded(s, c, 1); }
    forall i: nat ensures Bit(s, i) == 0 {
      if i >= 8 * c { AllZeros(7 - i % 8); } else { assert Bit(s, i) != 1; }
    }
  }

  /** Skips bytes up to a word boundary, then words; `addr` is the address of `s`. */
  method Skip(s: seq<Byte>, addr: nat, bit: nat) returns (c: nat)
    requires bit <= 1
    ensures c <= |s| && NoneBefore(s, 8 * c, bit)
    ensures c + 8 <= |s| ==> Unsigned(s[c..c + 8]) != SkipWord(bit)
  {
    hide NoneBefore, Unsigned, SkipWord;
    c := 0;
    NoneYet(s, bit);
    while (addr + c) % 8 != 0 && c < |s|
      invariant c <= |s| && NoneBefore(s, 8 * c, bit)
      decreases |s| - c
    {
      if s[c] != SkipByte(bit) { break; }
      SkipOne(s, c, bit);
      c := c + 1;
    }
    var skipval := SkipWord(bit);
    while c + 8 <= |s|
      invariant c <= |s| && NoneBefore(s, 8 * c, bit)
    {
      if Unsigned(s[c..c + 8]) != skipval { break; }
      SkipEight(s, c, bit);
      c := c + 8;
    }
  }

  lemma NoneYet(s: seq<Byte>, bit: nat)
    ensures NoneBefore(s, 0, bit)
  {
  }

  /** `redisBitpos`: the first bit with the wanted value; -1 when a one is wanted and
      there is none. A string is followed by zeros. */
  method RedisBitpos(s: seq<Byte>, addr: nat, bit: nat) returns (pos: int)
    requires bit <= 1
    ensures pos == -1 <==> bit == 1 && forall i: nat :: Bit(s, i) == 0
    ensures pos != -1 ==> 0 <= pos <= 8 * |s| && Bit(s, pos) == bit && NoneBefore(s, pos, bit)
    ensures pos == 8 * |s| ==> bit == 0
  {
    hide Bit, NoneBefore, Unsigned, SkipWord, Big;
    var c := Skip(s, addr, bit);
    var word := LoadBig(s, c);
    if bit == 1 && word == 0 {
      NoOnes(s, c);
      return -1;
    }
    InWord(s, c, bit);
    var t := ScanWord(s, c, bit, word);
    pos := 8 * c + t;
    Within(s, pos, bit);
  }

  /** Fills a word from the left, with zeros beyond the end of the string. */
  method LoadBig(s: seq<Byte>, c: nat) returns (word: nat)
    ensures word == Big(s, c, 8)
  {
    word := 0;
    for j := 0 to 8
      invariant word == Big(s, c, j)
    {
      word := 256 * word;
      if c + j < |s| { word := word + s[c + j]; }
    }
  }

  /** Tests the bits of a word from the left. */
  method ScanWord(s: seq<Byte>, c: nat, bit: nat, word: nat) returns (t: nat)
    requires bit <= 1 && word == Big(s, c, 8) && NoneBefore(s, 8 * c, bit)
    requires exists i: nat :: 8 * c <= i < 8 * c + 64 && Bit(s, i) == bit
    ensures t < 64 && Bit(s, 8 * c + t) == bit && NoneBefore(s, 8 * c + t, bit)
  {
    hide Bit, Big, Pow;
    var one := Pow(2, 63);
    t := 0;
    while one > 0
      invariant t <= 64 && one == (if t < 64 then Pow(2, 63 - t) else 0)
      invariant NoneBefore(s, 8 * c + t, bit)
      decreases 64 - t
    {
      BigBits(s, c, 8, t);
      MaskBit(word, 63 - t);
      if (word / one % 2 != 0) == (bit == 1) { return; }
      ShiftOne(63 - t);
      one := one / 2;
      t := t + 1;
    }
    assert false;
  }

  lemma ShiftOne(k: nat)
    ensures Pow(2, k) > 0 && Pow(2, k) / 2 == if k > 0 then Pow(2, k - 1) else 0
  {
  }

  lemma Within(s: seq<Byte>, pos: nat, bit: nat)
    requires bit <= 1 && Bit(s, pos) == bit && NoneBefore(s, pos, bit)
    ensures pos <= 8 * |s| && (pos == 8 * |s| ==> bit == 0)
  {
    AllZeros(7 - pos % 8);
    AllZeros(7);
    assert Bit(s, 8 * |s|) == 0;
  }
}
