/**
 bitops.c: the BITOP command. Four words at a time where all the strings have data,
 byte by byte after that; the result is the operation on the bits of the strings
 padded with zeros.
 */
module BitOp {
  import opened Bytes
  import opened BitPos

  datatype Op = And | Or | Xor | Not

  datatype Reply = Error | Result(value: seq<Byte>)

  function OnBits(op: Op, a: nat, b: nat): (r: nat)
    requires a <= 1 && b <= 1 && !op.Not?
    ensures r <= 1
  {
    if op.And? then a * b else if op.Or? then (if a + b > 0 then 1 else 0) else (a + b) % 2
  }

  /** The operation on words of `n` bits. */
  function Comb(op: Op, x: nat, y: nat, n: nat): (r: nat)
    requires !op.Not?
    ensures r < Pow(2, n)
  {
    if n == 0 then 0 else OnBits(op, x % 2, y % 2) + 2 * Comb(op, x / 2, y / 2, n - 1)
  }

  /** The complement of a word of `n` bits. */
  function Neg(x: nat, n: nat): (r: nat)
    ensures r < Pow(2, n)
  {
    if n == 0 then 0 else 1 - x % 2 + 2 * Neg(x / 2, n - 1)
  }

  function CombByte(op: Op, x: Byte, y: Byte): Byte
    requires !op.Not?
  {
    EightBits();
    Comb(op, x, y, 8)
  }

  function NegByte(x: Byte): Byte {
    EightBits();
    Neg(x, 8)
  }

  lemma {:induction false} CombBit(op: Op, x: nat, y: nat, n: nat, k: nat)
    requires !op.Not? && k < n
    ensures BitOf(Comb(op, x, y, n), k) == OnBits(op, BitOf(x, k), BitOf(y, k))
  {
    Halves(OnBits(op, x % 2, y % 2), Comb(op, x / 2, y / 2, n - 1));
    if k > 0 { CombBit(op, x / 2, y / 2, n - 1, k - 1); }
  }

  lemma {:induction false} NegBit(x: nat, n: nat, k: nat)
    requires k < n
    ensures BitOf(Neg(x, n), k) == 1 - BitOf(x, k)
  {
    Halves(1 - x % 2, Neg(x / 2, n - 1));
    if k > 0 { NegBit(x / 2, n - 1, k - 1); }
  }

  lemma Halves(b: nat, r: nat)
    requires b <= 1
    ensures (b + 2 * r) % 2 == b && (b + 2 * r) / 2 == r
  {
  }

  /** A word operation works on its low and high part separately. */
  lemma {:induction false} CombSplit(op: Op, a: nat, b: nat, x: nat, y: nat, m: nat, n: nat)
    requires !op.Not? && a < Pow(2, m) && b < Pow(2, m)
    ensures Comb(op, a + Pow(2, m) * x, b + Pow(2, m) * y, m + n) == Comb(op, a, b, m) + Pow(2, m) * Comb(op, x, y, n)
  {
    hide Pow, OnBits, Comb;
    if m == 0 {
      CombUnfold(op, a, b, 0);
      PowZero();
    } else {
      var p := Pow(2, m - 1);
      PowNext(m);
      Doubled(p, x);
      Doubled(p, y);
      Doubled(p, Comb(op, x, y, n));
      LowHalf(a, p * x, p);
      LowHalf(b, p * y, p);
      CombUnfold(op, a + 2 * (p * x), b + 2 * (p * y), m + n);
      CombUnfold(op, a, b, m);
      CombSplit(op, a / 2, b / 2, x, y, m - 1, n);
    }
  }

  lemma CombUnfold(op: Op, x: nat, y: nat, n: nat)
    requires !op.Not?
    ensures Comb(op, x, y, n) == if n == 0 then 0 else OnBits(op, x % 2, y % 2) + 2 * Comb(op, x / 2, y / 2, n - 1)
  {
  }

  lemma {:induction false} NegSplit(a: nat, x: nat, m: nat, n: nat)
    requires a < Pow(2, m)
    ensures Neg(a + Pow(2, m) * x, m + n) == Neg(a, m) + Pow(2, m) * Neg(x, n)
  {
    hide Pow;
    if m == 0 {
      PowZero();
    } else {
      var p := Pow(2, m - 1);
      PowNext(m);
      Doubled(p, x);
      Doubled(p, Neg(x, n));
      LowHalf(a, p * x, p);
      NegSplit(a / 2, x, m - 1, n);
    }
  }

  lemma PowZero()
    ensures Pow(2, 0) == 1
  {
  }

  lemma PowNext(m: nat)
    requires m > 0
    ensures Pow(2, m) == 2 * Pow(2, m - 1)
  {
  }

  lemma LowHalf(a: nat, h: nat, p: nat)
    ensures (a + 2 * h) % 2 == a % 2 && (a + 2 * h) / 2 == a / 2 + h
    ensures a < 2 * p ==> a / 2 < p
  {
  }

  function CombBytes(op: Op, a: seq<Byte>, b: seq<Byte>): (r: seq<Byte>)
    requires !op.Not? && |a| == |b|
    ensures |r| == |a| && forall i :: 0 <= i < |r| ==> r[i] == CombByte(op, a[i], b[i])
  {
    if a == [] then [] else [CombByte(op, a[0], b[0])] + CombBytes(op, a[1..], b[1..])
  }

  function NegBytes(a: seq<Byte>): (r: seq<Byte>)
    ensures |r| == |a| && forall i :: 0 <= i < |r| ==> r[i] == NegByte(a[i])
  {
    if a == [] then [] else [NegByte(a[0])] + NegBytes(a[1..])
  }

  /** A word operation on bytes in memory is the operation on each byte. */
  lemma {:induction false} CombWord(op: Op, a: seq<Byte>, b: seq<Byte>)
    requires !op.Not? && |a| == |b|
    ensures ToBytes(Comb(op, Unsigned(a), Unsigned(b), 8 * |a|), |a|) == CombBytes(op, a, b)
  {
    if a == [] {
      assert ToBytes(0, 0) == [];
    } else {
      hide Comb, CombByte, Unsigned, ToBytes, Pow, CombBytes;
      CombWord(op, a[1..], b[1..]);
      UnsignedCons(a);
      UnsignedCons(b);
      CombBytesNext(op, a[0], b[0], Unsigned(a[1..]), Unsigned(b[1..]), |a| - 1);
      CombCons(op, a, b);
    }
  }

  lemma CombBytesNext(op: Op, a: Byte, b: Byte, x: nat, y: nat, n: nat)
    requires !op.Not?
    ensures ToBytes(Comb(op, a as int + 256 * x, b as int + 256 * y, 8 * (n + 1)), n + 1) ==
            [CombByte(op, a, b)] + ToBytes(Comb(op, x, y, 8 * n), n)
  {
    hide Comb, CombByte, ToBytes, Pow;
    CombByteSplit(op, a, b, x, y, 8 * n);
    BytesCons(CombByte(op, a, b), Comb(op, x, y, 8 * n), n);
  }

  lemma CombByteSplit(op: Op, a: Byte, b: Byte, x: nat, y: nat, n: nat)
    requires !op.Not?
    ensures Comb(op, a as int + 256 * x, b as int + 256 * y, 8 + n) ==
            CombByte(op, a, b) as int + 256 * Comb(op, x, y, n)
  {
    hide Comb, Pow;
    EightBits();
    CombSplit(op, a, b, x, y, 8, n);
  }

  lemma {:induction false} NegWord(a: seq<Byte>)
    ensures ToBytes(Neg(Unsigned(a), 8 * |a|), |a|) == NegBytes(a)
  {
    if a != [] {
      hide Neg, NegByte, Unsigned, ToBytes, Pow, NegBytes;
      NegCons(a);
      UnsignedCons(a);
      var x, n := Unsigned(a[1..]), |a| - 1;
      NegByteSplit(a[0], x, 8 * n);
      BytesCons(NegByte(a[0]), Neg(x, 8 * n), n);
      NegWord(a[1..]);
    }
  }

  lemma NegByteSplit(a: Byte, x: nat, n: nat)
    ensures Neg(a as int + 256 * x, 8 + n) == NegByte(a) as int + 256 * Neg(x, n)
  {
    hide Neg, Pow;
    EightBits();
    NegSplit(a, x, 8, n);
  }

  lemma CombCons(op: Op, a: seq<Byte>, b: seq<Byte>)
    requires !op.Not? && |a| == |b| && a != []
    ensures CombBytes(op, a, b) == [CombByte(op, a[0], b[0])] + CombBytes(op, a[1..], b[1..])
  {
    hide CombByte;
  }

  lemma NegCons(a: seq<Byte>)
    requires a != []
    ensures NegBytes(a) == [NegByte(a[0])] + NegBytes(a[1..])
  {
    hide NegByte;
  }

  lemma UnsignedCons(b: seq<Byte>)
    requires b != []
    ensures Unsigned(b) == b[0] as int + 256 * Unsigned(b[1..])
  {
  }

  lemma BytesCons(b: Byte, r: nat, n: nat)
    ensures ToBytes(b as int + 256 * r, n + 1) == [b] + ToBytes(r, n)
  {
    Digits(b, r);
  }

  lemma Digits(b: nat, r: nat)
    requires b < 256
    ensures (b + 256 * r) % 256 == b && (b + 256 * r) / 256 == r
  {
  }

  // The command.

  /** Byte `j` of the result of the first `m` strings. */
  function Out(op: Op, srcs: seq<seq<Byte>>, m: nat, j: nat): Byte
    requires 1 <= m <= |srcs| && (op.Not? ==> m == 1)
  {
    if m == 1 then (if op.Not? then NegByte(At(srcs[0], j)) else At(srcs[0], j))
    else CombByte(op, Out(op, srcs, m - 1, j), At(srcs[m - 1], j))
  }

  /** Bit `i` of the result, from the bits of the strings padded with zeros. */
  function OutBit(op: Op, srcs: seq<seq<Byte>>, m: nat, i: nat): (r: nat)
    requires 1 <= m <= |srcs| && (op.Not? ==> m == 1)
    ensures r <= 1
  {
    if m == 1 then (if op.Not? then 1 - Bit(srcs[0], i) else Bit(srcs[0], i))
    else OnBits(op, OutBit(op, srcs, m - 1, i), Bit(srcs[m - 1], i))
  }

  /** The strings, of the first `m`, whose bit `i` is one. */
  ghost function Ones(srcs: seq<seq<Byte>>, m: nat, i: nat): set<nat>
    requires m <= |srcs|
  {
    set j: nat | j < m && Bit(srcs[j], i) == 1
  }

  /** What each operation means for one bit of the result, a string counting as zeros
      past its end. */
  ghost predicate Means(op: Op, srcs: seq<seq<Byte>>, m: nat, i: nat, r: nat)
    requires 1 <= m <= |srcs|
  {
    && r <= 1
    && (r == 1 <==>
          match op
          case And => forall j :: 0 <= j < m ==> Bit(srcs[j], i) == 1
          case Or => exists j :: 0 <= j < m && Bit(srcs[j], i) == 1
          case Xor => |Ones(srcs, m, i)| % 2 == 1
          case Not => Bit(srcs[0], i) == 0)
  }

  lemma OnesNext(srcs: seq<seq<Byte>>, m: nat, i: nat)
    requires 1 <= m <= |srcs|
    ensures |Ones(srcs, m, i)| == |Ones(srcs, m - 1, i)| + Bit(srcs[m - 1], i)
  {
    var a, b := Ones(srcs, m - 1, i), Ones(srcs, m, i);
    if Bit(srcs[m - 1], i) == 1 {
      assert b == a + {m - 1};
    } else {
      assert b == a;
    }
  }

  lemma {:induction false} OutBitMeans(op: Op, srcs: seq<seq<Byte>>, m: nat, i: nat)
    requires 1 <= m <= |srcs| && (op.Not? ==> m == 1)
    ensures Means(op, srcs, m, i, OutBit(op, srcs, m, i))
  {
    hide Bit, Ones;
    OnesNext(srcs, m, i);
    if m == 1 {
      NoOnes(srcs, i);
    } else {
      OutBitMeans(op, srcs, m - 1, i);
    }
  }

  lemma NoOnes(srcs: seq<seq<Byte>>, i: nat)
    ensures |Ones(srcs, 0, i)| == 0
  {
    assert Ones(srcs, 0, i) == {};
  }

  lemma {:induction false} OutBits(op: Op, srcs: seq<seq<Byte>>, m: nat, i: nat)
    requires 1 <= m <= |srcs| && (op.Not? ==> m == 1)
    ensures BitOf(Out(op, srcs, m, i / 8), 7 - i % 8) == OutBit(op, srcs, m, i)
  {
    hide Comb, Neg, OnBits, BitOf;
    if m == 1 {
      NegBit(At(srcs[0], i / 8), 8, 7 - i % 8);
    } else {
      OutBits(op, srcs, m - 1, i);
      CombBit(op, Out(op, srcs, m - 1, i / 8), At(srcs[m - 1], i / 8), 8, 7 - i % 8);
    }
  }

  /** `lres[w] op= lp[w]` for the word at byte `p`. */
  method CombineWord(op: Op, res: array<Byte>, p: nat, src: seq<Byte>)
    requires !op.Not? && p + 8 <= res.Length && p + 8 <= |src|
    modifies res
    ensures forall k :: 0 <= k < res.Length ==>
              res[k] == if p <= k < p + 8 then CombByte(op, old(res[k]), src[k]) else old(res[k])
  {
    hide Comb, CombByte, Unsigned, ToBytes;
    ghost var a, b := res[p..p + 8], src[p..p + 8];
    var word := ToBytes(Comb(op, Unsigned(res[p..p + 8]), Unsigned(src[p..p + 8]), 64), 8);
    CombWord(op, a, b);
    forall i | 0 <= i < 8 { res[p + i] := word[i]; }
  }

  method NegateWord(res: array<Byte>, p: nat)
    requires p + 8 <= res.Length
    modifies res
    ensures forall k :: 0 <= k < res.Length ==>
              res[k] == if p <= k < p + 8 then NegByte(old(res[k])) else old(res[k])
  {
    hide Neg, NegByte, Unsigned, ToBytes;
    ghost var a := res[p..p + 8];
    var word := ToBytes(Neg(Unsigned(res[p..p + 8]), 64), 8);
    NegWord(a);
    forall i | 0 <= i < 8 { res[p + i] := word[i]; }
  }

  /** The fast path: while every string has 32 more bytes, four words of each. */
  method FastPath(op: Op, srcs: seq<seq<Byte>>, res: array<Byte>, minlen: nat) returns (j: nat)
    requires srcs != [] && (op.Not? ==> |srcs| == 1)
    requires minlen <= res.Length && forall i :: 0 <= i < |srcs| ==> minlen <= |srcs[i]|
    modifies res
    ensures j <= minlen && forall k :: 0 <= k < j ==> res[k] == Out(op, srcs, |srcs|, k)
  {
    hide Out;
    forall k | 0 <= k < minlen { res[k] := srcs[0][k]; }
    j := 0;
    while minlen - j >= 32
      invariant j <= minlen
      invariant forall k :: 0 <= k < j ==> res[k] == Out(op, srcs, |srcs|, k)
      invariant forall k :: j <= k < minlen ==> res[k] == srcs[0][k]
    {
      if op.Not? { NegateBlock(srcs, res, j, minlen); } else { CombineBlock(op, srcs, res, j, minlen); }
      j := j + 32;
    }
  }

  method CombineBlock(op: Op, srcs: seq<seq<Byte>>, res: array<Byte>, j: nat, minlen: nat)
    requires srcs != [] && !op.Not? && j + 32 <= minlen <= res.Length
    requires forall i :: 0 <= i < |srcs| ==> minlen <= |srcs[i]|
    requires forall k :: j <= k < minlen ==> res[k] == srcs[0][k]
    modifies res
    ensures forall k :: 0 <= k < res.Length ==>
              res[k] == if j <= k < j + 32 then Out(op, srcs, |srcs|, k) else old(res[k])
  {
    for i := 1 to |srcs|
      invariant forall k :: 0 <= k < res.Length ==>
                  res[k] == if j <= k < j + 32 then Out(op, srcs, i, k) else old(res[k])
    {
      CombineWords(op, res, j, srcs[i]);
      assert forall k :: j <= k < j + 32 ==> Out(op, srcs, i + 1, k) == CombByte(op, Out(op, srcs, i, k), srcs[i][k]);
    }
  }

  method CombineWords(op: Op, res: array<Byte>, j: nat, src: seq<Byte>)
    requires !op.Not? && j + 32 <= res.Length && j + 32 <= |src|
    modifies res
    ensures forall k :: 0 <= k < res.Length ==>
              res[k] == if j <= k < j + 32 then CombByte(op, old(res[k]), src[k]) else old(res[k])
  {
    hide CombByte;
    CombineWord(op, res, j, src);
    CombineWord(op, res, j + 8, src);
    CombineWord(op, res, j + 16, src);
    CombineWord(op, res, j + 24, src);
  }

  method NegateBlock(srcs: seq<seq<Byte>>, res: array<Byte>, j: nat, minlen: nat)
    requires |srcs| == 1 && j + 32 <= minlen <= res.Length && minlen <= |srcs[0]|
    requires forall k :: j <= k < minlen ==> res[k] == srcs[0][k]
    modifies res
    ensures forall k :: 0 <= k < res.Length ==>
              res[k] == if j <= k < j + 32 then Out(Not, srcs, 1, k) else old(res[k])
  {
    hide NegByte;
    NegateWord(res, j);
    NegateWord(res, j + 8);
    NegateWord(res, j + 16);
    NegateWord(res, j + 24);
  }

  /** The lengths of the longest and the shortest string. */
  method Lengths(srcs: seq<seq<Byte>>) returns (maxlen: nat, minlen: nat)
    requires srcs != []
    ensures forall i :: 0 <= i < |srcs| ==> minlen <= |srcs[i]| <= maxlen
    ensures exists i :: 0 <= i < |srcs| && |srcs[i]| == maxlen
  {
    maxlen, minlen := 0, 0;
    for j := 0 to |srcs|
      invariant forall i :: 0 <= i < j ==> minlen <= |srcs[i]| <= maxlen
      invariant if j == 0 then maxlen == 0 else exists i :: 0 <= i < j && |srcs[i]| == maxlen
    {
      if |srcs[j]| > maxlen { maxlen := |srcs[j]|; }
      if j == 0 || |srcs[j]| < minlen { minlen := |srcs[j]|; }
    }
  }

  /** The bit operation of `bitopCommand`; a missing key is an empty string. */
  method Bitop(op: Op, srcs: seq<seq<Byte>>) returns (r: Reply)
    requires srcs != []
    ensures r.Error? <==> op.Not? && |srcs| != 1
    ensures r.Result? ==>
              && (forall i :: 0 <= i < |srcs| ==> |srcs[i]| <= |r.value|)
              && (exists i :: 0 <= i < |srcs| && |srcs[i]| == |r.value|)
              && forall i: nat :: i < 8 * |r.value| ==> Means(op, srcs, |srcs|, i, Bit(r.value, i))
  {
    hide Out, OutBit, Means;
    if op.Not? && |srcs| != 1 { return Error; }
    var maxlen, minlen := Lengths(srcs);
    var res := new Byte[maxlen];
    var j := 0;
    if minlen > 0 && |srcs| <= 16 { j := FastPath(op, srcs, res, minlen); }
    while j < maxlen
      invariant j <= maxlen && forall k :: 0 <= k < j ==> res[k] == Out(op, srcs, |srcs|, k)
    {
      var output := OutByte(op, srcs, j);
      res[j] := output;
      j := j + 1;
    }
    r := Result(res[..]);
    forall i: nat | i < 8 * maxlen ensures Means(op, srcs, |srcs|, i, Bit(r.value, i)) {
      OutBitMeans(op, srcs, |srcs|, i);
      OutBits(op, srcs, |srcs|, i);
      assert At(r.value, i / 8) == res[i / 8];
    }
  }

  /** One byte of the result, the slow way. */
  method OutByte(op: Op, srcs: seq<seq<Byte>>, j: nat) returns (output: Byte)
    requires srcs != [] && (op.Not? ==> |srcs| == 1)
    ensures output == Out(op, srcs, |srcs|, j)
  {
    output := At(srcs[0], j);
    if op.Not? { output := NegByte(output); }
    for i := 1 to |srcs|
      invariant output == Out(op, srcs, i, j)
    {
      output := CombByte(op, output, At(srcs[i], j));
    }
  }
}
