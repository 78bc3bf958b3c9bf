/**
 The harmonic sum behind the cardinality estimate, over exact reals: the unrolled
 dense loop, the opcode loop and the word-wise raw loop all compute the sum of
 2^-register and the number of zero registers.
 */
module HllSum {
  import opened Bytes
  import opened HllSparse
  import opened HllDense
  import H = Hll

  /** The precomputed table entry 2^-r. */
  function PE(r: nat): real {
    if r == 0 then 1.0 else PE(r - 1) / 2.0
  }

  lemma {:induction false} PEIs(r: nat)
    ensures PE(r) * Pow(2, r) as real == 1.0
  {
    if r > 0 {
      PEIs(r - 1);
      assert Pow(2, r) as real == 2.0 * Pow(2, r - 1) as real;
    }
  }

  function Sum(regs: seq<nat>): real {
    if regs == [] then 0.0 else PE(regs[0]) + Sum(regs[1..])
  }

  function Zeros(regs: seq<nat>): nat {
    if regs == [] then 0 else (if regs[0] == 0 then 1 else 0) + Zeros(regs[1..])
  }

  lemma {:induction false} SumAppend(a: seq<nat>, b: seq<nat>)
    ensures Sum(a + b) == Sum(a) + Sum(b)
    ensures Zeros(a + b) == Zeros(a) + Zeros(b)
  {
    if a == [] {
      assert a + b == b;
    } else {
      assert (a + b)[1..] == a[1..] + b;
      SumAppend(a[1..], b);
    }
  }

  lemma {:induction false} SumFill(v: nat, n: nat)
    ensures Sum(Fill(v, n)) == PE(v) * n as real
    ensures Zeros(Fill(v, n)) == if v == 0 then n else 0
  {
    if n > 0 {
      assert Fill(v, n)[1..] == Fill(v, n - 1);
      SumFill(v, n - 1);
    }
  }

  lemma Sum2(a: nat, b: nat)
    ensures Sum([a, b]) == PE(a) + PE(b)
    ensures Zeros([a, b]) == (if a == 0 then 1 else 0) + (if b == 0 then 1 else 0)
  {
    hide PE, Sum, Zeros;
    OneReg(a);
    OneReg(b);
    SumAppend([a], [b]);
    assert [a] + [b] == [a, b];
  }

  lemma Sum4(a: nat, b: nat, c: nat, d: nat)
    ensures Sum([a, b, c, d]) == (PE(a) + PE(b)) + (PE(c) + PE(d))
    ensures Zeros([a, b, c, d]) == Flag(a) + Flag(b) + Flag(c) + Flag(d)
  {
    hide PE;
    Sum2(a, b);
    Sum2(c, d);
    SumAppend([a, b], [c, d]);
    assert [a, b] + [c, d] == [a, b, c, d];
  }

  function Flag(r: nat): nat { if r == 0 then 1 else 0 }

  // Dense.

  /** Four registers from three bytes, as the unrolled loop reads them. */
  method Unpack(d: seq<Byte>, q: nat) returns (a: nat, b: nat, c: nat, e: nat)
    requires IsDense(d) && q < REGISTERS / 4
    ensures [a, b, c, e] == DenseRegs(d)[4 * q..4 * q + 4]
  {
    hide Reg, GetBits;
    var r0: int, r1: int, r2: int := d[3 * q], d[3 * q + 1], d[3 * q + 2];
    a := r0 % 64;
    b := (r0 / 64 + r1 * 4) % 64;
    c := (r1 / 16 + r2 * 16) % 64;
    e := r2 / 4 % 64;
    UnpackIs(d[3 * q], d[3 * q + 1], d[3 * q + 2]);
    GroupReg(d, 4 * q);
    GroupReg(d, 4 * q + 1);
    GroupReg(d, 4 * q + 2);
    GroupReg(d, 4 * q + 3);
  }

  lemma UnpackIs(r0: Byte, r1: Byte, r2: Byte)
    ensures (r0 as int / 64 + r1 as int * 4) % 64 == Triple(1, r0, r1, r2)
    ensures (r1 as int / 16 + r2 as int * 16) % 64 == Triple(2, r0, r1, r2)
    ensures r2 / 4 % 64 == Triple(3, r0, r1, r2)
  {
    Wrap(r0 / 64 + r1 % 16 * 4, r1 / 16);
    Wrap(r1 / 16 + r2 % 4 * 16, r2 / 4);
  }

  /** `hllDenseSum`: sixteen registers, twelve bytes, a round. */
  method DenseSum(d: seq<Byte>) returns (sum: real, ez: nat)
    requires IsDense(d)
    ensures sum == Sum(DenseRegs(d)) && ez == Zeros(DenseRegs(d))
  {
    hide PE, Sum, Zeros, DenseRegs;
    sum, ez := 0.0, 0;
    ghost var regs := DenseRegs(d);
    NoRegs(regs);
    for j := 0 to 1024
      invariant sum == Sum(regs[..16 * j]) && ez == Zeros(regs[..16 * j])
    {
      var r0, r1, r2, r3 := Unpack(d, 4 * j);
      var r4, r5, r6, r7 := Unpack(d, 4 * j + 1);
      var r8, r9, r10, r11 := Unpack(d, 4 * j + 2);
      var r12, r13, r14, r15 := Unpack(d, 4 * j + 3);
      ez := ez + (Flag(r0) + Flag(r1) + Flag(r2) + Flag(r3)) + (Flag(r4) + Flag(r5) + Flag(r6) + Flag(r7))
               + (Flag(r8) + Flag(r9) + Flag(r10) + Flag(r11)) + (Flag(r12) + Flag(r13) + Flag(r14) + Flag(r15));
      sum := sum + ((PE(r0) + PE(r1)) + (PE(r2) + PE(r3)) + (PE(r4) + PE(r5)) +
                    (PE(r6) + PE(r7)) + (PE(r8) + PE(r9)) + (PE(r10) + PE(r11)) +
                    (PE(r12) + PE(r13)) + (PE(r14) + PE(r15)));
      Next4(regs, 16 * j, r0, r1, r2, r3);
      Next4(regs, 16 * j + 4, r4, r5, r6, r7);
      Next4(regs, 16 * j + 8, r8, r9, r10, r11);
      Next4(regs, 16 * j + 12, r12, r13, r14, r15);
    }
    assert regs[..REGISTERS] == regs;
  }

  /** The loop for other register sizes: one register a round. */
  method DenseSumGeneric(d: seq<Byte>) returns (sum: real, ez: nat)
    requires IsDense(d)
    ensures sum == Sum(DenseRegs(d)) && ez == Zeros(DenseRegs(d))
  {
    hide PE, Sum, Zeros, Reg;
    sum, ez := 0.0, 0;
    ghost var regs := DenseRegs(d);
    NoRegs(regs);
    for j := 0 to REGISTERS
      invariant Sum(regs[..j]) == sum + ez as real && Zeros(regs[..j]) == ez
    {
      var reg := Reg(d, j);
      SumAppend(regs[..j], [reg]);
      OneReg(reg);
      assert regs[..j + 1] == regs[..j] + [reg];
      if reg == 0 { ez := ez + 1; } else { sum := sum + PE(reg); }
    }
    assert regs[..REGISTERS] == regs;
    sum := sum + ez as real;
  }

  lemma Next4(regs: seq<nat>, i: nat, a: nat, b: nat, c: nat, d: nat)
    requires i + 4 <= |regs| && [a, b, c, d] == regs[i..i + 4]
    ensures Sum(regs[..i + 4]) == Sum(regs[..i]) + ((PE(a) + PE(b)) + (PE(c) + PE(d)))
    ensures Zeros(regs[..i + 4]) == Zeros(regs[..i]) + (Flag(a) + Flag(b) + Flag(c) + Flag(d))
  {
    hide PE, Sum, Zeros;
    Sum4(a, b, c, d);
    SumAppend(regs[..i], [a, b, c, d]);
    assert regs[..i + 4] == regs[..i] + [a, b, c, d];
  }

  lemma NoRegs(regs: seq<nat>)
    ensures Sum(regs[..0]) == 0.0 && Zeros(regs[..0]) == 0
  {
  }

  // Sparse.

  /** `hllSparseSum`: zero runs are only counted, and added once at the end. */
  method SparseSum(s: seq<Byte>) returns (sum: real, ez: nat)
    requires WellFormed(s)
    ensures sum == Sum(Decode(s)) && ez == Zeros(Decode(s))
  {
    hide EncAll, Regs, Parse, Readable, Enc, PE, Sum, Zeros;
    ghost var os := Parse(s);
    EncParse(s);
    ValidParse(s);
    StartOf(os);
    NoRegs([]);
    sum, ez := 0.0, 0;
    var p: nat := 0;
    ghost var i: nat := 0;
    while p < |s|
      invariant i <= |os| && p == |EncAll(os[..i])|
      invariant Sum(Regs(os[..i])) == sum + ez as real && Zeros(Regs(os[..i])) == ez
      decreases |os| - i
    {
      Layout(os, i);
      AtEnd(os, i);
      Layout(os, i + 1);
      Reading(s, os, i, p);
      NextOp(os, i);
      if IsZero(s[p]) {
        ez := ez + ZeroLen(s[p]);
        p := p + 1;
      } else if IsXZero(s[p]) {
        ez := ez + XZeroLen(s[p], s[p + 1]);
        p := p + 2;
      } else {
        sum := sum + PE(ValValue(s[p])) * ValLen(s[p]) as real;
        p := p + 1;
      }
      i := i + 1;
    }
    H.AllRead(os, i);
    sum := sum + ez as real;
  }

  lemma NextOp(os: seq<Op>, i: nat)
    requires ValidOps(os) && i < |os|
    ensures var o := os[i];
            && Sum(Regs(os[..i + 1])) == Sum(Regs(os[..i])) + (if o.Val? then PE(o.val) * o.len as real else o.len as real)
            && Zeros(Regs(os[..i + 1])) == Zeros(Regs(os[..i])) + (if o.Val? then 0 else o.len)
  {
    hide EncAll, Regs, PE, Sum, Zeros;
    Layout(os, i);
    SumAppend(Regs(os[..i]), OpRegs(os[i]));
    SumFill(if os[i].Val? then os[i].val else 0, os[i].len);
    PEZero();
  }

  lemma PEZero()
    ensures PE(0) == 1.0
  {
  }

  // Raw.

  /** `hllRawSum` on one register a byte: a word of eight zeros is skipped. */
  method RawSum(regs: seq<nat>) returns (sum: real, ez: nat)
    requires |regs| == REGISTERS
    ensures sum == Sum(regs) && ez == Zeros(regs)
  {
    hide PE, Sum, Zeros;
    sum, ez := 0.0, 0;
    NoRegs(regs);
    for j := 0 to REGISTERS / 8
      invariant Sum(regs[..8 * j]) == sum + ez as real && Zeros(regs[..8 * j]) == ez
    {
      ghost var w := regs[8 * j..8 * j + 8];
      SumAppend(regs[..8 * j], w);
      assert regs[..8 * (j + 1)] == regs[..8 * j] + w;
      if forall k :: 8 * j <= k < 8 * j + 8 ==> regs[k] == 0 {
        assert w == Fill(0, 8);
        SumFill(0, 8);
        PEZero();
        ez := ez + 8;
      } else {
        var s, z := WordSum(regs, 8 * j);
        sum := sum + s;
        ez := ez + z;
      }
    }
    assert regs[..REGISTERS] == regs;
    sum := sum + ez as real;
  }

  method WordSum(regs: seq<nat>, i: nat) returns (sum: real, ez: nat)
    requires i + 8 <= |regs|
    ensures Sum(regs[i..i + 8]) == sum + ez as real && Zeros(regs[i..i + 8]) == ez
  {
    hide PE, Sum, Zeros;
    sum, ez := 0.0, 0;
    NoRegs(regs);
    assert regs[i..i] == regs[..0];
    for k := 0 to 8
      invariant Sum(regs[i..i + k]) == sum + ez as real && Zeros(regs[i..i + k]) == ez
    {
      SumAppend(regs[i..i + k], [regs[i + k]]);
      OneReg(regs[i + k]);
      assert regs[i..i + k + 1] == regs[i..i + k] + [regs[i + k]];
      if regs[i + k] != 0 { sum := sum + PE(regs[i + k]); } else { ez := ez + 1; }
    }
  }

  lemma OneReg(r: nat)
    ensures Sum([r]) == PE(r) && Zeros([r]) == Flag(r) && PE(0) == 1.0
  {
    assert [r][1..] == [];
  }
}
