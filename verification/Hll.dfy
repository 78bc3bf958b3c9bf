/**
 HyperLogLog objects: creation, additions in either encoding, promotion from
 sparse to dense, and merges. Whatever the encoding and the order, the registers
 are a function of the set of hashes added.
 */
module Hll {
  import opened Words
  import opened Bytes
  import opened HllSparse
  import opened HllDense

  const P: nat := 14

  // Hashes.

  function Index(h: Word): (i: nat)
    ensures i < REGISTERS
  {
    NumBound(h[..P]);
    assert Pow2(P) == REGISTERS;
    Num(h[..P])
  }

  /** Bits from `i` on up to the first one, which is forced at bit 63. */
  function RunFrom(h: Word, i: nat): (n: nat)
    requires i < WIDTH
    ensures 1 <= n <= WIDTH - i
    decreases WIDTH - i
  {
    if h[i] || i == WIDTH - 1 then 1 else 1 + RunFrom(h, i + 1)
  }

  function Count(h: Word): (n: nat)
    ensures 1 <= n <= 50
  {
    RunFrom(h, P)
  }

  /** A pattern of length `n`: the bits after the index bits are zeros up to a one at its
      end, bit 63 being taken as one. */
  predicate Pattern(h: Word, n: nat) {
    && 1 <= n <= WIDTH - P
    && (forall j :: P <= j < P + n - 1 ==> !h[j])
    && (h[P + n - 1] || P + n - 1 == WIDTH - 1)
  }

  lemma {:induction false} RunFromIs(h: Word, i: nat)
    requires P <= i < WIDTH
    ensures var n := RunFrom(h, i);
            (forall j :: i <= j < i + n - 1 ==> !h[j]) && (h[i + n - 1] || i + n - 1 == WIDTH - 1)
    decreases WIDTH - i
  {
    if !h[i] && i < WIDTH - 1 { RunFromIs(h, i + 1); }
  }

  lemma CountIs(h: Word, n: nat)
    ensures Count(h) == n <==> Pattern(h, n)
  {
    RunFromIs(h, P);
    assert Pattern(h, Count(h));
    if Pattern(h, n) {
      NoShorter(h, Count(h), n);
      NoShorter(h, n, Count(h));
    }
  }

  lemma NoShorter(h: Word, m: nat, n: nat)
    requires Pattern(h, m) && Pattern(h, n)
    ensures m <= n
  {
  }

  /** The bits of the index are the first bits of the hash. */
  lemma IndexBits(h: Word, i: nat)
    requires i < P
    ensures (Index(h) / Pow2(i) % 2 == 1) == h[i]
  {
    hide Num, Pow2;
    var b := h[..P];
    NumAppend(b[..i], b[i..]);
    assert b == b[..i] + b[i..];
    NumBound(b[..i]);
    TopOf(Num(b[..i]), Num(b[i..]), Pow2(i));
    LowestBit(b[i..]);
  }

  lemma LowestBit(b: Bits)
    requires b != []
    ensures (Num(b) % 2 == 1) == b[0]
  {
  }

  lemma TopOf(low: nat, high: nat, p: nat)
    requires low < p
    ensures (low + p * high) / p == high && (low + high * p) / p == high
  {
    var x := low + p * high;
    var q, r := x / p, x % p;
    assert x == p * q + r;
    Lexicographic(p, high, low, q, r);
  }

  /** `hllPatLen` on the element's hash. */
  method PatLen(h: Word) returns (index: nat, count: nat)
    ensures index == Index(h) && count == Count(h)
    ensures index < REGISTERS && forall i :: 0 <= i < P ==> (index / Pow2(i) % 2 == 1) == h[i]
    ensures Pattern(h, count) && forall n :: Pattern(h, n) ==> n == count
  {
    forall i | 0 <= i < P ensures (Index(h) / Pow2(i) % 2 == 1) == h[i] { IndexBits(h, i); }
    forall n: nat ensures Count(h) == n <==> Pattern(h, n) { CountIs(h, n); }
    hide Num;
    index := Num(h[..P]);
    var hash: Word := h[WIDTH - 1 := true];
    var bit := P;
    count := 1;
    while !hash[bit]
      invariant P <= bit < WIDTH && count == bit - P + 1
      invariant RunFrom(h, P) == count - 1 + RunFrom(h, bit)
      decreases WIDTH - bit
    {
      count := count + 1;
      bit := bit + 1;
    }
  }

  // What registers mean.

  /** Each register is the longest pattern among the hashes of its index, zero
      when there is none. */
  ghost predicate Sketch(regs: seq<nat>, hs: set<Word>) {
    && |regs| == REGISTERS
    && (forall h :: h in hs ==> Count(h) <= regs[Index(h)])
    && (forall i :: 0 <= i < REGISTERS && regs[i] > 0 ==> Attained(regs[i], i, hs))
  }

  ghost predicate Attained(c: nat, i: nat, hs: set<Word>) {
    exists h :: h in hs && Index(h) == i && Count(h) == c
  }

  function Max(a: nat, b: nat): nat { if a < b then b else a }

  function MaxAll(a: seq<nat>, b: seq<nat>): (r: seq<nat>)
    requires |a| == |b|
    ensures |r| == |a| && forall i :: 0 <= i < |a| ==> r[i] == Max(a[i], b[i])
  {
    seq(|a|, i requires 0 <= i < |a| => Max(a[i], b[i]))
  }

  /** Order, repetition and encoding leave no trace: the registers follow from
      the set of hashes. */
  lemma SketchUnique(a: seq<nat>, b: seq<nat>, hs: set<Word>)
    requires Sketch(a, hs) && Sketch(b, hs)
    ensures a == b
  {
    hide Index, Count;
    forall i | 0 <= i < REGISTERS ensures a[i] == b[i] {
      SketchBelow(a, b, hs, i);
      SketchBelow(b, a, hs, i);
    }
  }

  lemma SketchBelow(a: seq<nat>, b: seq<nat>, hs: set<Word>, i: nat)
    requires Sketch(a, hs) && Sketch(b, hs) && i < REGISTERS
    ensures a[i] <= b[i]
  {
    hide Index, Count;
    if a[i] > 0 {
      var h :| h in hs && Index(h) == i && Count(h) == a[i];
    }
  }

  lemma SketchNone()
    ensures Sketch(Fill(0, REGISTERS), {})
  {
  }

  lemma SketchAdd(regs: seq<nat>, hs: set<Word>, h: Word)
    requires Sketch(regs, hs)
    ensures var i := Index(h); Sketch(regs[i := Max(regs[i], Count(h))], hs + {h})
  {
    hide Index, Count;
    var k := Index(h);
    var r := regs[k := Max(regs[k], Count(h))];
    forall i | 0 <= i < REGISTERS && r[i] > 0 ensures Attained(r[i], i, hs + {h}) {
      if r[i] == regs[i] {
        var g :| g in hs && Index(g) == i && Count(g) == regs[i];
        assert g in hs + {h};
      } else {
        assert h in hs + {h};
      }
    }
  }

  /** The registerwise maximum of two sketches sketches the union. */
  lemma SketchMerge(a: seq<nat>, b: seq<nat>, hs: set<Word>, gs: set<Word>)
    requires Sketch(a, hs) && Sketch(b, gs)
    ensures Sketch(MaxAll(a, b), hs + gs)
  {
    hide Index, Count;
    var r := MaxAll(a, b);
    forall i | 0 <= i < REGISTERS && r[i] > 0 ensures Attained(r[i], i, hs + gs) {
      if r[i] == a[i] {
        var g :| g in hs && Index(g) == i && Count(g) == a[i];
        assert g in hs + gs;
      } else {
        var g :| g in gs && Index(g) == i && Count(g) == b[i];
        assert g in hs + gs;
      }
    }
  }

  // Loops over opcodes and registers.

  /** `hllSparseToDense` on a well-formed string. */
  method SparseToDense(s: seq<Byte>) returns (d: seq<Byte>)
    requires WellFormed(s)
    ensures IsDense(d) && DenseRegs(d) == Decode(s)
  {
    hide EncAll, Regs, Parse, Readable, Enc, Reg, DenseRegs, SetReg, FirstByte;
    ghost var os := Parse(s);
    EncParse(s);
    ValidParse(s);
    d := seq(DENSE_BYTES, _ => 0);
    ZeroRegs();
    StartOf(os);
    var p: nat, idx: nat := 0, 0;
    ghost var i: nat := 0;
    while p < |s|
      invariant i <= |os| && p == |EncAll(os[..i])| && idx == |Regs(os[..i])| <= REGISTERS
      invariant IsDense(d) && DenseRegs(d) == Regs(os[..i]) + Fill(0, REGISTERS - idx)
      decreases |os| - i
    {
      Layout(os, i);
      AtEnd(os, i);
      Layout(os, i + 1);
      Reading(s, os, i, p);
      ghost var before := Regs(os[..i]);
      if IsZero(s[p]) {
        idx := idx + ZeroLen(s[p]);
        p := p + 1;
      } else if IsXZero(s[p]) {
        idx := idx + XZeroLen(s[p], s[p + 1]);
        p := p + 2;
      } else {
        d := SetRun(d, idx, ValValue(s[p]), ValLen(s[p]), before);
        idx := idx + ValLen(s[p]);
        p := p + 1;
      }
      assert before + Fill(0, REGISTERS - |before|) == before + Fill(0, os[i].len) + Fill(0, REGISTERS - idx);
      i := i + 1;
    }
    AllRead(os, i);
    assert Regs(os) + Fill(0, 0) == Regs(os);
  }

  lemma AllRead(os: seq<Op>, i: nat)
    requires ValidOps(os) && i <= |os| && |EncAll(os[..i])| >= |EncAll(os)|
    ensures i == |os| && os[..i] == os
  {
    if i < |os| { Layout(os, i); }
  }

  /** A run of equal registers. */
  method SetRun(d0: seq<Byte>, idx: nat, v: nat, n: nat, ghost before: seq<nat>) returns (d: seq<Byte>)
    requires IsDense(d0) && idx + n <= REGISTERS && v < 64 && |before| == idx
    requires DenseRegs(d0) == before + Fill(0, REGISTERS - idx)
    ensures IsDense(d) && DenseRegs(d) == before + Fill(v, n) + Fill(0, REGISTERS - idx - n)
  {
    hide Reg, SetReg, FirstByte, DenseRegs;
    d := d0;
    for k := 0 to n
      invariant IsDense(d) && DenseRegs(d) == before + Fill(v, k) + Fill(0, REGISTERS - idx - k)
    {
      SetRegs(d, idx + k, v);
      d := SetReg(d, idx + k, v);
      assert DenseRegs(d) == before + Fill(v, k + 1) + Fill(0, REGISTERS - idx - k - 1);
    }
  }

  lemma RaiseIs(r: seq<nat>, i: nat, c: nat)
    requires i < |r|
    ensures r[i] >= c ==> r[i := Max(r[i], c)] == r
    ensures r[i] < c ==> r[i := Max(r[i], c)] == r[i := c] && r[i := c] != r
  {
    if r[i] < c { assert r[i := c][i] != r[i]; }
  }

  lemma SketchSmall(regs: seq<nat>, hs: set<Word>)
    requires Sketch(regs, hs)
    ensures forall i :: 0 <= i < REGISTERS ==> regs[i] < 64
  {
    hide Index;
    forall i | 0 <= i < REGISTERS ensures regs[i] < 64 {
      if regs[i] > 0 { var h :| h in hs && Index(h) == i && Count(h) == regs[i]; }
    }
  }

  // The object.

  class Hll {
    var dense: bool
    var data: seq<Byte>
    ghost var added: set<Word>

    ghost function Registers(): seq<nat>
      reads this
      requires if dense then IsDense(data) else WellFormed(data)
    {
      if dense then DenseRegs(data) else Decode(data)
    }

    ghost predicate Valid()
      reads this
    {
      && (if dense then IsDense(data) else WellFormed(data))
      && Sketch(Registers(), added)
    }

    /** `createHLLObject`: as many XZERO opcodes as the registers need. */
    constructor ()
      ensures Valid() && added == {} && !dense
    {
      var aux, p: seq<Byte> := REGISTERS, [];
      ghost var os: seq<Op> := [];
      while aux > 0
        invariant 0 <= aux && ((aux == REGISTERS && os == []) || (aux == 0 && os == [XZero(REGISTERS)]))
        invariant ValidOps(os) && p == EncAll(os)
      {
        var xzero := XZERO_MAX_LEN;
        if xzero > aux { xzero := aux; }
        OneOp(XZero(xzero));
        p := p + [64 + (xzero - 1) / 256, (xzero - 1) % 256];
        os := os + [XZero(xzero)];
        aux := aux - xzero;
      }
      dense, data, added := false, p, {};
      ParseEnc(os);
      OneOp(XZero(REGISTERS));
      SketchNone();
      new;
      assert Decode(data) == Fill(0, REGISTERS);
    }

    /** `hllAdd` on the element's hash: 1 when a register changed. */
    method Add(h: Word, maxBytes: nat) returns (changed: bool)
      requires Valid()
      modifies this
      ensures Valid() && added == old(added) + {h}
      ensures Registers() == var r := old(Registers()); r[Index(h) := Max(r[Index(h)], Count(h))]
      ensures changed <==> Registers() != old(Registers())
      ensures old(dense) ==> dense
    {
      hide Sketch, Index, Count, WellFormed, Decode, DenseRegs, Pattern, Pow2;
      SketchAdd(Registers(), added, h);
      var index, count := PatLen(h);
      changed := Raise(index, count, maxBytes);
      added := added + {h};
    }

    /** `hllSparseAdd` or `hllDenseAdd`, with the promotion between them. */
    method Raise(index: nat, count: nat, maxBytes: nat) returns (changed: bool)
      requires if dense then IsDense(data) else WellFormed(data)
      requires index < REGISTERS && 1 <= count < 64
      modifies this`data, this`dense
      ensures if dense then IsDense(data) else WellFormed(data)
      ensures Registers() == var r := old(Registers()); r[index := Max(r[index], count)]
      ensures changed <==> Registers() != old(Registers())
      ensures old(dense) ==> dense
    {
      hide WellFormed, Decode, DenseRegs;
      ghost var r0 := Registers();
      RaiseIs(r0, index, count);
      if dense {
        changed := DenseAdd(index, count);
      } else {
        var r := SparseAdd(data, index, count, maxBytes);
        if r.Promote? {
          data := SparseToDense(data);
          dense := true;
          changed := DenseAdd(index, count);
          assert changed;
        } else if r.Updated? {
          data := r.s;
          changed := true;
        } else {
          changed := false;
        }
      }
    }

    /** `hllDenseAdd`. */
    method DenseAdd(index: nat, count: nat) returns (changed: bool)
      requires dense && IsDense(data) && index < REGISTERS && 1 <= count < 64
      modifies this`data
      ensures IsDense(data)
      ensures DenseRegs(data) == var r := old(DenseRegs(data)); r[index := Max(r[index], count)]
      ensures changed <==> old(DenseRegs(data))[index] < count
    {
      hide Reg, SetReg, FirstByte;
      SetRegs(data, index, count);
      changed := count > Reg(data, index);
      if changed { data := SetReg(data, index, count); }
    }

    /** `hllMerge`: raises an array of registers to this object's. */
    method MergeInto(max: array<nat>)
      requires Valid() && max.Length == REGISTERS
      modifies max
      ensures max[..] == MaxAll(old(max[..]), Registers())
    {
      if dense {
        MergeDense(max);
      } else {
        MergeSparse(max);
      }
    }

    method MergeDense(max: array<nat>)
      requires dense && IsDense(data) && max.Length == REGISTERS
      modifies max
      ensures max[..] == MaxAll(old(max[..]), DenseRegs(data))
    {
      hide Reg;
      for i := 0 to REGISTERS
        invariant forall k :: 0 <= k < i ==> max[k] == Max(old(max[k]), DenseRegs(data)[k])
        invariant forall k :: i <= k < REGISTERS ==> max[k] == old(max[k])
      {
        var val := Reg(data, i);
        if val > max[i] { max[i] := val; }
      }
    }

    method MergeSparse(max: array<nat>)
      requires !dense && WellFormed(data) && max.Length == REGISTERS
      modifies max
      ensures max[..] == MaxAll(old(max[..]), Decode(data))
    {
      hide EncAll, Regs, Parse, Readable, Enc;
      ghost var os, all := Parse(data), Decode(data);
      EncParse(data);
      ValidParse(data);
      StartOf(os);
      var p: nat, i: nat := 0, 0;
      ghost var j: nat := 0;
      while p < |data|
        invariant j <= |os| && p == |EncAll(os[..j])| && i == |Regs(os[..j])| <= REGISTERS
        invariant Regs(os[..j]) <= all
        invariant forall k :: 0 <= k < i ==> max[k] == Max(old(max[k]), all[k])
        invariant forall k :: i <= k < REGISTERS ==> max[k] == old(max[k])
        decreases |os| - j
      {
        Layout(os, j);
        AtEnd(os, j);
        Layout(os, j + 1);
        Reading(data, os, j, p);
        assert forall k :: i <= k < i + os[j].len ==> all[k] == OpRegs(os[j])[k - i];
        if IsZero(data[p]) {
          i := i + ZeroLen(data[p]);
          p := p + 1;
        } else if IsXZero(data[p]) {
          i := i + XZeroLen(data[p], data[p + 1]);
          p := p + 2;
        } else {
          RaiseRun(max, i, ValValue(data[p]), ValLen(data[p]));
          i := i + ValLen(data[p]);
          p := p + 1;
        }
        j := j + 1;
      }
      AllRead(os, j);
    }
  }

  method RaiseRun(max: array<nat>, i: nat, v: nat, n: nat)
    requires i + n <= max.Length
    modifies max
    ensures forall k :: 0 <= k < max.Length ==> max[k] == if i <= k < i + n then Max(old(max[k]), v) else old(max[k])
  {
    for k := 0 to n
      invariant forall j :: 0 <= j < max.Length ==> max[j] == if i <= j < i + k then Max(old(max[j]), v) else old(max[j])
    {
      if v > max[i + k] { max[i + k] := v; }
    }
  }

  /** The hashes added to any of some objects. */
  ghost function Union(hs: seq<Hll>): set<Word>
    reads hs
  {
    if hs == [] then {} else Union(hs[..|hs| - 1]) + hs[|hs| - 1].added
  }

  /** The registerwise maximum of some objects. */
  method MergeAll(hs: seq<Hll>) returns (max: array<nat>)
    requires forall i :: 0 <= i < |hs| ==> hs[i].Valid()
    ensures fresh(max) && max.Length == REGISTERS && Sketch(max[..], Union(hs))
  {
    hide Sketch, WellFormed, Decode, DenseRegs, MaxAll;
    max := new nat[REGISTERS](_ => 0);
    SketchNone();
    assert max[..] == Fill(0, REGISTERS) && hs[..0] == [];
    for i := 0 to |hs|
      modifies max
      invariant Sketch(max[..], Union(hs[..i]))
    {
      SketchMerge(max[..], hs[i].Registers(), Union(hs[..i]), hs[i].added);
      assert hs[..i + 1][..i] == hs[..i];
      hs[i].MergeInto(max);
    }
    assert hs[..|hs|] == hs;
  }

  /** `pfmergeCommand`: the destination, itself one of the inputs, ends up with
      the union. */
  method PfMerge(dest: Hll, srcs: seq<Hll>)
    requires dest.Valid() && forall i :: 0 <= i < |srcs| ==> srcs[i].Valid()
    modifies dest
    ensures dest.Valid() && dest.dense && dest.added == old(Union([dest] + srcs))
  {
    hide Sketch, WellFormed, Decode, DenseRegs, Union;
    var max := MergeAll([dest] + srcs);
    ghost var all := Union([dest] + srcs);
    var d := dest.data;
    if !dest.dense { d := SparseToDense(d); }
    SketchSmall(max[..], all);
    assert forall k :: 0 <= k < REGISTERS ==> max[k] == max[..][k];
    d := StoreAll(d, max);
    dest.data, dest.dense, dest.added := d, true, all;
  }

  /** Writes an array of registers into the packed form. */
  method StoreAll(d0: seq<Byte>, max: array<nat>) returns (d: seq<Byte>)
    requires IsDense(d0) && max.Length == REGISTERS && forall k :: 0 <= k < REGISTERS ==> max[k] < 64
    ensures IsDense(d) && DenseRegs(d) == max[..]
  {
    hide Reg, SetReg, FirstByte;
    d := d0;
    for j := 0 to REGISTERS
      invariant IsDense(d) && forall k :: 0 <= k < j ==> DenseRegs(d)[k] == max[k]
    {
      SetRegs(d, j, max[j]);
      d := SetReg(d, j, max[j]);
    }
  }
}
