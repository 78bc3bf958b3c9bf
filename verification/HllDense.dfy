/**
 The dense HyperLogLog encoding: 6-bit registers packed into bytes, read and
 written by the macros of hyperloglog.c. The bytes read past the end are the
 terminator that string buffers carry.
 */
module HllDense {
  import opened Bytes
  import opened HllSparse

  const BITS: nat := 6
  const DENSE_BYTES: nat := 12288

  function ByteAt(d: seq<Byte>, i: nat): Byte {
    if i < |d| then d[i] else 0
  }

  /** Byte holding the first bit of a register, and that bit's number in it. */
  function FirstByte(pos: nat): nat { pos * BITS / 8 }
  function FirstBit(pos: nat): nat { pos * BITS % 8 }

  /** `HLL_DENSE_GET_REGISTER` on the two bytes involved. */
  function GetBits(b0: Byte, b1: Byte, fb: nat): (v: nat)
    ensures v < 64
  {
    if fb == 0 then (b0 + b1 * 256) % 64
    else if fb == 2 then (b0 / 4 + b1 * 64) % 64
    else if fb == 4 then (b0 / 16 + b1 * 16) % 64
    else (b0 / 64 + b1 * 4) % 64
  }

  function Reg(d: seq<Byte>, pos: nat): (v: nat)
    ensures v < 64
  {
    GetBits(ByteAt(d, FirstByte(pos)), ByteAt(d, FirstByte(pos) + 1), FirstBit(pos))
  }

  /** `HLL_DENSE_SET_REGISTER`: clear the register's bits, then or in the value. */
  function SetLow(b: Byte, fb: nat, v: nat): Byte
    requires v < 64
  {
    if fb == 0 then b / 64 * 64 + v
    else if fb == 2 then b % 4 + v * 4
    else if fb == 4 then b % 16 + v % 16 * 16
    else b % 64 + v % 4 * 64
  }

  function SetHigh(b: Byte, fb: nat, v: nat): Byte
    requires v < 64
  {
    if fb == 4 then b / 4 * 4 + v / 16
    else if fb == 6 then b / 16 * 16 + v / 4
    else b
  }

  function SetReg(d: seq<Byte>, pos: nat, v: nat): (r: seq<Byte>)
    requires FirstByte(pos) < |d| && v < 64
    ensures |r| == |d|
  {
    var i, fb := FirstByte(pos), FirstBit(pos);
    var e := d[i := SetLow(d[i], fb, v)];
    if i + 1 < |d| then e[i + 1 := SetHigh(e[i + 1], fb, v)] else e
  }

  /** A group of four registers occupies three bytes. */
  lemma Group(pos: nat)
    ensures var q := pos / 4;
            && (pos % 4 == 0 ==> FirstByte(pos) == 3 * q && FirstBit(pos) == 0)
            && (pos % 4 == 1 ==> FirstByte(pos) == 3 * q && FirstBit(pos) == 6)
            && (pos % 4 == 2 ==> FirstByte(pos) == 3 * q + 1 && FirstBit(pos) == 4)
            && (pos % 4 == 3 ==> FirstByte(pos) == 3 * q + 2 && FirstBit(pos) == 2)
  {
    var q := pos / 4;
    if pos % 4 == 0 { assert pos * 6 == 8 * (3 * q); }
    else if pos % 4 == 1 { assert pos * 6 == 8 * (3 * q) + 6; }
    else if pos % 4 == 2 { assert pos * 6 == 8 * (3 * q + 1) + 4; }
    else { assert pos * 6 == 8 * (3 * q + 2) + 2; }
  }

  /** A register from the three bytes of its group. */
  lemma GroupReg(d: seq<Byte>, pos: nat)
    requires 3 * (pos / 4) + 2 < |d|
    ensures var q := pos / 4;
            Reg(d, pos) == Triple(pos % 4, d[3 * q], d[3 * q + 1], d[3 * q + 2])
  {
    hide GetBits;
    var q := pos / 4;
    Group(pos);
    Bits(d[3 * q], d[3 * q + 1]);
    Bits(d[3 * q + 1], d[3 * q + 2]);
    Bits(d[3 * q + 2], ByteAt(d, 3 * q + 3));
  }

  lemma Bits(b0: Byte, b1: Byte)
    ensures GetBits(b0, b1, 0) == b0 % 64
    ensures GetBits(b0, b1, 2) == b0 / 4
    ensures GetBits(b0, b1, 4) == b0 / 16 + b1 % 4 * 16
    ensures GetBits(b0, b1, 6) == b0 / 64 + b1 % 16 * 4
  {
    Wrap(b0 % 64, b0 / 64 + 4 * b1);
    Wrap(b0 / 4, b1);
    Wrap(b0 / 16 + b1 % 4 * 16, b1 / 4);
    Wrap(b0 / 64 + b1 % 16 * 4, b1 / 16);
  }

  lemma Wrap(x: nat, m: nat)
    requires x < 64
    ensures (x + 64 * m) % 64 == x
  {
  }

  /** The three bytes of a group after a register of it is set. */
  lemma GroupSet(d: seq<Byte>, pos: nat, v: nat)
    requires v < 64 && 3 * (pos / 4) + 2 < |d|
    ensures FirstByte(pos) < |d|
    ensures var q, e := pos / 4, SetReg(d, pos, v);
            && (forall i :: 0 <= i < |d| && !(3 * q <= i <= 3 * q + 2) ==> e[i] == d[i])
            && (match pos % 4
                case 0 => e[3 * q] == d[3 * q] / 64 * 64 + v && e[3 * q + 1] == d[3 * q + 1] && e[3 * q + 2] == d[3 * q + 2]
                case 1 => e[3 * q] == d[3 * q] % 64 + v % 4 * 64 && e[3 * q + 1] == d[3 * q + 1] / 16 * 16 + v / 4
                          && e[3 * q + 2] == d[3 * q + 2]
                case 2 => e[3 * q] == d[3 * q] && e[3 * q + 1] == d[3 * q + 1] % 16 + v % 16 * 16
                          && e[3 * q + 2] == d[3 * q + 2] / 4 * 4 + v / 16
                case _ => e[3 * q] == d[3 * q] && e[3 * q + 1] == d[3 * q + 1] && e[3 * q + 2] == d[3 * q + 2] % 4 + v * 4)
  {
    Group(pos);
  }

  lemma Low64(b: nat, v: nat)
    requires v < 64
    ensures (b / 64 * 64 + v) % 64 == v && (b / 64 * 64 + v) / 64 == b / 64
  {
  }

  lemma High64(b: nat, v: nat)
    ensures (b % 64 + v * 64) % 64 == b % 64 && (b % 64 + v * 64) / 64 == v
  {
  }

  lemma Low16(b: nat, v: nat)
    requires v < 16
    ensures (b / 16 * 16 + v) % 16 == v && (b / 16 * 16 + v) / 16 == b / 16
  {
  }

  lemma High16(b: nat, v: nat)
    ensures (b % 16 + v * 16) % 16 == b % 16 && (b % 16 + v * 16) / 16 == v
  {
  }

  lemma Low4(b: nat, v: nat)
    requires v < 4
    ensures (b / 4 * 4 + v) % 4 == v && (b / 4 * 4 + v) / 4 == b / 4
  {
  }

  lemma High4(b: nat, v: nat)
    ensures (b % 4 + v * 4) % 4 == b % 4 && (b % 4 + v * 4) / 4 == v
  {
  }

  /** A packed register reads back what was written, and no other changes. */
  lemma SetGet(d: seq<Byte>, pos: nat, v: nat, k: nat)
    requires v < 64 && 3 * (pos / 4) + 2 < |d| && 3 * (k / 4) + 2 < |d|
    ensures FirstByte(pos) < |d|
    ensures Reg(SetReg(d, pos, v), k) == if k == pos then v else Reg(d, k)
  {
    hide SetReg, Reg, FirstByte;
    Group(pos);
    GroupSet(d, pos, v);
    var q := k / 4;
    GroupReg(d, k);
    GroupReg(SetReg(d, pos, v), k);
    if q == pos / 4 && k != pos { assert k % 4 != pos % 4; }
    if q == pos / 4 {
      var e := SetReg(d, pos, v);
      SetTriple(pos % 4, v, d[3 * q], d[3 * q + 1], d[3 * q + 2], e[3 * q], e[3 * q + 1], e[3 * q + 2]);
    }
  }

  /** Register `r` of a group of three bytes. */
  function Triple(r: nat, a: Byte, b: Byte, c: Byte): nat {
    if r == 0 then a % 64 else if r == 1 then a / 64 + b % 16 * 4
    else if r == 2 then b / 16 + c % 4 * 16 else c / 4
  }

  lemma SetTriple(r: nat, v: nat, a: Byte, b: Byte, c: Byte, a': Byte, b': Byte, c': Byte)
    requires r < 4 && v < 64
    requires r == 0 ==> a' == a / 64 * 64 + v && b' == b && c' == c
    requires r == 1 ==> a' == a % 64 + v % 4 * 64 && b' == b / 16 * 16 + v / 4 && c' == c
    requires r == 2 ==> a' == a && b' == b % 16 + v % 16 * 16 && c' == c / 4 * 4 + v / 16
    requires r == 3 ==> a' == a && b' == b && c' == c % 4 + v * 4
    ensures Triple(r, a', b', c') == v
    ensures forall k :: 0 <= k < 4 && k != r ==> Triple(k, a', b', c') == Triple(k, a, b, c)
  {
    if r == 0 { SetFirst(v, a, b, c, a'); }
    else if r == 1 { SetSecond(v, a, b, c, a', b'); }
    else if r == 2 { SetThird(v, a, b, c, b', c'); }
    else { High4(c, v); }
  }

  lemma SetFirst(v: nat, a: Byte, b: Byte, c: Byte, a': Byte)
    requires v < 64 && a' == a / 64 * 64 + v
    ensures Triple(0, a', b, c) == v && forall k :: 1 <= k < 4 ==> Triple(k, a', b, c) == Triple(k, a, b, c)
  {
    Low64(a, v);
  }

  lemma SetSecond(v: nat, a: Byte, b: Byte, c: Byte, a': Byte, b': Byte)
    requires v < 64 && a' == a % 64 + v % 4 * 64 && b' == b / 16 * 16 + v / 4
    ensures Triple(1, a', b', c) == v
    ensures forall k :: 0 <= k < 4 && k != 1 ==> Triple(k, a', b', c) == Triple(k, a, b, c)
  {
    High64(a, v % 4);
    Low16(b, v / 4);
    Parts4(v);
  }

  lemma SetThird(v: nat, a: Byte, b: Byte, c: Byte, b': Byte, c': Byte)
    requires v < 64 && b' == b % 16 + v % 16 * 16 && c' == c / 4 * 4 + v / 16
    ensures Triple(2, a, b', c') == v
    ensures forall k :: 0 <= k < 4 && k != 2 ==> Triple(k, a, b', c') == Triple(k, a, b, c)
  {
    High16(b, v % 16);
    Low4(c, v / 16);
    Parts16(v);
  }

  lemma Parts4(v: nat)
    ensures v == v % 4 + v / 4 * 4
  {
  }

  lemma Parts16(v: nat)
    ensures v == v % 16 + v / 16 * 16
  {
  }

  // Register arrays.

  ghost predicate IsDense(d: seq<Byte>) {
    |d| == DENSE_BYTES
  }

  function DenseRegs(d: seq<Byte>): (r: seq<nat>)
    ensures |r| == REGISTERS && forall i :: 0 <= i < REGISTERS ==> r[i] == Reg(d, i)
  {
    seq(REGISTERS, i requires 0 <= i < REGISTERS => Reg(d, i))
  }

  lemma SetRegs(d: seq<Byte>, pos: nat, v: nat)
    requires IsDense(d) && pos < REGISTERS && v < 64
    ensures FirstByte(pos) < |d| && IsDense(SetReg(d, pos, v))
    ensures DenseRegs(SetReg(d, pos, v)) == DenseRegs(d)[pos := v]
  {
    hide Reg, SetReg, FirstByte;
    Group(pos);
    SetGet(d, pos, v, pos);
    forall k | 0 <= k < REGISTERS
      ensures Reg(SetReg(d, pos, v), k) == if k == pos then v else Reg(d, k)
    {
      SetGet(d, pos, v, k);
    }
  }

  lemma ZeroRegs()
    ensures var d: seq<Byte> := seq(DENSE_BYTES, _ => 0);
            IsDense(d) && DenseRegs(d) == Fill(0, REGISTERS)
  {
    var d: seq<Byte> := seq(DENSE_BYTES, _ => 0);
    forall i | 0 <= i < REGISTERS ensures Reg(d, i) == 0 {
      hide Reg, FirstByte;
      GroupReg(d, i);
    }
  }
}
