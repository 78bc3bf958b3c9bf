/**
 The sparse HyperLogLog encoding of hyperloglog.c: a string of run-length
 opcodes covering all registers, updated in place. Bytes are integers, and the
 shifts and masks of the opcode macros are written as division and remainder.
 */
module HllSparse {
  import opened Bytes

  const REGISTERS: nat := 16384
  const VAL_MAX_VALUE: nat := 32
  const VAL_MAX_LEN: nat := 4
  const ZERO_MAX_LEN: nat := 64
  const XZERO_MAX_LEN: nat := 16384
  const HDR_SIZE: nat := 16

  // Opcodes.

  datatype Op = Zero(len: nat) | XZero(len: nat) | Val(val: nat, len: nat)

  predicate ValidOp(o: Op) {
    match o
    case Zero(n) => 1 <= n <= ZERO_MAX_LEN
    case XZero(n) => 1 <= n <= XZERO_MAX_LEN
    case Val(v, n) => 1 <= v <= VAL_MAX_VALUE && 1 <= n <= VAL_MAX_LEN
  }

  function Enc(o: Op): (s: seq<Byte>)
    requires ValidOp(o)
    ensures |s| == if o.XZero? then 2 else 1
  {
    match o
    case Zero(n) => [n - 1]
    case XZero(n) => [64 + (n - 1) / 256, (n - 1) % 256]
    case Val(v, n) => [128 + (v - 1) * 4 + (n - 1)]
  }

  predicate IsZero(b: Byte) { b / 64 == 0 }
  predicate IsXZero(b: Byte) { b / 64 == 1 }
  predicate IsVal(b: Byte) { b / 128 == 1 }
  function ZeroLen(b: Byte): nat { b % 64 + 1 }
  function XZeroLen(b: Byte, c: Byte): nat { b % 64 * 256 + c + 1 }
  function ValValue(b: Byte): nat { b / 4 % 32 + 1 }
  function ValLen(b: Byte): nat { b % 4 + 1 }

  ghost predicate ValidOps(os: seq<Op>) {
    forall i :: 0 <= i < |os| ==> ValidOp(os[i])
  }

  function EncAll(os: seq<Op>): seq<Byte>
    requires forall i :: 0 <= i < |os| ==> ValidOp(os[i])
  {
    if os == [] then [] else Enc(os[0]) + EncAll(os[1..])
  }

  function Fill(v: nat, n: nat): (r: seq<nat>)
    ensures |r| == n && forall i :: 0 <= i < n ==> r[i] == v
  {
    seq(n, _ => v)
  }

  function OpRegs(o: Op): (r: seq<nat>)
    ensures |r| == o.len
  {
    Fill(if o.Val? then o.val else 0, o.len)
  }

  /** The registers a run of opcodes stands for. */
  function Regs(os: seq<Op>): seq<nat> {
    if os == [] then [] else OpRegs(os[0]) + Regs(os[1..])
  }

  // Reading.

  /** The opcode at the start of a byte string. */
  function Head(s: seq<Byte>): (o: Op)
    requires s != [] && (IsXZero(s[0]) ==> |s| >= 2)
    ensures ValidOp(o)
  {
    if IsZero(s[0]) then Zero(ZeroLen(s[0]))
    else if IsVal(s[0]) then Val(ValValue(s[0]), ValLen(s[0]))
    else XZero(XZeroLen(s[0], s[1]))
  }

  lemma EncOfHead(s: seq<Byte>)
    requires s != [] && (IsXZero(s[0]) ==> |s| >= 2)
    ensures Enc(Head(s)) == s[..if IsXZero(s[0]) then 2 else 1]
  {
    var b := s[0];
    if IsVal(b) { ValByte(b); } else if IsXZero(b) { XZeroHead(b, s[1]); } else { ZeroHead(b); }
  }

  lemma ZeroHead(b: Byte)
    requires !IsVal(b) && !IsXZero(b)
    ensures IsZero(b) && ZeroLen(b) - 1 == b
  {
  }

  lemma XZeroHead(b: Byte, c: Byte)
    requires IsXZero(b)
    ensures var n := XZeroLen(b, c) - 1; 64 + n / 256 == b && n % 256 == c
  {
    Bytewise(b % 64, c);
  }

  lemma Bytewise(a: nat, c: nat)
    requires c < 256
    ensures (a * 256 + c) / 256 == a && (a * 256 + c) % 256 == c
  {
  }

  lemma ValByte(b: Byte)
    requires IsVal(b)
    ensures 128 + (ValValue(b) - 1) * 4 + (ValLen(b) - 1) == b
  {
  }

  predicate Readable(s: seq<Byte>) {
    s != [] ==> (IsXZero(s[0]) ==> |s| >= 2) && Readable(s[if IsXZero(s[0]) then 2 else 1..])
  }

  /** Every byte string reads as opcodes in one way; only a cut XZERO does not. */
  function Parse(s: seq<Byte>): (os: seq<Op>)
    requires Readable(s)
    ensures forall i :: 0 <= i < |os| ==> ValidOp(os[i])
    decreases |s|
  {
    if s == [] then [] else [Head(s)] + Parse(s[if IsXZero(s[0]) then 2 else 1..])
  }

  /** The opcodes cover all registers. */
  predicate WellFormed(s: seq<Byte>) {
    Readable(s) && |Regs(Parse(s))| == REGISTERS
  }

  function Decode(s: seq<Byte>): (r: seq<nat>)
    requires WellFormed(s)
    ensures |r| == REGISTERS
  {
    Regs(Parse(s))
  }

  lemma HeadOfEnc(o: Op, t: seq<Byte>)
    requires ValidOp(o)
    ensures var s := Enc(o) + t;
            && (IsXZero(s[0]) <==> o.XZero?) && (IsXZero(s[0]) ==> |s| >= 2)
            && (IsZero(s[0]) <==> o.Zero?) && (IsVal(s[0]) <==> o.Val?)
            && Head(s) == o && s[|Enc(o)|..] == t
  {
    match o
    case Zero(n) =>
    case XZero(n) => XZeroBytes((n - 1) / 256, (n - 1) % 256);
    case Val(v, n) => ValBytes(v - 1, n - 1);
  }

  lemma XZeroBytes(a: nat, b: nat)
    requires a < 64 && b < 256
    ensures (64 + a) / 64 == 1 && (64 + a) / 128 == 0 && (64 + a) % 64 == a
  {
  }

  lemma ValBytes(a: nat, b: nat)
    requires a < 32 && b < 4
    ensures var x := 128 + a * 4 + b; x / 128 == 1 && x / 64 >= 2 && x / 4 % 32 == a && x % 4 == b
  {
    var x := 128 + a * 4 + b;
    assert x / 4 == 32 + a;
  }

  lemma {:induction false} ParseEnc(os: seq<Op>)
    requires ValidOps(os)
    ensures Readable(EncAll(os)) && Parse(EncAll(os)) == os
  {
    if os != [] {
      var t := EncAll(os[1..]);
      HeadOfEnc(os[0], t);
      ParseEnc(os[1..]);
      assert (Enc(os[0]) + t)[if os[0].XZero? then 2 else 1..] == t;
    }
  }

  /** The format in bytes: an empty HLL, and one with registers 1000, 1020 and 1021 set
      to 2, 3 and 3. */
  lemma Format()
    ensures WellFormed([0x7f, 0xff]) && forall i :: 0 <= i < REGISTERS ==> Decode([0x7f, 0xff])[i] == 0
    ensures var s: seq<Byte> := [0x43, 0xe7, 0x84, 0x12, 0x89, 0x7c, 0x01];
            && WellFormed(s)
            && forall i :: 0 <= i < REGISTERS ==>
                 Decode(s)[i] == if i == 1000 then 2 else if i == 1020 || i == 1021 then 3 else 0
  {
    FormatEmpty();
    FormatExample();
  }

  lemma FormatEmpty()
    ensures WellFormed([0x7f, 0xff]) && Decode([0x7f, 0xff]) == Fill(0, REGISTERS)
  {
    var os := [XZero(REGISTERS)];
    OneOp(os[0]);
    ParseEnc(os);
  }

  lemma FormatExample()
    ensures var s: seq<Byte> := [0x43, 0xe7, 0x84, 0x12, 0x89, 0x7c, 0x01];
            WellFormed(s) && Decode(s) == Fill(0, 1000) + Fill(2, 1) + Fill(0, 19) + Fill(3, 2) + Fill(0, 15362)
  {
    var a, b, c, d, e := XZero(1000), Val(2, 1), Zero(19), Val(3, 2), XZero(15362);
    OneOp(a);
    OneOp(b);
    OneOp(c);
    OneOp(d);
    OneOp(e);
    assert Enc(a) == [0x43, 0xe7] && Enc(b) == [0x84] && Enc(c) == [0x12] && Enc(d) == [0x89] && Enc(e) == [0x7c, 0x01];
    hide Enc, OpRegs, EncAll, Regs;
    EncAppend([a], [b]);
    EncAppend([a] + [b], [c]);
    EncAppend([a] + [b] + [c], [d]);
    EncAppend([a] + [b] + [c] + [d], [e]);
    RegsAppend([a], [b]);
    RegsAppend([a] + [b], [c]);
    RegsAppend([a] + [b] + [c], [d]);
    RegsAppend([a] + [b] + [c] + [d], [e]);
    var os := [a] + [b] + [c] + [d] + [e];
    ParseEnc(os);
    assert EncAll(os) == [0x43, 0xe7, 0x84, 0x12, 0x89, 0x7c, 0x01];
  }

  lemma {:induction false} EncParse(s: seq<Byte>)
    requires Readable(s)
    ensures EncAll(Parse(s)) == s
    decreases |s|
  {
    if s != [] {
      var k := if IsXZero(s[0]) then 2 else 1;
      EncParse(s[k..]);
      assert Parse(s)[1..] == Parse(s[k..]);
      assert s == s[..k] + s[k..];
      EncOfHead(s);
    }
  }

  lemma {:induction false} EncAppend(a: seq<Op>, b: seq<Op>)
    requires ValidOps(a) && ValidOps(b)
    ensures ValidOps(a + b) && EncAll(a + b) == EncAll(a) + EncAll(b)
  {
    if a == [] {
      assert a + b == b;
    } else {
      assert (a + b)[1..] == a[1..] + b;
      EncAppend(a[1..], b);
      assert Enc(a[0]) + (EncAll(a[1..]) + EncAll(b)) == Enc(a[0]) + EncAll(a[1..]) + EncAll(b);
    }
  }

  lemma {:induction false} RegsAppend(a: seq<Op>, b: seq<Op>)
    ensures Regs(a + b) == Regs(a) + Regs(b)
  {
    if a == [] {
      assert a + b == b;
    } else {
      assert (a + b)[1..] == a[1..] + b;
      RegsAppend(a[1..], b);
      assert OpRegs(a[0]) + (Regs(a[1..]) + Regs(b)) == OpRegs(a[0]) + Regs(a[1..]) + Regs(b);
    }
  }

  lemma OneOp(o: Op)
    ensures Regs([o]) == OpRegs(o)
    ensures ValidOp(o) ==> EncAll([o]) == Enc(o)
  {
    assert [o][1..] == [];
  }

  /** Where opcode number `i` sits in the bytes. */
  lemma Layout(os: seq<Op>, i: nat)
    requires ValidOps(os) && i <= |os|
    ensures EncAll(os) == EncAll(os[..i]) + EncAll(os[i..])
    ensures Regs(os) == Regs(os[..i]) + Regs(os[i..])
    ensures i < |os| ==> EncAll(os[i..]) == Enc(os[i]) + EncAll(os[i + 1..])
    ensures i < |os| ==> EncAll(os[..i + 1]) == EncAll(os[..i]) + Enc(os[i])
    ensures i < |os| ==> Regs(os[..i + 1]) == Regs(os[..i]) + OpRegs(os[i])
  {
    LayoutEnc(os, i);
    LayoutRegs(os, i);
  }

  lemma LayoutEnc(os: seq<Op>, i: nat)
    requires ValidOps(os) && i <= |os|
    ensures EncAll(os) == EncAll(os[..i]) + EncAll(os[i..])
    ensures i < |os| ==> EncAll(os[i..]) == Enc(os[i]) + EncAll(os[i + 1..])
    ensures i < |os| ==> EncAll(os[..i + 1]) == EncAll(os[..i]) + Enc(os[i])
  {
    hide EncAll, Enc, ValidOp, Regs, OpRegs, ValidOps;
    assert os == os[..i] + os[i..];
    ValidParts(os, i);
    EncAppend(os[..i], os[i..]);
    if i < |os| {
      LayoutNext(os, i);
      LayoutLast(os, i);
    }
  }

  lemma ValidParts(os: seq<Op>, i: nat)
    requires ValidOps(os) && i <= |os|
    ensures ValidOps(os[..i]) && ValidOps(os[i..])
  {
    hide ValidOp;
  }

  lemma LayoutNext(os: seq<Op>, i: nat)
    requires ValidOps(os) && i < |os|
    ensures EncAll(os[i..]) == Enc(os[i]) + EncAll(os[i + 1..])
  {
    hide EncAll, Enc, ValidOp, Regs, OpRegs;
    assert os[i..] == [os[i]] + os[i + 1..];
    EncAppend([os[i]], os[i + 1..]);
    OneOp(os[i]);
  }

  lemma LayoutLast(os: seq<Op>, i: nat)
    requires ValidOps(os) && i < |os|
    ensures EncAll(os[..i + 1]) == EncAll(os[..i]) + Enc(os[i])
  {
    hide EncAll, Enc, ValidOp, Regs, OpRegs;
    assert os[..i + 1] == os[..i] + [os[i]];
    EncAppend(os[..i], [os[i]]);
    OneOp(os[i]);
  }

  lemma LayoutRegs(os: seq<Op>, i: nat)
    requires i <= |os|
    ensures Regs(os) == Regs(os[..i]) + Regs(os[i..])
    ensures i < |os| ==> Regs(os[..i + 1]) == Regs(os[..i]) + OpRegs(os[i])
  {
    hide Regs, OpRegs, EncAll, Enc, ValidOp;
    assert os == os[..i] + os[i..];
    RegsAppend(os[..i], os[i..]);
    if i < |os| { RegsLast(os, i); }
  }

  lemma RegsLast(os: seq<Op>, i: nat)
    requires i < |os|
    ensures Regs(os[..i + 1]) == Regs(os[..i]) + OpRegs(os[i])
  {
    hide Regs, OpRegs, EncAll, Enc, ValidOp;
    assert os[..i + 1] == os[..i] + [os[i]];
    RegsAppend(os[..i], [os[i]]);
    OneOp(os[i]);
  }

  /** Replacing opcode `i` by a run that covers the same registers. */
  lemma Splice(os: seq<Op>, i: nat, mid: seq<Op>)
    requires ValidOps(os) && ValidOps(mid) && i < |os|
    ensures var r := os[..i] + mid + os[i + 1..];
            && ValidOps(r)
            && EncAll(r) == EncAll(os[..i]) + EncAll(mid) + EncAll(os[i + 1..])
            && Regs(r) == Regs(os[..i]) + Regs(mid) + Regs(os[i + 1..])
            && Regs(os) == Regs(os[..i]) + OpRegs(os[i]) + Regs(os[i + 1..])
  {
    EncAppend(os[..i] + mid, os[i + 1..]);
    EncAppend(os[..i], mid);
    RegsAppend(os[..i] + mid, os[i + 1..]);
    RegsAppend(os[..i], mid);
    Layout(os, i);
    Layout(os, i + 1);
  }

  // Splitting an opcode.

  function ZeroRun(n: nat): Op {
    if n > ZERO_MAX_LEN then XZero(n) else Zero(n)
  }

  function Like(o: Op, n: nat): Op {
    if o.Val? then Val(o.val, n) else ZeroRun(n)
  }

  /** The opcodes that replace `o` when its register number `off` becomes `count`. */
  function Split(o: Op, off: nat, count: nat): seq<Op>
    requires off < o.len
  {
    (if off > 0 then [Like(o, off)] else []) + [Val(count, 1)] +
    (if off < o.len - 1 then [Like(o, o.len - 1 - off)] else [])
  }

  function Run(o: Op, n: nat): seq<Op> {
    if n > 0 then [Like(o, n)] else []
  }

  lemma RunIs(o: Op, n: nat)
    requires ValidOp(o) && n < o.len
    ensures ValidOps(Run(o, n)) && Regs(Run(o, n)) == Fill(if o.Val? then o.val else 0, n)
    ensures |EncAll(Run(o, n))| <= (if o.XZero? then 2 else 1)
  {
    if n > 0 { OneOp(Like(o, n)); }
  }

  /** The split covers the same registers with one changed, in at most five bytes
      and at most three more than before. */
  lemma SplitIs(o: Op, off: nat, count: nat)
    requires ValidOp(o) && off < o.len && 1 <= count <= VAL_MAX_VALUE
    ensures ValidOps(Split(o, off, count))
    ensures Regs(Split(o, off, count)) == OpRegs(o)[off := count]
    ensures |EncAll(Split(o, off, count))| <= 5 && |EncAll(Split(o, off, count))| <= |Enc(o)| + 3
    ensures EncAll(Split(o, off, count)) ==
              EncAll(Run(o, off)) + Enc(Val(count, 1)) + EncAll(Run(o, o.len - 1 - off))
  {
    hide EncAll, Regs, Enc;
    var a, m, b := Run(o, off), [Val(count, 1)], Run(o, o.len - 1 - off);
    RunIs(o, off);
    RunIs(o, o.len - 1 - off);
    OneOp(Val(count, 1));
    assert Split(o, off, count) == a + m + b;
    EncAppend(a + m, b);
    EncAppend(a, m);
    RegsAppend(a + m, b);
    RegsAppend(a, m);
  }

  /** Writes one of the two run opcodes, choosing the short form when it fits. */
  method EmitRun(isVal: bool, curval: nat, len: nat, ghost o: Op) returns (n: seq<Byte>)
    requires ValidOp(o) && len < o.len && isVal == o.Val? && (isVal ==> curval == o.val)
    ensures n == EncAll(Run(o, len))
  {
    n := [];
    if len != 0 {
      RunIs(o, len);
      OneOp(Like(o, len));
      if isVal {
        n := [128 + (curval - 1) * 4 + (len - 1)];
      } else if len > ZERO_MAX_LEN {
        n := [64 + (len - 1) / 256, (len - 1) % 256];
      } else {
        n := [len - 1];
      }
    }
  }

  // Byte moves.

  function Memmove(b: seq<Byte>, dst: nat, src: nat, n: nat): (r: seq<Byte>)
    requires dst + n <= |b| && src + n <= |b|
    ensures |r| == |b|
  {
    b[..dst] + b[src..src + n] + b[dst + n..]
  }

  function Memcpy(b: seq<Byte>, dst: nat, x: seq<Byte>): (r: seq<Byte>)
    requires dst + |x| <= |b|
    ensures |r| == |b|
  {
    b[..dst] + x + b[dst + |x|..]
  }

  /** Step 3: the new opcodes take the place of the old one; what follows is moved
      within the buffer, which has three spare bytes. */
  method Substitute(s: seq<Byte>, p: nat, oldlen: nat, x: seq<Byte>) returns (t: seq<Byte>)
    requires p + oldlen <= |s| && |x| <= oldlen + 3
    ensures t == s[..p] + x + s[p + oldlen..]
  {
    var b := s + [0, 0, 0];
    var next := p + oldlen;
    var newlen := |s| + |x| - oldlen;
    if |x| != oldlen && next < |s| {
      b := Memmove(b, p + |x|, next, |s| - next);
    }
    assert b[p + |x|..newlen] == s[next..];
    b := Memcpy(b, p, x);
    t := b[..newlen];
    assert t == s[..p] + x + s[p + oldlen..];
  }

  // Finding the opcode.

  /** Step 1: the opcode covering a register, its start, its first register and
      the start of the opcode before it (-1 for none). */
  method Locate(s: seq<Byte>, index: nat, ghost os: seq<Op>)
    returns (p: nat, prev: int, first: nat, ghost i: nat)
    requires ValidOps(os) && s == EncAll(os) && index < |Regs(os)|
    ensures i < |os| && p == |EncAll(os[..i])| && p < |s|
    ensures first == |Regs(os[..i])| && first <= index < first + os[i].len
    ensures prev == if i == 0 then -1 else |EncAll(os[..i - 1])|
  {
    hide EncAll, Regs, Head, Enc;
    p, prev, first, i := 0, -1, 0, 0;
    StartOf(os);
    while true
      invariant i <= |os| && p == |EncAll(os[..i])| && first == |Regs(os[..i])| <= index
      invariant prev == if i == 0 then -1 else |EncAll(os[..i - 1])|
      decreases |os| - i
    {
      Layout(os, i);
      EndOf(os, i);
      Reading(s, os, i, p);
      var span, oplen := 0, 1;
      if IsZero(s[p]) {
        span := ZeroLen(s[p]);
      } else if IsVal(s[p]) {
        span := ValLen(s[p]);
      } else {
        span := XZeroLen(s[p], s[p + 1]);
        oplen := 2;
      }
      if index <= first + span - 1 { return; }
      prev := p;
      p := p + oplen;
      first := first + span;
      i := i + 1;
    }
  }

  lemma StartOf(os: seq<Op>)
    ensures os[..0] == [] && EncAll([]) == [] && Regs([]) == []
  {
  }

  lemma EndOf(os: seq<Op>, i: nat)
    requires i <= |os| && |Regs(os[..i])| < |Regs(os)|
    ensures i < |os|
  {
    assert os[..|os|] == os;
  }

  /** What the macros read at the start of opcode `i`. */
  lemma Reading(s: seq<Byte>, os: seq<Op>, i: nat, p: nat)
    requires ValidOps(os) && i < |os| && s == EncAll(os) && p == |EncAll(os[..i])|
    ensures p + |Enc(os[i])| <= |s|
    ensures IsZero(s[p]) <==> os[i].Zero?
    ensures IsXZero(s[p]) <==> os[i].XZero?
    ensures IsVal(s[p]) <==> os[i].Val?
    ensures match os[i] case Zero(n) => ZeroLen(s[p]) == n
                        case XZero(n) => XZeroLen(s[p], s[p + 1]) == n
                        case Val(v, n) => ValValue(s[p]) == v && ValLen(s[p]) == n
    ensures s[p..p + |Enc(os[i])|] == Enc(os[i]) && s[..p] == EncAll(os[..i])
    ensures s[p + |Enc(os[i])|..] == EncAll(os[i + 1..])
  {
    hide EncAll, Regs;
    Layout(os, i);
    var t := EncAll(os[i + 1..]);
    HeadOfEnc(os[i], t);
    assert s[p..] == Enc(os[i]) + t;
    assert s[p] == Enc(os[i])[0];
    if os[i].XZero? { assert s[p + 1] == Enc(os[i])[1]; }
  }

  // Merging.

  lemma MergeIs(os: seq<Op>, j: nat)
    requires ValidOps(os) && j + 1 < |os| && os[j].Val? && os[j + 1].Val? && os[j].val == os[j + 1].val
    requires os[j].len + os[j + 1].len <= VAL_MAX_LEN
    ensures var m := Val(os[j].val, os[j].len + os[j + 1].len);
            var r := os[..j] + [m] + os[j + 2..];
            && ValidOps(r) && Regs(r) == Regs(os)
            && EncAll(r) == EncAll(os[..j]) + Enc(m) + EncAll(os[j + 2..])
            && EncAll(os) == EncAll(os[..j]) + Enc(os[j]) + Enc(os[j + 1]) + EncAll(os[j + 2..])
            && r[..j] == os[..j]
  {
    hide EncAll, Regs, Enc;
    var m := Val(os[j].val, os[j].len + os[j + 1].len);
    OneOp(m);
    EncAppend(os[..j] + [m], os[j + 2..]);
    EncAppend(os[..j], [m]);
    RegsAppend(os[..j] + [m], os[j + 2..]);
    RegsAppend(os[..j], [m]);
    Layout(os, j);
    Layout(os, j + 1);
    Layout(os, j + 2);
    assert OpRegs(m) == OpRegs(os[j]) + OpRegs(os[j + 1]);
  }

  /** Step 4: adjacent VAL opcodes of one value are merged, looking at up to five
      opcodes from `start`. The registers do not change. */
  method MergeVals(s0: seq<Byte>, start: nat, ghost os0: seq<Op>, ghost j0: nat)
    returns (s: seq<Byte>, ghost os: seq<Op>)
    requires ValidOps(os0) && s0 == EncAll(os0) && j0 <= |os0| && start == |EncAll(os0[..j0])|
    ensures ValidOps(os) && s == EncAll(os) && Regs(os) == Regs(os0) && |s| <= |s0|
  {
    hide EncAll, Regs, Enc, OpRegs;
    s, os := s0, os0;
    ghost var j: nat := j0;
    var p: nat, scanlen: nat := start, 5;
    while p < |s| && scanlen > 0
      invariant ValidOps(os) && s == EncAll(os) && j <= |os| && p == |EncAll(os[..j])|
      invariant Regs(os) == Regs(os0) && |s| <= |s0|
      decreases scanlen
    {
      scanlen := scanlen - 1;
      Layout(os, j);
      AtEnd(os, j);
      Reading(s, os, j, p);
      if IsXZero(s[p]) {
        p := p + 2;
        j := j + 1;
        continue;
      } else if IsZero(s[p]) {
        p := p + 1;
        j := j + 1;
        continue;
      }
      if p + 1 < |s| {
        Layout(os, j + 1);
        AtEnd(os, j + 1);
        Reading(s, os, j + 1, p + 1);
        if IsVal(s[p + 1]) && ValValue(s[p]) == ValValue(s[p + 1]) {
          var len := ValLen(s[p]) + ValLen(s[p + 1]);
          if len <= VAL_MAX_LEN {
            s, os := MergeAt(s, p, len, os, j);
            continue;
          }
        }
      }
      p := p + 1;
      j := j + 1;
    }
  }

  method MergeAt(s: seq<Byte>, p: nat, len: nat, ghost os: seq<Op>, ghost j: nat)
    returns (t: seq<Byte>, ghost r: seq<Op>)
    requires ValidOps(os) && s == EncAll(os) && j + 1 < |os| && p == |EncAll(os[..j])| && p + 1 < |s|
    requires os[j].Val? && os[j + 1].Val? && os[j].val == os[j + 1].val
    requires os[j].val == ValValue(s[p]) && len == os[j].len + os[j + 1].len <= VAL_MAX_LEN
    ensures ValidOps(r) && t == EncAll(r) && Regs(r) == Regs(os) && |t| == |s| - 1
    ensures j < |r| && r[..j] == os[..j]
  {
    hide EncAll, Regs, OpRegs, Enc;
    MergeIs(os, j);
    var v := 128 + (ValValue(s[p]) - 1) * 4 + (len - 1);
    var b := s[p + 1 := v];
    b := Memmove(b + [0], p, p + 1, |s| - p);
    t := b[..|s| - 1];
    r := os[..j] + [Val(os[j].val, len)] + os[j + 2..];
    CloseUp(s, p, v);
    assert Enc(Val(os[j].val, len)) == [v] by { EncVals(os[j].val, len); }
    assert s[..p] == EncAll(os[..j]) && s[p + 2..] == EncAll(os[j + 2..]);
  }

  lemma EncVals(v: nat, n: nat)
    requires ValidOp(Val(v, n))
    ensures Enc(Val(v, n)) == [128 + (v - 1) * 4 + (n - 1)]
  {
  }

  lemma CloseUp(s: seq<Byte>, p: nat, v: Byte)
    requires p + 1 < |s|
    ensures Memmove(s[p + 1 := v] + [0], p, p + 1, |s| - p)[..|s| - 1] == s[..p] + [v] + s[p + 2..]
  {
    var b := s[p + 1 := v] + [0];
    var c := [v] + s[p + 2..];
    assert b[..p] == s[..p];
    assert b[p + 1..|s| + 1] == c + [0];
    TakeParts(s[..p], c, [0], b[|s|..]);
  }

  lemma TakeParts(x: seq<Byte>, y: seq<Byte>, z: seq<Byte>, t: seq<Byte>)
    ensures (x + (y + z) + t)[..|x| + |y|] == x + y
  {
    assert x + (y + z) + t == x + y + (z + t);
  }

  lemma AtEnd(os: seq<Op>, i: nat)
    requires ValidOps(os) && i <= |os| && |EncAll(os[..i])| < |EncAll(os)|
    ensures i < |os|
  {
    assert os[..|os|] == os;
  }

  // The update.

  /** Nothing to do, an updated string, or a switch to the dense encoding. */
  datatype Outcome = Same | Updated(s: seq<Byte>) | Promote

  method SparseAdd(s: seq<Byte>, index: nat, count: nat, maxBytes: nat) returns (r: Outcome)
    requires WellFormed(s) && index < REGISTERS && 1 <= count
    ensures r.Same? <==> Decode(s)[index] >= count
    ensures r.Updated? ==> WellFormed(r.s) && Decode(r.s) == Decode(s)[index := count] && |r.s| <= |s| + 3
    ensures r.Promote? ==> count > VAL_MAX_VALUE || HDR_SIZE + |s| + 3 > maxBytes
    ensures count > VAL_MAX_VALUE ==> r.Promote?
    ensures r.Updated? ==> |r.s| <= |s| || HDR_SIZE + |r.s| <= maxBytes
  {
    hide EncAll, Regs, Enc, Parse, Readable, Head;
    ghost var os := Parse(s);
    EncParse(s);
    ValidParse(s);
    if count > VAL_MAX_VALUE {
      SmallRegs(os, index);
      return Promote;
    }
    var p, prev, first; ghost var i;
    p, prev, first, i := Locate(s, index, os);
    Reading(s, os, i, p);
    RegisterAt(os, i, index);
    if IsVal(s[p]) && ValValue(s[p]) >= count { return Same; }
    var ok, t; ghost var mid;
    ok, t, mid := Replace(s, p, index - first, count, maxBytes, os, i);
    if !ok { return Promote; }
    RaisedAt(os, i, mid, index, count);
    ghost var os' := os[..i] + mid + os[i + 1..];
    Prefix(os, os', i, prev);
    var u; ghost var merged;
    u, merged := MergeVals(t, if prev >= 0 then prev else 0, os', if i == 0 then 0 else i - 1);
    ParseEnc(merged);
    return Updated(u);
  }

  lemma RegisterAt(os: seq<Op>, i: nat, index: nat)
    requires ValidOps(os) && i < |os| && |Regs(os[..i])| <= index < |Regs(os[..i])| + os[i].len
    ensures index < |Regs(os)|
    ensures Regs(os)[index] == if os[i].Val? then os[i].val else 0
  {
    hide EncAll, Regs, Enc;
    Splice(os, i, []);
    assert Regs(os)[index] == OpRegs(os[i])[index - |Regs(os[..i])|];
  }

  lemma RaisedAt(os: seq<Op>, i: nat, mid: seq<Op>, index: nat, count: nat)
    requires ValidOps(os) && ValidOps(mid) && i < |os|
    requires |Regs(os[..i])| <= index < |Regs(os[..i])| + os[i].len
    requires Regs(mid) == OpRegs(os[i])[index - |Regs(os[..i])| := count]
    ensures ValidOps(os[..i] + mid + os[i + 1..]) && index < |Regs(os)|
    ensures Regs(os[..i] + mid + os[i + 1..]) == Regs(os)[index := count]
  {
    hide EncAll, Regs, Enc, OpRegs;
    Splice(os, i, mid);
  }

  /** Steps 2 and 3 on the opcode at `p`: rewrite it in place or split it. */
  method Replace(s: seq<Byte>, p: nat, off: nat, count: nat, maxBytes: nat, ghost os: seq<Op>, ghost i: nat)
    returns (ok: bool, t: seq<Byte>, ghost mid: seq<Op>)
    requires ValidOps(os) && s == EncAll(os) && i < |os| && p == |EncAll(os[..i])| && p < |s|
    requires off < os[i].len && 1 <= count <= VAL_MAX_VALUE
    ensures ok ==> ValidOps(mid) && Regs(mid) == OpRegs(os[i])[off := count]
    ensures ok ==> ValidOps(os[..i] + mid + os[i + 1..]) && t == EncAll(os[..i] + mid + os[i + 1..])
    ensures ok ==> |t| <= |s| + 3 && (|t| <= |s| || HDR_SIZE + |t| <= maxBytes)
    ensures !ok ==> HDR_SIZE + |s| + 3 > maxBytes
  {
    hide EncAll, Regs, Enc;
    Reading(s, os, i, p);
    EncVal(count);
    ok := true;
    if !IsXZero(s[p]) && (if IsVal(s[p]) then ValLen(s[p]) else ZeroLen(s[p])) == 1 {
      mid := [Val(count, 1)];
      OneOp(Val(count, 1));
      t := s[p := 128 + (count - 1) * 4];
      assert t == s[..p] + [128 + (count - 1) * 4] + s[p + 1..];
      Splice(os, i, mid);
    } else {
      var len := if IsZero(s[p]) then ZeroLen(s[p]) else if IsVal(s[p]) then ValLen(s[p]) else XZeroLen(s[p], s[p + 1]);
      mid := Split(os[i], off, count);
      SplitIs(os[i], off, count);
      var curval := if IsVal(s[p]) then ValValue(s[p]) else 0;
      var a := EmitRun(IsVal(s[p]), curval, off, os[i]);
      var b := EmitRun(IsVal(s[p]), curval, len - 1 - off, os[i]);
      var x := a + [128 + (count - 1) * 4] + b;
      var oldlen := if IsXZero(s[p]) then 2 else 1;
      if |x| > oldlen && HDR_SIZE + |s| + (|x| - oldlen) > maxBytes { return false, s, mid; }
      t := Substitute(s, p, oldlen, x);
      Splice(os, i, mid);
    }
  }

  lemma EncVal(count: nat)
    requires 1 <= count <= VAL_MAX_VALUE
    ensures Enc(Val(count, 1)) == [128 + (count - 1) * 4]
  {
  }

  lemma ValidParse(s: seq<Byte>)
    requires Readable(s)
    ensures ValidOps(Parse(s))
  {
  }

  lemma Prefix(os: seq<Op>, os': seq<Op>, i: nat, prev: int)
    requires ValidOps(os) && ValidOps(os') && i < |os| && i <= |os'| && os'[..i] == os[..i]
    requires prev == if i == 0 then -1 else |EncAll(os[..i - 1])|
    ensures (if prev >= 0 then prev else 0) == |EncAll(os'[..if i == 0 then 0 else i - 1])|
  {
    if i > 0 { assert os'[..i - 1] == os[..i - 1]; }
  }

  lemma {:induction false} SmallRegs(os: seq<Op>, k: nat)
    requires ValidOps(os) && k < |Regs(os)|
    ensures Regs(os)[k] <= VAL_MAX_VALUE
  {
    if k >= os[0].len { SmallRegs(os[1..], k - os[0].len); }
  }
}
