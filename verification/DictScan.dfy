/**
 The stateless cursor of dictScan: what one call visits, how the cursor moves,
 and coverage and progress over whole scans.

 A scan promises that when the cursor is `v` every hash of rank below `Rank(v)`
 has been dealt with, `Rank` being the hash read with its bits reversed.
 */
module DictScan {
  import opened Options
  import opened Words
  import opened DictModel
  import opened DictOps

  // Bit reversal by swapping ever smaller blocks.

  predicate Width(s: nat) {
    s == 64 || s == 32 || s == 16 || s == 8 || s == 4 || s == 2 || s == 1
  }

  /** `i / s`, with literal divisors. */
  function Block(i: nat, s: nat): (q: nat)
    requires Width(s)
  {
    if s == 64 then i / 64 else if s == 32 then i / 32 else if s == 16 then i / 16
    else if s == 8 then i / 8 else if s == 4 then i / 4 else if s == 2 then i / 2 else i
  }

  /** The bit that moves to `i` when blocks of `s` bits are put in reverse order. */
  function Source(i: nat, s: nat): (j: nat)
    requires Width(s) && i < WIDTH
    ensures j < WIDTH
    ensures s == 64 ==> j == i
    ensures s == 1 ==> j == WIDTH - 1 - i
  {
    SourceInRange(i, s);
    WIDTH - s + i - 2 * s * Block(i, s)
  }

  lemma SourceInRange(i: nat, s: nat)
    requires Width(s) && i < WIDTH
    ensures 0 <= WIDTH - s + i - 2 * s * Block(i, s) < WIDTH
  {
  }

  lemma HalfBlock(i: nat, s: nat)
    requires Width(s) && s < 64
    ensures Block(i, 2 * s) == Block(i, s) / 2
  {
  }

  lemma NextBlock(i: nat, s: nat)
    requires Width(s) && s < 64 && i < WIDTH
    ensures Block(i + s, s) == Block(i, s) + 1
    ensures i >= s <==> Block(i, s) > 0
    ensures Block(i, s) % 2 == 0 ==> i + s < WIDTH
  {
  }

  ghost predicate BlocksReversed(v: Word, r: Word, s: nat)
    requires Width(s)
  {
    forall i :: 0 <= i < WIDTH ==> r[i] == v[Source(i, s)]
  }

  ghost predicate BlockMask(m: Word, s: nat)
    requires Width(s)
  {
    forall i :: 0 <= i < WIDTH ==> m[i] == (Block(i, s) % 2 == 0)
  }

  lemma MaskIndex(i: nat, s: nat)
    requires Width(s) && s < 64 && i < WIDTH
    ensures (Block(i, s) % 2 == 0) ==
            ((Block(i, 2 * s) % 2 == 0) != (i >= s && Block(i - s, 2 * s) % 2 == 0))
  {
    hide Block;
    var b := Block(i, s);
    NextBlock(i, s);
    HalfBlock(i, s);
    if i >= s {
      NextBlock(i - s, s);
      HalfBlock(i - s, s);
      assert Block(i - s, s) == b - 1;
    }
    Parity(b / 4, b % 4);
  }

  lemma Parity(q: nat, r: nat)
    requires r < 4
    ensures var b := 4 * q + r; (b % 2 == 0) == ((b / 2 % 2 == 0) != (b > 0 && (b - 1) / 2 % 2 == 0))
  {
    var b := 4 * q + r;
    assert b / 2 == 2 * q + (if r < 2 then 0 else 1);
    if r > 0 {
      assert (b - 1) / 2 == 2 * q + (if r < 3 then 0 else 1);
    } else if q > 0 {
      assert (b - 1) / 2 == 2 * (q - 1) + 1;
    }
  }

  lemma MaskStep(m: Word, s: nat)
    requires Width(s) && s < 64 && BlockMask(m, 2 * s)
    ensures BlockMask(Xor(m, Shl(m, s)), s)
  {
    hide Block;
    var r := Xor(m, Shl(m, s));
    forall i | 0 <= i < WIDTH
      ensures r[i] == (Block(i, s) % 2 == 0)
    {
      MaskIndex(i, s);
      assert r[i] == (m[i] != (i >= s && m[i - s]));
    }
  }

  lemma SwapIndex(i: nat, s: nat)
    requires Width(s) && s < 64 && i < WIDTH
    ensures Block(i, s) % 2 == 0 ==> i + s < WIDTH && Source(i + s, 2 * s) == Source(i, s)
    ensures Block(i, s) % 2 != 0 ==> i >= s && Source(i - s, 2 * s) == Source(i, s)
  {
    hide Block;
    NextBlock(i, s);
    HalfBlock(i + s, s);
    var b := Block(i, s);
    var p := b / 2;
    Fourfold(s, p);
    if b % 2 == 0 {
      assert b == 2 * p && (b + 1) / 2 == p;
    } else {
      NextBlock(i - s, s);
      HalfBlock(i - s, s);
      assert b == 2 * p + 1 && (b - 1) / 2 == p;
    }
  }

  lemma Fourfold(s: nat, p: nat)
    ensures 2 * (2 * s) * p == 4 * (s * p) && 2 * s * (2 * p) == 4 * (s * p)
    ensures 2 * s * (2 * p + 1) == 4 * (s * p) + 2 * s
  {
  }

  lemma SwapStep(v: Word, r: Word, m: Word, s: nat)
    requires Width(s) && s < 64 && BlockMask(m, s) && BlocksReversed(v, r, 2 * s)
    ensures BlocksReversed(v, Or(And(Shr(r, s), m), And(Shl(r, s), Not(m))), s)
  {
    hide Block, Source;
    var q := Or(And(Shr(r, s), m), And(Shl(r, s), Not(m)));
    forall i | 0 <= i < WIDTH
      ensures q[i] == v[Source(i, s)]
    {
      SwapIndex(i, s);
      assert m[i] == (Block(i, s) % 2 == 0);
      if m[i] { assert q[i] == r[i + s]; } else { assert q[i] == r[i - s]; }
    }
  }

  /** `rev`. */
  method Rev(v: Word) returns (r: Word)
    ensures r == Reverse(v)
  {
    var s: nat, mask: Word := WIDTH, Repeat(true, WIDTH);
    r := v;
    while s / 2 > 0
      invariant Width(s)
      invariant BlockMask(mask, s) && BlocksReversed(v, r, s)
      decreases s
    {
      s := s / 2;
      MaskStep(mask, s);
      mask := Xor(mask, Shl(mask, s));
      SwapStep(v, r, mask, s);
      r := Or(And(Shr(r, s), mask), And(Shl(r, s), Not(mask)));
    }
    assert r == Reverse(v);
  }

  // Cursor arithmetic.

  const ZERO: Word := Repeat(false, WIDTH)

  function Mask(a: nat): Word {
    ToBits(Pow2(a) - 1, WIDTH)
  }

  lemma MaskBits(a: nat)
    requires a <= WIDTH
    ensures Mask(a) == Repeat(true, a) + Repeat(false, WIDTH - a)
  {
    ToBitsOnes(a, WIDTH);
  }

  /** The next expansion of the cursor: the bits outside the small mask count up. */
  function Expansion(v: Word, m0: Word): Word {
    Or(And(Inc(Or(v, m0)), Not(m0)), And(v, m0))
  }

  lemma ExpansionIs(v: Word, a: nat)
    requires a <= WIDTH
    ensures Expansion(v, Mask(a)) == v[..a] + Inc(v[a..])
  {
    MaskBits(a);
    var m := Mask(a);
    assert Or(v, m) == Repeat(true, a) + v[a..];
    IncOnes(a, v[a..]);
    assert Inc(Or(v, m)) == Repeat(false, a) + Inc(v[a..]);
    assert Expansion(v, m) == v[..a] + Inc(v[a..]);
  }

  predicate MoreExpansions(v: Word, a: nat, b: nat) {
    And(v, Xor(Mask(a), Mask(b))) != ZERO
  }

  lemma MoreExpansionsIs(v: Word, a: nat, b: nat)
    requires a <= b <= WIDTH
    ensures MoreExpansions(v, a, b) <==> v[a..b] != Repeat(false, b - a)
    ensures MoreExpansions(v, a, b) <==> Num(v[a..b]) != 0
  {
    MaskBits(a);
    MaskBits(b);
    var x := And(v, Xor(Mask(a), Mask(b)));
    assert x == Repeat(false, a) + v[a..b] + Repeat(false, WIDTH - b);
    if v[a..b] == Repeat(false, b - a) {
      assert x == ZERO;
    } else {
      var i :| 0 <= i < b - a && v[a..b][i];
      assert x[a + i];
    }
    NumRepeat(false, b - a);
    if Num(v[a..b]) == 0 { NumInjective(v[a..b], Repeat(false, b - a)); }
  }

  lemma ExpansionCounts(v: Word, a: nat, b: nat)
    requires a <= b <= WIDTH
    ensures var w := Expansion(v, Mask(a));
            && w[..a] == v[..a]
            && w[a..b] == Inc(v[a..b])
            && (Num(v[a..b]) + 1 < Pow2(b - a) ==> Num(w[a..b]) == Num(v[a..b]) + 1)
            && (Num(v[a..b]) + 1 == Pow2(b - a) ==> Num(w[a..b]) == 0)
  {
    ExpansionIs(v, a);
    IncPrefix(v[a..], b - a);
    var w := Expansion(v, Mask(a));
    assert w[a..b] == Inc(v[a..])[..b - a];
    assert v[a..][..b - a] == v[a..b];
    NumInc(v[a..b]);
  }

  /** The cursors at which the larger table is visited, in order. */
  function Expansions(v: Word, a: nat, b: nat): (r: seq<Word>)
    requires a <= b <= WIDTH
    decreases Pow2(b - a) - Num(v[a..b])
  {
    var w := Expansion(v, Mask(a));
    ExpansionCounts(v, a, b);
    MoreExpansionsIs(w, a, b);
    NumBound(v[a..b]);
    [v] + if MoreExpansions(w, a, b) then Expansions(w, a, b) else []
  }

  /** They are the words with the same low bits whose middle bits, read as a
      number, run from where the cursor stands up to all ones. */
  lemma {:induction false} ExpansionsAre(v: Word, a: nat, b: nat)
    requires a <= b <= WIDTH
    ensures |Expansions(v, a, b)| == Pow2(b - a) - Num(v[a..b])
    ensures forall i :: 0 <= i < |Expansions(v, a, b)| ==>
              Expansions(v, a, b)[i][..a] == v[..a] && Num(Expansions(v, a, b)[i][a..b]) == Num(v[a..b]) + i
    decreases Pow2(b - a) - Num(v[a..b])
  {
    var w := Expansion(v, Mask(a));
    ExpansionCounts(v, a, b);
    MoreExpansionsIs(w, a, b);
    NumBound(v[a..b]);
    if MoreExpansions(w, a, b) {
      ExpansionsAre(w, a, b);
    }
  }

  /** The last lines of dictScan: increment the reversed cursor on the masked bits. */
  function NextCursor(v: Word, a: nat): (r: Word)
  {
    Reverse(Inc(Reverse(Or(v, Not(Mask(a))))))
  }

  lemma NextCursorIs(v: Word, a: nat)
    requires a <= WIDTH
    ensures NextCursor(v, a) == Reverse(Inc(Reverse(v[..a]))) + Repeat(false, WIDTH - a)
  {
    MaskBits(a);
    var u, n := v[..a], WIDTH - a;
    assert Or(v, Not(Mask(a))) == u + Repeat(true, n);
    assert Reverse(u + Repeat(true, n)) == Repeat(true, n) + Reverse(u);
    IncOnes(n, Reverse(u));
    assert Reverse(Repeat(false, n) + Inc(Reverse(u))) == Reverse(Inc(Reverse(u))) + Repeat(false, n);
  }

  /** In reversed order the cursor moves to the next multiple of the bucket
      width, or back to zero after the last bucket. */
  lemma NextCursorRank(v: Word, a: nat)
    requires a <= WIDTH
    ensures Rank(v[..a]) + 1 < Pow2(a) ==> Rank(NextCursor(v, a)) == (Rank(v[..a]) + 1) * Pow2(WIDTH - a)
    ensures Rank(v[..a]) + 1 == Pow2(a) ==> NextCursor(v, a) == ZERO
    ensures Rank(v[..a]) < Pow2(a)
    ensures NextCursor(v, a)[a..] == Repeat(false, WIDTH - a)
  {
    var u, n := v[..a], WIDTH - a;
    hide Num, Rank, Pow2, NextCursor, Inc, Reverse;
    NextCursorIs(v, a);
    var w := Reverse(Inc(Reverse(u)));
    ReverseInc(u);
    assert NextCursor(v, a)[a..] == Repeat(false, n);
    RankPadded(w, n);
    if Rank(u) + 1 == Pow2(a) {
      RankRepeat(false, WIDTH);
      RankInjective(NextCursor(v, a), ZERO);
    }
  }

  /** Incrementing the reversal adds one to the rank, or wraps. */
  lemma ReverseInc(u: Bits)
    ensures var w := Reverse(Inc(Reverse(u)));
            && |w| == |u| && Rank(u) < Pow2(|u|)
            && Rank(w) == if Rank(u) + 1 == Pow2(|u|) then 0 else Rank(u) + 1
  {
    hide Num, Rank, Pow2, Inc;
    NumReverse(u);
    NumReverse(Inc(Reverse(u)));
    NumInc(Reverse(u));
    RankBound(u);
  }

  lemma RankPadded(w: Bits, n: nat)
    ensures Rank(w + Repeat(false, n)) == Rank(w) * Pow2(n)
  {
    RankAppend(w, Repeat(false, n));
    RankRepeat(false, n);
  }

  // One call.

  ghost function Log(n: nat): (k: nat)
    requires PowerOfTwo(n)
    ensures k <= MAX_BITS && n == Pow2(k)
  {
    var k: nat :| k <= MAX_BITS && n == Pow2(k);
    k
  }

  /** The table whose mask drives the cursor: the smaller one during a rehash. */
  function Small<K, V>(s: State<K, V>): Buckets<K, V> {
    if s.Rehashing() && |s.t0| > |s.t1| then s.t1 else s.t0
  }

  /** The other table of a rehash. */
  function Large<K, V>(s: State<K, V>): Buckets<K, V> {
    if |s.t0| > |s.t1| then s.t0 else s.t1
  }

  ghost predicate Scannable<K(!new), V>(hash: K -> Word, s: State<K, V>) {
    Inv(hash, s) && s.Size() > 0
  }

  lemma ScannableSizes<K(!new), V>(hash: K -> Word, s: State<K, V>)
    requires Scannable(hash, s)
    ensures PowerOfTwo(|Small(s)|) && TableOk(hash, Small(s))
    ensures s.Rehashing() ==>
              PowerOfTwo(|Large(s)|) && TableOk(hash, Large(s)) && Log(|Small(s)|) <= Log(|Large(s)|)
    ensures forall k :: Get(hash, s, k).Some? ==>
              Get(hash, s, k) == Lookup(hash, Small(s), k) ||
              (s.Rehashing() && Get(hash, s, k) == Lookup(hash, Large(s), k))
  {
    assert s.t0 == [] ==> Total(s.t0) == 0;
    assert s.t1 == [] ==> Total(s.t1) == 0;
    if s.Rehashing() {
      var a, b := Log(|Small(s)|), Log(|Large(s)|);
      if a > b { Pow2Mono(b, a); }
    }
  }

  /** Number of bits in the mask of the smaller table. */
  ghost function SmallBits<K(!new), V>(hash: K -> Word, s: State<K, V>): (a: nat)
    requires Scannable(hash, s)
    ensures a <= MAX_BITS && |Small(s)| == Pow2(a)
  {
    ScannableSizes(hash, s);
    Log(|Small(s)|)
  }

  ghost function LargeBits<K(!new), V>(hash: K -> Word, s: State<K, V>): (b: nat)
    requires Scannable(hash, s) && s.Rehashing()
    ensures SmallBits(hash, s) <= b <= MAX_BITS && |Large(s)| == Pow2(b)
  {
    ScannableSizes(hash, s);
    Log(|Large(s)|)
  }

  function At<K, V>(t: Buckets<K, V>, v: Word): Chain<K, V>
    requires PowerOfTwo(|t|)
  {
    t[Slot(v, |t|)]
  }

  function Gather<K, V>(t: Buckets<K, V>, ws: seq<Word>): seq<Entry<K, V>>
    requires PowerOfTwo(|t|)
    decreases |ws|
  {
    if ws == [] then [] else At(t, ws[0]) + Gather(t, ws[1..])
  }

  /** The entries handed to the callback, in order. */
  ghost function Emitted<K(!new), V>(hash: K -> Word, s: State<K, V>, v: Word): seq<Entry<K, V>>
    requires Inv(hash, s)
  {
    if s.Size() == 0 then []
    else
      ScannableSizes(hash, s);
      At(Small(s), v) +
      if s.Rehashing() then Gather(Large(s), Expansions(v, SmallBits(hash, s), LargeBits(hash, s))) else []
  }

  /** The cursor returned. */
  ghost function Cursor<K(!new), V>(hash: K -> Word, s: State<K, V>, v: Word): Word
    requires Inv(hash, s)
  {
    if s.Size() == 0 then ZERO
    else
      ScannableSizes(hash, s);
      NextCursor(v, SmallBits(hash, s))
  }

  /** Both buckets a hash may sit in are looked at. */
  ghost predicate Visited<K(!new), V>(hash: K -> Word, s: State<K, V>, v: Word, h: Word)
    requires Scannable(hash, s)
  {
    ScannableSizes(hash, s);
    var a := SmallBits(hash, s);
    && h[..a] == v[..a]
    && (s.Rehashing() ==> var b := LargeBits(hash, s); Num(h[a..b]) >= Num(v[a..b]))
  }

  lemma SlotOf(h: Word, size: nat)
    requires PowerOfTwo(size)
    ensures Slot(h, size) == Num(h[..Log(size)])
  {
    SlotIsPrefix(h, Log(size));
  }

  lemma {:induction false} GatherHas<K, V>(t: Buckets<K, V>, ws: seq<Word>, i: nat, e: Entry<K, V>)
    requires PowerOfTwo(|t|) && i < |ws| && e in At(t, ws[i])
    ensures e in Gather(t, ws)
    decreases |ws|
  {
    if i > 0 { GatherHas(t, ws[1..], i - 1, e); }
  }

  lemma {:induction false} FindIn<K, V>(c: Chain<K, V>, k: K)
    requires Find(c, k).Some?
    ensures Entry(k, Find(c, k).value) in c
  {
    if c[0].key != k { FindIn(c[1..], k); }
  }

  /** A key whose hash is visited is emitted, in whichever table it sits. */
  lemma VisitedIsEmitted<K(!new), V>(hash: K -> Word, s: State<K, V>, v: Word, k: K)
    requires Scannable(hash, s) && Visited(hash, s, v, hash(k)) && Get(hash, s, k).Some?
    ensures Entry(k, Get(hash, s, k).value) in Emitted(hash, s, v)
  {
    hide Expansions, Inv, Pow2, Num, Slot;
    ScannableSizes(hash, s);
    var h, x := hash(k), Get(hash, s, k);
    var a := SmallBits(hash, s);
    SlotOf(h, |Small(s)|);
    SlotOf(v, |Small(s)|);
    if x == Lookup(hash, Small(s), k) {
      FindIn(At(Small(s), v), k);
    } else {
      var b := LargeBits(hash, s);
      var ws := Expansions(v, a, b);
      ExpansionsAre(v, a, b);
      var i := Num(h[a..b]) - Num(v[a..b]);
      NumBound(h[a..b]);
      NumInjective(ws[i][a..b], h[a..b]);
      assert ws[i][..b] == ws[i][..a] + ws[i][a..b];
      assert h[..b] == h[..a] + h[a..b];
      SlotOf(h, |Large(s)|);
      SlotOf(ws[i], |Large(s)|);
      FindIn(At(Large(s), ws[i]), k);
      GatherHas(Large(s), ws, i, Entry(k, x.value));
    }
  }

  lemma {:induction false} GatherFrom<K, V>(t: Buckets<K, V>, ws: seq<Word>, e: Entry<K, V>) returns (i: nat)
    requires PowerOfTwo(|t|) && e in Gather(t, ws)
    ensures i < |ws| && e in At(t, ws[i])
    decreases |ws|
  {
    if e in At(t, ws[0]) {
      i := 0;
    } else {
      var j := GatherFrom(t, ws[1..], e);
      i := j + 1;
    }
  }

  /** An entry lies in the bucket of a word only if its hash agrees with the word there. */
  lemma BucketOf<K(!new), V>(hash: K -> Word, t: Buckets<K, V>, w: Word, e: Entry<K, V>)
    requires TableOk(hash, t) && PowerOfTwo(|t|) && e in At(t, w)
    ensures hash(e.key)[..Log(|t|)] == w[..Log(|t|)]
    ensures Lookup(hash, t, e.key).Some?
  {
    var b := Slot(w, |t|);
    var j :| 0 <= j < |t[b]| && t[b][j] == e;
    EntryFound(hash, t, b, j);
    assert AllAt(hash, t[b], |t|, b);
    SlotOf(w, |t|);
    SlotOf(hash(e.key), |t|);
    NumInjective(hash(e.key)[..Log(|t|)], w[..Log(|t|)]);
  }

  /** Only a key whose hash is visited is emitted, unless it sits in the smaller table. */
  lemma EmittedIsVisited<K(!new), V>(hash: K -> Word, s: State<K, V>, v: Word, e: Entry<K, V>)
    requires Scannable(hash, s) && e in Emitted(hash, s, v)
    requires s.Rehashing() ==> Lookup(hash, Small(s), e.key).None?
    ensures Visited(hash, s, v, hash(e.key))
  {
    hide Expansions, Inv, Gather, At, TableOk, Lookup;
    ScannableSizes(hash, s);
    var a := SmallBits(hash, s);
    if e in At(Small(s), v) {
      BucketOf(hash, Small(s), v, e);
    } else {
      var b := LargeBits(hash, s);
      var ws := Expansions(v, a, b);
      var i := GatherFrom(Large(s), ws, e);
      BucketOf(hash, Large(s), ws[i], e);
      ExpansionsAre(v, a, b);
      var h := hash(e.key);
      assert h[..a] == h[..b][..a] == ws[i][..b][..a] == ws[i][..a];
      assert h[a..b] == h[..b][a..] == ws[i][..b][a..] == ws[i][a..b];
    }
  }

  /** End of the range of ranks a call accounts for. */
  ghost function RangeEnd<K(!new), V>(hash: K -> Word, s: State<K, V>, v: Word): nat
    requires Inv(hash, s)
  {
    if Cursor(hash, s, v) == ZERO then Pow2(WIDTH) else Rank(Cursor(hash, s, v))
  }

  lemma RangeEndIs<K(!new), V>(hash: K -> Word, s: State<K, V>, v: Word)
    requires Scannable(hash, s)
    ensures var a := SmallBits(hash, s);
            RangeEnd(hash, s, v) == (Rank(v[..a]) + 1) * Pow2(WIDTH - a)
  {
    hide Inv, Rank, Pow2, NextCursor;
    CursorEnd(v, SmallBits(hash, s));
  }

  lemma CursorEnd(v: Word, a: nat)
    requires a <= WIDTH
    ensures (if NextCursor(v, a) == ZERO then Pow2(WIDTH) else Rank(NextCursor(v, a))) ==
            (Rank(v[..a]) + 1) * Pow2(WIDTH - a)
  {
    hide Rank, Pow2, NextCursor;
    NextCursorRank(v, a);
    if Rank(v[..a]) + 1 == Pow2(a) {
      Pow2Add(a, WIDTH - a);
    } else {
      RankRepeat(false, WIDTH);
      Lexicographic(Pow2(WIDTH - a), 0, 0, Rank(v[..a]) + 1, 0);
    }
  }

  /** Ranks and prefixes: between `x * p` and `(x + 1) * p` the high part is `x`. */
  lemma SamePrefix(h: Word, v: Word, a: nat)
    requires a <= WIDTH && Rank(v) <= Rank(h) < (Rank(v[..a]) + 1) * Pow2(WIDTH - a)
    ensures h[..a] == v[..a]
    ensures Rank(h[a..]) >= Rank(v[a..])
  {
    hide Rank, Pow2;
    RankSplit(h, a);
    RankSplit(v, a);
    Lexicographic(Pow2(WIDTH - a), Rank(v[..a]), Rank(v[a..]), Rank(h[..a]), Rank(h[a..]));
    RankInjective(h[..a], v[..a]);
  }

  // Which calls leave nothing behind.

  /** No zero before a one, reading from the least significant bit. */
  ghost predicate Staircase(x: Bits) {
    forall i, k :: 0 <= i < k < |x| && x[k] ==> x[i]
  }

  lemma {:induction false} StaircaseOrders(x: Bits, w: Bits)
    requires |x| == |w| && Staircase(x) && Rank(w) >= Rank(x)
    ensures Num(w) >= Num(x)
  {
    if x != [] {
      if x[0] {
        RankBound(w[1..]);
        assert w[0];
        forall i, k | 0 <= i < k < |x[1..]| && x[1..][k] ensures x[1..][i] {
          assert x[k + 1] && x[i + 1];
        }
        StaircaseOrders(x[1..], w[1..]);
      } else {
        assert forall k :: 0 <= k < |x| ==> !x[k];
        assert x == Repeat(false, |x|);
        NumRepeat(false, |x|);
      }
    }
  }

  lemma {:induction false} SetBit(x: Bits, i: nat)
    requires i < |x| && !x[i]
    ensures Num(x[i := true]) == Num(x) + Pow2(i)
    ensures Rank(x[i := true]) == Rank(x) + Pow2(|x| - 1 - i)
  {
    if i == 0 {
      assert x[i := true][1..] == x[1..];
    } else {
      assert x[i := true][1..] == x[1..][i - 1 := true];
      SetBit(x[1..], i - 1);
    }
  }

  lemma NotStaircase(x: Bits, i: nat, k: nat) returns (w: Bits)
    requires i < k < |x| && !x[i] && x[k]
    ensures |w| == |x| && Rank(w) > Rank(x) && Num(w) < Num(x)
  {
    w := x[i := true][k := false];
    var y := x[k := false];
    SetBit(y, k);
    assert y[k := true] == x;
    SetBit(y, i);
    assert y[i := true] == w;
    Pow2Mono(i, k);
    Pow2Mono(|x| - 1 - k, |x| - 1 - i);
  }

  /** Every hash in the range of the call is visited. */
  ghost predicate Complete<K(!new), V>(hash: K -> Word, s: State<K, V>, v: Word)
    requires Scannable(hash, s)
  {
    forall h: Word :: Rank(v) <= Rank(h) < RangeEnd(hash, s, v) ==> Visited(hash, s, v, h)
  }

  /** The bits of the cursor between the two masks, checked before the call. */
  ghost predicate Steppable<K(!new), V>(hash: K -> Word, s: State<K, V>, v: Word)
    requires Scannable(hash, s)
  {
    ScannableSizes(hash, s);
    s.Rehashing() ==> Staircase(v[SmallBits(hash, s)..LargeBits(hash, s)])
  }

  lemma VisitsRange<K(!new), V>(hash: K -> Word, s: State<K, V>, v: Word, h: Word)
    requires Scannable(hash, s) && Steppable(hash, s, v)
    requires Rank(v) <= Rank(h) < RangeEnd(hash, s, v)
    ensures Visited(hash, s, v, h)
  {
    hide Inv, RangeEnd, Rank, Num, Pow2, Scannable, SmallBits, LargeBits;
    var a := SmallBits(hash, s);
    RangeEndIs(hash, s, v);
    SamePrefix(h, v, a);
    if s.Rehashing() {
      var b := LargeBits(hash, s);
      MiddleRank(h[a..], v[a..], b - a);
      assert v[a..][..b - a] == v[a..b] && h[a..][..b - a] == h[a..b];
      StaircaseOrders(v[a..b], h[a..b]);
    }
  }

  lemma MiddleRank(h: Bits, v: Bits, d: nat)
    requires |h| == |v| && d <= |v|
    ensures Rank(h) >= Rank(v) ==> Rank(h[..d]) >= Rank(v[..d])
    ensures Rank(h[..d]) > Rank(v[..d]) ==> Rank(h) > Rank(v)
  {
    hide Rank, Pow2;
    RankSplit(h, d);
    RankSplit(v, d);
    Lexicographic(Pow2(|v| - d), Rank(v[..d]), Rank(v[d..]), Rank(h[..d]), Rank(h[d..]));
  }

  /** Without the staircase shape some hash in the range is passed over. */
  lemma SkipsHash<K(!new), V>(hash: K -> Word, s: State<K, V>, v: Word) returns (h: Word)
    requires Scannable(hash, s) && !Steppable(hash, s, v)
    ensures Rank(v) <= Rank(h) < RangeEnd(hash, s, v) && !Visited(hash, s, v, h)
  {
    hide Inv, RangeEnd, Rank, Num, Pow2, Scannable, SmallBits, LargeBits;
    var a, b := SmallBits(hash, s), LargeBits(hash, s);
    var x := v[a..b];
    var i, k :| 0 <= i < k < |x| && x[k] && !x[i];
    var w := NotStaircase(x, i, k);
    h := v[..a] + w + v[b..];
    assert h[..a] == v[..a] && h[a..b] == w;
    assert v[a..][..b - a] == x && h[a..][..b - a] == w;
    MiddleRank(h[a..], v[a..], b - a);
    RangeEndIs(hash, s, v);
    RankSplit(h, a);
    RankSplit(v, a);
    Lexicographic(Pow2(WIDTH - a), Rank(v[..a]), Rank(v[a..]), Rank(h[..a]), Rank(h[a..]));
  }

  /** A call leaves no hash of its range behind exactly when, during a rehash,
      the cursor bits between the small and the large mask are ones followed by
      zeros. A halving or doubling puts one bit there, so it always qualifies. */
  lemma CompleteIffSteppable<K(!new), V>(hash: K -> Word, s: State<K, V>, v: Word)
    requires Scannable(hash, s)
    ensures Complete(hash, s, v) <==> Steppable(hash, s, v)
    ensures !s.Rehashing() ==> Complete(hash, s, v)
    ensures |s.t0| <= 2 * |s.t1| && |s.t1| <= 2 * |s.t0| ==> Complete(hash, s, v)
  {
    hide Inv, Visited, RangeEnd;
    if Steppable(hash, s, v) {
      forall h: Word | Rank(v) <= Rank(h) < RangeEnd(hash, s, v)
        ensures Visited(hash, s, v, h)
      {
        VisitsRange(hash, s, v, h);
      }
    } else {
      var h := SkipsHash(hash, s, v);
      if |s.t0| <= 2 * |s.t1| && |s.t1| <= 2 * |s.t0| {
        OneBit(hash, s);
      }
    }
  }

  lemma OneBit<K(!new), V>(hash: K -> Word, s: State<K, V>)
    requires Scannable(hash, s) && s.Rehashing() && |s.t0| <= 2 * |s.t1| && |s.t1| <= 2 * |s.t0|
    ensures LargeBits(hash, s) <= SmallBits(hash, s) + 1
  {
    ScannableSizes(hash, s);
    var a, b := SmallBits(hash, s), LargeBits(hash, s);
    if b > a + 1 { Pow2Mono(a + 1, b); }
  }
}
