/**
 dictScan while a dictionary shrinks: a run in which a key that is there all the time
 is never emitted.
 */
module DictShrink {
  import opened Options
  import opened Words
  import opened DictModel
  import opened DictOps
  import opened DictScan
  import opened DictScanRuns

  /** The word with the given low bits. */
  function Low(b: Bits): (w: Word)
    requires |b| <= WIDTH
  {
    b + Repeat(false, WIDTH - |b|)
  }

  const ONE: Word := Low([true, false])
  const TWO: Word := Low([false, true])
  const THREE: Word := Low([true, true])
  const FOUR: Word := Low([false, false, true, false])
  const EIGHT: Word := Low([false, false, false, true])

  lemma BitsOf(a: nat, b: nat)
    requires Pow2(a) == Pow2(b)
    ensures a == b
  {
    Pow2Less(a, b);
    Pow2Less(b, a);
  }

  lemma Pow2Less(a: nat, b: nat)
    ensures a < b ==> Pow2(a) < Pow2(b)
  {
    if a < b { Pow2Mono(a + 1, b); }
  }

  lemma LowRank(b: Bits)
    requires |b| <= WIDTH
    ensures Rank(Low(b)) == Rank(b) * Pow2(WIDTH - |b|)
  {
    hide Rank, Pow2;
    RankPadded(b, WIDTH - |b|);
  }

  /** The cursor after `v` is the word of the next rank. */
  lemma NextIs(v: Word, b: Bits)
    requires |b| <= WIDTH && Rank(v[..|b|]) + 1 == Rank(b)
    ensures NextCursor(v, |b|) == Low(b)
  {
    hide Rank, Pow2, NextCursor;
    RankBound(b);
    NextCursorRank(v, |b|);
    LowRank(b);
    RankInjective(NextCursor(v, |b|), Low(b));
  }

  lemma Ranks()
    ensures Rank([false, false]) == 0 && Rank([false, true]) == 1 && Rank([true, false]) == 2
    ensures Rank([true, true]) == 3 && Rank([false, false, false, true]) == 1
    ensures Rank([false, false, false, false]) == 0
  {
    assert Pow2(1) == 2;
    assert Rank([true]) == 1 && Rank([false]) == 0;
    assert [false, false][1..] == [false] && [false, true][1..] == [true];
    assert [true, false][1..] == [false] && [true, true][1..] == [true];
    assert [false, false, true][1..] == [false, true] && [false, false, false, true][1..] == [false, false, true];
    assert [false, false, false][1..] == [false, false];
    assert [false, false, false, false][1..] == [false, false, false];
  }

  /** The cursors of the scan: one call on sixteen buckets, then calls on four. */
  lemma Cursors()
    ensures NextCursor(ZERO, 4) == EIGHT && NextCursor(EIGHT, 2) == TWO && NextCursor(TWO, 2) == ONE
    ensures NextCursor(ONE, 2) == THREE && NextCursor(THREE, 2) == ZERO
  {
    hide Rank, NextCursor, Pow2;
    Ranks();
    assert ZERO[..4] == [false, false, false, false] && EIGHT[..2] == [false, false];
    assert TWO[..2] == [false, true] && ONE[..2] == [true, false] && THREE[..2] == [true, true];
    NextIs(ZERO, [false, false, false, true]);
    NextIs(EIGHT, [false, true]);
    NextIs(TWO, [true, false]);
    NextIs(ONE, [true, true]);
    assert Pow2(2) == 4 by { Four(); }
    NextCursorRank(THREE, 2);
  }

  lemma Four()
    ensures Pow2(2) == 4 && Pow2(4) == 16
  {
  }

  /** Sixteen buckets with one entry. */
  lemma Grown<K(!new), V>(hash: K -> Word, k: K, v: V, canResize: bool)
    ensures var s1 := Expand(Create<K, V>(), 16);
            Inv(hash, s1) && Doublable(s1)
    ensures var s2 := Add(hash, Expand(Create<K, V>(), 16), k, v, canResize);
            && Scannable(hash, s2) && !s2.Rehashing() && |s2.t0| == 16 && s2.used0 == 1
            && Get(hash, s2, k) == Some(v)
  {
    hide Inv, Get, Lookup, Slot, TableOk, Expand, Add, Doublable;
    EmptyGrown<K, V>(hash, k);
    SixteenSized<K, V>();
    var s1 := Expand(Create<K, V>(), 16);
    AddRefinesMap(hash, s1, k, v, canResize);
    AddShape(hash, s1, k, v, canResize);
  }

  lemma EmptyGrown<K(!new), V>(hash: K -> Word, k: K)
    ensures var s1 := Expand(Create<K, V>(), 16);
            Inv(hash, s1) && Get(hash, s1, k).None?
  {
    hide Lookup, Slot, TableOk, Expand;
    Four();
    Pow2Mono(4, MAX_BITS);
    NothingHeld<K, V>(hash, k);
    ExpandOk(hash, Create<K, V>(), 16);
  }

  lemma NothingHeld<K(!new), V>(hash: K -> Word, k: K)
    ensures Inv(hash, Create<K, V>()) && Get(hash, Create<K, V>(), k).None?
  {
  }

  lemma SixteenSized<K, V>()
    ensures var s1 := Expand(Create<K, V>(), 16);
            |s1.t0| == 16 && s1.t1 == [] && s1.used0 == 0 && s1.used1 == 0 && s1.idx == -1
    ensures Doublable(Expand(Create<K, V>(), 16))
  {
  }

  lemma AddShape<K(!new), V>(hash: K -> Word, s: State<K, V>, k: K, v: V, canResize: bool)
    requires Inv(hash, s) && Doublable(s) && !s.Rehashing() && |s.t0| == 16 && s.used0 == 0
    requires s.t1 == [] && s.used1 == 0
    ensures var r := Add(hash, s, k, v, canResize);
            !r.Rehashing() && |r.t0| == 16 && r.t1 == [] && r.used1 == 0
  {
    hide Inv, Get, Lookup, Slot, TableOk;
  }

  lemma Shrunk<K(!new), V>(hash: K -> Word, s: State<K, V>, k: K)
    requires Scannable(hash, s) && !s.Rehashing() && |s.t0| == 16 && s.used0 <= 4
    ensures var r := Expand(s, 4);
            && Scannable(hash, r) && r.Rehashing() && |r.t0| == 16 && |r.t1| == 4
            && Get(hash, r, k) == Get(hash, s, k) && Lookup(hash, Small(r), k).None?
  {
    Four();
    Pow2Mono(2, MAX_BITS);
    ExpandOk(hash, s, 4);
    EmptyOk<K, V>(hash, 4);
  }

  lemma Sizes<K(!new), V>(hash: K -> Word, s: State<K, V>)
    requires Scannable(hash, s) && |s.t0| == 16 && (s.Rehashing() ==> |s.t1| == 4)
    ensures !s.Rehashing() ==> SmallBits(hash, s) == 4
    ensures s.Rehashing() ==> SmallBits(hash, s) == 2 && LargeBits(hash, s) == 4
  {
    hide Inv;
    Four();
    BitsOf(SmallBits(hash, s), if s.Rehashing() then 2 else 4);
    if s.Rehashing() { BitsOf(LargeBits(hash, s), 4); }
  }

  /** None of the five calls looks at the bucket of a hash that ends in 0100. */
  lemma NotVisited<K(!new), V>(hash: K -> Word, s: State<K, V>, v: Word)
    requires Scannable(hash, s) && |s.t0| == 16 && (s.Rehashing() ==> |s.t1| == 4)
    requires if s.Rehashing() then v in {EIGHT, TWO, ONE, THREE} else v == ZERO
    ensures !Visited(hash, s, v, FOUR)
  {
    hide Inv, Scannable;
    Sizes(hash, s);
    assert FOUR[2] && !ZERO[2] && FOUR[..4][2] && !ZERO[..4][2];
    assert FOUR[..2] == [false, false] && TWO[..2] == [false, true];
    assert ONE[..2] == [true, false] && THREE[..2] == [true, true];
    assert [false, false][1] != [false, true][1] && [false, false][0] != [true, false][0];
    assert [false, false][0] != [true, true][0];
    assert FOUR[2..4] == [true, false] && EIGHT[2..4] == [false, true];
    Nums();
  }

  lemma Nums()
    ensures Num([true, false]) == 1 && Num([false, true]) == 2
  {
    assert [true, false][1..] == [false] && [false, true][1..] == [true];
    assert Num([false]) == 0 && Num([true]) == 1;
  }

  /** A table of sixteen buckets with one entry, whose hash ends in 0100, is resized to
      four after the first call of a scan. The scan comes back to zero after five calls,
      the entry is there at each of them, and none emits it. */
  lemma ShrinkLoses<K(!new), V>(hash: K -> Word, k: K, v: V, canResize: bool)
    requires hash(k) == FOUR
    ensures var s1 := Expand(Create<K, V>(), 16);
            Inv(hash, s1) && Doublable(s1)
    ensures var s2 := Add(hash, Expand(Create<K, V>(), 16), k, v, canResize);
            var s3 := Expand(s2, 4);
            var ss, vs := [s2, s3, s3, s3, s3], [ZERO, EIGHT, TWO, ONE, THREE, ZERO];
            && IsScan(hash, ss, vs)
            && (forall i :: 0 <= i < 5 ==> Get(hash, ss[i], k) == Some(v))
            && (forall i :: 0 <= i < 5 ==> Entry(k, v) !in Emitted(hash, ss[i], vs[i]))
  {
    hide Inv, Get, Emitted, Cursor, Add, Expand, Scannable, NextCursor, Doublable;
    Grown<K, V>(hash, k, v, canResize);
    var s2 := Add(hash, Expand(Create<K, V>(), 16), k, v, canResize);
    Shrunk(hash, s2, k);
    var s3 := Expand(s2, 4);
    var ss, vs := [s2, s3, s3, s3, s3], [ZERO, EIGHT, TWO, ONE, THREE, ZERO];
    Cursors();
    Steps(hash, s2, ZERO);
    Steps(hash, s3, EIGHT);
    Steps(hash, s3, TWO);
    Steps(hash, s3, ONE);
    Steps(hash, s3, THREE);
    NotEmitted(hash, s2, ZERO, Entry(k, v));
    NotEmitted(hash, s3, EIGHT, Entry(k, v));
    NotEmitted(hash, s3, TWO, Entry(k, v));
    NotEmitted(hash, s3, ONE, Entry(k, v));
    NotEmitted(hash, s3, THREE, Entry(k, v));
  }

  lemma Steps<K(!new), V>(hash: K -> Word, s: State<K, V>, v: Word)
    requires Scannable(hash, s) && |s.t0| == 16 && (s.Rehashing() ==> |s.t1| == 4)
    ensures Inv(hash, s) && Cursor(hash, s, v) == NextCursor(v, if s.Rehashing() then 2 else 4)
  {
    hide Inv, NextCursor;
    Sizes(hash, s);
  }

  lemma NotEmitted<K(!new), V>(hash: K -> Word, s: State<K, V>, v: Word, e: Entry<K, V>)
    requires Scannable(hash, s) && |s.t0| == 16 && (s.Rehashing() ==> |s.t1| == 4)
    requires if s.Rehashing() then v in {EIGHT, TWO, ONE, THREE} else v == ZERO
    requires hash(e.key) == FOUR && (s.Rehashing() ==> Lookup(hash, Small(s), e.key).None?)
    ensures Inv(hash, s) && e !in Emitted(hash, s, v)
  {
    hide Emitted, Visited;
    NotVisited(hash, s, v);
    if e in Emitted(hash, s, v) { EmittedIsVisited(hash, s, v, e); }
  }
}
