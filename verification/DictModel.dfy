/**
 The hash dictionary of dict.c as a value: two tables of chains, and what the
 elementary changes of a chain or table do to lookups and counts.
 */
module DictModel {
  import opened Options
  import opened Words

  datatype Entry<K, V> = Entry(key: K, val: V)
  type Chain<K, V> = seq<Entry<K, V>>
  type Buckets<K, V> = seq<Chain<K, V>>

  /** `idx` is the index of the next bucket to move, or -1 when no rehash is in
      progress; an empty `t0` or `t1` is a table that has not been allocated. */
  datatype State<K, V> = State(t0: Buckets<K, V>, t1: Buckets<K, V>, used0: nat, used1: nat,
                               idx: int, iterators: nat)
  {
    predicate Rehashing() { idx != -1 }
    function Size(): nat { used0 + used1 }
  }

  const INITIAL_SIZE: nat := 4
  const FORCE_RESIZE_RATIO: nat := 5
  /** Tables have up to 2^31 buckets, as far as a bucket index survives being returned
      as an `int`. */
  const MAX_BITS: nat := 31

  ghost predicate PowerOfTwo(n: nat) {
    exists k: nat :: k <= MAX_BITS && n == Pow2(k)
  }

  /** Bucket index `hash & sizemask`. */
  function Slot(h: Word, size: nat): (i: nat)
    requires PowerOfTwo(size)
    ensures i < size
  {
    assert Num(And(h, ToBits(size - 1, WIDTH))) < size by {
      var k: nat :| k <= MAX_BITS && size == Pow2(k);
      SlotIsPrefix(h, k);
    }
    Num(And(h, ToBits(size - 1, WIDTH)))
  }

  lemma AndOnes(h: Word, m: Word, k: nat)
    requires k <= WIDTH && m == Repeat(true, k) + Repeat(false, WIDTH - k)
    ensures And(h, m) == h[..k] + Repeat(false, WIDTH - k)
    ensures Num(And(h, m)) == Num(h[..k]) < Pow2(k)
  {
    assert And(h, m) == h[..k] + Repeat(false, WIDTH - k);
    NumPadded(h[..k], WIDTH - k);
    NumBound(h[..k]);
  }

  lemma NumPadded(b: Bits, n: nat)
    ensures Num(b + Repeat(false, n)) == Num(b)
  {
    NumAppend(b, Repeat(false, n));
    NumRepeat(false, n);
  }

  /** Masking with `2^k - 1` keeps the low `k` bits. */
  lemma SlotIsPrefix(h: Word, k: nat)
    requires k <= MAX_BITS
    ensures Num(And(h, ToBits(Pow2(k) - 1, WIDTH))) == Num(h[..k]) < Pow2(k)
  {
    ToBitsOnes(k, WIDTH);
    AndOnes(h, ToBits(Pow2(k) - 1, WIDTH), k);
  }

  /** An unsigned 32-bit number returned as an `int`. */
  function AsInt(n: nat): (i: int)
    requires n < 0x1_0000_0000
  {
    if n < 0x8000_0000 then n else n - 0x1_0000_0000
  }

  lemma Powers()
    ensures Pow2(31) == 0x8000_0000 && Pow2(32) == 0x1_0000_0000
  {
    assert Pow2(8) == 256;
    Pow2Add(8, 8);
    Pow2Add(16, 8);
    Pow2Add(24, 7);
  }

  /** In a table of 2^b buckets every index survives exactly when b is at most 31; at 32
      the last bucket is taken for the sign that a key is present. */
  lemma IndexSurvives(b: nat)
    requires b <= 32
    ensures forall h: Word :: Num(h[..b]) < 0x1_0000_0000
    ensures (forall h: Word :: AsInt(Num(h[..b])) == Num(h[..b])) <==> b <= MAX_BITS
    ensures b == 32 ==> exists h: Word :: AsInt(Num(h[..b])) == -1
  {
    hide Num, Pow2;
    Powers();
    forall h: Word ensures Num(h[..b]) < 0x1_0000_0000 && (b <= 31 ==> Num(h[..b]) < 0x8000_0000) {
      NumBound(h[..b]);
      Pow2Mono(b, if b <= 31 then 31 else 32);
    }
    if b == 32 {
      var h: Word := Repeat(true, 32) + Repeat(false, WIDTH - 32);
      assert h[..b] == Repeat(true, 32);
      NumRepeat(true, 32);
      assert AsInt(Num(h[..b])) == -1;
    }
  }

  lemma SlotFits(h: Word, size: nat)
    requires PowerOfTwo(size)
    ensures Slot(h, size) < 0x8000_0000
  {
    hide Pow2, Slot;
    var k: nat :| k <= MAX_BITS && size == Pow2(k);
    Powers();
    Pow2Mono(k, 31);
  }

  // Chains.

  function Find<K(==), V>(c: Chain<K, V>, k: K): (r: Option<V>)
  {
    if c == [] then None else if c[0].key == k then Some(c[0].val) else Find(c[1..], k)
  }

  function Remove<K(==), V>(c: Chain<K, V>, k: K): (r: Chain<K, V>) {
    if c == [] then [] else if c[0].key == k then c[1..] else [c[0]] + Remove(c[1..], k)
  }

  function SetVal<K(==), V>(c: Chain<K, V>, k: K, v: V): (r: Chain<K, V>) {
    if c == [] then [] else if c[0].key == k then [Entry(k, v)] + c[1..]
    else [c[0]] + SetVal(c[1..], k, v)
  }

  ghost predicate NoDup<K, V>(c: Chain<K, V>) {
    forall i, j :: 0 <= i < j < |c| ==> c[i].key != c[j].key
  }

  /** Every entry of the chain belongs in bucket `b` of a table of `size`. */
  ghost predicate AllAt<K, V>(hash: K -> Word, c: Chain<K, V>, size: nat, b: nat)
    requires PowerOfTwo(size)
  {
    forall j :: 0 <= j < |c| ==> Slot(hash(c[j].key), size) == b
  }

  lemma {:induction false} FindSome<K, V>(c: Chain<K, V>, k: K)
    ensures Find(c, k).Some? <==> exists j :: 0 <= j < |c| && c[j].key == k
  {
    if c != [] {
      FindSome(c[1..], k);
      if c[0].key != k && Find(c, k).Some? {
        var j :| 0 <= j < |c[1..]| && c[1..][j].key == k;
        assert c[j + 1].key == k;
      }
      forall j | 0 <= j < |c| && c[j].key == k
        ensures Find(c, k).Some?
      {
        if j > 0 { assert c[1..][j - 1].key == k; }
      }
    }
  }

  lemma {:induction false} RemoveChain<K, V>(c: Chain<K, V>, k: K)
    requires NoDup(c)
    ensures NoDup(Remove(c, k))
    ensures forall j :: 0 <= j < |Remove(c, k)| ==> Remove(c, k)[j] in c
    ensures forall k' :: Find(Remove(c, k), k') == if k' == k then None else Find(c, k')
    ensures |Remove(c, k)| == |c| - if Find(c, k).Some? then 1 else 0
  {
    if c != [] {
      var t := c[1..];
      assert c == [c[0]] + t;
      RemoveChain(t, k);
      FindSome(t, c[0].key);
      if c[0].key != k {
        var r := Remove(t, k);
        forall j | 0 <= j < |r|
          ensures r[j].key != c[0].key
        {
          var i :| 0 <= i < |t| && t[i] == r[j];
          assert c[i + 1] == r[j];
        }
        assert Remove(c, k)[1..] == r;
      }
    }
  }

  lemma {:induction false} SetValChain<K, V>(c: Chain<K, V>, k: K, v: V)
    ensures |SetVal(c, k, v)| == |c|
    ensures forall j :: 0 <= j < |c| ==> SetVal(c, k, v)[j].key == c[j].key
    ensures Find(c, k).Some? ==>
              forall k' :: Find(SetVal(c, k, v), k') == if k' == k then Some(v) else Find(c, k')
  {
    if c != [] {
      SetValChain(c[1..], k, v);
      assert SetVal(c, k, v)[1..] == if c[0].key == k then c[1..] else SetVal(c[1..], k, v);
    }
  }

  lemma {:induction false} SetValAt<K, V>(c: Chain<K, V>, j: nat, v: V)
    requires j < |c| && forall i :: 0 <= i < j ==> c[i].key != c[j].key
    ensures SetVal(c, c[j].key, v) == c[j := Entry(c[j].key, v)]
  {
    if j > 0 {
      assert c[0].key != c[j].key;
      SetValAt(c[1..], j - 1, v);
      assert c[j := Entry(c[j].key, v)] == [c[0]] + c[1..][j - 1 := Entry(c[j].key, v)];
    }
  }

  lemma {:induction false} RemoveAt<K, V>(c: Chain<K, V>, j: nat)
    requires j < |c| && forall i :: 0 <= i < j ==> c[i].key != c[j].key
    ensures Remove(c, c[j].key) == c[..j] + c[j + 1..]
  {
    if j > 0 {
      assert c[0].key != c[j].key;
      RemoveAt(c[1..], j - 1);
      assert c[..j] + c[j + 1..] == [c[0]] + (c[1..][..j - 1] + c[1..][j..]);
    }
  }

  // Tables.

  function Total<K, V>(t: Buckets<K, V>): nat {
    if t == [] then 0 else |t[0]| + Total(t[1..])
  }

  lemma {:induction false} TotalUpdate<K, V>(t: Buckets<K, V>, i: nat, c: Chain<K, V>)
    requires i < |t|
    ensures Total(t[i := c]) + |t[i]| == Total(t) + |c|
  {
    if i == 0 {
      assert t[i := c][1..] == t[1..];
    } else {
      assert t[i := c][1..] == t[1..][i - 1 := c];
      TotalUpdate(t[1..], i - 1, c);
    }
  }

  /** A table with entries has a non-empty bucket. */
  lemma {:induction false} TotalPositive<K, V>(t: Buckets<K, V>)
    ensures Total(t) > 0 <==> exists i :: 0 <= i < |t| && t[i] != []
  {
    if t != [] {
      TotalPositive(t[1..]);
      if Total(t[1..]) > 0 {
        var i :| 0 <= i < |t[1..]| && t[1..][i] != [];
        assert t[i + 1] != [];
      }
      forall i | 0 <= i < |t| && t[i] != []
        ensures Total(t) > 0
      {
        if i > 0 { assert t[1..][i - 1] != []; }
      }
    }
  }

  /** No key twice, and every entry in the bucket its hash selects. */
  ghost predicate TableOk<K, V>(hash: K -> Word, t: Buckets<K, V>) {
    t != [] ==>
      && PowerOfTwo(|t|)
      && (forall b :: 0 <= b < |t| ==> NoDup(t[b]))
      && (forall b :: 0 <= b < |t| ==> AllAt(hash, t[b], |t|, b))
  }

  function Lookup<K(==), V>(hash: K -> Word, t: Buckets<K, V>, k: K): Option<V>
    requires TableOk(hash, t)
  {
    if t == [] then None else Find(t[Slot(hash(k), |t|)], k)
  }

  /** An entry sitting in any bucket is what a lookup of its key finds. */
  lemma EntryFound<K, V>(hash: K -> Word, t: Buckets<K, V>, b: nat, j: nat)
    requires TableOk(hash, t) && b < |t| && j < |t[b]|
    ensures Lookup(hash, t, t[b][j].key) == Some(t[b][j].val)
  {
    assert AllAt(hash, t[b], |t|, b);
    assert NoDup(t[b]);
    FindAt(t[b], j);
  }

  lemma {:induction false} FindAt<K, V>(c: Chain<K, V>, j: nat)
    requires NoDup(c) && j < |c|
    ensures Find(c, c[j].key) == Some(c[j].val)
  {
    if j > 0 {
      assert c[0].key != c[j].key;
      FindAt(c[1..], j - 1);
    }
  }

  function Empty<K, V>(n: nat): (t: Buckets<K, V>)
    ensures |t| == n && forall i :: 0 <= i < n ==> t[i] == []
  {
    seq(n, _ => [])
  }

  lemma {:induction false} TotalEmpty<K, V>(t: Buckets<K, V>)
    requires forall i :: 0 <= i < |t| ==> t[i] == []
    ensures Total(t) == 0
  {
    TotalPositive(t);
  }

  /** Insertion at the head of the chain. */
  function Push<K, V>(hash: K -> Word, t: Buckets<K, V>, e: Entry<K, V>): (r: Buckets<K, V>)
    requires PowerOfTwo(|t|)
  {
    var b := Slot(hash(e.key), |t|);
    t[b := [e] + t[b]]
  }

  /** Moves the entries of a chain one by one, head first. */
  function PushAll<K, V>(hash: K -> Word, t: Buckets<K, V>, c: Chain<K, V>): (r: Buckets<K, V>)
    requires PowerOfTwo(|t|)
    ensures |r| == |t|
    decreases |c|
  {
    if c == [] then t else PushAll(hash, Push(hash, t, c[0]), c[1..])
  }

  lemma PushOk<K, V>(hash: K -> Word, t: Buckets<K, V>, e: Entry<K, V>)
    requires PowerOfTwo(|t|) && TableOk(hash, t)
    requires Lookup(hash, t, e.key).None?
    ensures TableOk(hash, Push(hash, t, e))
    ensures forall k :: Lookup(hash, Push(hash, t, e), k) ==
                        if k == e.key then Some(e.val) else Lookup(hash, t, k)
    ensures Total(Push(hash, t, e)) == Total(t) + 1
  {
    var b := Slot(hash(e.key), |t|);
    var r := Push(hash, t, e);
    FindSome(t[b], e.key);
    assert AllAt(hash, t[b], |t|, b) && NoDup(t[b]);
    assert r[b][1..] == t[b];
    forall i | 0 <= i < |r|
      ensures NoDup(r[i]) && AllAt(hash, r[i], |r|, i)
    {
      assert NoDup(t[i]) && AllAt(hash, t[i], |t|, i);
    }
    TotalUpdate(t, b, r[b]);
  }

  lemma {:induction false} PushAllOk<K, V>(hash: K -> Word, t: Buckets<K, V>, c: Chain<K, V>)
    requires PowerOfTwo(|t|) && TableOk(hash, t) && NoDup(c)
    requires forall j :: 0 <= j < |c| ==> Lookup(hash, t, c[j].key).None?
    ensures TableOk(hash, PushAll(hash, t, c))
    ensures forall k :: Lookup(hash, PushAll(hash, t, c), k) ==
                        if Find(c, k).Some? then Find(c, k) else Lookup(hash, t, k)
    ensures Total(PushAll(hash, t, c)) == Total(t) + |c|
    decreases |c|
  {
    if c != [] {
      PushOk(hash, t, c[0]);
      var t' := Push(hash, t, c[0]);
      forall j | 0 <= j < |c[1..]|
        ensures Lookup(hash, t', c[1..][j].key).None?
      {
        assert c[1..][j] == c[j + 1];
      }
      PushAllOk(hash, t', c[1..]);
      FindSome(c[1..], c[0].key);
    }
  }

  /** Replacing one bucket by a chain with a subset of its keys. */
  lemma ReplaceBucketOk<K, V>(hash: K -> Word, t: Buckets<K, V>, b: nat, c: Chain<K, V>)
    requires TableOk(hash, t) && b < |t|
    requires NoDup(c) && AllAt(hash, c, |t|, b)
    ensures TableOk(hash, t[b := c])
    ensures forall k :: Lookup(hash, t[b := c], k) ==
                        if Slot(hash(k), |t|) == b then Find(c, k) else Lookup(hash, t, k)
    ensures Total(t[b := c]) + |t[b]| == Total(t) + |c|
  {
    var r := t[b := c];
    forall i | 0 <= i < |r|
      ensures NoDup(r[i]) && AllAt(hash, r[i], |r|, i)
    {
      assert NoDup(t[i]) && AllAt(hash, t[i], |t|, i);
    }
    TotalUpdate(t, b, c);
  }

  lemma EmptyOk<K, V>(hash: K -> Word, n: nat)
    requires PowerOfTwo(n)
    ensures TableOk(hash, Empty<K, V>(n))
    ensures forall k :: Lookup(hash, Empty<K, V>(n), k).None?
    ensures Total(Empty<K, V>(n)) == 0
  {
    var t := Empty<K, V>(n);
    forall b | 0 <= b < |t| ensures NoDup(t[b]) && AllAt(hash, t[b], |t|, b) {}
    TotalEmpty(t);
  }
}
