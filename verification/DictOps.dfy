/**
 Operations of dict.c on the two-table state. `Get` reads both tables as one
 finite map; each operation keeps `Inv` and changes `Get` as the plain map
 operation would.
 */
module DictOps {
  import opened Options
  import opened Words
  import opened DictModel

  ghost predicate Inv<K(!new), V>(hash: K -> Word, s: State<K, V>) {
    && TableOk(hash, s.t0) && TableOk(hash, s.t1)
    && s.used0 == Total(s.t0) && s.used1 == Total(s.t1)
    && (s.Rehashing() <==> s.t1 != [])
    && (s.Rehashing() ==> 0 <= s.idx <= |s.t0| && s.t0 != [])
    && (forall b :: 0 <= b < |s.t0| && b < s.idx ==> s.t0[b] == [])
    && (forall k :: Lookup(hash, s.t0, k).None? || Lookup(hash, s.t1, k).None?)
  }

  function Get<K(!new, ==), V>(hash: K -> Word, s: State<K, V>, k: K): Option<V>
    requires Inv(hash, s)
  {
    var r := Lookup(hash, s.t0, k);
    if r.Some? then r else Lookup(hash, s.t1, k)
  }

  /** Sizes the code can double without meeting its LONG_MAX clamp. */
  ghost predicate Doublable<K, V>(s: State<K, V>) {
    s.Size() <= Pow2(MAX_BITS - 1)
  }

  function Create<K, V>(): State<K, V> {
    State([], [], 0, 0, -1, 0)
  }

  // Incremental rehashing.

  function FirstNonEmpty<K, V>(t: Buckets<K, V>, i: nat): (r: nat)
    requires exists j :: i <= j < |t| && t[j] != []
    ensures i <= r < |t| && t[r] != []
    ensures forall j :: i <= j < r ==> t[j] == []
    decreases |t| - i
  {
    if t[i] != [] then i else FirstNonEmpty(t, i + 1)
  }

  /** While the old table has entries there is a bucket left to move at or after
      `idx`, so neither the assertion nor the skipping loop leaves the table. */
  lemma RehashInBounds<K(!new), V>(hash: K -> Word, s: State<K, V>)
    requires Inv(hash, s) && s.Rehashing() && s.used0 > 0
    ensures s.idx < |s.t0|
    ensures exists j :: s.idx <= j < |s.t0| && s.t0[j] != []
  {
    TotalPositive(s.t0);
    var i :| 0 <= i < |s.t0| && s.t0[i] != [];
    assert s.idx <= i;
  }

  /** One round of `dictRehash`: swap the tables when the old one is empty,
      otherwise move the next non-empty bucket. */
  function RehashStep<K(!new), V>(hash: K -> Word, s: State<K, V>): (r: State<K, V>)
    requires Inv(hash, s) && s.Rehashing()
  {
    if s.used0 == 0 then State(s.t1, [], s.used1, 0, -1, s.iterators)
    else
      RehashInBounds(hash, s);
      var i := FirstNonEmpty(s.t0, s.idx);
      var c := s.t0[i];
      TotalUpdate(s.t0, i, []);
      State(s.t0[i := []], PushAll(hash, s.t1, c), s.used0 - |c|, s.used1 + |c|, i + 1, s.iterators)
  }

  lemma MoveBucketOk<K(!new), V>(hash: K -> Word, s: State<K, V>, i: nat)
    requires Inv(hash, s) && s.Rehashing() && s.idx <= i < |s.t0|
    requires forall j :: s.idx <= j < i ==> s.t0[j] == []
    ensures var t0, t1 := s.t0[i := []], PushAll(hash, s.t1, s.t0[i]);
            && TableOk(hash, t0) && TableOk(hash, t1)
            && Total(t0) + |s.t0[i]| == s.used0 && Total(t1) == s.used1 + |s.t0[i]|
            && (forall k :: Lookup(hash, t0, k) ==
                            if Slot(hash(k), |t0|) == i then None else Lookup(hash, s.t0, k))
            && (forall k :: Lookup(hash, t1, k) ==
                            if Find(s.t0[i], k).Some? then Find(s.t0[i], k) else Lookup(hash, s.t1, k))
            && (forall k :: Find(s.t0[i], k) ==
                            if Slot(hash(k), |t0|) == i then Lookup(hash, s.t0, k) else None)
  {
    var c := s.t0[i];
    assert AllAt(hash, c, |s.t0|, i) && NoDup(c);
    ReplaceBucketOk(hash, s.t0, i, []);
    forall j | 0 <= j < |c|
      ensures Lookup(hash, s.t1, c[j].key).None?
    {
      EntryFound(hash, s.t0, i, j);
    }
    PushAllOk(hash, s.t1, c);
    forall k
      ensures Find(c, k) == if Slot(hash(k), |s.t0|) == i then Lookup(hash, s.t0, k) else None
    {
      FindSome(c, k);
    }
  }

  /** A rehash round keeps the invariant, loses no key and makes progress. */
  lemma RehashStepOk<K(!new), V>(hash: K -> Word, s: State<K, V>)
    requires Inv(hash, s) && s.Rehashing()
    ensures Inv(hash, RehashStep(hash, s))
    ensures forall k :: Get(hash, RehashStep(hash, s), k) == Get(hash, s, k)
    ensures RehashStep(hash, s).Size() == s.Size()
    ensures RehashStep(hash, s).idx > s.idx || !RehashStep(hash, s).Rehashing()
  {
    if s.used0 == 0 {
      forall k ensures Lookup(hash, s.t0, k).None? {
        if Lookup(hash, s.t0, k).Some? {
          var b := Slot(hash(k), |s.t0|);
          FindSome(s.t0[b], k);
          TotalPositive(s.t0);
        }
      }
    } else {
      RehashInBounds(hash, s);
      MoveBucketOk(hash, s, FirstNonEmpty(s.t0, s.idx));
    }
  }

  function Rehash<K(!new), V>(hash: K -> Word, s: State<K, V>, n: nat): (r: State<K, V>)
    requires Inv(hash, s)
    decreases n
  {
    if n == 0 || !s.Rehashing() then s
    else
      RehashStepOk(hash, s);
      Rehash(hash, RehashStep(hash, s), n - 1)
  }

  lemma {:induction false} RehashOk<K(!new), V>(hash: K -> Word, s: State<K, V>, n: nat)
    requires Inv(hash, s)
    ensures Inv(hash, Rehash(hash, s, n))
    ensures forall k :: Get(hash, Rehash(hash, s, n), k) == Get(hash, s, k)
    ensures Rehash(hash, s, n).Size() == s.Size()
    ensures s.Rehashing() && n > |s.t0| - s.idx ==> !Rehash(hash, s, n).Rehashing()
    decreases n
  {
    hide Inv, Get, RehashStep;
    if s.Rehashing() { StepBounds(hash, s); }
    if n > 0 && s.Rehashing() {
      RehashStepOk(hash, s);
      RehashOk(hash, RehashStep(hash, s), n - 1);
    }
  }

  lemma StepBounds<K(!new), V>(hash: K -> Word, s: State<K, V>)
    requires Inv(hash, s) && s.Rehashing()
    ensures 0 <= s.idx <= |s.t0|
    ensures RehashStep(hash, s).Rehashing() ==> |RehashStep(hash, s).t0| == |s.t0|
  {
  }

  /** The step taken by lookups and updates; blocked while a safe iterator runs. */
  function MaybeStep<K(!new), V>(hash: K -> Word, s: State<K, V>): (r: State<K, V>)
    requires Inv(hash, s)
  {
    if s.Rehashing() && s.iterators == 0 then RehashStep(hash, s) else s
  }

  lemma MaybeStepOk<K(!new), V>(hash: K -> Word, s: State<K, V>)
    requires Inv(hash, s)
    ensures Inv(hash, MaybeStep(hash, s))
    ensures forall k :: Get(hash, MaybeStep(hash, s), k) == Get(hash, s, k)
    ensures MaybeStep(hash, s).Size() == s.Size()
    ensures s.t0 != [] ==> MaybeStep(hash, s).t0 != []
  {
    if s.Rehashing() { RehashStepOk(hash, s); }
  }

  /** Every such use moves a rehash on. */
  lemma MaybeStepMoves<K(!new), V>(hash: K -> Word, s: State<K, V>)
    requires Inv(hash, s)
    ensures s.Rehashing() && s.iterators == 0 ==>
              MaybeStep(hash, s).idx > s.idx || !MaybeStep(hash, s).Rehashing()
    ensures !s.Rehashing() || s.iterators > 0 ==> MaybeStep(hash, s) == s
  {
    hide Inv, RehashStep;
    if s.Rehashing() { RehashStepOk(hash, s); }
  }

  // Growth.

  function NextPowerFrom(i: nat, size: nat): (r: nat)
    requires i > 0
    ensures r >= size && (r == i || r < 2 * size)
    decreases if i < size then size - i else 0
  {
    if i >= size then i else NextPowerFrom(2 * i, size)
  }

  function NextPower(size: nat): nat {
    NextPowerFrom(INITIAL_SIZE, size)
  }

  lemma {:induction false} NextPowerFromOk(e: nat, size: nat)
    requires e <= MAX_BITS && size <= Pow2(MAX_BITS)
    ensures PowerOfTwo(NextPowerFrom(Pow2(e), size))
    decreases MAX_BITS - e
  {
    if Pow2(e) < size {
      if e == MAX_BITS { assert false; }
      NextPowerFromOk(e + 1, size);
    }
  }

  lemma NextPowerOk(size: nat)
    requires size <= Pow2(MAX_BITS)
    ensures PowerOfTwo(NextPower(size)) && NextPower(size) >= size
  {
    assert Pow2(2) == 4;
    NextPowerFromOk(2, size);
  }

  /** `dictExpand`: refused during a rehash or when the size is too small; the
      first call only allocates, later ones start a rehash. */
  function Expand<K, V>(s: State<K, V>, size: nat): (r: State<K, V>)
  {
    if s.Rehashing() || s.used0 > size then s
    else if s.t0 == [] then s.(t0 := Empty(NextPower(size)), used0 := 0)
    else s.(t1 := Empty(NextPower(size)), used1 := 0, idx := 0)
  }

  lemma ExpandOk<K(!new), V>(hash: K -> Word, s: State<K, V>, size: nat)
    requires Inv(hash, s) && size <= Pow2(MAX_BITS)
    ensures Inv(hash, Expand(s, size))
    ensures forall k :: Get(hash, Expand(s, size), k) == Get(hash, s, k)
    ensures Expand(s, size).Size() == s.Size()
  {
    NextPowerOk(size);
    EmptyOk<K, V>(hash, NextPower(size));
  }

  function ExpandIfNeeded<K, V>(s: State<K, V>, canResize: bool): State<K, V> {
    if s.Rehashing() then s
    else if |s.t0| == 0 then Expand(s, INITIAL_SIZE)
    else if s.used0 >= |s.t0| && (canResize || s.used0 / |s.t0| > FORCE_RESIZE_RATIO) then
      Expand(s, s.used0 * 2)
    else s
  }

  lemma ExpandIfNeededOk<K(!new), V>(hash: K -> Word, s: State<K, V>, canResize: bool)
    requires Inv(hash, s) && Doublable(s)
    ensures var r := ExpandIfNeeded(s, canResize);
            && Inv(hash, r) && r.t0 != [] && r.Size() == s.Size() && r.iterators == s.iterators
            && forall k :: Get(hash, r, k) == Get(hash, s, k)
  {
    assert Pow2(MAX_BITS) == 2 * Pow2(MAX_BITS - 1);
    Pow2Mono(2, MAX_BITS);
    ExpandOk(hash, s, INITIAL_SIZE);
    if !s.Rehashing() && |s.t0| > 0 {
      ExpandOk(hash, s, s.used0 * 2);
    }
  }

  /** When a dictionary grows and to what: an empty one gets four buckets, a full one
      starts a rehash into at least twice as many buckets as it has entries, if resizing
      is allowed or there are more than five entries a bucket; else nothing changes. */
  lemma GrowsWhenFull<K(!new), V>(hash: K -> Word, s: State<K, V>, canResize: bool)
    requires Inv(hash, s)
    ensures var r := ExpandIfNeeded(s, canResize);
            if s.Rehashing() then r == s
            else if s.t0 == [] then |r.t0| == 4 && !r.Rehashing()
            else if s.used0 >= |s.t0| && (canResize || s.used0 >= 6 * |s.t0|) then
              && r.Rehashing() && r.idx == 0 && r.t0 == s.t0 && r.used0 == s.used0
              && 2 * s.used0 <= |r.t1| && (|r.t1| == 4 || |r.t1| < 4 * s.used0)
            else r == s
  {
    if s.t0 != [] { Ratio(s.used0, |s.t0|); }
  }

  lemma Ratio(n: nat, m: nat)
    requires m > 0
    ensures n / m > FORCE_RESIZE_RATIO <==> n >= 6 * m
  {
    var q := n / m;
    assert n == q * m + n % m;
    if q >= 6 { assert q * m >= 6 * m; } else { assert q * m <= 5 * m; }
  }

  // Map operations.

  /** What every add does before touching the chains. */
  function Prelude<K(!new), V>(hash: K -> Word, s: State<K, V>, canResize: bool): State<K, V>
    requires Inv(hash, s)
  {
    ExpandIfNeeded(MaybeStep(hash, s), canResize)
  }

  lemma PreludeOk<K(!new), V>(hash: K -> Word, s: State<K, V>, canResize: bool)
    requires Inv(hash, s) && Doublable(s)
    ensures var r := Prelude(hash, s, canResize);
            && Inv(hash, r) && r.t0 != [] && r.Size() == s.Size() && r.iterators == s.iterators
            && forall k :: Get(hash, r, k) == Get(hash, s, k)
  {
    if s.Rehashing() { RehashStepOk(hash, s); }
    ExpandIfNeededOk(hash, MaybeStep(hash, s), canResize);
  }

  /** Links a new entry: into the new table during a rehash, else into the old. */
  function Link<K(!new), V>(hash: K -> Word, s: State<K, V>, e: Entry<K, V>): State<K, V>
    requires Inv(hash, s) && s.t0 != []
  {
    if s.Rehashing() then s.(t1 := Push(hash, s.t1, e), used1 := s.used1 + 1)
    else s.(t0 := Push(hash, s.t0, e), used0 := s.used0 + 1)
  }

  lemma LinkOk<K(!new), V>(hash: K -> Word, s: State<K, V>, e: Entry<K, V>)
    requires Inv(hash, s) && s.t0 != [] && Get(hash, s, e.key).None?
    ensures Inv(hash, Link(hash, s, e))
    ensures forall k :: Get(hash, Link(hash, s, e), k) ==
                        if k == e.key then Some(e.val) else Get(hash, s, k)
  {
    PushOk(hash, if s.Rehashing() then s.t1 else s.t0, e);
  }

  /** `dictAdd`. */
  function Add<K(!new, ==), V>(hash: K -> Word, s: State<K, V>, k: K, v: V, canResize: bool): State<K, V>
    requires Inv(hash, s) && Doublable(s)
  {
    PreludeOk(hash, s, canResize);
    var p := Prelude(hash, s, canResize);
    if Get(hash, p, k).Some? then p else Link(hash, p, Entry(k, v))
  }

  lemma AddRefinesMap<K(!new), V>(hash: K -> Word, s: State<K, V>, k: K, v: V, canResize: bool)
    requires Inv(hash, s) && Doublable(s)
    ensures var r := Add(hash, s, k, v, canResize);
            && Inv(hash, r)
            && r.Size() == s.Size() + (if Get(hash, s, k).None? then 1 else 0)
            && forall k' :: Get(hash, r, k') ==
                            if k' == k && Get(hash, s, k).None? then Some(v) else Get(hash, s, k')
  {
    PreludeOk(hash, s, canResize);
    var p := Prelude(hash, s, canResize);
    if Get(hash, p, k).None? { LinkOk(hash, p, Entry(k, v)); }
  }

  /** Rewrites one bucket of the table that holds the key. */
  function Rebucket<K(!new, ==), V>(hash: K -> Word, s: State<K, V>, k: K,
                                    f: Chain<K, V> -> Chain<K, V>): State<K, V>
    requires Inv(hash, s) && s.t0 != []
  {
    var b0 := Slot(hash(k), |s.t0|);
    if Find(s.t0[b0], k).Some? then s.(t0 := s.t0[b0 := f(s.t0[b0])])
    else if s.Rehashing() then
      var b1 := Slot(hash(k), |s.t1|);
      s.(t1 := s.t1[b1 := f(s.t1[b1])])
    else s
  }

  /** `dictReplace`: an add, or a find (with its own rehash step) and a value
      update in place. */
  function Replace<K(!new, ==), V>(hash: K -> Word, s: State<K, V>, k: K, v: V, canResize: bool): State<K, V>
    requires Inv(hash, s) && Doublable(s)
  {
    PreludeOk(hash, s, canResize);
    var p := Prelude(hash, s, canResize);
    if Get(hash, p, k).None? then Link(hash, p, Entry(k, v))
    else
      assert Inv(hash, MaybeStep(hash, p)) by { if p.Rehashing() { RehashStepOk(hash, p); } }
      Rebucket(hash, MaybeStep(hash, p), k, c => SetVal(c, k, v))
  }

  lemma SetValOk<K(!new), V>(hash: K -> Word, s: State<K, V>, k: K, v: V)
    requires Inv(hash, s) && s.t0 != [] && Get(hash, s, k).Some?
    ensures var r := Rebucket(hash, s, k, c => SetVal(c, k, v));
            && Inv(hash, r) && r.Size() == s.Size()
            && forall k' :: Get(hash, r, k') == if k' == k then Some(v) else Get(hash, s, k')
  {
    var b0 := Slot(hash(k), |s.t0|);
    SetAtOk(hash, if Find(s.t0[b0], k).Some? then s.t0 else s.t1, k, v);
  }

  lemma SetAtOk<K(!new), V>(hash: K -> Word, t: Buckets<K, V>, k: K, v: V)
    requires TableOk(hash, t) && t != [] && Lookup(hash, t, k).Some?
    ensures var b := Slot(hash(k), |t|);
            var r := t[b := SetVal(t[b], k, v)];
            && TableOk(hash, r) && Total(r) == Total(t)
            && (forall i :: 0 <= i < |t| && t[i] == [] ==> r[i] == [])
            && forall k' :: Lookup(hash, r, k') == if k' == k then Some(v) else Lookup(hash, t, k')
  {
    var b := Slot(hash(k), |t|);
    var c := t[b];
    assert AllAt(hash, c, |t|, b) && NoDup(c);
    SetValChain(c, k, v);
    ReplaceBucketOk(hash, t, b, SetVal(c, k, v));
  }

  lemma ReplaceRefinesMap<K(!new), V>(hash: K -> Word, s: State<K, V>, k: K, v: V, canResize: bool)
    requires Inv(hash, s) && Doublable(s)
    ensures var r := Replace(hash, s, k, v, canResize);
            && Inv(hash, r)
            && r.Size() == s.Size() + (if Get(hash, s, k).None? then 1 else 0)
            && forall k' :: Get(hash, r, k') == if k' == k then Some(v) else Get(hash, s, k')
  {
    PreludeOk(hash, s, canResize);
    var p := Prelude(hash, s, canResize);
    if Get(hash, p, k).None? {
      LinkOk(hash, p, Entry(k, v));
    } else {
      if p.Rehashing() { RehashStepOk(hash, p); }
      SetValOk(hash, MaybeStep(hash, p), k, v);
    }
  }

  /** `dictDelete`. */
  function Delete<K(!new, ==), V>(hash: K -> Word, s: State<K, V>, k: K): (r: State<K, V>)
    requires Inv(hash, s)
  {
    if |s.t0| == 0 then s
    else
      assert Inv(hash, MaybeStep(hash, s)) by { if s.Rehashing() { RehashStepOk(hash, s); } }
      var p := MaybeStep(hash, s);
      var q := Rebucket(hash, p, k, c => Remove(c, k));
      q.(used0 := Total(q.t0), used1 := Total(q.t1))
  }

  lemma RemoveOk<K(!new), V>(hash: K -> Word, s: State<K, V>, k: K)
    requires Inv(hash, s) && s.t0 != []
    ensures var q := Rebucket(hash, s, k, c => Remove(c, k));
            var r := q.(used0 := Total(q.t0), used1 := Total(q.t1));
            && Inv(hash, r)
            && r.Size() == s.Size() - (if Get(hash, s, k).Some? then 1 else 0)
            && forall k' :: Get(hash, r, k') == if k' == k then None else Get(hash, s, k')
  {
    var b0 := Slot(hash(k), |s.t0|);
    if Find(s.t0[b0], k).Some? {
      RemoveAtOk(hash, s.t0, k);
    } else if s.Rehashing() {
      RemoveAtOk(hash, s.t1, k);
    }
  }

  lemma RemoveAtOk<K(!new), V>(hash: K -> Word, t: Buckets<K, V>, k: K)
    requires TableOk(hash, t) && t != []
    ensures var b := Slot(hash(k), |t|);
            var r := t[b := Remove(t[b], k)];
            && TableOk(hash, r)
            && Total(r) == Total(t) - (if Lookup(hash, t, k).Some? then 1 else 0)
            && (forall i :: 0 <= i < |t| && t[i] == [] ==> r[i] == [])
            && forall k' :: Lookup(hash, r, k') == if k' == k then None else Lookup(hash, t, k')
  {
    var b := Slot(hash(k), |t|);
    var c := t[b];
    assert AllAt(hash, c, |t|, b) && NoDup(c);
    RemoveChain(c, k);
    ReplaceBucketOk(hash, t, b, Remove(c, k));
  }

  lemma DeleteAbsent<K(!new), V>(hash: K -> Word, s: State<K, V>, k: K)
    requires Inv(hash, s) && Get(hash, s, k).None?
    ensures Delete(hash, s, k) == if |s.t0| == 0 then s else MaybeStep(hash, s)
  {
    if |s.t0| != 0 {
      MaybeStepOk(hash, s);
      var p := MaybeStep(hash, s);
      assert Get(hash, p, k).None?;
      if p.Rehashing() {
        var b1 := Slot(hash(k), |p.t1|);
        RemoveAbsent(p.t1[b1], k);
        assert p.t1[b1 := p.t1[b1]] == p.t1;
      }
    }
  }

  lemma {:induction false} RemoveAbsent<K, V>(c: Chain<K, V>, k: K)
    requires Find(c, k).None?
    ensures Remove(c, k) == c
  {
    if c != [] { RemoveAbsent(c[1..], k); }
  }

  lemma DeleteRefinesMap<K(!new), V>(hash: K -> Word, s: State<K, V>, k: K)
    requires Inv(hash, s)
    ensures var r := Delete(hash, s, k);
            && Inv(hash, r)
            && r.Size() == s.Size() - (if Get(hash, s, k).Some? then 1 else 0)
            && forall k' :: Get(hash, r, k') == if k' == k then None else Get(hash, s, k')
  {
    if |s.t0| != 0 {
      if s.Rehashing() { RehashStepOk(hash, s); }
      RemoveOk(hash, MaybeStep(hash, s), k);
    }
  }

  // Whole runs.

  datatype Op<K, V> =
    | OpAdd(key: K, val: V, canResize: bool)
    | OpReplace(key: K, val: V, canResize: bool)
    | OpDelete(key: K)
    | OpFind
    | OpRehash(n: nat)
    | OpExpand(size: nat)
    | OpIterate(running: nat)

  /** The dictionary after one operation. */
  function Apply<K(!new, ==), V>(hash: K -> Word, s: State<K, V>, op: Op<K, V>): State<K, V>
    requires Inv(hash, s) && Doublable(s)
  {
    match op
    case OpAdd(k, v, can) => Add(hash, s, k, v, can)
    case OpReplace(k, v, can) => Replace(hash, s, k, v, can)
    case OpDelete(k) => Delete(hash, s, k)
    case OpFind => if |s.t0| == 0 then s else MaybeStep(hash, s)
    case OpRehash(n) => Rehash(hash, s, n)
    case OpExpand(size) => if size <= Pow2(MAX_BITS) then Expand(s, size) else s
    case OpIterate(n) => s.(iterators := n)
  }

  /** The same operation on a plain finite map. */
  function ApplyMap<K, V>(m: map<K, V>, op: Op<K, V>): map<K, V> {
    match op
    case OpAdd(k, v, _) => if k in m then m else m[k := v]
    case OpReplace(k, v, _) => m[k := v]
    case OpDelete(k) => m - {k}
    case _ => m
  }

  ghost predicate Represents<K(!new), V>(hash: K -> Word, s: State<K, V>, m: map<K, V>) {
    && Inv(hash, s)
    && s.Size() == |m|
    && forall k :: Get(hash, s, k) == if k in m then Some(m[k]) else None
  }

  lemma PutCardinality<K, V>(m: map<K, V>, k: K, v: V)
    ensures |m[k := v]| == |m| + if k in m then 0 else 1
  {
    if k in m { assert m[k := v].Keys == m.Keys; }
  }

  lemma DropCardinality<K, V>(m: map<K, V>, k: K)
    ensures |m - {k}| == |m| - if k in m then 1 else 0
  {
    if k in m { assert m == (m - {k})[k := m[k]]; } else { assert m - {k} == m; }
  }

  lemma AddRepresents<K(!new), V>(hash: K -> Word, s: State<K, V>, m: map<K, V>, k: K, v: V, canResize: bool)
    requires Represents(hash, s, m) && Doublable(s)
    ensures Represents(hash, Add(hash, s, k, v, canResize), if k in m then m else m[k := v])
  {
    hide Add, Inv, Get, Doublable;
    AddRefinesMap(hash, s, k, v, canResize);
    PutCardinality(m, k, v);
    RepresentsTransfer(hash, s, m, Add(hash, s, k, v, canResize), if k in m then m else m[k := v], k);
  }

  lemma ReplaceRepresents<K(!new), V>(hash: K -> Word, s: State<K, V>, m: map<K, V>, k: K, v: V, canResize: bool)
    requires Represents(hash, s, m) && Doublable(s)
    ensures Represents(hash, Replace(hash, s, k, v, canResize), m[k := v])
  {
    hide Replace, Inv, Get, Doublable;
    ReplaceRefinesMap(hash, s, k, v, canResize);
    PutCardinality(m, k, v);
    RepresentsTransfer(hash, s, m, Replace(hash, s, k, v, canResize), m[k := v], k);
  }

  lemma DeleteRepresents<K(!new), V>(hash: K -> Word, s: State<K, V>, m: map<K, V>, k: K)
    requires Represents(hash, s, m)
    ensures Represents(hash, Delete(hash, s, k), m - {k})
  {
    hide Delete, Inv, Get;
    DeleteRefinesMap(hash, s, k);
    DropCardinality(m, k);
    RepresentsTransfer(hash, s, m, Delete(hash, s, k), m - {k}, k);
  }

  lemma CreateRepresents<K(!new), V>(hash: K -> Word)
    ensures Represents(hash, Create<K, V>(), map[])
  {
  }

  lemma IterateRepresents<K(!new), V>(hash: K -> Word, s: State<K, V>, m: map<K, V>, n: nat)
    requires Represents(hash, s, m)
    ensures Represents(hash, s.(iterators := n), m)
  {
  }

  /** A change confined to one key. */
  lemma RepresentsTransfer<K(!new), V>(hash: K -> Word, s: State<K, V>, m: map<K, V>,
                                       s': State<K, V>, m': map<K, V>, k: K)
    requires Represents(hash, s, m) && Inv(hash, s') && s'.Size() == |m'|
    requires Get(hash, s', k) == if k in m' then Some(m'[k]) else None
    requires forall j :: j != k ==> Get(hash, s', j) == Get(hash, s, j)
    requires m' - {k} == m - {k}
    ensures Represents(hash, s', m')
  {
    hide Inv, Get;
    forall j
      ensures Get(hash, s', j) == if j in m' then Some(m'[j]) else None
    {
      if j != k {
        assert j in m' <==> j in m' - {k};
        assert j in m <==> j in m - {k};
        if j in m { assert m[j] == (m - {k})[j] == m'[j]; }
      }
    }
  }

  lemma ApplyRefinesMap<K(!new), V>(hash: K -> Word, s: State<K, V>, m: map<K, V>, op: Op<K, V>)
    requires Represents(hash, s, m) && Doublable(s)
    ensures Represents(hash, Apply(hash, s, op), ApplyMap(m, op))
    ensures |ApplyMap(m, op)| <= |m| + 1
  {
    hide Add, Replace, Delete, Rehash, Expand, MaybeStep, Inv, Get, Doublable, Pow2;
    match op
    case OpAdd(k, v, can) =>
      AddRepresents(hash, s, m, k, v, can);
      PutCardinality(m, k, v);
    case OpReplace(k, v, can) =>
      ReplaceRepresents(hash, s, m, k, v, can);
      PutCardinality(m, k, v);
    case OpDelete(k) =>
      DeleteRepresents(hash, s, m, k);
      DropCardinality(m, k);
    case OpFind =>
      MaybeStepOk(hash, s);
    case OpRehash(n) =>
      RehashOk(hash, s, n);
    case OpExpand(size) =>
      if size <= Pow2(MAX_BITS) { ExpandOk(hash, s, size); }
    case OpIterate(n) =>
      IterateRepresents(hash, s, m, n);
  }

  lemma SmallDoublable<K(!new), V>(hash: K -> Word, s: State<K, V>, m: map<K, V>)
    requires Represents(hash, s, m) && |m| <= Pow2(MAX_BITS - 1)
    ensures Inv(hash, s) && Doublable(s)
  {
  }

  ghost function ApplyAllMap<K, V>(m: map<K, V>, ops: seq<Op<K, V>>): map<K, V>
    decreases |ops|
  {
    if ops == [] then m else ApplyAllMap(ApplyMap(m, ops[0]), ops[1..])
  }

  /** The states a run of operations goes through. */
  ghost predicate IsRun<K(!new), V>(hash: K -> Word, ss: seq<State<K, V>>, ops: seq<Op<K, V>>) {
    && |ss| == |ops| + 1
    && ss[0] == Create()
    && forall i :: 0 <= i < |ops| ==>
         Inv(hash, ss[i]) && Doublable(ss[i]) ==> ss[i + 1] == Apply(hash, ss[i], ops[i])
  }

  /** Any run from an empty dictionary, whatever it mixes of adds, deletes,
      rehash steps and resizes, ends in a state that represents the finite map
      obtained by the plain operations. */
  lemma {:induction false} RunRefinesMap<K(!new), V>(hash: K -> Word, ss: seq<State<K, V>>, ops: seq<Op<K, V>>)
    requires IsRun(hash, ss, ops) && |ops| <= Pow2(MAX_BITS - 1)
    ensures Represents(hash, ss[|ops|], ApplyAllMap(map[], ops))
    ensures |ApplyAllMap(map[], ops)| <= |ops|
  {
    hide Apply, ApplyMap, Represents, Inv, Get, Doublable, Pow2;
    if ops == [] {
      CreateRepresents<K, V>(hash);
    } else {
      var n := |ops| - 1;
      RunRefinesMap(hash, ss[..n + 1], ops[..n]);
      var m := ApplyAllMap(map[], ops[..n]);
      SmallDoublable(hash, ss[n], m);
      ApplyRefinesMap(hash, ss[n], m, ops[n]);
      ApplyAllSnoc(map[], ops);
    }
  }

  lemma {:induction false} ApplyAllSnoc<K, V>(m: map<K, V>, ops: seq<Op<K, V>>)
    requires ops != []
    ensures var n := |ops| - 1;
            ApplyAllMap(m, ops) == ApplyMap(ApplyAllMap(m, ops[..n]), ops[n])
    decreases |ops|
  {
    if |ops| > 1 {
      ApplyAllSnoc(ApplyMap(m, ops[0]), ops[1..]);
      assert ops[..|ops| - 1][1..] == ops[1..][..|ops| - 2];
    }
  }
}
