/**
 dict.c: safe iteration. A walk with `dictNext` meets every key that stays in the
 dictionary exactly once, while the caller adds and replaces entries, lets a rehash
 start, and deletes the entry it was just given.
 */
module DictIter {
  import opened Options
  import opened Words
  import opened DictModel
  import opened DictOps

  /** `entry` and `nextEntry` point to entries, which their keys identify. */
  datatype Iter<K> = Iter(table: nat, index: int, entry: Option<K>, next: Option<K>)

  function Begin<K>(): Iter<K> {
    Iter(0, -1, None, None)
  }

  predicate Started<K>(it: Iter<K>) {
    !(it.index == -1 && it.table == 0)
  }

  function KeysOf<K, V>(c: Chain<K, V>): seq<K> {
    seq(|c|, i requires 0 <= i < |c| => c[i].key)
  }

  /** The part of a chain that starts at key `n`. */
  function From<K(==)>(q: seq<K>, n: K): seq<K> {
    if q == [] then [] else if q[0] == n then q else From(q[1..], n)
  }

  /** The `next` pointer of the entry of key `k`. */
  function After<K(==)>(q: seq<K>, k: K): Option<K> {
    var f := From(q, k);
    if |f| > 1 then Some(f[1]) else None
  }

  function Table<K, V>(s: State<K, V>, t: nat): Buckets<K, V> {
    if t == 0 then s.t0 else s.t1
  }

  function Current<K, V>(s: State<K, V>, it: Iter<K>): seq<K>
    requires 0 <= it.index < |Table(s, it.table)|
  {
    KeysOf(Table(s, it.table)[it.index])
  }

  /** A walk under way: it counts as a running iterator, and the saved next entry is
      still linked in the bucket being walked, behind which the given entry is not. */
  ghost predicate ItOk<K(!new), V>(s: State<K, V>, it: Iter<K>) {
    && it.table <= 1 && it.table <= it.index + 1
    && (it.table == 1 ==> s.Rehashing())
    && (Started(it) ==> s.iterators >= 1 && 0 <= it.index < |Table(s, it.table)|)
    && (it.entry.Some? ==> Started(it))
    && (it.entry.Some? && it.next.Some? ==>
          && it.next.value in Current(s, it)
          && it.entry.value !in From(Current(s, it), it.next.value))
  }

  ghost function Left<K, V>(s: State<K, V>, it: Iter<K>): int {
    (if it.table == 0 then |s.t1| else 0) + |Table(s, it.table)| - it.index
  }

  /** The loop of `dictNext`. */
  function Walk<K(!new, ==), V>(ghost hash: K -> Word, s: State<K, V>, it: Iter<K>): Iter<K>
    requires Inv(hash, s) && ItOk(s, it) && s.iterators >= 1
    decreases Left(s, it), if it.entry.Some? then 1 else 0
  {
    if it.entry.Some? then
      if it.next.Some? then it.(entry := it.next, next := After(Current(s, it), it.next.value))
      else Walk(hash, s, it.(entry := None))
    else if it.index + 1 < |Table(s, it.table)| then Land(hash, s, it.(index := it.index + 1))
    else if s.Rehashing() && it.table == 0 then Land(hash, s, it.(table := 1, index := 0))
    else it.(index := it.index + 1)
  }

  function Land<K(!new, ==), V>(ghost hash: K -> Word, s: State<K, V>, it: Iter<K>): Iter<K>
    requires Inv(hash, s) && ItOk(s, it) && Started(it) && it.entry.None?
    decreases Left(s, it), 2
  {
    var c := Table(s, it.table)[it.index];
    if c == [] then Walk(hash, s, it)
    else it.(entry := Some(c[0].key), next := After(KeysOf(c), c[0].key))
  }

  /** `dictNext`: the first call registers the iterator. */
  function Register<K, V>(s: State<K, V>, it: Iter<K>): State<K, V> {
    if Started(it) then s else s.(iterators := s.iterators + 1)
  }

  // Chains of keys.

  ghost predicate Distinct<K>(q: seq<K>) {
    forall i, j :: 0 <= i < j < |q| ==> q[i] != q[j]
  }

  lemma {:induction false} FromIs<K>(q: seq<K>, n: K)
    requires Distinct(q) && n in q
    ensures From(q, n) != [] && From(q, n)[0] == n && Distinct(From(q, n))
    ensures forall k :: k in From(q, n) ==> k in q
    ensures |From(q, n)| > 1 ==> From(q, From(q, n)[1]) == From(q, n)[1..]
  {
    if q[0] == n {
      if |q| > 1 { assert q[1..][0] == q[1]; }
    } else {
      assert n in q[1..];
      FromIs(q[1..], n);
      var f := From(q, n);
      if |f| > 1 {
        assert f[1] in q[1..];
        assert f[1] != q[0];
      }
    }
  }

  lemma FromPush<K>(q: seq<K>, x: K, n: K)
    requires x != n
    ensures From([x] + q, n) == From(q, n)
  {
    assert ([x] + q)[1..] == q;
  }

  lemma {:induction false} KeysRemoved<K, V>(c: Chain<K, V>, e: K, n: K)
    requires Distinct(KeysOf(c)) && n in KeysOf(c) && e !in From(KeysOf(c), n)
    ensures n in KeysOf(Remove(c, e))
    ensures From(KeysOf(Remove(c, e)), n) == From(KeysOf(c), n)
  {
    var q := KeysOf(c);
    var t := c[1..];
    assert q == [c[0].key] + KeysOf(t);
    assert q[1..] == KeysOf(t);
    FromIs(q, n);
    if q[0] == n {
      KeyAbsent(t, e);
      assert KeysOf(Remove(c, e)) == q;
    } else if q[0] != e {
      KeysRemoved(t, e, n);
      assert KeysOf(Remove(c, e)) == [q[0]] + KeysOf(Remove(t, e));
      FromPush(KeysOf(Remove(t, e)), q[0], n);
    }
  }

  lemma {:induction false} KeyAbsent<K, V>(c: Chain<K, V>, e: K)
    requires e !in KeysOf(c)
    ensures Remove(c, e) == c
  {
    if c != [] {
      assert KeysOf(c)[0] == c[0].key;
      assert KeysOf(c)[1..] == KeysOf(c[1..]);
      KeyAbsent(c[1..], e);
    }
  }

  /** A key is in a bucket exactly when a lookup that goes there finds it. */
  lemma InBucket<K(!new), V>(hash: K -> Word, t: Buckets<K, V>, b: nat, k: K)
    requires TableOk(hash, t) && b < |t|
    ensures Distinct(KeysOf(t[b]))
    ensures k in KeysOf(t[b]) <==> Slot(hash(k), |t|) == b && Lookup(hash, t, k).Some?
  {
    var q := KeysOf(t[b]);
    assert NoDup(t[b]) && AllAt(hash, t[b], |t|, b);
    FindSome(t[b], k);
    if k in q {
      var j :| 0 <= j < |q| && q[j] == k;
      assert t[b][j].key == k;
    }
    if Slot(hash(k), |t|) == b && Lookup(hash, t, k).Some? {
      var j :| 0 <= j < |t[b]| && t[b][j].key == k;
      assert q[j] == k;
    }
  }

  // What a walk has still to give.

  ghost predicate AheadIn<K(!new), V>(hash: K -> Word, t: Buckets<K, V>, it: Iter<K>, k: K)
    requires TableOk(hash, t) && t != []
  {
    var b := Slot(hash(k), |t|);
    || b > it.index
    || (b == it.index && it.entry.Some? && it.next.Some? && k in From(KeysOf(t[b]), it.next.value))
  }

  ghost predicate Ahead<K(!new), V>(hash: K -> Word, s: State<K, V>, it: Iter<K>, k: K)
    requires Inv(hash, s)
  {
    if Lookup(hash, s.t0, k).Some? then it.table == 0 && AheadIn(hash, s.t0, it, k)
    else Lookup(hash, s.t1, k).Some? && (it.table == 0 || AheadIn(hash, s.t1, it, k))
  }

  /** Nothing has been given yet. */
  lemma AheadBegin<K(!new), V>(hash: K -> Word, s: State<K, V>, it: Iter<K>, k: K)
    requires Inv(hash, s) && !Started(it)
    ensures Ahead(hash, s, it, k) <==> Get(hash, s, k).Some?
  {
  }

  lemma InTable<K(!new), V>(hash: K -> Word, s: State<K, V>, it: Iter<K>, k: K)
    requires Inv(hash, s) && it.table <= 1 && 0 <= it.index < |Table(s, it.table)|
    ensures Distinct(Current(s, it))
    ensures k in Current(s, it) <==>
              Lookup(hash, Table(s, it.table), k).Some? && Slot(hash(k), |Table(s, it.table)|) == it.index
    ensures k in Current(s, it) ==> Get(hash, s, k).Some?
    ensures k in Current(s, it) && it.table == 1 ==> Lookup(hash, s.t0, k).None?
  {
    InBucket(hash, Table(s, it.table), it.index, k);
  }

  /** Moving along the chain. */
  lemma FollowOk<K(!new), V>(hash: K -> Word, s: State<K, V>, it: Iter<K>, k: K)
    requires Inv(hash, s) && ItOk(s, it) && it.entry.Some? && it.next.Some?
    ensures var r := it.(entry := it.next, next := After(Current(s, it), it.next.value));
            && ItOk(s, r) && Ahead(hash, s, it, it.next.value)
            && (Ahead(hash, s, r, k) <==> Ahead(hash, s, it, k) && k != it.next.value)
  {
    hide Inv, TableOk, Slot, Lookup;
    assert Inv(hash, s) ==> TableOk(hash, s.t0) && TableOk(hash, s.t1) by { InvTables(hash, s); }
    var n := it.next.value;
    var q := Current(s, it);
    InTable(hash, s, it, n);
    InTable(hash, s, it, k);
    FromIs(q, n);
    var f := From(q, n);
    assert f == [n] + f[1..];
  }

  lemma InvTables<K(!new), V>(hash: K -> Word, s: State<K, V>)
    requires Inv(hash, s)
    ensures TableOk(hash, s.t0) && TableOk(hash, s.t1) && (s.Rehashing() <==> s.t1 != [])
  {
  }

  /** Arriving at a non-empty bucket. */
  lemma HeadOk<K(!new), V>(hash: K -> Word, s: State<K, V>, it: Iter<K>, k: K)
    requires Inv(hash, s) && ItOk(s, it) && Started(it) && it.entry.None? && Current(s, it) != []
    ensures var q := Current(s, it);
            var r := it.(entry := Some(q[0]), next := After(q, q[0]));
            && ItOk(s, r) && q[0] in q
            && (Ahead(hash, s, r, k) <==> (Ahead(hash, s, it, k) || k in q) && k != q[0])
  {
    hide Inv, TableOk, Slot, Lookup;
    InvTables(hash, s);
    var q := Current(s, it);
    InTable(hash, s, it, q[0]);
    InTable(hash, s, it, k);
    FromIs(q, q[0]);
    assert q == [q[0]] + q[1..];
  }

  /** What one call gives: the entry was ahead and is not any more, all else is
      unchanged; nothing is given only when nothing is ahead. */
  ghost predicate Gives<K(!new), V>(hash: K -> Word, s: State<K, V>, todo: bool, r: Iter<K>, k: K)
    requires Inv(hash, s)
  {
    if r.entry.Some? then
      ItOk(s, r) && Started(r) && (Ahead(hash, s, r, k) <==> todo && k != r.entry.value) && (k == r.entry.value ==> todo)
    else !todo
  }

  lemma {:induction false} WalkOk<K(!new), V>(hash: K -> Word, s: State<K, V>, it: Iter<K>, k: K)
    requires Inv(hash, s) && ItOk(s, it) && s.iterators >= 1
    ensures Gives(hash, s, Ahead(hash, s, it, k), Walk(hash, s, it), k)
    decreases Left(s, it), if it.entry.Some? then 1 else 0
  {
    hide Inv, TableOk, Slot, Lookup, Ahead, ItOk, Land, From;
    if it.entry.Some? && it.next.Some? {
      FollowOk(hash, s, it, k);
      StartedOk(s, it);
    } else if it.entry.Some? {
      ChainDone(hash, s, it, k);
      WalkOk(hash, s, it.(entry := None), k);
    } else {
      WalkOn(hash, s, it, k);
    }
  }

  lemma StartedOk<K(!new), V>(s: State<K, V>, it: Iter<K>)
    requires ItOk(s, it) && it.entry.Some?
    ensures Started(it)
  {
  }

  lemma ChainDone<K(!new), V>(hash: K -> Word, s: State<K, V>, it: Iter<K>, k: K)
    requires Inv(hash, s) && ItOk(s, it) && it.entry.Some? && it.next.None?
    ensures ItOk(s, it.(entry := None)) && Left(s, it.(entry := None)) == Left(s, it)
    ensures Ahead(hash, s, it.(entry := None), k) <==> Ahead(hash, s, it, k)
  {
  }

  lemma {:induction false} WalkOn<K(!new), V>(hash: K -> Word, s: State<K, V>, it: Iter<K>, k: K)
    requires Inv(hash, s) && ItOk(s, it) && s.iterators >= 1 && it.entry.None?
    ensures Gives(hash, s, Ahead(hash, s, it, k), Walk(hash, s, it), k)
    decreases Left(s, it), 0
  {
    hide Gives, From;
    InvTables(hash, s);
    if it.index + 1 < |Table(s, it.table)| {
      NextBucket(hash, s, it, k);
      LandOk(hash, s, it.(index := it.index + 1), k);
    } else if s.Rehashing() && it.table == 0 {
      NextTable(hash, s, it, k);
      LandOk(hash, s, it.(table := 1, index := 0), k);
    } else {
      WalkEnds(hash, s, it, k);
    }
  }

  ghost predicate Here<K(!new), V>(s: State<K, V>, it: Iter<K>, k: K)
    requires it.table <= 1 && 0 <= it.index < |Table(s, it.table)|
  {
    k in Current(s, it)
  }

  lemma NextBucket<K(!new), V>(hash: K -> Word, s: State<K, V>, it: Iter<K>, k: K)
    requires Inv(hash, s) && ItOk(s, it) && s.iterators >= 1 && it.entry.None?
    requires it.index + 1 < |Table(s, it.table)|
    ensures var r := it.(index := it.index + 1);
            ItOk(s, r) && Started(r) && (Ahead(hash, s, it, k) <==> Ahead(hash, s, r, k) || Here(s, r, k))
  {
    hide From;
    InTable(hash, s, it.(index := it.index + 1), k);
  }

  lemma NextTable<K(!new), V>(hash: K -> Word, s: State<K, V>, it: Iter<K>, k: K)
    requires Inv(hash, s) && ItOk(s, it) && s.iterators >= 1 && it.entry.None?
    requires it.index + 1 >= |s.t0| && s.Rehashing() && it.table == 0
    ensures var r := it.(table := 1, index := 0);
            ItOk(s, r) && Started(r) && Left(s, r) < Left(s, it) &&
            (Ahead(hash, s, it, k) <==> Ahead(hash, s, r, k) || Here(s, r, k))
  {
    hide From;
    InTable(hash, s, it.(table := 1, index := 0), k);
  }

  lemma WalkEnds<K(!new), V>(hash: K -> Word, s: State<K, V>, it: Iter<K>, k: K)
    requires Inv(hash, s) && ItOk(s, it) && s.iterators >= 1 && it.entry.None?
    requires it.index + 1 >= |Table(s, it.table)| && !(s.Rehashing() && it.table == 0)
    ensures Gives(hash, s, Ahead(hash, s, it, k), it.(index := it.index + 1), k)
  {
    hide From;
  }

  lemma {:induction false} LandOk<K(!new), V>(hash: K -> Word, s: State<K, V>, it: Iter<K>, k: K)
    requires Inv(hash, s) && ItOk(s, it) && Started(it) && it.entry.None?
    ensures Gives(hash, s, Ahead(hash, s, it, k) || Here(s, it, k), Land(hash, s, it), k)
    decreases Left(s, it), 2
  {
    hide Inv, TableOk, Slot, Lookup, Ahead, From, Walk;
    if Current(s, it) == [] {
      WalkOn(hash, s, it, k);
    } else {
      HeadOk(hash, s, it, k);
    }
  }

  // What the caller may do between calls.

  /** During a walk: no direct rehashing, no delete but of the entry just given, and
      this iterator stays registered. */
  predicate Allowed<K(==), V>(it: Iter<K>, op: Op<K, V>) {
    Started(it) ==>
      match op
      case OpDelete(k) => it.entry == Some(k)
      case OpRehash(_) => false
      case OpIterate(n) => n >= 1
      case _ => true
  }

  /** A change that leaves every key of the map where it was and the rest of the
      walked chain as it was. */
  ghost predicate Undisturbed<K(!new), V>(hash: K -> Word, s: State<K, V>, r: State<K, V>, it: Iter<K>)
    requires Inv(hash, s) && Inv(hash, r) && ItOk(s, it)
  {
    && s.t0 != [] && |r.t0| == |s.t0| && (s.t1 != [] ==> |r.t1| == |s.t1|)
    && (s.Rehashing() ==> r.Rehashing()) && r.iterators >= 1
    && (forall k :: Get(hash, s, k).Some? && Get(hash, r, k).Some? ==>
          Lookup(hash, s.t0, k).Some? == Lookup(hash, r.t0, k).Some?)
    && (it.entry.Some? && it.next.Some? ==>
          && it.next.value in Current(r, it)
          && From(Current(r, it), it.next.value) == From(Current(s, it), it.next.value))
  }

  lemma UndisturbedAhead<K(!new), V>(hash: K -> Word, s: State<K, V>, r: State<K, V>, it: Iter<K>, k: K)
    requires Inv(hash, s) && Inv(hash, r) && ItOk(s, it) && Started(it) && Undisturbed(hash, s, r, it)
    ensures ItOk(r, it)
    ensures Get(hash, s, k).Some? && Get(hash, r, k).Some? ==>
              (Ahead(hash, r, it, k) <==> Ahead(hash, s, it, k))
  {
    hide TableOk, From;
  }

  lemma BusyTable<K(!new), V>(hash: K -> Word, s: State<K, V>, it: Iter<K>)
    requires Inv(hash, s) && ItOk(s, it) && Started(it)
    ensures s.t0 != [] && MaybeStep(hash, s) == s
  {
  }

  lemma ExpandUndisturbed<K(!new), V>(hash: K -> Word, s: State<K, V>, it: Iter<K>, size: nat)
    requires Inv(hash, s) && ItOk(s, it) && Started(it) && size <= Pow2(MAX_BITS)
    ensures Inv(hash, Expand(s, size)) && Undisturbed(hash, s, Expand(s, size), it)
  {
    hide TableOk, From;
    BusyTable(hash, s, it);
    ExpandOk(hash, s, size);
  }

  lemma GrowthUndisturbed<K(!new), V>(hash: K -> Word, s: State<K, V>, it: Iter<K>, canResize: bool)
    requires Inv(hash, s) && Doublable(s) && ItOk(s, it) && Started(it)
    ensures Inv(hash, Prelude(hash, s, canResize)) && Undisturbed(hash, s, Prelude(hash, s, canResize), it)
  {
    hide Inv, Expand, From, Undisturbed, Pow2, MaybeStep, ItOk, Started, Get, Lookup;
    BusyTable(hash, s, it);
    PreludeOk(hash, s, canResize);
    if Prelude(hash, s, canResize) == s {
      NoChange(hash, s, it);
    } else {
      assert s.used0 * 2 <= Pow2(MAX_BITS) by { DoubleFits(s); }
      ExpandUndisturbed(hash, s, it, s.used0 * 2);
    }
  }

  lemma DoubleFits<K, V>(s: State<K, V>)
    requires Doublable(s)
    ensures s.used0 * 2 <= Pow2(MAX_BITS)
  {
    assert Pow2(MAX_BITS) == 2 * Pow2(MAX_BITS - 1);
  }

  lemma NoChange<K(!new), V>(hash: K -> Word, s: State<K, V>, it: Iter<K>)
    requires Inv(hash, s) && ItOk(s, it) && Started(it)
    ensures Undisturbed(hash, s, s, it)
  {
    BusyTable(hash, s, it);
  }

  lemma LinkUndisturbed<K(!new), V>(hash: K -> Word, s: State<K, V>, it: Iter<K>, e: Entry<K, V>)
    requires Inv(hash, s) && ItOk(s, it) && Started(it) && s.t0 != [] && Get(hash, s, e.key).None?
    ensures Inv(hash, Link(hash, s, e)) && Undisturbed(hash, s, Link(hash, s, e), it)
  {
    hide From;
    LinkOk(hash, s, e);
    PushOk(hash, if s.Rehashing() then s.t1 else s.t0, e);
    if it.entry.Some? && it.next.Some? {
      var n := it.next.value;
      InTable(hash, s, it, n);
      LinkCurrent(hash, s, it, e);
      FromPush(Current(s, it), e.key, n);
    }
  }

  lemma LinkCurrent<K(!new), V>(hash: K -> Word, s: State<K, V>, it: Iter<K>, e: Entry<K, V>)
    requires Inv(hash, s) && ItOk(s, it) && Started(it) && s.t0 != []
    ensures var q := Current(s, it);
            var r := Link(hash, s, e);
            it.index < |Table(r, it.table)| && (Current(r, it) == q || Current(r, it) == [e.key] + q)
  {
    hide TableOk;
    var c := Table(s, it.table)[it.index];
    assert KeysOf([e] + c) == [e.key] + KeysOf(c);
  }

  lemma SetUndisturbed<K(!new), V>(hash: K -> Word, s: State<K, V>, it: Iter<K>, k: K, v: V)
    requires Inv(hash, s) && ItOk(s, it) && Started(it) && s.t0 != [] && Get(hash, s, k).Some?
    ensures var r := Rebucket(hash, s, k, c => SetVal(c, k, v));
            Inv(hash, r) && Undisturbed(hash, s, r, it)
  {
    hide From;
    var r := Rebucket(hash, s, k, c => SetVal(c, k, v));
    SetValOk(hash, s, k, v);
    var b0 := Slot(hash(k), |s.t0|);
    SetAtOk(hash, if Find(s.t0[b0], k).Some? then s.t0 else s.t1, k, v);
    var c := Table(s, it.table)[it.index];
    SetValChain(c, k, v);
    assert KeysOf(SetVal(c, k, v)) == KeysOf(c);
    assert Current(r, it) == Current(s, it);
  }

  lemma RemoveUndisturbed<K(!new), V>(hash: K -> Word, s: State<K, V>, it: Iter<K>, k: K)
    requires Inv(hash, s) && ItOk(s, it) && Started(it) && it.entry == Some(k)
    ensures Inv(hash, Delete(hash, s, k)) && Undisturbed(hash, s, Delete(hash, s, k), it)
  {
    hide From;
    BusyTable(hash, s, it);
    DeleteRefinesMap(hash, s, k);
    var b0 := Slot(hash(k), |s.t0|);
    RemoveAtOk(hash, if Find(s.t0[b0], k).Some? || !s.Rehashing() then s.t0 else s.t1, k);
    var r := Delete(hash, s, k);
    if it.next.Some? {
      var c := Table(s, it.table)[it.index];
      InTable(hash, s, it, k);
      KeysRemoved(c, k, it.next.value);
      assert Current(r, it) == KeysOf(c) || Current(r, it) == KeysOf(Remove(c, k));
    }
  }

  /** An allowed operation changes the place of no key that stays. */
  lemma OpKeepsWalk<K(!new), V>(hash: K -> Word, s: State<K, V>, it: Iter<K>, op: Op<K, V>, k: K)
    requires Inv(hash, s) && Doublable(s) && ItOk(s, it) && Allowed(it, op)
    ensures var r := Apply(hash, s, op);
            && Inv(hash, r) && ItOk(r, it)
            && (Get(hash, s, k).Some? && Get(hash, r, k).Some? ==>
                  (Ahead(hash, r, it, k) <==> Ahead(hash, s, it, k)))
  {
    hide Inv, ItOk, Get, Ahead, Doublable, Undisturbed, Add, Replace, Delete, Rehash, Expand, MaybeStep, Pow2;
    ApplyInv(hash, s, op);
    var r := Apply(hash, s, op);
    if Started(it) {
      match op
      case OpAdd(x, v, can) => AddKeepsWalk(hash, s, it, x, v, can, k);
      case OpReplace(x, v, can) => ReplaceKeepsWalk(hash, s, it, x, v, can, k);
      case _ =>
        OtherUndisturbed(hash, s, it, op);
        UndisturbedAhead(hash, s, r, it, k);
    } else {
      BeginOk(s, r, it);
      AheadBegin(hash, s, it, k);
      AheadBegin(hash, r, it, k);
    }
  }

  lemma BeginOk<K(!new), V>(s: State<K, V>, r: State<K, V>, it: Iter<K>)
    requires ItOk(s, it) && !Started(it)
    ensures ItOk(r, it)
  {
  }

  lemma ApplyInv<K(!new), V>(hash: K -> Word, s: State<K, V>, op: Op<K, V>)
    requires Inv(hash, s) && Doublable(s)
    ensures Inv(hash, Apply(hash, s, op))
  {
    hide Add, Replace, Delete, Rehash, Expand, MaybeStep, Get, Doublable, Pow2, TableOk, Lookup;
    match op
    case OpAdd(k, v, can) => AddRefinesMap(hash, s, k, v, can);
    case OpReplace(k, v, can) => ReplaceRefinesMap(hash, s, k, v, can);
    case OpDelete(k) => DeleteRefinesMap(hash, s, k);
    case OpFind => MaybeStepOk(hash, s);
    case OpRehash(n) => RehashOk(hash, s, n);
    case OpExpand(size) => if size <= Pow2(MAX_BITS) { ExpandOk(hash, s, size); }
    case OpIterate(n) =>
  }

  lemma OtherUndisturbed<K(!new), V>(hash: K -> Word, s: State<K, V>, it: Iter<K>, op: Op<K, V>)
    requires Inv(hash, s) && Doublable(s) && ItOk(s, it) && Started(it) && Allowed(it, op)
    requires !op.OpAdd? && !op.OpReplace?
    ensures Inv(hash, Apply(hash, s, op)) && Undisturbed(hash, s, Apply(hash, s, op), it)
  {
    hide Inv, ItOk, Get, Doublable, Expand, Delete, MaybeStep, Rehash, Undisturbed;
    BusyTable(hash, s, it);
    NoChange(hash, s, it);
    match op
    case OpDelete(k) => RemoveUndisturbed(hash, s, it, k);
    case OpFind =>
    case OpExpand(size) => if size <= Pow2(MAX_BITS) { ExpandUndisturbed(hash, s, it, size); }
    case OpIterate(n) => CountUndisturbed(hash, s, it, n);
  }

  lemma CountUndisturbed<K(!new), V>(hash: K -> Word, s: State<K, V>, it: Iter<K>, n: nat)
    requires Inv(hash, s) && ItOk(s, it) && Started(it) && n >= 1
    ensures Inv(hash, s.(iterators := n)) && Undisturbed(hash, s, s.(iterators := n), it)
  {
    BusyTable(hash, s, it);
  }

  lemma AddKeepsWalk<K(!new), V>(hash: K -> Word, s: State<K, V>, it: Iter<K>, x: K, v: V, canResize: bool, k: K)
    requires Inv(hash, s) && Doublable(s) && ItOk(s, it) && Started(it)
    ensures var r := Add(hash, s, x, v, canResize);
            && Inv(hash, r) && ItOk(r, it)
            && (Get(hash, s, k).Some? && Get(hash, r, k).Some? ==>
                  (Ahead(hash, r, it, k) <==> Ahead(hash, s, it, k)))
  {
    hide Inv, ItOk, Get, Ahead, Doublable, Prelude, Link, Undisturbed;
    PreludeOk(hash, s, canResize);
    var p := Prelude(hash, s, canResize);
    GrowthUndisturbed(hash, s, it, canResize);
    UndisturbedAhead(hash, s, p, it, k);
    if Get(hash, p, x).None? {
      LinkUndisturbed(hash, p, it, Entry(x, v));
      UndisturbedAhead(hash, p, Link(hash, p, Entry(x, v)), it, k);
    }
  }

  lemma ReplaceKeepsWalk<K(!new), V>(hash: K -> Word, s: State<K, V>, it: Iter<K>, x: K, v: V, canResize: bool, k: K)
    requires Inv(hash, s) && Doublable(s) && ItOk(s, it) && Started(it)
    ensures var r := Replace(hash, s, x, v, canResize);
            && Inv(hash, r) && ItOk(r, it)
            && (Get(hash, s, k).Some? && Get(hash, r, k).Some? ==>
                  (Ahead(hash, r, it, k) <==> Ahead(hash, s, it, k)))
  {
    hide Inv, ItOk, Get, Ahead, Doublable, Prelude, Link, Undisturbed, MaybeStep, Rebucket;
    PreludeOk(hash, s, canResize);
    var p := Prelude(hash, s, canResize);
    GrowthUndisturbed(hash, s, it, canResize);
    UndisturbedAhead(hash, s, p, it, k);
    if Get(hash, p, x).None? {
      LinkUndisturbed(hash, p, it, Entry(x, v));
      UndisturbedAhead(hash, p, Link(hash, p, Entry(x, v)), it, k);
    } else {
      BusyTable(hash, p, it);
      SetUndisturbed(hash, p, it, x, v);
      UndisturbedAhead(hash, p, Rebucket(hash, p, x, c => SetVal(c, x, v)), it, k);
    }
  }

  // Whole walks.

  datatype Event<K, V> = Next | Do(op: Op<K, V>)

  ghost predicate WalkStep<K(!new), V>(hash: K -> Word, s: State<K, V>, it: Iter<K>, ev: Event<K, V>,
                                       s': State<K, V>, it': Iter<K>)
    requires Inv(hash, s) && Doublable(s) && ItOk(s, it)
  {
    match ev
    case Next => RegisterOk(hash, s, it); s' == Register(s, it) && it' == Walk(hash, s', it)
    case Do(op) => Allowed(it, op) && s' == Apply(hash, s, op) && it' == it
  }

  lemma RegisterOk<K(!new), V>(hash: K -> Word, s: State<K, V>, it: Iter<K>)
    requires Inv(hash, s) && ItOk(s, it)
    ensures Inv(hash, Register(s, it)) && ItOk(Register(s, it), it) && Register(s, it).iterators >= 1
    ensures forall k :: Get(hash, Register(s, it), k) == Get(hash, s, k)
    ensures forall k :: Ahead(hash, Register(s, it), it, k) == Ahead(hash, s, it, k)
  {
  }

  /** A walk from a new iterator to the call that gives nothing. */
  ghost predicate IsWalk<K(!new), V>(hash: K -> Word, ss: seq<State<K, V>>, its: seq<Iter<K>>, evs: seq<Event<K, V>>) {
    && evs != [] && |ss| == |its| == |evs| + 1
    && Inv(hash, ss[0]) && its[0] == Begin()
    && (forall i :: 0 <= i < |ss| ==> Doublable(ss[i]))
    && (forall i :: 0 <= i < |evs| ==>
          Inv(hash, ss[i]) && Doublable(ss[i]) && ItOk(ss[i], its[i]) ==>
            WalkStep(hash, ss[i], its[i], evs[i], ss[i + 1], its[i + 1]))
    && (forall i :: 0 <= i < |evs| && evs[i].Next? ==> (its[i + 1].entry.None? <==> i == |evs| - 1))
    && evs[|evs| - 1].Next?
  }

  /** How often the first `n` events give key `k`. */
  ghost function Given<K(!new), V>(its: seq<Iter<K>>, evs: seq<Event<K, V>>, k: K, n: nat): nat
    requires n <= |evs| < |its|
  {
    if n == 0 then 0
    else Given(its, evs, k, n - 1) + if evs[n - 1].Next? && its[n].entry == Some(k) then 1 else 0
  }

  lemma StepCounts<K(!new), V>(hash: K -> Word, s: State<K, V>, it: Iter<K>, ev: Event<K, V>,
                               s': State<K, V>, it': Iter<K>, k: K)
    requires Inv(hash, s) && Doublable(s) && ItOk(s, it) && WalkStep(hash, s, it, ev, s', it')
    requires ev.Next? ==> it'.entry.Some?
    ensures Inv(hash, s') && ItOk(s', it')
    ensures Get(hash, s, k).Some? && Get(hash, s', k).Some? ==>
              (Ahead(hash, s, it, k) <==> Ahead(hash, s', it', k) || (ev.Next? && it'.entry == Some(k)))
    ensures ev.Next? && it'.entry == Some(k) ==> Ahead(hash, s, it, k) && !Ahead(hash, s', it', k)
  {
    hide Inv, ItOk, Ahead, Get, Walk, Register;
    if ev.Next? {
      RegisterOk(hash, s, it);
      WalkOk(hash, s', it, k);
    } else {
      OpKeepsWalk(hash, s, it, ev.op, k);
    }
  }

  lemma {:induction false} WalkCounts<K(!new), V>(hash: K -> Word, ss: seq<State<K, V>>, its: seq<Iter<K>>,
                                                  evs: seq<Event<K, V>>, k: K, n: nat)
    requires IsWalk(hash, ss, its, evs) && n < |evs|
    requires forall i :: 0 <= i < |ss| && Inv(hash, ss[i]) ==> Get(hash, ss[i], k).Some?
    ensures Inv(hash, ss[n]) && ItOk(ss[n], its[n])
    ensures Given(its, evs, k, n) == if Ahead(hash, ss[n], its[n], k) then 0 else 1
  {
    hide Inv, ItOk, Ahead, Get, WalkStep, Doublable;
    if n == 0 {
      BeginsOk(hash, ss[0], k);
    } else {
      WalkCounts(hash, ss, its, evs, k, n - 1);
      StepCounts(hash, ss[n - 1], its[n - 1], evs[n - 1], ss[n], its[n], k);
    }
  }

  lemma BeginsOk<K(!new), V>(hash: K -> Word, s: State<K, V>, k: K)
    requires Inv(hash, s)
    ensures ItOk(s, Begin<K>())
    ensures Ahead(hash, s, Begin<K>(), k) <==> Get(hash, s, k).Some?
  {
  }

  /** A key that is in the dictionary from the first call to the last is given exactly
      once, whatever the caller does that is allowed in between. */
  lemma WalkGivesOnce<K(!new), V>(hash: K -> Word, ss: seq<State<K, V>>, its: seq<Iter<K>>,
                                  evs: seq<Event<K, V>>, k: K)
    requires IsWalk(hash, ss, its, evs)
    requires forall i :: 0 <= i < |ss| && Inv(hash, ss[i]) ==> Get(hash, ss[i], k).Some?
    ensures Given(its, evs, k, |evs|) == 1
  {
    hide Inv, ItOk, Ahead, Get, Walk, Register, Doublable;
    var n := |evs| - 1;
    WalkCounts(hash, ss, its, evs, k, n);
    RegisterOk(hash, ss[n], its[n]);
    WalkOk(hash, ss[n + 1], its[n], k);
  }
}
