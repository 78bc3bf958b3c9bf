/**
 dict.c: the iterator object. `Next` is proved equal to the walk of DictIter on the
 abstract state of the dictionary.
 */
module DictIterator {
  import opened Options
  import opened Words
  import opened DictModel
  import Ops = DictOps
  import opened DictIter
  import D = Dict

  class SafeIterator<K(!new, ==), V> {
    const d: D.Dict<K, V>
    var table: nat
    var index: int
    var entry: Option<K>
    var nextEntry: Option<K>

    ghost function I(): Iter<K>
      reads this
    {
      Iter(table, index, entry, nextEntry)
    }

    ghost predicate Valid()
      reads this, d, d.ht0, d.ht1
    {
      d.Valid() && ItOk(d.S(), I())
    }

    constructor (d: D.Dict<K, V>)
      requires d.Valid()
      ensures this.d == d && Valid() && I() == Begin()
    {
      this.d := d;
      table, index, entry, nextEntry := 0, -1, None, None;
    }

    /** `dictNext` of a safe iterator. */
    method Next() returns (r: Option<Entry<K, V>>)
      requires Valid()
      modifies this, d`iterators
      ensures d.Valid() && d.S() == Register(old(d.S()), old(I()))
      ensures ItOk(d.S(), old(I())) && d.iterators >= 1
      ensures I() == Walk(d.hash, d.S(), old(I()))
      ensures r.Some? <==> entry.Some?
      ensures r.Some? ==> Valid() && r.value.key == entry.value
      ensures r.Some? ==> Ops.Get(d.hash, d.S(), r.value.key) == Some(r.value.val)
    {
      hide Ops.Inv, ItOk, From;
      ghost var s, it := Register(d.S(), I()), I();
      RegisterOk(d.hash, d.S(), I());
      if index == -1 && table == 0 { d.iterators := d.iterators + 1; }
      while true
        invariant d.S() == s && Ops.Inv(d.hash, s) && ItOk(s, I()) && s.iterators >= 1
        invariant Walk(d.hash, s, I()) == Walk(d.hash, s, it)
        decreases Left(s, I()), if entry.Some? then 1 else 0
      {
        var end := Turn();
        if end { return None; }
        if entry.Some? {
          var ht := if table == 0 then d.ht0 else d.ht1;
          BucketGet(d.hash, s, I(), entry.value);
          nextEntry := After(KeysOf(ht[index]), entry.value);
          return Some(Entry(entry.value, Find(ht[index], entry.value).value));
        }
      }
    }

    /** One turn of the loop, up to where the entry it found is examined. */
    method Turn() returns (end: bool)
      requires Valid() && d.iterators >= 1
      modifies this`table, this`index, this`entry
      ensures end ==> I() == Walk(d.hash, d.S(), old(I())) && entry.None?
      ensures !end ==> table <= 1 && 0 <= index < |Table(d.S(), table)|
      ensures !end && entry.None? ==>
                && ItOk(d.S(), I()) && Walk(d.hash, d.S(), I()) == Walk(d.hash, d.S(), old(I()))
                && (Left(d.S(), I()) < Left(d.S(), old(I())) ||
                    (Left(d.S(), I()) == Left(d.S(), old(I())) && old(entry).Some?))
      ensures !end && entry.Some? ==>
                var r := I().(next := After(Current(d.S(), I()), entry.value));
                entry.value in Current(d.S(), I()) && ItOk(d.S(), r) && r == Walk(d.hash, d.S(), old(I()))
    {
      hide Ops.Inv, ItOk, After, From;
      ghost var s, was := d.S(), I();
      if entry.None? {
        var ht := if table == 0 then d.ht0 else d.ht1;
        TableSize(s, was);
        index := index + 1;
        if index >= ht.Length {
          if d.rehashidx != -1 && table == 0 {
            table, index, ht := 1, 0, d.ht1;
          } else {
            return true;
          }
        }
        LandsOk(d.hash, s, was, I());
        entry := if |ht[index]| == 0 then None else Some(ht[index][0].key);
      } else {
        FollowsOk(d.hash, s, was);
        entry := nextEntry;
      }
      return false;
    }
  }

  lemma TableSize<K(!new), V>(s: State<K, V>, it: Iter<K>)
    requires ItOk(s, it)
    ensures it.table <= 1 && it.index >= -1
  {
  }

  /** The next bucket, or the first one of the new table. */
  lemma LandsOk<K(!new), V>(hash: K -> Word, s: State<K, V>, it: Iter<K>, r: Iter<K>)
    requires Ops.Inv(hash, s) && ItOk(s, it) && s.iterators >= 1 && it.entry.None?
    requires r == if it.index + 1 < |Table(s, it.table)| then it.(index := it.index + 1)
                  else it.(table := 1, index := 0)
    requires it.index + 1 < |Table(s, it.table)| || (s.Rehashing() && it.table == 0)
    ensures ItOk(s, r) && Started(r) && Left(s, r) < Left(s, it)
    ensures r.table <= 1 && 0 <= r.index < |Table(s, r.table)|
    ensures Walk(hash, s, it) == Land(hash, s, r)
    ensures Current(s, r) != [] ==>
              ItOk(s, r.(entry := Some(Current(s, r)[0]), next := After(Current(s, r), Current(s, r)[0])))
  {
    hide From, After, Ops.Inv;
    RoomFor(hash, s);
    LandsAt(s, it, r);
    if Current(s, r) != [] { HeadOk(hash, s, r, Current(s, r)[0]); }
  }

  lemma RoomFor<K(!new), V>(hash: K -> Word, s: State<K, V>)
    requires Ops.Inv(hash, s)
    ensures s.Rehashing() ==> s.t1 != []
  {
  }

  lemma LandsAt<K(!new), V>(s: State<K, V>, it: Iter<K>, r: Iter<K>)
    requires ItOk(s, it) && s.iterators >= 1 && it.entry.None? && (s.Rehashing() ==> s.t1 != [])
    requires r == if it.index + 1 < |Table(s, it.table)| then it.(index := it.index + 1)
                  else it.(table := 1, index := 0)
    requires it.index + 1 < |Table(s, it.table)| || (s.Rehashing() && it.table == 0)
    ensures ItOk(s, r) && Started(r) && Left(s, r) < Left(s, it)
    ensures r.table <= 1 && 0 <= r.index < |Table(s, r.table)|
  {
    hide From, Current;
  }

  lemma FollowsOk<K(!new), V>(hash: K -> Word, s: State<K, V>, it: Iter<K>)
    requires Ops.Inv(hash, s) && ItOk(s, it) && it.entry.Some?
    ensures it.table <= 1 && 0 <= it.index < |Table(s, it.table)| && s.iterators >= 1
    ensures it.next.None? ==> ItOk(s, it.(entry := None))
    ensures it.next.Some? ==> it.next.value in Current(s, it)
    ensures it.next.Some? ==> ItOk(s, it.(entry := it.next, next := After(Current(s, it), it.next.value)))
  {
    hide From;
    if it.next.Some? { FollowOk(hash, s, it, it.next.value); }
  }

  lemma BucketGet<K(!new), V>(hash: K -> Word, s: State<K, V>, it: Iter<K>, k: K)
    requires Ops.Inv(hash, s) && it.table <= 1 && 0 <= it.index < |Table(s, it.table)| && k in Current(s, it)
    ensures Find(Table(s, it.table)[it.index], k).Some?
    ensures Ops.Get(hash, s, k) == Find(Table(s, it.table)[it.index], k)
  {
    InTable(hash, s, it, k);
  }
}
