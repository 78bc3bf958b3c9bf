/**
 dict.c: a dictionary with two bucket arrays updated in place. `S()` is the
 abstract state; every method is proved equal to the operation of the same name
 on that state.
 */
module Dict {
  import opened Options
  import opened Words
  import opened DictModel
  import Ops = DictOps

  class Dict<K(!new, ==), V> {
    const hash: K -> Word
    var ht0: array<Chain<K, V>>
    var ht1: array<Chain<K, V>>
    var used0: nat
    var used1: nat
    var rehashidx: int
    var iterators: nat

    ghost function S(): State<K, V>
      reads this, ht0, ht1
    {
      State(ht0[..], ht1[..], used0, used1, rehashidx, iterators)
    }

    ghost predicate Valid()
      reads this, ht0, ht1
    {
      ht0 != ht1 && Ops.Inv(hash, S())
    }

    constructor (hash: K -> Word)
      ensures Valid() && fresh(ht0) && fresh(ht1)
      ensures S() == Ops.Create() && this.hash == hash
    {
      this.hash := hash;
      ht0 := new Chain<K, V>[0];
      ht1 := new Chain<K, V>[0];
      used0, used1, rehashidx, iterators := 0, 0, -1, 0;
    }

    /** `dictRehash`: up to `n` rounds; true while a rehash is still in progress. */
    method Rehash(n: nat) returns (more: bool)
      requires Valid()
      modifies this, ht0, ht1
      ensures Valid() && fresh({ht0, ht1} - old({ht0, ht1}))
      ensures S() == Ops.Rehash(hash, old(S()), n)
      ensures more == S().Rehashing()
    {
      hide Ops.RehashStep, Ops.Inv;
      var left := n;
      while left > 0 && rehashidx != -1
        invariant 0 <= left <= n
        invariant Valid() && fresh({ht0, ht1} - old({ht0, ht1}))
        invariant Ops.Rehash(hash, S(), left) == Ops.Rehash(hash, old(S()), n)
      {
        Round();
        left := left - 1;
      }
      return rehashidx != -1;
    }

    /** One round: install the new table when the old one is empty, else move a bucket. */
    method Round()
      requires Valid() && S().Rehashing()
      modifies this, ht0, ht1
      ensures Valid() && fresh({ht0, ht1} - old({ht0, ht1}))
      ensures S() == Ops.RehashStep(hash, old(S()))
    {
      Ops.RehashStepOk(hash, S());
      if used0 == 0 {
        ht0, used0 := ht1, used1;
        ht1 := new Chain<K, V>[0];
        used1, rehashidx := 0, -1;
        assert S() == Ops.RehashStep(hash, old(S()));
      } else {
        MoveBucket();
      }
    }

    /** Skips empty buckets, then relinks every entry of the first non-empty one. */
    method MoveBucket()
      requires Valid() && S().Rehashing() && used0 > 0
      modifies this`used0, this`used1, this`rehashidx, ht0, ht1
      ensures S() == Ops.RehashStep(hash, old(S()))
    {
      ghost var s := S();
      Ops.RehashInBounds(hash, s);
      SkipEmpty();
      TotalUpdate(s.t0, rehashidx, []);
      MoveChain(ht0[rehashidx]);
      ht0[rehashidx] := [];
      assert ht0[..] == s.t0[rehashidx := []];
      rehashidx := rehashidx + 1;
    }

    /** Moves on to the next bucket with entries. */
    method SkipEmpty()
      requires 0 <= rehashidx && exists j :: rehashidx <= j < ht0.Length && ht0[j] != []
      modifies this`rehashidx
      ensures rehashidx == Ops.FirstNonEmpty(ht0[..], old(rehashidx))
    {
      while |ht0[rehashidx]| == 0
        invariant old(rehashidx) <= rehashidx < ht0.Length
        invariant exists j :: rehashidx <= j < ht0.Length && ht0[j] != []
        invariant forall j :: old(rehashidx) <= j < rehashidx ==> ht0[j] == []
        decreases ht0.Length - rehashidx
      {
        rehashidx := rehashidx + 1;
      }
    }

    /** Relinks the entries of a chain into the new table, one by one. */
    method MoveChain(c: Chain<K, V>)
      requires ht0 != ht1 && PowerOfTwo(ht1.Length) && used0 >= |c|
      modifies this`used0, this`used1, ht1
      ensures ht1[..] == PushAll(hash, old(ht1[..]), c)
      ensures used0 == old(used0) - |c| && used1 == old(used1) + |c|
    {
      hide PowerOfTwo, Slot;
      var de := c;
      while |de| > 0
        invariant |de| <= |c| && PushAll(hash, ht1[..], de) == PushAll(hash, old(ht1[..]), c)
        invariant used0 == old(used0) - |c| + |de| && used1 == old(used1) + |c| - |de|
        decreases |de|
      {
        var h := Slot(hash(de[0].key), ht1.Length);
        ghost var t := ht1[..];
        ht1[h] := [de[0]] + ht1[h];
        assert ht1[..] == Push(hash, t, de[0]);
        used0 := used0 - 1;
        used1 := used1 + 1;
        de := de[1..];
      }
      assert de == [];
    }

    method RehashStep()
      requires Valid()
      modifies this, ht0, ht1
      ensures Valid() && fresh({ht0, ht1} - old({ht0, ht1}))
      ensures S() == Ops.MaybeStep(hash, old(S()))
    {
      if rehashidx != -1 && iterators == 0 {
        Round();
      }
    }

    method NextPower(size: nat) returns (i: nat)
      requires size <= Pow2(MAX_BITS)
      ensures i == Ops.NextPower(size)
    {
      i := INITIAL_SIZE;
      while i < size
        invariant i > 0 && Ops.NextPowerFrom(i, size) == Ops.NextPower(size)
        decreases size - i
      {
        i := i * 2;
      }
    }

    /** `dictExpand`. */
    method Expand(size: nat) returns (ok: bool)
      requires Valid() && size <= Pow2(MAX_BITS)
      modifies this
      ensures Valid() && fresh({ht0, ht1} - old({ht0, ht1}))
      ensures S() == Ops.Expand(old(S()), size)
      ensures ok == (!old(S()).Rehashing() && old(used0) <= size)
    {
      hide Pow2;
      Ops.ExpandOk(hash, S(), size);
      var realsize := NextPower(size);
      if rehashidx != -1 || used0 > size { return false; }
      var n := new Chain<K, V>[realsize](_ => []);
      assert n[..] == Empty<K, V>(realsize);
      if ht0.Length == 0 {
        ht0, used0 := n, 0;
      } else {
        ht1, used1, rehashidx := n, 0, 0;
      }
      return true;
    }

    method ExpandIfNeeded(canResize: bool) returns (ok: bool)
      requires Valid() && Ops.Doublable(S())
      modifies this
      ensures Valid() && fresh({ht0, ht1} - old({ht0, ht1}))
      ensures S() == Ops.ExpandIfNeeded(old(S()), canResize)
      ensures ok
    {
      assert Pow2(MAX_BITS) == 2 * Pow2(MAX_BITS - 1);
      Pow2Mono(2, MAX_BITS);
      if rehashidx != -1 { return true; }
      if ht0.Length == 0 {
        ok := Expand(INITIAL_SIZE);
      } else if used0 >= ht0.Length && (canResize || used0 / ht0.Length > FORCE_RESIZE_RATIO) {
        ok := Expand(used0 * 2);
      } else {
        ok := true;
      }
    }

    /** Walks a chain looking for a key. */
    static method SearchChain(c: Chain<K, V>, k: K) returns (j: int)
      ensures -1 <= j < |c|
      ensures j == -1 ==> Find(c, k).None?
      ensures j >= 0 ==> c[j].key == k && Find(c, k) == Some(c[j].val)
      ensures j >= 0 ==> forall i :: 0 <= i < j ==> c[i].key != k
    {
      j := 0;
      while j < |c|
        invariant 0 <= j <= |c|
        invariant Find(c, k) == Find(c[j..], k)
        invariant forall i :: 0 <= i < j ==> c[i].key != k
      {
        if c[j].key == k { return; }
        j := j + 1;
      }
      j := -1;
    }

    /** The slot a missing key would take, or -1 for a present key. */
    method KeyIndex(k: K, canResize: bool) returns (index: int)
      requires Valid() && Ops.Doublable(S())
      modifies this
      ensures Valid() && fresh({ht0, ht1} - old({ht0, ht1}))
      ensures S() == Ops.ExpandIfNeeded(old(S()), canResize) && ht0.Length > 0
      ensures index == -1 <==> Ops.Get(hash, S(), k).Some?
      ensures index != -1 ==> index == Slot(hash(k), if S().Rehashing() then ht1.Length else ht0.Length)
    {
      Ops.ExpandIfNeededOk(hash, S(), canResize);
      var ok := ExpandIfNeeded(canResize);
      if !ok { return -1; }
      var idx: nat := Slot(hash(k), ht0.Length);
      var j := SearchChain(ht0[idx], k);
      if j >= 0 { return -1; }
      SlotFits(hash(k), ht0.Length);
      if rehashidx != -1 {
        idx := Slot(hash(k), ht1.Length);
        j := SearchChain(ht1[idx], k);
        if j >= 0 { return -1; }
        SlotFits(hash(k), ht1.Length);
      }
      return AsInt(idx);
    }

    /** `dictAdd`. */
    method Add(k: K, v: V, canResize: bool) returns (ok: bool)
      requires Valid() && Ops.Doublable(S())
      modifies this, ht0, ht1
      ensures Valid() && fresh({ht0, ht1} - old({ht0, ht1}))
      ensures S() == Ops.Add(hash, old(S()), k, v, canResize)
      ensures ok == Ops.Get(hash, old(S()), k).None?
    {
      hide Pow2, Ops.RehashStep, Ops.Inv, Ops.Get;
      Ops.PreludeOk(hash, S(), canResize);
      Ops.MaybeStepOk(hash, S());
      RehashStep();
      var index := KeyIndex(k, canResize);
      assert S() == Ops.Prelude(hash, old(S()), canResize);
      if index == -1 { return false; }
      Ops.LinkOk(hash, S(), Entry(k, v));
      LinkAt(index, Entry(k, v));
      return true;
    }

    method LinkAt(index: nat, e: Entry<K, V>)
      requires Valid() && ht0.Length > 0
      requires index == Slot(hash(e.key), if rehashidx != -1 then ht1.Length else ht0.Length)
      modifies this`used0, this`used1, ht0, ht1
      ensures S() == Ops.Link(hash, old(S()), e)
    {
      if rehashidx != -1 {
        ht1[index] := [e] + ht1[index];
        used1 := used1 + 1;
      } else {
        ht0[index] := [e] + ht0[index];
        used0 := used0 + 1;
      }
    }

    /** `dictFind`: which table and where in the chain. */
    method Locate(k: K) returns (found: bool, table: nat, b: nat, j: nat)
      requires Valid()
      modifies this, ht0, ht1
      ensures Valid() && fresh({ht0, ht1} - old({ht0, ht1}))
      ensures S() == if old(ht0.Length) == 0 then old(S()) else Ops.MaybeStep(hash, old(S()))
      ensures found == Ops.Get(hash, S(), k).Some?
      ensures found ==> table <= 1
      ensures found ==>
                var t := if table == 0 then ht0 else ht1;
                && (table == 0 <==> Lookup(hash, ht0[..], k).Some?)
                && t.Length > 0 && b == Slot(hash(k), t.Length)
                && j < |t[b]| && t[b][j].key == k && Ops.Get(hash, S(), k) == Some(t[b][j].val)
                && (forall i :: 0 <= i < j ==> t[b][i].key != k)
    {
      found, table, b, j := false, 0, 0, 0;
      if ht0.Length == 0 { return; }
      Ops.MaybeStepOk(hash, S());
      RehashStep();
      b := Slot(hash(k), ht0.Length);
      var i := SearchChain(ht0[b], k);
      if i >= 0 { return true, 0, b, i; }
      if rehashidx == -1 { return; }
      b := Slot(hash(k), ht1.Length);
      i := SearchChain(ht1[b], k);
      if i >= 0 { return true, 1, b, i; }
    }

    method FetchValue(k: K) returns (r: Option<V>)
      requires Valid()
      modifies this, ht0, ht1
      ensures Valid() && fresh({ht0, ht1} - old({ht0, ht1}))
      ensures r == Ops.Get(hash, old(S()), k)
      ensures forall k' :: Ops.Get(hash, S(), k') == Ops.Get(hash, old(S()), k')
    {
      Ops.MaybeStepOk(hash, S());
      var found, table, b, j := Locate(k);
      if !found { return None; }
      r := Some(if table == 0 then ht0[b][j].val else ht1[b][j].val);
    }

    /** `dictReplace`: true when the key was added from scratch. */
    method Replace(k: K, v: V, canResize: bool) returns (added: bool)
      requires Valid() && Ops.Doublable(S())
      modifies this, ht0, ht1
      ensures Valid() && fresh({ht0, ht1} - old({ht0, ht1}))
      ensures S() == Ops.Replace(hash, old(S()), k, v, canResize)
      ensures added == Ops.Get(hash, old(S()), k).None?
    {
      Ops.PreludeOk(hash, S(), canResize);
      Ops.ReplaceRefinesMap(hash, S(), k, v, canResize);
      added := Add(k, v, canResize);
      if added { return; }
      ghost var p := S();
      Ops.MaybeStepOk(hash, p);
      SetExisting(k, v);
    }

    method SetExisting(k: K, v: V)
      requires Valid() && Ops.Get(hash, S(), k).Some? && ht0.Length > 0
      modifies this, ht0, ht1
      ensures fresh({ht0, ht1} - old({ht0, ht1})) && ht0 != ht1
      ensures Ops.Inv(hash, Ops.MaybeStep(hash, old(S())))
      ensures Ops.MaybeStep(hash, old(S())).t0 != []
      ensures S() == Ops.Rebucket(hash, Ops.MaybeStep(hash, old(S())), k, c => SetVal(c, k, v))
    {
      Ops.MaybeStepOk(hash, S());
      var found, table, b, j := Locate(k);
      var t := if table == 0 then ht0 else ht1;
      SetValAt(t[b], j, v);
      t[b] := t[b][j := Entry(k, v)];
    }

    /** `dictDelete`. */
    method Delete(k: K) returns (ok: bool)
      requires Valid()
      modifies this, ht0, ht1
      ensures Valid() && fresh({ht0, ht1} - old({ht0, ht1}))
      ensures S() == Ops.Delete(hash, old(S()), k)
      ensures ok == Ops.Get(hash, old(S()), k).Some?
    {
      Ops.MaybeStepOk(hash, S());
      var found, table, b, j := Locate(k);
      if old(ht0.Length) > 0 { Ops.RemoveOk(hash, S(), k); }
      if found { Unlink(k, table, b, j); } else { Ops.DeleteAbsent(hash, old(S()), k); }
      return found;
    }

    method Unlink(k: K, table: nat, b: nat, j: nat)
      requires Valid() && table <= 1 && ht0.Length > 0 && Ops.Get(hash, S(), k).Some?
      requires var t := if table == 0 then ht0 else ht1;
               && (table == 0 <==> Lookup(hash, ht0[..], k).Some?)
               && t.Length > 0 && b == Slot(hash(k), t.Length)
               && j < |t[b]| && t[b][j].key == k && (forall i :: 0 <= i < j ==> t[b][i].key != k)
      modifies this`used0, this`used1, ht0, ht1
      ensures var q := Ops.Rebucket(hash, old(S()), k, c => Remove(c, k));
              S() == q.(used0 := Total(q.t0), used1 := Total(q.t1))
    {
      var t := if table == 0 then ht0 else ht1;
      RemoveAt(t[b], j);
      TotalUpdate(t[..], b, t[b][..j] + t[b][j + 1..]);
      t[b] := t[b][..j] + t[b][j + 1..];
      if table == 0 { used0 := used0 - 1; } else { used1 := used1 - 1; }
    }
  }
}
