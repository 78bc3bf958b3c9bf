/**
 kvolve_internal.c: version chains of namespaces and the migration of a string to the
 current version when it is read.
 */
module Kvolve {
  import opened Options

  type Fun = string -> string

  /** An update: the functions that take a value from one version to the next. */
  datatype Info = Info(fromNs: string, toNs: string, fromVers: int, toVers: int, funs: seq<Fun>)

  /** `info[i]` is the update that led to `versions[i]`. */
  datatype Namespace = Namespace(prev: Option<string>, versions: seq<int>, info: seq<Option<Info>>)

  type Registry = map<string, Namespace>

  // Version chains.

  ghost predicate Shaped(v: Namespace) {
    |v.versions| == |v.info| && v.versions != []
  }

  ghost predicate Distinct(q: seq<int>) {
    forall i, j :: 0 <= i < j < |q| ==> q[i] != q[j]
  }

  /** Each update leads from the version before to its own. */
  ghost predicate Linked(v: Namespace) {
    && Shaped(v)
    && v.info[0].None?
    && forall i :: 1 <= i < |v.info| ==>
         && v.info[i].Some?
         && v.info[i].value.fromVers == v.versions[i - 1]
         && v.info[i].value.toVers == v.versions[i]
  }

  ghost predicate GoodChain(v: Namespace) {
    Linked(v) && Distinct(v.versions)
  }

  function Last(v: Namespace): int
    requires v.versions != []
  {
    v.versions[|v.versions| - 1]
  }

  /** A chain with one more version. */
  function Extend(v: Namespace, i: Info): Namespace {
    v.(versions := v.versions + [i.toVers], info := v.info + [Some(i)])
  }

  /** One more update keeps a chain good exactly when it starts from the last version
      and leads to a new one. */
  lemma ExtendGood(v: Namespace, i: Info)
    requires Shaped(v)
    ensures GoodChain(Extend(v, i)) <==> GoodChain(v) && i.fromVers == Last(v) && i.toVers !in v.versions
  {
    var w := Extend(v, i);
    var n := |v.versions|;
    assert w.versions[n] == i.toVers && w.info[n] == Some(i);
    assert forall k :: 0 <= k < n ==> w.versions[k] == v.versions[k] && w.info[k] == v.info[k];
    if GoodChain(w) {
      assert w.info[n].value.fromVers == w.versions[n - 1];
      forall k | 1 <= k < n
        ensures v.info[k].Some? && v.info[k].value.fromVers == v.versions[k - 1] && v.info[k].value.toVers == v.versions[k]
      {
        assert w.info[k].Some?;
      }
    }
  }

  /** What `kvolve_upd_spec` checks before it accepts an update. */
  predicate Accepted(r: Registry, i: Info) {
    && i.fromNs in r
    && if i.fromNs != i.toNs then i.toNs !in r
       else
         var v := r[i.fromNs];
         && i.toVers !in v.versions
         && (v.prev.None? ==> v.versions != [] && Last(v) == i.fromVers)
  }

  /** `kvolve_upd_spec`: a new namespace starts with a copy of the old one's chain. */
  function UpdSpec(r: Registry, i: Info): Registry {
    if !Accepted(r, i) then r
    else if i.fromNs != i.toNs then r[i.toNs := Extend(r[i.fromNs], i).(prev := Some(i.fromNs))]
    else r[i.toNs := Extend(r[i.toNs], i)]
  }

  /** `kvolve_create_ns` without a predecessor. */
  function Declare(r: Registry, ns: string, v0: int): Registry {
    if ns in r then r else r[ns := Namespace(None, [v0], [None])]
  }

  datatype Step = Create(ns: string, v0: int) | Upgrade(info: Info)

  function Apply(r: Registry, s: Step): Registry {
    match s
    case Create(ns, v0) => Declare(r, ns, v0)
    case Upgrade(i) => UpdSpec(r, i)
  }

  function Run(r: Registry, ss: seq<Step>): Registry
    decreases |ss|
  {
    if ss == [] then r else Run(Apply(r, ss[0]), ss[1..])
  }

  /** Every namespace has a chain, a good one if it has no predecessor, and then all
      its updates are its own. */
  ghost predicate Inv(r: Registry) {
    forall ns :: ns in r ==>
      && Shaped(r[ns])
      && (r[ns].prev.None? ==> GoodChain(r[ns]) && Own(r[ns], ns))
  }

  ghost predicate Own(v: Namespace, ns: string) {
    forall i :: 0 <= i < |v.info| && v.info[i].Some? ==> v.info[i].value.fromNs == ns
  }

  lemma ApplyKeepsChains(r: Registry, s: Step)
    requires Inv(r)
    ensures Inv(Apply(r, s))
  {
    match s {
      case Create(ns, v0) =>
      case Upgrade(i) =>
        if Accepted(r, i) { ExtendGood(r[i.fromNs], i); }
    }
  }

  /** Whatever is declared and upgraded, and however many specifications are refused, a
      namespace without predecessor has distinct versions, each linked to the next. */
  lemma {:induction false} RunKeepsChains(r: Registry, ss: seq<Step>)
    requires Inv(r)
    ensures Inv(Run(r, ss))
    decreases |ss|
  {
    if ss != [] {
      ApplyKeepsChains(r, ss[0]);
      RunKeepsChains(Apply(r, ss[0]), ss[1..]);
    }
  }

  /** The checks are too weak for a namespace that has a predecessor: it is created
      with any version, and from then on the version an update starts from is not
      compared with the last one. Its chain stays good exactly when the caller gives
      the right numbers. */
  lemma SuccessorChain(r: Registry, i: Info)
    requires Inv(r) && Accepted(r, i) && (i.fromNs != i.toNs || r[i.toNs].prev.Some?)
    ensures GoodChain(UpdSpec(r, i)[i.toNs]) <==>
              && GoodChain(r[i.fromNs])
              && i.fromVers == Last(r[i.fromNs])
              && i.toVers !in r[i.fromNs].versions
  {
    var v := r[i.fromNs];
    ExtendGood(v, i);
    var w := Extend(v, i);
    assert GoodChain(w.(prev := Some(i.fromNs))) <==> GoodChain(w);
  }

  lemma SuccessorChainBroken()
    ensures var r := Declare(map[], "a", 5);
            var i := Info("a", "b", 7, 5, []);
            Inv(r) && Accepted(r, i) && !Distinct(UpdSpec(r, i)["b"].versions) && !Linked(UpdSpec(r, i)["b"])
  {
    var i := Info("a", "b", 7, 5, []);
    var w := UpdSpec(Declare(map[], "a", 5), i)["b"];
    assert w.versions == [5, 5] && w.info == [None, Some(i)];
    assert w.versions[0] == w.versions[1];
    assert w.info[1].value.fromVers != w.versions[0];
  }

  // Migrating a value.

  function ApplyFuns(fs: seq<Fun>, val: string): string {
    if fs == [] then val else fs[|fs| - 1](ApplyFuns(fs[..|fs| - 1], val))
  }

  /** A value that the functions take, one after the other from the first, from `x` to `y`. */
  ghost predicate Through(fs: seq<Fun>, x: string, y: string) {
    exists xs: seq<string> :: Trace(fs, x, y, xs)
  }

  ghost predicate Trace(fs: seq<Fun>, x: string, y: string, xs: seq<string>) {
    && |xs| == |fs| + 1 && xs[0] == x && xs[|fs|] == y
    && forall j :: 0 <= j < |fs| ==> xs[j + 1] == fs[j](xs[j])
  }

  lemma {:induction false} FunsTrace(fs: seq<Fun>, x: string) returns (xs: seq<string>)
    ensures Trace(fs, x, ApplyFuns(fs, x), xs)
  {
    if fs == [] {
      xs := [x];
    } else {
      var n := |fs| - 1;
      var ys := FunsTrace(fs[..n], x);
      xs := ys + [ApplyFuns(fs, x)];
      forall j | 0 <= j < |fs| ensures xs[j + 1] == fs[j](xs[j]) {
        if j < n { assert fs[..n][j] == fs[j]; }
      }
    }
  }

  lemma {:induction false} TraceApplies(fs: seq<Fun>, x: string, y: string, xs: seq<string>)
    requires Trace(fs, x, y, xs)
    ensures y == ApplyFuns(fs, x)
  {
    if fs != [] {
      var n := |fs| - 1;
      TraceApplies(fs[..n], x, xs[n], xs[..n + 1]);
      assert xs[n + 1] == fs[n](xs[n]);
    }
  }

  /** The functions of an update run from the first to the last, each on what the one
      before it gave. */
  lemma ApplyFunsIs(fs: seq<Fun>, x: string, y: string)
    ensures Through(fs, x, y) <==> y == ApplyFuns(fs, x)
  {
    hide Trace, ApplyFuns;
    var xs := FunsTrace(fs, x);
    if Through(fs, x, y) {
      var ys :| Trace(fs, x, y, ys);
      TraceApplies(fs, x, y, ys);
    }
  }

  function Funs(v: Namespace, i: nat): seq<Fun>
    requires i < |v.info|
  {
    if v.info[i].Some? then v.info[i].value.funs else []
  }

  /** The first version equal to `vers`, or -1. */
  function IndexOf(q: seq<int>, vers: int): (i: int)
    ensures -1 <= i < |q|
    ensures i == -1 <==> vers !in q
    ensures i >= 0 ==> q[i] == vers && vers !in q[..i]
  {
    if q == [] then -1
    else if IndexOf(q[..|q| - 1], vers) >= 0 then
      assert q[..|q| - 1][..IndexOf(q[..|q| - 1], vers)] == q[..IndexOf(q[..|q| - 1], vers)];
      IndexOf(q[..|q| - 1], vers)
    else if q[|q| - 1] == vers then |q| - 1 else -1
  }

  /** A value stored at version index `j` after the updates up to index `n`. */
  function Migrated(v: Namespace, j: int, n: int, val: string): string
    requires -1 <= j <= n < |v.info|
    decreases n - j
  {
    if n == j then val else ApplyFuns(Funs(v, n), Migrated(v, j, n - 1, val))
  }

  /** The values a string stored at version index `j` has at each later version up to `n`. */
  ghost predicate Upgrades(v: Namespace, j: int, n: int, ys: seq<string>)
    requires -1 <= j <= n < |v.info|
  {
    && |ys| == n - j + 1
    && forall t :: 0 <= t < n - j ==> Through(Funs(v, j + 1 + t), ys[t], ys[t + 1])
  }

  lemma {:induction false} MigratedIs(v: Namespace, j: int, n: int, val: string) returns (ys: seq<string>)
    requires -1 <= j <= n < |v.info|
    ensures Upgrades(v, j, n, ys) && ys[0] == val && ys[n - j] == Migrated(v, j, n, val)
    decreases n - j
  {
    hide Through, ApplyFuns;
    if n == j {
      ys := [val];
    } else {
      var zs := MigratedIs(v, j, n - 1, val);
      var y := Migrated(v, j, n, val);
      ys := zs + [y];
      ApplyFunsIs(Funs(v, n), zs[n - 1 - j], y);
      forall t | 0 <= t < n - j ensures Through(Funs(v, j + 1 + t), ys[t], ys[t + 1]) {
        if t < n - 1 - j { assert ys[t] == zs[t] && ys[t + 1] == zs[t + 1]; }
      }
    }
  }

  /** The last version's value of a string stored as `x` at version `vers`; a version not
      in the chain counts as older than all of it. */
  ghost predicate BroughtUp(v: Namespace, vers: int, x: string, y: string)
    requires Shaped(v)
  {
    exists j: int, ys: seq<string> ::
      && StoredAt(v, vers, j)
      && Upgrades(v, j, |v.info| - 1, ys) && ys[0] == x && ys[|v.info| - 1 - j] == y
  }

  ghost predicate StoredAt(v: Namespace, vers: int, j: int)
    requires Shaped(v)
  {
    -1 <= j < |v.info| && if j == -1 then vers !in v.versions else v.versions[j] == vers
  }

  lemma LogicalIs(v: Namespace, vers: int, x: string)
    requires Shaped(v)
    ensures BroughtUp(v, vers, x, Logical(v, vers, x))
  {
    hide Migrated, Through, IndexOf;
    var j := IndexOf(v.versions, vers);
    var ys := MigratedIs(v, j, |v.info| - 1, x);
    assert StoredAt(v, vers, j);
  }

  /** The value as the current version sees it. */
  function Logical(v: Namespace, vers: int, val: string): string
    requires Shaped(v)
  {
    Migrated(v, IndexOf(v.versions, vers), |v.info| - 1, val)
  }

  lemma LastIndex(v: Namespace)
    requires GoodChain(v)
    ensures IndexOf(v.versions, Last(v)) == |v.versions| - 1
  {
    var i := IndexOf(v.versions, Last(v));
    assert v.versions[i] == v.versions[|v.versions| - 1];
  }

  /** How a string is held: as its bytes, or as one of the shared small integers. */
  datatype Encoding = Raw | SharedInt

  class Object {
    var vers: int
    var ptr: string
    const encoding: Encoding

    constructor (vers: int, ptr: string, encoding: Encoding)
      ensures this.vers == vers && this.ptr == ptr && this.encoding == encoding
    {
      this.vers, this.ptr, this.encoding := vers, ptr, encoding;
    }
  }

  class Server {
    var versList: Registry
    var updFunRunning: bool

    ghost predicate Valid()
      reads this
    {
      Inv(versList)
    }

    constructor ()
      ensures Valid() && versList == map[] && !updFunRunning
    {
      versList, updFunRunning := map[], false;
    }

    /** `kvolve_upd_spec`; false when the update is refused. */
    method UpdateSpec(i: Info) returns (ok: bool)
      requires Valid()
      modifies this`versList
      ensures Valid() && ok == Accepted(old(versList), i)
      ensures versList == UpdSpec(old(versList), i)
      ensures ok <==>
                && i.fromNs in old(versList)
                && (i.fromNs != i.toNs ==> i.toNs !in old(versList))
                && (i.fromNs == i.toNs ==> i.toVers !in old(versList)[i.toNs].versions)
                && (i.fromNs == i.toNs && old(versList)[i.toNs].prev.None? ==>
                      Last(old(versList)[i.toNs]) == i.fromVers)
      ensures !ok ==> versList == old(versList)
      ensures ok ==> i.fromNs in old(versList) && i.toNs in versList
      ensures ok ==> versList[i.toNs].versions == old(versList)[i.fromNs].versions + [i.toVers]
      ensures ok ==> versList[i.toNs].info == old(versList)[i.fromNs].info + [Some(i)]
      ensures forall ns :: ns != i.toNs ==> (ns in versList <==> ns in old(versList))
      ensures forall ns :: ns != i.toNs && ns in versList ==> versList[ns] == old(versList)[ns]
    {
      ApplyKeepsChains(versList, Upgrade(i));
      if i.fromNs !in versList { return false; }
      var v := versList[i.fromNs];
      if i.fromNs != i.toNs {
        if i.toNs in versList { return false; }
        versList := versList[i.toNs := Namespace(Some(i.fromNs), v.versions + [i.toVers], v.info + [Some(i)])];
        return true;
      }
      for k := 0 to |v.versions|
        invariant i.toVers !in v.versions[..k]
        invariant versList == old(versList)
      {
        if v.versions[k] == i.toVers { return false; }
        assert v.versions[..k + 1] == v.versions[..k] + [v.versions[k]];
      }
      assert v.versions[..|v.versions|] == v.versions;
      if v.prev.None? && Last(v) != i.fromVers { return false; }
      versList := versList[i.toNs := v.(versions := v.versions + [i.toVers], info := v.info + [Some(i)])];
      return true;
    }

    /** `kvolve_check_update_kv_pair` for a string of a namespace without predecessor:
        the updates after the one it was stored with are applied in order, each once.
        Strings that are shared integers carry no version. */
    method CheckUpdate(ns: string, o: Object)
      requires Valid() && ns in versList && versList[ns].prev.None?
      modifies this`updFunRunning, o
      ensures updFunRunning == old(updFunRunning)
      ensures old(updFunRunning) || o.encoding.SharedInt? ==> o.vers == old(o.vers) && o.ptr == old(o.ptr)
      ensures !old(updFunRunning) && o.encoding.Raw? ==>
                o.vers == Last(versList[ns]) && o.ptr == Logical(versList[ns], old(o.vers), old(o.ptr))
      ensures !old(updFunRunning) && o.encoding.Raw? ==> BroughtUp(versList[ns], old(o.vers), old(o.ptr), o.ptr)
    {
      hide IndexOf, Migrated, BroughtUp;
      var v := versList[ns];
      LogicalIs(v, o.vers, o.ptr);
      LastIndex(v);
      CurrentUnchanged(v, o.vers, o.ptr);
      if updFunRunning || o.encoding.SharedInt? || o.vers == Last(v) { return; }
      updFunRunning := true;
      var j := Position(v.versions, o.vers);
      assert v.info[j + 1].Some? ==> v.info[j + 1].value.fromNs == ns;
      Migrate(v, o, j);
      updFunRunning := false;
    }
  }

  lemma CurrentUnchanged(v: Namespace, vers: int, val: string)
    requires GoodChain(v)
    ensures vers == Last(v) ==> Logical(v, vers, val) == val
  {
    LastIndex(v);
  }

  /** All updates after version index `j`, one version at a time. */
  method Migrate(v: Namespace, o: Object, j: int)
    requires Shaped(v) && -1 <= j < |v.versions| - 1
    modifies o
    ensures o.vers == Last(v) && o.ptr == Migrated(v, j, |v.info| - 1, old(o.ptr))
    ensures exists ys :: Upgrades(v, j, |v.info| - 1, ys) && ys[0] == old(o.ptr) && ys[|v.info| - 1 - j] == o.ptr
  {
    hide ApplyFuns, Upgrades;
    ghost var ys := MigratedIs(v, j, |v.info| - 1, o.ptr);
    var k := j;
    while k < |v.versions| - 1
      invariant j <= k < |v.versions| && o.ptr == Migrated(v, j, k, old(o.ptr))
      invariant k > j ==> o.vers == v.versions[k]
    {
      if v.info[k + 1].Some? { RunFuns(v.info[k + 1].value.funs, o); } else { NoFuns(o.ptr); }
      o.vers := v.versions[k + 1];
      k := k + 1;
    }
  }

  lemma NoFuns(val: string)
    ensures ApplyFuns([], val) == val
  {
  }

  method RunFuns(funs: seq<Fun>, o: Object)
    modifies o`ptr
    ensures o.ptr == ApplyFuns(funs, old(o.ptr)) && Through(funs, old(o.ptr), o.ptr)
  {
    hide Through;
    ApplyFunsIs(funs, o.ptr, ApplyFuns(funs, o.ptr));
    for f := 0 to |funs|
      invariant o.ptr == ApplyFuns(funs[..f], old(o.ptr))
    {
      assert funs[..f + 1][..f] == funs[..f];
      o.ptr := funs[f](o.ptr);
    }
    assert funs[..|funs|] == funs;
  }

  method Position(q: seq<int>, vers: int) returns (j: int)
    ensures j == IndexOf(q, vers)
  {
    j := -1;
    for i := 0 to |q|
      invariant j == -1 && vers !in q[..i]
    {
      if q[i] == vers {
        IndexIs(q, vers, i);
        return i;
      }
      assert q[..i + 1] == q[..i] + [q[i]];
    }
    assert q[..|q|] == q;
  }

  lemma IndexIs(q: seq<int>, vers: int, i: nat)
    requires i < |q| && q[i] == vers && vers !in q[..i]
    ensures IndexOf(q, vers) == i
  {
    var j := IndexOf(q, vers);
    assert q[i] in q;
    forall k | 0 <= k < i ensures q[k] != vers { assert q[k] == q[..i][k]; }
    forall k | 0 <= k < j ensures q[k] != vers { assert q[k] == q[..j][k]; }
  }

  // Lazy against eager.

  lemma {:induction false} MigratedExtend(v: Namespace, i: Info, j: int, n: int, val: string)
    requires -1 <= j <= n < |v.info|
    ensures Migrated(Extend(v, i), j, n, val) == Migrated(v, j, n, val)
    decreases n - j
  {
    if n > j { MigratedExtend(v, i, j, n - 1, val); }
  }

  /** An upgrade changes what a stored value means by exactly its functions, at
      whichever version the value was left. */
  lemma UpgradeLogical(v: Namespace, i: Info, vers: int, val: string)
    requires Shaped(v) && vers in v.versions
    ensures Logical(Extend(v, i), vers, val) == ApplyFuns(i.funs, Logical(v, vers, val))
  {
    var w, j := Extend(v, i), IndexOf(v.versions, vers);
    assert w.versions[..|v.versions|] == v.versions;
    assert w.versions[..j] == v.versions[..j];
    IndexIs(w.versions, vers, j);
    MigratedExtend(v, i, j, |v.info| - 1, val);
  }

  /** A value at the last version is what it says: a second read changes nothing. */
  lemma ReadLogical(v: Namespace, val: string)
    requires GoodChain(v)
    ensures Logical(v, Last(v), val) == val
  {
    LastIndex(v);
  }

  datatype Event = Extended(info: Info) | Read

  /** A stored value with its version and chain. */
  datatype Stored = Stored(v: Namespace, vers: int, val: string)

  function Next(s: Stored, e: Event): Stored
    requires Shaped(s.v)
  {
    match e
    case Extended(i) => s.(v := Extend(s.v, i))
    case Read => s.(vers := Last(s.v), val := Logical(s.v, s.vers, s.val))
  }

  function Final(s: Stored, es: seq<Event>): (r: Stored)
    requires Shaped(s.v)
    ensures Shaped(r.v)
    decreases |es|
  {
    if es == [] then s else Final(Next(s, es[0]), es[1..])
  }

  /** The same events on a value that every upgrade rewrites at once. */
  function Eager(val: string, es: seq<Event>): string
    decreases |es|
  {
    if es == [] then val
    else Eager(if es[0].Extended? then ApplyFuns(es[0].info.funs, val) else val, es[1..])
  }

  /** The values of that system: each upgrade takes the value through its functions, a
      read changes nothing. */
  ghost predicate EagerTrace(es: seq<Event>, ys: seq<string>) {
    && |ys| == |es| + 1
    && forall t :: 0 <= t < |es| ==>
         if es[t].Extended? then Through(es[t].info.funs, ys[t], ys[t + 1]) else ys[t + 1] == ys[t]
  }

  lemma {:induction false} EagerIs(val: string, es: seq<Event>) returns (ys: seq<string>)
    ensures EagerTrace(es, ys) && ys[0] == val && ys[|es|] == Eager(val, es)
    decreases |es|
  {
    hide Through, ApplyFuns;
    if es == [] {
      ys := [val];
    } else {
      var next := if es[0].Extended? then ApplyFuns(es[0].info.funs, val) else val;
      var zs := EagerIs(next, es[1..]);
      ys := [val] + zs;
      if es[0].Extended? { ApplyFunsIs(es[0].info.funs, val, next); }
      forall t | 0 <= t < |es|
        ensures if es[t].Extended? then Through(es[t].info.funs, ys[t], ys[t + 1]) else ys[t + 1] == ys[t]
      {
        if t > 0 { assert es[t] == es[1..][t - 1] && ys[t] == zs[t - 1] && ys[t + 1] == zs[t]; }
      }
    }
  }

  /** A value after any run of upgrades and reads means what eager migration makes of it:
      every update is applied once, in order. */
  lemma LazyIsEager(s: Stored, es: seq<Event>) returns (ys: seq<string>)
    requires GoodChain(s.v) && s.vers in s.v.versions
    requires GoodChain(Final(s, es).v)
    ensures EagerTrace(es, ys) && ys[0] == Logical(s.v, s.vers, s.val)
    ensures ys[|es|] == Logical(Final(s, es).v, Final(s, es).vers, Final(s, es).val)
  {
    hide Logical, Through;
    LazyEager(s, es);
    ys := EagerIs(Logical(s.v, s.vers, s.val), es);
  }

  lemma {:induction false} LazyEager(s: Stored, es: seq<Event>)
    requires GoodChain(s.v) && s.vers in s.v.versions
    requires GoodChain(Final(s, es).v)
    ensures Logical(Final(s, es).v, Final(s, es).vers, Final(s, es).val) == Eager(Logical(s.v, s.vers, s.val), es)
    decreases |es|
  {
    if es != [] {
      var t := Next(s, es[0]);
      FinalGood(t, es[1..]);
      match es[0] {
        case Extended(i) => UpgradeLogical(s.v, i, s.vers, s.val);
        case Read => ReadLogical(s.v, t.val);
      }
      LazyEager(t, es[1..]);
    }
  }

  lemma {:induction false} FinalGood(s: Stored, es: seq<Event>)
    requires Shaped(s.v) && GoodChain(Final(s, es).v)
    ensures GoodChain(s.v)
    decreases |es|
  {
    if es != [] {
      FinalGood(Next(s, es[0]), es[1..]);
      if es[0].Extended? { ExtendGood(s.v, es[0].info); }
    }
  }
}
