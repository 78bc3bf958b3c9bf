/**
 json_delta_original.py: structural diffs between JSON values and their
 application. A diff is a list of stanzas, each a key path with a new value or a
 deletion; they are sorted globally by kind and last key and applied one by one.
 */
module JsonDelta {
  import opened Options

  datatype Json =
    | Null
    | Bool(b: bool)
    | Num(n: real)
    | Str(s: string)
    | Arr(items: seq<Json>)
    | Obj(fields: map<string, Json>)

  datatype Key = Idx(i: nat) | Name(s: string)

  datatype Act = Set(v: Json) | Del

  datatype Stanza = Stanza(path: seq<Key>, act: Act)

  type Diff = seq<Stanza>

  // Containers by key.

  function Keys(j: Json): set<Key> {
    match j
    case Arr(items) => set i | 0 <= i < |items| :: Idx(i)
    case Obj(fields) => set s | s in fields :: Name(s)
    case _ => {}
  }

  predicate Has(j: Json, k: Key) {
    match (j, k)
    case (Arr(items), Idx(i)) => i < |items|
    case (Obj(fields), Name(s)) => s in fields
    case _ => false
  }

  function At(j: Json, k: Key): (c: Json)
    requires Has(j, k)
    ensures c < j
  {
    if j.Arr? then assert j.items[k.i] in j.items; j.items[k.i] else j.fields[k.s]
  }

  function Lookup(j: Json, k: Key): Option<Json> {
    if Has(j, k) then Some(At(j, k)) else None
  }

  predicate SameKind(a: Json, b: Json) {
    (a.Arr? && b.Arr?) || (a.Obj? && b.Obj?)
  }

  lemma HasKeys(j: Json)
    ensures forall k :: k in Keys(j) <==> Has(j, k)
  {
    forall k ensures k in Keys(j) <==> Has(j, k) {
      match j {
        case Arr(items) => if k.Idx? && k.i < |items| { assert Idx(k.i) in Keys(j); }
        case Obj(fields) => if k.Name? && k.s in fields { assert Name(k.s) in Keys(j); }
        case _ =>
      }
    }
  }

  /** A container is determined by what it holds at each key. */
  lemma Extensional(a: Json, b: Json)
    requires SameKind(a, b) && forall k :: Lookup(a, k) == Lookup(b, k)
    ensures a == b
  {
    if a.Arr? {
      var n, m := |a.items|, |b.items|;
      assert Lookup(a, Idx(m)) == Lookup(b, Idx(m));
      assert Lookup(a, Idx(n)) == Lookup(b, Idx(n));
      forall i | 0 <= i < n ensures a.items[i] == b.items[i] {
        assert Lookup(a, Idx(i)) == Lookup(b, Idx(i));
      }
    } else {
      forall s ensures s in a.fields <==> s in b.fields {
        assert Lookup(a, Name(s)) == Lookup(b, Name(s));
      }
      forall s | s in a.fields ensures a.fields[s] == b.fields[s] {
        assert Lookup(a, Name(s)) == Lookup(b, Name(s));
      }
    }
  }

  // Applying stanzas.

  /** `struc[k] = v`, with the append that a list index one past the end means.
      None is an exception. */
  function Store(j: Json, k: Key, v: Json): Option<Json> {
    match (j, k)
    case (Arr(items), Idx(i)) =>
      if i == |items| then Some(Arr(items + [v])) else if i < |items| then Some(Arr(items[i := v])) else None
    case (Obj(fields), Name(s)) => Some(Obj(fields[s := v]))
    case _ => None
  }

  /** `del struc[k]`. */
  function Remove(j: Json, k: Key): Option<Json> {
    match (j, k)
    case (Arr(items), Idx(i)) => if i < |items| then Some(Arr(items[..i] + items[i + 1..])) else None
    case (Obj(fields), Name(s)) => if s in fields then Some(Obj(fields - {s})) else None
    case _ => None
  }

  /** Deleting from a list closes the gap and keeps every other item in its order;
      deleting what is not there is an exception. */
  lemma RemoveItem(items: seq<Json>, i: nat)
    ensures i >= |items| ==> Remove(Arr(items), Idx(i)) == None
    ensures i < |items| ==>
              exists t :: && Remove(Arr(items), Idx(i)) == Some(Arr(t)) && |t| == |items| - 1
                          && forall k :: 0 <= k < |t| ==> t[k] == items[if k < i then k else k + 1]
  {
    if i < |items| {
      var t := items[..i] + items[i + 1..];
      assert Remove(Arr(items), Idx(i)) == Some(Arr(t));
    }
  }

  /** `patch_stanza`. */
  function PatchStanza(j: Json, path: seq<Key>, act: Act): Option<Json>
    decreases |path|
  {
    if path == [] then (match act case Set(v) => Some(v) case Del => None)
    else if |path| == 1 then (match act case Set(v) => Store(j, path[0], v) case Del => Remove(j, path[0]))
    else if !Has(j, path[0]) then None
    else
      match PatchStanza(At(j, path[0]), path[1..], act)
      case None => None
      case Some(c) => Store(j, path[0], c)
  }

  function PatchAll(j: Json, d: Diff): Option<Json>
    decreases |d|
  {
    if d == [] then Some(j)
    else
      match PatchStanza(j, d[0].path, d[0].act)
      case None => None
      case Some(c) => PatchAll(c, d[1..])
  }

  /** `patch`. */
  method Patch(struc: Json, diff: Diff) returns (r: Option<Json>)
    ensures r == PatchAll(struc, diff)
  {
    var j := struc;
    assert diff[0..] == diff;
    for i := 0 to |diff|
      invariant PatchAll(j, diff[i..]) == PatchAll(struc, diff)
    {
      assert diff[i..][1..] == diff[i + 1..];
      match PatchStanza(j, diff[i].path, diff[i].act)
      case None => return None;
      case Some(c) => j := c;
    }
    return Some(j);
  }

  lemma {:induction false} PatchSnoc(j: Json, d: Diff, s: Stanza)
    ensures PatchAll(j, d + [s]) ==
            match PatchAll(j, d) { case None => None case Some(c) => PatchStanza(c, s.path, s.act) }
    decreases |d|
  {
    hide PatchStanza;
    if d == [] {
      assert d + [s] == [s] && [s][1..] == [];
      match PatchStanza(j, s.path, s.act) { case None => case Some(c) => assert PatchAll(c, []) == Some(c); }
    } else {
      assert (d + [s])[1..] == d[1..] + [s];
      match PatchStanza(j, d[0].path, d[0].act) {
        case None =>
        case Some(c) => PatchSnoc(c, d[1..], s);
      }
    }
  }

  /** Every prefix of a run that succeeds succeeds. */
  lemma {:induction false} PatchPrefix(j: Json, d: Diff, n: nat)
    requires n <= |d| && PatchAll(j, d).Some?
    ensures PatchAll(j, d[..n]).Some?
    decreases |d| - n
  {
    if n < |d| {
      PatchPrefix(j, d, n + 1);
      assert d[..n + 1] == d[..n] + [d[n]];
      PatchSnoc(j, d[..n], d[n]);
    } else {
      assert d[..n] == d;
    }
  }

  // What a diff must say, whatever its order.

  ghost function Elems(d: Diff): set<Stanza> {
    set s | s in d
  }

  ghost predicate NoDup(d: Diff) {
    forall i, j :: 0 <= i < j < |d| ==> d[i] != d[j]
  }

  /** The stanzas under a key, relative to it. */
  ghost function Strip(ss: set<Stanza>, k: Key): set<Stanza> {
    set s | s in ss && s.path != [] && s.path[0] == k :: Stanza(s.path[1..], s.act)
  }

  /** Stanzas that turn `l` into `r`: a replacement, nothing for equal values, or
      container by container exactly what each key needs. */
  ghost predicate Sound(l: Json, r: Json, ss: set<Stanza>)
    decreases l
  {
    || ss == {Stanza([], Set(r))}
    || (ss == {} && l == r)
    || SoundNode(l, r, ss)
  }

  ghost predicate SoundNode(l: Json, r: Json, ss: set<Stanza>)
    decreases l, 0
  {
    && SameKind(l, r)
    && (forall s :: s in ss ==> s.path != [] && (Has(l, s.path[0]) || Has(r, s.path[0])))
    && (forall k :: Has(l, k) && Has(r, k) ==> Sound(At(l, k), At(r, k), Strip(ss, k)))
    && (forall k :: Has(l, k) && !Has(r, k) ==> Strip(ss, k) == {Stanza([], Del)})
    && (forall k :: !Has(l, k) && Has(r, k) ==> Strip(ss, k) == {Stanza([], Set(At(r, k)))})
  }

  /** Paths of different stanzas are never one a prefix of the other. */
  lemma {:induction false} PrefixFree(l: Json, r: Json, ss: set<Stanza>, s: Stanza, t: Stanza)
    requires Sound(l, r, ss) && s in ss && t in ss && s != t
    ensures !(s.path <= t.path)
    decreases l
  {
    if SoundNode(l, r, ss) && s.path <= t.path {
      var k := s.path[0];
      var s', t' := Stanza(s.path[1..], s.act), Stanza(t.path[1..], t.act);
      assert t.path[0] == k;
      assert s' in Strip(ss, k) && t' in Strip(ss, k);
      assert s.path == [k] + s'.path && t.path == [k] + t'.path;
      assert s' != t';
      if Has(l, k) && Has(r, k) { PrefixFree(At(l, k), At(r, k), Strip(ss, k), s', t'); }
    }
  }

  // Order.

  function Last(s: Stanza): Key
    requires s.path != []
  {
    s.path[|s.path| - 1]
  }

  ghost predicate Siblings(s: Stanza, t: Stanza) {
    && s.path != [] && t.path != []
    && s.path[..|s.path| - 1] == t.path[..|t.path| - 1]
    && Last(s).Idx? && Last(t).Idx?
  }

  /** Within one list, values are stored at ascending and deleted at descending
      positions. */
  ghost predicate WellOrdered(d: Diff) {
    forall i, j :: 0 <= i < j < |d| && Siblings(d[i], d[j]) ==>
      && (d[i].act.Set? && d[j].act.Set? ==> Last(d[i]).i <= Last(d[j]).i)
      && (d[i].act.Del? && d[j].act.Del? ==> Last(d[i]).i >= Last(d[j]).i)
  }

  /** The stanzas under a key, in order, relative to it. */
  function Proj(d: Diff, k: Key): Diff {
    if d == [] then []
    else
      var n := |d| - 1;
      var s := d[n];
      Proj(d[..n], k) + if s.path != [] && s.path[0] == k then [Stanza(s.path[1..], s.act)] else []
  }

  lemma {:induction false} ProjElems(d: Diff, k: Key)
    ensures Elems(Proj(d, k)) == Strip(Elems(d), k)
  {
    if d != [] {
      var n := |d| - 1;
      ProjElems(d[..n], k);
      assert Elems(d) == Elems(d[..n]) + {d[n]};
      var e := Strip(Elems(d[..n]), k);
      if d[n].path != [] && d[n].path[0] == k {
        assert Strip(Elems(d), k) == e + {Stanza(d[n].path[1..], d[n].act)};
      } else {
        assert Strip(Elems(d), k) == e;
      }
    }
  }

  /** Where the i-th projected stanza comes from. */
  lemma {:induction false} ProjSource(d: Diff, k: Key) returns (f: seq<nat>)
    ensures |f| == |Proj(d, k)|
    ensures forall i :: 0 <= i < |f| ==>
              f[i] < |d| && d[f[i]].path != [] && d[f[i]].path[0] == k &&
              Proj(d, k)[i] == Stanza(d[f[i]].path[1..], d[f[i]].act)
    ensures forall i, j :: 0 <= i < j < |f| ==> f[i] < f[j]
  {
    if d == [] {
      f := [];
    } else {
      var n := |d| - 1;
      f := ProjSource(d[..n], k);
      if d[n].path != [] && d[n].path[0] == k { f := f + [n]; }
    }
  }

  lemma ProjOrdered(d: Diff, k: Key)
    requires NoDup(d) && WellOrdered(d)
    ensures NoDup(Proj(d, k)) && WellOrdered(Proj(d, k))
  {
    hide Proj;
    var f := ProjSource(d, k);
    var e := Proj(d, k);
    forall i, j | 0 <= i < j < |e|
      ensures e[i] != e[j]
      ensures Siblings(e[i], e[j]) ==>
                && (e[i].act.Set? && e[j].act.Set? ==> Last(e[i]).i <= Last(e[j]).i)
                && (e[i].act.Del? && e[j].act.Del? ==> Last(e[i]).i >= Last(e[j]).i)
    {
      var s, t := d[f[i]], d[f[j]];
      assert s.path == [k] + e[i].path && t.path == [k] + e[j].path;
      assert s != t;
      if Siblings(e[i], e[j]) {
        assert s.path[..|s.path| - 1] == [k] + e[i].path[..|e[i].path| - 1];
        assert t.path[..|t.path| - 1] == [k] + e[j].path[..|e[j].path| - 1];
        assert Siblings(s, t);
      }
    }
  }

  // Sequential application of a sound, well-ordered diff.

  /** What a container must hold at `k` once the stanzas `e` have been applied. */
  ghost function Expect(l: Json, r: Json, e: Diff, k: Key): Option<Json> {
    var done := Proj(e, k);
    if Has(l, k) then
      if Has(r, k) then PatchAll(At(l, k), done)
      else if done == [] then Some(At(l, k)) else None
    else if Has(r, k) && done != [] then Some(At(r, k)) else None
  }

  ghost predicate Reached(l: Json, r: Json, e: Diff, c: Json) {
    SameKind(c, l) && forall k :: Lookup(c, k) == Expect(l, r, e, k)
  }

  /** A sound node diff whose members all do their job. */
  ghost predicate Ready(l: Json, r: Json, d: Diff) {
    && SoundNode(l, r, Elems(d)) && NoDup(d) && WellOrdered(d)
    && forall k :: Has(l, k) && Has(r, k) ==> PatchAll(At(l, k), Proj(d, k)) == Some(At(r, k))
  }

  lemma ProjSnoc(d: Diff, n: nat, k: Key)
    requires n < |d|
    ensures var s := d[n];
            Proj(d[..n + 1], k) ==
              Proj(d[..n], k) + if s.path != [] && s.path[0] == k then [Stanza(s.path[1..], s.act)] else []
  {
    assert d[..n + 1][..n] == d[..n];
  }

  lemma {:induction false} ProjIsPrefix(d: Diff, n: nat, k: Key)
    requires n <= |d|
    ensures Proj(d[..n], k) <= Proj(d, k)
    decreases |d| - n
  {
    if n < |d| {
      ProjIsPrefix(d, n + 1, k);
      ProjSnoc(d, n, k);
    } else {
      assert d[..n] == d;
    }
  }

  lemma {:induction false} ProjSome(d: Diff, k: Key, i: nat)
    requires i < |d| && d[i].path != [] && d[i].path[0] == k
    ensures Proj(d, k) != []
  {
    if i < |d| - 1 { ProjSome(d[..|d| - 1], k, i); }
  }

  lemma {:induction false} ProjNone(d: Diff, k: Key)
    requires forall i :: 0 <= i < |d| ==> d[i].path == [] || d[i].path[0] != k
    ensures Proj(d, k) == []
  {
    if d != [] { ProjNone(d[..|d| - 1], k); }
  }

  lemma OneSidedLeaf(l: Json, r: Json, d: Diff, n: nat)
    requires SoundNode(l, r, Elems(d)) && n < |d|
    requires d[n].path != [] && Has(l, d[n].path[0]) != Has(r, d[n].path[0])
    ensures var k := d[n].path[0];
            d[n] == Stanza([k], if Has(r, k) then Set(At(r, k)) else Del)
  {
    var k := d[n].path[0];
    var t := Stanza(d[n].path[1..], d[n].act);
    assert d[n] in Elems(d);
    assert t in Strip(Elems(d), k);
    assert d[n].path == [k] + d[n].path[1..];
  }

  /** A one-sided key has exactly one stanza, which is a leaf. */
  lemma OneSided(l: Json, r: Json, d: Diff, n: nat)
    requires Ready(l, r, d) && n < |d|
    requires Has(l, d[n].path[0]) != Has(r, d[n].path[0])
    ensures var k := d[n].path[0];
            && d[n] == Stanza([k], if Has(r, k) then Set(At(r, k)) else Del)
            && Proj(d[..n], k) == []
  {
    hide Proj;
    OneSidedLeaf(l, r, d, n);
    forall i | 0 <= i < n ensures d[i].path == [] || d[i].path[0] != d[n].path[0] {
      if d[i].path != [] && d[i].path[0] == d[n].path[0] { OneSidedLeaf(l, r, d, i); }
    }
    ProjNone(d[..n], d[n].path[0]);
  }

  /** Every one-sided key has its stanza. */
  lemma Member(l: Json, r: Json, d: Diff, k: Key) returns (i: nat)
    requires Ready(l, r, d) && Has(l, k) != Has(r, k)
    ensures i < |d| && d[i] == Stanza([k], if Has(r, k) then Set(At(r, k)) else Del)
  {
    hide Proj;
    var t := Stanza([], if Has(r, k) then Set(At(r, k)) else Del);
    assert t in Strip(Elems(d), k);
    var s :| s in Elems(d) && s.path != [] && s.path[0] == k && Stanza(s.path[1..], s.act) == t;
    i :| 0 <= i < |d| && d[i] == s;
    assert s.path == [k] + s.path[1..];
  }

  /** In a list, earlier appends and later deletions are done when it is the turn
      of position `i`. */
  lemma ListTurn(l: Json, r: Json, d: Diff, n: nat, j: nat)
    requires Ready(l, r, d) && n < |d| && l.Arr? && d[n].path[0].Idx?
    requires Has(l, d[n].path[0]) != Has(r, d[n].path[0])
    requires Has(l, Idx(j)) != Has(r, Idx(j))
    requires if Has(r, d[n].path[0]) then j < d[n].path[0].i else j > d[n].path[0].i
    ensures Proj(d[..n], Idx(j)) != []
  {
    hide Proj;
    OneSided(l, r, d, n);
    var m := Member(l, r, d, Idx(j));
    assert d[m].path[..0] == [] && d[n].path[..0] == [];
    assert Siblings(d[m], d[n]) && Siblings(d[n], d[m]);
    assert m < n;
    ProjSome(d[..n], Idx(j), m);
  }

  lemma StoreHere(c: Json, k: Key, v: Json)
    requires Has(c, k) || (c.Obj? && k.Name?) || (c.Arr? && k == Idx(|c.items|))
    ensures var t := Store(c, k, v);
            && t.Some? && SameKind(t.value, c)
            && forall j :: Lookup(t.value, j) == if j == k then Some(v) else Lookup(c, j)
  {
  }

  lemma RemoveHere(c: Json, k: Key)
    requires Has(c, k) && (c.Arr? ==> k == Idx(|c.items| - 1))
    ensures var t := Remove(c, k);
            && t.Some? && SameKind(t.value, c)
            && forall j :: Lookup(t.value, j) == if j == k then None else Lookup(c, j)
  {
  }

  /** One stanza takes the container one step further. */
  lemma SharedStep(l: Json, r: Json, d: Diff, n: nat, c: Json)
    requires Ready(l, r, d) && n < |d| && Reached(l, r, d[..n], c)
    requires Has(l, d[n].path[0]) && Has(r, d[n].path[0])
    ensures var t := PatchStanza(c, d[n].path, d[n].act);
            && t.Some? && SameKind(t.value, c)
            && Lookup(t.value, d[n].path[0]) == Expect(l, r, d[..n + 1], d[n].path[0])
            && forall j :: j != d[n].path[0] ==> Lookup(t.value, j) == Lookup(c, j)
  {
    hide Proj, PatchAll, Store, Remove;
    var k := d[n].path[0];
    var rest := d[n].path[1..];
    ProjSnoc(d, n, k);
    var before, after := Proj(d[..n], k), Proj(d[..n + 1], k);
    ProjIsPrefix(d, n + 1, k);
    assert after == Proj(d, k)[..|after|];
    PatchPrefix(At(l, k), Proj(d, k), |after|);
    PatchSnoc(At(l, k), before, Stanza(rest, d[n].act));
    assert Lookup(c, k) == PatchAll(At(l, k), before);
    var v := PatchStanza(At(c, k), rest, d[n].act).value;
    StoreHere(c, k, v);
    if rest == [] {
      assert d[n].path == [k];
    }
  }

  lemma OneSidedStep(l: Json, r: Json, d: Diff, n: nat, c: Json)
    requires Ready(l, r, d) && n < |d| && Reached(l, r, d[..n], c)
    requires Has(l, d[n].path[0]) != Has(r, d[n].path[0])
    ensures var t := PatchStanza(c, d[n].path, d[n].act);
            && t.Some? && SameKind(t.value, c)
            && Lookup(t.value, d[n].path[0]) == Expect(l, r, d[..n + 1], d[n].path[0])
            && forall j :: j != d[n].path[0] ==> Lookup(t.value, j) == Lookup(c, j)
  {
    hide Proj, PatchAll, Store, Remove;
    var k := d[n].path[0];
    OneSided(l, r, d, n);
    ProjSnoc(d, n, k);
    if l.Arr? { ListEnd(l, r, d, n, c); }
    if Has(r, k) {
      StoreHere(c, k, At(r, k));
    } else {
      assert Lookup(c, k) == Some(At(l, k));
      RemoveHere(c, k);
    }
  }

  /** The position to append to or to delete from is the end of the list. */
  lemma ListEnd(l: Json, r: Json, d: Diff, n: nat, c: Json)
    requires Ready(l, r, d) && n < |d| && Reached(l, r, d[..n], c) && l.Arr?
    requires Has(l, d[n].path[0]) != Has(r, d[n].path[0])
    ensures c.Arr? && d[n].path[0].Idx?
    ensures d[n].path[0].i == if Has(r, d[n].path[0]) then |c.items| else |c.items| - 1
  {
    hide Proj, PatchAll;
    var k := d[n].path[0];
    OneSided(l, r, d, n);
    var i, m := k.i, |c.items|;
    assert Lookup(c, k) == Expect(l, r, d[..n], k);
    if Has(r, k) {
      assert m <= i;
      if m < i {
        assert Lookup(c, Idx(m)) == Expect(l, r, d[..n], Idx(m));
        if m >= |l.items| {
          ListTurn(l, r, d, n, m);
        } else {
          ProjIsPrefix(d, n, Idx(m));
          assert Proj(d[..n], Idx(m)) == Proj(d, Idx(m))[..|Proj(d[..n], Idx(m))|];
          PatchPrefix(At(l, Idx(m)), Proj(d, Idx(m)), |Proj(d[..n], Idx(m))|);
        }
      }
    } else {
      assert i < m;
      if i < m - 1 {
        assert Lookup(c, Idx(m - 1)) == Expect(l, r, d[..n], Idx(m - 1));
        if m - 1 < |l.items| { ListTurn(l, r, d, n, m - 1); }
      }
    }
  }

  lemma ReachedNext(l: Json, r: Json, d: Diff, n: nat, c: Json)
    requires Ready(l, r, d) && n < |d| && Reached(l, r, d[..n], c)
    ensures var t := PatchStanza(c, d[n].path, d[n].act);
            t.Some? && Reached(l, r, d[..n + 1], t.value)
  {
    hide Proj, PatchAll, PatchStanza;
    assert d[n] in Elems(d);
    var k := d[n].path[0];
    if Has(l, k) && Has(r, k) { SharedStep(l, r, d, n, c); } else { OneSidedStep(l, r, d, n, c); }
    var t := PatchStanza(c, d[n].path, d[n].act).value;
    forall j ensures Lookup(t, j) == Expect(l, r, d[..n + 1], j) {
      ProjSnoc(d, n, j);
      assert Proj(d[..n], j) + [] == Proj(d[..n], j);
      assert Lookup(c, j) == Expect(l, r, d[..n], j);
    }
  }

  lemma {:induction false} ReachedAll(l: Json, r: Json, d: Diff, n: nat) returns (c: Json)
    requires Ready(l, r, d) && n <= |d|
    ensures PatchAll(l, d[..n]) == Some(c) && Reached(l, r, d[..n], c)
  {
    hide Proj, PatchAll, PatchStanza;
    if n == 0 {
      c := l;
      Untouched(l, r, d);
    } else {
      var b := ReachedAll(l, r, d, n - 1);
      ReachedNext(l, r, d, n - 1, b);
      assert d[..n] == d[..n - 1] + [d[n - 1]];
      PatchSnoc(l, d[..n - 1], d[n - 1]);
      c := PatchStanza(b, d[n - 1].path, d[n - 1].act).value;
    }
  }

  lemma Untouched(l: Json, r: Json, d: Diff)
    requires SameKind(l, r)
    ensures PatchAll(l, d[..0]) == Some(l) && Reached(l, r, d[..0], l)
  {
    forall k ensures Lookup(l, k) == Expect(l, r, d[..0], k) {
      assert Proj(d[..0], k) == [];
    }
  }

  /** Applied in a good order, a sound diff turns the left value into the right. */
  lemma {:induction false} PatchSound(l: Json, r: Json, d: Diff)
    requires Sound(l, r, Elems(d)) && NoDup(d) && WellOrdered(d)
    ensures PatchAll(l, d) == Some(r)
    decreases l
  {
    if SoundNode(l, r, Elems(d)) {
      forall k | Has(l, k) && Has(r, k) ensures PatchAll(At(l, k), Proj(d, k)) == Some(At(r, k)) {
        ProjElems(d, k);
        ProjOrdered(d, k);
        PatchSound(At(l, k), At(r, k), Proj(d, k));
      }
      Finish(l, r, d);
    } else if d == [] {
      assert Elems(d) == {};
    } else {
      SomeElems(d);
      OneElem(d, Stanza([], Set(r)));
      assert d[1..] == [];
      assert PatchAll(r, []) == Some(r);
    }
  }

  lemma SomeElems(d: Diff)
    requires d != []
    ensures Elems(d) != {}
  {
    assert d[0] in Elems(d);
  }

  lemma OneElem(d: Diff, s: Stanza)
    requires Elems(d) == {s} && NoDup(d)
    ensures d == [s]
  {
    assert s in Elems(d);
    assert forall i :: 0 <= i < |d| ==> d[i] in Elems(d);
    assert d[0] == s && d[|d| - 1] == s;
  }

  lemma Finish(l: Json, r: Json, d: Diff)
    requires Ready(l, r, d)
    ensures PatchAll(l, d) == Some(r)
  {
    hide Proj, PatchAll;
    var c := ReachedAll(l, r, d, |d|);
    assert d[..|d|] == d;
    forall k ensures Lookup(c, k) == Lookup(r, k) {
      assert Lookup(c, k) == Expect(l, r, d, k);
      if Has(l, k) != Has(r, k) {
        var i := Member(l, r, d, k);
        ProjSome(d, k, i);
      }
    }
    Extensional(c, r);
  }

  // Sorting the stanzas.

  predicate Before(s: Stanza, t: Stanza, up: bool)
    requires s.path != [] && Last(s).Idx? && t.path != [] && Last(t).Idx?
  {
    if up then Last(s).i < Last(t).i else Last(s).i > Last(t).i
  }

  /** Stores into lists (`up`) or deletions from lists. */
  predicate Group(d: Diff, up: bool) {
    forall i :: 0 <= i < |d| ==> d[i].path != [] && Last(d[i]).Idx? && d[i].act.Set? == up
  }

  ghost predicate Run(d: Diff, up: bool) {
    Group(d, up) && forall i, j :: 0 <= i < j < |d| ==> !Before(d[j], d[i], up)
  }

  /** One step of the stable sort of a group by last key. */
  function Insert(d: Diff, s: Stanza, up: bool): Diff
    requires Group(d, up) && Group([s], up)
  {
    assert [s][0] == s;
    if d == [] || Before(s, d[0], up) then [s] + d else [d[0]] + Insert(d[1..], s, up)
  }

  lemma GroupTail(d: Diff, up: bool)
    requires Group(d, up) && d != []
    ensures Group(d[1..], up)
  {
    forall i | 0 <= i < |d[1..]| ensures d[1..][i] == d[i + 1] {}
  }

  lemma ConsParts(d: Diff, q: nat, s: Stanza)
    requires d != [] && q <= |d[1..]|
    ensures [d[0]] + (d[1..][..q] + [s] + d[1..][q..]) == d[..q + 1] + [s] + d[q + 1..]
  {
    assert d[..q + 1] == [d[0]] + d[1..][..q] && d[q + 1..] == d[1..][q..];
  }

  lemma InsertHere(d: Diff, s: Stanza, up: bool)
    requires Group(d, up) && Group([s], up)
    ensures s.path != [] && Last(s).Idx? && (d != [] ==> d[0].path != [] && Last(d[0]).Idx?)
    ensures d == [] || Before(s, d[0], up) ==> Insert(d, s, up) == d[..0] + [s] + d[0..]
  {
    assert [s][0] == s;
  }

  lemma InsertNext(d: Diff, s: Stanza, up: bool)
    requires Group(d, up) && Group([s], up) && d != []
    ensures s.path != [] && Last(s).Idx? && d[0].path != [] && Last(d[0]).Idx? && Group(d[1..], up)
    ensures !Before(s, d[0], up) ==> Insert(d, s, up) == [d[0]] + Insert(d[1..], s, up)
  {
    assert [s][0] == s;
    GroupTail(d, up);
  }

  lemma {:induction false} InsertAt(d: Diff, s: Stanza, up: bool) returns (p: nat)
    requires Group(d, up) && Group([s], up)
    ensures s.path != [] && Last(s).Idx?
    ensures p <= |d| && Insert(d, s, up) == d[..p] + [s] + d[p..]
    ensures forall i :: 0 <= i < p ==> !Before(s, d[i], up)
    ensures p < |d| ==> Before(s, d[p], up)
    decreases |d|
  {
    hide Before, Insert;
    InsertHere(d, s, up);
    if d == [] || Before(s, d[0], up) {
      p := 0;
    } else {
      InsertNext(d, s, up);
      var q := InsertAt(d[1..], s, up);
      p := q + 1;
      forall i | 0 <= i < p ensures d[i].path != [] && Last(d[i]).Idx? && !Before(s, d[i], up) {
        if i > 0 { assert d[i] == d[1..][i - 1]; }
      }
      ConsParts(d, q, s);
    }
  }

  lemma Placed(d: Diff, s: Stanza, up: bool, p: nat)
    requires Run(d, up) && Group([s], up) && p <= |d|
    requires s.path != [] && Last(s).Idx?
    requires forall i :: 0 <= i < p ==> !Before(s, d[i], up)
    requires p < |d| ==> Before(s, d[p], up)
    ensures Run(d[..p] + [s] + d[p..], up)
  {
    var e := d[..p] + [s] + d[p..];
    assert [s][0] == s;
    forall i | 0 <= i < |e| ensures e[i].path != [] && Last(e[i]).Idx? && e[i].act.Set? == up {
      assert e[i] == if i < p then d[i] else if i == p then s else d[i - 1];
    }
    forall i, j | 0 <= i < j < |e| ensures !Before(e[j], e[i], up) {
      if j < p {
        assert e[i] == d[i] && e[j] == d[j];
      } else if j == p {
        assert e[i] == d[i] && e[j] == s;
      } else {
        assert e[j] == d[j - 1];
        if i < p { assert e[i] == d[i]; } else if i > p { assert e[i] == d[i - 1]; }
      }
    }
  }

  lemma InsertRun(d: Diff, s: Stanza, up: bool)
    requires Run(d, up) && Group(d, up) && Group([s], up)
    ensures Run(Insert(d, s, up), up)
    ensures multiset(Insert(d, s, up)) == multiset(d) + multiset{s}
  {
    hide Run, Insert, Group, Before;
    var p := InsertAt(d, s, up);
    Placed(d, s, up, p);
    assert d == d[..p] + d[p..];
  }

  predicate Objects(d: Diff) {
    forall i :: 0 <= i < |d| ==> d[i].path != [] && Last(d[i]).Name?
  }

  /** `sort_stanzas` with `split_deletions`: changes to objects first, then stores
      into lists by ascending last key, then deletions from lists by descending
      last key. */
  method SortStanzas(d: Diff) returns (r: Diff)
    requires forall i :: 0 <= i < |d| ==> d[i].path != []
    ensures multiset(r) == multiset(d)
    ensures WellOrdered(r)
  {
    hide Run, WellOrdered, Insert, Group, Objects;
    var objs: Diff, mods: Diff, dels: Diff := [], [], [];
    NoRun();
    for n := 0 to |d|
      invariant Objects(objs) && Run(mods, true) && Run(dels, false)
      invariant multiset(objs) + multiset(mods) + multiset(dels) == multiset(d[..n])
    {
      var s := d[n];
      assert d[..n + 1] == d[..n] + [s];
      RunGroup(mods, true);
      RunGroup(dels, false);
      if Last(s).Name? {
        ObjectsSnoc(objs, s);
        objs := objs + [s];
      } else if s.act.Set? {
        OneGroup(s);
        InsertRun(mods, s, true);
        mods := Insert(mods, s, true);
      } else {
        OneGroup(s);
        InsertRun(dels, s, false);
        dels := Insert(dels, s, false);
      }
    }
    r := objs + mods + dels;
    assert d[..|d|] == d;
    SortedIs(objs, mods, dels);
  }

  lemma NoRun()
    ensures Run([], true) && Run([], false) && Objects([])
  {
  }

  lemma RunGroup(d: Diff, up: bool)
    requires Run(d, up)
    ensures Group(d, up)
  {
  }

  lemma OneGroup(s: Stanza)
    requires s.path != [] && Last(s).Idx?
    ensures Group([s], s.act.Set?)
  {
  }

  lemma ObjectsSnoc(d: Diff, s: Stanza)
    requires Objects(d) && s.path != [] && Last(s).Name?
    ensures Objects(d + [s])
  {
  }

  lemma SortedIs(objs: Diff, mods: Diff, dels: Diff)
    requires Objects(objs)
    requires Run(mods, true) && Run(dels, false)
    ensures WellOrdered(objs + mods + dels)
  {
    var r := objs + mods + dels;
    forall i, j | 0 <= i < j < |r|
      ensures Siblings(r[i], r[j]) ==>
                && (r[i].act.Set? && r[j].act.Set? ==> Last(r[i]).i <= Last(r[j]).i)
                && (r[i].act.Del? && r[j].act.Del? ==> Last(r[i]).i >= Last(r[j]).i)
    {
      var a, b := |objs|, |objs| + |mods|;
      assert i < a ==> r[i] == objs[i];
      assert j < a ==> r[j] == objs[j];
      assert a <= i < b ==> r[i] == mods[i - a];
      assert a <= j < b ==> r[j] == mods[j - a];
      assert b <= i ==> r[i] == dels[i - b];
      assert b <= j ==> r[j] == dels[j - b];
    }
  }

  lemma SameElems(d: Diff, r: Diff)
    requires multiset(r) == multiset(d)
    ensures Elems(r) == Elems(d) && (NoDup(d) ==> NoDup(r))
  {
    forall s ensures s in Elems(r) <==> s in Elems(d) {
      assert s in r <==> s in multiset(r);
      assert s in d <==> s in multiset(d);
    }
    if NoDup(d) {
      forall i, j | 0 <= i < j < |r| ensures r[i] != r[j] {
        NoDupCount(d, r[i]);
        if r[i] == r[j] { TwiceCount(r, i, j); }
      }
    }
  }

  lemma {:induction false} NoDupCount(d: Diff, s: Stanza)
    requires NoDup(d)
    ensures multiset(d)[s] <= 1
  {
    if d != [] {
      var n := |d| - 1;
      assert d == d[..n] + [d[n]];
      NoDupCount(d[..n], s);
      if d[n] == s { assert s !in d[..n]; assert multiset(d[..n])[s] == 0; }
    }
  }

  lemma TwiceCount(r: Diff, i: nat, j: nat)
    requires i < j < |r| && r[i] == r[j]
    ensures multiset(r)[r[i]] >= 2
  {
    assert r == r[..j] + [r[j]] + r[j + 1..];
    assert r[..j][i] == r[i];
    assert r[i] in multiset(r[..j]);
  }
}
