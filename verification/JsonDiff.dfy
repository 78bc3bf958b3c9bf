/**
 json_delta_original.py: computing a diff between two JSON values, and the round
 trip: patching the left value with the diff gives the right one.
 */
module JsonDiff {
  import opened Options
  import opened JsonDelta

  /** The stanzas at or below `key`, relative to it. */
  ghost function Rel(ss: set<Stanza>, key: seq<Key>): set<Stanza> {
    set s | s in ss && key <= s.path :: Stanza(s.path[|key|..], s.act)
  }

  /** A diff for values that sit at `key`: each stanza once, all at or below `key`,
      and together exactly what turns `l` into `r`. */
  ghost predicate Correct(l: Json, r: Json, key: seq<Key>, d: Diff) {
    && NoDup(d)
    && (forall i :: 0 <= i < |d| ==> key <= d[i].path)
    && Sound(l, r, Rel(Elems(d), key))
  }

  /** What the stanzas of one key must be. */
  ghost predicate Fits(l: Json, r: Json, k: Key, ss: set<Stanza>) {
    && (Has(l, k) && Has(r, k) ==> Sound(At(l, k), At(r, k), ss))
    && (Has(l, k) && !Has(r, k) ==> ss == {Stanza([], Del)})
    && (!Has(l, k) && Has(r, k) ==> ss == {Stanza([], Set(At(r, k)))})
  }

  /** A diff under construction: the keys in `done` have all their stanzas. */
  ghost predicate Partial(l: Json, r: Json, key: seq<Key>, done: set<Key>, d: Diff) {
    && NoDup(d)
    && (forall i :: 0 <= i < |d| ==> |key| < |d[i].path| && key <= d[i].path && d[i].path[|key|] in done)
    && (forall k :: k in done ==> Fits(l, r, k, Rel(Elems(d), key + [k])))
  }

  lemma RelSnoc(ss: set<Stanza>, key: seq<Key>, k: Key)
    ensures Strip(Rel(ss, key), k) == Rel(ss, key + [k])
  {
    hide Rel, Strip;
    forall t ensures t in Strip(Rel(ss, key), k) <==> t in Rel(ss, key + [k]) {
      if t in Strip(Rel(ss, key), k) { SnocFrom(ss, key, k, t); }
      if t in Rel(ss, key + [k]) { SnocTo(ss, key, k, t); }
    }
  }

  lemma SnocFrom(ss: set<Stanza>, key: seq<Key>, k: Key, t: Stanza)
    requires t in Strip(Rel(ss, key), k)
    ensures t in Rel(ss, key + [k])
  {
    var u :| u in Rel(ss, key) && u.path != [] && u.path[0] == k && t == Stanza(u.path[1..], u.act);
    var s :| s in ss && key <= s.path && u == Stanza(s.path[|key|..], s.act);
    assert s.path == key + u.path && u.path == [k] + t.path;
    assert s.path == key + [k] + t.path;
    assert s.path[|key + [k]|..] == t.path;
  }

  lemma SnocTo(ss: set<Stanza>, key: seq<Key>, k: Key, t: Stanza)
    requires t in Rel(ss, key + [k])
    ensures t in Strip(Rel(ss, key), k)
  {
    var s :| s in ss && key + [k] <= s.path && t == Stanza(s.path[|key + [k]|..], s.act);
    Longer(key, k, s.path);
    var u := Stanza(s.path[|key|..], s.act);
    assert u in Rel(ss, key);
    assert u.path[1..] == t.path;
  }

  /** The stanzas of one more key. */
  lemma Grow(l: Json, r: Json, key: seq<Key>, done: set<Key>, d: Diff, k: Key, e: Diff)
    requires Partial(l, r, key, done, d) && k !in done
    requires NoDup(e) && forall i :: 0 <= i < |e| ==> key + [k] <= e[i].path
    requires Fits(l, r, k, Rel(Elems(e), key + [k]))
    ensures Partial(l, r, key, done + {k}, d + e)
  {
    hide Fits;
    var f := d + e;
    forall i | 0 <= i < |f|
      ensures |key| < |f[i].path| && key <= f[i].path && f[i].path[|key|] in done + {k}
    {
      if i < |d| { assert f[i] == d[i]; } else { assert f[i] == e[i - |d|]; Longer(key, k, f[i].path); }
    }
    forall i, j | 0 <= i < j < |f| ensures f[i] != f[j] {
      if j < |d| {
        assert f[i] == d[i] && f[j] == d[j];
      } else if i >= |d| {
        assert f[i] == e[i - |d|] && f[j] == e[j - |d|];
      } else {
        assert f[i] == d[i] && f[j] == e[j - |d|];
        Longer(key, k, f[j].path);
      }
    }
    forall k' | k' in done + {k} ensures Fits(l, r, k', Rel(Elems(f), key + [k'])) {
      if k' == k { RelAdded(key, d, e, k); } else { RelKept(key, d, e, k, k'); }
    }
  }

  lemma Longer(key: seq<Key>, k: Key, path: seq<Key>)
    requires key + [k] <= path
    ensures key <= path && |key| < |path| && path[|key|] == k
  {
    assert path[..|key|] == (key + [k])[..|key|] == key;
    assert path[|key|] == (key + [k])[|key|];
  }

  lemma RelAdded(key: seq<Key>, d: Diff, e: Diff, k: Key)
    requires forall i :: 0 <= i < |d| ==> |key| < |d[i].path| && d[i].path[|key|] != k
    ensures Rel(Elems(d + e), key + [k]) == Rel(Elems(e), key + [k])
  {
    forall s | s in Elems(d + e) && key + [k] <= s.path ensures s in Elems(e) {
      Longer(key, k, s.path);
    }
    assert Elems(e) <= Elems(d + e);
  }

  lemma RelKept(key: seq<Key>, d: Diff, e: Diff, k: Key, k': Key)
    requires k != k' && forall i :: 0 <= i < |e| ==> key + [k] <= e[i].path
    ensures Rel(Elems(d + e), key + [k']) == Rel(Elems(d), key + [k'])
  {
    forall i | 0 <= i < |e| ensures |key| < |e[i].path| && e[i].path[|key|] == k {
      Longer(key, k, e[i].path);
    }
    forall s | s in Elems(d + e) && key + [k'] <= s.path ensures s in Elems(d) {
      Longer(key, k', s.path);
    }
    assert Elems(d) <= Elems(d + e);
  }

  lemma Whole(l: Json, r: Json, key: seq<Key>, done: set<Key>, d: Diff)
    requires SameKind(l, r) && Partial(l, r, key, done, d)
    requires forall k :: k in done <==> Has(l, k) || Has(r, k)
    ensures Correct(l, r, key, d)
  {
    hide Sound;
    var ss := Rel(Elems(d), key);
    forall s | s in ss ensures s.path != [] && (Has(l, s.path[0]) || Has(r, s.path[0])) {
      var t :| t in Elems(d) && key <= t.path && s == Stanza(t.path[|key|..], t.act);
      var i :| 0 <= i < |d| && d[i] == t;
      assert s.path[0] == t.path[|key|];
    }
    forall k ensures Strip(ss, k) == Rel(Elems(d), key + [k]) { RelSnoc(Elems(d), key, k); }
    assert forall k :: Has(l, k) || Has(r, k) ==> Fits(l, r, k, Strip(ss, k));
    assert SoundNode(l, r, ss);
    NodeSound(l, r, ss);
  }

  lemma NodeSound(l: Json, r: Json, ss: set<Stanza>)
    requires SoundNode(l, r, ss)
    ensures Sound(l, r, ss)
  {
  }

  /** One stanza at `key`, or none. */
  lemma AtMostOne(key: seq<Key>, act: Act)
    ensures Rel({}, key) == {}
    ensures Rel({Stanza(key, act)}, key) == {Stanza([], act)}
    ensures Elems([]) == {} && Elems([Stanza(key, act)]) == {Stanza(key, act)}
  {
    var s := Stanza(key, act);
    assert s.path[|key|..] == [];
    assert key <= s.path;
    assert s in {s};
  }

  // How much two values have in common.

  /** `compute_keysets`. */
  method ComputeKeysets(l: Json, r: Json) returns (overlap: set<Key>, left: set<Key>, right: set<Key>)
    requires SameKind(l, r)
    ensures forall k :: k in overlap <==> Has(l, k) && Has(r, k)
    ensures forall k :: k in left <==> Has(l, k) && !Has(r, k)
    ensures forall k :: k in right <==> !Has(l, k) && Has(r, k)
  {
    HasKeys(l);
    HasKeys(r);
    hide Keys, Has;
    overlap, left, right := Keys(l) * Keys(r), Keys(l) - Keys(r), Keys(r) - Keys(l);
  }

  function Shared(l: Json, r: Json): nat {
    match (l, r)
    case (Arr(xs), Arr(ys)) => |set i | 0 <= i < |xs| && xs[i] in ys|
    case (Obj(_), Obj(_)) => |Keys(l) * Keys(r)|
    case _ => 0
  }

  function Total(l: Json, r: Json): nat {
    match (l, r)
    case (Arr(xs), Arr(ys)) => if |xs| > |ys| then |xs| else |ys|
    case (Obj(_), Obj(_)) => |Keys(l) + Keys(r)|
    case _ => 0
  }

  /** `commonality`, as a fraction. */
  method Commonality(l: Json, r: Json) returns (com: nat, tot: nat)
    ensures com == Shared(l, r) && tot == Total(l, r) && com <= tot
    ensures com > 0 ==> SameKind(l, r)
  {
    if SameKind(l, r) && l.Obj? {
      var o, a, b := ComputeKeysets(l, r);
      com, tot := |o|, |o + a + b|;
      KeySizes(l, r, o, a, b);
    } else if SameKind(l, r) {
      com := CountIn(l.items, r.items);
      tot := if |l.items| > |r.items| then |l.items| else |r.items|;
    } else {
      com, tot := 0, 0;
    }
  }

  lemma KeySizes(l: Json, r: Json, o: set<Key>, a: set<Key>, b: set<Key>)
    requires l.Obj? && r.Obj?
    requires forall k :: k in o <==> Has(l, k) && Has(r, k)
    requires forall k :: k in a <==> Has(l, k) && !Has(r, k)
    requires forall k :: k in b <==> !Has(l, k) && Has(r, k)
    ensures |o| == Shared(l, r) && |o + a + b| == Total(l, r) && |o| <= |o + a + b|
  {
    HasKeys(l);
    HasKeys(r);
    hide Keys, Has;
    assert o == Keys(l) * Keys(r) && o + a + b == Keys(l) + Keys(r);
    Smaller(o, o + a + b);
  }

  method CountIn(xs: seq<Json>, ys: seq<Json>) returns (com: nat)
    ensures com == |set i | 0 <= i < |xs| && xs[i] in ys|
    ensures com <= |xs|
  {
    com := 0;
    for n := 0 to |xs|
      invariant com == |set i | 0 <= i < n && xs[i] in ys| && com <= n
    {
      ghost var was, now := set i | 0 <= i < n && xs[i] in ys, set i | 0 <= i < n + 1 && xs[i] in ys;
      if xs[n] in ys {
        assert now == was + {n};
        com := com + 1;
      } else {
        assert now == was;
      }
    }
  }

  lemma {:induction false} Smaller<T>(a: set<T>, b: set<T>)
    requires a <= b
    ensures |a| <= |b|
  {
    if a != {} {
      var x :| x in a;
      Smaller(a - {x}, b - {x});
    }
  }

  // Diffs.

  /** The stanzas that drop the keys only `l` has and add those only `r` has. */
  method OneSidedStanzas(l: Json, r: Json, key: seq<Key>, todo: set<Key>, d: Diff, ghost base: set<Key>)
    returns (e: Diff)
    requires Partial(l, r, key, base, d) && todo !! base
    requires forall k :: k in todo ==> Has(l, k) != Has(r, k)
    ensures Partial(l, r, key, base + todo, e)
  {
    hide Partial, Fits, Has;
    e := d;
    var rest := todo;
    ghost var done := base;
    while rest != {}
      invariant rest <= todo && rest !! done && done + rest == base + todo
      invariant Partial(l, r, key, done, e)
      decreases |rest|
    {
      var k :| k in rest;
      var act := if Has(r, k) then Set(At(r, k)) else Del;
      OneStanza(l, r, key, k, act);
      Grow(l, r, key, done, e, k, [Stanza(key + [k], act)]);
      e := e + [Stanza(key + [k], act)];
      Advance(rest, done, k);
      rest, done := rest - {k}, done + {k};
    }
    assert done == base + todo;
  }

  lemma OneStanza(l: Json, r: Json, key: seq<Key>, k: Key, act: Act)
    requires Has(l, k) != Has(r, k) && act == if Has(r, k) then Set(At(r, k)) else Del
    ensures Fits(l, r, k, Rel(Elems([Stanza(key + [k], act)]), key + [k]))
  {
    AtMostOne(key + [k], act);
  }

  lemma NothingDone(l: Json, r: Json, key: seq<Key>)
    ensures Partial(l, r, key, {}, [])
  {
  }

  lemma Replacement(l: Json, r: Json, key: seq<Key>)
    ensures Correct(l, r, key, [Stanza(key, Set(r))])
    ensures l == r ==> Correct(l, r, key, [])
  {
    AtMostOne(key, Set(r));
  }

  /** `this_level_diff`; `com` is the numerator of the commonality. */
  method ThisLevelDiff(l: Json, r: Json, key: seq<Key>, com: nat) returns (d: Diff)
    requires com > 0 ==> SameKind(l, r)
    ensures Correct(l, r, key, d)
  {
    hide Partial, Fits, Correct, Sound, Has;
    if com > 0 {
      var o, a, b := ComputeKeysets(l, r);
      NothingDone(l, r, key);
      d := ChangedStanzas(l, r, key, o);
      d := OneSidedStanzas(l, r, key, a, d, o);
      d := OneSidedStanzas(l, r, key, b, d, o + a);
      Whole(l, r, key, o + a + b, d);
    } else {
      Replacement(l, r, key);
      if l != r { d := [Stanza(key, Set(r))]; } else { d := []; }
    }
  }

  method ChangedStanzas(l: Json, r: Json, key: seq<Key>, todo: set<Key>) returns (d: Diff)
    requires forall k :: k in todo ==> Has(l, k) && Has(r, k)
    ensures Partial(l, r, key, todo, d)
  {
    hide Partial, Fits, Correct, Sound;
    NothingDone(l, r, key);
    d := [];
    var rest := todo;
    ghost var done := {};
    while rest != {}
      invariant rest !! done && done + rest == todo
      invariant Partial(l, r, key, done, d)
      decreases |rest|
    {
      var k :| k in rest;
      Replacement(At(l, k), At(r, k), key + [k]);
      var e := if At(l, k) != At(r, k) then [Stanza(key + [k], Set(At(r, k)))] else [];
      GrowShared(l, r, key, done, d, k, e);
      d := d + e;
      Advance(rest, done, k);
      rest, done := rest - {k}, done + {k};
    }
  }

  lemma GrowShared(l: Json, r: Json, key: seq<Key>, done: set<Key>, d: Diff, k: Key, e: Diff)
    requires Partial(l, r, key, done, d) && k !in done
    requires Has(l, k) && Has(r, k) && Correct(At(l, k), At(r, k), key + [k], e)
    ensures Partial(l, r, key, done + {k}, d + e)
  {
    hide Partial, Sound;
    Grow(l, r, key, done, d, k, e);
  }

  /** `keyset_diff`. */
  method KeysetDiff(l: Json, r: Json, key: seq<Key>, minimal: bool, size: Diff -> nat) returns (d: Diff)
    requires SameKind(l, r)
    ensures Correct(l, r, key, d)
    decreases l, 0
  {
    hide Partial, Fits, Correct, Sound, Has;
    var o, a, b := ComputeKeysets(l, r);
    NothingDone(l, r, key);
    d := OneSidedStanzas(l, r, key, a, [], {});
    d := OneSidedStanzas(l, r, key, b, d, {} + a);
    ghost var done := {} + a + b;
    var rest := o;
    while rest != {}
      invariant rest <= o && rest !! done && done + rest == o + a + b
      invariant Partial(l, r, key, done, d)
      decreases |rest|
    {
      var k :| k in rest;
      assert k in o && k !in done;
      var e := DiffAt(At(l, k), At(r, k), key + [k], minimal, size);
      GrowShared(l, r, key, done, d, k, e);
      d := d + e;
      Advance(rest, done, k);
      rest, done := rest - {k}, done + {k};
    }
    assert done == o + a + b;
    Whole(l, r, key, done, d);
  }

  lemma Advance(rest: set<Key>, done: set<Key>, k: Key)
    requires k in rest && rest !! done
    ensures rest - {k} !! done + {k} && done + {k} + (rest - {k}) == done + rest
    ensures |rest - {k}| < |rest|
  {
  }

  /** `diff`, for values that sit at `key`. `size` is the length of a diff written as
      JSON; the result holds whatever it is. */
  method DiffAt(l: Json, r: Json, key: seq<Key>, minimal: bool, size: Diff -> nat) returns (d: Diff)
    ensures Correct(l, r, key, d)
    ensures key == [] ==> WellOrdered(d)
    ensures minimal && key != [] ==> size(d) <= size([Stanza(key, Set(r))])
    decreases l, 1
  {
    hide Correct, Sound, WellOrdered;
    var com, tot := Commonality(l, r);
    if tot == 0 || 2 * com < tot {
      d := ThisLevelDiff(l, r, key, com);
    } else {
      d := KeysetDiff(l, r, key, minimal, size);
    }
    if minimal {
      var dumb := [Stanza(key, Set(r))];
      if size(dumb) <= size(d) {
        Replacement(l, r, key);
        d := dumb;
      }
    }
    if key == [] {
      if |d| > 1 {
        SeveralStanzas(l, r, d);
        var e := SortStanzas(d);
        Reordered(l, r, key, d, e);
        d := e;
      } else {
        ShortOrdered(d);
      }
    }
  }

  lemma ShortOrdered(d: Diff)
    requires |d| <= 1
    ensures WellOrdered(d)
  {
  }

  lemma Reordered(l: Json, r: Json, key: seq<Key>, d: Diff, e: Diff)
    requires Correct(l, r, key, d) && multiset(e) == multiset(d)
    ensures Correct(l, r, key, e)
  {
    hide Sound, NoDup;
    SameElems(d, e);
    forall i | 0 <= i < |e| ensures key <= e[i].path {
      assert e[i] in Elems(e);
    }
  }

  lemma Absolute(d: Diff)
    ensures Rel(Elems(d), []) == Elems(d)
  {
    forall s | s in Elems(d) ensures Stanza(s.path[0..], s.act) == s && [] <= s.path {
      assert s.path[0..] == s.path;
    }
    forall s | s in Elems(d) ensures s in Rel(Elems(d), []) {}
  }

  /** With more than one stanza, none replaces the whole value. */
  lemma SeveralStanzas(l: Json, r: Json, d: Diff)
    requires Correct(l, r, [], d) && |d| > 1
    ensures forall i :: 0 <= i < |d| ==> d[i].path != []
  {
    Absolute(d);
    SomeElems(d);
    if Elems(d) == {Stanza([], Set(r))} { OneElem(d, Stanza([], Set(r))); }
    assert SoundNode(l, r, Elems(d));
    forall i | 0 <= i < |d| ensures d[i].path != [] {
      assert d[i] in Elems(d);
    }
  }

  /** `diff` of two documents. Applied to the left one, stanza by stanza, it gives the
      right one, and no stanza touches what another replaces. */
  method Diff(l: Json, r: Json, minimal: bool, size: JsonDelta.Diff -> nat) returns (d: JsonDelta.Diff)
    ensures PatchAll(l, d) == Some(r)
    ensures forall i, j :: 0 <= i < |d| && 0 <= j < |d| && i != j ==> !(d[i].path <= d[j].path)
  {
    d := DiffAt(l, r, [], minimal, size);
    RoundTrip(l, r, d);
  }

  lemma RoundTrip(l: Json, r: Json, d: JsonDelta.Diff)
    requires Correct(l, r, [], d) && WellOrdered(d)
    ensures PatchAll(l, d) == Some(r)
    ensures forall i, j :: 0 <= i < |d| && 0 <= j < |d| && i != j ==> !(d[i].path <= d[j].path)
  {
    hide Sound, WellOrdered, PatchAll;
    Absolute(d);
    PatchSound(l, r, d);
    forall i, j | 0 <= i < |d| && 0 <= j < |d| && i != j ensures !(d[i].path <= d[j].path) {
      assert d[i] in Elems(d) && d[j] in Elems(d);
      PrefixFree(l, r, Elems(d), d[i], d[j]);
    }
  }
}
