/**
 Whole scans: coverage while the dictionary changes between calls, progress of
 the cursor, and the exact course of a scan over an untouched dictionary.
 */
module DictScanRuns {
  import opened Options
  import opened Words
  import opened DictModel
  import opened DictOps
  import opened DictScan

  /** Cursors of successive calls, the i-th made on dictionary state `ss[i]`. */
  ghost predicate IsScan<K(!new), V>(hash: K -> Word, ss: seq<State<K, V>>, vs: seq<Word>) {
    && |vs| == |ss| + 1 && vs[0] == ZERO
    && (forall i :: 0 <= i < |ss| ==> Inv(hash, ss[i]))
    && (forall i :: 0 <= i < |ss| ==> vs[i + 1] == Cursor(hash, ss[i], vs[i]))
  }

  lemma {:induction false} ChainInTotal<K, V>(t: Buckets<K, V>, i: nat)
    requires i < |t|
    ensures Total(t) >= |t[i]|
  {
    if i > 0 { ChainInTotal(t[1..], i - 1); }
  }

  /** A dictionary that holds a key is not empty, so a call does scan. */
  lemma HoldsKey<K(!new), V>(hash: K -> Word, s: State<K, V>, k: K)
    requires Inv(hash, s) && Get(hash, s, k).Some?
    ensures Scannable(hash, s)
  {
    var t := if Lookup(hash, s.t0, k).Some? then s.t0 else s.t1;
    FindSome(t[Slot(hash(k), |t|)], k);
    ChainInTotal(t, Slot(hash(k), |t|));
  }

  lemma {:induction false} FindCall<K(!new), V>(hash: K -> Word, ss: seq<State<K, V>>, vs: seq<Word>, k: K, i: nat)
    returns (c: nat)
    requires IsScan(hash, ss, vs) && i < |ss| && vs[|ss|] == ZERO
    requires forall j :: 0 <= j < |ss| ==>
               Get(hash, ss[j], k).Some? && Scannable(hash, ss[j]) && Complete(hash, ss[j], vs[j])
    requires Rank(vs[i]) <= Rank(hash(k))
    ensures c < |ss| && Visited(hash, ss[c], vs[c], hash(k))
    decreases |ss| - i
  {
    hide Inv, Rank, Pow2, Visited, Cursor, Get;
    RankBound(hash(k));
    if Rank(hash(k)) < RangeEnd(hash, ss[i], vs[i]) {
      c := i;
    } else {
      assert vs[i + 1] == Cursor(hash, ss[i], vs[i]);
      c := FindCall(hash, ss, vs, k, i + 1);
    }
  }

  /** In any scan that comes back to cursor zero, a key held by the dictionary at
      every call is emitted by some call, whatever happens to the dictionary in
      between, as long as no call falls into the shape that skips hashes. */
  lemma ScanCovers<K(!new), V>(hash: K -> Word, ss: seq<State<K, V>>, vs: seq<Word>, k: K)
    requires IsScan(hash, ss, vs) && ss != [] && vs[|ss|] == ZERO
    requires forall i :: 0 <= i < |ss| ==> Get(hash, ss[i], k).Some?
    requires forall i :: 0 <= i < |ss| && Scannable(hash, ss[i]) ==> Steppable(hash, ss[i], vs[i])
    ensures exists i :: 0 <= i < |ss| && Entry(k, Get(hash, ss[i], k).value) in Emitted(hash, ss[i], vs[i])
  {
    hide Inv, Rank, Pow2, Visited, Cursor, Get, Emitted, Complete, Steppable, Scannable;
    forall j | 0 <= j < |ss|
      ensures Scannable(hash, ss[j]) && Complete(hash, ss[j], vs[j])
    {
      HoldsKey(hash, ss[j], k);
      CompleteIffSteppable(hash, ss[j], vs[j]);
    }
    RankRepeat(false, WIDTH);
    var c := FindCall(hash, ss, vs, k, 0);
    VisitedIsEmitted(hash, ss[c], vs[c], k);
  }

  // Scans interleaved with operations that never shrink the dictionary.

  datatype Event<K, V> = Call | Do(op: Op<K, V>)

  ghost predicate Growing<K, V>(s: State<K, V>) {
    s.Rehashing() ==> |s.t0| <= |s.t1|
  }

  ghost predicate NoShrink<K, V>(s: State<K, V>, op: Op<K, V>) {
    op.OpExpand? && op.size <= Pow2(MAX_BITS) ==> NextPower(op.size) >= |s.t0|
  }

  lemma StepGrows<K(!new), V>(hash: K -> Word, s: State<K, V>)
    requires Inv(hash, s) && Growing(s) && s.Rehashing()
    ensures Growing(RehashStep(hash, s)) && |s.t0| <= |RehashStep(hash, s).t0|
  {
  }

  lemma {:induction false} RehashGrows<K(!new), V>(hash: K -> Word, s: State<K, V>, n: nat)
    requires Inv(hash, s) && Growing(s)
    ensures Growing(Rehash(hash, s, n)) && |s.t0| <= |Rehash(hash, s, n).t0|
    decreases n
  {
    if n > 0 && s.Rehashing() {
      RehashStepOk(hash, s);
      StepGrows(hash, s);
      RehashGrows(hash, RehashStep(hash, s), n - 1);
    }
  }

  lemma PreludeGrows<K(!new), V>(hash: K -> Word, s: State<K, V>, canResize: bool)
    requires Inv(hash, s) && Growing(s)
    ensures Growing(MaybeStep(hash, s)) && |s.t0| <= |MaybeStep(hash, s).t0|
    ensures Growing(Prelude(hash, s, canResize)) && |s.t0| <= |Prelude(hash, s, canResize).t0|
  {
    if s.Rehashing() { StepGrows(hash, s); }
  }

  lemma UpdateGrows<K(!new), V>(hash: K -> Word, s: State<K, V>, k: K, v: V, canResize: bool)
    requires Inv(hash, s) && Doublable(s) && Growing(s)
    ensures Growing(Add(hash, s, k, v, canResize)) && |s.t0| <= |Add(hash, s, k, v, canResize).t0|
    ensures Growing(Replace(hash, s, k, v, canResize)) && |s.t0| <= |Replace(hash, s, k, v, canResize).t0|
  {
    hide Inv, Get, Slot, Pow2, Prelude, MaybeStep;
    PreludeOk(hash, s, canResize);
    PreludeGrows(hash, s, canResize);
    PreludeGrows(hash, Prelude(hash, s, canResize), canResize);
  }

  lemma DeleteGrows<K(!new), V>(hash: K -> Word, s: State<K, V>, k: K)
    requires Inv(hash, s) && Growing(s)
    ensures Growing(Delete(hash, s, k)) && |s.t0| <= |Delete(hash, s, k).t0|
  {
    hide Inv, Get, Slot, Pow2, MaybeStep;
    PreludeGrows(hash, s, true);
  }

  /** No operation but an explicit expand to a smaller size shrinks the table. */
  lemma ApplyGrows<K(!new), V>(hash: K -> Word, s: State<K, V>, op: Op<K, V>)
    requires Inv(hash, s) && Doublable(s) && Growing(s) && NoShrink(s, op)
    ensures Growing(Apply(hash, s, op)) && |s.t0| <= |Apply(hash, s, op).t0|
  {
    hide Inv, Get, Slot, Pow2, Add, Replace, Delete, Rehash, MaybeStep, NextPower;
    match op
    case OpAdd(k, v, can) => UpdateGrows(hash, s, k, v, can);
    case OpReplace(k, v, can) => UpdateGrows(hash, s, k, v, can);
    case OpDelete(k) => DeleteGrows(hash, s, k);
    case OpFind => PreludeGrows(hash, s, true);
    case OpRehash(n) => RehashGrows(hash, s, n);
    case OpExpand(size) =>
    case OpIterate(_) =>
  }

  /** Cursor bits outside the mask of the smaller table are zero. */
  ghost predicate Low(v: Word, size: nat) {
    exists a: nat :: a <= WIDTH && Pow2(a) <= size && v[a..] == Repeat(false, WIDTH - a)
  }

  lemma LowIsSteppable<K(!new), V>(hash: K -> Word, s: State<K, V>, v: Word)
    requires Scannable(hash, s) && Growing(s) && (Low(v, |s.t0|) || v == ZERO)
    ensures Steppable(hash, s, v)
    ensures Low(Cursor(hash, s, v), |s.t0|)
  {
    hide Inv, Rank;
    var a := SmallBits(hash, s);
    NextCursorRank(v, a);
    assert Low(Cursor(hash, s, v), |s.t0|);
    if s.Rehashing() && v != ZERO {
      var c: nat :| c <= WIDTH && Pow2(c) <= |s.t0| && v[c..] == Repeat(false, WIDTH - c);
      if c > a { Pow2Mono(a, c); }
      forall j | a <= j < WIDTH ensures !v[j] {
        assert v[c..][j - c] == v[j];
      }
    }
  }

  ghost predicate IsTrace<K(!new), V>(hash: K -> Word, es: seq<Event<K, V>>, ss: seq<State<K, V>>, vs: seq<Word>) {
    && |ss| == |vs| == |es| + 1 && vs[0] == ZERO
    && Growing(ss[0])
    && (forall i :: 0 <= i < |ss| ==> Inv(hash, ss[i]) && Doublable(ss[i]))
    && (forall i :: 0 <= i < |es| ==>
          match es[i]
          case Call => ss[i + 1] == ss[i] && vs[i + 1] == Cursor(hash, ss[i], vs[i])
          case Do(op) => NoShrink(ss[i], op) && ss[i + 1] == Apply(hash, ss[i], op) && vs[i + 1] == vs[i])
  }

  lemma {:induction false} TraceInvariant<K(!new), V>(hash: K -> Word, es: seq<Event<K, V>>,
                                                      ss: seq<State<K, V>>, vs: seq<Word>, i: nat)
    requires IsTrace(hash, es, ss, vs) && i <= |es|
    ensures Growing(ss[i]) && (Low(vs[i], |ss[i].t0|) || vs[i] == ZERO)
  {
    hide Inv, Apply, Doublable, Pow2, NextPower;
    if i > 0 {
      var j := i - 1;
      TraceInvariant(hash, es, ss, vs, j);
      match es[j] {
        case Call =>
          if ss[j].Size() > 0 { LowIsSteppable(hash, ss[j], vs[j]); }
        case Do(op) =>
          ApplyGrows(hash, ss[j], op);
          LowMono(vs[j], |ss[j].t0|, |ss[i].t0|);
      }
    }
  }

  lemma LowMono(v: Word, m: nat, n: nat)
    requires m <= n
    ensures Low(v, m) ==> Low(v, n)
  {
    if Low(v, m) {
      var a: nat :| a <= WIDTH && Pow2(a) <= m && v[a..] == Repeat(false, WIDTH - a);
      assert Pow2(a) <= n;
    }
  }

  /** Indices of the calls in a trace. */
  ghost function Calls<K, V>(es: seq<Event<K, V>>): (r: seq<nat>)
    ensures forall i :: 0 <= i < |r| ==> r[i] < |es| && es[r[i]].Call?
    ensures forall i, j :: 0 <= i < j < |r| ==> r[i] < r[j]
  {
    if es == [] then []
    else
      var n := |es| - 1;
      var r := Calls(es[..n]);
      assert forall i :: 0 <= i < |r| ==> es[..n][r[i]] == es[r[i]];
      if es[n].Call? then r + [n] else r
  }

  ghost function Pick<T>(xs: seq<T>, ids: seq<nat>): (r: seq<T>)
    requires forall i :: 0 <= i < |ids| ==> ids[i] < |xs|
    ensures |r| == |ids| && forall i :: 0 <= i < |ids| ==> r[i] == xs[ids[i]]
  {
    seq(|ids|, i requires 0 <= i < |ids| => xs[ids[i]])
  }

  /** The calls of a trace form a scan: operations leave the cursor alone. */
  lemma {:induction false} CallsScan<K(!new), V>(hash: K -> Word, es: seq<Event<K, V>>,
                                                 ss: seq<State<K, V>>, vs: seq<Word>)
    requires IsTrace(hash, es, ss, vs)
    ensures IsScan(hash, Pick(ss, Calls(es)), Pick(vs, Calls(es)) + [vs[|es|]])
  {
    hide Inv, Apply, Cursor, Growing, NoShrink, Doublable;
    if es != [] {
      var n := |es| - 1;
      TracePrefix(hash, es, ss, vs);
      CallsScan(hash, es[..n], ss[..n + 1], vs[..n + 1]);
      var r := Calls(es[..n]);
      assert Pick(ss, r) == Pick(ss[..n + 1], r) && Pick(vs, r) == Pick(vs[..n + 1], r);
      if es[n].Call? {
        assert Pick(ss, r + [n]) == Pick(ss, r) + [ss[n]];
        assert Pick(vs, r + [n]) == Pick(vs, r) + [vs[n]];
        ScanSnoc(hash, Pick(ss, r), Pick(vs, r) + [vs[n]], ss[n]);
      }
    }
  }

  lemma TracePrefix<K(!new), V>(hash: K -> Word, es: seq<Event<K, V>>, ss: seq<State<K, V>>, vs: seq<Word>)
    requires IsTrace(hash, es, ss, vs) && es != []
    ensures IsTrace(hash, es[..|es| - 1], ss[..|es|], vs[..|es|])
  {
    hide Inv, Apply, Cursor, Growing, NoShrink, Doublable;
    var n := |es| - 1;
    forall i | 0 <= i < n
      ensures match es[..n][i]
              case Call => ss[..|es|][i + 1] == ss[i] && vs[..|es|][i + 1] == Cursor(hash, ss[i], vs[i])
              case Do(op) => NoShrink(ss[i], op) && ss[..|es|][i + 1] == Apply(hash, ss[i], op) && vs[..|es|][i + 1] == vs[i]
    {
      assert es[i] == es[..n][i];
    }
  }

  lemma ScanSnoc<K(!new), V>(hash: K -> Word, ss: seq<State<K, V>>, vs: seq<Word>, s: State<K, V>)
    requires IsScan(hash, ss, vs) && Inv(hash, s)
    ensures IsScan(hash, ss + [s], vs + [Cursor(hash, s, vs[|ss|])])
  {
  }

  /** Coverage while the dictionary is used: in any trace of scan calls, adds,
      replaces, deletes, finds, rehash steps and growths that starts at cursor
      zero and ends at cursor zero, a key present all along is emitted. */
  lemma TraceCovers<K(!new), V>(hash: K -> Word, es: seq<Event<K, V>>, ss: seq<State<K, V>>, vs: seq<Word>, k: K)
    requires IsTrace(hash, es, ss, vs) && vs[|es|] == ZERO && exists i :: 0 <= i < |es| && es[i].Call?
    requires forall i :: 0 <= i < |ss| ==> Get(hash, ss[i], k).Some?
    ensures exists i :: 0 <= i < |es| && es[i].Call? &&
              Entry(k, Get(hash, ss[i], k).value) in Emitted(hash, ss[i], vs[i])
  {
    hide Inv, Apply, Cursor, Growing, NoShrink, Doublable, Get, Emitted, Steppable, Scannable, Low;
    var r := Calls(es);
    CallsNonEmpty(es);
    CallsScan(hash, es, ss, vs);
    var cs, ws := Pick(ss, r), Pick(vs, r) + [vs[|es|]];
    forall i | 0 <= i < |cs| && Scannable(hash, cs[i])
      ensures Steppable(hash, cs[i], ws[i])
    {
      TraceInvariant(hash, es, ss, vs, r[i]);
      LowIsSteppable(hash, cs[i], ws[i]);
    }
    ScanCovers(hash, cs, ws, k);
    var i :| 0 <= i < |cs| && Entry(k, Get(hash, cs[i], k).value) in Emitted(hash, cs[i], ws[i]);
    assert es[r[i]].Call?;
    assert Entry(k, Get(hash, ss[r[i]], k).value) in Emitted(hash, ss[r[i]], vs[r[i]]);
  }

  lemma {:induction false} CallsNonEmpty<K, V>(es: seq<Event<K, V>>)
    requires exists i :: 0 <= i < |es| && es[i].Call?
    ensures Calls(es) != []
  {
    var n := |es| - 1;
    var i :| 0 <= i < |es| && es[i].Call?;
    if i < n {
      assert es[..n][i].Call?;
      CallsNonEmpty(es[..n]);
    }
  }

  // Progress.

  /** Whatever the tables do, shrinking included, the reversed cursor only grows
      until it is back at zero. */
  lemma CursorAdvances<K(!new), V>(hash: K -> Word, s: State<K, V>, v: Word)
    requires Inv(hash, s)
    ensures Cursor(hash, s, v) == ZERO || Rank(Cursor(hash, s, v)) > Rank(v)
  {
    hide Inv, Rank, Pow2, NextCursor;
    if s.Size() > 0 {
      var a := SmallBits(hash, s);
      NextCursorRank(v, a);
      RankSplit(v, a);
      Lexicographic(Pow2(WIDTH - a), Rank(v[..a]), Rank(v[a..]), Rank(v[..a]) + 1, 0);
    }
  }

  /** With tables of at most 2^m buckets every cursor is a multiple of 2^(64-m)
      in reversed order, so after `i` calls it is at least `i` such steps on. */
  lemma {:induction false} CursorSteps<K(!new), V>(hash: K -> Word, ss: seq<State<K, V>>, vs: seq<Word>, m: nat, i: nat)
    returns (r: nat)
    requires IsScan(hash, ss, vs) && m <= MAX_BITS && i <= |ss|
    requires forall j :: 0 <= j < |ss| ==> |Small(ss[j])| <= Pow2(m)
    requires forall j :: 0 < j <= i ==> vs[j] != ZERO
    ensures r >= i && Rank(vs[i]) == r * Pow2(WIDTH - m)
  {
    hide Inv, Rank, Pow2, Cursor;
    if i == 0 {
      RankRepeat(false, WIDTH);
      r := 0;
    } else {
      var j := i - 1;
      var q := CursorSteps(hash, ss, vs, m, j);
      assert vs[j + 1] == Cursor(hash, ss[j], vs[j]);
      CursorAdvances(hash, ss[j], vs[j]);
      r := CursorMultiple(hash, ss[j], vs[j], m);
      Lexicographic(Pow2(WIDTH - m), q, 0, r, 0);
    }
  }

  lemma CursorMultiple<K(!new), V>(hash: K -> Word, s: State<K, V>, v: Word, m: nat) returns (r: nat)
    requires Inv(hash, s) && m <= MAX_BITS && |Small(s)| <= Pow2(m) && Cursor(hash, s, v) != ZERO
    ensures Rank(Cursor(hash, s, v)) == r * Pow2(WIDTH - m)
  {
    hide Inv, Rank, Pow2, NextCursor;
    var a := SmallBits(hash, s);
    if a > m { Pow2Mono(m, a); }
    NextCursorRank(v, a);
    Pow2Add(m - a, WIDTH - m);
    Associate(Rank(v[..a]) + 1, Pow2(m - a), Pow2(WIDTH - m));
    r := (Rank(v[..a]) + 1) * Pow2(m - a);
  }

  /** A scan is back at zero within as many calls as the largest table size. */
  lemma ScanEnds<K(!new), V>(hash: K -> Word, ss: seq<State<K, V>>, vs: seq<Word>, m: nat)
    requires IsScan(hash, ss, vs) && m <= MAX_BITS && |ss| == Pow2(m)
    requires forall j :: 0 <= j < |ss| ==> |Small(ss[j])| <= Pow2(m)
    ensures exists j :: 0 < j <= |ss| && vs[j] == ZERO
  {
    hide Inv, Rank, Pow2, Cursor;
    if forall j :: 0 < j <= |ss| ==> vs[j] != ZERO {
      var r := CursorSteps(hash, ss, vs, m, |ss|);
      Pow2Add(m, WIDTH - m);
      RankBound(vs[|ss|]);
      MulMono(Pow2(WIDTH - m), |ss|, r);
    }
  }

  // An untouched dictionary.

  /** Cursors of a scan over one state that does not change. */
  ghost function CursorAfter<K(!new), V>(hash: K -> Word, s: State<K, V>, n: nat): Word
    requires Inv(hash, s)
  {
    if n == 0 then ZERO else Cursor(hash, s, CursorAfter(hash, s, n - 1))
  }

  lemma {:induction false} UntouchedRank<K(!new), V>(hash: K -> Word, s: State<K, V>, n: nat)
    requires Scannable(hash, s) && n < |Small(s)|
    ensures var a := SmallBits(hash, s);
            && Rank(CursorAfter(hash, s, n)[..a]) == n
            && Rank(CursorAfter(hash, s, n)) == n * Pow2(WIDTH - a)
  {
    hide Inv, Rank, Pow2, NextCursor;
    var a := SmallBits(hash, s);
    var v := CursorAfter(hash, s, n);
    if n == 0 {
      RankRepeat(false, WIDTH);
      RankRepeat(false, a);
      assert ZERO[..a] == Repeat(false, a);
    } else {
      UntouchedRank(hash, s, n - 1);
      var u := CursorAfter(hash, s, n - 1);
      NextCursorRank(u, a);
      RankSplit(v, a);
      RankRepeat(false, WIDTH - a);
      Lexicographic(Pow2(WIDTH - a), n, 0, Rank(v[..a]), 0);
    }
  }

  /** Over a non-rehashing dictionary left alone, a scan takes exactly as many
      calls as there are buckets and visits each bucket exactly once. */
  lemma UntouchedScan<K(!new), V>(hash: K -> Word, s: State<K, V>)
    requires Scannable(hash, s) && !s.Rehashing()
    ensures CursorAfter(hash, s, |s.t0|) == ZERO
    ensures forall n :: 0 < n < |s.t0| ==> CursorAfter(hash, s, n) != ZERO
    ensures forall m, n :: 0 <= m < n < |s.t0| ==> BucketAt(hash, s, m) != BucketAt(hash, s, n)
    ensures forall b :: 0 <= b < |s.t0| ==> Reached(hash, s, b)
    ensures forall n :: 0 <= n < |s.t0| ==>
              Emitted(hash, s, CursorAfter(hash, s, n)) == s.t0[BucketAt(hash, s, n)]
  {
    hide Inv, Rank, Pow2, NextCursor, Num, Slot, CursorAfter;
    var a := SmallBits(hash, s);
    UntouchedEnd(hash, s);
    forall n | 0 < n < |s.t0| ensures CursorAfter(hash, s, n) != ZERO {
      UntouchedRank(hash, s, n);
      RankRepeat(false, a);
      assert ZERO[..a] == Repeat(false, a);
    }
    forall b | 0 <= b < |s.t0| ensures Reached(hash, s, b) {
      var n := BucketReached(hash, s, b);
    }
    forall m, n | 0 <= m < n < |s.t0|
      ensures BucketAt(hash, s, m) != BucketAt(hash, s, n)
    {
      UntouchedRank(hash, s, m);
      UntouchedRank(hash, s, n);
      if BucketAt(hash, s, m) == BucketAt(hash, s, n) {
        SameSlot(CursorAfter(hash, s, m), CursorAfter(hash, s, n), |s.t0|, a);
      }
    }
  }

  /** The bucket the call number `n` of the untouched scan looks at. */
  ghost function BucketAt<K(!new), V>(hash: K -> Word, s: State<K, V>, n: nat): (b: nat)
    requires Scannable(hash, s) && !s.Rehashing()
    ensures b < |s.t0|
  {
    ScannableSizes(hash, s);
    Slot(CursorAfter(hash, s, n), |s.t0|)
  }

  ghost predicate Reached<K(!new), V>(hash: K -> Word, s: State<K, V>, b: nat)
    requires Scannable(hash, s) && !s.Rehashing()
  {
    exists n :: 0 <= n < |s.t0| && BucketAt(hash, s, n) == b
  }

  lemma SameSlot(u: Word, v: Word, size: nat, a: nat)
    requires PowerOfTwo(size) && a <= MAX_BITS && size == Pow2(a)
    requires Slot(u, size) == Slot(v, size)
    ensures u[..a] == v[..a]
  {
    SlotIsPrefix(u, a);
    SlotIsPrefix(v, a);
    NumInjective(u[..a], v[..a]);
  }

  lemma UntouchedEnd<K(!new), V>(hash: K -> Word, s: State<K, V>)
    requires Scannable(hash, s)
    ensures CursorAfter(hash, s, |Small(s)|) == ZERO
  {
    hide Inv, Rank, Pow2, NextCursor;
    var a := SmallBits(hash, s);
    var n := |Small(s)| - 1;
    UntouchedRank(hash, s, n);
    NextCursorRank(CursorAfter(hash, s, n), a);
  }

  lemma BucketReached<K(!new), V>(hash: K -> Word, s: State<K, V>, b: nat) returns (n: nat)
    requires Scannable(hash, s) && !s.Rehashing() && b < |s.t0|
    ensures n < |s.t0| && BucketAt(hash, s, n) == b
  {
    hide Inv, Rank, Pow2, Num;
    var a := SmallBits(hash, s);
    NumToBits(b, a);
    var u := ToBits(b, a);
    RankBound(u);
    n := Rank(u);
    UntouchedRank(hash, s, n);
    var v := CursorAfter(hash, s, n);
    RankInjective(u, v[..a]);
    ScannableSizes(hash, s);
    SlotIsPrefix(v, a);
  }
}
