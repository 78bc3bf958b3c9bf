/**
 dictScan itself, run against the bucket arrays, and proved to emit and return
 what the cursor theory speaks about.
 */
module DictScanner {
  import opened Words
  import opened DictModel
  import opened DictScan
  import Ops = DictOps
  import D = Dict

  function SizeMask(size: nat): Word
    requires size > 0
  {
    ToBits(size - 1, WIDTH)
  }

  /** The masked bits alone decide where the cursor goes next. */
  lemma NextCursorLow(v: Word, w: Word, a: nat)
    requires a <= WIDTH && v[..a] == w[..a]
    ensures NextCursor(v, a) == NextCursor(w, a)
  {
    NextCursorIs(v, a);
    NextCursorIs(w, a);
  }

  /** The do-while over the expansions of the cursor in the larger table. */
  method VisitExpansions<K, V>(t1: array<Chain<K, V>>, v: Word, m0: Word, m1: Word, ghost a: nat, ghost b: nat)
    returns (emitted: seq<Entry<K, V>>, w: Word)
    requires PowerOfTwo(t1.Length) && a <= b <= MAX_BITS && m0 == Mask(a) && m1 == Mask(b)
    ensures emitted == Gather(t1[..], Expansions(v, a, b))
    ensures w[..a] == v[..a]
  {
    hide Mask, Pow2, Num, Expansions, Expansion, MoreExpansions, Gather, Slot, And, Xor;
    emitted, w := [], v;
    var more := true;
    ghost var all := Gather(t1[..], Expansions(v, a, b));
    while more
      invariant w[..a] == v[..a]
      invariant emitted + (if more then Gather(t1[..], Expansions(w, a, b)) else []) == all
      decreases more, Pow2(b - a) - Num(w[a..b])
    {
      ghost var x := Expansion(w, Mask(a));
      GatherStep(t1[..], w, a, b);
      ExpansionsUnfold(w, a, b);
      MoreDef(x, a, b);
      Associative(emitted, t1[Slot(w, t1.Length)],
                  if MoreExpansions(x, a, b) then Gather(t1[..], Expansions(x, a, b)) else []);
      emitted := emitted + t1[Slot(w, t1.Length)];
      w := Expansion(w, m0);
      more := And(w, Xor(m0, m1)) != ZERO;
    }
    assert emitted + [] == emitted;
  }

  lemma Associative<T>(a: seq<T>, b: seq<T>, c: seq<T>)
    ensures a + (b + c) == a + b + c
  {
  }

  lemma GatherStep<K, V>(t: Buckets<K, V>, w: Word, a: nat, b: nat)
    requires PowerOfTwo(|t|) && a <= b <= WIDTH
    ensures var x := Expansion(w, Mask(a));
            Gather(t, Expansions(w, a, b)) ==
              t[Slot(w, |t|)] + if MoreExpansions(x, a, b) then Gather(t, Expansions(x, a, b)) else []
  {
    hide Expansion, MoreExpansions, Mask, Expansions;
    ExpansionsUnfold(w, a, b);
    var x := Expansion(w, Mask(a));
    var rest := if MoreExpansions(x, a, b) then Expansions(x, a, b) else [];
    assert ([w] + rest)[1..] == rest;
  }

  lemma MoreDef(w: Word, a: nat, b: nat)
    ensures MoreExpansions(w, a, b) == (And(w, Xor(Mask(a), Mask(b))) != ZERO)
  {
  }

  lemma ExpansionsUnfold(w: Word, a: nat, b: nat)
    requires a <= b <= WIDTH
    ensures var x := Expansion(w, Mask(a));
            && x[..a] == w[..a]
            && (MoreExpansions(x, a, b) ==> Num(w[a..b]) < Num(x[a..b]) <= Pow2(b - a))
            && Expansions(w, a, b) == [w] + if MoreExpansions(x, a, b) then Expansions(x, a, b) else []
  {
    ExpansionCounts(w, a, b);
    MoreExpansionsIs(Expansion(w, Mask(a)), a, b);
    NumBound(w[a..b]);
    NumBound(Expansion(w, Mask(a))[a..b]);
  }

  /** `dictScan`. */
  method Scan<K(!new), V>(d: D.Dict<K, V>, v: Word) returns (r: Word, emitted: seq<Entry<K, V>>)
    requires d.Valid()
    ensures emitted == Emitted(d.hash, d.S(), v)
    ensures r == Cursor(d.hash, d.S(), v)
  {
    hide Ops.Inv, Pow2, ToBits, Slot;
    if d.used0 + d.used1 == 0 { return Repeat(false, WIDTH), []; }
    ghost var s := d.S();
    ScannableSizes(d.hash, s);
    ghost var a := SmallBits(d.hash, s);
    var w, m0 := v, SizeMask(d.ht0.Length);
    if d.rehashidx == -1 {
      emitted := d.ht0[Slot(v, d.ht0.Length)];
    } else {
      var t0, t1 := d.ht0, d.ht1;
      if t0.Length > t1.Length {
        t0, t1 := d.ht1, d.ht0;
      }
      m0 := SizeMask(t0.Length);
      emitted := t0[Slot(v, t0.Length)];
      var more;
      more, w := VisitExpansions(t1, v, m0, SizeMask(t1.Length), a, LargeBits(d.hash, s));
      emitted := emitted + more;
    }
    NextCursorLow(w, v, a);
    w := Or(w, Not(m0));
    var x := Rev(w);
    r := Rev(Inc(x));
  }
}
