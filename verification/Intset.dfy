/**
 intset.c: a sorted set of integers in a byte buffer whose cells are widened in place
 when a larger integer arrives. The set behaves as a mathematical set.
 */
module Intset {
  import opened Bytes
  import opened IntsetBytes

  ghost predicate Sorted(q: seq<int>) {
    forall i, j :: 0 <= i < j < |q| ==> q[i] < q[j]
  }

  /** `_intsetValueEncoding`. */
  function ValueEncoding(v: Int64): (w: nat)
    ensures Width(w) && Fits(v, w)
    ensures forall w': nat :: Width(w') && w' < w ==> !Fits(v, w')
  {
    assert Span(2) == 0x1_0000;
    assert Span(4) == 0x1_0000_0000 by { assert Span(3) == 0x100_0000; }
    assert Span(8) == 0x1_0000_0000_0000_0000 by {
      assert Span(5) == 0x100_0000_0000;
      assert Span(6) == 0x1_0000_0000_0000;
      assert Span(7) == 0x100_0000_0000_0000;
    }
    if v < -0x8000_0000 || v > 0x7fff_ffff then 8
    else if v < -0x8000 || v > 0x7fff then 4
    else 2
  }

  lemma NarrowFits(v: int, w: nat, w': nat)
    requires Fits(v, w) && w <= w'
    ensures Fits(v, w')
  {
    SpanMono(w, w');
  }

  /** A value too wide for the cells is below or above all of them. */
  lemma WideOutside(v: int, w: nat, x: int)
    requires !Fits(v, w) && Fits(x, w)
    ensures if v < 0 then v < x else v > x
  {
  }

  lemma DecFits(b: seq<Byte>)
    ensures Fits(Dec(b), |b|)
  {
  }

  class Intset {
    var encoding: nat
    var length: nat
    var contents: array<Byte>

    ghost function V(): (q: seq<int>)
      reads this, contents
    {
      Values(contents[..], encoding, length)
    }

    ghost predicate Valid()
      reads this, contents
    {
      Width(encoding) && contents.Length == Off(length, encoding) && Sorted(V())
    }

    /** The set it stands for. */
    ghost function Elements(): set<int>
      reads this, contents
    {
      set v | v in V()
    }

    /** `intsetNew`. */
    constructor ()
      ensures Valid() && fresh(contents) && Elements() == {} && encoding == 2
    {
      encoding, length := 2, 0;
      contents := new Byte[0];
    }

    /** `_intsetGetEncoded`: the integer of this width whose bytes are stored there. */
    method GetEncoded(pos: nat, enc: nat) returns (v: int)
      requires Width(enc) && Off(pos, enc) + enc <= contents.Length
      ensures Fits(v, enc) && Enc(v, enc) == contents[Off(pos, enc)..Off(pos, enc) + enc]
      ensures v == Value(contents[..], enc, pos)
    {
      hide Off, Enc, Dec, Fits;
      ghost var b := contents[Off(pos, enc)..Off(pos, enc) + enc];
      EncDec(b);
      DecFits(b);
      if enc == 8 {
        v := Dec(contents[Off(pos, enc)..Off(pos, enc) + 8]);
      } else if enc == 4 {
        v := Dec(contents[Off(pos, enc)..Off(pos, enc) + 4]);
      } else {
        v := Dec(contents[Off(pos, enc)..Off(pos, enc) + 2]);
      }
      assert contents[..][Off(pos, enc)..Off(pos, enc) + enc] == b;
    }

    /** `_intsetSet`. */
    method Set(pos: nat, value: int)
      requires Off(pos, encoding) + encoding <= contents.Length
      modifies contents
      ensures contents[..] == Put(old(contents[..]), Off(pos, encoding), Enc(value, encoding))
    {
      hide Off, Enc;
      var p, b := Off(pos, encoding), Enc(value, encoding);
      ghost var a := contents[..];
      for i := 0 to encoding
        invariant forall k :: 0 <= k < contents.Length ==>
                    contents[k] == if p <= k < p + i then b[k - p] else a[k]
      {
        contents[p + i] := b[i];
      }
    }

    /** `intsetResize`: the common prefix is kept. */
    method Resize(len: nat)
      modifies this`contents
      ensures fresh(contents) && contents.Length == Off(len, encoding)
      ensures var n := if contents.Length < old(contents.Length) then contents.Length else old(contents.Length);
              contents[..n] == old(contents[..])[..n]
    {
      var a, b := contents, new Byte[Off(len, encoding)];
      var n := if b.Length < a.Length then b.Length else a.Length;
      for i := 0 to n
        invariant a[..] == old(contents[..]) && b[..i] == a[..i]
      {
        b[i] := a[i];
      }
      contents := b;
    }

    method Get(pos: nat) returns (v: int)
      requires Width(encoding) && contents.Length == Off(length, encoding) && pos < length
      ensures v == V()[pos]
    {
      CellIn(contents[..], encoding, pos, length);
      v := GetEncoded(pos, encoding);
    }

    /** `intsetSearch`: the position of a value, or where it belongs. */
    method Search(value: int) returns (found: bool, pos: nat)
      requires Valid()
      ensures found <==> value in Elements()
      ensures found ==> pos < length && V()[pos] == value
      ensures !found ==> pos <= length
      ensures !found ==> forall i :: 0 <= i < length ==> if i < pos then V()[i] < value else V()[i] > value
    {
      hide Off, Value;
      ghost var q := V();
      if length == 0 { return false, 0; }
      var last := Get(length - 1);
      if value > last { return false, length; }
      var first := Get(0);
      if value < first { return false, 0; }
      var min, max, mid, cur := 0, length - 1, -1, -1;
      while max >= min
        invariant 0 <= min <= length && -1 <= max < length && min <= max + 1
        invariant forall i :: 0 <= i < min ==> q[i] < value
        invariant forall i :: max < i < length ==> q[i] > value
        invariant if mid == -1 then min == 0 && max == length - 1 else cur != value
        decreases max - min
      {
        mid := (min + max) / 2;
        cur := Get(mid);
        if value > cur {
          min := mid + 1;
        } else if value < cur {
          max := mid - 1;
        } else {
          break;
        }
      }
      if value == cur {
        assert q[mid] in q;
        return true, mid;
      } else {
        return false, min;
      }
    }

    /** `intsetMoveTail`. */
    method MoveTail(src: nat, dst: nat)
      requires src <= length && Off(length, encoding) <= contents.Length
      requires Off(src, encoding) <= Off(length, encoding)
      requires Off(dst, encoding) + Off(length, encoding) - Off(src, encoding) <= contents.Length
      modifies contents
      ensures contents[..] == Put(old(contents[..]), Off(dst, encoding),
                                  old(contents[..])[Off(src, encoding)..Off(length, encoding)])
    {
      hide Off;
      var tail, p := contents[Off(src, encoding)..Off(length, encoding)], Off(dst, encoding);
      forall i | 0 <= i < |tail| { contents[p + i] := tail[i]; }
      assert contents[..] == Put(old(contents[..]), p, tail);
    }

    /** `intsetUpgradeAndAdd`: the cells are widened from the last to the first, with
        room left in front for a negative value and at the end for a positive one. */
    method UpgradeAndAdd(value: Int64)
      requires Valid() && !Fits(value, encoding)
      modifies this
      ensures fresh(contents) && encoding == ValueEncoding(value) > old(encoding)
      ensures Width(encoding) && length == old(length) + 1 && contents.Length == Off(length, encoding)
      ensures V() == if value < 0 then [value] + old(V()) else old(V()) + [value]
    {
      hide Off, Values, Value, Sorted, Fits, Enc;
      ghost var a, q := contents[..], V();
      var curenc := encoding;
      WiderThan(value, curenc);
      var prepend := if value < 0 then 1 else 0;
      encoding := ValueEncoding(value);
      Room(length, curenc, encoding);
      Resize(length + 1);
      assert contents[..|a|] == a;
      Widen(curenc, prepend, a);
      var at := if value < 0 then 0 else length;
      Fitting(value, encoding);
      ValuesStored(contents[..], encoding, length + 1, at, value);
      Set(at, value);
      length := length + 1;
      Placed(q, value, V());
    }

    /** The loop of `intsetUpgradeAndAdd`; `a` holds the cells of the old width. */
    method Widen(curenc: nat, prepend: nat, ghost a: seq<Byte>)
      requires Width(curenc) && curenc <= encoding && prepend <= 1 && contents.Length == Off(length + 1, encoding)
      requires |a| == Off(length, curenc) <= contents.Length && contents[..|a|] == a
      modifies contents
      ensures Values(contents[..], encoding, length + 1)[prepend..length + prepend] == Values(a, curenc, length)
    {
      hide Off, Values, Value, Fits, Enc, Put;
      ghost var q := Values(a, curenc, length);
      var k: nat := length;
      while k > 0
        invariant k <= length && Off(k, curenc) <= |a| && contents[..Off(k, curenc)] == a[..Off(k, curenc)]
        invariant Values(contents[..], encoding, length + 1)[k + prepend..length + prepend] == q[k..]
      {
        k := k - 1;
        ghost var b := contents[..];
        StillThere(a, b, curenc, length, k);
        var v := GetEncoded(k, curenc);
        WidenStep(b, curenc, encoding, length, k, prepend, v);
        Set(k + prepend, v);
        Shorter(a, b, contents[..], Off(k, curenc), Off(k + 1, curenc));
        Shifted(Values(b, encoding, length + 1), Values(contents[..], encoding, length + 1), k + prepend,
                length + prepend, q, k);
      }
      assert q[0..] == q;
    }

    /** `intsetAdd`. */
    method Add(value: Int64) returns (success: bool)
      requires Valid()
      modifies this, contents
      ensures Valid() && fresh({contents} - {old(contents)})
      ensures success == (value !in old(Elements()))
      ensures Elements() == old(Elements()) + {value}
      ensures encoding == if ValueEncoding(value) > old(encoding) then ValueEncoding(value) else old(encoding)
    {
      hide Off, Values, Sorted, Fits, ValueEncoding;
      ghost var q := V();
      if ValueEncoding(value) > encoding {
        TooWide(value, encoding);
        OutsideInsert(q, value, encoding, contents[..], length);
        UpgradeAndAdd(value);
        OneMore(q, if value < 0 then 0 else |q|, value, V());
        return true;
      }
      var found, pos := Search(value);
      if found {
        assert Elements() == old(Elements()) + {value};
        return false;
      }
      SortedInsert(q, pos, value);
      FitsHere(value, encoding);
      InsertAt(pos, value);
      OneMore(q, pos, value, V());
      return true;
    }

    /** Makes room at `pos` and stores the value there. */
    method InsertAt(pos: nat, value: int)
      requires contents.Length == Off(length, encoding) && pos <= length && Fits(value, encoding)
      modifies this`contents, this`length
      ensures fresh(contents) && length == old(length) + 1 && contents.Length == Off(length, encoding)
      ensures V() == old(V())[..pos] + [value] + old(V())[pos..]
    {
      hide Off, Values, Enc, Fits, Put;
      ghost var a := contents[..];
      InsertRoom(length, pos, encoding);
      Resize(length + 1);
      ghost var b := contents[..];
      assert b[..|a|] == a;
      if pos < length { MoveTail(pos, pos + 1); }
      Inserted(a, b, contents[..], encoding, length, pos, value);
      Set(pos, value);
      length := length + 1;
    }

    /** `intsetRemove`. */
    method Remove(value: Int64) returns (success: bool)
      requires Valid()
      modifies this, contents
      ensures Valid() && fresh({contents} - {old(contents)}) && encoding == old(encoding)
      ensures success == (value in old(Elements()))
      ensures Elements() == old(Elements()) - {value}
    {
      hide Off, Values, Sorted, Fits, ValueEncoding;
      ghost var q := V();
      if ValueEncoding(value) > encoding {
        TooWide(value, encoding);
        OutsideInsert(q, value, encoding, contents[..], length);
        assert Elements() == old(Elements()) - {value};
        return false;
      }
      var found, pos := Search(value);
      if !found {
        assert Elements() == old(Elements()) - {value};
        return false;
      }
      RemoveAt(pos);
      OneLess(q, pos, V());
      return true;
    }

    /** Closes the gap at `pos`. */
    method RemoveAt(pos: nat)
      requires contents.Length == Off(length, encoding) && pos < length
      modifies this`contents, this`length, contents
      ensures fresh(contents) && length == old(length) - 1 && contents.Length == Off(length, encoding)
      ensures V() == old(V())[..pos] + old(V())[pos + 1..]
    {
      hide Off, Values;
      ghost var a := contents[..];
      RemoveRoom(length, pos, encoding);
      if pos < length - 1 { MoveTail(pos + 1, pos); }
      ghost var b := contents[..];
      Resize(length - 1);
      length := length - 1;
      Closed(a, b, contents[..], encoding, length, pos);
    }

    /** `intsetFind`. */
    method Find(value: Int64) returns (found: bool)
      requires Valid()
      ensures found == (value in Elements())
    {
      hide Off, Values, Sorted, Fits, ValueEncoding;
      if ValueEncoding(value) > encoding {
        TooWide(value, encoding);
        OutsideInsert(V(), value, encoding, contents[..], length);
        return false;
      }
      var pos;
      found, pos := Search(value);
    }
  }

  // In-place widening.

  lemma WiderThan(v: Int64, w: nat)
    requires Width(w) && !Fits(v, w)
    ensures ValueEncoding(v) > w
  {
    if ValueEncoding(v) <= w { NarrowFits(v, ValueEncoding(v), w); }
  }

  lemma Room(n: nat, w: nat, w': nat)
    requires w <= w'
    ensures Off(n, w) <= Off(n + 1, w')
  {
    OffWider(n, w, w');
    OffMono(n, n + 1, w');
  }

  lemma Fitting(v: Int64, w: nat)
    requires w == ValueEncoding(v)
    ensures Fits(v, w)
  {
  }

  lemma Shorter(a: seq<Byte>, b: seq<Byte>, c: seq<Byte>, m: nat, n: nat)
    requires m <= n <= |a| && n <= |b| == |c| && b[..n] == a[..n] && c[..m] == b[..m]
    ensures c[..m] == a[..m]
  {
    assert b[..m] == b[..n][..m] && a[..m] == a[..n][..m];
  }

  lemma Placed(q: seq<int>, v: int, r: seq<int>)
    requires |r| == |q| + 1
    requires var p := if v < 0 then 1 else 0; r[p..|q| + p] == q && r[if v < 0 then 0 else |q|] == v
    ensures r == if v < 0 then [v] + q else q + [v]
  {
    if v < 0 { assert r == [r[0]] + r[1..]; } else { assert r == r[..|q|] + [r[|q|]]; }
  }

  lemma Shifted(x: seq<int>, y: seq<int>, i: nat, n: nat, q: seq<int>, k: nat)
    requires i < n <= |x| && k < |q| && x[i + 1..n] == q[k + 1..] && y == x[i := q[k]]
    ensures y[i..n] == q[k..]
  {
    assert y[i..n] == [q[k]] + x[i + 1..n];
  }

  /** Moving cell `k` to its new place leaves the cells before it as they were. */
  lemma WidenStep(a: seq<Byte>, w: nat, w': nat, n: nat, k: nat, shift: nat, v: int)
    requires k < n && w <= w' && shift <= 1 && Off(n + 1, w') <= |a|
    requires Fits(v, w)
    ensures Off(k + shift, w') + w' <= |a| && Off(k, w) <= |a|
    ensures var b := Put(a, Off(k + shift, w'), Enc(v, w'));
            && b[..Off(k, w)] == a[..Off(k, w)]
            && Values(b, w', n + 1) == Values(a, w', n + 1)[k + shift := v]
  {
    NarrowFits(v, w, w');
    ValuesStored(a, w', n + 1, k + shift, v);
    OffWider(k, w, w');
    OffMono(k, k + shift, w');
    hide Off, Enc, Fits, Values;
  }

  /** Reading a cell that is still in place. */
  lemma StillThere(a: seq<Byte>, b: seq<Byte>, w: nat, n: nat, k: nat)
    requires k < n && Off(n, w) == |a| && Off(k + 1, w) <= |b| && b[..Off(k + 1, w)] == a[..Off(k + 1, w)]
    requires Off(k + 1, w) <= |a|
    ensures Off(k, w) + w <= |b| && Value(b, w, k) == Values(a, w, n)[k] && Fits(Value(b, w, k), w)
    ensures Off(k, w) <= Off(k + 1, w)
  {
    SameValues(a, b, w, k + 1);
    CellIn(b, w, k, k + 1);
    assert Values(a, w, k + 1)[k] == Value(a, w, k);
    assert Values(b, w, k + 1)[k] == Value(b, w, k);
  }

  lemma TooWide(v: Int64, w: nat)
    requires Width(w) && ValueEncoding(v) > w
    ensures !Fits(v, w)
  {
  }

  lemma FitsHere(v: Int64, w: nat)
    requires ValueEncoding(v) <= w
    ensures Fits(v, w)
  {
    NarrowFits(v, ValueEncoding(v), w);
  }

  lemma OutsideInsert(q: seq<int>, v: int, w: nat, a: seq<Byte>, n: nat)
    requires q == Values(a, w, n) && |a| == Off(n, w) && Sorted(q) && !Fits(v, w)
    ensures Sorted(if v < 0 then [v] + q else q + [v])
    ensures v !in q
  {
    forall i | 0 <= i < n ensures if v < 0 then v < q[i] else v > q[i] {
      CellIn(a, w, i, n);
      WideOutside(v, w, q[i]);
    }
  }

  lemma SortedInsert(q: seq<int>, p: nat, v: int)
    requires Sorted(q) && p <= |q|
    requires forall i :: 0 <= i < |q| ==> if i < p then q[i] < v else q[i] > v
    ensures Sorted(q[..p] + [v] + q[p..])
  {
  }

  lemma OneMore(q: seq<int>, p: nat, v: int, r: seq<int>)
    requires p <= |q| && (r == q[..p] + [v] + q[p..] || (p == 0 && r == [v] + q) || (p == |q| && r == q + [v]))
    ensures (set x | x in r) == (set x | x in q) + {v}
  {
    assert q == q[..p] + q[p..];
    assert r == q[..p] + [v] + q[p..];
  }

  lemma OneLess(q: seq<int>, p: nat, r: seq<int>)
    requires Sorted(q) && p < |q| && r == q[..p] + q[p + 1..]
    ensures Sorted(r) && (set x | x in r) == (set x | x in q) - {q[p]}
  {
    assert q == q[..p] + [q[p]] + q[p + 1..];
    assert forall i :: 0 <= i < |r| ==> r[i] == if i < p then q[i] else q[i + 1];
    assert q[p] !in r;
  }

  lemma InsertRoom(n: nat, p: nat, w: nat)
    requires p <= n
    ensures Off(n, w) <= Off(n + 1, w) && Off(p, w) <= Off(n, w) && Off(p, w) + w <= Off(n + 1, w)
    ensures Off(p + 1, w) + Off(n, w) - Off(p, w) == Off(n + 1, w)
  {
    OffMono(n, n + 1, w);
    OffMono(p, n, w);
    OffNext(p, w);
    OffNext(n, w);
  }

  lemma RemoveRoom(n: nat, p: nat, w: nat)
    requires p < n
    ensures Off(n - 1, w) <= Off(n, w) && Off(p, w) <= Off(p + 1, w) <= Off(n, w)
    ensures Off(p, w) + Off(n, w) - Off(p + 1, w) == Off(n - 1, w)
  {
    OffMono(n - 1, n, w);
    OffMono(p + 1, n, w);
    OffNext(p, w);
    OffNext(n - 1, w);
  }

  lemma TailUp(b: seq<Byte>, c: seq<Byte>, w: nat, n: nat, p: nat, i: nat)
    requires |b| == Off(n + 1, w) && Off(n, w) <= |b| && p <= n && i <= n && i != p
    requires Off(p, w) <= Off(n, w) && Off(p + 1, w) + Off(n, w) - Off(p, w) == |b|
    requires c == if p < n then Put(b, Off(p + 1, w), b[Off(p, w)..Off(n, w)]) else b
    ensures Value(c, w, i) == Value(b, w, if i < p then i else i - 1)
  {
    hide Off, Put, Cell, Dec;
    if p < n { CellMoved(b, w, n, p, p + 1, i); }
  }

  lemma Splice(x: seq<int>, q: seq<int>, p: nat, v: int)
    requires |x| == |q| + 1 && p <= |q| && x[..p] == q[..p] && x[p + 1..] == q[p..]
    ensures x[p := v] == q[..p] + [v] + q[p..]
  {
  }

  /** The buffer grown by a cell, its tail moved up, and the value stored in the gap. */
  lemma Inserted(a: seq<Byte>, b: seq<Byte>, c: seq<Byte>, w: nat, n: nat, p: nat, v: int)
    requires |a| == Off(n, w) && |b| == Off(n + 1, w) && Off(n, w) <= |b| && b[..Off(n, w)] == a && p <= n && Fits(v, w)
    requires Off(p, w) <= Off(n, w) && Off(p + 1, w) + Off(n, w) - Off(p, w) == |b| && Off(p, w) + w <= |b|
    requires c == if p < n then Put(b, Off(p + 1, w), b[Off(p, w)..Off(n, w)]) else b
    ensures var q := Values(a, w, n);
            Values(Put(c, Off(p, w), Enc(v, w)), w, n + 1) == q[..p] + [v] + q[p..]
  {
    hide Off, Put, Enc, Fits, Value;
    var q := Values(a, w, n);
    ValuesStored(c, w, n + 1, p, v);
    assert b[..Off(n, w)] == a[..Off(n, w)];
    SameValues(a, b, w, n);
    var x := Values(c, w, n + 1);
    forall i | 0 <= i < p ensures x[..p][i] == q[..p][i] { TailUp(b, c, w, n, p, i); }
    forall i | 0 <= i < n - p ensures x[p + 1..][i] == q[p..][i] { TailUp(b, c, w, n, p, i + p + 1); }
    Splice(x, q, p, v);
  }

  lemma TailDown(a: seq<Byte>, b: seq<Byte>, w: nat, n: nat, p: nat, i: nat)
    requires p <= n && i < n && |a| == Off(n + 1, w)
    requires Off(p + 1, w) <= |a| && Off(p, w) <= Off(p + 1, w)
    requires b == if p < n then Put(a, Off(p, w), a[Off(p + 1, w)..|a|]) else a
    ensures Value(b, w, i) == Value(a, w, if i < p then i else i + 1)
  {
    hide Off, Put, Cell, Dec;
    if p < n { CellMoved(a, w, n + 1, p + 1, p, i); }
  }

  /** The tail moved down over a cell, and the buffer cut. */
  lemma Closed(a: seq<Byte>, b: seq<Byte>, c: seq<Byte>, w: nat, n: nat, p: nat)
    requires p <= n && |a| == Off(n + 1, w) && |c| == Off(n, w) <= |a| == |b| && c == b[..|c|]
    requires Off(p, w) <= Off(p + 1, w) <= |a|
    requires b == if p < n then Put(a, Off(p, w), a[Off(p + 1, w)..|a|]) else a
    ensures Values(c, w, n) == Values(a, w, n + 1)[..p] + Values(a, w, n + 1)[p + 1..]
  {
    hide Off, Put, Value;
    assert c[..Off(n, w)] == b[..Off(n, w)];
    SameValues(c, b, w, n);
    var q := Values(a, w, n + 1);
    forall i | 0 <= i < n ensures Values(b, w, n)[i] == (q[..p] + q[p + 1..])[i] {
      TailDown(a, b, w, n, p, i);
    }
  }

  /** Cells after a move of the cells `src..n` to `dst`. */
  lemma CellMoved(a: seq<Byte>, w: nat, n: nat, src: nat, dst: nat, i: nat)
    requires src <= n && Off(n, w) <= |a| && Off(src, w) <= Off(n, w)
    requires Off(dst, w) + Off(n, w) - Off(src, w) <= |a|
    requires i < dst + n - src && (i < dst ==> i < n)
    ensures Cell(Put(a, Off(dst, w), a[Off(src, w)..Off(n, w)]), w, i) ==
            Cell(a, w, if i < dst then i else i - dst + src)
  {
    hide Off, Put;
    OffMoved(w, n, src, dst, i);
    SliceMoved(a, Off(dst, w), Off(src, w), Off(n, w), Off(i, w), w);
  }

  lemma OffMoved(w: nat, n: nat, src: nat, dst: nat, i: nat)
    requires src <= n && i < dst + n - src && (i < dst ==> i < n)
    ensures i < dst ==> Off(i, w) + w <= Off(dst, w) && Off(i, w) + w <= Off(n, w)
    ensures i >= dst ==>
              && Off(dst, w) <= Off(i, w)
              && Off(i - dst + src, w) == Off(i, w) - Off(dst, w) + Off(src, w)
              && Off(i - dst + src, w) + w <= Off(n, w)
  {
    if i < dst {
      OffMono(i, dst, w);
      OffMono(i, n, w);
    } else {
      OffMono(dst, i, w);
      OffMono(src, i - dst + src, w);
      OffMono(i - dst + src, n, w);
    }
  }

  lemma SubSub(a: seq<Byte>, s: nat, e: nat, x: nat, w: nat)
    requires s <= e <= |a| && x + w <= e - s
    ensures a[s..e][x..x + w] == a[s + x..s + x + w]
  {
    var c, d := a[s..e][x..x + w], a[s + x..s + x + w];
    forall i | 0 <= i < w ensures c[i] == d[i] {
      assert c[i] == a[s..e][x + i];
    }
  }

  lemma SliceMoved(a: seq<Byte>, d: nat, s: nat, e: nat, x: nat, w: nat)
    requires s <= e <= |a| && d + e - s <= |a| && x + w <= |a|
    ensures x + w <= d ==> Put(a, d, a[s..e])[x..x + w] == a[x..x + w]
    ensures d <= x && x + w <= d + e - s ==> Put(a, d, a[s..e])[x..x + w] == a[x - d + s..x - d + s + w]
  {
    var b := Put(a, d, a[s..e]);
    if x + w <= d {
      assert b[x..x + w] == a[x..x + w];
    } else if d <= x && x + w <= d + e - s {
      assert b[d..d + (e - s)] == a[s..e];
      SubSub(b, d, d + (e - s), x - d, w);
      SubSub(a, s, e, x - d, w);
    }
  }
}
