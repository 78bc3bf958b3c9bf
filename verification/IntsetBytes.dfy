/**
 intset.c: integers of 2, 4 or 8 bytes in a byte buffer, little endian, two's
 complement.
 */
module IntsetBytes {
  import opened Bytes

  type Int64 = v: int | -0x8000_0000_0000_0000 <= v < 0x8000_0000_0000_0000

  predicate Width(w: nat) { w == 2 || w == 4 || w == 8 }

  /** How many integers `w` bytes can hold. */
  function Span(w: nat): (r: int)
    ensures r > 0
  {
    Pow(256, w)
  }

  predicate Fits(v: int, w: nat) {
    -Span(w) <= 2 * v < Span(w)
  }

  /** A store of `v` through a pointer to integers of `w` bytes. */
  function Enc(v: int, w: nat): (b: seq<Byte>)
    ensures |b| == w
  {
    ToBytes(v % Span(w), w)
  }

  /** The value of a load. */
  function Dec(b: seq<Byte>): (v: int)
    ensures Fits(v, |b|)
  {
    var u := Unsigned(b);
    if 2 * u >= Span(|b|) then u - Span(|b|) else u
  }

  lemma Wrap(v: int, m: int)
    requires m > 0 && -m <= v < m
    ensures v % m == if v < 0 then v + m else v
  {
    if v < 0 { ModIs(v, m, -1, v + m); } else { ModIs(v, m, 0, v); }
  }

  lemma ModIs(v: int, m: nat, q: int, r: nat)
    requires m > 0 && v == q * m + r && r < m
    ensures v % m == r
  {
    var p, s := v / m, v % m;
    assert v == p * m + s;
    assert (p - q) * m == r - s;
    if p > q { Times(p - q, m); } else if p < q { Times(q - p, m); }
  }

  lemma Times(k: nat, m: nat)
    requires k >= 1
    ensures k * m >= m
  {
  }

  /** Reading back what was stored. */
  lemma DecEnc(v: int, w: nat)
    requires Fits(v, w)
    ensures Dec(Enc(v, w)) == v
  {
    Wrap(v, Span(w));
    UnsignedToBytes(v % Span(w), w);
  }

  /** Every cell holds exactly one integer of its width. */
  lemma EncDec(b: seq<Byte>)
    ensures Enc(Dec(b), |b|) == b
  {
    Wrap(Dec(b), Span(|b|));
    ToBytesUnsigned(b);
  }

  lemma SpanMono(a: nat, b: nat)
    requires a <= b
    ensures Span(a) <= Span(b)
  {
    if a < b { SpanMono(a, b - 1); }
  }

  // Cells of `w` bytes.

  function Off(i: nat, w: nat): nat { i * w }

  lemma OffNext(i: nat, w: nat)
    ensures Off(i + 1, w) == Off(i, w) + w
    ensures Off(0, w) == 0
  {
  }

  lemma OffMono(i: nat, j: nat, w: nat)
    requires i <= j
    ensures Off(i, w) <= Off(j, w)
    ensures i < j ==> Off(i, w) + w <= Off(j, w)
    ensures Off(j, w) == Off(i, w) + Off(j - i, w)
  {
    if i < j { assert (j - i) * w >= w by { Times(j - i, w); } }
    assert j * w == i * w + (j - i) * w;
  }

  lemma OffWider(i: nat, v: nat, w: nat)
    requires v <= w
    ensures Off(i, v) <= Off(i, w)
  {
    assert i * w == i * v + i * (w - v);
  }

  function Cell(a: seq<Byte>, w: nat, i: nat): seq<Byte> {
    if Off(i, w) + w <= |a| then a[Off(i, w)..Off(i, w) + w] else []
  }

  function Value(a: seq<Byte>, w: nat, i: nat): int {
    Dec(Cell(a, w, i))
  }

  /** The first `n` integers of a buffer. */
  function Values(a: seq<Byte>, w: nat, n: nat): (r: seq<int>)
    ensures |r| == n
  {
    seq(n, i requires 0 <= i < n => Value(a, w, i))
  }

  /** A buffer with the bytes `c` copied to offset `p`. */
  function Put(a: seq<Byte>, p: nat, c: seq<Byte>): (r: seq<Byte>)
    requires p + |c| <= |a|
    ensures |r| == |a|
  {
    a[..p] + c + a[p + |c|..]
  }

  lemma CellIn(a: seq<Byte>, w: nat, i: nat, n: nat)
    requires i < n && Off(n, w) <= |a|
    ensures Off(i, w) + w <= |a| && Off(i, w) + w <= Off(n, w)
    ensures |Cell(a, w, i)| == w
  {
    OffMono(i, n, w);
  }

  /** A store changes one cell. */
  lemma PutCell(a: seq<Byte>, w: nat, i: nat, c: seq<Byte>, j: nat)
    requires |c| == w && Off(i, w) + w <= |a| && Off(j, w) + w <= |a|
    ensures Cell(Put(a, Off(i, w), c), w, j) == if j == i then c else Cell(a, w, j)
  {
    if j < i { OffMono(j, i, w); } else { OffMono(i, j, w); }
    hide Off;
    var b := Put(a, Off(i, w), c);
    if j == i {
      assert b[Off(i, w)..Off(i, w) + w] == c;
    } else {
      assert b[Off(j, w)..Off(j, w) + w] == a[Off(j, w)..Off(j, w) + w];
    }
  }

  /** Buffers that agree on the first `n` cells hold the same integers. */
  lemma SameValues(a: seq<Byte>, b: seq<Byte>, w: nat, n: nat)
    requires Off(n, w) <= |a| && Off(n, w) <= |b| && a[..Off(n, w)] == b[..Off(n, w)]
    ensures Values(a, w, n) == Values(b, w, n)
  {
    forall i | 0 <= i < n ensures Value(a, w, i) == Value(b, w, i) {
      CellIn(a, w, i, n);
      CellIn(b, w, i, n);
      SubSlice(a, b, Off(i, w), Off(i, w) + w, Off(n, w));
    }
  }

  lemma SubSlice(a: seq<Byte>, b: seq<Byte>, lo: nat, hi: nat, n: nat)
    requires lo <= hi <= n <= |a| && n <= |b| && a[..n] == b[..n]
    ensures a[lo..hi] == b[lo..hi]
  {
    assert a[lo..hi] == a[..n][lo..hi];
    assert b[lo..hi] == b[..n][lo..hi];
  }

  lemma ValuesStored(a: seq<Byte>, w: nat, n: nat, i: nat, v: int)
    requires i < n && Off(n, w) <= |a| && Fits(v, w)
    ensures Off(i, w) + w <= |a|
    ensures Values(Put(a, Off(i, w), Enc(v, w)), w, n) == Values(a, w, n)[i := v]
  {
    CellIn(a, w, i, n);
    DecEnc(v, w);
    hide Off, Put, Cell, Dec, Enc, Fits, Span;
    var b := Put(a, Off(i, w), Enc(v, w));
    forall j | 0 <= j < n ensures Value(b, w, j) == if j == i then v else Value(a, w, j) {
      CellIn(a, w, j, n);
      PutCell(a, w, i, Enc(v, w), j);
    }
  }
}
