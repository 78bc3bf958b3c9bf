/**
 Datasets, what replaying a log does to them, and the rewrite that prints a
 dataset as a minimal log (`rewriteAppendOnlyFile` and the per-type helpers).
 */
module AofData {
  import opened AofCodec

  datatype Value =
    | Str(s: Bytes)
    | List(items: seq<Bytes>)
    | Set(elems: set<Bytes>)
    | Hash(fields: map<Bytes, Bytes>)

  type Db = map<Bytes, Value>
  type Dataset = seq<Db>

  /** Commands other than the ones a rewrite emits; any behaviour. */
  type Other = (Cmd, nat, Dataset) -> Dataset

  // Execution.

  function Elems(xs: seq<Bytes>): set<Bytes> {
    set x | x in xs
  }

  /** Field/value pairs laid out flat, later ones winning. */
  function PutPairs(m: map<Bytes, Bytes>, xs: seq<Bytes>): map<Bytes, Bytes>
    requires |xs| % 2 == 0
    decreases |xs|
  {
    if xs == [] then m else PutPairs(m[xs[0] := xs[1]], xs[2..])
  }

  /** The new value of a key under RPUSH, SADD or HMSET, or None on a type or
      arity error. */
  function Grow(name: Bytes, old': Value, xs: seq<Bytes>): (v: Value)
  {
    match old'
    case List(items) => if name == "RPUSH" then List(items + xs) else old'
    case Set(elems) => if name == "SADD" then Set(elems + Elems(xs)) else old'
    case Hash(fields) => if name == "HMSET" && |xs| % 2 == 0 then Hash(PutPairs(fields, xs)) else old'
    case Str(_) => old'
  }

  function Fresh(name: Bytes): Value {
    if name == "RPUSH" then List([]) else if name == "SADD" then Set({}) else Hash(map[])
  }

  predicate IsGrow(name: Bytes) {
    name == "RPUSH" || name == "SADD" || name == "HMSET"
  }

  function Exec(other: Other, c: Cmd, sel: nat, d: Dataset): (r: Dataset)
    requires sel < |d|
    ensures |r| == |d|
  {
    if |c| == 3 && c[0] == "SET" then d[sel := d[sel][c[1] := Str(c[2])]]
    else if |c| >= 3 && IsGrow(c[0]) then
      var v := if c[1] in d[sel] then d[sel][c[1]] else Fresh(c[0]);
      d[sel := d[sel][c[1] := Grow(c[0], v, c[2..])]]
    else
      var r := other(c, sel, d);
      if |r| == |d| then r else d
  }

  // Replay.

  datatype Replay = Replay(sel: nat, data: Dataset)

  predicate IsSelect(c: Cmd) {
    |c| == 2 && c[0] == "SELECT"
  }

  function Select(db: nat): Cmd {
    ["SELECT", Digits(db)]
  }

  function Step(other: Other, c: Cmd, r: Replay): (r': Replay)
    requires r.sel < |r.data|
    ensures r'.sel < |r'.data| == |r.data|
  {
    if IsSelect(c) then
      var i := Strtol(c[1]);
      if 0 <= i < |r.data| then r.(sel := i) else r
    else r.(data := Exec(other, c, r.sel, r.data))
  }

  function Run(other: Other, cs: seq<Cmd>, r: Replay): (r': Replay)
    requires r.sel < |r.data|
    ensures r'.sel < |r'.data| == |r.data|
    decreases |cs|
  {
    if cs == [] then r else Run(other, cs[1..], Step(other, cs[0], r))
  }

  lemma {:induction false} RunAppend(other: Other, a: seq<Cmd>, b: seq<Cmd>, r: Replay)
    requires r.sel < |r.data|
    ensures Run(other, a + b, r) == Run(other, b, Run(other, a, r))
    decreases |a|
  {
    hide Step;
    if a == [] {
      assert a + b == b;
    } else {
      assert (a + b)[1..] == a[1..] + b;
      RunAppend(other, a[1..], b, Step(other, a[0], r));
    }
  }

  lemma StrtolDigits(n: nat)
    ensures Strtol(Digits(n)) == n
  {
    DigitsRoundTrip(n);
  }

  lemma SelectSelects(other: Other, db: nat, r: Replay)
    requires r.sel < |r.data| && db < |r.data|
    ensures Step(other, Select(db), r) == Replay(db, r.data)
  {
    StrtolDigits(db);
  }

  // Chunked commands.

  const ITEMS_PER_CMD: nat := 64

  function Flat(groups: seq<seq<Bytes>>): seq<Bytes> {
    if groups == [] then [] else groups[0] + Flat(groups[1..])
  }

  function Min(a: nat, b: nat): nat { if a < b then a else b }

  /** `name key item...` with at most 64 items a command. */
  function ItemCmds(name: Bytes, key: Bytes, items: seq<seq<Bytes>>): (cs: seq<Cmd>)
    decreases |items|
  {
    if items == [] then []
    else
      var n := Min(|items|, ITEMS_PER_CMD);
      [[name, key] + Flat(items[..n])] + ItemCmds(name, key, items[n..])
  }

  lemma {:induction false} EncodeArgsAppend(a: seq<Bytes>, b: seq<Bytes>)
    ensures EncodeArgs(a + b) == EncodeArgs(a) + EncodeArgs(b)
  {
    hide Digits;
    if a == [] {
      assert a + b == b;
    } else {
      assert (a + b)[1..] == a[1..] + b;
      EncodeArgsAppend(a[1..], b);
    }
  }

  lemma {:induction false} FlatLength(groups: seq<seq<Bytes>>, w: nat)
    requires forall i :: 0 <= i < |groups| ==> |groups[i]| == w
    ensures |Flat(groups)| == |groups| * w
  {
    if groups != [] { FlatLength(groups[1..], w); }
  }

  /** What is still to be written when `i` items are done. */
  ghost function Pending(name: Bytes, key: Bytes, items: seq<seq<Bytes>>, i: nat, e: nat): Bytes
    requires i <= e <= |items|
  {
    EncodeArgs(Flat(items[i..e])) + EncodeAll(ItemCmds(name, key, items[e..]))
  }

  lemma PendingStep(name: Bytes, key: Bytes, items: seq<seq<Bytes>>, i: nat, e: nat)
    requires i < e <= |items|
    ensures Pending(name, key, items, i, e) == EncodeArgs(items[i]) + Pending(name, key, items, i + 1, e)
  {
    hide EncodeArgs, EncodeAll, ItemCmds;
    assert items[i..e][0] == items[i] && items[i..e][1..] == items[i + 1..e];
    EncodeArgsAppend(items[i], Flat(items[i + 1..e]));
  }

  /** Opening a command: its header announces exactly the items that follow. */
  lemma PendingOpen(name: Bytes, key: Bytes, items: seq<seq<Bytes>>, i: nat, w: nat)
    requires i < |items| && forall j :: 0 <= j < |items| ==> |items[j]| == w
    ensures var n := Min(|items| - i, ITEMS_PER_CMD);
            Pending(name, key, items, i, i) ==
              "*" + Digits(2 + n * w) + CRLF + EncodeArgs([name, key]) + Pending(name, key, items, i, i + n)
  {
    hide Digits, EncodeArgs, EncodeAll, ItemCmds, Flat;
    var n := Min(|items| - i, ITEMS_PER_CMD);
    var t, u := items[i..], items[i..i + n];
    assert items[i..i] == [] && t[..n] == u && t[n..] == items[i + n..];
    NoArgsEncode();
    FlatNone();
    FlatLength(u, w);
    FirstChunk(name, key, t);
    EncodeArgsAppend([name, key], Flat(u));
    var h, a, f, z := "*" + Digits(2 + n * w) + CRLF, EncodeArgs([name, key]), EncodeArgs(Flat(u)),
                      EncodeAll(ItemCmds(name, key, items[i + n..]));
    assert Encode([name, key] + Flat(u)) == h + (a + f);
    assert "" + (h + (a + f) + z) == h + a + (f + z);
  }

  lemma FirstChunk(name: Bytes, key: Bytes, t: seq<seq<Bytes>>)
    requires t != []
    ensures var n := Min(|t|, ITEMS_PER_CMD);
            EncodeAll(ItemCmds(name, key, t)) ==
              Encode([name, key] + Flat(t[..n])) + EncodeAll(ItemCmds(name, key, t[n..]))
  {
    hide Encode, Flat;
    var n := Min(|t|, ITEMS_PER_CMD);
    var c := [name, key] + Flat(t[..n]);
    assert ([c] + ItemCmds(name, key, t[n..]))[1..] == ItemCmds(name, key, t[n..]);
  }

  lemma NoArgsEncode()
    ensures EncodeArgs([]) == ""
  {
  }

  method WriteBulk(r: Bytes, s: Bytes) returns (r': Bytes)
    ensures r' == r + EncodeArgs([s])
  {
    r' := r + ("$" + Digits(|s|) + CRLF + s + CRLF);
    assert [s][1..] == [];
  }

  method WriteBulks(r: Bytes, xs: seq<Bytes>) returns (r': Bytes)
    ensures r' == r + EncodeArgs(xs)
  {
    r' := r;
    assert xs[..0] == [] && r + "" == r;
    for i := 0 to |xs|
      invariant r' == r + EncodeArgs(xs[..i])
    {
      EncodeArgsAppend(xs[..i], [xs[i]]);
      assert xs[..i + 1] == xs[..i] + [xs[i]];
      r' := WriteBulk(r', xs[i]);
    }
    assert xs[..|xs|] == xs;
  }

  /** The loop shared by `rewriteListObject`, `rewriteSetObject` and
      `rewriteHashObject`: `w` bulk strings an item, a header every 64 items. */
  method RewriteItems(r0: Bytes, name: Bytes, key: Bytes, items: seq<seq<Bytes>>, w: nat) returns (r: Bytes)
    requires forall j :: 0 <= j < |items| ==> |items[j]| == w
    ensures r == r0 + EncodeAll(ItemCmds(name, key, items))
  {
    hide EncodeArgs, EncodeAll, ItemCmds, Digits, Pending;
    var count: nat, left: nat := 0, |items|;
    r := r0;
    ghost var e: nat := 0;
    ghost var all := r0 + EncodeAll(ItemCmds(name, key, items));
    PendingStart(r0, name, key, items);
    for i := 0 to |items|
      invariant left == |items| - i && count < ITEMS_PER_CMD && i <= e <= |items|
      invariant if count == 0 then e == i else e - i == Min(ITEMS_PER_CMD - count, left)
      invariant r + Pending(name, key, items, i, e) == all
    {
      if count == 0 {
        var n := if left > ITEMS_PER_CMD then ITEMS_PER_CMD else left;
        PendingOpen(name, key, items, i, w);
        var head := r + ("*" + Digits(2 + n * w) + CRLF);
        r := WriteBulks(head, [name, key]);
        e := i + n;
        assert r + Pending(name, key, items, i, e) == all;
      }
      PendingStep(name, key, items, i, e);
      ghost var before := r;
      r := WriteBulks(r, items[i]);
      assert r + Pending(name, key, items, i + 1, e) == before + Pending(name, key, items, i, e);
      count := if count + 1 == ITEMS_PER_CMD then 0 else count + 1;
      left := left - 1;
    }
    PendingEnd(r, name, key, items);
  }

  lemma PendingStart(r: Bytes, name: Bytes, key: Bytes, items: seq<seq<Bytes>>)
    ensures r + Pending(name, key, items, 0, 0) == r + EncodeAll(ItemCmds(name, key, items))
  {
    hide EncodeAll, ItemCmds;
    assert items[0..0] == [] && items[0..] == items;
    assert "" + EncodeAll(ItemCmds(name, key, items)) == EncodeAll(ItemCmds(name, key, items));
  }

  lemma PendingEnd(r: Bytes, name: Bytes, key: Bytes, items: seq<seq<Bytes>>)
    ensures r + Pending(name, key, items, |items|, |items|) == r
  {
    assert items[|items|..|items|] == [] && items[|items|..] == [];
  }

  // A rewritten value is rebuilt by replay.

  lemma {:induction false} PutPairsAppend(m: map<Bytes, Bytes>, a: seq<Bytes>, b: seq<Bytes>)
    requires |a| % 2 == 0 && |b| % 2 == 0
    ensures PutPairs(m, a + b) == PutPairs(PutPairs(m, a), b)
    decreases |a|
  {
    if a == [] {
      assert a + b == b;
    } else {
      assert (a + b)[2..] == a[2..] + b;
      PutPairsAppend(m[a[0] := a[1]], a[2..], b);
    }
  }

  ghost predicate Fits(name: Bytes, v: Value, w: nat) {
    || (name == "RPUSH" && v.List? && w == 1)
    || (name == "SADD" && v.Set? && w == 1)
    || (name == "HMSET" && v.Hash? && w == 2)
  }

  lemma GrowAppend(name: Bytes, v: Value, w: nat, a: seq<Bytes>, b: seq<Bytes>)
    requires Fits(name, v, w) && |a| % w == 0 && |b| % w == 0
    ensures Fits(name, Grow(name, v, a), w)
    ensures Grow(name, Grow(name, v, a), b) == Grow(name, v, a + b)
  {
    match v
    case List(items) => assert items + a + b == items + (a + b);
    case Set(elems) => assert elems + Elems(a) + Elems(b) == elems + Elems(a + b);
    case Hash(fields) => PutPairsAppend(fields, a, b);
    case Str(_) =>
  }

  function Put(r: Replay, key: Bytes, v: Value): (r': Replay)
    requires r.sel < |r.data|
    ensures r'.sel < |r'.data|
  {
    r.(data := r.data[r.sel := r.data[r.sel][key := v]])
  }

  lemma PutPut(r: Replay, key: Bytes, u: Value, v: Value)
    requires r.sel < |r.data|
    ensures Put(Put(r, key, u), key, v) == Put(r, key, v)
  {
    assert r.data[r.sel][key := u][key := v] == r.data[r.sel][key := v];
  }

  lemma GrowStep(other: Other, name: Bytes, key: Bytes, xs: seq<Bytes>, v: Value, r: Replay)
    requires r.sel < |r.data| && IsGrow(name) && xs != []
    requires v == if key in r.data[r.sel] then r.data[r.sel][key] else Fresh(name)
    ensures Step(other, [name, key] + xs, r) == Put(r, key, Grow(name, v, xs))
  {
    var c := [name, key] + xs;
    assert c[2..] == xs && c[0] == name && c[1] == key;
  }

  lemma {:induction false} FlatAppend(a: seq<seq<Bytes>>, b: seq<seq<Bytes>>)
    ensures Flat(a + b) == Flat(a) + Flat(b)
  {
    if a == [] {
      assert a + b == b;
    } else {
      assert (a + b)[1..] == a[1..] + b;
      FlatAppend(a[1..], b);
    }
  }

  lemma Multiple(n: nat, w: nat)
    requires w == 1 || w == 2
    ensures (n * w) % w == 0 && (n > 0 ==> n * w > 0)
  {
  }

  /** Chunk by chunk, the items end up in the value as in one go. */
  lemma {:induction false} ItemsRebuild(other: Other, name: Bytes, key: Bytes, items: seq<seq<Bytes>>, w: nat,
                                        v: Value, r: Replay)
    requires r.sel < |r.data| && items != [] && forall j :: 0 <= j < |items| ==> |items[j]| == w
    requires Fits(name, v, w) && v == if key in r.data[r.sel] then r.data[r.sel][key] else Fresh(name)
    ensures Run(other, ItemCmds(name, key, items), r) == Put(r, key, Grow(name, v, Flat(items)))
    decreases |items|
  {
    hide Step, Grow, Flat, Exec;
    var n := Min(|items|, ITEMS_PER_CMD);
    var xs, rest := Flat(items[..n]), items[n..];
    FlatLength(items[..n], w);
    Multiple(n, w);
    GrowStep(other, name, key, xs, v, r);
    var u := Grow(name, v, xs);
    var r1 := Put(r, key, u);
    var c := [name, key] + xs;
    assert Run(other, ItemCmds(name, key, items), r) == Run(other, ItemCmds(name, key, rest), r1) by {
      assert ([c] + ItemCmds(name, key, rest))[1..] == ItemCmds(name, key, rest);
    }
    assert items == items[..n] + rest;
    FlatAppend(items[..n], rest);
    FlatLength(rest, w);
    Multiple(|rest|, w);
    GrowAppend(name, v, w, xs, Flat(rest));
    if rest == [] {
      assert Run(other, [], r1) == r1;
      FlatNone();
      assert xs + Flat(rest) == xs;
    } else {
      ItemsRebuild(other, name, key, rest, w, u, r1);
      PutPut(r, key, u, Grow(name, u, Flat(rest)));
    }
  }

  lemma FlatNone()
    ensures Flat([]) == []
  {
  }

  /** Commands that put one key into a database that lacks it. */
  ghost predicate Builds(other: Other, cs: seq<Cmd>, key: Bytes, v: Value) {
    forall r: Replay :: r.sel < |r.data| && key !in r.data[r.sel] ==> Run(other, cs, r) == Put(r, key, v)
  }

  lemma ItemsBuild(other: Other, name: Bytes, key: Bytes, items: seq<seq<Bytes>>, w: nat, v: Value)
    requires items != [] && (forall j :: 0 <= j < |items| ==> |items[j]| == w) && Fits(name, v, w)
    requires Fits(name, Fresh(name), w) && v == Grow(name, Fresh(name), Flat(items))
    ensures Builds(other, ItemCmds(name, key, items), key, v)
  {
    hide ItemCmds, Grow, Flat, Run;
    forall r: Replay | r.sel < |r.data| && key !in r.data[r.sel]
      ensures Run(other, ItemCmds(name, key, items), r) == Put(r, key, v)
    {
      ItemsRebuild(other, name, key, items, w, Fresh(name), r);
    }
  }

  function Singles(xs: seq<Bytes>): (g: seq<seq<Bytes>>)
    ensures |g| == |xs| && forall j :: 0 <= j < |g| ==> g[j] == [xs[j]]
  {
    seq(|xs|, i requires 0 <= i < |xs| => [xs[i]])
  }

  lemma {:induction false} FlatSingles(xs: seq<Bytes>)
    ensures Flat(Singles(xs)) == xs
  {
    if xs != [] {
      assert Singles(xs)[1..] == Singles(xs[1..]);
      FlatSingles(xs[1..]);
      assert [xs[0]] + xs[1..] == xs;
    }
  }

  function Pairs(fields: map<Bytes, Bytes>, ks: seq<Bytes>): (g: seq<seq<Bytes>>)
    requires forall i :: 0 <= i < |ks| ==> ks[i] in fields
    ensures |g| == |ks| && forall j :: 0 <= j < |g| ==> g[j] == [ks[j], fields[ks[j]]]
  {
    seq(|ks|, i requires 0 <= i < |ks| => [ks[i], fields[ks[i]]])
  }

  lemma PairsStep(fields: map<Bytes, Bytes>, ks: seq<Bytes>)
    requires ks != [] && forall i :: 0 <= i < |ks| ==> ks[i] in fields
    ensures var f := Flat(Pairs(fields, ks));
            |f| >= 2 && f[0] == ks[0] && f[1] == fields[ks[0]] && f[2..] == Flat(Pairs(fields, ks[1..]))
  {
    assert Pairs(fields, ks)[1..] == Pairs(fields, ks[1..]);
  }

  /** The pairs overwrite exactly the listed fields. */
  lemma {:induction false} PutAllPairs(fields: map<Bytes, Bytes>, ks: seq<Bytes>, m: map<Bytes, Bytes>)
    requires forall i :: 0 <= i < |ks| ==> ks[i] in fields
    ensures |Flat(Pairs(fields, ks))| % 2 == 0
    ensures var r := PutPairs(m, Flat(Pairs(fields, ks)));
            && (forall k :: k in r <==> k in m || k in ks)
            && (forall k :: k in ks ==> r[k] == fields[k])
            && (forall k :: k in m && k !in ks ==> r[k] == m[k])
    decreases |ks|
  {
    if ks != [] {
      hide Flat, Pairs;
      PairsStep(fields, ks);
      PutAllPairs(fields, ks[1..], m[ks[0] := fields[ks[0]]]);
      assert forall k :: k in ks <==> k == ks[0] || k in ks[1..];
    } else {
      FlatNone();
    }
  }

  /** Lists the members of a set in some order, as an iterator would. */
  method Enumerate(s: set<Bytes>) returns (xs: seq<Bytes>)
    ensures forall x :: x in xs <==> x in s
    ensures s != {} ==> xs != []
  {
    var left := s;
    xs := [];
    while left != {}
      invariant left <= s && forall x :: x in xs <==> x in s - left
      decreases |left|
    {
      var x :| x in left;
      xs := xs + [x];
      left := left - {x};
    }
  }

  // Sizes the log can express.

  predicate Short(b: Bytes) {
    |b| < 0x8000_0000_0000_0000
  }

  ghost predicate SmallValue(v: Value) {
    match v
    case Str(s) => Short(s)
    case List(items) => items != [] && forall x :: x in items ==> Short(x)
    case Set(elems) => elems != {} && forall x :: x in elems ==> Short(x)
    case Hash(fields) => fields != map[] && forall k :: k in fields ==> Short(k) && Short(fields[k])
  }

  /** No empty collection is stored, and every string has a machine length. */
  ghost predicate Storable(d: Dataset) {
    && 1 <= |d| < 0x8000_0000
    && forall j, k :: 0 <= j < |d| && k in d[j] ==> Short(k) && SmallValue(d[j][k])
  }

  lemma {:induction false} FlatMember(g: seq<seq<Bytes>>, i: nat)
    requires i < |Flat(g)|
    ensures exists j, k :: 0 <= j < |g| && 0 <= k < |g[j]| && g[j][k] == Flat(g)[i]
  {
    if i < |g[0]| {
      assert g[0][i] == Flat(g)[i];
    } else {
      FlatMember(g[1..], i - |g[0]|);
      var j, k :| 0 <= j < |g[1..]| && 0 <= k < |g[1..][j]| && g[1..][j][k] == Flat(g[1..])[i - |g[0]|];
      assert g[j + 1][k] == Flat(g)[i];
    }
  }

  lemma {:induction false} ItemCmdsRepresentable(name: Bytes, key: Bytes, items: seq<seq<Bytes>>, w: nat)
    requires w <= 2 && Short(name) && Short(key)
    requires forall j :: 0 <= j < |items| ==> |items[j]| == w
    requires forall j, k :: 0 <= j < |items| && 0 <= k < |items[j]| ==> Short(items[j][k])
    ensures AllRepresentable(ItemCmds(name, key, items))
    decreases |items|
  {
    if items != [] {
      var n := Min(|items|, ITEMS_PER_CMD);
      var xs := Flat(items[..n]);
      var c := [name, key] + xs;
      FlatLength(items[..n], w);
      assert |c| <= 130 by { assert n * w <= 128; }
      forall i | 0 <= i < |c| ensures |c[i]| < 0x8000_0000_0000_0000 {
        if i >= 2 {
          assert c[i] == xs[i - 2];
          FlatMember(items[..n], i - 2);
          var j, k :| 0 <= j < |items[..n]| && 0 <= k < |items[..n][j]| && items[..n][j][k] == xs[i - 2];
          assert Short(items[j][k]);
        }
      }
      ItemCmdsRepresentable(name, key, items[n..], w);
    }
  }

  // The rewrite.

  /** `r` is `r0` followed by commands that put one key into a database lacking it. */
  ghost predicate WritesKey(other: Other, r0: Bytes, r: Bytes, key: Bytes, v: Value) {
    exists cs: seq<Cmd> :: r == r0 + EncodeAll(cs) && AllRepresentable(cs) && Builds(other, cs, key, v)
  }

  method RewriteValue(r0: Bytes, key: Bytes, v: Value, ghost other: Other) returns (r: Bytes, ghost cs: seq<Cmd>)
    requires Short(key) && SmallValue(v)
    ensures WritesKey(other, r0, r, key, v)
    ensures r == r0 + EncodeAll(cs) && AllRepresentable(cs) && Builds(other, cs, key, v)
  {
    match v
    case Str(s) =>
      var c := ["SET", key, s];
      cs := [c];
      r := CatCommand(r0, c);
      OneCommand(c);
      SetBuilds(other, key, s);
    case List(items) =>
      r := RewriteItems(r0, "RPUSH", key, Singles(items), 1);
      cs := ItemCmds("RPUSH", key, Singles(items));
      FlatSingles(items);
      assert [] + items == items;
      assert forall j :: 0 <= j < |items| ==> items[j] in items;
      ItemsBuild(other, "RPUSH", key, Singles(items), 1, v);
      ItemCmdsRepresentable("RPUSH", key, Singles(items), 1);
    case Set(elems) =>
      var xs := Enumerate(elems);
      r := RewriteItems(r0, "SADD", key, Singles(xs), 1);
      cs := ItemCmds("SADD", key, Singles(xs));
      FlatSingles(xs);
      assert {} + Elems(xs) == elems;
      assert forall j :: 0 <= j < |xs| ==> xs[j] in xs;
      ItemsBuild(other, "SADD", key, Singles(xs), 1, v);
      ItemCmdsRepresentable("SADD", key, Singles(xs), 1);
    case Hash(fields) =>
      r, cs := RewriteHash(r0, key, fields, other);
  }

  method RewriteHash(r0: Bytes, key: Bytes, fields: map<Bytes, Bytes>, ghost other: Other)
    returns (r: Bytes, ghost cs: seq<Cmd>)
    requires Short(key) && SmallValue(Hash(fields))
    ensures WritesKey(other, r0, r, key, Hash(fields))
    ensures r == r0 + EncodeAll(cs) && AllRepresentable(cs) && Builds(other, cs, key, Hash(fields))
  {
    hide EncodeAll, ItemCmds, PutPairs, Flat;
    assert fields.Keys == {} ==> fields == map[];
    var ks := Enumerate(fields.Keys);
    assert forall j :: 0 <= j < |ks| ==> ks[j] in ks;
    r := RewriteItems(r0, "HMSET", key, Pairs(fields, ks), 2);
    cs := ItemCmds("HMSET", key, Pairs(fields, ks));
    PutAllPairs(fields, ks, map[]);
    assert PutPairs(map[], Flat(Pairs(fields, ks))) == fields;
    ItemsBuild(other, "HMSET", key, Pairs(fields, ks), 2, Hash(fields));
    ItemCmdsRepresentable("HMSET", key, Pairs(fields, ks), 2);
  }

  lemma OneCommand(c: Cmd)
    ensures EncodeAll([c]) == Encode(c)
  {
    hide Encode;
    assert [c][1..] == [] && Encode(c) + "" == Encode(c);
  }

  lemma SetBuilds(other: Other, key: Bytes, s: Bytes)
    ensures Builds(other, [["SET", key, s]], key, Str(s))
  {
    var c := ["SET", key, s];
    forall r: Replay | r.sel < |r.data| && key !in r.data[r.sel]
      ensures Run(other, [c], r) == Put(r, key, Str(s))
    {
      assert [c][1..] == [];
      assert Run(other, [], Step(other, c, r)) == Step(other, c, r);
    }
  }

  /** Commands that fill an empty database. */
  ghost predicate BuildsDb(other: Other, cs: seq<Cmd>, db: Db) {
    forall r: Replay :: r.sel < |r.data| && r.data[r.sel] == map[] ==>
      Run(other, cs, r) == Replay(r.sel, r.data[r.sel := db])
  }

  lemma BuildsDbAt(other: Other, cs: seq<Cmd>, db: Db, r: Replay)
    requires BuildsDb(other, cs, db) && r.sel < |r.data| && r.data[r.sel] == map[]
    ensures Run(other, cs, r) == Replay(r.sel, r.data[r.sel := db])
  {
  }

  lemma BuildsAt(other: Other, cs: seq<Cmd>, key: Bytes, v: Value, r: Replay)
    requires Builds(other, cs, key, v) && r.sel < |r.data| && key !in r.data[r.sel]
    ensures Run(other, cs, r) == Put(r, key, v)
  {
  }

  lemma BuildsOneMore(other: Other, cs: seq<Cmd>, db: Db, more: seq<Cmd>, key: Bytes, v: Value)
    requires BuildsDb(other, cs, db) && Builds(other, more, key, v) && key !in db
    ensures BuildsDb(other, cs + more, db[key := v])
  {
    forall r: Replay | r.sel < |r.data| && r.data[r.sel] == map[]
      ensures Run(other, cs + more, r) == Replay(r.sel, r.data[r.sel := db[key := v]])
    {
      BuildsBoth(other, cs, db, more, key, v, r);
    }
  }

  lemma BuildsBoth(other: Other, cs: seq<Cmd>, db: Db, more: seq<Cmd>, key: Bytes, v: Value, r: Replay)
    requires BuildsDb(other, cs, db) && Builds(other, more, key, v) && key !in db
    requires r.sel < |r.data| && r.data[r.sel] == map[]
    ensures Run(other, cs + more, r) == Replay(r.sel, r.data[r.sel := db[key := v]])
  {
    hide Run, Builds, BuildsDb;
    RunAppend(other, cs, more, r);
    BuildsDbAt(other, cs, db, r);
    var m := Replay(r.sel, r.data[r.sel := db]);
    BuildsAt(other, more, key, v, m);
    assert r.data[r.sel := db][r.sel := db[key := v]] == r.data[r.sel := db[key := v]];
  }

  ghost predicate WritesDb(other: Other, r0: Bytes, r: Bytes, db: Db) {
    exists cs: seq<Cmd> :: r == r0 + EncodeAll(cs) && AllRepresentable(cs) && BuildsDb(other, cs, db)
  }

  method RewriteDb(r0: Bytes, db: Db, ghost other: Other) returns (r: Bytes, ghost cs: seq<Cmd>)
    requires forall k :: k in db ==> Short(k) && SmallValue(db[k])
    ensures WritesDb(other, r0, r, db)
    ensures r == r0 + EncodeAll(cs) && AllRepresentable(cs) && BuildsDb(other, cs, db)
  {
    hide EncodeAll, Builds, BuildsDb, SmallValue, Run, AllRepresentable, WritesKey;
    var left := db.Keys;
    r, cs := r0, [];
    ghost var done: Db := map[];
    EncodeNone(r0);
    BuildsNothing(other);
    while left != {}
      invariant left <= db.Keys && done == db - left
      invariant r == r0 + EncodeAll(cs) && AllRepresentable(cs) && BuildsDb(other, cs, done)
      decreases |left|
    {
      var key :| key in left;
      ghost var more;
      ghost var before := cs;
      r, more := RewriteValue(r, key, db[key], other);
      LogGrows(r0, before, more);
      BuildsOneMore(other, before, done, more, key, db[key]);
      cs := before + more;
      OneKeyLess(db, left, key);
      done := done[key := db[key]];
      left := left - {key};
    }
    assert done == db;
  }

  lemma OneKeyLess(db: Db, left: set<Bytes>, key: Bytes)
    requires key in left && left <= db.Keys
    ensures (db - left)[key := db[key]] == db - (left - {key})
  {
  }

  lemma LogGrows(r0: Bytes, before: seq<Cmd>, more: seq<Cmd>)
    requires AllRepresentable(before) && AllRepresentable(more)
    ensures r0 + EncodeAll(before) + EncodeAll(more) == r0 + EncodeAll(before + more)
    ensures AllRepresentable(before + more)
  {
    hide EncodeAll, Representable;
    EncodeAllAppend(before, more);
    assert r0 + EncodeAll(before) + EncodeAll(more) == r0 + (EncodeAll(before) + EncodeAll(more));
  }

  lemma EncodeNone(r: Bytes)
    ensures r + EncodeAll([]) == r && AllRepresentable([])
  {
  }

  lemma BuildsNothing(other: Other)
    ensures BuildsDb(other, [], map[])
  {
    forall r: Replay | r.sel < |r.data| && r.data[r.sel] == map[]
      ensures Run(other, [], r) == Replay(r.sel, r.data[r.sel := map[]])
    {
    }
  }

  function EmptyData(n: nat): (d: Dataset)
    ensures |d| == n && forall j :: 0 <= j < n ==> d[j] == map[]
  {
    seq(n, _ => map[])
  }

  /** Commands that build a dataset from nothing, whatever database is selected
      at first. */
  ghost predicate Rebuilds(other: Other, cs: seq<Cmd>, d: Dataset) {
    forall sel: nat :: sel < |d| ==> Run(other, cs, Replay(sel, EmptyData(|d|))).data == d
  }

  lemma RebuildsOneMore(other: Other, cs: seq<Cmd>, d: Dataset, j: nat, more: seq<Cmd>, db: Db)
    requires j < |d| && d[j] == map[] && Rebuilds(other, cs, d) && BuildsDb(other, more, db)
    ensures Rebuilds(other, cs + [Select(j)] + more, d[j := db])
  {
    hide Run, Step, Digits;
    forall sel: nat | sel < |d|
      ensures Run(other, cs + [Select(j)] + more, Replay(sel, EmptyData(|d|))).data == d[j := db]
    {
      var r := Replay(sel, EmptyData(|d|));
      RunAppend(other, cs + [Select(j)], more, r);
      RunAppend(other, cs, [Select(j)], r);
      SelectSelects(other, j, Run(other, cs, r));
      RunOne(other, Select(j), Run(other, cs, r));
    }
  }

  lemma RunOne(other: Other, c: Cmd, r: Replay)
    requires r.sel < |r.data|
    ensures Run(other, [c], r) == Step(other, c, r)
  {
    hide Step;
    assert [c][1..] == [];
    assert Run(other, [], Step(other, c, r)) == Step(other, c, r);
  }

  /** A log whose replay into empty databases gives the dataset. */
  ghost predicate Dump(other: Other, file: Bytes, d: Dataset) {
    exists cs: seq<Cmd> :: file == EncodeAll(cs) && AllRepresentable(cs) && Rebuilds(other, cs, d)
  }

  /** `rewriteAppendOnlyFile`: the file it writes is a well-formed log whose
      replay gives back the dataset. */
  method RewriteAll(d: Dataset, ghost other: Other) returns (out: Bytes, ghost cs: seq<Cmd>)
    requires Storable(d)
    ensures Dump(other, out, d)
    ensures out == EncodeAll(cs) && AllRepresentable(cs) && Rebuilds(other, cs, d)
  {
    hide EncodeAll, BuildsDb, Run, Representable, Digits;
    out, cs := "", [];
    ghost var done := EmptyData(|d|);
    EncodeNone("");
    RebuildsNothing(other, |d|);
    for j := 0 to |d|
      invariant |done| == |d| && (forall i :: 0 <= i < j ==> done[i] == d[i])
      invariant forall i :: j <= i < |d| ==> done[i] == map[]
      invariant out == EncodeAll(cs) && AllRepresentable(cs) && Rebuilds(other, cs, done)
    {
      if |d[j]| == 0 {
        assert d[j] == map[];
        continue;
      }
      ghost var more;
      SelectRepresentable(j, cs);
      out := CatCommand(out, Select(j));
      EncodeSnoc(cs, Select(j));
      ghost var before := cs + [Select(j)];
      out, more := RewriteDb(out, d[j], other);
      EncodeAllAppend(before, more);
      RebuildsOneMore(other, cs, done, j, more, d[j]);
      cs := before + more;
      done := done[j := d[j]];
    }
    assert done == d;
  }

  lemma EncodeSnoc(cs: seq<Cmd>, c: Cmd)
    ensures EncodeAll(cs + [c]) == EncodeAll(cs) + Encode(c)
  {
    EncodeAllAppend(cs, [c]);
    OneCommand(c);
  }

  lemma SelectRepresentable(j: nat, cs: seq<Cmd>)
    requires j < 0x8000_0000 && AllRepresentable(cs)
    ensures AllRepresentable(cs + [Select(j)])
  {
    hide Digits;
    assert Pow10(4) == 10_000;
    assert Pow10(8) == 10_000 * Pow10(4);
    assert Pow10(10) == 100 * Pow10(8);
    DigitsShort(j, 10);
  }

  lemma RebuildsNothing(other: Other, n: nat)
    ensures Rebuilds(other, [], EmptyData(n))
  {
  }
}
