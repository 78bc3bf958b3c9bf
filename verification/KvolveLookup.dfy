/**
 kvolve_internal.c: finding the namespace of a key. The key buffer is cut in place at
 its last colon, and restored, while shorter and shorter prefixes are looked up.
 */
module KvolveLookup {
  import opened Options
  import opened Kvolve

  const NUL: char := '\0'
  const DEFAULT_NS: string := "*"

  /** The length of a C string. */
  function StrLen(b: seq<char>): (n: nat)
    requires NUL in b
    ensures n < |b| && b[n] == NUL && NUL !in b[..n]
  {
    if b[0] == NUL then 0
    else
      var n := 1 + StrLen(b[1..]);
      assert b[..n] == [b[0]] + b[1..][..n - 1];
      n
  }

  lemma StrLenIs(b: seq<char>, n: nat)
    requires n < |b| && b[n] == NUL && NUL !in b[..n]
    ensures NUL in b && StrLen(b) == n
  {
    var m := StrLen(b);
    forall k | 0 <= k < m ensures b[k] != NUL { assert b[k] == b[..m][k]; }
    forall k | 0 <= k < n ensures b[k] != NUL { assert b[k] == b[..n][k]; }
  }

  /** The C string a buffer holds. */
  function Key(b: seq<char>): string
    requires NUL in b
  {
    b[..StrLen(b)]
  }

  /** A declared namespace that is the key up to a colon. */
  ghost predicate Prefix(m: Registry, key: string, i: nat) {
    i < |key| && key[i] == ':' && key[..i] in m
  }

  /** The namespace of a key: the longest declared prefix that ends just before a colon;
      the default namespace is only for keys without a colon. */
  ghost predicate IsNamespace(m: Registry, key: string, v: Option<Namespace>) {
    if ':' !in key then v == if DEFAULT_NS in m then Some(m[DEFAULT_NS]) else None
    else if v.None? then forall i: nat :: !Prefix(m, key, i)
    else exists i: nat ::
      && Prefix(m, key, i) && v.value == m[key[..i]]
      && forall k: nat :: k > i ==> !Prefix(m, key, k)
  }

  /** `strrchr(s, ':')`: the position of the last colon, or -1. */
  method LastColon(b: array<char>) returns (p: int)
    requires NUL in b[..]
    ensures -1 <= p < StrLen(b[..])
    ensures p == -1 <==> ':' !in Key(b[..])
    ensures p >= 0 ==> b[p] == ':' && ':' !in Key(b[..])[p + 1..]
  {
    p := -1;
    ghost var key := Key(b[..]);
    var i := 0;
    while b[i] != NUL
      invariant i <= |key| && -1 <= p < i
      invariant p == -1 <==> ':' !in key[..i]
      invariant p >= 0 ==> b[p] == ':' && ':' !in key[p + 1..i]
      decreases |key| - i
    {
      assert i < |key|;
      assert b[i] == key[i] && key[..i + 1] == key[..i] + [key[i]];
      if b[i] == ':' {
        p := i;
      } else if p >= 0 {
        assert key[p + 1..i + 1] == key[p + 1..i] + [key[i]];
      }
      i := i + 1;
    }
    assert forall k :: 0 <= k < |key| ==> key[k] != NUL;
    assert key[..i] == key;
  }

  /** `kvolve_version_hash_lookup`. */
  method Lookup(m: Registry, buf: array<char>) returns (v: Option<Namespace>)
    requires NUL in buf[..]
    modifies buf
    ensures buf[..] == old(buf[..])
    ensures IsNamespace(m, Key(buf[..]), v)
    decreases StrLen(buf[..])
  {
    hide IsNamespace, StrLen;
    ghost var b, key := buf[..], Key(buf[..]);
    var split := LastColon(buf);
    if split == -1 {
      v := if DEFAULT_NS in m then Some(m[DEFAULT_NS]) else None;
      NoColon(m, key, v);
      return;
    }
    assert buf[..split] == key[..split];
    if buf[..split] in m {
      v := Some(m[buf[..split]]);
      Found(m, key, split);
      return;
    }
    v := None;
    Cut(b, split);
    buf[split] := NUL;
    assert buf[..] == b[split := NUL];
    var again := LastColon(buf);
    if again != -1 {
      v := Lookup(m, buf);
      Shorter(m, key, split, v);
    } else {
      NoneLeft(m, key, split);
    }
    buf[split] := ':';
    assert buf[..] == b;
  }

  /** Cutting a C string at position `p`. */
  lemma Cut(b: seq<char>, p: nat)
    requires NUL in b && p < StrLen(b)
    ensures NUL in b[p := NUL] && StrLen(b[p := NUL]) == p && Key(b[p := NUL]) == Key(b)[..p]
  {
    var c, n := b[p := NUL], StrLen(b);
    assert c[..p] == b[..n][..p];
    forall k | 0 <= k < p ensures c[..p][k] != NUL { assert b[..n][k] in b[..n]; }
    StrLenIs(c, p);
  }

  lemma NoColon(m: Registry, key: string, v: Option<Namespace>)
    requires ':' !in key && v == if DEFAULT_NS in m then Some(m[DEFAULT_NS]) else None
    ensures IsNamespace(m, key, v)
  {
  }

  lemma Found(m: Registry, key: string, p: nat)
    requires p < |key| && key[p] == ':' && ':' !in key[p + 1..] && key[..p] in m
    ensures IsNamespace(m, key, Some(m[key[..p]]))
  {
    assert Prefix(m, key, p);
    forall k: nat | k > p ensures !Prefix(m, key, k) {
      if k < |key| { assert key[k] == key[p + 1..][k - p - 1]; }
    }
  }

  /** A colon that is not the last one is a colon of the cut key. */
  lemma SamePrefixes(m: Registry, key: string, p: nat, k: nat)
    requires p < |key| && key[p] == ':' && ':' !in key[p + 1..] && key[..p] !in m
    ensures Prefix(m, key, k) <==> Prefix(m, key[..p], k)
  {
    if k > p && k < |key| { assert key[k] == key[p + 1..][k - p - 1]; }
    if k < p { assert key[..p][..k] == key[..k] && key[..p][k] == key[k]; }
  }

  lemma Shorter(m: Registry, key: string, p: nat, v: Option<Namespace>)
    requires p < |key| && key[p] == ':' && ':' !in key[p + 1..] && key[..p] !in m
    requires ':' in key[..p] && IsNamespace(m, key[..p], v)
    ensures IsNamespace(m, key, v)
  {
    forall k: nat ensures Prefix(m, key, k) <==> Prefix(m, key[..p], k) { SamePrefixes(m, key, p, k); }
    assert key[p] in key;
    if v.Some? {
      var i: nat :| Prefix(m, key[..p], i) && v.value == m[key[..p][..i]] &&
        forall k: nat :: k > i ==> !Prefix(m, key[..p], k);
      PrefixIn(m, key, p, i);
    }
  }

  lemma PrefixIn(m: Registry, key: string, p: nat, i: nat)
    requires p < |key| && Prefix(m, key[..p], i)
    ensures i < p && key[..p][..i] == key[..i]
  {
  }

  lemma NoneLeft(m: Registry, key: string, p: nat)
    requires p < |key| && key[p] == ':' && ':' !in key[p + 1..] && key[..p] !in m && ':' !in key[..p]
    ensures IsNamespace(m, key, None)
  {
    assert key[p] in key;
    forall k: nat ensures !Prefix(m, key, k) {
      SamePrefixes(m, key, p, k);
      NoPrefix(m, key[..p], k);
    }
  }

  lemma NoPrefix(m: Registry, key: string, k: nat)
    requires ':' !in key
    ensures !Prefix(m, key, k)
  {
    if k < |key| { assert key[k] in key; }
  }
}
