/**
 The lazy update protocol of lazyupdredis.py for one namespace: clients run
 `get`, `set`, `delete` and `do_upd` as separate Redis commands that interleave
 freely. Keys are stored under a version and a name; `get` moves an old copy to
 the client's newest version inside WATCH/MULTI/EXEC.

 The logical value of a name is what an eager system, which migrates every key
 at upgrade time, would hold: the newest stored copy with the remaining updates
 applied.
 */
module Lazy {
  import opened Options

  type Ver = string
  type Name = string
  type Text = string

  /** Placeholder stored for a key known to be missing. */
  const MARKER: Text := "#### ####"

  /** Texts that may be JSON; the marker is not. */
  type Json = t: Text | t != MARKER witness ""

  /** What the update dictionary holds for one pair of adjacent versions and one
      name: no entry, an entry no function of which matches the name, or
      functions to run on the decoded value (which may raise). */
  datatype Rule = NoRule | NoMatch | Run(f: Json -> Option<Json>)

  type Env = (Ver, Ver, Name) -> Rule

  /** One update; decoding the marker raises. */
  function Update(r: Rule, v: Text): (u: Option<Text>)
    ensures u.Some? ==> (u.value == MARKER <==> v == MARKER)
  {
    match r
    case NoRule => None
    case NoMatch => Some(v)
    case Run(f) => if v == MARKER then None else f(v)
  }

  /** Updates from version `vs[i]` up to `vs[0]`; the list is newest first. */
  function Migrate(env: Env, vs: seq<Ver>, i: nat, k: Name, v: Text): (r: Option<Text>)
    requires i < |vs|
    ensures r.Some? ==> (r.value == MARKER <==> v == MARKER)
  {
    if i == 0 then Some(v)
    else
      match Update(env(vs[i], vs[i - 1], k), v)
      case None => None
      case Some(u) => Migrate(env, vs, i - 1, k, u)
  }

  /** A rule takes a value to the next one: by its function, or as it is. */
  ghost predicate Moves(r: Rule, x: Text, y: Text) {
    match r
    case NoRule => false
    case NoMatch => y == x
    case Run(f) => x != MARKER && f(x) == Some(y)
  }

  /** There is no update, its function raises, or the value is not JSON. */
  ghost predicate Stuck(r: Rule, x: Text) {
    match r
    case NoRule => true
    case NoMatch => false
    case Run(f) => x == MARKER || f(x).None?
  }

  /** The rule from version `vs[i - j]` to the next newer one. */
  ghost function RuleAt(env: Env, vs: seq<Ver>, i: nat, k: Name, j: nat): Rule
    requires j < i < |vs|
  {
    env(vs[i - j], vs[i - j - 1], k)
  }

  /** The values a copy at `vs[i]` goes through on its way to `vs[0]`, as far as it gets. */
  ghost predicate Follows(env: Env, vs: seq<Ver>, i: nat, k: Name, xs: seq<Text>)
    requires i < |vs|
  {
    && 1 <= |xs| <= i + 1
    && (forall j :: 0 <= j < |xs| - 1 ==> Moves(RuleAt(env, vs, i, k, j), xs[j], xs[j + 1]))
    && (|xs| <= i ==> Stuck(RuleAt(env, vs, i, k, |xs| - 1), xs[|xs| - 1]))
  }

  /** The loop of `get` that applies the updates, oldest first. */
  method ApplyUpdates(env: Env, vs: seq<Ver>, i: nat, k: Name, v: Text) returns (r: Option<Text>, ghost xs: seq<Text>)
    requires i < |vs|
    ensures r == Migrate(env, vs, i, k, v)
    ensures xs != [] && xs[0] == v && Follows(env, vs, i, k, xs)
    ensures r == if |xs| == i + 1 then Some(xs[i]) else None
  {
    var j, val := i, v;
    xs := [v];
    while j > 0
      invariant 0 <= j <= i && Migrate(env, vs, j, k, val) == Migrate(env, vs, i, k, v)
      invariant |xs| == i - j + 1 && xs[0] == v && xs[i - j] == val
      invariant forall n :: 0 <= n < i - j ==> Moves(RuleAt(env, vs, i, k, n), xs[n], xs[n + 1])
    {
      match Update(env(vs[j], vs[j - 1], k), val)
      case None => return None, xs;
      case Some(u) =>
        val := u;
        xs := xs + [u];
      j := j - 1;
    }
    return Some(val), xs;
  }

  /** Every copy has such values; they end at the newest version exactly when migration
      succeeds, and there with its result. */
  lemma {:induction false} MigrateFollows(env: Env, vs: seq<Ver>, i: nat, k: Name, v: Text) returns (xs: seq<Text>)
    requires i < |vs|
    ensures xs != [] && xs[0] == v && Follows(env, vs, i, k, xs)
    ensures Migrate(env, vs, i, k, v) == if |xs| == i + 1 then Some(xs[i]) else None
  {
    xs := [v];
    if i > 0 {
      match Update(env(vs[i], vs[i - 1], k), v) {
        case None =>
        case Some(u) =>
          var ys := MigrateFollows(env, vs, i - 1, k, u);
          xs := [v] + ys;
          forall j | 0 <= j < |xs| - 1 ensures Moves(RuleAt(env, vs, i, k, j), xs[j], xs[j + 1]) {
            if j > 0 { assert RuleAt(env, vs, i, k, j) == RuleAt(env, vs, i - 1, k, j - 1); }
          }
          if |ys| <= i - 1 {
            assert RuleAt(env, vs, i, k, |xs| - 1) == RuleAt(env, vs, i - 1, k, |ys| - 1);
          }
      }
    }
  }

  /** They are determined by where they start. */
  lemma {:induction false} FollowsUnique(env: Env, vs: seq<Ver>, i: nat, k: Name, xs: seq<Text>, ys: seq<Text>, n: nat)
    requires i < |vs| && Follows(env, vs, i, k, xs) && Follows(env, vs, i, k, ys) && xs[0] == ys[0]
    requires n < |xs|
    ensures n < |ys| && xs[n] == ys[n]
  {
    if n > 0 {
      FollowsUnique(env, vs, i, k, xs, ys, n - 1);
      assert Moves(RuleAt(env, vs, i, k, n - 1), xs[n - 1], xs[n]);
    }
  }

  lemma FollowsSame(env: Env, vs: seq<Ver>, i: nat, k: Name, xs: seq<Text>, ys: seq<Text>)
    requires i < |vs| && Follows(env, vs, i, k, xs) && Follows(env, vs, i, k, ys) && xs[0] == ys[0]
    ensures xs == ys
  {
    FollowsUnique(env, vs, i, k, xs, ys, |xs| - 1);
    FollowsUnique(env, vs, i, k, ys, xs, |ys| - 1);
    forall n | 0 <= n < |xs| ensures xs[n] == ys[n] { FollowsUnique(env, vs, i, k, xs, ys, n); }
  }

  /** Migrating in two legs is migrating in one. */
  lemma {:induction false} MigrateLegs(env: Env, vs: seq<Ver>, n: nat, i: nat, k: Name, v: Text)
    requires n + i < |vs|
    ensures Migrate(env, vs, n + i, k, v) ==
            match Migrate(env, vs[n..], i, k, v) { case None => None case Some(u) => Migrate(env, vs, n, k, u) }
    decreases i
  {
    if i > 0 {
      match Update(env(vs[n + i], vs[n + i - 1], k), v) {
        case None =>
        case Some(u) => MigrateLegs(env, vs, n, i - 1, k, u);
      }
    }
  }

  // The keyspace.

  type Store = map<(Ver, Name), Text>

  /** Index of the newest version with a copy, or |vs|. */
  function First(s: Store, vs: seq<Ver>, k: Name): (i: nat)
    ensures i <= |vs|
    ensures forall j :: 0 <= j < i ==> (vs[j], k) !in s
    ensures i < |vs| ==> (vs[i], k) in s
  {
    if vs == [] then 0 else if (vs[0], k) in s then 0 else 1 + First(s, vs[1..], k)
  }

  datatype Outcome = Absent | Present(v: Text) | Broken

  function Logical(env: Env, s: Store, vs: seq<Ver>, k: Name): Outcome {
    var i := First(s, vs, k);
    if i == |vs| || s[(vs[i], k)] == MARKER then Absent
    else
      match Migrate(env, vs, i, k, s[(vs[i], k)])
      case None => Broken
      case Some(v) => Present(v)
  }

  // Clients and steps.

  /** Where a client stands in an operation. */
  datatype Pc =
    | Idle
    | Want(k: Name)                      // get: about to try the current version
    | Missed(k: Name)                    // about to look at all versions
    | Nowhere(k: Name)                   // no copy found: about to SETNX the marker
    | Somewhere(k: Name)                 // about to WATCH
    | Watching(k: Name, dirty: bool)     // about to read again
    | Ready(k: Name, from: Ver, v: Text, dirty: bool)  // transaction queued, about to EXEC
    | Cleaning(k: Name)                  // set: about to DEL the older copies

  datatype Client = Client(vs: seq<Ver>, pc: Pc)

  datatype State = State(store: Store, vers: seq<Ver>, clients: map<nat, Client>)

  datatype Step =
    | Connect(c: nat)
    | Leave(c: nat)
    | Begin(c: nat, k: Name)
    | TryCurrent(c: nat)
    | Probe(c: nat)
    | Mark(c: nat)
    | Watch(c: nat, spurious: bool)
    | Read(c: nat)
    | Exec(c: nat)
    | Put(c: nat, k: Name, v: Text)
    | Clean(c: nat)
    | Delete(c: nat, k: Name)
    | Upgrade(c: nat, v: Ver)

  predicate Current(st: State, c: nat) {
    c in st.clients && st.clients[c].vs == st.vers
  }

  predicate Live(st: State, c: nat) {
    c in st.clients && st.clients[c].vs != []
  }

  /** Writers must be at the current version: deprecated clients are disconnected
      with the version bump. Readers may lag behind. */
  predicate Enabled(st: State, e: Step) {
    match e
    case Connect(c) => c !in st.clients
    case Leave(c) => c in st.clients
    case Begin(c, k) => Live(st, c) && st.clients[c].pc.Idle?
    case TryCurrent(c) => Live(st, c) && st.clients[c].pc.Want?
    case Probe(c) => Live(st, c) && st.clients[c].pc.Missed?
    case Mark(c) => Live(st, c) && st.clients[c].pc.Nowhere?
    case Watch(c, _) => Live(st, c) && st.clients[c].pc.Somewhere?
    case Read(c) => Live(st, c) && st.clients[c].pc.Watching?
    case Exec(c) => Live(st, c) && st.clients[c].pc.Ready?
    case Put(c, _, _) => Live(st, c) && st.clients[c].pc.Idle? && Current(st, c)
    case Clean(c) => Live(st, c) && st.clients[c].pc.Cleaning?
    case Delete(c, _) => Live(st, c) && st.clients[c].pc.Idle? && Current(st, c)
    case Upgrade(c, v) => Live(st, c) && st.clients[c].pc.Idle? && Current(st, c)
  }

  function Move(st: State, c: nat, pc: Pc): State
    requires c in st.clients
  {
    st.(clients := st.clients[c := st.clients[c].(pc := pc)])
  }

  predicate Watches(cl: Client, written: set<(Ver, Name)>) {
    (cl.pc.Watching? || cl.pc.Ready?) && exists v :: v in cl.vs && (v, cl.pc.k) in written
  }

  function Spoil(cl: Client): Client {
    if cl.pc.Watching? || cl.pc.Ready? then cl.(pc := cl.pc.(dirty := true)) else cl
  }

  /** A write spoils the transactions that watch a written key. */
  function Write(st: State, s: Store, written: set<(Ver, Name)>): State {
    st.(store := s,
        clients := map c | c in st.clients ::
          if Watches(st.clients[c], written) then Spoil(st.clients[c]) else st.clients[c])
  }

  /** Keys holding copies of `k` at the versions listed. */
  function Copies(s: Store, vs: seq<Ver>, k: Name): set<(Ver, Name)> {
    set v | v in vs && (v, k) in s :: (v, k)
  }

  /** What `get` does on reading: nothing found, current copy, failed update, or a
      transaction to run. */
  function ReadPc(env: Env, s: Store, vs: seq<Ver>, k: Name, dirty: bool): Pc {
    var i := First(s, vs, k);
    if i == 0 || i == |vs| then Idle
    else
      match Migrate(env, vs, i, k, s[(vs[i], k)])
      case None => Idle
      case Some(v) => Ready(k, vs[i], v, dirty)
  }

  function Apply(env: Env, st: State, e: Step): State
    requires Enabled(st, e)
  {
    match e
    case Connect(c) => st.(clients := st.clients[c := Client(st.vers, Idle)])
    case Leave(c) => st.(clients := st.clients - {c})
    case Begin(c, k) => Move(st, c, Want(k))
    case TryCurrent(c) =>
      var Client(vs, pc) := st.clients[c];
      Move(st, c, if (vs[0], pc.k) in st.store && st.store[(vs[0], pc.k)] != "" then Idle else Missed(pc.k))
    case Probe(c) =>
      var Client(vs, pc) := st.clients[c];
      Move(st, c, if First(st.store, vs, pc.k) == |vs| then Nowhere(pc.k) else Somewhere(pc.k))
    case Mark(c) =>
      var Client(vs, pc) := st.clients[c];
      var x := (vs[0], pc.k);
      var st' := Move(st, c, Idle);
      if x in st.store then st' else Write(st', st.store[x := MARKER], {x})
    case Watch(c, spurious) => Move(st, c, Watching(st.clients[c].pc.k, spurious))
    case Read(c) =>
      var Client(vs, pc) := st.clients[c];
      Move(st, c, ReadPc(env, st.store, vs, pc.k, pc.dirty))
    case Exec(c) =>
      var Client(vs, pc) := st.clients[c];
      if pc.dirty then Move(st, c, Want(pc.k))
      else
        var src, dst := (pc.from, pc.k), (vs[0], pc.k);
        Write(Move(st, c, Idle), (st.store - {src})[dst := pc.v], {src, dst})
    case Put(c, k, v) =>
      var x := (st.vers[0], k);
      var pc := if x in st.store || |st.vers| == 1 then Idle else Cleaning(k);
      Write(Move(st, c, pc), st.store[x := v], {x})
    case Clean(c) =>
      var Client(vs, pc) := st.clients[c];
      var gone := Copies(st.store, vs[1..], pc.k);
      Write(Move(st, c, Idle), st.store - gone, gone)
    case Delete(c, k) =>
      var gone := Copies(st.store, st.vers, k);
      Write(Move(st, c, Idle), st.store - gone, gone)
    case Upgrade(c, v) =>
      if st.vers[0] == v then st
      else
        var vs := [v] + st.vers;
        State(st.store, vs,
              map d | d in st.clients :: if d == c then Client(vs, Idle) else Spoil(st.clients[d]))
  }

  // The eager system.

  type Eager = Name -> Outcome

  /** A logical value after one more update. */
  function Upgraded(env: Env, a: Ver, b: Ver, k: Name, o: Outcome): Outcome {
    match o
    case Absent => Absent
    case Broken => Broken
    case Present(x) => match Update(env(a, b, k), x) case None => Broken case Some(y) => Present(y)
  }

  /** An upgrade of the eager system takes a value where its rule takes it, and breaks it
      exactly when the rule is stuck on it. */
  lemma UpgradedIs(env: Env, a: Ver, b: Ver, k: Name, x: Text, y: Text)
    ensures Upgraded(env, a, b, k, Present(x)) == Present(y) <==> Moves(env(a, b, k), x, y)
    ensures Upgraded(env, a, b, k, Present(x)) == Broken <==> Stuck(env(a, b, k), x)
    ensures Upgraded(env, a, b, k, Absent) == Absent && Upgraded(env, a, b, k, Broken) == Broken
  {
  }

  /** The eager system reacts to sets, deletes and upgrades only; an upgrade
      updates every key at once. */
  function EagerApply(env: Env, vers: seq<Ver>, m: Eager, e: Step): Eager {
    match e
    case Put(_, k, v) => (j: Name) => if j == k then Present(v) else m(j)
    case Delete(_, k) => (j: Name) => if j == k then Absent else m(j)
    case Upgrade(_, v) => (j: Name) =>
      if vers == [] || vers[0] == v then m(j) else Upgraded(env, vers[0], v, j, m(j))
    case _ => m
  }

  /** A version bump by a name not used before; one to the current name does nothing. */
  predicate NewName(vers: seq<Ver>, v: Ver) {
    v !in vers || (vers != [] && v == vers[0])
  }

  /** What the callers must see to: the value set is not the marker, and a new version
      has a new name. Neither is checked by the code. */
  predicate Careful(st: State, e: Step) {
    && (e.Put? ==> e.v != MARKER)
    && (e.Upgrade? ==> NewName(st.vers, e.v))
  }

  // Invariant.

  ghost predicate Distinct(vs: seq<Ver>) {
    forall i, j :: 0 <= i < j < |vs| ==> vs[i] != vs[j]
  }

  ghost predicate Suffix(a: seq<Ver>, b: seq<Ver>) {
    |a| <= |b| && a == b[|b| - |a|..]
  }

  /** Nothing older than position `n` matters for `k`: a copy at or above `n`
      hides it, or it is only the marker. */
  ghost predicate Settled(s: Store, vs: seq<Ver>, k: Name, n: nat) {
    var i := First(s, vs, k);
    i <= n || i == |vs| || s[(vs[i], k)] == MARKER
  }

  ghost predicate ClientOk(env: Env, s: Store, vers: seq<Ver>, cl: Client) {
    && cl.vs != [] && Suffix(cl.vs, vers)
    && (cl.pc.Nowhere? || cl.pc.Cleaning? ==> Settled(s, vers, cl.pc.k, |vers| - |cl.vs|))
    && (cl.pc.Ready? && !cl.pc.dirty ==>
          var i := First(s, cl.vs, cl.pc.k);
          && 0 < i < |cl.vs| && cl.pc.from == cl.vs[i]
          && Migrate(env, cl.vs, i, cl.pc.k, s[(cl.vs[i], cl.pc.k)]) == Some(cl.pc.v))
  }

  ghost predicate Inv(env: Env, st: State) {
    && st.vers != [] && Distinct(st.vers)
    && (forall v, k :: (v, k) in st.store ==> v in st.vers)
    && (forall c :: c in st.clients ==> ClientOk(env, st.store, st.vers, st.clients[c]))
  }

  ghost predicate Refines(env: Env, st: State, m: Eager) {
    forall k :: Logical(env, st.store, st.vers, k) == m(k)
  }

  // How one write changes the logical value.

  /** Only copies of `k` at listed versions matter. */
  lemma {:induction false} FirstFrame(s: Store, t: Store, vs: seq<Ver>, k: Name)
    requires forall v :: v in vs ==> ((v, k) in s <==> (v, k) in t)
    ensures First(s, vs, k) == First(t, vs, k)
  {
    if vs != [] {
      FirstFrame(s, t, vs[1..], k);
    }
  }

  lemma LogicalFrame(env: Env, s: Store, t: Store, vs: seq<Ver>, k: Name)
    requires forall v :: v in vs ==> ((v, k) in s <==> (v, k) in t)
    requires forall v :: v in vs && (v, k) in s ==> s[(v, k)] == t[(v, k)]
    ensures First(s, vs, k) == First(t, vs, k)
    ensures Logical(env, s, vs, k) == Logical(env, t, vs, k)
  {
    FirstFrame(s, t, vs, k);
  }

  /** `First` is determined by its two properties. */
  lemma {:induction false} FirstIs(s: Store, vs: seq<Ver>, k: Name, i: nat)
    requires i <= |vs| && (forall j :: 0 <= j < i ==> (vs[j], k) !in s) && (i < |vs| ==> (vs[i], k) in s)
    ensures First(s, vs, k) == i
  {
    var f := First(s, vs, k);
    assert f < |vs| ==> (vs[f], k) in s;
  }

  lemma FirstOfSuffix(s: Store, vs: seq<Ver>, n: nat, k: Name)
    requires n <= |vs|
    ensures First(s, vs, k) >= n ==> First(s, vs, k) == n + First(s, vs[n..], k)
  {
    var i := First(s, vs[n..], k);
    if First(s, vs, k) >= n {
      forall j | 0 <= j < n + i ensures (vs[j], k) !in s {
        if j >= n { assert vs[j] == vs[n..][j - n]; }
      }
      FirstIs(s, vs, k, n + i);
    }
  }

  lemma HiddenMove(env: Env, s: Store, vs: seq<Ver>, n: nat, i: nat, k: Name, u: Text)
    requires Distinct(vs) && n < i < |vs| && First(s, vs, k) < n
    ensures var t := (s - {(vs[i], k)})[(vs[n], k) := u];
            && Logical(env, t, vs, k) == Logical(env, s, vs, k)
            && First(t, vs, k) == First(s, vs, k)
            && t[(vs[First(s, vs, k)], k)] == s[(vs[First(s, vs, k)], k)]
  {
    hide First, Migrate;
    var t := (s - {(vs[i], k)})[(vs[n], k) := u];
    FirstIs(t, vs, k, First(s, vs, k));
  }

  lemma VisibleMove(env: Env, s: Store, vs: seq<Ver>, n: nat, i: nat, k: Name, u: Text)
    requires Distinct(vs) && n < i < |vs| && First(s, vs, k) == i
    requires Migrate(env, vs[n..], i - n, k, s[(vs[i], k)]) == Some(u)
    ensures var t := (s - {(vs[i], k)})[(vs[n], k) := u];
            && Logical(env, t, vs, k) == Logical(env, s, vs, k)
            && First(t, vs, k) == n && (u == MARKER <==> s[(vs[i], k)] == MARKER)
  {
    hide First, Migrate;
    var t := (s - {(vs[i], k)})[(vs[n], k) := u];
    FirstIs(t, vs, k, n);
    MigrateLegs(env, vs, n, i - n, k, s[(vs[i], k)]);
  }

  /** Moving the newest copy known to a client up to that client's newest version
      changes no logical value, even if the client lags behind. */
  lemma MoveKeepsLogical(env: Env, s: Store, vs: seq<Ver>, n: nat, k: Name, u: Text)
    requires Distinct(vs) && n < |vs|
    requires var cv := vs[n..]; var i := First(s, cv, k);
             0 < i < |cv| && Migrate(env, cv, i, k, s[(cv[i], k)]) == Some(u)
    ensures var i := n + First(s, vs[n..], k);
            var t := (s - {(vs[i], k)})[(vs[n], k) := u];
            && Logical(env, t, vs, k) == Logical(env, s, vs, k)
            && (First(t, vs, k) == First(s, vs, k) < n ||
                (First(t, vs, k) == n && First(s, vs, k) == i && (u == MARKER <==> s[(vs[i], k)] == MARKER)))
            && (First(s, vs, k) < n ==> t[(vs[First(s, vs, k)], k)] == s[(vs[First(s, vs, k)], k)])
  {
    hide First, Migrate, Logical;
    var d := First(s, vs[n..], k);
    assert vs[n..][d] == vs[n + d];
    FirstOfSuffix(s, vs, n, k);
    if First(s, vs, k) < n {
      HiddenMove(env, s, vs, n, n + d, k, u);
    } else {
      VisibleMove(env, s, vs, n, n + d, k, u);
    }
  }

  /** The marker placed over nothing, or over a hidden or marker copy. */
  lemma MarkKeepsLogical(env: Env, s: Store, vs: seq<Ver>, n: nat, k: Name)
    requires Distinct(vs) && n < |vs| && (vs[n], k) !in s && Settled(s, vs, k, n)
    ensures var t := s[(vs[n], k) := MARKER];
            && Logical(env, t, vs, k) == Logical(env, s, vs, k)
            && (forall m :: Settled(s, vs, k, m) ==> Settled(t, vs, k, m))
  {
    var t := s[(vs[n], k) := MARKER];
    var f := First(s, vs, k);
    FirstIs(t, vs, k, if f < n then f else n);
  }

  /** Dropping the copies older than position `n` when they do not count. */
  lemma CleanKeepsLogical(env: Env, s: Store, vs: seq<Ver>, n: nat, k: Name)
    requires Distinct(vs) && n < |vs| && Settled(s, vs, k, n)
    ensures var t := s - Copies(s, vs[n + 1..], k);
            && Logical(env, t, vs, k) == Logical(env, s, vs, k)
            && (forall m :: Settled(s, vs, k, m) ==> Settled(t, vs, k, m))
  {
    var t := s - Copies(s, vs[n + 1..], k);
    var f := First(s, vs, k);
    forall j | 0 <= j < |vs| ensures (vs[j], k) in t <==> (vs[j], k) in s && j <= n {
      if j > n { assert vs[n + 1..][j - n - 1] == vs[j]; }
    }
    FirstIs(t, vs, k, if f <= n then f else |vs|);
  }

  lemma PutLogical(env: Env, s: Store, vs: seq<Ver>, k: Name, v: Text)
    requires vs != []
    ensures var t := s[(vs[0], k) := v];
            && Logical(env, t, vs, k) == (if v == MARKER then Absent else Present(v))
            && First(t, vs, k) == 0
  {
  }

  lemma DeleteLogical(env: Env, s: Store, vs: seq<Ver>, k: Name)
    ensures var t := s - Copies(s, vs, k);
            && Logical(env, t, vs, k) == Absent
            && First(t, vs, k) == |vs|
  {
    var t := s - Copies(s, vs, k);
    FirstIs(t, vs, k, |vs|);
  }

  lemma BumpLogical(env: Env, s: Store, vs: seq<Ver>, v: Ver, k: Name)
    requires vs != [] && (v, k) !in s
    ensures Logical(env, s, [v] + vs, k) == Upgraded(env, vs[0], v, k, Logical(env, s, vs, k))
    ensures First(s, [v] + vs, k) == 1 + First(s, vs, k)
  {
    var ws := [v] + vs;
    assert ws[1..] == vs;
    var i := First(s, vs, k);
    if i < |vs| {
      MigrateLegs(env, ws, 1, i, k, s[(vs[i], k)]);
    }
  }

  /** No copy of `k` stored under the name `v` that a bump to `v` would bring to light. */
  predicate Unseen(s: Store, vs: seq<Ver>, v: Ver, k: Name) {
    || (v, k) !in s
    || (s[(v, k)] == MARKER && (First(s, vs, k) == |vs| || s[(vs[First(s, vs, k)], k)] == MARKER))
  }

  /** A version bump alone applies the new update to the logical value of `k`, whatever
      the updates are, exactly when no old copy comes to light; in particular when the
      name of the version is new. */
  lemma UpgradeLogical(s: Store, vs: seq<Ver>, v: Ver, k: Name)
    requires vs != []
    ensures (forall env: Env :: Logical(env, s, [v] + vs, k) == Upgraded(env, vs[0], v, k, Logical(env, s, vs, k)))
            <==> Unseen(s, vs, v, k)
  {
    if Unseen(s, vs, v, k) {
      forall env: Env ensures Logical(env, s, [v] + vs, k) == Upgraded(env, vs[0], v, k, Logical(env, s, vs, k)) {
        if (v, k) !in s { BumpLogical(env, s, vs, v, k); } else { assert ([v] + vs)[0] == v; }
      }
    } else {
      var none: Env := (_, _, _) => NoRule;
      assert ([v] + vs)[0] == v && First(s, [v] + vs, k) == 0;
      assert Logical(none, s, [v] + vs, k) != Upgraded(none, vs[0], v, k, Logical(none, s, vs, k));
    }
  }

  // Steps keep the invariant and follow the eager system.

  /** A write confined to `written`, all of it copies of `k`. */
  ghost predicate Confined(s: Store, t: Store, written: set<(Ver, Name)>, k: Name) {
    && (forall x :: x in written ==> x.1 == k)
    && (forall x :: x !in written ==> (x in s <==> x in t))
    && (forall x :: x !in written && x in s ==> s[x] == t[x])
  }

  lemma ClientFrame(env: Env, s: Store, t: Store, vers: seq<Ver>, written: set<(Ver, Name)>, k: Name, cl: Client)
    requires ClientOk(env, s, vers, cl) && Confined(s, t, written, k)
    requires forall n :: Settled(s, vers, k, n) ==> Settled(t, vers, k, n)
    ensures ClientOk(env, t, vers, if Watches(cl, written) then Spoil(cl) else cl)
  {
    if cl.pc.Nowhere? || cl.pc.Cleaning? {
      if cl.pc.k != k { LogicalFrame(env, s, t, vers, cl.pc.k); }
    } else if cl.pc.Ready? && !cl.pc.dirty && !Watches(cl, written) {
      LogicalFrame(env, s, t, cl.vs, cl.pc.k);
    }
  }

  /** A client moves on and writes copies of `k`: the other clients stay in
      order, and only `k` can change its logical value. */
  lemma WriteKeepsInv(env: Env, st: State, c: nat, pc: Pc, t: Store, written: set<(Ver, Name)>, k: Name)
    requires Inv(env, st) && c in st.clients
    requires !pc.Watching? && !pc.Ready? && ClientOk(env, t, st.vers, st.clients[c].(pc := pc))
    requires Confined(st.store, t, written, k) && forall x :: x in written ==> x.0 in st.vers
    requires forall n :: Settled(st.store, st.vers, k, n) ==> Settled(t, st.vers, k, n)
    ensures Inv(env, Write(Move(st, c, pc), t, written))
    ensures forall j :: j != k ==> Logical(env, t, st.vers, j) == Logical(env, st.store, st.vers, j)
  {
    hide ClientOk, Settled, Watches, Logical;
    var r := Write(Move(st, c, pc), t, written);
    forall d | d in r.clients ensures ClientOk(env, r.store, r.vers, r.clients[d]) {
      if d != c { ClientFrame(env, st.store, t, st.vers, written, k, st.clients[d]); }
      else { NotWatching(st.clients[c].(pc := pc), written); }
    }
    forall v, j | (v, j) in t ensures v in st.vers {
      if (v, j) !in written { assert (v, j) in st.store; }
    }
    forall j | j != k ensures Logical(env, t, st.vers, j) == Logical(env, st.store, st.vers, j) {
      LogicalFrame(env, st.store, t, st.vers, j);
    }
  }

  lemma NotWatching(cl: Client, written: set<(Ver, Name)>)
    requires !cl.pc.Watching? && !cl.pc.Ready?
    ensures !Watches(cl, written)
  {
  }

  lemma MoveKeepsInv(env: Env, st: State, c: nat, pc: Pc)
    requires Inv(env, st) && c in st.clients
    requires ClientOk(env, st.store, st.vers, st.clients[c].(pc := pc))
    ensures Inv(env, Move(st, c, pc))
  {
    hide ClientOk;
  }

  lemma FromInv(env: Env, st: State, c: nat)
    requires Inv(env, st) && c in st.clients
    ensures st.vers != [] && Distinct(st.vers) && ClientOk(env, st.store, st.vers, st.clients[c])
  {
  }

  lemma MarkStep(env: Env, st: State, e: Step)
    requires Inv(env, st) && Enabled(st, e) && e.Mark?
    ensures Inv(env, Apply(env, st, e))
    ensures forall j :: Logical(env, Apply(env, st, e).store, st.vers, j) == Logical(env, st.store, st.vers, j)
  {
    hide Inv, Logical, First, Migrate;
    var c := e.c;
    var Client(vs, pc) := st.clients[c];
    FromInv(env, st, c);
    MoveKeepsInv(env, st, c, Idle);
    var x := (vs[0], pc.k);
    if x !in st.store {
      MarkKeepsLogical(env, st.store, st.vers, |st.vers| - |vs|, pc.k);
      WriteKeepsInv(env, st, c, Idle, st.store[x := MARKER], {x}, pc.k);
    }
  }

  lemma ExecStep(env: Env, st: State, e: Step)
    requires Inv(env, st) && Enabled(st, e) && e.Exec?
    ensures Inv(env, Apply(env, st, e))
    ensures forall j :: Logical(env, Apply(env, st, e).store, st.vers, j) == Logical(env, st.store, st.vers, j)
    ensures !st.clients[e.c].pc.dirty && Current(st, e.c) ==>
              First(Apply(env, st, e).store, st.vers, st.clients[e.c].pc.k) == 0
  {
    hide Inv, Logical, First, Migrate;
    var c := e.c;
    var Client(vs, pc) := st.clients[c];
    FromInv(env, st, c);
    if pc.dirty {
      MoveKeepsInv(env, st, c, Want(pc.k));
    } else {
      var n, k := |st.vers| - |vs|, pc.k;
      var src, dst := (pc.from, k), (vs[0], k);
      MoveKeepsLogical(env, st.store, st.vers, n, k, pc.v);
      assert vs[First(st.store, vs, k)] == st.vers[n + First(st.store, vs, k)] && vs[0] == st.vers[n];
      WriteKeepsInv(env, st, c, Idle, (st.store - {src})[dst := pc.v], {src, dst}, k);
    }
  }

  lemma CleanStep(env: Env, st: State, e: Step)
    requires Inv(env, st) && Enabled(st, e) && e.Clean?
    ensures Inv(env, Apply(env, st, e))
    ensures forall j :: Logical(env, Apply(env, st, e).store, st.vers, j) == Logical(env, st.store, st.vers, j)
  {
    hide Inv, Logical, First, Migrate;
    var c := e.c;
    var Client(vs, pc) := st.clients[c];
    FromInv(env, st, c);
    var n, k := |st.vers| - |vs|, pc.k;
    assert vs[1..] == st.vers[n + 1..];
    var gone := Copies(st.store, vs[1..], k);
    CleanKeepsLogical(env, st.store, st.vers, n, k);
    WriteKeepsInv(env, st, c, Idle, st.store - gone, gone, k);
  }

  /** A set takes effect at its GETSET, on its key alone; the key then has the value set
      exactly when that is not the marker. */
  lemma PutStep(env: Env, st: State, e: Step)
    requires Inv(env, st) && Enabled(st, e) && e.Put?
    ensures Inv(env, Apply(env, st, e))
    ensures forall j :: j != e.k ==>
              Logical(env, Apply(env, st, e).store, st.vers, j) == Logical(env, st.store, st.vers, j)
    ensures Logical(env, Apply(env, st, e).store, st.vers, e.k) == Present(e.v) <==> e.v != MARKER
  {
    hide Inv, Logical, First, Migrate, Settled, ClientOk, Enabled;
    assert Live(st, e.c) by { PutLive(st, e); }
    FromInv(env, st, e.c);
    var x := (st.vers[0], e.k);
    var t := st.store[x := e.v];
    var pc := if x in st.store || |st.vers| == 1 then Idle else Cleaning(e.k);
    PutLogical(env, st.store, st.vers, e.k, e.v);
    PutClient(env, st, e.c, pc, t, e.k);
    SettledAt(st.store, t, st.vers, e.k);
    WriteKeepsInv(env, st, e.c, pc, t, {x}, e.k);
  }

  lemma PutLive(st: State, e: Step)
    requires Enabled(st, e) && e.Put?
    ensures Live(st, e.c)
  {
  }

  /** Once the current version has a copy, nothing older matters. */
  lemma SettledAt(s: Store, t: Store, vers: seq<Ver>, k: Name)
    requires First(t, vers, k) == 0
    ensures forall n :: Settled(s, vers, k, n) ==> Settled(t, vers, k, n)
  {
  }

  lemma PutClient(env: Env, st: State, c: nat, pc: Pc, t: Store, k: Name)
    requires c in st.clients && ClientOk(env, st.store, st.vers, st.clients[c])
    requires (pc.Idle? || pc == Cleaning(k)) && First(t, st.vers, k) == 0
    ensures ClientOk(env, t, st.vers, st.clients[c].(pc := pc))
  {
  }

  lemma DeleteStep(env: Env, st: State, e: Step)
    requires Inv(env, st) && Enabled(st, e) && e.Delete?
    ensures Inv(env, Apply(env, st, e))
    ensures forall j :: Logical(env, Apply(env, st, e).store, st.vers, j) ==
              if j == e.k then Absent else Logical(env, st.store, st.vers, j)
  {
    hide Inv, Logical, First, Migrate;
    var gone := Copies(st.store, st.vers, e.k);
    FromInv(env, st, e.c);
    DeleteLogical(env, st.store, st.vers, e.k);
    WriteKeepsInv(env, st, e.c, Idle, st.store - gone, gone, e.k);
  }

  lemma UpgradeClient(env: Env, s: Store, vers: seq<Ver>, v: Ver, cl: Client)
    requires vers != [] && ClientOk(env, s, vers, cl) && forall k :: (v, k) !in s
    ensures ClientOk(env, s, [v] + vers, Spoil(cl))
  {
    var ws := [v] + vers;
    assert ws[|ws| - |cl.vs|..] == vers[|vers| - |cl.vs|..];
    if cl.pc.Nowhere? || cl.pc.Cleaning? {
      BumpLogical(env, s, vers, v, cl.pc.k);
    }
  }

  /** A version bump keeps the invariant exactly when its name is new. */
  lemma UpgradeStep(env: Env, st: State, e: Step)
    requires Inv(env, st) && Enabled(st, e) && e.Upgrade?
    ensures Inv(env, Apply(env, st, e)) <==> NewName(st.vers, e.v)
  {
    hide ClientOk;
    if e.v !in st.vers {
      NewVersion(env, st, e);
    } else if e.v != st.vers[0] {
      var i :| 0 <= i < |st.vers| && st.vers[i] == e.v;
      var vs := [e.v] + st.vers;
      assert vs[0] == vs[i + 1];
    }
  }

  lemma NewVersion(env: Env, st: State, e: Step)
    requires Inv(env, st) && Enabled(st, e) && e.Upgrade? && e.v !in st.vers
    ensures Inv(env, Apply(env, st, e))
  {
    hide ClientOk;
    var vs := [e.v] + st.vers;
    var r := Apply(env, st, e);
    forall d | d in r.clients ensures ClientOk(env, st.store, vs, r.clients[d]) {
      if d == e.c { FreshClient(env, st.store, vs); } else { UpgradeClient(env, st.store, st.vers, e.v, st.clients[d]); }
    }
    forall w, k | (w, k) in st.store ensures w in vs {
      assert w in st.vers;
    }
  }

  lemma FreshClient(env: Env, s: Store, vs: seq<Ver>)
    requires vs != []
    ensures ClientOk(env, s, vs, Client(vs, Idle))
  {
  }

  /** The steps that only move a client along. */
  lemma QuietStep(env: Env, st: State, e: Step)
    requires Inv(env, st) && Enabled(st, e)
    requires e.Connect? || e.Leave? || e.Begin? || e.TryCurrent? || e.Probe? || e.Watch? || e.Read?
    ensures Inv(env, Apply(env, st, e)) && Apply(env, st, e).store == st.store
  {
    hide Inv, Migrate, First, ClientOk;
    match e
    case Connect(_) => ComeAndGo(env, st, e);
    case Leave(_) => ComeAndGo(env, st, e);
    case Probe(_) => ProbeStep(env, st, e);
    case Read(_) => ReadStep(env, st, e);
    case Begin(c, k) => PassStep(env, st, c, Want(k));
    case TryCurrent(c) => PassStep(env, st, c, Idle); PassStep(env, st, c, Missed(st.clients[c].pc.k));
    case Watch(c, spurious) => PassStep(env, st, c, Watching(st.clients[c].pc.k, spurious));
  }

  lemma PassStep(env: Env, st: State, c: nat, pc: Pc)
    requires Inv(env, st) && c in st.clients && !pc.Nowhere? && !pc.Cleaning? && !pc.Ready?
    ensures Inv(env, Move(st, c, pc))
  {
    AnywhereOk(env, st, c, pc);
    MoveKeepsInv(env, st, c, pc);
  }

  lemma AnywhereOk(env: Env, st: State, c: nat, pc: Pc)
    requires Inv(env, st) && c in st.clients && !pc.Nowhere? && !pc.Cleaning? && !pc.Ready?
    ensures ClientOk(env, st.store, st.vers, st.clients[c].(pc := pc))
  {
    FromInv(env, st, c);
  }

  lemma ProbeStep(env: Env, st: State, e: Step)
    requires Inv(env, st) && Enabled(st, e) && e.Probe?
    ensures Inv(env, Apply(env, st, e))
  {
    hide Inv, Migrate, First;
    FromInv(env, st, e.c);
    var Client(vs, pc) := st.clients[e.c];
    FirstOfSuffix(st.store, st.vers, |st.vers| - |vs|, pc.k);
    MoveKeepsInv(env, st, e.c, if First(st.store, vs, pc.k) == |vs| then Nowhere(pc.k) else Somewhere(pc.k));
  }

  lemma ReadStep(env: Env, st: State, e: Step)
    requires Inv(env, st) && Enabled(st, e) && e.Read?
    ensures Inv(env, Apply(env, st, e))
  {
    hide Inv, Migrate, First;
    FromInv(env, st, e.c);
    var Client(vs, pc) := st.clients[e.c];
    MoveKeepsInv(env, st, e.c, ReadPc(env, st.store, vs, pc.k, pc.dirty));
  }

  lemma ComeAndGo(env: Env, st: State, e: Step)
    requires Inv(env, st) && Enabled(st, e) && (e.Connect? || e.Leave?)
    ensures Inv(env, Apply(env, st, e))
  {
    hide ClientOk;
    FreshClient(env, st.store, st.vers);
  }

  /** Every careful step keeps the invariant and is matched by the eager system. */
  lemma StepRefines(env: Env, st: State, m: Eager, e: Step)
    requires Inv(env, st) && Refines(env, st, m) && Enabled(st, e) && Careful(st, e)
    ensures Inv(env, Apply(env, st, e))
    ensures Refines(env, Apply(env, st, e), EagerApply(env, st.vers, m, e))
  {
    hide Inv, Logical;
    match e
    case Mark(_) => MarkStep(env, st, e);
    case Exec(_) => ExecStep(env, st, e);
    case Clean(_) => CleanStep(env, st, e);
    case Put(_, _, _) => PutStep(env, st, e);
    case Delete(_, _) => DeleteStep(env, st, e);
    case Upgrade(_, v) =>
      UpgradeStep(env, st, e);
      if v !in st.vers { UpgradeAll(env, st, v); }
    case _ => QuietStep(env, st, e);
  }

  lemma UpgradeAll(env: Env, st: State, v: Ver)
    requires Inv(env, st) && v !in st.vers
    ensures st.vers != []
    ensures forall k :: Logical(env, st.store, [v] + st.vers, k) ==
              Upgraded(env, st.vers[0], v, k, Logical(env, st.store, st.vers, k))
  {
    forall k { BumpLogical(env, st.store, st.vers, v, k); }
  }

  // What `get` answers.

  datatype Answer = Nil | Value(v: Text) | Raise

  function EagerAnswer(o: Outcome): Answer {
    match o
    case Absent => Nil
    case Present(v) => Value(v)
    case Broken => Raise
  }

  predicate AnswersGet(e: Step) {
    e.TryCurrent? || e.Probe? || e.Read? || e.Exec?
  }

  /** The answer a step of `get` settles, if it settles one. */
  function Reply(env: Env, st: State, e: Step): Option<Answer>
    requires Enabled(st, e) && AnswersGet(e)
  {
    var Client(vs, pc) := st.clients[e.c];
    match e
    case TryCurrent(_) =>
      var x := (vs[0], pc.k);
      if x !in st.store || st.store[x] == "" then None
      else if st.store[x] == MARKER then Some(Nil) else Some(Value(st.store[x]))
    case Probe(_) => if First(st.store, vs, pc.k) == |vs| then Some(Nil) else None
    case Read(_) =>
      var i := First(st.store, vs, pc.k);
      if i == |vs| then Some(Nil)
      else if i == 0 then Some(Value(st.store[(vs[0], pc.k)]))
      else if Migrate(env, vs, i, pc.k, st.store[(vs[i], pc.k)]).None? then Some(Raise) else None
    case Exec(_) => if pc.dirty then None else Some(Value(pc.v))
  }

  /** Past the first look at the current version, `get` does not recognise the
      marker. */
  predicate TakesMarkerForValue(st: State, e: Step)
    requires Enabled(st, e) && AnswersGet(e)
  {
    var Client(vs, pc) := st.clients[e.c];
    match e
    case Read(_) =>
      var i := First(st.store, vs, pc.k);
      i < |vs| && st.store[(vs[i], pc.k)] == MARKER
    case Exec(_) => pc.v == MARKER
    case _ => false
  }

  /** The step that settles the answer of an up-to-date client gives what the eager system
      would, unless it takes a stored marker for a value. */
  lemma GetAnswers(env: Env, st: State, m: Eager, e: Step)
    requires Inv(env, st) && Refines(env, st, m) && Enabled(st, e) && AnswersGet(e)
    requires Current(st, e.c) && Reply(env, st, e).Some?
    ensures Reply(env, st, e).value == EagerAnswer(m(st.clients[e.c].pc.k)) <==> !TakesMarkerForValue(st, e)
  {
    hide Inv, Migrate, First, Refines, Apply, Enabled;
    AtStep(st, e);
    FromInv(env, st, e.c);
    var k := st.clients[e.c].pc.k;
    RefinesAt(env, st, m, k);
    NothingToDo(env, st.vers, k);
  }

  lemma RefinesAt(env: Env, st: State, m: Eager, k: Name)
    requires Refines(env, st, m)
    ensures Logical(env, st.store, st.vers, k) == m(k)
  {
  }

  lemma NothingToDo(env: Env, vs: seq<Ver>, k: Name)
    requires vs != []
    ensures forall v :: Migrate(env, vs, 0, k, v) == Some(v)
  {
  }

  lemma AtStep(st: State, e: Step)
    requires Enabled(st, e) && AnswersGet(e)
    ensures Live(st, e.c)
    ensures match e
            case TryCurrent(_) => st.clients[e.c].pc.Want?
            case Probe(_) => st.clients[e.c].pc.Missed?
            case Read(_) => st.clients[e.c].pc.Watching?
            case Exec(_) => st.clients[e.c].pc.Ready?
            case _ => true
  {
  }

  // Runs.

  function Start(v0: Ver): State {
    State(map[], [v0], map[])
  }

  ghost predicate IsRun(env: Env, v0: Ver, sts: seq<State>, es: seq<Step>) {
    && |sts| == |es| + 1 && sts[0] == Start(v0)
    && forall i :: 0 <= i < |es| ==> Enabled(sts[i], es[i]) && sts[i + 1] == Apply(env, sts[i], es[i])
  }

  ghost function EagerRun(env: Env, sts: seq<State>, es: seq<Step>, i: nat): Eager
    requires i <= |es| < |sts|
  {
    if i == 0 then (k: Name) => Absent
    else EagerApply(env, sts[i - 1].vers, EagerRun(env, sts, es, i - 1), es[i - 1])
  }

  /** The first `n` steps never set the marker nor use a version name again. */
  ghost predicate CarefulRun(sts: seq<State>, es: seq<Step>, n: nat)
    requires n <= |es| < |sts|
  {
    forall i :: 0 <= i < n ==> Careful(sts[i], es[i])
  }

  /** Lazy refines eager: in every careful run, however clients interleave, abort and
      retry, each name has the logical value the eager system gives it. */
  lemma {:induction false} RunRefines(env: Env, v0: Ver, sts: seq<State>, es: seq<Step>, i: nat)
    requires IsRun(env, v0, sts, es) && i <= |es| && CarefulRun(sts, es, i)
    ensures Inv(env, sts[i]) && Refines(env, sts[i], EagerRun(env, sts, es, i))
  {
    if i > 0 {
      hide Inv, Refines, Apply, Enabled, EagerApply, Careful;
      RunRefines(env, v0, sts, es, i - 1);
      assert Careful(sts[i - 1], es[i - 1]);
      StepRefines(env, sts[i - 1], EagerRun(env, sts, es, i - 1), es[i - 1]);
      assert sts[i - 1 + 1] == Apply(env, sts[i - 1], es[i - 1]);
    }
  }
}
