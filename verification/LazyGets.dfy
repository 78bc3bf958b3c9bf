/**
 What `get` of lazyupdredis.py answers, seen from the call: a get left alone, a get
 among the steps of other clients, and the runs in which an answer or a logical value
 differs from the eager system's.
 */
module LazyGets {
  import opened Options
  import opened Lazy

  // A get left alone.

  /** The answer of a `get` run from start to end with no other step in between. */
  function Solo(env: Env, st: State, c: nat, k: Name): Answer
    requires Live(st, c) && st.clients[c].pc.Idle?
  {
    var s1 := Apply(env, st, Begin(c, k));
    match Reply(env, s1, TryCurrent(c))
    case Some(a) => a
    case None =>
      var s2 := Apply(env, s1, TryCurrent(c));
      match Reply(env, s2, Probe(c))
      case Some(a) => a
      case None =>
        var s4 := Apply(env, Apply(env, s2, Probe(c)), Watch(c, false));
        match Reply(env, s4, Read(c))
        case Some(a) => a
        case None => Reply(env, Apply(env, s4, Read(c)), Exec(c)).value
  }

  /** The newest copy of `k` is a marker of an older version. */
  predicate OldMarker(s: Store, vers: seq<Ver>, k: Name) {
    var i := First(s, vers, k);
    0 < i < |vers| && s[(vers[i], k)] == MARKER
  }

  /** The same answer read off the store. */
  lemma SoloIs(env: Env, st: State, c: nat, k: Name)
    requires Live(st, c) && st.clients[c].pc.Idle?
    ensures var vs := st.clients[c].vs;
            var i := First(st.store, vs, k);
            Solo(env, st, c, k) ==
              if i == |vs| then Nil
              else
                var x := st.store[(vs[i], k)];
                if i == 0 then (if x == MARKER then Nil else Value(x))
                else match Migrate(env, vs, i, k, x) { case None => Raise case Some(v) => Value(v) }
  {
    hide Migrate;
  }

  /** What a get of a key last stored at an older version answers, in terms of the updates
      alone: the end of the values the stored text goes through, from version to version
      up to the newest; it raises exactly when they end before that. */
  lemma SoloFollows(env: Env, st: State, c: nat, k: Name, xs: seq<Text>)
    requires Live(st, c) && st.clients[c].pc.Idle?
    requires var vs := st.clients[c].vs; var i := First(st.store, vs, k);
             0 < i < |vs| && Follows(env, vs, i, k, xs) && xs[0] == st.store[(vs[i], k)]
    ensures var i := First(st.store, st.clients[c].vs, k);
            Solo(env, st, c, k) == if |xs| == i + 1 then Value(xs[i]) else Raise
  {
    hide Solo, Migrate, First, Follows;
    var vs := st.clients[c].vs;
    var i := First(st.store, vs, k);
    SoloIs(env, st, c, k);
    var ys := MigrateFollows(env, vs, i, k, st.store[(vs[i], k)]);
    FollowsSame(env, vs, i, k, xs, ys);
  }

  /** A `get` of an up-to-date client that is left alone answers as the eager system does
      exactly when the newest copy at its start is not a marker of an older version. */
  lemma SoloAnswers(env: Env, st: State, m: Eager, c: nat, k: Name)
    requires Inv(env, st) && Refines(env, st, m) && Current(st, c) && Live(st, c) && st.clients[c].pc.Idle?
    ensures Solo(env, st, c, k) == EagerAnswer(m(k)) <==> !OldMarker(st.store, st.vers, k)
  {
    hide Inv, Solo, First;
    SoloIs(env, st, c, k);
    assert Logical(env, st.store, st.vers, k) == m(k);
  }

  // A get among others.

  /** No copy of `k` at version position `n` or older is the marker. */
  ghost predicate Unmarked(s: Store, vers: seq<Ver>, k: Name, n: nat) {
    forall j :: n <= j < |vers| && (vers[j], k) in s ==> s[(vers[j], k)] != MARKER
  }

  /** The steps other clients may take during the call. */
  predicate Harmless(st: State, e: Step, c: nat, k: Name)
    requires Enabled(st, e)
  {
    && Careful(st, e)
    && e != Leave(c)
    && (e.Mark? && e.c != c ==> st.clients[e.c].pc.k != k)
  }

  /** One call of `get`: begun at step `b` and answered at step `a`. */
  ghost predicate IsCall(env: Env, sts: seq<State>, es: seq<Step>, b: nat, a: nat, c: nat, k: Name)
    requires |sts| == |es| + 1 && forall i :: 0 <= i < |es| ==> Enabled(sts[i], es[i])
  {
    && b < a < |es| && es[b] == Begin(c, k)
    && AnswersGet(es[a]) && es[a].c == c && Reply(env, sts[a], es[a]).Some?
    && (forall i :: b < i < a ==> Harmless(sts[i], es[i], c, k))
    && (forall i :: b < i < a && AnswersGet(es[i]) && es[i].c == c ==> Reply(env, sts[i], es[i]).None?)
  }

  predicate Asking(pc: Pc, k: Name) {
    match pc
    case Want(j) => j == k
    case Missed(j) => j == k
    case Somewhere(j) => j == k
    case Watching(j, _) => j == k
    case Ready(j, _, _, _) => j == k
    case _ => false
  }

  /** Until it answers, a get goes on asking for its key. */
  lemma AskingStep(env: Env, st: State, e: Step, c: nat, k: Name)
    requires Enabled(st, e) && Harmless(st, e, c, k) && c in st.clients && Asking(st.clients[c].pc, k)
    requires AnswersGet(e) && e.c == c ==> Reply(env, st, e).None?
    ensures var r := Apply(env, st, e);
            && c in r.clients && Asking(r.clients[c].pc, k) && r.clients[c].vs == st.clients[c].vs
            && (e.c == c || (r.clients[c].pc.Want? <==> st.clients[c].pc.Want?))
  {
    hide First, Migrate, Watches, Copies;
  }

  lemma VersionsGrow(env: Env, st: State, e: Step, c: nat)
    requires Inv(env, st) && Enabled(st, e) && c in st.clients
    requires Apply(env, st, e).vers == st.clients[c].vs
    ensures Current(st, c) && Apply(env, st, e).vers == st.vers
  {
    hide First, Migrate, Watches, Copies;
    FromInv(env, st, c);
  }

  /** A transaction that stores the marker has read it from an older version. */
  lemma MarkerMoved(env: Env, st: State, c: nat, k: Name)
    requires Inv(env, st) && c in st.clients && Unmarked(st.store, st.vers, k, 1)
    requires st.clients[c].pc.Ready? && st.clients[c].pc.k == k && !st.clients[c].pc.dirty
    ensures st.clients[c].pc.v != MARKER
  {
    hide First, Migrate, Inv;
    FromInv(env, st, c);
    var Client(vs, pc) := st.clients[c];
    var i, n := First(st.store, vs, k), |st.vers| - |vs|;
    assert vs[i] == st.vers[n + i];
  }

  /** No marker of `k` comes up. */
  lemma UnmarkedStep(env: Env, st: State, e: Step, c: nat, k: Name, n: nat)
    requires Inv(env, st) && Enabled(st, e) && Harmless(st, e, c, k) && n <= 1
    requires c in st.clients && Asking(st.clients[c].pc, k) && Unmarked(st.store, st.vers, k, n)
    requires Apply(env, st, e).vers == st.vers
    ensures Unmarked(Apply(env, st, e).store, st.vers, k, n)
  {
    hide First, Migrate, Inv, Watches;
    if e.Exec? && st.clients[e.c].pc.k == k && !st.clients[e.c].pc.dirty { MarkerMoved(env, st, e.c, k); }
  }

  /** What holds during a call of a client that is up to date when it answers. */
  ghost predicate During(env: Env, st: State, c: nat, k: Name) {
    && Inv(env, st) && c in st.clients && Asking(st.clients[c].pc, k)
    && (Current(st, c) ==> Unmarked(st.store, st.vers, k, if st.clients[c].pc.Want? then 1 else 0))
  }

  lemma DuringStep(env: Env, st: State, e: Step, c: nat, k: Name)
    requires During(env, st, c, k) && Enabled(st, e) && Harmless(st, e, c, k)
    requires AnswersGet(e) && e.c == c ==> Reply(env, st, e).None?
    requires Inv(env, Apply(env, st, e))
    ensures During(env, Apply(env, st, e), c, k)
  {
    hide First, Migrate, Inv, Apply, Enabled, Harmless, Asking, Reply;
    AskingStep(env, st, e, c, k);
    var r := Apply(env, st, e);
    if Current(r, c) {
      VersionsGrow(env, st, e, c);
      var n := if st.clients[c].pc.Want? then 1 else 0;
      UnmarkedStep(env, st, e, c, k, n);
      if e.c == c { OwnStep(env, st, e, k, n); }
    }
  }

  /** The client's own step: past its look at the current version it knows of no marker. */
  lemma OwnStep(env: Env, st: State, e: Step, k: Name, n: nat)
    requires Enabled(st, e) && e.c in st.clients && Asking(st.clients[e.c].pc, k) && Current(st, e.c)
    requires n == (if st.clients[e.c].pc.Want? then 1 else 0) && Unmarked(st.store, st.vers, k, n)
    requires Harmless(st, e, e.c, k) && (AnswersGet(e) ==> Reply(env, st, e).None?)
    requires Unmarked(Apply(env, st, e).store, st.vers, k, n) && e.c in Apply(env, st, e).clients
    ensures Unmarked(Apply(env, st, e).store, st.vers, k,
                     if Apply(env, st, e).clients[e.c].pc.Want? then 1 else 0)
  {
    hide First, Migrate, Watches, Copies;
  }

  lemma DuringAnswer(env: Env, st: State, e: Step, c: nat, k: Name)
    requires During(env, st, c, k) && Current(st, c) && Enabled(st, e)
    requires AnswersGet(e) && e.c == c && Reply(env, st, e).Some?
    ensures !TakesMarkerForValue(st, e)
  {
    hide First, Migrate, Inv;
    if e.Exec? { MarkerMoved(env, st, c, k); }
  }

  lemma {:induction false} DuringCall(env: Env, v0: Ver, sts: seq<State>, es: seq<Step>, b: nat, a: nat, c: nat,
                                      k: Name, i: nat)
    requires IsRun(env, v0, sts, es) && IsCall(env, sts, es, b, a, c, k) && b < i <= a && CarefulRun(sts, es, a)
    requires Unmarked(sts[b].store, sts[b].vers, k, 1)
    ensures During(env, sts[i], c, k)
  {
    hide First, Migrate, Inv, Apply, Enabled, Harmless, Reply, Asking, Refines, Careful;
    RunRefines(env, v0, sts, es, i);
    RunRefines(env, v0, sts, es, i - 1);
    if i == b + 1 {
      CallBegins(env, sts[b], c, k);
      assert sts[b + 1] == Apply(env, sts[b], es[b]);
    } else {
      DuringCall(env, v0, sts, es, b, a, c, k, i - 1);
      assert sts[i - 1 + 1] == Apply(env, sts[i - 1], es[i - 1]);
      DuringStep(env, sts[i - 1], es[i - 1], c, k);
    }
  }

  lemma CallBegins(env: Env, st: State, c: nat, k: Name)
    requires Enabled(st, Begin(c, k)) && Unmarked(st.store, st.vers, k, 1)
    requires Inv(env, Apply(env, st, Begin(c, k)))
    ensures During(env, Apply(env, st, Begin(c, k)), c, k)
  {
    hide Inv;
  }

  /** A `get` among the steps of other clients, of a client that is up to date when it
      answers, gives the eager system's value of that moment, if no marker of an older
      version was stored for the key when it began and no other client stores one before
      it answers. */
  lemma CallAnswers(env: Env, v0: Ver, sts: seq<State>, es: seq<Step>, b: nat, a: nat, c: nat, k: Name)
    requires IsRun(env, v0, sts, es) && IsCall(env, sts, es, b, a, c, k) && CarefulRun(sts, es, a)
    requires Current(sts[a], c) && Unmarked(sts[b].store, sts[b].vers, k, 1)
    ensures Reply(env, sts[a], es[a]) == Some(EagerAnswer(EagerRun(env, sts, es, a)(k)))
  {
    hide First, Migrate, Inv, Apply, Enabled, Harmless, Reply, Refines, Careful, TakesMarkerForValue;
    DuringCall(env, v0, sts, es, b, a, c, k, a);
    RunRefines(env, v0, sts, es, a);
    DuringAnswer(env, sts[a], es[a], c, k);
    GetAnswers(env, sts[a], EagerRun(env, sts, es, a), es[a]);
    AskedKey(sts[a], es[a], k);
  }

  lemma AskedKey(st: State, e: Step, k: Name)
    requires Enabled(st, e) && AnswersGet(e) && Asking(st.clients[e.c].pc, k)
    ensures st.clients[e.c].pc.k == k
  {
  }

  // Runs that differ.

  function Two(v0: Ver, s: Store, a: Pc, b: Pc): State {
    State(s, [v0], map[1 := Client([v0], a), 2 := Client([v0], b)])
  }

  lemma TwoMove(v0: Ver, s: Store, a: Pc, b: Pc, pc: Pc)
    ensures Move(Two(v0, s, a, b), 1, pc) == Two(v0, s, pc, b)
    ensures Move(Two(v0, s, a, b), 2, pc) == Two(v0, s, a, pc)
  {
  }

  lemma FirstOfOne(s: Store, v0: Ver, k: Name)
    ensures First(s, [v0], k) == if (v0, k) in s then 0 else 1
  {
  }

  lemma TwoMark(env: Env, v0: Ver, k: Name)
    ensures Apply(env, Two(v0, map[], Nowhere(k), Missed(k)), Mark(1)) ==
            Two(v0, map[(v0, k) := MARKER], Idle, Missed(k))
  {
    var st := Two(v0, map[], Nowhere(k), Missed(k));
    TwoMove(v0, map[], Nowhere(k), Missed(k), Idle);
    var st' := Two(v0, map[], Idle, Missed(k));
    var x := (v0, k);
    NotWatching(st'.clients[1], {x});
    NotWatching(st'.clients[2], {x});
    assert Write(st', st.store[x := MARKER], {x}).clients == st'.clients;
  }

  /** A careful run. */
  ghost predicate GoodRun(env: Env, v0: Ver, sts: seq<State>, es: seq<Step>) {
    IsRun(env, v0, sts, es) && CarefulRun(sts, es, |es|)
  }

  lemma StepOn(env: Env, v0: Ver, sts: seq<State>, es: seq<Step>, e: Step, t: State)
    requires IsRun(env, v0, sts, es) && Enabled(sts[|es|], e) && Apply(env, sts[|es|], e) == t
    ensures IsRun(env, v0, sts + [t], es + [e])
  {
    hide Enabled, Apply;
    var ts, ds := sts + [t], es + [e];
    forall i | 0 <= i < |ds| ensures Enabled(ts[i], ds[i]) && ts[i + 1] == Apply(env, ts[i], ds[i]) {
      if i < |es| { assert sts[i + 1] == Apply(env, sts[i], es[i]); }
    }
  }

  lemma RunOn(env: Env, v0: Ver, sts: seq<State>, es: seq<Step>, e: Step, t: State)
    requires GoodRun(env, v0, sts, es) && |sts| == |es| + 1
    requires Enabled(sts[|es|], e) && Careful(sts[|es|], e) && Apply(env, sts[|es|], e) == t
    ensures GoodRun(env, v0, sts + [t], es + [e])
  {
    hide Enabled, Apply, Careful;
    StepOn(env, v0, sts, es, e, t);
    var ts, ds := sts + [t], es + [e];
    forall i | 0 <= i < |ds| ensures Careful(ts[i], ds[i]) {
      if i < |es| { assert Careful(sts[i], es[i]); }
    }
  }

  /** Both clients have connected, asked for `k` and not found it. */
  lemma BothMiss(env: Env, v0: Ver, k: Name) returns (sts: seq<State>, es: seq<Step>)
    ensures GoodRun(env, v0, sts, es) && |sts| == |es| + 1 && sts[|es|] == Two(v0, map[], Missed(k), Missed(k))
  {
    hide First, GoodRun;
    sts, es := [Start(v0)], [];
    assert GoodRun(env, v0, sts, es) by { NoSteps(env, v0); }
    var one := State(map[], [v0], map[1 := Client([v0], Idle)]);
    RunOn(env, v0, sts, es, Connect(1), one);
    sts, es := sts + [one], es + [Connect(1)];
    RunOn(env, v0, sts, es, Connect(2), Two(v0, map[], Idle, Idle));
    sts, es := sts + [Two(v0, map[], Idle, Idle)], es + [Connect(2)];
    sts, es := Ask(env, v0, k, sts, es);
  }

  lemma NoSteps(env: Env, v0: Ver)
    ensures GoodRun(env, v0, [Start(v0)], [])
  {
  }

  lemma Ask(env: Env, v0: Ver, k: Name, sts: seq<State>, es: seq<Step>) returns (ts: seq<State>, ds: seq<Step>)
    requires GoodRun(env, v0, sts, es) && |sts| == |es| + 1 && sts[|es|] == Two(v0, map[], Idle, Idle)
    ensures GoodRun(env, v0, ts, ds) && |ts| == |ds| + 1 && ts[|ds|] == Two(v0, map[], Missed(k), Missed(k))
  {
    hide First, GoodRun, Move;
    TwoMove(v0, map[], Idle, Idle, Want(k));
    TwoMove(v0, map[], Want(k), Idle, Want(k));
    TwoMove(v0, map[], Want(k), Want(k), Missed(k));
    TwoMove(v0, map[], Missed(k), Want(k), Missed(k));
    RunOn(env, v0, sts, es, Begin(1, k), Two(v0, map[], Want(k), Idle));
    ts, ds := sts + [Two(v0, map[], Want(k), Idle)], es + [Begin(1, k)];
    RunOn(env, v0, ts, ds, Begin(2, k), Two(v0, map[], Want(k), Want(k)));
    ts, ds := ts + [Two(v0, map[], Want(k), Want(k))], ds + [Begin(2, k)];
    RunOn(env, v0, ts, ds, TryCurrent(1), Two(v0, map[], Missed(k), Want(k)));
    ts, ds := ts + [Two(v0, map[], Missed(k), Want(k))], ds + [TryCurrent(1)];
    RunOn(env, v0, ts, ds, TryCurrent(2), Two(v0, map[], Missed(k), Missed(k)));
    ts, ds := ts + [Two(v0, map[], Missed(k), Missed(k))], ds + [TryCurrent(2)];
  }

  /** The first client leaves the marker. */
  lemma OneMarks(env: Env, v0: Ver, k: Name) returns (sts: seq<State>, es: seq<Step>)
    ensures GoodRun(env, v0, sts, es) && |sts| == |es| + 1 && sts[|es|] == Two(v0, map[(v0, k) := MARKER], Idle, Missed(k))
  {
    hide First, GoodRun, Move;
    sts, es := BothMiss(env, v0, k);
    FirstOfOne(map[], v0, k);
    TwoMove(v0, map[], Missed(k), Missed(k), Nowhere(k));
    RunOn(env, v0, sts, es, Probe(1), Two(v0, map[], Nowhere(k), Missed(k)));
    sts, es := sts + [Two(v0, map[], Nowhere(k), Missed(k))], es + [Probe(1)];
    TwoMark(env, v0, k);
    RunOn(env, v0, sts, es, Mark(1), Two(v0, map[(v0, k) := MARKER], Idle, Missed(k)));
    sts, es := sts + [Two(v0, map[(v0, k) := MARKER], Idle, Missed(k))], es + [Mark(1)];
  }

  /** The second one finds a copy and is about to read it. */
  lemma OtherLooks(env: Env, v0: Ver, k: Name) returns (sts: seq<State>, es: seq<Step>)
    ensures GoodRun(env, v0, sts, es) && |sts| == |es| + 1 && sts[|es|] == Two(v0, map[(v0, k) := MARKER], Idle, Watching(k, false))
  {
    hide First, GoodRun, Move;
    var mark: Store := map[(v0, k) := MARKER];
    sts, es := OneMarks(env, v0, k);
    FirstOfOne(mark, v0, k);
    TwoMove(v0, mark, Idle, Missed(k), Somewhere(k));
    RunOn(env, v0, sts, es, Probe(2), Two(v0, mark, Idle, Somewhere(k)));
    sts, es := sts + [Two(v0, mark, Idle, Somewhere(k))], es + [Probe(2)];
    TwoMove(v0, mark, Idle, Somewhere(k), Watching(k, false));
    RunOn(env, v0, sts, es, Watch(2, false), Two(v0, mark, Idle, Watching(k, false)));
    sts, es := sts + [Two(v0, mark, Idle, Watching(k, false))], es + [Watch(2, false)];
  }

  /** Two clients that both ask for a missing key: the second one finds the marker the
      first one leaves, past the point where it would recognise it, and answers it as
      a value. */
  lemma MarkerAnswered(env: Env, v0: Ver, k: Name) returns (sts: seq<State>, es: seq<Step>)
    ensures GoodRun(env, v0, sts, es) && |sts| == |es| + 1 && Enabled(sts[|es|], Read(2)) && Current(sts[|es|], 2)
    ensures sts[|es|].clients[2].pc.k == k && Reply(env, sts[|es|], Read(2)) == Some(Value(MARKER))
    ensures EagerRun(env, sts, es, |es|)(k) == Absent
  {
    hide First, Inv, EagerRun;
    sts, es := OtherLooks(env, v0, k);
    FirstOfOne(map[(v0, k) := MARKER], v0, k);
    RunRefines(env, v0, sts, es, |es|);
    assert Logical(env, sts[|es|].store, sts[|es|].vers, k) == Absent;
  }

  // One client.

  function One(vers: seq<Ver>, s: Store, pc: Pc): State {
    State(s, vers, map[1 := Client(vers, pc)])
  }

  lemma OneMove(vers: seq<Ver>, s: Store, a: Pc, pc: Pc)
    ensures Move(One(vers, s, a), 1, pc) == One(vers, s, pc)
  {
  }

  /** A write of the only client, which watches nothing. */
  lemma OneWrite(vers: seq<Ver>, s: Store, pc: Pc, t: Store, written: set<(Ver, Name)>)
    requires !pc.Watching? && !pc.Ready?
    ensures Write(One(vers, s, pc), t, written) == One(vers, t, pc)
  {
    NotWatching(Client(vers, pc), written);
  }

  lemma Alone(env: Env, v0: Ver) returns (sts: seq<State>, es: seq<Step>)
    ensures GoodRun(env, v0, sts, es) && |sts| == |es| + 1 && sts[|es|] == One([v0], map[], Idle)
  {
    hide GoodRun;
    NoSteps(env, v0);
    RunOn(env, v0, [Start(v0)], [], Connect(1), One([v0], map[], Idle));
    sts, es := [Start(v0)] + [One([v0], map[], Idle)], [] + [Connect(1)];
  }

  lemma BumpOne(env: Env, vers: seq<Ver>, s: Store, v: Ver)
    requires vers != [] && vers[0] != v
    ensures Enabled(One(vers, s, Idle), Upgrade(1, v))
    ensures Apply(env, One(vers, s, Idle), Upgrade(1, v)) == One([v] + vers, s, Idle)
  {
  }

  lemma SetOne(env: Env, v0: Ver, k: Name, x: Text)
    ensures Enabled(One([v0], map[], Idle), Put(1, k, x))
    ensures Apply(env, One([v0], map[], Idle), Put(1, k, x)) == One([v0], map[(v0, k) := x], Idle)
  {
    OneMove([v0], map[], Idle, Idle);
    OneWrite([v0], map[], Idle, map[(v0, k) := x], {(v0, k)});
  }

  /** Setting the marker text: the value is gone. */
  lemma MarkerSet(env: Env, v0: Ver, k: Name) returns (sts: seq<State>, es: seq<Step>)
    ensures IsRun(env, v0, sts, es) && |es| > 0 && es[|es| - 1] == Put(1, k, MARKER)
    ensures Live(sts[|es|], 1) && sts[|es|].clients[1].pc.Idle? && Current(sts[|es|], 1)
    ensures Solo(env, sts[|es|], 1, k) == Nil
    ensures EagerRun(env, sts, es, |es|)(k) == Present(MARKER)
  {
    hide Solo, Apply, Enabled;
    sts, es := Alone(env, v0);
    SetOne(env, v0, k, MARKER);
    var t := One([v0], map[(v0, k) := MARKER], Idle);
    StepOn(env, v0, sts, es, Put(1, k, MARKER), t);
    sts, es := sts + [t], es + [Put(1, k, MARKER)];
    FirstOfOne(map[(v0, k) := MARKER], v0, k);
    SoloIs(env, t, 1, k);
  }

  /** A miss: the client leaves the marker. */
  lemma Miss(env: Env, v0: Ver, k: Name) returns (sts: seq<State>, es: seq<Step>)
    ensures GoodRun(env, v0, sts, es) && |sts| == |es| + 1
    ensures sts[|es|] == One([v0], map[(v0, k) := MARKER], Idle)
  {
    hide GoodRun, First, Move, Write;
    sts, es := Alone(env, v0);
    var vs := [v0];
    OneMove(vs, map[], Idle, Want(k));
    OneMove(vs, map[], Want(k), Missed(k));
    RunOn(env, v0, sts, es, Begin(1, k), One(vs, map[], Want(k)));
    sts, es := sts + [One(vs, map[], Want(k))], es + [Begin(1, k)];
    RunOn(env, v0, sts, es, TryCurrent(1), One(vs, map[], Missed(k)));
    sts, es := sts + [One(vs, map[], Missed(k))], es + [TryCurrent(1)];
    FirstOfOne(map[], v0, k);
    OneMove(vs, map[], Missed(k), Nowhere(k));
    RunOn(env, v0, sts, es, Probe(1), One(vs, map[], Nowhere(k)));
    sts, es := sts + [One(vs, map[], Nowhere(k))], es + [Probe(1)];
    OneMove(vs, map[], Nowhere(k), Idle);
    OneWrite(vs, map[], Idle, map[(v0, k) := MARKER], {(v0, k)});
    RunOn(env, v0, sts, es, Mark(1), One(vs, map[(v0, k) := MARKER], Idle));
    sts, es := sts + [One(vs, map[(v0, k) := MARKER], Idle)], es + [Mark(1)];
  }

  /** One client alone: a miss, an upgrade, and the next get answers the marker or fails. */
  lemma MissThenUpgrade(env: Env, v0: Ver, v1: Ver, k: Name) returns (sts: seq<State>, es: seq<Step>)
    requires v0 != v1
    ensures GoodRun(env, v0, sts, es) && |sts| == |es| + 1
    ensures Live(sts[|es|], 1) && sts[|es|].clients[1].pc.Idle? && Current(sts[|es|], 1)
    ensures Solo(env, sts[|es|], 1, k) in {Value(MARKER), Raise}
    ensures EagerRun(env, sts, es, |es|)(k) == Absent
  {
    hide Solo, Apply, Enabled, Inv, Migrate;
    sts, es := Miss(env, v0, k);
    var s: Store := map[(v0, k) := MARKER];
    BumpOne(env, [v0], s, v1);
    var t := One([v1] + [v0], s, Idle);
    RunOn(env, v0, sts, es, Upgrade(1, v1), t);
    sts, es := sts + [t], es + [Upgrade(1, v1)];
    FirstIs(s, t.vers, k, 1);
    SoloIs(env, t, 1, k);
    RunRefines(env, v0, sts, es, |es|);
    assert Logical(env, t.store, t.vers, k) == Absent;
  }

  /** A version name used again: the old copy is answered without the updates since. */
  lemma ReusedName(v0: Ver, v1: Ver, k: Name, x: Text) returns (env: Env, sts: seq<State>, es: seq<Step>)
    requires v0 != v1 && x != MARKER
    ensures IsRun(env, v0, sts, es) && |es| > 0 && es[|es| - 1] == Upgrade(1, v0)
    ensures Live(sts[|es|], 1) && sts[|es|].clients[1].pc.Idle? && Current(sts[|es|], 1)
    ensures Solo(env, sts[|es|], 1, k) == Value(x)
    ensures EagerRun(env, sts, es, |es|)(k) == Broken
  {
    hide Solo, Apply, Enabled, Inv;
    env := (_, _, _) => NoRule;
    var s: Store := map[(v0, k) := x];
    sts, es := UpgradedOnce(env, v0, v1, k, x);
    RunRefines(env, v0, sts, es, |es|);
    FirstIs(s, [v1] + [v0], k, 1);
    assert Logical(env, s, [v1] + [v0], k) == Broken;
    BumpOne(env, [v1] + [v0], s, v0);
    var t := One([v0] + ([v1] + [v0]), s, Idle);
    StepOn(env, v0, sts, es, Upgrade(1, v0), t);
    EagerPrefix(env, sts, es, t, Upgrade(1, v0), |es|);
    sts, es := sts + [t], es + [Upgrade(1, v0)];
    FirstIs(s, t.vers, k, 0);
    SoloIs(env, t, 1, k);
  }

  lemma UpgradedOnce(env: Env, v0: Ver, v1: Ver, k: Name, x: Text) returns (sts: seq<State>, es: seq<Step>)
    requires v0 != v1 && x != MARKER
    ensures GoodRun(env, v0, sts, es) && |sts| == |es| + 1
    ensures sts[|es|] == One([v1] + [v0], map[(v0, k) := x], Idle)
  {
    hide GoodRun, Apply, Enabled;
    sts, es := Alone(env, v0);
    var s: Store := map[(v0, k) := x];
    SetOne(env, v0, k, x);
    RunOn(env, v0, sts, es, Put(1, k, x), One([v0], s, Idle));
    sts, es := sts + [One([v0], s, Idle)], es + [Put(1, k, x)];
    BumpOne(env, [v0], s, v1);
    RunOn(env, v0, sts, es, Upgrade(1, v1), One([v1] + [v0], s, Idle));
    sts, es := sts + [One([v1] + [v0], s, Idle)], es + [Upgrade(1, v1)];
  }

  lemma {:induction false} EagerPrefix(env: Env, sts: seq<State>, es: seq<Step>, t: State, e: Step, i: nat)
    requires i <= |es| < |sts|
    ensures EagerRun(env, sts + [t], es + [e], i) == EagerRun(env, sts, es, i)
  {
    hide EagerApply;
    if i > 0 { EagerPrefix(env, sts, es, t, e, i - 1); }
  }
}
