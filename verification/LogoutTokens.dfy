/**
The states that hops leave behind, over any run of `Logout`: which event stored each one, what it
waits for, how long, and what ends it.
*/
module LogoutTokens {
  import opened Optional
  import opened Logout
  import opened LogoutRuns

  /** The event goes on with a chain: a session has ended, or a reply has come on a live hop. */
  predicate GoesOn(s: State, e: Event) {
    e.Ends? || (e.Replies? && e.token in s.tokens && s.now <= s.tokens[e.token].expiresAt)
  }

  /** It asks participant `i` of those still to be told, and stores under `t` that it waits for this one, for five minutes. */
  predicate Stores(s: State, e: Event, t: nat, i: nat) {
    GoesOn(s, e) && e.world.token == t && FirstReachable(StillToTell(s, e), e.world.reachable, i)
  }

  ghost predicate StoresSome(s: State, e: Event, t: nat) { exists i: nat :: Stores(s, e, t, i) }

  predicate WaitsFor(v: Stored, s: State, e: Event, i: nat) {
    GoesOn(s, e) && i < |StillToTell(s, e)| &&
    var rest := StillToTell(s, e);
    v.chain == ChainOf(s, e) && v.ls.current == Some(Hop(rest[i].spId, e.world.requestId)) && v.ls.remaining == rest[i + 1..]
    && v.expiresAt == s.now + 300_000
  }

  lemma NextHopStores(s: State, c: nat, ls: LogoutState, w: World, t: nat)
    requires c in s.chains && w.token !in s.tokens
    ensures var s' := NextHop(s, c, ls, w); var k := Unreached(ls.remaining, w.reachable);
      && (t in s'.tokens <==> t in s.tokens || (t == w.token && k < |ls.remaining|))
      && (t in s.tokens ==> s'.tokens[t] == s.tokens[t])
      && (t == w.token && k < |ls.remaining| ==>
            && s'.tokens[t].chain == c && s'.tokens[t].ls.current == Some(Hop(ls.remaining[k].spId, w.requestId))
            && s'.tokens[t].ls.remaining == ls.remaining[k + 1..] && s'.tokens[t].expiresAt == s.now + 300_000)
      && s'.now == s.now
  {}

  lemma ReachedIs(ps: seq<Participant>, reachable: set<string>)
    ensures Unreached(ps, reachable) < |ps| <==> exists i: nat :: FirstReachable(ps, reachable, i)
    ensures forall i: nat :: FirstReachable(ps, reachable, i) ==> i == Unreached(ps, reachable)
  {
    var k := Unreached(ps, reachable);
    if k < |ps| { assert FirstReachable(ps, reachable, k); }
    forall i: nat | FirstReachable(ps, reachable, i) ensures i == k { UnreachedIs(ps, reachable, i); }
  }

  /** The event takes the state `t`, or a process that took it is lost; or a sweep comes after its time. */
  predicate Takes(s: State, e: Event, t: nat) {
    && t in s.tokens
    && (if e.Sweep? then s.tokens[t].expiresAt < s.now else (e.Replies? || e.Dies?) && e.token == t && s.now <= s.tokens[t].expiresAt)
  }

  lemma EndsToken(s: State, e: Event, t: nat)
    requires Possible(s, e) && e.Ends?
    ensures var s' := Step(s, e);
      && s'.now == s.now && (t in s.tokens ==> t in s'.tokens && s'.tokens[t] == s.tokens[t])
      && (t in s'.tokens <==> t in s.tokens || StoresSome(s, e, t))
      && (forall i: nat :: Stores(s, e, t, i) ==> t !in s.tokens && WaitsFor(s'.tokens[t], s, e, i))
  {
    var w, start := e.world, Others(e.listed, e.origin);
    var ls := LogoutState(e.origin, start, None, e.partlyListed);
    var begun := s.(chains := s.chains[e.chain := Story(e.origin, start, e.partlyListed, [], None, false)]);
    assert Step(s, e) == NextHop(begun, e.chain, ls, w);
    hide Others, FirstReachable, Step;
    ReachedIs(start, w.reachable);
    NextHopStores(begun, e.chain, ls, w, t);
    hide NextHop, Unreached;
    assert forall i: nat :: Stores(s, e, t, i) <==> w.token == t && FirstReachable(start, w.reachable, i);
  }

  lemma VisitedIs(s: State, u: nat, r: Reply)
    requires u in s.tokens && Waiting(s, u)
    ensures Visited(s, u, r).tokens == s.tokens - {u} && Visited(s, u, r).now == s.now && AfterReply(s.tokens[u].ls, r).remaining == s.tokens[u].ls.remaining
  {}

  lemma ReplyIs(s: State, e: Event)
    requires Possible(s, e) && e.Replies? && Live(s, e.token) && Waiting(s, e.token)
    ensures Step(s, e) == NextHop(Visited(s, e.token, e.reply), s.tokens[e.token].chain, AfterReply(s.tokens[e.token].ls, e.reply), e.world)
  {}

  lemma RepliesToken(s: State, e: Event, t: nat)
    requires Inv(s) && Possible(s, e) && e.Replies?
    ensures var s' := Step(s, e);
      && s'.now == s.now && (t in s.tokens && t in s'.tokens ==> s'.tokens[t] == s.tokens[t])
      && (t in s'.tokens <==> (t in s.tokens && !Takes(s, e, t)) || StoresSome(s, e, t))
      && (forall i: nat :: Stores(s, e, t, i) ==> t !in s.tokens && WaitsFor(s'.tokens[t], s, e, i))
  {
    if Live(s, e.token) {
      VisitedKeeps(s, e.token, e.reply);
      hide Inv, Held;
      RepliesLive(s, e, t);
    }
  }

  lemma RepliesLive(s: State, e: Event, t: nat)
    requires Possible(s, e) && e.Replies? && Live(s, e.token) && Waiting(s, e.token)
    ensures var s' := Step(s, e);
      && s'.now == s.now && (t in s.tokens && t in s'.tokens ==> s'.tokens[t] == s.tokens[t])
      && (t in s'.tokens <==> (t in s.tokens && !Takes(s, e, t)) || StoresSome(s, e, t))
      && (forall i: nat :: Stores(s, e, t, i) ==> t !in s.tokens && WaitsFor(s'.tokens[t], s, e, i))
  {
    var u, r, w := e.token, e.reply, e.world;
    var rest := s.tokens[u].ls.remaining;
    VisitedIs(s, u, r);
    ReachedIs(rest, w.reachable);
    ReplyIs(s, e);
    NextHopStores(Visited(s, u, r), s.tokens[u].chain, AfterReply(s.tokens[u].ls, r), w, t);
    hide NextHop, Unreached, FirstReachable, Visited, AfterReply, Step;
    assert forall i: nat :: Stores(s, e, t, i) <==> w.token == t && FirstReachable(rest, w.reachable, i);
  }

  /** A state is stored by an event that asks someone, and goes when it is taken or swept; nothing changes it in between. */
  lemma StepToken(s: State, e: Event, t: nat)
    requires Inv(s) && Possible(s, e)
    ensures var s' := Step(s, e);
      && s'.now == s.now + (if e.Tick? then e.ms else 0)
      && (t in s'.tokens <==> (t in s.tokens && !Takes(s, e, t)) || StoresSome(s, e, t))
      && (t in s.tokens && t in s'.tokens ==> s'.tokens[t] == s.tokens[t])
      && (forall i: nat :: Stores(s, e, t, i) ==> t !in s.tokens && WaitsFor(s'.tokens[t], s, e, i))
  {
    match e {
      case Ends(_, _, _, _, _) => EndsToken(s, e, t);
      case Replies(_, _, _) => RepliesToken(s, e, t);
      case _ =>
    }
  }

  /** Event `k` stored `t`, and none has taken it since. */
  ghost predicate StoredBy(run: seq<State>, es: seq<Event>, n: nat, t: nat, k: nat)
    requires IsRun(run, es) && n <= |es|
  {
    k < n && StoresSome(run[k], es[k], t) && forall j :: k < j < n ==> !Takes(run[j], es[j], t)
  }

  /**
   * Over any run: a state is there exactly if some event stored it and none has taken it since, and it
   * is what that event stored.
   */
  lemma {:induction false} StoredExactly(run: seq<State>, es: seq<Event>, n: nat, t: nat)
    requires IsRun(run, es) && n <= |es|
    ensures t in run[n].tokens <==> exists k: nat :: StoredBy(run, es, n, t, k)
    ensures t in run[n].tokens ==> exists k: nat, i: nat :: StoredBy(run, es, n, t, k) && Stores(run[k], es[k], t, i) && WaitsFor(run[n].tokens[t], run[k], es[k], i)
    decreases n
  {
    hide Step, Stores, Takes, WaitsFor;
    if n > 0 {
      StoredExactly(run, es, n - 1, t);
      RunKeeps(run, es, n - 1);
      StepToken(run[n - 1], es[n - 1], t);
      assert run[n] == Step(run[n - 1], es[n - 1]);
      StoredNext(run, es, n, t);
      hide StoredBy;
      if StoresSome(run[n - 1], es[n - 1], t) {
        var i: nat :| Stores(run[n - 1], es[n - 1], t, i);
        assert StoredBy(run, es, n, t, n - 1);
      } else if t in run[n].tokens {
        var k: nat, i: nat :| StoredBy(run, es, n - 1, t, k) && Stores(run[k], es[k], t, i) && WaitsFor(run[n - 1].tokens[t], run[k], es[k], i);
        assert StoredBy(run, es, n, t, k);
      }
    }
  }

  lemma StoredNext(run: seq<State>, es: seq<Event>, n: nat, t: nat)
    requires IsRun(run, es) && 0 < n <= |es|
    ensures forall k: nat :: StoredBy(run, es, n, t, k) <==>
      (k == n - 1 && StoresSome(run[k], es[k], t)) || (StoredBy(run, es, n - 1, t, k) && !Takes(run[n - 1], es[n - 1], t))
  {
    hide Stores, Takes;
  }

  /** It is live for five minutes from when it was stored. */
  lemma LiveExactly(run: seq<State>, es: seq<Event>, n: nat, t: nat)
    requires IsRun(run, es) && n <= |es|
    ensures t in run[n].tokens && run[n].now <= run[n].tokens[t].expiresAt <==>
      exists k: nat :: StoredBy(run, es, n, t, k) && run[n].now <= run[k].now + 300_000
  {
    StoredExactly(run, es, n, t);
    if t in run[n].tokens {
      forall k: nat, l: nat | StoredBy(run, es, n, t, k) && StoredBy(run, es, n, t, l) ensures k == l { StoredOnce(run, es, n, t, k, l); }
    }
  }

  lemma NotStoredAgain(run: seq<State>, es: seq<Event>, n: nat, t: nat, k: nat, l: nat)
    requires IsRun(run, es) && k < l < n <= |es| && StoredBy(run, es, n, t, k)
    ensures !StoresSome(run[l], es[l], t)
  {
    hide Step, Takes;
    assert StoredBy(run, es, l, t, k);
    StoredExactly(run, es, l, t);
    assert Possible(run[l], es[l]);
  }

  /** A state that is there is not stored a second time. */
  lemma StoredOnce(run: seq<State>, es: seq<Event>, n: nat, t: nat, k: nat, l: nat)
    requires IsRun(run, es) && n <= |es| && StoredBy(run, es, n, t, k) && StoredBy(run, es, n, t, l)
    ensures k == l
  {
    hide Step, Stores, Takes;
    if k < l { NotStoredAgain(run, es, n, t, k, l); }
    if l < k { NotStoredAgain(run, es, n, t, l, k); }
  }
}
