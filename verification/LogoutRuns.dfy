/** What holds of every run of logout chains. */
module LogoutRuns {
  import opened Optional
  import opened Logout

  // ---- One hop on ------------------------------------------------------------------------------

  /** A process holds chain `c` as `ls`, between two hops. */
  ghost predicate Held(s: State, c: nat, ls: LogoutState) {
    && c in s.chains
    && var story := s.chains[c];
    && !story.over && story.waiting.None? && ls.origin == story.origin
    && story.start == Participants(story.visited) + ls.remaining
    && (ls.partial <==> Partial(story))
    && (forall t :: t in s.tokens ==> s.tokens[t].chain != c)
  }

  lemma PartialSkips(story: Story, ps: seq<Participant>)
    ensures Partial(story.(visited := story.visited + Skipped(ps))) <==> Partial(story) || |ps| > 0
  {
    var u := story.(visited := story.visited + Skipped(ps));
    if |ps| > 0 { assert u.visited[|story.visited|] == Visit(ps[0], Unreachable); }
    if i :| 0 <= i < |story.visited| && !story.visited[i].how.AnsweredWell? { assert u.visited[i] == story.visited[i]; }
  }

  lemma PartialVisit(story: Story, v: Visit)
    ensures Partial(story.(visited := story.visited + [v])) <==> Partial(story) || !v.how.AnsweredWell?
  {
    var u := story.(visited := story.visited + [v]);
    assert u.visited[|story.visited|] == v;
    if i :| 0 <= i < |story.visited| && !story.visited[i].how.AnsweredWell? { assert u.visited[i] == story.visited[i]; }
  }

  /** Being asked is never undone by what a chain does next. */
  lemma AskedStays(story: Story, more: seq<Visit>, waiting: Option<Participant>, over: bool, spId: string)
    requires HasBeenAsked(story, spId)
    requires story.waiting.Some? ==> |more| > 0 && !more[0].how.Unreachable? && more[0].participant == story.waiting.value
    ensures HasBeenAsked(story.(visited := story.visited + more, waiting := waiting, over := over), spId)
  {
    var u := story.(visited := story.visited + more, waiting := waiting, over := over);
    if story.waiting.Some? && story.waiting.value.spId == spId { assert u.visited[|story.visited|] == more[0]; }
    else {
      var i :| 0 <= i < |story.visited| && !story.visited[i].how.Unreachable? && story.visited[i].participant.spId == spId;
      assert u.visited[i] == story.visited[i];
    }
  }

  /** The chain's history after its next hop. */
  function StoryOn(s: State, c: nat, ls: LogoutState, w: World): Story
    requires c in s.chains
  {
    var k := Unreached(ls.remaining, w.reachable);
    s.chains[c].(
      visited := s.chains[c].visited + Skipped(ls.remaining[..k]),
      waiting := if k == |ls.remaining| then None else Some(ls.remaining[k]),
      over := k == |ls.remaining|)
  }

  lemma NextHopStory(s: State, c: nat, ls: LogoutState, w: World)
    requires c in s.chains && s.chains[c].waiting.None? && !s.chains[c].over
    ensures NextHop(s, c, ls, w).chains == s.chains[c := StoryOn(s, c, ls, w)]
  {}

  lemma Split(a: seq<Participant>, b: seq<Participant>, k: nat)
    requires k <= |b|
    ensures a + b == (a + b[..k]) + b[k..]
    ensures k < |b| ==> b[k..] == [b[k]] + b[k + 1..]
  {}

  lemma StoryOnIs(s: State, c: nat, ls: LogoutState, w: World)
    requires Held(s, c, ls)
    ensures NextHop(s, c, ls, w).chains == s.chains[c := StoryOn(s, c, ls, w)]
    ensures var k := Unreached(ls.remaining, w.reachable); var u := StoryOn(s, c, ls, w);
      && (Partial(u) <==> ls.partial || k > 0)
      && u.start == Participants(u.visited) + ls.remaining[k..]
      && (k < |ls.remaining| ==> ls.remaining[k..] == [ls.remaining[k]] + ls.remaining[k + 1..])
  {
    var k := Unreached(ls.remaining, w.reachable);
    PartialSkips(s.chains[c], ls.remaining[..k]);
    NextHopStory(s, c, ls, w);
    Split(Participants(s.chains[c].visited), ls.remaining, k);
    assert Participants(s.chains[c].visited + Skipped(ls.remaining[..k])) == Participants(s.chains[c].visited) + ls.remaining[..k];
  }

  /** An SP still to be visited has not been asked. */
  lemma NotYetAsked(s: State, c: nat, ls: LogoutState, k: nat)
    requires Held(s, c, ls) && Distinct(s.chains[c].start) && k < |ls.remaining|
    ensures !HasBeenAsked(s.chains[c], ls.remaining[k].spId)
  {
    var story := s.chains[c];
    var n := |story.visited|;
    assert story.start[n + k] == ls.remaining[k];
    forall i | 0 <= i < n ensures story.visited[i].participant.spId != ls.remaining[k].spId {
      assert story.start[i] == Participants(story.visited)[i];
    }
  }

  lemma NextHopTokens(s: State, c: nat, ls: LogoutState, w: World)
    requires Inv(s) && Held(s, c, ls) && w.token !in s.tokens
    ensures TokensOk(NextHop(s, c, ls, w))
  {
    hide SentOk, StoryOk, NoneTwice, Partial, HasBeenAsked, Asks;
    StoryOnIs(s, c, ls, w);
    var s' := NextHop(s, c, ls, w);
    forall t | t in s'.tokens ensures s'.tokens[t].chain in s'.chains && Conserved(s'.chains[s'.tokens[t].chain], s'.tokens[t].ls) {
      if t in s.tokens { assert s.tokens[t].chain != c; }
    }
  }

  lemma NextHopSent(s: State, c: nat, ls: LogoutState, w: World)
    requires Inv(s) && Held(s, c, ls)
    ensures var s' := NextHop(s, c, ls, w); forall i :: 0 <= i < |s'.outbox| ==> SentOk(s', s'.outbox[i])
  {
    StoryOnIs(s, c, ls, w);
    var s' := NextHop(s, c, ls, w);
    var u := StoryOn(s, c, ls, w);
    forall i | 0 <= i < |s'.outbox| ensures SentOk(s', s'.outbox[i]) {
      if i < |s.outbox| {
        var m := s.outbox[i];
        assert SentOk(s, m);
        if m.chain == c {
          AskedStays(s.chains[c], Skipped(ls.remaining[..Unreached(ls.remaining, w.reachable)]), u.waiting, u.over, m.participant.spId);
        }
      }
    }
  }

  lemma NextHopTwice(s: State, c: nat, ls: LogoutState, w: World)
    requires Inv(s) && Held(s, c, ls)
    ensures NoneTwice(NextHop(s, c, ls, w).outbox)
  {
    var s' := NextHop(s, c, ls, w);
    var n := |s.outbox|;
    assert |s'.outbox| == n + 1 && s'.outbox[..n] == s.outbox;
    var k := Unreached(ls.remaining, w.reachable);
    assert StoryOk(s, c, s.chains[c]);
    if k < |ls.remaining| { NotYetAsked(s, c, ls, k); }
    forall i | 0 <= i < n && s'.outbox[i].chain == c
      ensures s'.outbox[i].Asked?
      ensures s'.outbox[n].Asked? ==> s'.outbox[i].participant.spId != s'.outbox[n].participant.spId
    {
      assert SentOk(s, s.outbox[i]);
    }
  }

  lemma NextHopStories(s: State, c: nat, ls: LogoutState, w: World)
    requires Inv(s) && Held(s, c, ls)
    ensures var s' := NextHop(s, c, ls, w); forall d :: d in s'.chains ==> StoryOk(s', d, s'.chains[d])
  {
    StoryOnIs(s, c, ls, w);
    var s' := NextHop(s, c, ls, w);
    var u := StoryOn(s, c, ls, w);
    forall d | d in s'.chains ensures StoryOk(s', d, s'.chains[d]) {
      assert StoryOk(s, d, s.chains[d]);
      forall v | v in s'.chains[d].visited ensures v.participant in s'.chains[d].start {
        if d == c && v in Skipped(ls.remaining) { assert v.participant in ls.remaining; }
      }
      forall v | v in s'.chains[d].visited && !v.how.Unreachable? ensures Asks(s'.outbox, d, v.participant.spId, v.how.requestId) {
        assert v in s.chains[d].visited;
        assert Asks(s.outbox, d, v.participant.spId, v.how.requestId);
      }
    }
  }

  lemma NextHopKeeps(s: State, c: nat, ls: LogoutState, w: World)
    requires Inv(s) && Held(s, c, ls) && w.token !in s.tokens
    ensures Inv(NextHop(s, c, ls, w))
  {
    hide SentOk, StoryOk, NoneTwice, StoryOn, HasBeenAsked, Partial;
    NextHopTokens(s, c, ls, w);
    NextHopSent(s, c, ls, w);
    NextHopTwice(s, c, ls, w);
    NextHopStories(s, c, ls, w);
    var s' := NextHop(s, c, ls, w);
    assert |s'.outbox| == |s.outbox| + 1 && s'.outbox[..|s.outbox|] == s.outbox;
    forall t | t in s'.tokens
      ensures Asks(s'.outbox, s'.tokens[t].chain, s'.tokens[t].ls.current.value.spId, s'.tokens[t].ls.current.value.requestId)
    {
      if t in s.tokens {
        assert Asks(s.outbox, s.tokens[t].chain, s.tokens[t].ls.current.value.spId, s.tokens[t].ls.current.value.requestId);
      } else {
        assert s'.outbox[|s.outbox|] == Asked(c, ls.remaining[Unreached(ls.remaining, w.reachable)], w.requestId, w.token);
      }
    }
  }

  // ---- The other steps -------------------------------------------------------------------------

  lemma {:induction false} OthersDistinct(ps: seq<Participant>, origin: Origin)
    requires Distinct(ps)
    ensures Distinct(Others(ps, origin))
  {
    if ps != [] {
      OthersDistinct(ps[1..], origin);
      var rest := Others(ps[1..], origin);
      forall i | 0 <= i < |rest| ensures rest[i].spId != ps[0].spId {
        assert rest[i] in ps[1..];
      }
    }
  }

  /** The chain has begun and has gone nowhere yet. */
  function Begun(s: State, e: Event): State
    requires e.Ends?
  {
    s.(chains := s.chains[e.chain := Story(e.origin, Others(e.listed, e.origin), e.partlyListed, [], None, false)])
  }

  lemma BegunStories(s: State, e: Event)
    requires Inv(s) && e.Ends? && Possible(s, e)
    ensures forall d :: d in Begun(s, e).chains ==> StoryOk(Begun(s, e), d, Begun(s, e).chains[d])
  {
    var b := Begun(s, e);
    OthersDistinct(e.listed, e.origin);
    forall d | d in b.chains ensures StoryOk(b, d, b.chains[d]) { assert d != e.chain ==> StoryOk(s, d, s.chains[d]); }
  }

  lemma BegunKeeps(s: State, e: Event)
    requires Inv(s) && e.Ends? && Possible(s, e)
    ensures Inv(Begun(s, e)) && Held(Begun(s, e), e.chain, LogoutState(e.origin, Others(e.listed, e.origin), None, e.partlyListed))
  {
    hide StoryOk, Distinct, Others;
    var b := Begun(s, e);
    BegunStories(s, e);
    forall i | 0 <= i < |b.outbox| ensures SentOk(b, b.outbox[i]) { assert SentOk(s, s.outbox[i]); }
    assert Participants([]) + Others(e.listed, e.origin) == Others(e.listed, e.origin);
  }

  lemma BeginKeeps(s: State, e: Event)
    requires Inv(s) && e.Ends? && Possible(s, e)
    ensures Inv(Step(s, e))
  {
    BegunKeeps(s, e);
    hide Inv, NextHop, Held;
    NextHopKeeps(Begun(s, e), e.chain, LogoutState(e.origin, Others(e.listed, e.origin), None, e.partlyListed), e.world);
  }

  function VisitOf(s: State, t: nat, r: Reply): Visit
    requires t in s.tokens && Waiting(s, t)
  {
    var hop := s.tokens[t].ls.current.value;
    Visit(s.chains[s.tokens[t].chain].waiting.value, if FullSuccess(r, hop) then AnsweredWell(hop.requestId) else AnsweredBadly(hop.requestId))
  }

  lemma VisitedHeld(s: State, t: nat, r: Reply)
    requires Inv(s) && t in s.tokens && Waiting(s, t)
    ensures TokensOk(Visited(s, t, r)) && Held(Visited(s, t, r), s.tokens[t].chain, AfterReply(s.tokens[t].ls, r))
  {
    var c, ls := s.tokens[t].chain, s.tokens[t].ls;
    var story := s.chains[c];
    assert Conserved(story, ls);
    var v := VisitOf(s, t, r);
    PartialVisit(story, v);
    assert Participants(story.visited + [v]) == Participants(story.visited) + [story.waiting.value];
  }

  lemma VisitedSent(s: State, t: nat, r: Reply)
    requires Inv(s) && t in s.tokens && Waiting(s, t)
    ensures var s' := Visited(s, t, r); forall i :: 0 <= i < |s'.outbox| ==> SentOk(s', s'.outbox[i])
  {
    var c := s.tokens[t].chain;
    var s' := Visited(s, t, r);
    assert Conserved(s.chains[c], s.tokens[t].ls);
    forall i | 0 <= i < |s'.outbox| ensures SentOk(s', s'.outbox[i]) {
      var m := s.outbox[i];
      assert SentOk(s, m);
      if m.chain == c && m.Asked? { AskedStays(s.chains[c], [VisitOf(s, t, r)], None, false, m.participant.spId); }
    }
  }

  lemma VisitedKeeps(s: State, t: nat, r: Reply)
    requires Inv(s) && t in s.tokens
    ensures Waiting(s, t) && Inv(Visited(s, t, r)) && Held(Visited(s, t, r), s.tokens[t].chain, AfterReply(s.tokens[t].ls, r))
  {
    var c := s.tokens[t].chain;
    assert Conserved(s.chains[c], s.tokens[t].ls);
    hide HasBeenAsked, Partial, SentOk;
    VisitedHeld(s, t, r);
    VisitedSent(s, t, r);
    VisitedStories(s, t, r);
    hide StoryOk, NoneTwice;
  }

  lemma VisitedStories(s: State, t: nat, r: Reply)
    requires Inv(s) && t in s.tokens && Waiting(s, t)
    ensures forall d :: d in Visited(s, t, r).chains ==> StoryOk(Visited(s, t, r), d, Visited(s, t, r).chains[d])
  {
    hide HasBeenAsked, Partial, SentOk, NoneTwice;
    var s' := Visited(s, t, r);
    var c, hop := s.tokens[t].chain, s.tokens[t].ls.current.value;
    assert Conserved(s.chains[c], s.tokens[t].ls);
    assert Asks(s.outbox, c, hop.spId, hop.requestId);
    forall d | d in s'.chains ensures StoryOk(s', d, s'.chains[d]) { assert StoryOk(s, d, s.chains[d]); }
  }

  lemma StepKeeps(s: State, e: Event)
    requires Inv(s) && Possible(s, e)
    ensures Inv(Step(s, e))
  {
    match e {
      case Ends(_, _, _, _, _) => BeginKeeps(s, e);
      case Replies(t, r, w) =>
        if Live(s, t) {
          VisitedKeeps(s, t, r);
          NextHopKeeps(Visited(s, t, r), s.tokens[t].chain, AfterReply(s.tokens[t].ls, r), w);
        }
      case _ =>
        var s' := Step(s, e);
        forall i | 0 <= i < |s'.outbox| ensures SentOk(s', s'.outbox[i]) { assert SentOk(s, s.outbox[i]); }
        forall c | c in s'.chains ensures StoryOk(s', c, s'.chains[c]) { assert StoryOk(s, c, s.chains[c]); }
    }
  }

  ghost predicate IsRun(run: seq<State>, es: seq<Event>) {
    && |run| == |es| + 1
    && run[0].tokens == map[] && run[0].outbox == [] && run[0].chains == map[]
    && forall i :: 0 <= i < |es| ==> Possible(run[i], es[i]) && run[i + 1] == Step(run[i], es[i])
  }

  lemma {:induction false} RunKeeps(run: seq<State>, es: seq<Event>, i: nat)
    requires IsRun(run, es) && i <= |es|
    ensures Inv(run[i])
  {
    if i > 0 {
      RunKeeps(run, es, i - 1);
      StepKeeps(run[i - 1], es[i - 1]);
    }
  }

  // ---- The theorems ----------------------------------------------------------------------------

  /**
   * Every SP the chain began with is visited, waited for or still to come, in order and once,
   * at each hop; and the stored flag says whether any of them fell short so far.
   */
  lemma ParticipantsAreConserved(run: seq<State>, es: seq<Event>, i: nat, t: nat)
    requires IsRun(run, es) && i <= |es| && t in run[i].tokens
    ensures var st := run[i].tokens[t];
      st.chain in run[i].chains &&
      var story := run[i].chains[st.chain];
      && story.waiting.Some? && st.ls.current.Some? && st.ls.current.value.spId == story.waiting.value.spId
      && story.start == Participants(story.visited) + [story.waiting.value] + st.ls.remaining
      && (st.ls.partial <==> Partial(story))
  {
    RunKeeps(run, es, i);
    var st := run[i].tokens[t];
    assert Conserved(run[i].chains[st.chain], st.ls);
  }

  /** No SP is sent two LogoutRequests in one chain. */
  lemma AskedOnce(run: seq<State>, es: seq<Event>, i: nat, j: nat)
    requires IsRun(run, es)
    requires var out := run[|es|].outbox; i < |out| && j < |out| && out[i].Asked? && out[j].Asked? && out[i].chain == out[j].chain && out[i].participant.spId == out[j].participant.spId
    ensures i == j
  {
    RunKeeps(run, es, |es|);
  }

  /** A chain has one last word: the originator is answered at most once. */
  lemma OneLastWord(run: seq<State>, es: seq<Event>, i: nat, j: nat)
    requires IsRun(run, es)
    requires var out := run[|es|].outbox; i < |out| && j < |out| && !out[i].Asked? && !out[j].Asked? && out[i].chain == out[j].chain
    ensures i == j
  {
    RunKeeps(run, es, |es|);
  }

  /** An SP was sent a LogoutRequest, and answered that one with full Success. */
  ghost predicate LoggedOut(s: State, c: nat, p: Participant)
    requires c in s.chains
  {
    exists v :: v in s.chains[c].visited && v.participant == p && v.how.AnsweredWell? && Asks(s.outbox, c, p.spId, v.how.requestId)
  }

  lemma AllWell(s: State, c: nat)
    requires Inv(s) && c in s.chains && s.chains[c].over
    ensures !Partial(s.chains[c]) <==> !s.chains[c].partlyListed && forall p :: p in s.chains[c].start ==> LoggedOut(s, c, p)
  {
    var story := s.chains[c];
    assert StoryOk(s, c, story);
    if !Partial(story) {
      forall p | p in story.start ensures LoggedOut(s, c, p) { WholeLogsOut(s, c, p); }
    }
    if !story.partlyListed && (forall p :: p in story.start ==> LoggedOut(s, c, p)) {
      forall i | 0 <= i < |story.visited| ensures story.visited[i].how.AnsweredWell? { LoggedOutAnswered(s, c, story, i); }
    }
  }

  lemma WholeLogsOut(s: State, c: nat, p: Participant)
    requires c in s.chains && StoryOk(s, c, s.chains[c]) && s.chains[c].over && !Partial(s.chains[c]) && p in s.chains[c].start
    ensures LoggedOut(s, c, p)
  {
    var story := s.chains[c];
    var i :| 0 <= i < |story.start| && story.start[i] == p;
    assert Participants(story.visited)[i] == p;
    var v := story.visited[i];
    assert v in story.visited && v.how.AnsweredWell?;
  }

  lemma LoggedOutAnswered(s: State, c: nat, story: Story, i: nat)
    requires c in s.chains && story == s.chains[c] && StoryOk(s, c, story) && story.over && i < |story.visited|
    requires forall p :: p in story.start ==> LoggedOut(s, c, p)
    ensures story.visited[i].how.AnsweredWell?
  {
    var p := story.visited[i].participant;
    assert Participants(story.visited)[i] == p && p in story.start;
    assert LoggedOut(s, c, p);
    var v :| v in story.visited && v.participant == p && v.how.AnsweredWell?;
    var j :| 0 <= j < |story.visited| && story.visited[j] == v;
    assert story.start[i].spId == story.start[j].spId;
  }

  /** Chain `c` began with these SPs, for this originator. */
  predicate Began(s: State, c: nat, origin: Origin, start: seq<Participant>, partlyListed: bool) {
    c in s.chains && s.chains[c].origin == origin && s.chains[c].start == start && s.chains[c].partlyListed == partlyListed
  }

  lemma BeganStays(s: State, e: Event, c: nat, origin: Origin, start: seq<Participant>, partlyListed: bool)
    requires Possible(s, e) && Began(s, c, origin, start, partlyListed)
    ensures Began(Step(s, e), c, origin, start, partlyListed)
  {}

  lemma EndsBegins(s: State, e: Event)
    requires Possible(s, e) && e.Ends?
    ensures Began(Step(s, e), e.chain, e.origin, Others(e.listed, e.origin), e.partlyListed)
  {}

  /** What a chain began with is in its books ever after. */
  lemma {:induction false} BeganWith(run: seq<State>, es: seq<Event>, k: nat, n: nat)
    requires IsRun(run, es) && k < n <= |es| && es[k].Ends?
    ensures Began(run[n], es[k].chain, es[k].origin, Others(es[k].listed, es[k].origin), es[k].partlyListed)
    decreases n
  {
    if n == k + 1 {
      EndsBegins(run[k], es[k]);
    } else {
      BeganWith(run, es, k, n - 1);
      BeganStays(run[n - 1], es[n - 1], es[k].chain, es[k].origin, Others(es[k].listed, es[k].origin), es[k].partlyListed);
    }
  }

  // ---- What each hop sends -------------------------------------------------------------------------

  /** Participant `i` is the first of these that can be reached. */
  predicate FirstReachable(ps: seq<Participant>, reachable: set<string>, i: nat) {
    i < |ps| && ps[i].spId in reachable && forall j :: 0 <= j < i ==> ps[j].spId !in reachable
  }

  /** Those still to be told when the event has ended the session, or taken its reply. */
  function StillToTell(s: State, e: Event): seq<Participant>
    requires e.Ends? || (e.Replies? && e.token in s.tokens)
  {
    if e.Ends? then Others(e.listed, e.origin) else s.tokens[e.token].ls.remaining
  }

  function ChainOf(s: State, e: Event): nat
    requires e.Ends? || (e.Replies? && e.token in s.tokens)
  {
    if e.Ends? then e.chain else s.tokens[e.token].chain
  }

  lemma UnreachedIs(ps: seq<Participant>, reachable: set<string>, i: nat)
    requires FirstReachable(ps, reachable, i)
    ensures Unreached(ps, reachable) == i
  {}

  /**
   * What an end of a session, or a reply on a live hop, sends: a LogoutRequest to the first SP still to
   * be told that can be reached, under the ID drawn for it; with none, the chain's one last word: an
   * answer to the SP it began with while that can be answered, or the browser sent back. Any other
   * event sends nothing.
   */
  lemma HopSends(s: State, e: Event)
    requires Inv(s) && Possible(s, e)
    ensures if e.Ends? || (e.Replies? && e.token in s.tokens && s.now <= s.tokens[e.token].expiresAt) then
        var c, rest, s' := ChainOf(s, e), StillToTell(s, e), Step(s, e);
        c in s'.chains && (
        var origin := s'.chains[c].origin;
        && |s'.outbox| == |s.outbox| + 1 && s'.outbox[..|s.outbox|] == s.outbox
        && var m := s'.outbox[|s.outbox|];
        && (forall i: nat :: FirstReachable(rest, e.world.reachable, i) ==> m == Asked(c, rest[i], e.world.requestId, e.world.token))
        && ((forall p :: p in rest ==> p.spId !in e.world.reachable) ==>
              match origin
              case ByIdp(returnTo) => m == SentBack(c, returnTo)
              case BySp(spId, id, relayState) =>
                if e.world.answerable then m.Answered? && m.chain == c && m.spId == spId && m.inResponseTo == id && m.relayState == relayState else m == Refused(c)))
      else Step(s, e).outbox == s.outbox
  {
    match e {
      case Ends(c, origin, listed, partly, w) =>
        var start := Others(listed, origin);
        NextHopSays(s.(chains := s.chains[c := Story(origin, start, partly, [], None, false)]), c, LogoutState(origin, start, None, partly), w);
      case Replies(t, r, w) =>
        if Live(s, t) {
          VisitedKeeps(s, t, r);
          NextHopSays(Visited(s, t, r), s.tokens[t].chain, AfterReply(s.tokens[t].ls, r), w);
        }
      case _ =>
    }
  }

  lemma NextHopSays(s: State, c: nat, ls: LogoutState, w: World)
    requires c in s.chains && ls.origin == s.chains[c].origin
    ensures var s' := NextHop(s, c, ls, w);
      && c in s'.chains && s'.chains[c].origin == ls.origin
      && |s'.outbox| == |s.outbox| + 1 && s'.outbox[..|s.outbox|] == s.outbox
      && var m := s'.outbox[|s.outbox|];
      && (forall i: nat :: FirstReachable(ls.remaining, w.reachable, i) ==> m == Asked(c, ls.remaining[i], w.requestId, w.token))
      && ((forall p :: p in ls.remaining ==> p.spId !in w.reachable) ==>
            match ls.origin
            case ByIdp(returnTo) => m == SentBack(c, returnTo)
            case BySp(spId, id, relayState) =>
              if w.answerable then m.Answered? && m.chain == c && m.spId == spId && m.inResponseTo == id && m.relayState == relayState else m == Refused(c))
  {
    forall i: nat | FirstReachable(ls.remaining, w.reachable, i) ensures Unreached(ls.remaining, w.reachable) == i { UnreachedIs(ls.remaining, w.reachable, i); }
    var k := Unreached(ls.remaining, w.reachable);
    assert k < |ls.remaining| ==> ls.remaining[k] in ls.remaining;
  }

  /** Every LogoutRequest is for an SP of the chain's list, and names the user and the session as that list does. */
  lemma AskedAsListed(run: seq<State>, es: seq<Event>, i: nat)
    requires IsRun(run, es) && i < |run[|es|].outbox| && run[|es|].outbox[i].Asked?
    ensures var s := run[|es|]; s.outbox[i].chain in s.chains && s.outbox[i].participant in s.chains[s.outbox[i].chain].start
  {
    RunKeeps(run, es, |es|);
    assert SentOk(run[|es|], run[|es|].outbox[i]);
  }

  /** The others are told in the order they are listed. */
  lemma {:induction false} OthersInOrder(ps: seq<Participant>, origin: Origin, n: nat)
    requires n <= |ps|
    ensures Others(ps, origin) == Others(ps[..n], origin) + Others(ps[n..], origin)
    decreases n
  {
    if n == 0 {
      assert ps[0..] == ps && Others(ps[..0], origin) == [];
    } else {
      OthersInOrder(ps[1..], origin, n - 1);
      assert ps[..n][1..] == ps[1..][..n - 1] && ps[1..][n - 1..] == ps[n..];
    }
  }

  // ---- What the originator is told ---------------------------------------------------------------

  /** The SP that chain `c` is waiting for, `spId`, sends a reply to the request it was asked with, and all of it is well. */
  ghost predicate RepliesWell(s: State, e: Event, c: nat, spId: string) {
    && e.Replies? && e.token in s.tokens && s.now <= s.tokens[e.token].expiresAt && s.tokens[e.token].chain == c
    && s.tokens[e.token].ls.current == Some(Hop(spId, e.reply.inResponseTo))
    && (exists p, t :: Asked(c, p, e.reply.inResponseTo, t) in s.outbox && p.spId == spId)
    && e.reply.senderKnown && e.reply.acceptable
    && 0 < |e.reply.status| && e.reply.status[0] == "Success" && (1 < |e.reply.status| ==> e.reply.status[1] != "PartialLogout")
  }

  /** It did so at some event before moment `n` of the run. */
  ghost predicate RepliedBefore(run: seq<State>, es: seq<Event>, n: nat, c: nat, spId: string)
    requires IsRun(run, es) && n <= |es|
  {
    exists k: nat :: k < n && RepliesWell(run[k], es[k], c, spId)
  }

  ghost predicate RepliedWell(run: seq<State>, es: seq<Event>, c: nat, spId: string)
    requires IsRun(run, es)
  {
    RepliedBefore(run, es, |es|, c, spId)
  }

  lemma RepliedNext(run: seq<State>, es: seq<Event>, n: nat, c: nat, spId: string)
    requires IsRun(run, es) && n < |es|
    ensures RepliedBefore(run, es, n + 1, c, spId) <==> RepliedBefore(run, es, n, c, spId) || RepliesWell(run[n], es[n], c, spId)
  {
    hide IsRun, RepliesWell;
  }

  ghost predicate VisitedWell(s: State, c: nat, spId: string) {
    c in s.chains && exists v :: v in s.chains[c].visited && v.how.AnsweredWell? && v.participant.spId == spId
  }

  lemma NextHopVisits(s: State, c: nat, ls: LogoutState, w: World)
    requires c in s.chains
    ensures NextHop(s, c, ls, w).chains.Keys == s.chains.Keys
    ensures forall d :: d in s.chains && d != c ==> NextHop(s, c, ls, w).chains[d] == s.chains[d]
    ensures exists more :: Unseen(more) && NextHop(s, c, ls, w).chains[c].visited == s.chains[c].visited + more
  {
    var k := Unreached(ls.remaining, w.reachable);
    assert Unseen(Skipped(ls.remaining[..k]));
  }

  ghost predicate Unseen(more: seq<Visit>) {
    forall v :: v in more ==> v.how.Unreachable?
  }

  lemma NextHopWell(s: State, c: nat, ls: LogoutState, w: World, d: nat, spId: string)
    requires c in s.chains
    ensures VisitedWell(NextHop(s, c, ls, w), d, spId) <==> VisitedWell(s, d, spId)
  {
    NextHopVisits(s, c, ls, w);
    var s' := NextHop(s, c, ls, w);
    hide NextHop;
    var more :| Unseen(more) && s'.chains[c].visited == s.chains[c].visited + more;
    assert forall v :: v in s'.chains[c].visited && v.how.AnsweredWell? <==> v in s.chains[c].visited && v.how.AnsweredWell?;
  }

  lemma VisitedAlso(s: State, t: nat, r: Reply, d: nat, spId: string)
    requires Inv(s) && Live(s, t) && Waiting(s, t)
    ensures VisitedWell(Visited(s, t, r), d, spId) <==> VisitedWell(s, d, spId) || RepliesWell(s, Replies(t, r, World({}, false, 0, 0)), d, spId)
  {
    var c := s.tokens[t].chain;
    var s' := Visited(s, t, r);
    var v := VisitOf(s, t, r);
    assert Conserved(s.chains[c], s.tokens[t].ls);
    assert s'.chains[c].visited == s.chains[c].visited + [v];
    var hop := s.tokens[t].ls.current.value;
    assert Asks(s.outbox, c, hop.spId, hop.requestId);
  }

  lemma ReplyWell(s: State, e: Event, c: nat, spId: string)
    requires Inv(s) && Possible(s, e) && e.Replies? && Live(s, e.token)
    ensures VisitedWell(Step(s, e), c, spId) <==> VisitedWell(s, c, spId) || RepliesWell(s, e, c, spId)
  {
    var t, r, w := e.token, e.reply, e.world;
    VisitedKeeps(s, t, r);
    VisitedAlso(s, t, r, c, spId);
    NextHopWell(Visited(s, t, r), s.tokens[t].chain, AfterReply(s.tokens[t].ls, r), w, c, spId);
    hide Inv, VisitedWell, NextHop, Visited, AfterReply, Held;
  }

  /** An SP counts as having answered well from then on, and from nothing else. */
  lemma StepWell(s: State, e: Event, c: nat, spId: string)
    requires Inv(s) && Possible(s, e)
    ensures VisitedWell(Step(s, e), c, spId) <==> VisitedWell(s, c, spId) || RepliesWell(s, e, c, spId)
  {
    hide Inv, NextHop;
    match e {
      case Ends(d, origin, listed, partly, w) =>
        var start := Others(listed, origin);
        NextHopWell(s.(chains := s.chains[d := Story(origin, start, partly, [], None, false)]), d, LogoutState(origin, start, None, partly), w, c, spId);
      case Replies(t, r, w) =>
        if Live(s, t) { ReplyWell(s, e, c, spId); }
      case _ =>
    }
  }

  lemma NoneAtFirst(run: seq<State>, es: seq<Event>, c: nat, spId: string)
    requires IsRun(run, es)
    ensures !VisitedWell(run[0], c, spId) && !RepliedBefore(run, es, 0, c, spId)
  {}

  lemma RunStep(run: seq<State>, es: seq<Event>, n: nat)
    requires IsRun(run, es) && n < |es|
    ensures |run| == |es| + 1 && Possible(run[n], es[n]) && run[n + 1] == Step(run[n], es[n]) && Inv(run[n])
  {
    RunKeeps(run, es, n);
  }

  lemma {:induction false} WellExactly(run: seq<State>, es: seq<Event>, n: nat, c: nat, spId: string)
    requires IsRun(run, es) && n <= |es|
    ensures VisitedWell(run[n], c, spId) <==> RepliedBefore(run, es, n, c, spId)
  {
    hide Step, Possible, RepliesWell, VisitedWell, RepliedBefore, Inv;
    if n == 0 {
      NoneAtFirst(run, es, c, spId);
    } else {
      var m := n - 1;
      WellExactly(run, es, m, c, spId);
      RunStep(run, es, m);
      RepliedNext(run, es, m, c, spId);
      StepWell(run[m], es[m], c, spId);
    }
  }

  lemma {:induction false} ChainBegan(run: seq<State>, es: seq<Event>, n: nat, c: nat) returns (b: nat)
    requires IsRun(run, es) && n <= |es| && c in run[n].chains
    ensures b < n && es[b].Ends? && es[b].chain == c
  {
    assert n > 0 && run[n] == Step(run[n - 1], es[n - 1]);
    RunKeeps(run, es, n - 1);
    NewChain(run[n - 1], es[n - 1], c);
    if c in run[n - 1].chains { b := ChainBegan(run, es, n - 1, c); } else { b := n - 1; }
  }

  lemma NewChain(s: State, e: Event, c: nat)
    requires Inv(s) && Possible(s, e) && c in Step(s, e).chains
    ensures c in s.chains || (e.Ends? && e.chain == c)
  {
    if e.Replies? && Live(s, e.token) { assert Conserved(s.chains[s.tokens[e.token].chain], s.tokens[e.token].ls); }
  }

  /** Told apart by SP, those on the list of a chain that is over have all been visited. */
  lemma LoggedOutIs(s: State, c: nat, p: Participant)
    requires Inv(s) && c in s.chains && s.chains[c].over && p in s.chains[c].start
    ensures LoggedOut(s, c, p) <==> VisitedWell(s, c, p.spId)
  {
    var story := s.chains[c];
    assert StoryOk(s, c, story);
    if VisitedWell(s, c, p.spId) {
      var v :| v in story.visited && v.how.AnsweredWell? && v.participant.spId == p.spId;
      var i, j :| 0 <= i < |story.start| && story.start[i] == p && 0 <= j < |story.start| && story.start[j] == v.participant;
      assert i == j;
    }
  }

  /**
   * What the originator is told, over any run: the answer goes to the SP whose request ended the
   * session, and is plain Success if and only if the list was complete and every other SP on it, while
   * it was waited for, sent a reply to the request it had been asked with, acceptable and from an SP
   * still known, whose top status is Success and whose second, if any, is not PartialLogout.
   */
  lemma PlainSuccess(run: seq<State>, es: seq<Event>, b: nat, i: nat)
    requires IsRun(run, es) && b < |es| && es[b].Ends?
    requires i < |run[|es|].outbox| && run[|es|].outbox[i].Answered? && run[|es|].outbox[i].chain == es[b].chain
    ensures var m := run[|es|].outbox[i];
      && es[b].origin == BySp(m.spId, m.inResponseTo, m.relayState)
      && (!m.partial <==> !es[b].partlyListed && forall p :: p in es[b].listed && p.spId != m.spId ==> RepliedWell(run, es, m.chain, p.spId))
  {
    hide Step, LoggedOut, Partial, RepliesWell, RepliedBefore;
    RunKeeps(run, es, |es|);
    BeganWith(run, es, b, |es|);
    var s := run[|es|];
    var m := s.outbox[i];
    assert SentOk(s, m);
    AllWell(s, m.chain);
    forall p | p in s.chains[m.chain].start ensures LoggedOut(s, m.chain, p) <==> RepliedWell(run, es, m.chain, p.spId) {
      LoggedOutIs(s, m.chain, p);
      WellExactly(run, es, |es|, m.chain, p.spId);
    }
  }

  function AskedIn(outbox: seq<Sent>, c: nat): nat {
    if outbox == [] then 0
    else AskedIn(outbox[..|outbox| - 1], c) + if outbox[|outbox| - 1].Asked? && outbox[|outbox| - 1].chain == c then 1 else 0
  }

  /** SPs asked in this chain, one for each LogoutRequest. */
  lemma {:induction false} AskedSet(outbox: seq<Sent>, c: nat) returns (sps: set<string>)
    requires NoneTwice(outbox)
    ensures |sps| == AskedIn(outbox, c)
    ensures forall x :: x in sps ==> exists i :: 0 <= i < |outbox| && outbox[i].Asked? && outbox[i].chain == c && outbox[i].participant.spId == x
    decreases |outbox|
  {
    if outbox == [] {
      sps := {};
    } else {
      var n := |outbox| - 1;
      sps := AskedSet(outbox[..n], c);
      forall x | x in sps ensures exists i :: 0 <= i < n && outbox[i].Asked? && outbox[i].chain == c && outbox[i].participant.spId == x {
        var i :| 0 <= i < |outbox[..n]| && outbox[..n][i].Asked? && outbox[..n][i].chain == c && outbox[..n][i].participant.spId == x;
        assert outbox[i].Asked? && outbox[i].chain == c && outbox[i].participant.spId == x;
      }
      if outbox[n].Asked? && outbox[n].chain == c { sps := sps + {outbox[n].participant.spId}; }
    }
  }

  lemma {:induction false} NoMoreThan(sps: set<string>, ps: seq<Participant>)
    requires forall x :: x in sps ==> exists p :: p in ps && p.spId == x
    ensures |sps| <= |ps|
    decreases |ps|
  {
    if ps == [] {
      assert sps == {};
    } else {
      var rest := sps - {ps[0].spId};
      forall x | x in rest ensures exists p :: p in ps[1..] && p.spId == x {
        var p :| p in ps && p.spId == x;
        assert p in ps[1..];
      }
      NoMoreThan(rest, ps[1..]);
    }
  }

  /** The browser is sent on at most as many hops as there were SPs on the list. */
  lemma HopsAreBounded(run: seq<State>, es: seq<Event>, c: nat)
    requires IsRun(run, es) && c in run[|es|].chains
    ensures AskedIn(run[|es|].outbox, c) <= |run[|es|].chains[c].start|
  {
    RunKeeps(run, es, |es|);
    var s := run[|es|];
    var sps := AskedSet(s.outbox, c);
    forall x | x in sps ensures exists p :: p in s.chains[c].start && p.spId == x {
      var i :| 0 <= i < |s.outbox| && s.outbox[i].Asked? && s.outbox[i].chain == c && s.outbox[i].participant.spId == x;
      assert SentOk(s, s.outbox[i]) && HasBeenAsked(s.chains[c], x) && StoryOk(s, c, s.chains[c]);
    }
    NoMoreThan(sps, s.chains[c].start);
  }

  /** The random value drawn for a hop's state. */
  predicate Draws(e: Event, t: nat) { (e.Ends? || e.Replies?) && e.world.token == t }

  lemma SpentStays(s: State, e: Event, t: nat)
    requires Possible(s, e) && !Live(s, t) && !Draws(e, t)
    ensures !Live(Step(s, e), t)
  {}

  lemma ReplySpends(s: State, e: Event)
    requires Possible(s, e) && e.Replies?
    ensures !Live(Step(s, e), e.token)
  {
    if Live(s, e.token) { assert e.world.token != e.token; }
  }

  lemma {:induction false} SpentThroughout(run: seq<State>, es: seq<Event>, i: nat, j: nat)
    requires IsRun(run, es) && i < j <= |es| && es[i].Replies?
    requires forall k :: i < k < j ==> !Draws(es[k], es[i].token)
    ensures !Live(run[j], es[i].token)
    decreases j
  {
    if j == i + 1 {
      ReplySpends(run[i], es[i]);
    } else {
      SpentThroughout(run, es, i, j - 1);
      SpentStays(run[j - 1], es[j - 1], es[i].token);
    }
  }

  /**
   * A reply that comes again, at any later moment of a run and whatever it says, changes nothing,
   * as the hop's state is gone. The random value that named it is not drawn a second time.
   */
  lemma RepeatedReply(run: seq<State>, es: seq<Event>, i: nat, j: nat)
    requires IsRun(run, es) && i < j < |es| && es[i].Replies? && es[j].Replies? && es[j].token == es[i].token
    requires forall k :: i < k < j ==> !Draws(es[k], es[i].token)
    ensures run[j + 1] == run[j]
  {
    SpentThroughout(run, es, i, j);
  }
}
