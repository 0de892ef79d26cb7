/**
Single Logout as a chain of hops through the browser. The session is ended first; then each other
participating SP is sent a LogoutRequest, one at a time, and at the end the originator is answered.
Between two hops the chain lives in one single-use stored value, named by the RelayState.

Several chains may be on their way at once. `chains` is their history: no endpoint reads it.
*/
module Logout {
  import opened Optional

  const HOP_TTL := 300_000

  datatype Participant = Participant(spId: string, nameId: string, nameIdFormat: string, sessionIndex: string)

  datatype Origin = BySp(spId: string, requestId: string, relayState: Option<string>) | ByIdp(returnTo: string)

  datatype Hop = Hop(spId: string, requestId: nat)

  /** The chain as it is stored. `current`: the hop being waited for. */
  datatype LogoutState = LogoutState(origin: Origin, remaining: seq<Participant>, current: Option<Hop>, partial: bool)

  /** A LogoutResponse, and what is known of its sender. */
  datatype Reply = Reply(
    senderKnown: bool,      // the SP and the identity that asked it are still there
    acceptable: bool,       // decoded, of its issuer, and signed as it must be
    inResponseTo: nat,
    status: seq<string>)

  predicate FullSuccess(r: Reply, hop: Hop) {
    && r.senderKnown && r.acceptable && r.inResponseTo == hop.requestId
    && |r.status| > 0 && r.status[0] == "Success"
    && !(|r.status| > 1 && r.status[1] == "PartialLogout")
  }

  /** What leaves the identity provider, and for which chain. */
  datatype Sent =
    | Asked(chain: nat, participant: Participant, requestId: nat, state: nat)   // `state`: what the RelayState names
    | Answered(chain: nat, spId: string, inResponseTo: string, relayState: Option<string>, partial: bool)
    | SentBack(chain: nat, returnTo: string)
    | Refused(chain: nat)

  // ---- The history of a chain --------------------------------------------------------------------

  datatype How = Unreachable | AnsweredWell(requestId: nat) | AnsweredBadly(requestId: nat)

  datatype Visit = Visit(participant: Participant, how: How)

  datatype Story = Story(
    origin: Origin, start: seq<Participant>, partlyListed: bool,
    visited: seq<Visit>, waiting: Option<Participant>, over: bool)

  datatype Stored = Stored(chain: nat, ls: LogoutState, expiresAt: int)

  datatype State = State(now: int, tokens: map<nat, Stored>, outbox: seq<Sent>, chains: map<nat, Story>)

  function Participants(visits: seq<Visit>): (ps: seq<Participant>)
    ensures |ps| == |visits| && forall i :: 0 <= i < |ps| ==> ps[i] == visits[i].participant
  {
    seq(|visits|, i requires 0 <= i < |visits| => visits[i].participant)
  }

  function Skipped(ps: seq<Participant>): (visits: seq<Visit>)
    ensures |visits| == |ps| && forall i :: 0 <= i < |ps| ==> visits[i] == Visit(ps[i], Unreachable)
  {
    seq(|ps|, i requires 0 <= i < |ps| => Visit(ps[i], Unreachable))
  }

  // ---- The steps ---------------------------------------------------------------------------------

  /** How many SPs are passed over before one that can be reached (or the end). */
  function Unreached(remaining: seq<Participant>, reachable: set<string>): (k: nat)
    ensures k <= |remaining|
    ensures forall i :: 0 <= i < k ==> remaining[i].spId !in reachable
    ensures k < |remaining| ==> remaining[k].spId in reachable
  {
    if remaining == [] || remaining[0].spId in reachable then 0 else 1 + Unreached(remaining[1..], reachable)
  }

  function Others(ps: seq<Participant>, origin: Origin): (qs: seq<Participant>)
    ensures forall q :: q in qs <==> q in ps && !(origin.BySp? && q.spId == origin.spId)
  {
    if ps == [] then []
    else
      var rest := Others(ps[1..], origin);
      if origin.BySp? && ps[0].spId == origin.spId then rest else [ps[0]] + rest
  }

  /** The last message of chain `c`. `answerable`: the originating SP and its identity are still there. */
  function LastWord(c: nat, origin: Origin, partial: bool, answerable: bool): Sent {
    match origin
    case ByIdp(returnTo) => SentBack(c, returnTo)
    case BySp(spId, requestId, relayState) => if answerable then Answered(c, spId, requestId, relayState, partial) else Refused(c)
  }

  /** What the outside world is like during one call: who can be reached, and the random values drawn. */
  datatype World = World(reachable: set<string>, answerable: bool, requestId: nat, token: nat)

  /** Chain `c` goes on to its next reachable SP, or ends. */
  function NextHop(s: State, c: nat, ls: LogoutState, w: World): State
    requires c in s.chains
  {
    var k := Unreached(ls.remaining, w.reachable);
    var partial := ls.partial || k > 0;
    var story := s.chains[c];
    var visited := story.visited + Skipped(ls.remaining[..k]);
    if k == |ls.remaining| then s.(
      outbox := s.outbox + [LastWord(c, ls.origin, partial, w.answerable)],
      chains := s.chains[c := story.(visited := visited, waiting := None, over := true)])
    else
      var p := ls.remaining[k];
      s.(outbox := s.outbox + [Asked(c, p, w.requestId, w.token)],
         tokens := s.tokens[w.token := Stored(c, LogoutState(ls.origin, ls.remaining[k + 1..], Some(Hop(p.spId, w.requestId)), partial), s.now + HOP_TTL)],
         chains := s.chains[c := story.(visited := visited, waiting := Some(p))])
  }

  /** The session has ended: a chain begins with the SPs that were listed. */
  function Begin(s: State, c: nat, origin: Origin, listed: seq<Participant>, partlyListed: bool, w: World): State
    requires c !in s.chains
  {
    var start := Others(listed, origin);
    NextHop(s.(chains := s.chains[c := Story(origin, start, partlyListed, [], None, false)]), c,
            LogoutState(origin, start, None, partlyListed), w)
  }

  predicate Live(s: State, t: nat) { t in s.tokens && s.now <= s.tokens[t].expiresAt }

  /** A stored value that waits for a hop, as its history says. */
  predicate Waiting(s: State, t: nat)
    requires t in s.tokens
  {
    s.tokens[t].ls.current.Some? && s.tokens[t].chain in s.chains && s.chains[s.tokens[t].chain].waiting.Some?
  }

  /** A hop's token is consumed, and its SP visited. */
  function Visited(s: State, t: nat, r: Reply): State
    requires t in s.tokens && Waiting(s, t)
  {
    var c, hop := s.tokens[t].chain, s.tokens[t].ls.current.value;
    var story := s.chains[c];
    var how := if FullSuccess(r, hop) then AnsweredWell(hop.requestId) else AnsweredBadly(hop.requestId);
    s.(tokens := s.tokens - {t}, chains := s.chains[c := story.(visited := story.visited + [Visit(story.waiting.value, how)], waiting := None)])
  }

  function AfterReply(ls: LogoutState, r: Reply): LogoutState
    requires ls.current.Some?
  {
    LogoutState(ls.origin, ls.remaining, None, ls.partial || !FullSuccess(r, ls.current.value))
  }

  datatype Event =
    | Tick(ms: nat)
    | Ends(chain: nat, origin: Origin, listed: seq<Participant>, partlyListed: bool, world: World)
    | Replies(token: nat, reply: Reply, world: World)
    | Dies(token: nat)   // a process consumes a hop's token and is lost
    | Sweep

  predicate Distinct(ps: seq<Participant>) {
    forall i, j :: 0 <= i < j < |ps| ==> ps[i].spId != ps[j].spId
  }

  predicate Possible(s: State, e: Event) {
    match e
    case Ends(c, _, listed, _, w) => c !in s.chains && Distinct(listed) && w.token !in s.tokens
    case Replies(_, _, w) => w.token !in s.tokens
    case _ => true
  }

  function Step(s: State, e: Event): State
    requires Possible(s, e)
  {
    match e
    case Tick(ms) => s.(now := s.now + ms)
    case Ends(c, origin, listed, partly, w) => Begin(s, c, origin, listed, partly, w)
    case Replies(t, r, w) =>
      if !Live(s, t) then s
      else if !Waiting(s, t) then s.(tokens := s.tokens - {t})
      else NextHop(Visited(s, t, r), s.tokens[t].chain, AfterReply(s.tokens[t].ls, r), w)
    case Dies(t) => if Live(s, t) then s.(tokens := s.tokens - {t}) else s
    case Sweep => s.(tokens := map t | t in s.tokens && s.tokens[t].expiresAt >= s.now :: s.tokens[t])
  }

  // ---- What holds of a chain ---------------------------------------------------------------------

  /** Nothing short of every listed SP's full Success, with the list complete. */
  ghost predicate Partial(story: Story) {
    story.partlyListed || exists i :: 0 <= i < |story.visited| && !story.visited[i].how.AnsweredWell?
  }

  /** The SPs of a chain that have been sent a LogoutRequest. */
  ghost predicate HasBeenAsked(story: Story, spId: string) {
    || (exists i :: 0 <= i < |story.visited| && !story.visited[i].how.Unreachable? && story.visited[i].participant.spId == spId)
    || (story.waiting.Some? && story.waiting.value.spId == spId)
  }

  /** A stored chain: its start is what it has visited, the SP it waits for, and the rest. */
  ghost predicate Conserved(story: Story, ls: LogoutState) {
    && !story.over && story.waiting.Some? && ls.current.Some?
    && ls.current.value.spId == story.waiting.value.spId
    && ls.origin == story.origin
    && story.start == Participants(story.visited) + [story.waiting.value] + ls.remaining
    && (ls.partial <==> Partial(story))
  }

  ghost predicate TokensOk(s: State) {
    && (forall t :: t in s.tokens ==> s.tokens[t].chain in s.chains && Conserved(s.chains[s.tokens[t].chain], s.tokens[t].ls))
    && (forall t, u :: t in s.tokens && u in s.tokens && s.tokens[t].chain == s.tokens[u].chain ==> t == u)
  }

  ghost predicate SentOk(s: State, m: Sent) {
    && m.chain in s.chains
    && (if m.Asked? then HasBeenAsked(s.chains[m.chain], m.participant.spId) && m.participant in s.chains[m.chain].start else s.chains[m.chain].over)
    && (m.Answered? ==>
          var story := s.chains[m.chain];
          story.origin == BySp(m.spId, m.inResponseTo, m.relayState) && (m.partial <==> Partial(story)))
  }

  ghost predicate Asks(outbox: seq<Sent>, c: nat, spId: string, id: nat) {
    exists p, t :: Asked(c, p, id, t) in outbox && p.spId == spId
  }

  ghost predicate StoryOk(s: State, c: nat, story: Story) {
    && Distinct(story.start)
    && (forall v :: v in story.visited ==> v.participant in story.start)
    && (story.waiting.Some? ==> story.waiting.value in story.start)
    && (story.over ==> story.waiting.None? && Participants(story.visited) == story.start)
    && (forall v :: v in story.visited && !v.how.Unreachable? ==> Asks(s.outbox, c, v.participant.spId, v.how.requestId))
  }

  /** No SP is asked twice, and no chain has two last words. */
  ghost predicate NoneTwice(outbox: seq<Sent>) {
    forall i, j :: 0 <= i < j < |outbox| && outbox[i].chain == outbox[j].chain ==>
      !(outbox[i].Asked? && outbox[j].Asked? && outbox[i].participant.spId == outbox[j].participant.spId) && (outbox[i].Asked? || outbox[j].Asked?)
  }

  ghost predicate Inv(s: State) {
    && TokensOk(s)
    && (forall i :: 0 <= i < |s.outbox| ==> SentOk(s, s.outbox[i]))
    && (forall c :: c in s.chains ==> StoryOk(s, c, s.chains[c]))
    && NoneTwice(s.outbox)
    && (forall t :: t in s.tokens ==> Asks(s.outbox, s.tokens[t].chain, s.tokens[t].ls.current.value.spId, s.tokens[t].ls.current.value.requestId))
  }
}
