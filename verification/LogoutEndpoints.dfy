/**
The Single Logout endpoint as one host runs it: a stored chain is read back, moved on in place, and
stored again under a new single-use name. Each method is one step of `Logout`.
*/
module LogoutEndpoints {
  import opened Optional
  import opened Logout
  import LogoutRuns

  /** A logout chain in memory. */
  class LogoutChain {
    const origin: Origin
    var remaining: seq<Participant>
    var current: Option<Hop>
    var partial: bool

    constructor (ls: LogoutState)
      ensures Frozen() == ls
    {
      origin, remaining, current, partial := ls.origin, ls.remaining, ls.current, ls.partial;
    }

    ghost function Frozen(): LogoutState
      reads this
    {
      LogoutState(origin, remaining, current, partial)
    }
  }

  class SloEndpoint {
    var now: int
    var tokens: map<nat, Stored>
    var outbox: seq<Sent>
    ghost var chains: map<nat, Story>

    constructor (now: int)
      ensures Valid() && View() == State(now, map[], [], map[])
    {
      this.now := now;
      tokens, outbox, chains := map[], [], map[];
    }

    ghost function View(): State
      reads this
    {
      State(now, tokens, outbox, chains)
    }

    /** What every run of chains keeps, `LogoutRuns` proves of each step. */
    ghost predicate Valid()
      reads this
    {
      Inv(View())
    }

    /** Single use: a chain read back is there no more. */
    method Consume(token: nat) returns (r: Option<Stored>)
      modifies this`tokens
      ensures r == if Live(old(View()), token) then Some(old(tokens)[token]) else None
      ensures tokens == if r.Some? then old(tokens) - {token} else old(tokens)
    {
      if token !in tokens || now > tokens[token].expiresAt { return None; }
      r := Some(tokens[token]);
      tokens := tokens - {token};
    }

    /** Answers the originating SP, or sends the browser back to where the logout began. */
    method Finish(ls: LogoutChain, c: nat, answerable: bool)
      modifies this`outbox
      ensures outbox == old(outbox) + [LastWord(c, ls.origin, ls.partial, answerable)]
    {
      match ls.origin {
        case ByIdp(returnTo) => outbox := outbox + [SentBack(c, returnTo)];
        case BySp(spId, requestId, relayState) =>
          if !answerable {
            outbox := outbox + [Refused(c)];
          } else {
            outbox := outbox + [Answered(c, spId, requestId, relayState, ls.partial)];
          }
      }
    }

    /** Shifts SPs off the chain until one can be asked; with none left the chain ends. */
    method Advance(ls: LogoutChain, c: nat, w: World)
      requires c in chains && w.token !in tokens
      modifies this`tokens, this`outbox, this`chains, ls`remaining, ls`current, ls`partial
      ensures View() == NextHop(old(View()), c, old(ls.Frozen()), w)
    {
      ghost var all, k := ls.remaining, 0;
      while |ls.remaining| > 0
        invariant k <= |all| && ls.remaining == all[k..]
        invariant Unreached(all, w.reachable) == k + Unreached(ls.remaining, w.reachable)
        invariant ls.partial == (old(ls.partial) || k > 0)
        invariant View() == old(View())
        decreases |ls.remaining|
      {
        var p := ls.remaining[0];
        ls.remaining := ls.remaining[1..];
        if p.spId !in w.reachable {
          ls.partial := true;
          k := k + 1;
          continue;
        }
        ls.current := Some(Hop(p.spId, w.requestId));
        tokens := tokens[w.token := Stored(c, LogoutState(ls.origin, ls.remaining, ls.current, ls.partial), now + HOP_TTL)];
        outbox := outbox + [Asked(c, p, w.requestId, w.token)];
        chains := chains[c := chains[c].(visited := chains[c].visited + Skipped(all[..k]), waiting := Some(p))];
        return;
      }
      assert all[..k] == all;
      Finish(ls, c, w.answerable);
      chains := chains[c := chains[c].(visited := chains[c].visited + Skipped(all), waiting := None, over := true)];
    }

    /** An authenticated LogoutRequest, or a logout begun here, whose session has just been ended. */
    method EndAndNotify(c: nat, origin: Origin, listed: seq<Participant>, partlyListed: bool, w: World)
      requires Valid() && Possible(View(), Ends(c, origin, listed, partlyListed, w))
      modifies this
      ensures Valid() && View() == Step(old(View()), Ends(c, origin, listed, partlyListed, w))
    {
      LogoutRuns.StepKeeps(View(), Ends(c, origin, listed, partlyListed, w));
      var remaining := Others(listed, origin);
      var ls := new LogoutChain(LogoutState(origin, remaining, None, partlyListed));
      chains := chains[c := Story(origin, remaining, partlyListed, [], None, false)];
      Advance(ls, c, w);
    }

    /** An SP's LogoutResponse, under the RelayState of its hop: the chain goes on whatever it says. */
    method HandleResponse(token: nat, r: Reply, w: World)
      requires Valid() && Possible(View(), Replies(token, r, w))
      modifies this
      ensures Valid() && View() == Step(old(View()), Replies(token, r, w))
    {
      hide StoryOk, SentOk, NoneTwice, Asks;
      LogoutRuns.StepKeeps(View(), Replies(token, r, w));
      assert token in tokens ==> Conserved(chains[tokens[token].chain], tokens[token].ls);
      var stored := Consume(token);
      if stored.None? { return; }
      var c := stored.value.chain;
      if stored.value.ls.current.None? { return; }
      var ls := new LogoutChain(stored.value.ls);
      var hop := stored.value.ls.current.value;
      var good := r.senderKnown && r.acceptable && r.inResponseTo == hop.requestId
               && |r.status| > 0 && r.status[0] == "Success" && !(|r.status| > 1 && r.status[1] == "PartialLogout");
      if !good { ls.partial := true; }
      ls.current := None;
      chains := chains[c := chains[c].(
        visited := chains[c].visited + [Visit(chains[c].waiting.value, if good then AnsweredWell(hop.requestId) else AnsweredBadly(hop.requestId))],
        waiting := None)];
      Advance(ls, c, w);
    }
  }
}
