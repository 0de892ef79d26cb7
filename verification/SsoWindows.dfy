/**
What a seen row is for: once a request ID has been accepted, no later copy gets in that the row was
to cover. Sweeps decide whether that holds; this says exactly which of them.
*/
module SsoWindows {
  import opened Issuance
  import opened SsoRun
  import SsoLimits

  /** Event `i` accepts a message: the first sight of its SP and ID. */
  ghost predicate Accepts(run: seq<State>, es: seq<Event>, i: nat)
    requires IsRun(run, es)
  {
    i < |es| && es[i].Record? && KeyOf(run[i].hands[es[i].pid].message) !in run[i].seen
  }

  function Accepted(s: State, p: nat): Message
    requires p in s.hands && s.hands[p].Checked?
  {
    s.hands[p].message
  }

  /** When the row of the message `p` has checked is to expire. */
  function Expiry(s: State, p: nat): int
    requires p in s.hands && s.hands[p].Checked?
  {
    s.hands[p].readAt + REQUEST_MAX_AGE + 2 * s.skew
  }

  /** An ID of `m`'s was accepted before moment `n`, and its row was to last as long as `m` can be fresh. */
  ghost predicate Covers(run: seq<State>, es: seq<Event>, i: nat, n: nat, m: Message)
    requires IsRun(run, es)
  {
    i < n && Accepts(run, es, i) && KeyOf(Accepted(run[i], es[i].pid)) == KeyOf(m) && LastFresh(m, run[i].skew) <= Expiry(run[i], es[i].pid)
  }

  /** A process is about to record a message that a row was to cover, and there is no row. */
  ghost predicate LetsIn(run: seq<State>, es: seq<Event>, n: nat, p: nat)
    requires IsRun(run, es) && n <= |es|
  {
    && p in run[n].hands && run[n].hands[p].Checked? && KeyOf(run[n].hands[p].message) !in run[n].seen
    && exists i :: Covers(run, es, i, n, run[n].hands[p].message)
  }

  // ---- What guarded runs keep ------------------------------------------------------------------

  /** No process holds a message of key `k` that a row lasting until `e` was to cover. */
  ghost predicate NoneChecked(s: State, k: Key, e: int) {
    forall p :: p in s.hands && s.hands[p].Checked? && KeyOf(s.hands[p].message) == k ==> e < LastFresh(s.hands[p].message, s.skew)
  }

  /** A row of key `k` that was to last until `e`: it, or one that lasts longer, is there; or no copy it was to cover can come. */
  ghost predicate Lasts(s: State, k: Key, e: int) {
    || (k in s.seen && e <= s.seen[k])
    || (e < s.now && NoneChecked(s, k, e))
  }

  lemma LastsOn(s: State, e: Event, k: Key, until: int)
    requires Timely(s) && Possible(s, e) && Allowed(s, e) && Lasts(s, k, until)
    ensures Lasts(Step(s, e), k, until)
  {
    var s' := Step(s, e);
    if e.Sweep? {
      forall p | p in s.hands && s.hands[p].Checked? && KeyOf(s.hands[p].message) == k && k in s.seen && k !in s'.seen
        ensures until <= s.seen[k] ==> until < LastFresh(s.hands[p].message, s.skew)
      {
        assert !Uncovers(s, p);
      }
    } else if e.Record? {
      var h := s.hands[e.pid];
      assert Fresh(h.message, h.readAt, s.skew);
    }
  }

  lemma LastsFromRecord(s: State, e: Event)
    requires Possible(s, e) && e.Record? && KeyOf(Accepted(s, e.pid)) !in s.seen
    ensures Lasts(Step(s, e), KeyOf(Accepted(s, e.pid)), Expiry(s, e.pid))
  {}

  lemma {:induction false} AcceptedLasts(run: seq<State>, es: seq<Event>, i: nat, n: nat)
    requires IsRun(run, es) && Guarded(run, es) && i < n <= |es| && Accepts(run, es, i)
    ensures Lasts(run[n], KeyOf(Accepted(run[i], es[i].pid)), Expiry(run[i], es[i].pid))
    decreases n
  {
    if n == i + 1 {
      LastsFromRecord(run[i], es[i]);
    } else {
      AcceptedLasts(run, es, i, n - 1);
      var places := RunKeeps(run[..n], es[..n - 1]);
      LastsOn(run[n - 1], es[n - 1], KeyOf(Accepted(run[i], es[i].pid)), Expiry(run[i], es[i].pid));
    }
  }

  lemma GuardedLetsNoneIn(run: seq<State>, es: seq<Event>, n: nat, p: nat)
    requires IsRun(run, es) && Guarded(run, es) && n <= |es|
    ensures !LetsIn(run, es, n, p)
  {
    forall i | p in run[n].hands && run[n].hands[p].Checked? && Covers(run, es, i, n, run[n].hands[p].message)
      ensures KeyOf(run[n].hands[p].message) in run[n].seen
    {
      AcceptedLasts(run, es, i, n);
      SsoLimits.SkewStays(run, es, i);
      SsoLimits.SkewStays(run, es, n);
    }
  }

  // ---- Any other sweep lets one in ---------------------------------------------------------------

  lemma RowAdded(s: State, e: Event, k: Key)
    requires Possible(s, e) && k in Step(s, e).seen
    ensures k in s.seen ==> Step(s, e).seen[k] == s.seen[k]
    ensures k !in s.seen ==> e.Record? && KeyOf(Accepted(s, e.pid)) == k && Step(s, e).seen[k] == Expiry(s, e.pid)
  {}

  /** Every seen row is that of some acceptance before. */
  lemma {:induction false} RowsAreOf(run: seq<State>, es: seq<Event>, n: nat, k: Key) returns (i: nat)
    requires IsRun(run, es) && n <= |es| && k in run[n].seen
    ensures i < n && Accepts(run, es, i) && KeyOf(Accepted(run[i], es[i].pid)) == k && Expiry(run[i], es[i].pid) == run[n].seen[k]
    decreases n
  {
    hide Step;
    assert n > 0 && run[n] == Step(run[n - 1], es[n - 1]);
    RowAdded(run[n - 1], es[n - 1], k);
    if k in run[n - 1].seen {
      i := RowsAreOf(run, es, n - 1, k);
    } else {
      i := n - 1;
    }
  }

  lemma SweepLetsIn(run: seq<State>, es: seq<Event>, n: nat, p: nat)
    requires IsRun(run, es) && n < |es| && es[n].Sweep? && Uncovers(run[n], p)
    ensures LetsIn(run, es, n + 1, p)
  {
    var m := run[n].hands[p].message;
    var i := RowsAreOf(run, es, n, KeyOf(m));
    SsoLimits.SkewStays(run, es, i);
    SsoLimits.SkewStays(run, es, n);
    assert run[n + 1] == Step(run[n], es[n]);
    assert Covers(run, es, i, n + 1, m);
  }

  /**
   * Over any run: at no moment is a process about to get in a copy that an accepted row was to
   * cover, if and only if no sweep took a row while a process had checked a message it covers.
   */
  lemma RowsCoverExactly(run: seq<State>, es: seq<Event>)
    requires IsRun(run, es)
    ensures (forall n, p :: 0 <= n <= |es| ==> !LetsIn(run, es, n, p)) <==> Guarded(run, es)
  {
    if Guarded(run, es) {
      forall n, p | 0 <= n <= |es| ensures !LetsIn(run, es, n, p) { GuardedLetsNoneIn(run, es, n, p); }
    }
    if forall n, p :: 0 <= n <= |es| ==> !LetsIn(run, es, n, p) {
      forall n | 0 <= n < |es| ensures Allowed(run[n], es[n]) {
        if es[n].Sweep? {
          forall p | p in run[n].hands ensures !Uncovers(run[n], p) {
            assert !LetsIn(run, es, n + 1, p);
            if Uncovers(run[n], p) { SweepLetsIn(run, es, n, p); }
          }
        }
      }
    }
  }

  /**
   * On a guarded run an ID accepted a second time comes in a message that could still be fresh after
   * the first one's row was to expire: its IssueInstant is later.
   */
  lemma AcceptedAgainIsLater(run: seq<State>, es: seq<Event>, i: nat, j: nat)
    requires IsRun(run, es) && Guarded(run, es) && i < j && Accepts(run, es, i) && Accepts(run, es, j)
    requires KeyOf(Accepted(run[i], es[i].pid)) == KeyOf(Accepted(run[j], es[j].pid))
    ensures Expiry(run[i], es[i].pid) < LastFresh(Accepted(run[j], es[j].pid), run[j].skew)
    ensures Accepted(run[i], es[i].pid).issueInstant < Accepted(run[j], es[j].pid).issueInstant
  {
    GuardedLetsNoneIn(run, es, j, es[j].pid);
    SsoLimits.SkewStays(run, es, i);
    SsoLimits.SkewStays(run, es, j);
    assert !Covers(run, es, i, j, Accepted(run[j], es[j].pid));
    var places := RunKeeps(run[..i + 1], es[..i]);
    assert Fresh(Accepted(run[i], es[i].pid), run[i].hands[es[i].pid].readAt, run[i].skew);
  }
}
