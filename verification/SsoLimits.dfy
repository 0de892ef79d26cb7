/**
How far "one Response for one request ID" goes: exactly as far as the IssueInstant, and only while
no sweep takes the row of a message between another copy's check and its record.
*/
module SsoLimits {
  import opened Optional
  import opened Issuance
  import opened SsoRun

  /** A run in progress, and whether it has kept to the guard. */
  ghost predicate Going(run: seq<State>, es: seq<Event>, guarded: bool) {
    IsRun(run, es) && (guarded ==> Guarded(run, es))
  }

  lemma Extend(run: seq<State>, es: seq<Event>, e: Event, guarded: bool) returns (run': seq<State>, es': seq<Event>)
    requires Going(run, es, guarded) && Possible(run[|es|], e) && (guarded ==> Allowed(run[|es|], e))
    ensures Going(run', es', guarded) && run'[|es'|] == Step(run[|es|], e) && es' == es + [e]
  {
    run', es' := run + [Step(run[|es|], e)], es + [e];
  }

  lemma Start(now: int, skew: nat) returns (run: seq<State>, es: seq<Event>)
    ensures Going(run, es, true) && run[|es|] == State(now, skew, 0, map[], map[], map[], [], multiset{})
  {
    run, es := [State(now, skew, 0, map[], map[], map[], [], multiset{})], [];
  }

  function Refusal(m: Message, at: int): Answer {
    Answer(Request(m, m.forceAuthn, at), PolicyStatus)
  }

  /** A checked message is recorded and answered with a status. */
  lemma RecordAndAnswer(run: seq<State>, es: seq<Event>, p: nat, guarded: bool) returns (run': seq<State>, es': seq<Event>)
    requires Going(run, es, guarded) && p in run[|es|].hands && run[|es|].hands[p].Checked?
    requires KeyOf(run[|es|].hands[p].message) !in run[|es|].seen
    ensures Going(run', es', guarded)
    ensures var s := run[|es|]; var h := s.hands[p];
      run'[|es'|] == s.(
        seen := s.seen[KeyOf(h.message) := h.readAt + REQUEST_MAX_AGE + 2 * s.skew],
        hands := s.hands - {p},
        answers := s.answers + [Refusal(h.message, h.readAt)])
  {
    var s := run[|es|];
    run', es' := Extend(run, es, Record(p), guarded);
    run', es' := Extend(run', es', AnswerStatus(p), guarded);
    assert run'[|es'|].hands == s.hands - {p};
  }

  lemma ReceiveAndAnswer(run: seq<State>, es: seq<Event>, m: Message, guarded: bool) returns (run': seq<State>, es': seq<Event>)
    requires Going(run, es, guarded) && run[|es|].hands == map[]
    requires Fresh(m, run[|es|].now, run[|es|].skew) && KeyOf(m) !in run[|es|].seen
    ensures Going(run', es', guarded)
    ensures var s := run[|es|];
      run'[|es'|] == s.(
        seen := s.seen[KeyOf(m) := s.now + REQUEST_MAX_AGE + 2 * s.skew],
        answers := s.answers + [Refusal(m, s.now)])
  {
    run', es' := Extend(run, es, Receive(0, m, false), guarded);
    run', es' := RecordAndAnswer(run', es', 0, guarded);
    assert run'[|es'|].hands == map[];
  }

  lemma WaitAndSweep(run: seq<State>, es: seq<Event>, until: int) returns (run': seq<State>, es': seq<Event>)
    requires Going(run, es, true) && run[|es|].hands == map[] && run[|es|].tokens == map[]
    requires run[|es|].now <= until && forall k :: k in run[|es|].seen ==> run[|es|].seen[k] < until
    ensures Going(run', es', true)
    ensures run'[|es'|] == run[|es|].(now := until, seen := map[])
  {
    run', es' := Extend(run, es, Tick(until - run[|es|].now), true);
    run', es' := Extend(run', es', Sweep, true);
    assert run'[|es'|].seen == map[] && run'[|es'|].tokens == map[];
  }

  /** Both messages get a Response of their own. */
  ghost predicate BothAnswered(run: seq<State>, es: seq<Event>, a: Message, b: Message) {
    IsRun(run, es)
    && exists i, j :: i != j && AnsweredAt(run[|es|], i, a) && AnsweredAt(run[|es|], j, b)
  }

  /** An ID used again with any later IssueInstant is answered again, once the first row is swept. */
  lemma ReusedLater(a: Message, b: Message, skew: nat) returns (run: seq<State>, es: seq<Event>)
    requires KeyOf(a) == KeyOf(b) && a.issueInstant < b.issueInstant
    ensures BothAnswered(run, es, a, b) && Guarded(run, es) && run[0].skew == skew
  {
    run, es := Start(a.issueInstant - skew, skew);
    run, es := ReceiveAndAnswer(run, es, a, true);
    var soonest, latest := LastFresh(a, skew) + 1, b.issueInstant - skew;
    run, es := WaitAndSweep(run, es, if latest < soonest then soonest else latest);
    run, es := ReceiveAndAnswer(run, es, b, true);
    assert AnsweredAt(run[|es|], 0, a) && AnsweredAt(run[|es|], 1, b);
    SkewStays(run, es, |es|);
  }

  lemma {:induction false} SkewStays(run: seq<State>, es: seq<Event>, i: nat)
    requires IsRun(run, es) && i <= |es|
    ensures run[i].skew == run[0].skew
  {
    if i > 0 { SkewStays(run, es, i - 1); }
  }

  /**
   * The exact reach of replay protection, whatever the clock skew allowed: two messages with the
   * same SP and ID can both be answered, on some run that keeps to the guard, if and only if
   * their IssueInstants differ.
   */
  lemma ReplayWindow(a: Message, b: Message, skew: nat)
    requires KeyOf(a) == KeyOf(b)
    ensures (exists run: seq<State>, es: seq<Event> :: BothAnswered(run, es, a, b) && Guarded(run, es) && run[0].skew == skew) <==> a.issueInstant != b.issueInstant
  {
    if a.issueInstant < b.issueInstant {
      var run, es := ReusedLater(a, b, skew);
    } else if b.issueInstant < a.issueInstant {
      var run, es := ReusedLater(b, a, skew);
      var j, i :| i != j && AnsweredAt(run[|es|], j, b) && AnsweredAt(run[|es|], i, a);
      assert BothAnswered(run, es, a, b);
    } else {
      forall run: seq<State>, es: seq<Event> | BothAnswered(run, es, a, b) && Guarded(run, es) ensures false {
        var i, j :| i != j && AnsweredAt(run[|es|], i, a) && AnsweredAt(run[|es|], j, b);
        AtMostOneResponse(run, es, i, j);
      }
    }
  }

  /**
   * Wherever a message has been answered and a twin of it is checked, a sweep that takes the row
   * lets the twin be answered too.
   */
  lemma SweptLetsInATwin(run: seq<State>, es: seq<Event>, i: nat, p: nat) returns (run': seq<State>, es': seq<Event>)
    requires IsRun(run, es) && i < |run[|es|].answers| && Uncovers(run[|es|], p)
    requires Twins(run[|es|].answers[i].request.message, run[|es|].hands[p].message)
    ensures BothAnswered(run', es', run[|es|].answers[i].request.message, run[|es|].hands[p].message) && !Guarded(run', es')
  {
    var s := run[|es|];
    run', es' := Extend(run, es, Sweep, false);
    run', es' := RecordAndAnswer(run', es', p, false);
    var n := |s.answers|;
    assert AnsweredAt(run'[|es'|], i, s.answers[i].request.message) && AnsweredAt(run'[|es'|], n, s.hands[p].message);
    if Guarded(run', es') { AtMostOneResponse(run', es', i, n); }
  }

  /**
   * So without the guard the very same message is answered twice: a second copy is checked in the
   * last millisecond of the window, and the row is swept before it is recorded.
   */
  lemma SweptInBetween(m: Message, skew: nat) returns (run: seq<State>, es: seq<Event>)
    ensures BothAnswered(run, es, m, m) && !Guarded(run, es)
  {
    run, es := Start(m.issueInstant - skew, skew);
    run, es := ReceiveAndAnswer(run, es, m, false);
    run, es := Extend(run, es, Tick(LastFresh(m, skew) - run[|es|].now), false);
    run, es := Extend(run, es, Receive(1, m, false), false);
    run, es := Extend(run, es, Tick(1), false);
    run, es := SweptLetsInATwin(run, es, 0, 1);
  }
}
