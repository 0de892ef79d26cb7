/**
The lookups of one isolate through its time-bounded cache, while the database changes under it. A
lookup is answered from the cache, or reads the database and answers later, remembering what it read.

`versions`, `floor`, and an entry's `version`, `readAt` and `keptAt` are the history of a run: nothing
but its expiry decides whether an entry is used.
*/
module TimedCache {

  const MAX_CACHE_ENTRIES := 2000

  datatype Entry<V> = Entry(value: V, expires: int, version: nat, readAt: int, keptAt: int)

  datatype Reading<Q, V> = Reading(query: Q, value: V, version: nat, readAt: int)

  /** What a direct read answers, from `since` on until the next version. */
  datatype Version<!Q, V> = Version(answer: Q -> V, since: int)

  datatype Answer<Q, V> = Answer(query: Q, value: V, at: int, version: nat, readAt: int, keptAt: int)

  datatype State<!Q(==), V> = State(
    now: int, lifetime: int,
    versions: seq<Version<Q, V>>, floor: nat,
    entries: map<Q, Entry<V>>, reading: map<nat, Reading<Q, V>>, answers: seq<Answer<Q, V>>)

  datatype Event<!Q, V> =
    | Tick(ms: nat)
    | Write(answer: Q -> V)
    | Invalidate
    | Ask(pid: nat, query: Q)
    | Done(pid: nat)

  predicate Possible<Q(==), V>(s: State<Q, V>, e: Event<Q, V>) {
    match e
    case Ask(p, _) => p !in s.reading && |s.versions| > 0
    case Done(p) => p in s.reading
    case Invalidate => |s.versions| > 0
    case _ => true
  }

  predicate Hit<Q(==), V>(s: State<Q, V>, q: Q) { q in s.entries && s.entries[q].expires > s.now }

  function Kept<Q(==), V>(s: State<Q, V>, r: Reading<Q, V>): map<Q, Entry<V>> {
    if s.lifetime <= 0 then s.entries
    else (if |s.entries| >= MAX_CACHE_ENTRIES then map[] else s.entries)[r.query := Entry(r.value, s.now + s.lifetime, r.version, r.readAt, s.now)]
  }

  function Step<Q(==), V>(s: State<Q, V>, e: Event<Q, V>): State<Q, V>
    requires Possible(s, e)
  {
    match e
    case Tick(ms) => s.(now := s.now + ms)
    case Write(answer) => s.(versions := s.versions + [Version(answer, s.now)])
    case Invalidate => s.(entries := map[], floor := |s.versions| - 1)
    case Ask(p, q) =>
      var last := |s.versions| - 1;
      if Hit(s, q) then
        var hit := s.entries[q];
        s.(answers := s.answers + [Answer(q, hit.value, s.now, hit.version, hit.readAt, hit.keptAt)])
      else s.(reading := s.reading[p := Reading(q, s.versions[last].answer(q), last, s.now)])
    case Done(p) =>
      var r := s.reading[p];
      s.(reading := s.reading - {p}, entries := Kept(s, r),
         answers := s.answers + [Answer(r.query, r.value, s.now, r.version, r.readAt, s.now)])
  }

  // ---- What holds of every run -------------------------------------------------------------------

  /** The value is what a direct read of version `v` answers, and `v` was the database at `at`. */
  ghost predicate ReadThen<Q, V>(s: State<Q, V>, q: Q, value: V, v: nat, at: int) {
    && v < |s.versions| && s.versions[v].answer(q) == value
    && s.versions[v].since <= at <= s.now && (v + 1 < |s.versions| ==> at <= s.versions[v + 1].since)
  }

  ghost predicate EntryOk<Q, V>(s: State<Q, V>, q: Q, e: Entry<V>) {
    ReadThen(s, q, e.value, e.version, e.readAt) && e.readAt <= e.keptAt <= s.now && e.expires == e.keptAt + s.lifetime
  }

  ghost predicate AnswerOk<Q, V>(s: State<Q, V>, a: Answer<Q, V>) {
    && ReadThen(s, a.query, a.value, a.version, a.readAt)
    && a.readAt <= a.keptAt <= a.at <= s.now && (a.keptAt == a.at || a.at < a.keptAt + s.lifetime)
  }

  ghost predicate Inv<Q, V>(s: State<Q, V>) {
    && (forall i :: 0 <= i < |s.versions| ==> s.versions[i].since <= s.now)
    && (forall q :: q in s.entries ==> EntryOk(s, q, s.entries[q]))
    && (forall p :: p in s.reading ==> ReadThen(s, s.reading[p].query, s.reading[p].value, s.reading[p].version, s.reading[p].readAt))
    && (forall i :: 0 <= i < |s.answers| ==> AnswerOk(s, s.answers[i]))
  }

  /** Later versions and a later clock change nothing about what was read. */
  lemma StaysRead<Q, V>(s: State<Q, V>, s': State<Q, V>, q: Q, value: V, v: nat, at: int)
    requires ReadThen(s, q, value, v, at) && s.now <= s'.now
    requires s.versions <= s'.versions && forall i :: |s.versions| <= i < |s'.versions| ==> s'.versions[i].since >= s.now
    ensures ReadThen(s', q, value, v, at)
  {}

  ghost predicate Onward<Q, V>(s: State<Q, V>, s': State<Q, V>) {
    && s.now <= s'.now && s.lifetime == s'.lifetime
    && s.versions <= s'.versions && forall i :: |s.versions| <= i < |s'.versions| ==> s'.versions[i].since >= s.now
  }

  lemma EntriesStay<Q, V>(s: State<Q, V>, s': State<Q, V>)
    requires Inv(s) && Onward(s, s')
    ensures forall q :: q in s.entries ==> EntryOk(s', q, s.entries[q])
  {
    forall q | q in s.entries ensures EntryOk(s', q, s.entries[q]) {
      assert EntryOk(s, q, s.entries[q]);
      StaysRead(s, s', q, s.entries[q].value, s.entries[q].version, s.entries[q].readAt);
    }
  }

  lemma AnswersStay<Q, V>(s: State<Q, V>, s': State<Q, V>)
    requires Inv(s) && Onward(s, s')
    ensures forall i :: 0 <= i < |s.answers| ==> AnswerOk(s', s.answers[i])
    ensures forall p :: p in s.reading ==> ReadThen(s', s.reading[p].query, s.reading[p].value, s.reading[p].version, s.reading[p].readAt)
  {
    forall i | 0 <= i < |s.answers| ensures AnswerOk(s', s.answers[i]) {
      var a := s.answers[i];
      assert AnswerOk(s, a);
      StaysRead(s, s', a.query, a.value, a.version, a.readAt);
    }
    forall p | p in s.reading ensures ReadThen(s', s.reading[p].query, s.reading[p].value, s.reading[p].version, s.reading[p].readAt) {
      StaysRead(s, s', s.reading[p].query, s.reading[p].value, s.reading[p].version, s.reading[p].readAt);
    }
  }

  lemma AskKeeps<Q, V>(s: State<Q, V>, e: Event<Q, V>)
    requires Inv(s) && e.Ask? && Possible(s, e)
    ensures Inv(Step(s, e))
  {
    var s' := Step(s, e);
    EntriesStay(s, s');
    AnswersStay(s, s');
    if Hit(s, e.query) { assert EntryOk(s, e.query, s.entries[e.query]); }
  }

  lemma DoneKeeps<Q, V>(s: State<Q, V>, e: Event<Q, V>)
    requires Inv(s) && e.Done? && Possible(s, e)
    ensures Inv(Step(s, e))
  {
    var s' := Step(s, e);
    var r := s.reading[e.pid];
    EntriesStay(s, s');
    AnswersStay(s, s');
    assert ReadThen(s, r.query, r.value, r.version, r.readAt);
    forall q | q in s'.entries ensures EntryOk(s', q, s'.entries[q]) {}
  }

  lemma OtherKeeps<Q, V>(s: State<Q, V>, e: Event<Q, V>)
    requires Inv(s) && (e.Tick? || e.Write? || e.Invalidate?) && Possible(s, e)
    ensures Inv(Step(s, e))
  {
    EntriesStay(s, Step(s, e));
    AnswersStay(s, Step(s, e));
  }

  lemma StepKeeps<Q, V>(s: State<Q, V>, e: Event<Q, V>)
    requires Inv(s) && Possible(s, e)
    ensures Inv(Step(s, e))
  {
    match e {
      case Ask(_, _) => AskKeeps(s, e);
      case Done(_) => DoneKeeps(s, e);
      case _ => OtherKeeps(s, e);
    }
  }

  ghost predicate IsRun<Q, V>(run: seq<State<Q, V>>, es: seq<Event<Q, V>>) {
    && |run| == |es| + 1
    && run[0].versions == [] && run[0].floor == 0 && run[0].entries == map[] && run[0].reading == map[] && run[0].answers == []
    && forall i :: 0 <= i < |es| ==> Possible(run[i], es[i]) && run[i + 1] == Step(run[i], es[i])
  }

  lemma {:induction false} RunKeeps<Q, V>(run: seq<State<Q, V>>, es: seq<Event<Q, V>>, i: nat)
    requires IsRun(run, es) && i <= |es|
    ensures Inv(run[i])
  {
    if i > 0 {
      RunKeeps(run, es, i - 1);
      StepKeeps(run[i - 1], es[i - 1]);
    }
  }

  /**
   * Every answer is what a direct read gave at some moment not long before: the cache lifetime, and
   * the time that read took, at most.
   */
  lemma AnswersAreRecent<Q, V>(run: seq<State<Q, V>>, es: seq<Event<Q, V>>, i: nat)
    requires IsRun(run, es) && i < |run[|es|].answers|
    ensures var s := run[|es|]; var a := s.answers[i]; var lag := a.keptAt - a.readAt;
      ReadThen(s, a.query, a.value, a.version, a.readAt) && lag >= 0 && (a.at - a.readAt == lag || a.at - a.readAt < s.lifetime + lag)
  {
    RunKeeps(run, es, |es|);
    assert AnswerOk(run[|es|], run[|es|].answers[i]);
  }

  // ---- What the cache saves ------------------------------------------------------------------------

  /** The lookup done at event `k` is remembered at moment `n`: the cache was not dropped since, nor emptied for being full. */
  ghost predicate RememberedFrom<Q, V>(run: seq<State<Q, V>>, es: seq<Event<Q, V>>, k: nat, n: nat, q: Q)
    requires |run| == |es| + 1 && n <= |es|
  {
    && k < n && es[k].Done? && es[k].pid in run[k].reading && run[k].reading[es[k].pid].query == q
    && run[n].now < run[k].now + run[k].lifetime
    && forall j :: k < j < n ==> !es[j].Invalidate? && (es[j].Done? ==> |run[j].entries| < 2000)
  }

  lemma StepEntry<Q, V>(s: State<Q, V>, e: Event<Q, V>, q: Q)
    requires Possible(s, e)
    ensures var s' := Step(s, e); var mine := e.Done? && s.reading[e.pid].query == q && s.lifetime > 0;
      && s'.lifetime == s.lifetime && s.now <= s'.now + (if e.Tick? then e.ms else 0) && (e.Tick? ==> s'.now == s.now + e.ms) && (!e.Tick? ==> s'.now == s.now)
      && (q in s'.entries <==> mine || (q in s.entries && !e.Invalidate? && !(e.Done? && s.lifetime > 0 && |s.entries| >= 2000)))
      && (mine ==> s'.entries[q].expires == s.now + s.lifetime && s'.entries[q].value == s.reading[e.pid].value)
      && (q in s'.entries && !mine ==> s'.entries[q] == s.entries[q])
  {}

  lemma {:induction false} LifetimeIs<Q, V>(run: seq<State<Q, V>>, es: seq<Event<Q, V>>, n: nat)
    requires IsRun(run, es) && n <= |es|
    ensures run[n].lifetime == run[0].lifetime && (run[0].lifetime <= 0 ==> run[n].entries == map[])
  {
    if n > 0 { LifetimeIs(run, es, n - 1); }
  }

  /** An entry is what the last lookup of its query left, for as long as it is remembered. */
  lemma {:induction false} EntryFrom<Q, V>(run: seq<State<Q, V>>, es: seq<Event<Q, V>>, n: nat, q: Q) returns (k: nat)
    requires IsRun(run, es) && n <= |es| && q in run[n].entries
    ensures k < n && es[k].Done? && es[k].pid in run[k].reading && run[k].reading[es[k].pid].query == q
    ensures run[n].entries[q].expires == run[k].now + run[k].lifetime && run[n].entries[q].value == run[k].reading[es[k].pid].value
    ensures forall j :: k < j < n ==> !es[j].Invalidate? && (es[j].Done? ==> |run[j].entries| < 2000)
    decreases n
  {
    hide Step;
    assert n > 0 && run[n] == Step(run[n - 1], es[n - 1]);
    StepEntry(run[n - 1], es[n - 1], q);
    LifetimeIs(run, es, n - 1);
    if es[n - 1].Done? && run[n - 1].reading[es[n - 1].pid].query == q && run[n - 1].lifetime > 0 {
      k := n - 1;
    } else {
      k := EntryFrom(run, es, n - 1, q);
    }
  }

  lemma {:induction false} EntryStays<Q, V>(run: seq<State<Q, V>>, es: seq<Event<Q, V>>, k: nat, n: nat, q: Q)
    requires IsRun(run, es) && k < n <= |es| && es[k].Done? && run[k].reading[es[k].pid].query == q && run[k].lifetime > 0
    requires forall j :: k < j < n ==> !es[j].Invalidate? && (es[j].Done? ==> |run[j].entries| < 2000)
    ensures q in run[n].entries && run[n].entries[q].expires >= run[k].now + run[k].lifetime && run[n].now >= run[k].now
    decreases n
  {
    hide Step;
    assert run[n] == Step(run[n - 1], es[n - 1]);
    StepEntry(run[n - 1], es[n - 1], q);
    LifetimeIs(run, es, n - 1);
    LifetimeIs(run, es, k);
    if n > k + 1 { EntryStays(run, es, k, n - 1, q); }
  }

  lemma {:induction false} ClockGoesOn<Q, V>(run: seq<State<Q, V>>, es: seq<Event<Q, V>>, k: nat, n: nat)
    requires IsRun(run, es) && k <= n <= |es|
    ensures run[k].now <= run[n].now
    decreases n
  {
    if k < n { ClockGoesOn(run, es, k, n - 1); }
  }

  /**
   * Over any run: a lookup made now is answered from the cache if and only if one of the same query was
   * done less than a lifetime ago, and the cache was neither dropped since nor emptied for being full.
   */
  lemma RememberedExactly<Q, V>(run: seq<State<Q, V>>, es: seq<Event<Q, V>>, n: nat, q: Q)
    requires IsRun(run, es) && n <= |es|
    ensures Hit(run[n], q) <==> exists k: nat :: RememberedFrom(run, es, k, n, q)
  {
    if Hit(run[n], q) {
      var k := EntryFrom(run, es, n, q);
      assert RememberedFrom(run, es, k, n, q);
    }
    forall k: nat | RememberedFrom(run, es, k, n, q) ensures Hit(run[n], q) {
      LifetimeIs(run, es, k);
      ClockGoesOn(run, es, k, n);
      EntryStays(run, es, k, n, q);
    }
  }

  /** Then it is answered at once, with no read; otherwise it reads the database as it is. */
  lemma AskedThen<Q, V>(s: State<Q, V>, p: nat, q: Q)
    requires Possible(s, Ask(p, q))
    ensures var s' := Step(s, Ask(p, q));
      if Hit(s, q) then
        s'.reading == s.reading && s'.entries == s.entries && |s'.answers| == |s.answers| + 1 && s'.answers[..|s.answers|] == s.answers
        && s'.answers[|s.answers|].query == q && s'.answers[|s.answers|].value == s.entries[q].value && s'.answers[|s.answers|].at == s.now
      else
        s'.answers == s.answers && s'.entries == s.entries && p in s'.reading && s'.reading[p].query == q
        && s'.reading[p].value == s.versions[|s.versions| - 1].answer(q) && s'.reading == s.reading[p := s'.reading[p]]
  {}

  function Asks<Q, V>(es: seq<Event<Q, V>>): nat {
    if es == [] then 0 else Asks(es[..|es| - 1]) + if es[|es| - 1].Ask? then 1 else 0
  }

  /** Every lookup made is under way, or answered once. */
  lemma {:induction false} AskedOrAnswered<Q, V>(run: seq<State<Q, V>>, es: seq<Event<Q, V>>, n: nat)
    requires IsRun(run, es) && n <= |es|
    ensures Asks(es[..n]) == |run[n].answers| + |run[n].reading|
  {
    if n > 0 {
      AskedOrAnswered(run, es, n - 1);
      assert es[..n][..n - 1] == es[..n - 1];
      var s, e := run[n - 1], es[n - 1];
      if e.Done? { assert s.reading.Keys == (s.reading - {e.pid}).Keys + {e.pid}; SizeIs(s.reading); SizeIs(s.reading - {e.pid}); }
      if e.Ask? && !Hit(s, e.query) { SizeIs(s.reading); SizeIs(run[n].reading); assert run[n].reading.Keys == s.reading.Keys + {e.pid}; }
    }
  }

  lemma SizeIs<A, B>(m: map<A, B>)
    ensures |m| == |m.Keys|
  {}

  // ---- This isolate's own writes -----------------------------------------------------------------

  /** Every read under way has read the database as it is. */
  ghost predicate UpToDate<Q, V>(s: State<Q, V>) {
    forall p :: p in s.reading ==> s.reading[p].version >= |s.versions| - 1
  }

  /** Whenever the cache is dropped, no read is under way that a write has overtaken. */
  ghost predicate NoneOvertaken<Q, V>(run: seq<State<Q, V>>, es: seq<Event<Q, V>>)
    requires |run| == |es| + 1
  {
    forall i :: 0 <= i < |es| && es[i].Invalidate? ==> UpToDate(run[i])
  }

  /** The event answers a lookup from before the last `invalidate`. */
  ghost predicate AnswersStale<Q, V>(s: State<Q, V>, e: Event<Q, V>)
    requires Possible(s, e)
  {
    var s' := Step(s, e);
    |s'.answers| > |s.answers| && s'.answers[|s.answers|].version < s.floor
  }

  ghost predicate Above<Q, V>(s: State<Q, V>) {
    && (forall q :: q in s.entries ==> s.floor <= s.entries[q].version)
    && (forall p :: p in s.reading ==> s.floor <= s.reading[p].version)
    && (s.floor < |s.versions| || s.floor == 0)
  }

  lemma AboveKeeps<Q, V>(s: State<Q, V>, e: Event<Q, V>)
    requires Above(s) && Possible(s, e) && (e.Invalidate? ==> UpToDate(s))
    ensures Above(Step(s, e))
  {
    var s' := Step(s, e);
    if e.Done? { assert s.floor <= s.reading[e.pid].version; }
  }

  lemma {:induction false} RunIsAbove<Q, V>(run: seq<State<Q, V>>, es: seq<Event<Q, V>>, i: nat)
    requires IsRun(run, es) && NoneOvertaken(run, es) && i <= |es|
    ensures Above(run[i])
  {
    if i > 0 {
      RunIsAbove(run, es, i - 1);
      AboveKeeps(run[i - 1], es[i - 1]);
    }
  }

  /** A read overtaken when the cache is dropped answers from before, as soon as it is done. */
  lemma OvertakenAnswersStale<Q, V>(s: State<Q, V>, p: nat)
    requires Possible(s, Invalidate) && p in s.reading && s.reading[p].version < |s.versions| - 1
    ensures var s' := Step(s, Invalidate); Possible(s', Done(p)) && AnswersStale(s', Done(p))
  {}

  /** Some lookup could be answered from before the last `invalidate`: one under way, or one made now. */
  ghost predicate MayAnswerStale<Q, V>(s: State<Q, V>) {
    || (exists p :: p in s.reading && AnswersStale(s, Done(p)))
    || (exists p, q :: q in s.entries && Possible(s, Ask(p, q)) && AnswersStale(s, Ask(p, q)))
  }

  /**
   * At no moment of a run can a lookup be answered from before this isolate's last write and
   * `invalidate`, if and only if no read under way at an `invalidate` was overtaken by a write.
   */
  lemma OwnWritesAreSeen<Q, V>(run: seq<State<Q, V>>, es: seq<Event<Q, V>>)
    requires IsRun(run, es)
    ensures (forall n :: 0 <= n <= |es| ==> !MayAnswerStale(run[n])) <==> NoneOvertaken(run, es)
  {
    if NoneOvertaken(run, es) {
      forall n | 0 <= n <= |es| ensures !MayAnswerStale(run[n]) { RunIsAbove(run, es, n); }
    }
    if forall n :: 0 <= n <= |es| ==> !MayAnswerStale(run[n]) {
      forall i, p | 0 <= i < |es| && es[i].Invalidate? && p in run[i].reading ensures run[i].reading[p].version >= |run[i].versions| - 1 {
        assert !MayAnswerStale(run[i + 1]);
        if run[i].reading[p].version < |run[i].versions| - 1 { OvertakenAnswersStale(run[i], p); }
      }
    }
  }

  lemma Extend<Q, V>(run: seq<State<Q, V>>, es: seq<Event<Q, V>>, e: Event<Q, V>) returns (run': seq<State<Q, V>>, es': seq<Event<Q, V>>)
    requires IsRun(run, es) && Possible(run[|es|], e)
    ensures IsRun(run', es') && run' == run + [Step(run[|es|], e)] && es' == es + [e]
  {
    run', es' := run + [Step(run[|es|], e)], es + [e];
  }

  /** A read the write overtakes: it is remembered after the cache was dropped, and answers for a whole lifetime. */
  lemma OvertakenRead<Q, V>(before: Q -> V, after: Q -> V, q: Q, lifetime: int) returns (run: seq<State<Q, V>>, es: seq<Event<Q, V>>)
    requires lifetime > 0
    ensures IsRun(run, es) && !NoneOvertaken(run, es)
    ensures var s := run[|es|]; |s.versions| == 2 && s.floor == 1 && s.versions[1].answer == after && Hit(s, q) && s.entries[q].value == before(q)
  {
    run, es := [State(0, lifetime, [], 0, map[], map[], [])], [];
    run, es := Extend(run, es, Write(before));
    run, es := Extend(run, es, Ask(0, q));
    run, es := Extend(run, es, Write(after));
    assert run[3].reading == map[0 := Reading(q, before(q), 0, 0)];
    run, es := Extend(run, es, Invalidate);
    run, es := Extend(run, es, Done(0));
    assert es[3] == Invalidate && !UpToDate(run[3]);
  }
}
