/** When metadata is fetched, exactly, and what the end of a fetch changes; over whole runs, that fetches are spaced. */
module MetadataFetches {
  import opened Optional
  import opened MetadataRefresh

  /** Two SPs share an entry exactly if they agree in all that learned certificates depend on. */
  lemma KeysTell(a: Provider, b: Provider)
    ensures KeyOf(a) == KeyOf(b) <==>
      && a.spId == b.spId && a.entityId == b.entityId && a.url == b.url && a.pins == b.pins && (a.encryption.Some? <==> b.encryption.Some?)
      && (a.encryption.Some? && b.encryption.Some? ==>
            a.encryption.value.dataAlgorithm == b.encryption.value.dataAlgorithm && a.encryption.value.keyAlgorithm == b.encryption.value.keyAlgorithm)
  {}

  /** The entry that a use of this SP finds, or the new one it makes. */
  function EntryFor(s: State, sp: Provider): EntryState {
    var k := KeyOf(sp);
    if k in s.index && s.index[k] in s.entries then s.entries[s.index[k]] else EntryState(None, 0, 300_000, None, 0, 0)
  }

  /** A fetch is due: its time has come, and none has been under way for less than half a minute. */
  predicate FetchDue(s: State, sp: Provider) {
    var e := EntryFor(s, sp);
    e.nextAttempt <= s.now && (e.inflight == None || e.since + 30_000 < s.now)
  }

  /**
   * A use of an SP starts a fetch, for its entry, exactly when one is due; it keeps what was learned and
   * the times to come, and touches no other entry. With a thousand keys known a new one is known alone.
   */
  lemma UseStarts(s: State, owners: Owners, sp: Provider)
    requires Inv(s, owners)
    ensures var s' := Step(s, Use(sp)); var was := EntryFor(s, sp);
      && KeyOf(sp) in s'.index && s'.index[KeyOf(sp)] in s'.entries
      && (forall k :: k != KeyOf(sp) && k in s'.index ==> k in s.index && s'.index[k] == s.index[k])
      && s'.index.Keys == (if KeyOf(sp) in s.index || |s.index| < 1000 then s.index.Keys + {KeyOf(sp)} else {KeyOf(sp)})
      && var id := s'.index[KeyOf(sp)]; var now := s'.entries[id];
      && now.learned == was.learned && now.nextAttempt == was.nextAttempt && now.backoff == was.backoff && now.failures == was.failures
      && (if FetchDue(s, sp) then
            exists f: nat :: f !in s.fetches && s'.fetches == s.fetches[f := Fetch(id, sp)] && now.inflight == Some(f) && now.since == s.now
          else
            s'.fetches == s.fetches && now.since == was.since
            && now.inflight == if was.inflight.Some? && was.since + 30_000 < s.now then None else was.inflight)
      && (forall i :: i in s.entries && i != id ==> i in s'.entries && s'.entries[i] == s.entries[i])
  {
    FindsEntry(s, owners, sp);
    UseIs(s, sp);
    hide Find, Inv, KeyOf, EntryFor, Step;
    if FetchDue(s, sp) { assert Step(s, Use(sp)).fetches == s.fetches[Find(s, KeyOf(sp)).0.nextId := Fetch(Find(s, KeyOf(sp)).1, sp)]; }
  }

  /** A use, from the entry it finds. */
  lemma UseIs(s: State, sp: Provider)
    requires Find(s, KeyOf(sp)).1 in Find(s, KeyOf(sp)).0.entries
    ensures var (t, id) := Find(s, KeyOf(sp)); var s' := Step(s, Use(sp)); var was, f := t.entries[id], t.nextId;
      var due := was.nextAttempt <= t.now && (was.inflight == None || was.since + 30_000 < t.now);
      && s'.index == t.index && s'.now == t.now
      && s'.fetches == (if due then t.fetches[f := Fetch(id, sp)] else t.fetches)
      && id in s'.entries && (forall i :: i in t.entries && i != id ==> i in s'.entries && s'.entries[i] == t.entries[i])
      && var now := s'.entries[id];
      && now.learned == was.learned && now.nextAttempt == was.nextAttempt && now.backoff == was.backoff && now.failures == was.failures
      && now.since == (if due then t.now else was.since)
      && now.inflight == if due then Some(f) else if was.inflight.Some? && was.since + 30_000 < t.now then None else was.inflight
  {
    hide Find, KeyOf;
  }

  lemma FindsEntry(s: State, owners: Owners, sp: Provider)
    requires Inv(s, owners)
    ensures var (t, id) := Find(s, KeyOf(sp));
      && KeyOf(sp) in t.index && t.index[KeyOf(sp)] == id && id in t.entries
      && (forall k :: k != KeyOf(sp) && k in t.index ==> k in s.index && t.index[k] == s.index[k])
      && t.index.Keys == (if KeyOf(sp) in s.index || |s.index| < 1000 then s.index.Keys + {KeyOf(sp)} else {KeyOf(sp)})
      && t.entries[id] == EntryFor(s, sp)
      && t.fetches == s.fetches && t.now == s.now && t.nextId !in s.fetches
      && forall i :: i in s.entries && i != id ==> i in t.entries && t.entries[i] == s.entries[i]
  {}

  /** What the end of a fetch changes: only the entry it was for, and whether that one still waits for it. */
  lemma FetchEnds(s: State, e: Event)
    requires Possible(s, e) && (e.Succeeds? || e.Fails?)
    ensures var s' := Step(s, e); var id, sp := s.fetches[e.fetch].entry, s.fetches[e.fetch].provider;
      && s'.fetches == s.fetches - {e.fetch} && s'.index == s.index && s'.now == s.now && s'.entries.Keys == s.entries.Keys
      && (forall i :: i in s.entries && i != id ==> s'.entries[i] == s.entries[i])
      && var was, now := s.entries[id], s'.entries[id];
      && now.since == was.since && now.inflight == (if was.inflight == Some(e.fetch) then None else was.inflight)
      && (if e.Succeeds? then
            && now.learned.Some? && now.learned.value.certificates == e.certificates && now.learned.value.encryptionCertificate == e.encryptionCertificate
            && now.learned.value.source == KeyOf(sp) && now.backoff == 300_000 && now.nextAttempt == s.now + sp.interval
          else
            && now.learned == was.learned && now.nextAttempt == s.now + was.backoff
            && now.backoff == if 2 * was.backoff < sp.interval then 2 * was.backoff else sp.interval)
  {}

  /** Time passes by itself, and only then; passing, it changes nothing else. */
  lemma TimePasses(s: State, e: Event)
    requires Possible(s, e)
    ensures Step(s, e).now == s.now + (if e.Tick? then e.ms else 0)
    ensures e.Tick? ==> Step(s, e) == s.(now := Step(s, e).now)
  {
    hide Prepared, Succeeded, Failed;
  }

  // ---- Over runs -----------------------------------------------------------------------------------

  /** Every fetch under way is the one its entry waits for, or was started over half a minute ago. */
  ghost predicate Spaced(s: State, starts: map<nat, int>) {
    forall f :: f in s.fetches ==>
      && f in starts && s.fetches[f].entry in s.entries
      && var e := s.entries[s.fetches[f].entry];
      ((e.inflight == Some(f) && e.since == starts[f]) || starts[f] + 30_000 < s.now)
  }

  lemma StepSpaced(s: State, owners: Owners, starts: map<nat, int>, e: Event) returns (starts': map<nat, int>)
    requires Inv(s, owners) && Spaced(s, starts) && Possible(s, e)
    ensures Spaced(Step(s, e), starts')
    ensures forall f :: f in s.fetches ==> f in starts' && starts'[f] == starts[f]
    ensures forall f :: f in Step(s, e).fetches && f !in s.fetches ==> f in starts' && starts'[f] == s.now
  {
    starts' := starts;
    if e.Use? {
      starts' := starts[Find(s, KeyOf(e.provider)).0.nextId := s.now];
      UseSpaced(s, owners, starts, e.provider);
    }
  }

  lemma UseSpaced(s: State, owners: Owners, starts: map<nat, int>, sp: Provider)
    requires Inv(s, owners) && Spaced(s, starts)
    ensures Spaced(Step(s, Use(sp)), starts[Find(s, KeyOf(sp)).0.nextId := s.now])
  {
    var (t, id) := Find(s, KeyOf(sp));
    var s' := Step(s, Use(sp));
    assert t.nextId !in s.fetches;
    assert forall i :: i in s.entries && i != id ==> s'.entries[i] == s.entries[i];
  }

  /** Event `k` starts fetch `f`. */
  ghost predicate Begins(run: seq<State>, es: seq<Event>, k: nat, f: nat)
    requires |run| == |es| + 1
  {
    k < |es| && f !in run[k].fetches && f in run[k + 1].fetches
  }

  lemma {:induction false} RunSpaced(run: seq<State>, es: seq<Event>, n: nat) returns (owners: Owners, starts: map<nat, int>)
    requires IsRun(run, es) && n <= |es|
    ensures Inv(run[n], owners) && Spaced(run[n], starts)
    ensures forall k: nat, f :: k < n && Begins(run, es, k, f) && f in run[n].fetches ==> starts[f] == run[k].now
    decreases n
  {
    if n == 0 {
      owners, starts := map[], map[];
    } else {
      hide Step, Spaced, Inv;
      owners, starts := RunSpaced(run, es, n - 1);
      var starts' := StepSpaced(run[n - 1], owners, starts, es[n - 1]);
      owners := StepKeeps(run[n - 1], owners, es[n - 1]);
      forall k: nat, f | k < n && Begins(run, es, k, f) && f in run[n].fetches ensures starts'[f] == run[k].now {
        if k < n - 1 { Stayed(run, es, k + 1, n - 1, f); }
      }
      starts := starts';
    }
  }

  /** A fetch under way now has been so since it began: no number is given twice. */
  lemma {:induction false} Stayed(run: seq<State>, es: seq<Event>, k: nat, n: nat, f: nat)
    requires IsRun(run, es) && k <= n < |es| && f in run[k].fetches && f in run[n + 1].fetches
    ensures f in run[n].fetches
  {
    if f !in run[n].fetches {
      NumbersGrow(run, es, k, n);
      var owners := RunKeeps(run[..k + 1], es[..k]);
    }
  }

  lemma {:induction false} NumbersGrow(run: seq<State>, es: seq<Event>, k: nat, n: nat)
    requires IsRun(run, es) && k <= n <= |es|
    ensures run[k].nextId <= run[n].nextId
    decreases n
  {
    if k < n { NumbersGrow(run, es, k, n - 1); }
  }

  /** Over any run: while a fetch of an entry is under way, another of it begins only half a minute later. */
  lemma FetchesAreSpaced(run: seq<State>, es: seq<Event>, k: nat, n: nat, f: nat, g: nat)
    requires IsRun(run, es) && k < n && Begins(run, es, k, f) && Begins(run, es, n, g) && f in run[n].fetches
    requires run[n].fetches[f].entry == run[n + 1].fetches[g].entry
    ensures run[k].now + 30_000 < run[n].now
  {
    var owners, starts := RunSpaced(run, es, n);
    UseStarts(run[n], owners, es[n].provider);
  }
}
