/**
Certificates learned from service providers' metadata, kept current in the background. Fetches may
fail, end late, or never end; each works on the entry it was started for.

`source` and `failures` are the history of a run: nothing decides by them.
*/
module MetadataRefresh {
  import opened Optional

  const MIN_BACKOFF := 300_000
  const STUCK := 30_000

  type Certificate = string

  datatype Encryption = Encryption(certificate: Certificate, dataAlgorithm: string, keyAlgorithm: string)

  /** Refresh intervals are five minutes to a week. */
  type Interval = ms: int | 300_000 <= ms <= 604_800_000 witness 300_000

  /** Everything learned certificates depend on: SP, URL, pinned signers and encryption algorithms. */
  datatype Key = Key(spId: string, entityId: string, url: string, pins: seq<Certificate>, algorithms: Option<(string, string)>)

  datatype Provider = Provider(
    spId: string, entityId: string, url: string, pins: seq<Certificate>, interval: Interval,
    certificates: seq<Certificate>, encryption: Option<Encryption>)

  function KeyOf(sp: Provider): Key {
    Key(sp.spId, sp.entityId, sp.url, sp.pins,
        if sp.encryption.Some? then Some((sp.encryption.value.dataAlgorithm, sp.encryption.value.keyAlgorithm)) else None)
  }

  datatype Learned = Learned(certificates: seq<Certificate>, encryptionCertificate: Option<Certificate>, source: Key)

  datatype EntryState = EntryState(
    learned: Option<Learned>, nextAttempt: int, backoff: int, inflight: Option<nat>, since: int, failures: nat)

  const FRESH := EntryState(None, 0, MIN_BACKOFF, None, 0, 0)

  // ---- One entry ---------------------------------------------------------------------------------

  /** Does a use of the SP start a fetch? A fetch under way for over half a minute counts as abandoned. */
  predicate Starts(e: EntryState, now: int) {
    now >= e.nextAttempt && (e.inflight.None? || now - e.since > STUCK)
  }

  function Prepared(e: EntryState, now: int, fetch: nat): EntryState {
    var abandoned := e.inflight.Some? && now - e.since > STUCK;
    var f := if abandoned then e.(inflight := None) else e;
    if Starts(e, now) then f.(inflight := Some(fetch), since := now) else f
  }

  /** The fetch is done with; a later one stays. */
  function Settled(e: EntryState, fetch: nat): EntryState {
    if e.inflight == Some(fetch) then e.(inflight := None) else e
  }

  function Succeeded(e: EntryState, now: int, fetch: nat, learned: Learned, interval: Interval): EntryState {
    Settled(e.(learned := Some(learned), backoff := MIN_BACKOFF, nextAttempt := now + interval, failures := 0), fetch)
  }

  function Least(a: int, b: int): int { if a < b then a else b }

  function Failed(e: EntryState, now: int, fetch: nat, interval: Interval): EntryState {
    Settled(e.(nextAttempt := now + e.backoff, backoff := Least(2 * e.backoff, interval), failures := e.failures + 1), fetch)
  }

  class Entry {
    var learned: Option<Learned>
    var nextAttempt: int
    var backoff: int
    var inflight: Option<nat>
    var inflightSince: int
    ghost var failures: nat

    constructor ()
      ensures View() == FRESH
    {
      learned, nextAttempt, backoff, inflight, inflightSince, failures := None, 0, MIN_BACKOFF, None, 0, 0;
    }

    ghost function View(): EntryState
      reads this
    {
      EntryState(learned, nextAttempt, backoff, inflight, inflightSince, failures)
    }

    /** A use of the SP: whether fetch `fetch` is started. */
    method Prepare(now: int, fetch: nat) returns (started: bool)
      modifies this`inflight, this`inflightSince
      ensures View() == Prepared(old(View()), now, fetch) && started == Starts(old(View()), now)
    {
      if inflight.Some? && now - inflightSince > STUCK { inflight := None; }
      var due := now >= nextAttempt;
      started := due && inflight.None?;
      if started { inflight, inflightSince := Some(fetch), now; }
    }

    method Succeed(now: int, fetch: nat, l: Learned, interval: Interval)
      modifies this
      ensures View() == Succeeded(old(View()), now, fetch, l, interval)
    {
      learned, backoff, nextAttempt := Some(l), MIN_BACKOFF, now + interval;
      failures := 0;
      if inflight == Some(fetch) { inflight := None; }
    }

    method Fail(now: int, fetch: nat, interval: Interval)
      modifies this
      ensures View() == Failed(old(View()), now, fetch, interval)
    {
      nextAttempt := now + backoff;
      backoff := if backoff * 2 < interval then backoff * 2 else interval;
      failures := failures + 1;
      if inflight == Some(fetch) { inflight := None; }
    }
  }

  // ---- Backoff -----------------------------------------------------------------------------------

  function Doubled(k: nat): int { if k == 0 then MIN_BACKOFF else 2 * Doubled(k - 1) }

  /** After `k` failures in a row: five minutes doubled `k` times, up to the refresh interval. */
  function Backoff(k: nat, interval: Interval): int { Least(Doubled(k), interval) }

  lemma {:induction false} DoubledGrows(k: nat)
    ensures Doubled(k) >= MIN_BACKOFF
  {
    if k > 0 { DoubledGrows(k - 1); }
  }

  ghost predicate BacksOff(e: EntryState, interval: Interval) { e.backoff == Backoff(e.failures, interval) }

  lemma FailedBacksOff(e: EntryState, now: int, fetch: nat, interval: Interval)
    requires BacksOff(e, interval)
    ensures BacksOff(Failed(e, now, fetch, interval), interval)
    ensures Failed(e, now, fetch, interval).nextAttempt == now + Backoff(e.failures, interval)
  {
    DoubledGrows(e.failures);
  }

  // ---- The cache, over whole runs ------------------------------------------------------------------

  /** A fetch under way, for the entry it was started for. */
  datatype Fetch = Fetch(entry: nat, provider: Provider)

  /** `index` finds the entry of a key; an entry dropped from it may still have fetches. */
  datatype State = State(now: int, entries: map<nat, EntryState>, index: map<Key, nat>, fetches: map<nat, Fetch>, nextId: nat)

  datatype Event =
    | Tick(ms: nat)
    | Use(provider: Provider)
    | Succeeds(fetch: nat, certificates: seq<Certificate>, encryptionCertificate: Option<Certificate>)
    | Fails(fetch: nat)

  predicate Possible(s: State, e: Event) {
    match e
    case Succeeds(f, _, _) => f in s.fetches && s.fetches[f].entry in s.entries
    case Fails(f) => f in s.fetches && s.fetches[f].entry in s.entries
    case _ => true
  }

  /** A key's entry, made if there is none; a full index is dropped first. */
  function Find(s: State, k: Key): (State, nat) {
    if k in s.index && s.index[k] in s.entries then (s, s.index[k])
    else
      var kept := if |s.index| >= 1000 then map[] else s.index;
      (s.(entries := s.entries[s.nextId := FRESH], index := kept[k := s.nextId], nextId := s.nextId + 1), s.nextId)
  }

  function Step(s: State, e: Event): State
    requires Possible(s, e)
  {
    match e
    case Tick(ms) => s.(now := s.now + ms)
    case Use(sp) =>
      var (t, id) := Find(s, KeyOf(sp));
      var fetch := t.nextId;
      var u := t.(entries := t.entries[id := Prepared(t.entries[id], t.now, fetch)]);
      if Starts(t.entries[id], t.now) then u.(fetches := t.fetches[fetch := Fetch(id, sp)], nextId := fetch + 1) else u
    case Succeeds(f, certificates, encryption) =>
      var id, sp := s.fetches[f].entry, s.fetches[f].provider;
      s.(entries := s.entries[id := Succeeded(s.entries[id], s.now, f, Learned(certificates, encryption, KeyOf(sp)), sp.interval)], fetches := s.fetches - {f})
    case Fails(f) =>
      var id, sp := s.fetches[f].entry, s.fetches[f].provider;
      s.(entries := s.entries[id := Failed(s.entries[id], s.now, f, sp.interval)], fetches := s.fetches - {f})
  }

  ghost predicate IsRun(run: seq<State>, es: seq<Event>) {
    && |run| == |es| + 1
    && run[0].entries == map[] && run[0].index == map[] && run[0].fetches == map[]
    && forall i :: 0 <= i < |es| ==> Possible(run[i], es[i]) && run[i + 1] == Step(run[i], es[i])
  }

  /** Which key each entry was made for. */
  type Owners = map<nat, Key>

  ghost predicate Inv(s: State, owners: Owners) {
    && (forall id :: id in s.entries ==> id < s.nextId && id in owners)
    && (forall id :: id in s.entries && s.entries[id].learned.Some? ==> s.entries[id].learned.value.source == owners[id])
    && (forall k :: k in s.index ==> s.index[k] in s.entries && owners[s.index[k]] == k)
    && (forall f :: f in s.fetches ==> f < s.nextId && s.fetches[f].entry in s.entries && owners[s.fetches[f].entry] == KeyOf(s.fetches[f].provider))
  }

  lemma FindKeeps(s: State, owners: Owners, k: Key) returns (owners': Owners)
    requires Inv(s, owners)
    ensures var (t, id) := Find(s, k);
      Inv(t, owners') && id in t.entries && owners'[id] == k && t.fetches == s.fetches
  {
    owners' := if k in s.index then owners else owners[s.nextId := k];
  }

  lemma UseKeeps(s: State, owners: Owners, e: Event) returns (owners': Owners)
    requires Inv(s, owners) && e.Use?
    ensures Inv(Step(s, e), owners')
  {
    owners' := FindKeeps(s, owners, KeyOf(e.provider));
    var (t, id) := Find(s, KeyOf(e.provider));
    PreparedKeeps(t, owners', id, e.provider);
  }

  lemma PreparedKeeps(t: State, owners: Owners, id: nat, sp: Provider)
    requires Inv(t, owners) && id in t.entries && owners[id] == KeyOf(sp)
    ensures var u := t.(entries := t.entries[id := Prepared(t.entries[id], t.now, t.nextId)]);
      Inv(u, owners) && Inv(u.(fetches := t.fetches[t.nextId := Fetch(id, sp)], nextId := t.nextId + 1), owners)
  {
    assert Prepared(t.entries[id], t.now, t.nextId).learned == t.entries[id].learned;
  }

  lemma StepKeeps(s: State, owners: Owners, e: Event) returns (owners': Owners)
    requires Inv(s, owners) && Possible(s, e)
    ensures Inv(Step(s, e), owners')
  {
    owners' := owners;
    if e.Use? { owners' := UseKeeps(s, owners, e); }
  }

  lemma {:induction false} RunKeeps(run: seq<State>, es: seq<Event>) returns (owners: Owners)
    requires IsRun(run, es)
    ensures Inv(run[|es|], owners)
    decreases |es|
  {
    if es == [] {
      owners := map[];
    } else {
      var n := |es| - 1;
      owners := RunKeeps(run[..|es|], es[..n]);
      owners := StepKeeps(run[n], owners, es[n]);
    }
  }

  /**
   * What is learned never crosses a configuration change: the entry an SP finds holds only what was
   * learned for an SP of the same ID, entity ID, URL, pinned signers and encryption algorithms.
   */
  lemma LearnedForThisConfiguration(run: seq<State>, es: seq<Event>, sp: Provider)
    requires IsRun(run, es) && KeyOf(sp) in run[|es|].index
    ensures var s := run[|es|]; var id := s.index[KeyOf(sp)];
      id in s.entries && (s.entries[id].learned.Some? ==> s.entries[id].learned.value.source == KeyOf(sp))
  {
    var owners := RunKeeps(run, es);
  }

  /** A failure, and a use, keep the last good copy. */
  lemma FailureKeepsTheLastGood(s: State, e: Event, id: nat)
    requires Possible(s, e) && !e.Succeeds? && id in s.entries && id < s.nextId
    ensures id in Step(s, e).entries && Step(s, e).entries[id].learned == s.entries[id].learned
  {}

  /** An abandoned fetch holds nothing up: half a minute later a due refresh starts again. */
  lemma StuckIsPassedOver(e: EntryState, now: int, fetch: nat)
    requires now >= e.nextAttempt && now - e.since > STUCK
    ensures Starts(e, now) && Prepared(e, now, fetch).inflight == Some(fetch)
    ensures forall later :: now <= later <= now + STUCK ==> !Starts(Prepared(e, now, fetch), later)
  {}

  ghost predicate AllBackOff(s: State, interval: Interval) {
    && (forall id :: id in s.entries ==> BacksOff(s.entries[id], interval))
    && (forall f :: f in s.fetches ==> s.fetches[f].provider.interval == interval)
  }

  lemma StepBacksOff(s: State, e: Event, interval: Interval)
    requires AllBackOff(s, interval) && Possible(s, e) && (e.Use? ==> e.provider.interval == interval)
    ensures AllBackOff(Step(s, e), interval)
  {
    assert BacksOff(FRESH, interval);
    if e.Fails? { FailedBacksOff(s.entries[s.fetches[e.fetch].entry], s.now, e.fetch, interval); }
  }

  /** While the refresh interval is the same, every entry's backoff is the formula's, however fetches end. */
  lemma {:induction false} BackoffFollowsFailures(run: seq<State>, es: seq<Event>, i: nat, interval: Interval)
    requires IsRun(run, es) && i <= |es| && forall k :: 0 <= k < |es| && es[k].Use? ==> es[k].provider.interval == interval
    ensures AllBackOff(run[i], interval)
  {
    if i > 0 {
      BackoffFollowsFailures(run, es, i - 1, interval);
      StepBacksOff(run[i - 1], es[i - 1], interval);
    }
  }

  // ---- Merging -----------------------------------------------------------------------------------

  /** A learned encryption certificate only while encryption is configured, with today's algorithms. */
  function MergedEncryption(own: Option<Encryption>, learned: Option<Certificate>): Option<Encryption> {
    if own.Some? && learned.Some? then Some(own.value.(certificate := learned.value)) else own
  }

  /** Nothing configured is lost or moved, nothing but the learned is added, and encryption is never turned on. */
  method Merge(sp: Provider, l: Option<Learned>) returns (r: Provider)
    ensures sp.certificates <= r.certificates
    ensures forall c :: c in r.certificates <==> c in sp.certificates || (l.Some? && c in l.value.certificates)
    ensures (forall i, j :: 0 <= i < j < |sp.certificates| ==> sp.certificates[i] != sp.certificates[j]) ==>
      (forall i, j :: 0 <= i < j < |r.certificates| ==> r.certificates[i] != r.certificates[j])
    ensures r == sp.(certificates := r.certificates, encryption := MergedEncryption(sp.encryption, if l.Some? then l.value.encryptionCertificate else None))
    ensures r.encryption.Some? <==> sp.encryption.Some?
    ensures sp.encryption.Some? ==>
      r.encryption.value.certificate == if l.Some? && l.value.encryptionCertificate.Some? then l.value.encryptionCertificate.value else sp.encryption.value.certificate
    ensures KeyOf(r) == KeyOf(sp)
  {
    if l.None? { return sp; }
    var certs := sp.certificates;
    var learned := l.value.certificates;
    for i := 0 to |learned|
      invariant sp.certificates <= certs
      invariant forall c :: c in certs <==> c in sp.certificates || c in learned[..i]
      invariant (forall k, j :: 0 <= k < j < |sp.certificates| ==> sp.certificates[k] != sp.certificates[j]) ==>
        (forall k, j :: 0 <= k < j < |certs| ==> certs[k] != certs[j])
    {
      assert learned[..i + 1] == learned[..i] + [learned[i]];
      if learned[i] !in certs { certs := certs + [learned[i]]; }
    }
    assert learned[..|learned|] == learned;
    r := sp.(certificates := certs, encryption := MergedEncryption(sp.encryption, l.value.encryptionCertificate));
  }
}
