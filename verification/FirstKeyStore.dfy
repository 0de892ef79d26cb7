/**
`ensureFirstKey` as one isolate runs it while others run it too. Before each of its database calls
the others do whatever they do; then the call is one step of the run. So everything `FirstKey`
proves of runs holds of what this procedure leaves, whatever came between its calls.
*/
module FirstKeyStore {
  import opened Optional
  import opened FirstKey

  const FAILED_RETRY_MS := 60_000

  predicate By(e: Event, w: nat) { (e.Acts? || e.Lost?) && e.writer == w }

  class Database {
    var s: State
    /** What the others do before each call from here on. */
    var others: seq<seq<Event>>
    ghost var run: seq<State>
    ghost var es: seq<Event>

    constructor (s: State, others: seq<seq<Event>>)
      requires Initial(s)
      ensures Valid() && this.s == s && this.others == others
    {
      this.s, this.others, run, es := s, others, [s], [];
    }

    /** What has happened so far is a run, and `s` is where it has come to. */
    ghost predicate Valid()
      reads this
    {
      IsRun(run, es) && run[|es|] == s && WellFormed(s)
    }

    method Happen(e: Event)
      requires Valid() && Possible(s, e)
      modifies this`s, this`run, this`es
      ensures Valid() && s == Step(old(s), e) && run == old(run) + [s] && es == old(es) + [e]
    {
      s := Step(s, e);
      run, es := run + [s], es + [e];
      ghost var l := RunKeeps(run, es);
    }

    /** The others go on: writer `w` stays where it is, and no row written is unwritten. */
    method Await(w: nat)
      requires Valid() && w in s.phases
      modifies this
      ensures Valid() && old(run) <= run
      ensures w in s.phases && s.phases[w] == old(s.phases)[w]
      ensures old(s.stamps) != map[] ==> s.stamps != map[]
    {
      if others == [] { return; }
      var now := others[0];
      others := others[1..];
      for n := 0 to |now|
        invariant Valid() && old(run) <= run
        invariant w in s.phases && s.phases[w] == old(s.phases)[w]
        invariant old(s.stamps) != map[] ==> s.stamps != map[]
      {
        if !By(now[n], w) && Possible(s, now[n]) {
          OthersStay(s, now[n], w);
          Happen(now[n]);
        }
      }
    }
  }

  lemma OthersStay(s: State, e: Event, w: nat)
    requires Possible(s, e) && !By(e, w) && w in s.phases
    ensures w in Step(s, e).phases && Step(s, e).phases[w] == s.phases[w]
    ensures s.stamps != map[] ==> Step(s, e).stamps != map[]
  {
    if e.Acts? && e.choice.Store? { assert e.writer in Step(s, e).stamps; }
  }

  /** The first key of the rows read, in the repair's order. */
  method FindLeast(stamps: map<nat, Stamp>, rows: set<nat>) returns (least: nat)
    requires rows <= stamps.Keys && rows != {}
    requires forall a, b :: a in stamps && b in stamps && a != b ==> stamps[a].kid != stamps[b].kid
    ensures IsLeast(stamps, rows, least)
  {
    least :| least in rows;
    var left := rows - {least};
    while left != {}
      invariant left < rows && least in rows - left
      invariant forall q :: q in rows - left && q != least ==> Less(stamps[least], stamps[q])
      decreases |left|
    {
      var row :| row in left;
      left := left - {row};
      if Less(stamps[row], stamps[least]) { least := row; }
    }
  }

  datatype Cached = Cached(any: bool, expires: int)

  datatype Result = Told(stored: bool) | Throws

  /** One isolate's store, for one owner. `w` names the writer it is. */
  class KeyStore {
    const w: nat
    const cacheMs: int
    var cached: Option<Cached>
    var failedUntil: Option<int>

    constructor (w: nat, cacheMs: int)
      ensures this.w == w && cached == None && failedUntil == None
    {
      this.w, this.cacheMs, cached, failedUntil := w, cacheMs, None, None;
    }

    /** Rows remembered were once there. */
    ghost predicate Valid(db: Database)
      reads this, db
    {
      && db.Valid() && w in db.s.phases
      && (cached.Some? && cached.value.any ==> db.s.stamps != map[])
    }

    method Invalidate()
      modifies this`cached
      ensures cached == None
    {
      cached := None;
    }

    /** Are there rows? From the cache while it lives; else as the database has it now. */
    method Load(db: Database) returns (any: bool)
      requires Valid(db)
      modifies db, this`cached
      ensures Valid(db) && old(db.run) <= db.run && db.s.phases[w] == old(db.s.phases)[w]
      ensures any ==> db.s.stamps != map[]
      ensures old(cached).None? ==> any == (db.s.table != {})
    {
      if cached.Some? && cached.value.expires > db.s.now { return cached.value.any; }
      db.Await(w);
      any := db.s.table != {};
      if cacheMs > 0 { cached := Some(Cached(any, db.s.now + cacheMs)); }
    }

    /** `storeOk`: the write does not fail for a reason of its own. A kid in use would fail it too. */
    method CreateRow(db: Database, kid: int, storeOk: bool) returns (ok: bool)
      requires Valid(db) && db.s.phases[w].Storing? && db.s.phases[w].stamp.kid == kid
      modifies db
      ensures Valid(db) && old(db.run) <= db.run
      ensures db.s.phases[w] == if ok then Reading else Refused
    {
      db.Await(w);
      ok := storeOk && (db.s.indexed ==> db.s.table == {}) && forall q :: q in db.s.stamps ==> db.s.stamps[q].kid != kid;
      if ok { assert w in Step(db.s, Acts(w, Store)).stamps; }
      db.Happen(Acts(w, if ok then Store else StoreFails));
    }

    /** Every extra row is deleted, one call each. */
    method DeleteExtras(db: Database, all: set<nat>, mine: bool)
      requires Valid(db) && db.s.phases[w] == Repairing(all, mine)
      modifies db
      ensures Valid(db) && old(db.run) <= db.run && db.s.phases[w] == Done(mine)
    {
      var extras := all;
      while extras != {}
        invariant Valid(db) && old(db.run) <= db.run && db.s.phases[w] == Repairing(extras, mine)
        decreases |extras|
      {
        var row :| row in extras;
        db.Await(w);
        db.Happen(Acts(w, DeleteOne(row)));
        extras := extras - {row};
      }
      db.Happen(Acts(w, Finish));
    }

    /**
     * The rows read are deleted, all but the least; true if that is this writer's own. No more than
     * 50 writers ever store one, so a read returns them all.
     */
    method KeepLeast(db: Database) returns (mine: bool)
      requires Valid(db) && db.s.phases[w].Reading? && cached == None
      modifies db, this`cached
      ensures Valid(db) && old(db.run) <= db.run && db.s.phases[w] == Done(mine)
    {
      db.Await(w);
      var read := db.s.table;
      if |read| <= 1 {
        if cacheMs > 0 { cached := Some(Cached(read != {}, db.s.now + cacheMs)); }
        db.Happen(Acts(w, ReadFirsts(read, 0)));
        return true;
      }
      ghost var l := RunKeeps(db.run, db.es);
      var least := FindLeast(db.s.stamps, read);
      db.Happen(Acts(w, ReadFirsts(read, least)));
      mine := least == w;
      DeleteExtras(db, read - {least}, mine);
    }

    /** The write failed: another's row is used if there is one, else the failure is remembered. */
    method LookAfterFailing(db: Database) returns (r: Result)
      requires Valid(db) && db.s.phases[w].Refused? && cached == None
      modifies db, this`cached, this`failedUntil
      ensures Valid(db) && old(db.run) <= db.run
      ensures r.Told? ==> db.s.phases[w] == Done(r.stored)
      ensures r.Throws? ==> db.s.phases[w].Failed? && failedUntil == Some(db.s.now + FAILED_RETRY_MS)
    {
      var any := Load(db);
      db.Happen(Acts(w, LookAgain));
      if any { return Told(false); }
      failedUntil := Some(db.s.now + FAILED_RETRY_MS);
      r := Throws;
    }

    /** None was found: a key is made, its row stored, and other first keys cleared away. */
    method StoreFirst(db: Database, kid: int, storeOk: bool) returns (r: Result)
      requires Valid(db) && db.s.phases[w].Generating?
      modifies db, this`cached, this`failedUntil
      ensures Valid(db) && old(db.run) <= db.run
      ensures r.Told? ==> db.s.phases[w] == Done(r.stored)
      ensures r.Throws? ==> db.s.phases[w].Failed? && failedUntil == Some(db.s.now + FAILED_RETRY_MS)
    {
      db.Await(w);
      db.Happen(Acts(w, TakeStamp(kid)));
      var ok := CreateRow(db, kid, storeOk);
      Invalidate();
      if !ok {
        r := LookAfterFailing(db);
        return;
      }
      var mine := KeepLeast(db);
      r := Told(mine);
    }

    /**
     * The first key of an owner that has none. What is returned is what the run says of this writer:
     * it was told `stored`, or it failed and remembers that for a minute, or it remembered so.
     */
    method EnsureFirstKey(db: Database, kid: int, storeOk: bool) returns (r: Result)
      requires Valid(db) && db.s.phases[w].Checking?
      modifies db, this
      ensures Valid(db) && old(db.run) <= db.run
      ensures r.Told? ==> db.s.phases[w] == Done(r.stored)
      ensures r.Throws? ==>
        || (db.s.phases[w].Failed? && failedUntil == Some(db.s.now + FAILED_RETRY_MS))
        || (db.s.phases[w].Checking? && failedUntil == old(failedUntil) && failedUntil.Some? && failedUntil.value > db.s.now)
    {
      var any := Load(db);
      if any {
        db.Happen(Acts(w, FindRows));
        return Told(false);
      }
      if failedUntil.Some? && failedUntil.value > db.s.now { return Throws; }
      Invalidate();
      any := Load(db);
      if any {
        db.Happen(Acts(w, FindRows));
        return Told(false);
      }
      db.Happen(Acts(w, FindNone));
      r := StoreFirst(db, kid, storeOk);
    }
  }
}
