/**
The first key of an owner, when several isolates find none and each stores one
(`TenantKeyStore.ensureFirstKey`). With the UNIQUE state key one write succeeds. Without it every
write succeeds, and each writer that then reads more than one first key keeps the least by
(createdAt, kid) and deletes the others.

Every read and every row write is one atomic step, and the steps of the writers interleave freely.
A writer stores one row at most, so rows are named by their writer.
*/
module FirstKey {

  /** A row's place in the repair's order; no two rows have the same kid. */
  datatype Stamp = Stamp(createdAt: int, kid: int)

  predicate Less(a: Stamp, b: Stamp) {
    a.createdAt < b.createdAt || (a.createdAt == b.createdAt && a.kid < b.kid)
  }

  datatype Phase =
    | Checking                                // about to look for rows
    | Generating                              // found none
    | Storing(stamp: Stamp)                   // has taken its time stamp, about to write its row
    | Refused                                 // its write failed, about to look again
    | Reading                                 // wrote its row, about to read every first key
    | Repairing(extras: set<nat>, mine: bool) // deleting these; `mine`: its own row was the least
    | Done(stored: bool)
    | Failed
    | Crashed

  /**
   * `stamps`: the rows ever written, by writer; `table`: those in the table now; `indexed`: the
   * table has the UNIQUE index.
   */
  datatype State = State(indexed: bool, phases: map<nat, Phase>, stamps: map<nat, Stamp>, table: set<nat>, now: int)

  const LOAD_LIMIT := 50

  predicate WellFormed(s: State) {
    s.table <= s.stamps.Keys <= s.phases.Keys
  }

  /** A read returns the newest rows, up to the limit. */
  predicate Newest(s: State, read: set<nat>)
    requires WellFormed(s)
  {
    && read <= s.table
    && (read == s.table || |read| == LOAD_LIMIT)
    && forall r, q :: r in read && q in s.table - read ==> s.stamps[q].createdAt <= s.stamps[r].createdAt
  }

  predicate IsLeast(stamps: map<nat, Stamp>, rows: set<nat>, r: nat)
    requires rows <= stamps.Keys
  {
    r in rows && forall q :: q in rows && q != r ==> Less(stamps[r], stamps[q])
  }

  function To(s: State, w: nat, p: Phase): State { s.(phases := s.phases[w := p]) }

  // ---- Steps ------------------------------------------------------------------------------

  /** What a writer may do next. `kid`, `read`, `row`: the fresh id, the rows read, the row picked. */
  datatype Choice =
    | FindNone
    | FindRows
    | TakeStamp(kid: int)
    | Store
    | StoreFails
    | LookAgain
    | ReadFirsts(read: set<nat>, least: nat)
    | DeleteOne(row: nat)
    | Finish

  predicate Enabled(s: State, w: nat, c: Choice)
    requires WellFormed(s) && w in s.phases
  {
    var phase := s.phases[w];
    match c
    // A cached read may be old, and finds rows only if some were ever written.
    case FindNone => phase.Checking? && s.table == {}
    case FindRows => phase.Checking? && s.stamps != map[]
    // The stamp is taken after generating the key and before writing the row; kids never repeat.
    case TakeStamp(kid) => phase.Generating?
    case Store =>
      && phase.Storing? && (s.indexed ==> s.table == {})
      && forall q :: q in s.stamps ==> s.stamps[q].kid != phase.stamp.kid
    // The UNIQUE index refuses a second active row; any write can fail for another reason.
    case StoreFails => phase.Storing?
    case LookAgain => phase.Refused?
    case ReadFirsts(read, least) => phase.Reading? && Newest(s, read) && (|read| > 1 ==> IsLeast(s.stamps, read, least))
    case DeleteOne(row) => phase.Repairing? && row in phase.extras
    case Finish => phase.Repairing? && phase.extras == {}
  }

  function Act(s: State, w: nat, c: Choice): State
    requires WellFormed(s) && w in s.phases && Enabled(s, w, c)
  {
    var phase := s.phases[w];
    match c
    case FindNone => To(s, w, Generating)
    case FindRows => To(s, w, Done(false))
    case TakeStamp(kid) => To(s, w, Storing(Stamp(s.now, kid)))
    case Store => To(s, w, Reading).(stamps := s.stamps[w := phase.stamp], table := s.table + {w})
    case StoreFails => To(s, w, Refused)
    case LookAgain => To(s, w, if s.table != {} then Done(false) else Failed)
    case ReadFirsts(read, least) =>
      To(s, w, if |read| > 1 then Repairing(read - {least}, least == w) else Done(true))
    case DeleteOne(row) => To(s, w, Repairing(phase.extras - {row}, phase.mine)).(table := s.table - {row})
    case Finish => To(s, w, Done(phase.mine))
  }

  /** One event: time passes, a writer acts, or a writer is lost. */
  datatype Event = Tick(ms: nat) | Acts(writer: nat, choice: Choice) | Lost(writer: nat)

  predicate Possible(s: State, e: Event) {
    && WellFormed(s)
    && match e
       case Tick(_) => true
       case Acts(w, c) => w in s.phases && Enabled(s, w, c)
       case Lost(w) => w in s.phases
  }

  function Step(s: State, e: Event): State
    requires Possible(s, e)
  {
    match e
    case Tick(ms) => s.(now := s.now + ms)
    case Acts(w, c) => Act(s, w, c)
    case Lost(w) => To(s, w, Crashed)
  }

  /** Every writer starts with a look at an empty table; at most as many writers as a read returns rows. */
  ghost predicate Initial(s: State) {
    && s.stamps == map[] && s.table == {}
    && |s.phases| <= LOAD_LIMIT
    && forall w :: w in s.phases ==> s.phases[w].Checking?
  }

  ghost predicate IsRun(run: seq<State>, es: seq<Event>) {
    && |run| == |es| + 1
    && Initial(run[0])
    && forall i :: 0 <= i < |es| ==> Possible(run[i], es[i]) && run[i + 1] == Step(run[i], es[i])
  }

  // ---- What every step keeps ------------------------------------------------------------------

  /** `l`: the least row ever written (any number while none was). */
  ghost predicate Inv(s: State, l: nat) {
    && WellFormed(s)
    && |s.phases| <= LOAD_LIMIT
    && (forall a, b :: a in s.stamps && b in s.stamps && a != b ==> s.stamps[a].kid != s.stamps[b].kid)
    && (s.stamps != map[] ==> IsLeast(s.stamps, s.stamps.Keys, l) && l in s.table)
    && (forall w :: w in s.stamps ==> s.phases[w].Reading? || s.phases[w].Repairing? || s.phases[w].Done? || s.phases[w].Crashed?)
    && (forall w, x :: w in s.phases && s.phases[w].Repairing? && x in s.phases[w].extras ==>
          x in s.stamps && Less(s.stamps[l], s.stamps[x]))
    && (forall w :: w in s.phases && (s.phases[w].Repairing? || s.phases[w].Reading? || s.phases[w].Done?) ==> s.stamps != map[])
    && (s.indexed ==> forall a, b :: a in s.stamps && b in s.stamps ==> a == b)
  }

  /** Some writer will still delete row `r`, or is about to read it. */
  ghost predicate Doomed(s: State, r: nat) {
    exists w :: w in s.phases && (s.phases[w].Reading? || (s.phases[w].Repairing? && r in s.phases[w].extras))
  }

  /** As long as no writer is lost, every row but the least is doomed. */
  ghost predicate Cleaning(s: State, l: nat) {
    forall r :: r in s.table && r != l ==> Doomed(s, r)
  }

  lemma ReadsWhole(s: State, read: set<nat>)
    requires WellFormed(s) && |s.phases| <= LOAD_LIMIT && Newest(s, read)
    ensures read == s.table
  {
    SubsetSize(s.table, s.phases.Keys);
    if read != s.table {
      SubsetSize(read, s.table);
      var x :| x in s.table - read;
      SubsetSize(read + {x}, s.table);
    }
  }

  lemma {:induction false} SubsetSize(a: set<nat>, b: set<nat>)
    requires a <= b
    ensures |a| <= |b|
    decreases |a|
  {
    if a != {} {
      var x :| x in a;
      SubsetSize(a - {x}, b - {x});
    }
  }

  lemma StoreKeeps(s: State, l: nat, w: nat) returns (m: nat)
    requires Inv(s, l) && w in s.phases && Enabled(s, w, Store)
    ensures Inv(Act(s, w, Store), m)
  {
    hide Doomed;
    m := if s.stamps == map[] || Less(s.phases[w].stamp, s.stamps[l]) then w else l;
    var t := Act(s, w, Store);
    assert w !in s.stamps;
    forall q | q in t.stamps && q != m ensures Less(t.stamps[m], t.stamps[q]) {
      assert q == w || q in s.stamps;
    }
    forall v, x | v in t.phases && t.phases[v].Repairing? && x in t.phases[v].extras
      ensures x in t.stamps && Less(t.stamps[m], t.stamps[x])
    {
      assert s.phases[v] == t.phases[v];
    }
  }

  lemma LeastIsUnique(stamps: map<nat, Stamp>, rows: set<nat>, a: nat, b: nat)
    requires rows <= stamps.Keys && IsLeast(stamps, rows, a)
    requires b in rows && IsLeast(stamps, stamps.Keys, b)
    ensures a == b
  {}

  lemma ReadKeeps(s: State, l: nat, w: nat, read: set<nat>, least: nat)
    requires Inv(s, l) && w in s.phases && Enabled(s, w, ReadFirsts(read, least))
    ensures Inv(Act(s, w, ReadFirsts(read, least)), l)
    ensures read == s.table && (|read| > 1 ==> least == l)
  {
    ReadsWhole(s, read);
    var t := Act(s, w, ReadFirsts(read, least));
    if |read| > 1 { LeastIsUnique(s.stamps, read, least, l); }
    forall v, x | v in t.phases && t.phases[v].Repairing? && x in t.phases[v].extras
      ensures x in t.stamps && Less(t.stamps[l], t.stamps[x])
    {
      if v == w { assert x in read && x != l; } else { assert s.phases[v] == t.phases[v]; }
    }
  }

  /** Any other step: the rows written stay as they are, and only a row beaten by the least one goes. */
  lemma OtherKeeps(s: State, l: nat, w: nat, p: Phase, table: set<nat>)
    requires Inv(s, l) && w in s.phases && table <= s.table && (l in s.table ==> l in table)
    requires w in s.stamps ==> p.Repairing? || p.Done? || p.Crashed?
    requires p.Done? ==> s.stamps != map[]
    requires p.Repairing? ==> s.phases[w].Repairing? && p.extras <= s.phases[w].extras
    requires !p.Reading?
    ensures Inv(To(s, w, p).(table := table), l)
  {
    var t := To(s, w, p).(table := table);
    forall v, x | v in t.phases && t.phases[v].Repairing? && x in t.phases[v].extras
      ensures x in t.stamps && Less(t.stamps[l], t.stamps[x])
    {
      assert x in s.phases[v].extras;
    }
  }

  lemma StepKeeps(s: State, l: nat, e: Event) returns (m: nat)
    requires Inv(s, l) && Possible(s, e)
    ensures Inv(Step(s, e), m)
    ensures !(e.Acts? && e.choice.Store?) ==> m == l
  {
    m := l;
    match e {
      case Tick(_) =>
      case Lost(w) => OtherKeeps(s, l, w, Crashed, s.table);
      case Acts(w, c) =>
        if c.Store? {
          m := StoreKeeps(s, l, w);
        } else if c.ReadFirsts? {
          ReadKeeps(s, l, w, c.read, c.least);
        } else {
          OtherKeeps(s, l, w, Act(s, w, c).phases[w], Act(s, w, c).table);
        }
    }
  }

  lemma CleaningKept(s: State, l: nat, e: Event, m: nat)
    requires Inv(s, l) && Cleaning(s, l) && Possible(s, e) && !e.Lost?
    requires Inv(Step(s, e), m) && (!(e.Acts? && e.choice.Store?) ==> m == l)
    ensures Cleaning(Step(s, e), m)
  {
    hide Inv;
    var t := Step(s, e);
    forall r | r in t.table && r != m ensures Doomed(t, r) {
      if e.Tick? {
        assert Doomed(s, r);
      } else {
        var w, c := e.writer, e.choice;
        if c.Store? {
          assert t.phases[w].Reading?;
        } else {
          var v :| v in s.phases && (s.phases[v].Reading? || (s.phases[v].Repairing? && r in s.phases[v].extras));
          if c.ReadFirsts? { ReadKeeps(s, l, w, c.read, c.least); TwoOrMore(s.table, r, l); }
          assert v != w ==> t.phases[v] == s.phases[v];
          assert v in t.phases && (t.phases[v].Reading? || (t.phases[v].Repairing? && r in t.phases[v].extras));
        }
      }
    }
  }

  lemma TwoOrMore(rows: set<nat>, a: nat, b: nat)
    requires a in rows && b in rows && a != b
    ensures |rows| > 1
  {
    SubsetSize({a, b}, rows);
  }

  // ---- Runs -----------------------------------------------------------------------------------

  lemma {:induction false} RunKeeps(run: seq<State>, es: seq<Event>) returns (l: nat)
    requires IsRun(run, es)
    ensures Inv(run[|es|], l)
    ensures (forall i :: 0 <= i < |es| ==> !es[i].Lost?) ==> Cleaning(run[|es|], l)
    decreases |es|
  {
    if es == [] {
      l := 0;
    } else {
      var n := |es| - 1;
      l := RunKeeps(run[..|es|], es[..n]);
      var m := StepKeeps(run[n], l, es[n]);
      if forall i :: 0 <= i < |es| ==> !es[i].Lost? { CleaningKept(run[n], l, es[n], m); }
      l := m;
    }
  }

  /**
   * Whatever is lost on the way: at every moment of every run, of all the rows ever written the
   * least by (createdAt, kid) is in the table. So it is never deleted.
   */
  lemma LeastSurvives(run: seq<State>, es: seq<Event>, n: nat)
    requires IsRun(run, es) && n <= |es| && run[n].stamps != map[]
    ensures WellFormed(run[n])
    ensures exists l: nat :: IsLeast(run[n].stamps, run[n].stamps.Keys, l) && l in run[n].table
  {
    var l := RunKeeps(run[..n + 1], es[..n]);
  }

  /**
   * With no writer lost, once every writer has finished (or failed) and one of them has found or
   * stored a key, exactly one first key is left: the least ever written.
   */
  lemma OneKeyIsLeft(run: seq<State>, es: seq<Event>)
    requires IsRun(run, es) && forall i :: 0 <= i < |es| ==> !es[i].Lost?
    requires var end := run[|es|];
      && (forall w :: w in end.phases ==> end.phases[w].Done? || end.phases[w].Failed?)
      && (exists w :: w in end.phases && end.phases[w].Done?)
    ensures var end := run[|es|];
      WellFormed(end) && exists l: nat :: IsLeast(end.stamps, end.stamps.Keys, l) && end.table == {l}
  {
    var l := RunKeeps(run, es);
    var end := run[|es|];
    assert forall r :: r in end.table && r != l ==> Doomed(end, r);
    assert end.table == {l};
  }

  /** With the UNIQUE index, at most one first key is ever written, whatever is lost on the way. */
  lemma IndexedWritesOne(run: seq<State>, es: seq<Event>)
    requires IsRun(run, es) && run[|es|].indexed
    ensures |run[|es|].stamps| <= 1
  {
    var l := RunKeeps(run, es);
    var keys := run[|es|].stamps.Keys;
    if keys != {} {
      var a :| a in keys;
      assert keys == {a};
    }
    assert |run[|es|].stamps| == |keys|;
  }

  lemma Extend(run: seq<State>, es: seq<Event>, e: Event)
    requires IsRun(run, es) && Possible(run[|es|], e)
    ensures IsRun(run + [Step(run[|es|], e)], es + [e])
  {}

  const EARLY := Stamp(0, 1)
  const LATE := Stamp(5, 0)

  /** Writer 1 takes its stamp; writer 0 takes a later one, stores its row and is told so. */
  lemma Overtaken() returns (run: seq<State>, es: seq<Event>)
    ensures IsRun(run, es)
    ensures run[|es|] == State(false, map[0 := Done(true), 1 := Storing(EARLY)], map[0 := LATE], {0}, 5)
  {
    var s := State(false, map[0 := Checking, 1 := Checking], map[], {}, 0);
    SubsetSize(s.phases.Keys, {0, 1});
    run, es := [s], [];
    Extend(run, es, Acts(0, FindNone));
    run, es := run + [Step(s, Acts(0, FindNone))], es + [Acts(0, FindNone)];
    s := run[|es|];
    Extend(run, es, Acts(1, FindNone));
    run, es := run + [Step(s, Acts(1, FindNone))], es + [Acts(1, FindNone)];
    s := run[|es|];
    Extend(run, es, Acts(1, TakeStamp(1)));
    run, es := run + [Step(s, Acts(1, TakeStamp(1)))], es + [Acts(1, TakeStamp(1))];
    s := run[|es|];
    Extend(run, es, Tick(5));
    run, es := run + [Step(s, Tick(5))], es + [Tick(5)];
    s := run[|es|];
    assert s == State(false, map[0 := Generating, 1 := Storing(EARLY)], map[], {}, 5);
    run, es := OvertakenStores(run, es);
  }

  lemma OvertakenStores(run: seq<State>, es: seq<Event>) returns (run': seq<State>, es': seq<Event>)
    requires IsRun(run, es)
    requires run[|es|] == State(false, map[0 := Generating, 1 := Storing(EARLY)], map[], {}, 5)
    ensures IsRun(run', es')
    ensures run'[|es'|] == State(false, map[0 := Done(true), 1 := Storing(EARLY)], map[0 := LATE], {0}, 5)
  {
    var s := run[|es|];
    Extend(run, es, Acts(0, TakeStamp(0)));
    run', es' := run + [Step(s, Acts(0, TakeStamp(0)))], es + [Acts(0, TakeStamp(0))];
    s := run'[|es'|];
    Extend(run', es', Acts(0, Store));
    run', es' := run' + [Step(s, Acts(0, Store))], es' + [Acts(0, Store)];
    s := run'[|es'|];
    assert s.table == {0};
    Extend(run', es', Acts(0, ReadFirsts({0}, 0)));
    run', es' := run' + [Step(s, Acts(0, ReadFirsts({0}, 0)))], es' + [Acts(0, ReadFirsts({0}, 0))];
    assert run'[|es'|].phases == map[0 := Done(true), 1 := Storing(EARLY)];
  }

  /**
   * A writer told that it stored the key may still lose its row: writer 1, which took the earlier
   * stamp, writes later.
   */
  lemma StoredMayBeDeleted() returns (run: seq<State>, es: seq<Event>)
    ensures IsRun(run, es) && !run[|es|].indexed
    ensures 0 in run[|es|].phases && run[|es|].phases[0] == Done(true) && 0 in run[|es|].stamps && 0 !in run[|es|].table
  {
    run, es := Overtaken();
    var s := run[|es|];
    Extend(run, es, Acts(1, Store));
    run, es := run + [Step(s, Acts(1, Store))], es + [Acts(1, Store)];
    s := run[|es|];
    assert s.table == {0, 1} && |{0, 1}| == 2;
    assert IsLeast(s.stamps, {0, 1}, 1);
    Extend(run, es, Acts(1, ReadFirsts({0, 1}, 1)));
    run, es := run + [Step(s, Acts(1, ReadFirsts({0, 1}, 1)))], es + [Acts(1, ReadFirsts({0, 1}, 1))];
    s := run[|es|];
    assert s.phases[1] == Repairing({0, 1} - {1}, true);
    Extend(run, es, Acts(1, DeleteOne(0)));
    run, es := run + [Step(s, Acts(1, DeleteOne(0)))], es + [Acts(1, DeleteOne(0))];
  }
}
