/** What each writer of a first key did and saw before it is told what it is told, over whole runs. */
module FirstKeyAnswers {
  import opened FirstKey

  /** What writer `w` did, and what was there, when it came to phase `p`. */
  ghost predicate CameTo(s: State, e: Event, w: nat, p: Phase) {
    && Possible(s, e) && e.Acts? && e.writer == w
    && var c, was := e.choice, s.phases[w];
    match p
    case Generating => c == FindNone && was.Checking? && s.table == {}
    case Storing(stamp) => c.TakeStamp? && was.Generating? && stamp == Stamp(s.now, c.kid)
    case Reading => c == Store && was.Storing? && (s.indexed ==> s.table == {})
    case Refused => c == StoreFails && was.Storing?
    case Repairing(extras, mine) =>
      || (c.ReadFirsts? && was.Reading? && c.read <= s.table && |c.read| > 1 && IsLeast(s.stamps, c.read, c.least)
          && extras == c.read - {c.least} && (mine <==> c.least == w))
      || (c.DeleteOne? && was.Repairing? && was.mine == mine && c.row in was.extras && extras == was.extras - {c.row})
    case Done(stored) =>
      || (c == FindRows && was.Checking? && !stored && s.stamps != map[])
      || (c == LookAgain && was.Refused? && !stored && s.table != {})
      || (c.ReadFirsts? && was.Reading? && stored && |c.read| <= 1)
      || (c == Finish && was == Repairing({}, stored))
    case Failed => c == LookAgain && was.Refused? && s.table == {}
    case _ => false
  }

  lemma StepPhase(s: State, e: Event, w: nat)
    requires Possible(s, e) && w in s.phases
    ensures w in Step(s, e).phases
    ensures Step(s, e).phases[w] == s.phases[w] || Step(s, e).phases[w].Crashed? || CameTo(s, e, w, Step(s, e).phases[w])
    ensures e.Acts? && e.writer == w ==> CameTo(s, e, w, Step(s, e).phases[w])
  {}

  lemma {:induction false} WriterStays(run: seq<State>, es: seq<Event>, n: nat, w: nat)
    requires IsRun(run, es) && n <= |es|
    ensures w in run[n].phases <==> w in run[0].phases
  {
    if n > 0 { WriterStays(run, es, n - 1, w); }
  }

  /** A writer is where it is since a step of its own. */
  lemma {:induction false} CameBy(run: seq<State>, es: seq<Event>, n: nat, w: nat) returns (k: nat)
    requires IsRun(run, es) && n <= |es| && w in run[n].phases && !run[n].phases[w].Checking? && !run[n].phases[w].Crashed?
    ensures k < n && w in run[k].phases && CameTo(run[k], es[k], w, run[n].phases[w])
    decreases n
  {
    hide Step, CameTo, Possible, Enabled;
    WriterStays(run, es, n, w);
    assert n > 0 && run[n] == Step(run[n - 1], es[n - 1]);
    WriterStays(run, es, n - 1, w);
    StepPhase(run[n - 1], es[n - 1], w);
    if CameTo(run[n - 1], es[n - 1], w, run[n].phases[w]) { k := n - 1; } else { k := CameBy(run, es, n - 1, w); }
  }

  /**
   * A writer that is about to store its row found none at an earlier moment, and took its time stamp
   * after that.
   */
  lemma LookedBeforeStoring(run: seq<State>, es: seq<Event>, n: nat, w: nat) returns (i: nat, j: nat)
    requires IsRun(run, es) && n <= |es| && w in run[n].phases && run[n].phases[w].Storing?
    ensures i < j < n && es[i] == Acts(w, FindNone) && run[i].table == {}
    ensures es[j].Acts? && es[j].writer == w && es[j].choice.TakeStamp? && run[n].phases[w].stamp == Stamp(run[j].now, es[j].choice.kid)
  {
    j := CameBy(run, es, n, w);
    i := CameBy(run, es, j, w);
  }

  /** It read every first key there was, and either saw no other or its own row was the least of them. */
  ghost predicate SawItselfFirst(s: State, e: Event, w: nat) {
    && Possible(s, e) && e.Acts? && e.writer == w && e.choice.ReadFirsts? && e.choice.read <= s.table
    && (|e.choice.read| <= 1 || IsLeast(s.stamps, e.choice.read, w))
  }

  ghost predicate SawAnotherFirst(s: State, e: Event, w: nat) {
    && Possible(s, e) && e.Acts? && e.writer == w && e.choice.ReadFirsts? && e.choice.read <= s.table
    && e.choice.least != w && IsLeast(s.stamps, e.choice.read, e.choice.least)
  }

  /** A writer under repair has seen what it was told by. */
  lemma {:induction false} RepairingSaw(run: seq<State>, es: seq<Event>, n: nat, w: nat) returns (k: nat)
    requires IsRun(run, es) && n <= |es| && w in run[n].phases && run[n].phases[w].Repairing?
    ensures k < n && w in run[k].phases && run[k].phases[w].Reading?
    ensures if run[n].phases[w].mine then SawItselfFirst(run[k], es[k], w) else SawAnotherFirst(run[k], es[k], w)
    decreases n
  {
    k := CameBy(run, es, n, w);
    if !es[k].choice.ReadFirsts? { k := RepairingSaw(run, es, k, w); }
  }

  /** A writer told `true` stored its row, and saw it as the only one or the least. */
  lemma ToldTrue(run: seq<State>, es: seq<Event>, n: nat, w: nat) returns (k: nat, j: nat)
    requires IsRun(run, es) && n <= |es| && w in run[n].phases && run[n].phases[w] == Done(true)
    ensures j < k < n && es[j] == Acts(w, Store) && SawItselfFirst(run[k], es[k], w)
  {
    k := CameBy(run, es, n, w);
    if !es[k].choice.ReadFirsts? { k := RepairingSaw(run, es, k, w); }
    j := CameBy(run, es, k, w);
  }

  /**
   * A writer told `false` was shown that there were rows, at its first look or after its write had failed;
   * or it stored its row, and saw another one before it in the order.
   */
  lemma ToldFalse(run: seq<State>, es: seq<Event>, n: nat, w: nat) returns (k: nat)
    requires IsRun(run, es) && n <= |es| && w in run[n].phases && run[n].phases[w] == Done(false)
    ensures k < n && w in run[k].phases
    ensures
      || (es[k] == Acts(w, FindRows) && run[k].phases[w].Checking? && run[k].stamps != map[])
      || (es[k] == Acts(w, LookAgain) && run[k].phases[w].Refused? && run[k].table != {})
      || (run[k].phases[w].Reading? && SawAnotherFirst(run[k], es[k], w))
  {
    k := CameBy(run, es, n, w);
    if es[k].choice.Finish? { k := RepairingSaw(run, es, k, w); }
  }

  /** A writer fails only where its write failed and it then found no row. */
  lemma FailedThen(run: seq<State>, es: seq<Event>, n: nat, w: nat) returns (k: nat, j: nat)
    requires IsRun(run, es) && n <= |es| && w in run[n].phases && run[n].phases[w].Failed?
    ensures j < k < n && es[j] == Acts(w, StoreFails) && es[k] == Acts(w, LookAgain) && run[k].table == {}
  {
    k := CameBy(run, es, n, w);
    j := CameBy(run, es, k, w);
  }

  /** The least row ever written is not one that any writer deletes; every row that is gone was deleted by one that saw it beaten. */
  lemma DeletedWasBeaten(run: seq<State>, es: seq<Event>, n: nat) returns (k: nat)
    requires IsRun(run, es) && n < |es| && es[n].Acts? && es[n].choice.DeleteOne?
    ensures k < n && es[k].Acts? && es[k].writer == es[n].writer && es[k].choice.ReadFirsts? && Possible(run[k], es[k])
    ensures es[n].choice.row in run[k].table && es[n].choice.row in run[k].stamps && es[k].choice.least in run[k].stamps
    ensures Less(run[k].stamps[es[k].choice.least], run[k].stamps[es[n].choice.row])
  {
    k := ExtrasWereRead(run, es, n, es[n].writer, es[n].choice.row);
  }

  lemma {:induction false} ExtrasWereRead(run: seq<State>, es: seq<Event>, n: nat, w: nat, row: nat) returns (k: nat)
    requires IsRun(run, es) && n <= |es| && w in run[n].phases && run[n].phases[w].Repairing? && row in run[n].phases[w].extras
    ensures k < n && Possible(run[k], es[k]) && es[k].Acts? && es[k].writer == w && es[k].choice.ReadFirsts?
    ensures row in run[k].table && row in run[k].stamps && es[k].choice.least in run[k].stamps
    ensures Less(run[k].stamps[es[k].choice.least], run[k].stamps[row])
    decreases n
  {
    k := CameBy(run, es, n, w);
    if !es[k].choice.ReadFirsts? { k := ExtrasWereRead(run, es, k, w, row); }
  }
}
