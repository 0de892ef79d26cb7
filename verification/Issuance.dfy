/**
What the identity provider decides about one validated AuthnRequest: answer it, refuse it, or send
the user to sign in (again) and resume later. Everything the host and the database say along the
way is a field of `Verdicts`.
*/
module Issuance {
  import opened Optional

  type Class = string

  datatype Comparison = Exact | Minimum | Maximum | Better

  datatype Context = Context(comparison: Comparison, classRefs: seq<Class>, hasDeclRefs: bool)

  /** An AuthnRequest as the SP sent it. `spId` and `id` are its replay key. Times in milliseconds. */
  datatype Message = Message(
    spId: string, id: string, issueInstant: int,
    forceAuthn: bool, isPassive: bool, context: Option<Context>, tenant: Option<string>)

  /** The request as later steps carry it: a re-login may force authentication, from a later time. */
  datatype Request = Request(message: Message, forceAuthn: bool, createdAt: int)

  datatype Session = Session(id: nat, createdAt: int)

  datatype Authorization = Allow | Deny | Reauthenticate

  datatype Verdicts = Verdicts(
    spThere: bool,                     // the SP still exists, with this ACS URL
    identity: Option<Option<string>>,  // whose identity answers: none, the root (None) or a tenant
    principalRefused: bool,            // account policy, organization rule
    authorization: Authorization,
    levels: Option<seq<Class>>,        // the host's authentication levels, weakest first
    achieved: Option<Class>,           // what the host says this session achieved
    unusable: bool,                    // NameID or attributes cannot be issued
    subjectMatches: bool,
    recorded: bool)                    // the logout participant could be recorded

  datatype Outcome =
    | Assertion(session: Session, achieved: Option<Class>, tenant: Option<string>)
    | NoPassive
    | NoAuthnContext
    | UnknownPrincipal
    | PolicyStatus                     // a NameID format or class no session could satisfy
    | Page                             // an error page: no Response
    | Park(request: Request)

  /** Does this outcome send the SP a Response? */
  predicate IsResponse(o: Outcome) {
    o.Assertion? || o.NoPassive? || o.NoAuthnContext? || o.UnknownPrincipal? || o.PolicyStatus?
  }

  // ---- Authentication levels ----------------------------------------------------------------

  function IndexOf(levels: seq<Class>, c: Class): (i: int)
    ensures -1 <= i < |levels|
    ensures i >= 0 ==> levels[i] == c && c !in levels[..i]
    ensures i < 0 <==> c !in levels
  {
    if levels == [] then -1
    else if levels[0] == c then 0
    else
      assert levels == [levels[0]] + levels[1..];
      var i := IndexOf(levels[1..], c);
      assert i >= 0 ==> levels[..i + 1] == [levels[0]] + levels[1..][..i];
      if i < 0 then -1 else i + 1
  }

  /** Does a session at level `a` meet one class the SP listed? */
  predicate Meets(comparison: Comparison, a: nat, achieved: Class, listed: Class, levels: seq<Class>) {
    var i := IndexOf(levels, listed);
    if i < 0 then comparison != Better && listed == achieved
    else match comparison
      case Minimum => a >= i
      case Better => a > i
      case _ => a <= i
  }

  predicate Satisfies(r: Context, achieved: Class, levels: seq<Class>) {
    if r.hasDeclRefs then false
    else if r.comparison == Exact then achieved in r.classRefs
    else
      var a := IndexOf(levels, achieved);
      if a < 0 then r.comparison != Better && achieved in r.classRefs
      else exists k :: 0 <= k < |r.classRefs| && Meets(r.comparison, a, achieved, r.classRefs[k], levels)
  }

  /** The weakest level that would satisfy the request. */
  function StepUpTarget(r: Context, levels: seq<Class>): Option<Class> {
    FirstSatisfying(r, levels, levels)
  }

  function FirstSatisfying(r: Context, candidates: seq<Class>, levels: seq<Class>): (c: Option<Class>)
    ensures c.Some? ==> c.value in candidates && Satisfies(r, c.value, levels)
    ensures c.None? <==> forall l :: l in candidates ==> !Satisfies(r, l, levels)
  {
    if candidates == [] then None
    else if Satisfies(r, candidates[0], levels) then Some(candidates[0])
    else
      assert candidates == [candidates[0]] + candidates[1..];
      FirstSatisfying(r, candidates[1..], levels)
  }

  ghost predicate Distinct(levels: seq<Class>) {
    forall i, j :: 0 <= i < j < |levels| ==> levels[i] != levels[j]
  }

  /**
   * What an SP's list asks of the level `levels[a]`, by where the listed classes stand: one at or below
   * it for a minimum, strictly below it for better, at or above it for a maximum. A class that is not
   * a level is only ever itself, and never better than anything.
   */
  lemma SatisfiedExactly(r: Context, levels: seq<Class>, a: nat)
    requires a < |levels| && levels[a] !in levels[..a]
    ensures r.comparison == Exact ==> (Satisfies(r, levels[a], levels) <==> !r.hasDeclRefs && levels[a] in r.classRefs)
    ensures r.comparison == Minimum ==> (Satisfies(r, levels[a], levels) <==> !r.hasDeclRefs && exists i :: 0 <= i <= a && levels[i] in r.classRefs)
    ensures r.comparison == Better ==> (Satisfies(r, levels[a], levels) <==> !r.hasDeclRefs && exists i :: 0 <= i < a && levels[i] in r.classRefs)
    ensures r.comparison == Maximum ==>
      (Satisfies(r, levels[a], levels) <==> !r.hasDeclRefs && exists i :: a <= i < |levels| && levels[i] in r.classRefs && levels[i] !in levels[..i])
  {
    IndexIs(levels, a);
    forall i | 0 <= i < |levels| && levels[i] !in levels[..i] ensures IndexOf(levels, levels[i]) == i { IndexIs(levels, i); }
  }

  lemma UnknownSatisfiesItself(r: Context, achieved: Class, levels: seq<Class>)
    requires achieved !in levels
    ensures Satisfies(r, achieved, levels) <==> !r.hasDeclRefs && r.comparison != Better && achieved in r.classRefs
  {}

  lemma {:induction false} IndexIs(levels: seq<Class>, a: nat)
    requires a < |levels| && levels[a] !in levels[..a]
    ensures IndexOf(levels, levels[a]) == a
  {
    if a > 0 {
      assert levels[..a][0] == levels[0] && levels[1..][a - 1] == levels[a];
      assert levels[1..][..a - 1] == levels[..a][1..];
      IndexIs(levels[1..], a - 1);
    }
  }

  /** A stronger session never fails a request for a minimum, or for better; nor a weaker one a maximum. */
  lemma LevelsAreOrdered(r: Context, levels: seq<Class>, weak: nat, strong: nat)
    requires Distinct(levels) && weak <= strong < |levels| && r.comparison != Exact
    ensures r.comparison != Maximum && Satisfies(r, levels[weak], levels) ==> Satisfies(r, levels[strong], levels)
    ensures r.comparison == Maximum && Satisfies(r, levels[strong], levels) ==> Satisfies(r, levels[weak], levels)
  {
    assert IndexOf(levels, levels[weak]) == weak && IndexOf(levels, levels[strong]) == strong;
    forall k | 0 <= k < |r.classRefs|
      ensures r.comparison != Maximum && Meets(r.comparison, weak, levels[weak], r.classRefs[k], levels) ==> Meets(r.comparison, strong, levels[strong], r.classRefs[k], levels)
      ensures r.comparison == Maximum && Meets(r.comparison, strong, levels[strong], r.classRefs[k], levels) ==> Meets(r.comparison, weak, levels[weak], r.classRefs[k], levels)
    {}
  }

  /** The login page is asked for no stronger level than the request needs. */
  lemma {:induction false} StepUpIsWeakest(r: Context, candidates: seq<Class>, levels: seq<Class>, i: nat)
    requires FirstSatisfying(r, candidates, levels).Some?
    requires i < |candidates| && Satisfies(r, candidates[i], levels)
    ensures exists j :: 0 <= j <= i && FirstSatisfying(r, candidates, levels) == Some(candidates[j])
    decreases |candidates|
  {
    if Satisfies(r, candidates[0], levels) {
    } else {
      StepUpIsWeakest(r, candidates[1..], levels, i - 1);
      var j :| 0 <= j <= i - 1 && FirstSatisfying(r, candidates[1..], levels) == Some(candidates[1..][j]);
      assert candidates[1..][j] == candidates[j + 1];
    }
  }

  // ---- Decisions ----------------------------------------------------------------------------

  /** A session made for this request already, which sending the user round again cannot improve. */
  predicate FreshFor(request: Request, session: Session) {
    request.forceAuthn && session.createdAt >= request.createdAt
  }

  function Again(request: Request, now: int): Request {
    request.(forceAuthn := true, createdAt := now)
  }

  function Issue(request: Request, session: Session, v: Verdicts, now: int): Outcome {
    if v.identity.None? || v.identity.value != request.message.tenant || v.principalRefused then Page
    else match v.authorization
      case Deny => Page
      case Reauthenticate =>
        if request.message.isPassive then NoPassive
        else if FreshFor(request, session) then Page
        else Park(Again(request, now))
      case Allow =>
        if v.levels.Some? && (v.achieved.None? || v.achieved.value !in v.levels.value) then Page
        else if v.levels.Some? && request.message.context.Some?
                && !Satisfies(request.message.context.value, v.achieved.value, v.levels.value) then
          StepUp(request, session, request.message.context.value, v.levels.value, now)
        else if v.unusable then Page
        else if !v.subjectMatches then UnknownPrincipal
        else if !v.recorded then Page
        else Assertion(session, if v.levels.Some? then v.achieved else None, v.identity.value)
  }

  function StepUp(request: Request, session: Session, asked: Context, levels: seq<Class>, now: int): Outcome {
    if StepUpTarget(asked, levels).None? || asked.comparison == Maximum then NoAuthnContext
    else if request.message.isPassive then NoPassive
    else if FreshFor(request, session) then NoAuthnContext
    else Park(Again(request, now))
  }

  /** A request that has just arrived (or re-entered): issue, refuse a passive one, or park it. */
  function Proceed(request: Request, session: Option<Session>, v: Verdicts, now: int): Outcome {
    if session.Some? && !request.forceAuthn then Issue(request, session.value, v, now)
    else if request.message.isPassive then NoPassive
    else Park(request)
  }

  /** A parked request whose token has been consumed, by a signed-in user. */
  function Resume(request: Request, session: Session, v: Verdicts, now: int): Outcome {
    if !v.spThere then Page
    else if request.forceAuthn && session.createdAt < request.createdAt then Page
    else Issue(request, session, v, now)
  }
}
