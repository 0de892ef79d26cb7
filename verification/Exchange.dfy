/**
Assertion exchange: whether this identity provider vouches for a presented Assertion, once. A record
written at issuance is consumed when the Assertion is presented, and compared with it field by field.

`issued` and `consumed` are the history of a run: verification never reads them.
*/
module Exchange {
  import opened Optional
  import opened XmlEscape
  import opened XmlMarkup
  import opened ResponseXml
  import opened ExchangeShape
  import opened ExchangeLimits

  datatype Record = Record(
    spId: string, tenantId: Option<string>, userId: string, sessionId: string,
    nameId: Text, nameIdFormat: Text, issuer: Text, notOnOrAfter: Text, authnInstant: Text, acr: Text)

  datatype Stored = Stored(record: Record, expiresAt: int)

  datatype Refusal =
    | Malformed | NotOurs | BadSignature | NotYetValid | Expired | NotExchangeable | WrongClient | AlreadyExchanged | AccountInactive

  datatype Outcome = Refused(code: Refusal) | Vouched(record: Record, fields: Fields)

  /** Instants and their text, in milliseconds. */
  datatype Calendar = Calendar(parse: Text -> Option<int>, format: int -> Text)

  /** An instant as issuance writes it: whole seconds. */
  predicate Whole(c: Calendar, t: Text) { c.parse(t).Some? && c.format(c.parse(t).value) == t }

  datatype Provider = Provider(id: string, tenantId: Option<string>, clientId: Option<string>)

  /** What configuration, keys and database say while one assertion is verified. */
  datatype World = World(
    identityOf: Text -> Option<Option<string>>,             // the root or an enabled tenant, by its entity ID
    providerOf: (Text, Option<string>) -> Option<Provider>, // an audience's SP in an identity's tenant
    signatureOk: bool,
    principalOk: bool)

  datatype State = State(
    now: int, skew: nat, records: map<Text, Stored>,
    issued: map<Text, Record>, consumed: set<Text>, vouched: seq<Text>)

  // ---- One verification ------------------------------------------------------------------------

  /** The children of an Assertion, with its signature or without. */
  function Parts(root: Forest): (r: Option<seq<Forest>>)
    requires root.Element?
    ensures r.Some? ==> |r.value| >= 4 && forall k :: 0 <= k < |r.value| ==> r.value[k].Element?
  {
    ExpectChildren(root, if IsSigned(root) then SIGNED_CHILDREN else UNSIGNED_CHILDREN, true)
  }

  /** The checks before the record is consumed; none of them changes anything. */
  function Precheck(c: Calendar, now: int, skew: nat, d: Document, w: World, clientId: string): (r: (Option<Refusal>, Option<Fields>))
    ensures r.0.None? ==> r.1.Some?
  {
    var root := d.root;
    if clientId == "" then (Some(WrongClient), None)
    else if !WithinLimits(d) || !IsAssertion(root) || Parts(root).None? then (Some(Malformed), None)
    else
      var issuerEl := Parts(root).value[0];
      var identity := w.identityOf(TextOf(issuerEl));
      if !ExpectAttributes(issuerEl, ["Format"]) then (Some(Malformed), None)
      else if !NamesEntity(issuerEl) || identity.None? then (Some(NotOurs), None)
      else if !IsSigned(root) || !w.signatureOk then (Some(BadSignature), None)
      else
        var f := CheckShape(root);
        if f.None? then (Some(Malformed), None)
        else (Window(c, now, skew, f.value, w, identity.value, clientId), f)
  }

  function Window(c: Calendar, now: int, skew: nat, f: Fields, w: World, tenant: Option<string>, clientId: string): Option<Refusal> {
    var from, end, end2, at := c.parse(f.notBefore), c.parse(f.notOnOrAfter), c.parse(f.confirmationEnd), c.parse(f.authnInstant);
    if from.None? || end.None? || end2.None? || at.None? then Some(Malformed)
    else if now < from.value - skew then Some(NotYetValid)
    else if now >= end.value + skew || now >= end2.value + skew then Some(Expired)
    else
      var sp := w.providerOf(f.audience, tenant);
      if sp.None? || sp.value.tenantId != tenant || sp.value.clientId.None? then Some(NotExchangeable)
      else if sp.value.clientId.value != clientId then Some(WrongClient)
      else None
  }

  /** The record and the presented Assertion agree. */
  predicate Matches(c: Calendar, r: Record, f: Fields, w: World)
    requires c.parse(f.notOnOrAfter).Some? && c.parse(f.authnInstant).Some? && w.identityOf(f.issuer).Some?
    requires w.providerOf(f.audience, w.identityOf(f.issuer).value).Some?
  {
    var tenant := w.identityOf(f.issuer).value;
    && r.spId == w.providerOf(f.audience, tenant).value.id && r.tenantId == tenant && r.issuer == f.issuer
    && r.nameId == f.nameId && r.nameIdFormat == f.nameIdFormat
    && r.notOnOrAfter == c.format(c.parse(f.notOnOrAfter).value) && r.authnInstant == c.format(c.parse(f.authnInstant).value)
    && r.acr == f.classRef
  }

  function Consumable(s: State, id: Text): Option<Record> {
    if id in s.records && s.now <= s.records[id].expiresAt then Some(s.records[id].record) else None
  }

  lemma PassedIsSound(c: Calendar, now: int, skew: nat, d: Document, w: World, clientId: string)
    requires Precheck(c, now, skew, d, w, clientId).0.None?
    ensures var f := Precheck(c, now, skew, d, w, clientId).1.value;
      && c.parse(f.notOnOrAfter).Some? && c.parse(f.authnInstant).Some? && now < c.parse(f.notOnOrAfter).value + skew
      && w.identityOf(f.issuer).Some? && w.providerOf(f.audience, w.identityOf(f.issuer).value).Some?
  {}

  function Verdict(c: Calendar, s: State, d: Document, w: World, clientId: string): (Outcome, State) {
    var pre := Precheck(c, s.now, s.skew, d, w, clientId);
    if pre.0.Some? then (Refused(pre.0.value), s)
    else
      var f := pre.1.value;
      var r := Consumable(s, f.assertionId);
      if r.None? then (Refused(AlreadyExchanged), s)
      else
        var used := s.(records := s.records - {f.assertionId}, consumed := s.consumed + {f.assertionId});
        PassedIsSound(c, s.now, s.skew, d, w, clientId);
        if !Matches(c, r.value, f, w) then (Refused(NotOurs), used)
        else if !w.principalOk then (Refused(AccountInactive), used)
        else (Vouched(r.value, f), used.(vouched := s.vouched + [f.assertionId]))
  }

  // ---- Runs ------------------------------------------------------------------------------------

  datatype Event =
    | Tick(ms: nat)
    | Issue(id: Text, record: Record)
    | Present(document: Document, world: World, clientId: string)
    | Sweep

  function Expiry(c: Calendar, s: State, r: Record): int
    requires c.parse(r.notOnOrAfter).Some?
  {
    c.parse(r.notOnOrAfter).value + s.skew
  }

  /** Assertion IDs are 160 random bits: no two assertions have the same. */
  predicate Possible(c: Calendar, s: State, e: Event) {
    e.Issue? ==> e.id !in s.issued && Whole(c, e.record.notOnOrAfter)
  }

  function Step(c: Calendar, s: State, e: Event): State
    requires Possible(c, s, e)
  {
    match e
    case Tick(ms) => s.(now := s.now + ms)
    case Issue(id, r) => s.(records := s.records[id := Stored(r, Expiry(c, s, r))], issued := s.issued[id := r])
    case Present(d, w, clientId) => Verdict(c, s, d, w, clientId).1
    case Sweep => s.(records := map id | id in s.records && s.records[id].expiresAt >= s.now :: s.records[id])
  }

  ghost predicate IsRun(c: Calendar, run: seq<State>, es: seq<Event>) {
    && |run| == |es| + 1
    && run[0].records == map[] && run[0].issued == map[] && run[0].consumed == {} && run[0].vouched == []
    && forall i :: 0 <= i < |es| ==> Possible(c, run[i], es[i]) && run[i + 1] == Step(c, run[i], es[i])
  }

  /** A recorded Assertion not consumed yet has its record for as long as it may be accepted. */
  ghost predicate Kept(c: Calendar, s: State, id: Text)
    requires id in s.issued
  {
    && Whole(c, s.issued[id].notOnOrAfter)
    && (id !in s.consumed && s.now <= Expiry(c, s, s.issued[id]) ==>
          id in s.records && s.records[id] == Stored(s.issued[id], Expiry(c, s, s.issued[id])))
  }

  ghost predicate Inv(c: Calendar, s: State) {
    && (forall id :: id in s.issued ==> Kept(c, s, id))
    && (forall id :: id in s.records ==> id in s.issued && id !in s.consumed && Whole(c, s.issued[id].notOnOrAfter) && s.records[id] == Stored(s.issued[id], Expiry(c, s, s.issued[id])))
    && s.consumed <= s.issued.Keys
    && (forall i :: 0 <= i < |s.vouched| ==> s.vouched[i] in s.consumed)
    && (forall i, j :: 0 <= i < j < |s.vouched| ==> s.vouched[i] != s.vouched[j])
  }

  function Used(s: State, id: Text): State { s.(records := s.records - {id}, consumed := s.consumed + {id}) }

  /** A presentation leaves everything as it was, or uses up one record there was. */
  lemma VerdictUses(c: Calendar, s: State, d: Document, w: World, clientId: string) returns (id: Text)
    ensures var s' := Verdict(c, s, d, w, clientId).1;
      s' == s || (id in s.records && (s' == Used(s, id) || s' == Used(s, id).(vouched := s.vouched + [id])))
  {
    var pre := Precheck(c, s.now, s.skew, d, w, clientId);
    id := if pre.1.Some? then pre.1.value.assertionId else [];
  }

  lemma UsedKeeps(c: Calendar, s: State, id: Text)
    requires Inv(c, s) && id in s.records
    ensures Inv(c, Used(s, id)) && Inv(c, Used(s, id).(vouched := s.vouched + [id]))
  {
    var u, v := Used(s, id), Used(s, id).(vouched := s.vouched + [id]);
    forall k | k in s.issued ensures Kept(c, u, k) && Kept(c, v, k) { assert Kept(c, s, k); }
    assert forall k :: 0 <= k < |s.vouched| ==> s.vouched[k] in s.consumed;
  }

  lemma PresentKeeps(c: Calendar, s: State, d: Document, w: World, clientId: string)
    requires Inv(c, s)
    ensures Inv(c, Verdict(c, s, d, w, clientId).1)
  {
    var id := VerdictUses(c, s, d, w, clientId);
    if id in s.records { UsedKeeps(c, s, id); }
  }

  lemma StepKeeps(c: Calendar, s: State, e: Event)
    requires Inv(c, s) && Possible(c, s, e)
    ensures Inv(c, Step(c, s, e))
  {
    if e.Present? {
      PresentKeeps(c, s, e.document, e.world, e.clientId);
    } else {
      var s' := Step(c, s, e);
      forall id | id in s'.issued ensures Kept(c, s', id) { if id in s.issued { assert Kept(c, s, id); } }
    }
  }

  lemma {:induction false} RunKeeps(c: Calendar, run: seq<State>, es: seq<Event>, i: nat)
    requires IsRun(c, run, es) && i <= |es|
    ensures Inv(c, run[i])
  {
    if i > 0 {
      RunKeeps(c, run, es, i - 1);
      StepKeeps(c, run[i - 1], es[i - 1]);
    }
  }

  /** Each Assertion is vouched for at most once, on any run. */
  lemma VouchedOnce(c: Calendar, run: seq<State>, es: seq<Event>, i: nat, j: nat)
    requires IsRun(c, run, es) && i < |run[|es|].vouched| && j < |run[|es|].vouched|
    requires run[|es|].vouched[i] == run[|es|].vouched[j]
    ensures i == j
  {
    RunKeeps(c, run, es, |es|);
  }

  /** While the time check still accepts an Assertion, the sweep has not taken its record. */
  lemma RecordOutlivesTheWindow(c: Calendar, run: seq<State>, es: seq<Event>, id: Text)
    requires IsRun(c, run, es) && id in run[|es|].issued && id !in run[|es|].consumed
    ensures var s := run[|es|]; c.parse(s.issued[id].notOnOrAfter).Some?
    ensures var s := run[|es|]; s.now < c.parse(s.issued[id].notOnOrAfter).value + s.skew ==> Consumable(s, id) == Some(s.issued[id])
  {
    RunKeeps(c, run, es, |es|);
    assert Kept(c, run[|es|], id);
  }

  // ---- Issued, and exchanged -------------------------------------------------------------------

  /** The record issuance writes with the Assertion. */
  function RecordOf(i: Input, spId: string, tenantId: Option<string>, userId: string, sessionId: string): Record {
    Record(spId, tenantId, userId, sessionId, i.nameId, i.nameIdFormat, i.issuer, i.notOnOrAfter, i.authnInstant, i.classRef)
  }

  /** The configuration strings an Assertion repeats that XML carries unchanged. */
  ghost predicate CarriedWhole(i: Input) {
    && !HasNonXmlChars(i.issuer) && !HasNonXmlChars(i.nameId) && !HasNonXmlChars(i.classRef)
    && !HasNonXmlChars(i.nameIdFormat) && forall k :: 0 <= k < |i.nameIdFormat| ==> i.nameIdFormat[k] != 0x9 && i.nameIdFormat[k] != LF
  }

  lemma CleanedIff(t: Text)
    ensures Cleaned(t) == t <==> !HasNonXmlChars(t)
  {
    CleanedIsClean(t);
    if !HasNonXmlChars(t) { CleanIsUnchanged(t); }
  }

  lemma FormatIff(t: Text)
    ensures Blanks(Cleaned(t)) == t <==> !HasNonXmlChars(t) && forall k :: 0 <= k < |t| ==> t[k] != 0x9 && t[k] != LF
  {
    CleanedIff(t);
    var u := Cleaned(t);
    CleanedIsClean(t);
    BlanksClean(u);
    if !HasNonXmlChars(t) && forall k :: 0 <= k < |t| ==> t[k] != 0x9 && t[k] != LF { NoBlanks(t); }
  }

  lemma NoBlanks(t: Text)
    requires forall k :: 0 <= k < |t| ==> t[k] != 0x9 && t[k] != LF
    ensures Blanks(t) == t
  {}

  lemma BlanksClean(u: Text)
    requires !HasNonXmlChars(u)
    ensures !HasNonXmlChars(Blanks(u))
  {
    var b := Blanks(u);
    forall k | 0 <= k < |b| ensures !NotXmlAt(b, k) && !EndsLine(b[k]) {
      assert !NotXmlAt(u, k) && !EndsLine(u[k]);
    }
  }

  /** Everything around the Assertion is in order: the client, the keys, the SP, the principal and the time. */
  ghost predicate InOrder(c: Calendar, s: State, i: Input, w: World, clientId: string, provider: Provider) {
    && clientId != "" && w.signatureOk && w.principalOk
    && w.identityOf(Cleaned(i.issuer)) == Some(provider.tenantId)
    && w.providerOf(Cleaned(i.audience), provider.tenantId) == Some(provider) && provider.clientId == Some(clientId)
    && Whole(c, i.notOnOrAfter) && Whole(c, i.authnInstant) && c.parse(i.notBefore).Some?
    && c.parse(i.notBefore).value - s.skew <= s.now < c.parse(i.notOnOrAfter).value + s.skew
  }

  lemma IssuedIsPrechecked(c: Calendar, s: State, i: Input, signature: Forest, w: World, clientId: string, provider: Provider)
    requires Issued(i) && IsSignature(signature) && InOrder(c, s, i, w, clientId, provider)
    ensures Precheck(c, s.now, s.skew, IssuedDocument(i, signature), w, clientId)
      == if WithinLimits(IssuedDocument(i, signature)) then (None, Some(FieldsOf(i))) else (Some(Malformed), None)
  {
    RootIsChecked(i, signature);
    RootElementsAre(i, signature);
    FieldsAreRead(i);
    IssuedShapeIsAccepted(i, signature);
    IssuedIsSigned(i, signature);
    WindowIsOpen(c, s, i, w, clientId, provider);
    hide ReadRoot, CheckShape, WithinLimits, IsAssertion, IsSigned, ExpectChildren, RootElements, FieldsOf, IssuedDocument, Issued, ReadLeaf, TextOf, Window;
    var d := IssuedDocument(i, signature);
    IssuedRoot(i, signature);
    if WithinLimits(d) {
      PrecheckIs(c, s.now, s.skew, d, w, clientId, RootElements(i, signature), FieldsOf(i), provider.tenantId);
    } else {
      TooMuch(c, s.now, s.skew, d, w, clientId);
    }
  }

  lemma IssuedRoot(i: Input, signature: Forest)
    ensures IssuedDocument(i, signature).root == ReadRoot(i, signature)
  {}

  lemma TooMuch(c: Calendar, now: int, skew: nat, d: Document, w: World, clientId: string)
    requires clientId != "" && !WithinLimits(d)
    ensures Precheck(c, now, skew, d, w, clientId) == (Some(Malformed), None)
  {}

  lemma IssuedIsSigned(i: Input, signature: Forest)
    requires Issued(i) && IsSignature(signature)
    ensures IsSigned(ReadRoot(i, signature))
  {
    RootIsChecked(i, signature);
    ReadElement(SIGNATURE, signature.attrs, signature.children, Nil);
    hide ReadRoot, ReadLeaf, ReadStatement;
  }

  lemma WindowIsOpen(c: Calendar, s: State, i: Input, w: World, clientId: string, provider: Provider)
    requires InOrder(c, s, i, w, clientId, provider)
    ensures Window(c, s.now, s.skew, FieldsOf(i), w, provider.tenantId, clientId) == None
  {}

  lemma PrecheckIs(c: Calendar, now: int, skew: nat, d: Document, w: World, clientId: string, kids: seq<Forest>, f: Fields, tenant: Option<string>)
    requires clientId != "" && w.signatureOk && WithinLimits(d) && IsAssertion(d.root) && ExpectChildren(d.root, SIGNED_CHILDREN, true) == Some(kids) && IsSigned(d.root)
    requires kids != [] && kids[0].Element? && kids[0].attrs == [] && w.identityOf(TextOf(kids[0])) == Some(tenant)
    requires CheckShape(d.root) == Some(f) && Window(c, now, skew, f, w, tenant, clientId) == None
    ensures Precheck(c, now, skew, d, w, clientId) == (None, Some(f))
  {}

  lemma MatchesIff(c: Calendar, s: State, i: Input, w: World, clientId: string, provider: Provider, userId: string, sessionId: string)
    requires InOrder(c, s, i, w, clientId, provider)
    ensures Matches(c, RecordOf(i, provider.id, provider.tenantId, userId, sessionId), FieldsOf(i), w) <==> CarriedWhole(i)
  {
    CleanedIff(i.issuer);
    CleanedIff(i.nameId);
    CleanedIff(i.classRef);
    FormatIff(i.nameIdFormat);
  }

  /**
   * An Assertion issued with a record, presented in its window by the right client before its record
   * is used up, is vouched for if and only if it is within the limits, and XML carries its issuer,
   * NameID, format and class unchanged. Past a limit it is refused as malformed, and its record kept;
   * what XML alters is refused as not ours, and the record used up.
   */
  lemma IssuedIsVouchedFor(c: Calendar, run: seq<State>, es: seq<Event>, i: Input, signature: Forest, w: World, clientId: string,
                           provider: Provider, userId: string, sessionId: string)
    requires IsRun(c, run, es) && Issued(i) && IsSignature(signature) && InOrder(c, run[|es|], i, w, clientId, provider)
    requires i.assertionId in run[|es|].issued && i.assertionId !in run[|es|].consumed
    requires run[|es|].issued[i.assertionId] == RecordOf(i, provider.id, provider.tenantId, userId, sessionId)
    ensures var d := IssuedDocument(i, signature); var r := Verdict(c, run[|es|], d, w, clientId);
      && (r.0.Vouched? <==> WithinLimits(d) && CarriedWhole(i))
      && (r.0.Vouched? ==> r.0 == Vouched(RecordOf(i, provider.id, provider.tenantId, userId, sessionId), FieldsOf(i)))
      && (if WithinLimits(d) then i.assertionId in r.1.consumed else r == (Refused(Malformed), run[|es|]))
      && (WithinLimits(d) && !CarriedWhole(i) ==> r.0 == Refused(NotOurs))
  {
    var s := run[|es|];
    RecordOutlivesTheWindow(c, run, es, i.assertionId);
    IssuedIsPrechecked(c, s, i, signature, w, clientId, provider);
    MatchesIff(c, s, i, w, clientId, provider, userId, sessionId);
  }

  /** The same with one attribute of 200 values. */
  function InGroups(i: Input): Input { i.(attributes := [SamlAttribute(U("groups"), seq(200, k => U("g")))]) }

  /**
   * A limit can fail an Assertion that is in order in every other way: with 200 values in one
   * attribute it is issued all the same, and refused with its record kept.
   */
  lemma ManyValuesAreRefused(c: Calendar, s: State, i: Input, signature: Forest, w: World, clientId: string, provider: Provider)
    requires Issued(i) && CarriedWhole(i) && IsSignature(signature) && InOrder(c, s, i, w, clientId, provider)
    ensures var many := InGroups(i);
      && Issued(many) && CarriedWhole(many) && InOrder(c, s, many, w, clientId, provider)
      && Verdict(c, s, IssuedDocument(many, signature), w, clientId) == (Refused(Malformed), s)
  {
    var many := InGroups(i);
    IssuedNodes(many, signature);
    assert many.attributes[1..] == [];
    assert StatementCount(many.attributes) == 201;
    IssuedIsPrechecked(c, s, many, signature, w, clientId, provider);
  }
}
