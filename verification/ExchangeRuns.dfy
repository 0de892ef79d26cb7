/**
Exactly which presentations are vouched for, and how every other one is refused, over whole runs: said
of the document, of what configuration and keys say of it, and of what was issued.
*/
module ExchangeRuns {
  import opened Optional
  import opened XmlEscape
  import opened XmlMarkup
  import opened ExchangeShape
  import opened ExchangeForm
  import opened ExchangeLimits
  import opened ExchangeSizes
  import opened Exchange

  // ---- The document ------------------------------------------------------------------------------

  /** At most 64 KiB in UTF-8, 200 elements and 1000 attributes, and no `<!DOCTYPE` or `<!ENTITY`. */
  predicate Small(d: Document) {
    && d.root.Element? && EncodedLength(d.xml) <= 65_536 && !SaysDeclaration(d.xml)
    && StartTags(Chunks(Alone(d.root))) <= 200 && AttributesIn(Chunks(Alone(d.root))) <= 1000
  }

  /** An Assertion with an Issuer, signed or not, as far as is looked at before it is asked whose it is. */
  ghost predicate Presentable(d: Document) {
    && Small(d) && (exists id :: Identified(d.root, id))
    && (HasParts(d.root, true) || HasParts(d.root, false)) && OnlyAttributes(IssuerOf(d), ["Format"])
  }

  function IssuerOf(d: Document): (r: Forest)
    requires d.root.Element? && (HasParts(d.root, true) || HasParts(d.root, false))
    ensures r.Element?
  {
    PartsAre(d.root);
    UnsignedPartsAre(d.root);
    Kids(d.root.children)[0]
  }

  /** The Issuer is an entity and one of ours: the root or a tenant. */
  ghost predicate Ours(d: Document, w: World)
    requires Presentable(d)
  {
    && (forall v :: Says(IssuerOf(d), "Format", v) ==> v == [] || v == U("urn:oasis:names:tc:SAML:2.0:nameid-format:entity"))
    && w.identityOf(TextOf(IssuerOf(d))).Some?
  }

  predicate WellSigned(d: Document, w: World)
    requires d.root.Element?
  {
    HasParts(d.root, true) && w.signatureOk
  }

  /** All four instants are ones. */
  predicate Dated(c: Calendar, f: Fields) {
    c.parse(f.notBefore).Some? && c.parse(f.notOnOrAfter).Some? && c.parse(f.confirmationEnd).Some? && c.parse(f.authnInstant).Some?
  }

  predicate Begun(c: Calendar, now: int, skew: nat, f: Fields)
    requires Dated(c, f)
  {
    c.parse(f.notBefore).value - skew <= now
  }

  predicate Ended(c: Calendar, now: int, skew: nat, f: Fields)
    requires Dated(c, f)
  {
    c.parse(f.notOnOrAfter).value + skew <= now || c.parse(f.confirmationEnd).value + skew <= now
  }

  /** The audience is an SP of the Issuer's tenant that some client may exchange for. */
  predicate Exchangeable(f: Fields, w: World)
    requires w.identityOf(f.issuer).Some?
  {
    var tenant := w.identityOf(f.issuer).value;
    w.providerOf(f.audience, tenant).Some? && w.providerOf(f.audience, tenant).value.tenantId == tenant
    && w.providerOf(f.audience, tenant).value.clientId.Some?
  }

  predicate ForClient(f: Fields, w: World, clientId: string)
    requires w.identityOf(f.issuer).Some? && Exchangeable(f, w)
  {
    w.providerOf(f.audience, w.identityOf(f.issuer).value).value.clientId == Some(clientId)
  }

  lemma UnsignedPartsAre(root: Forest)
    requires root.Element?
    ensures ExpectChildren(root, UNSIGNED_CHILDREN, true) == if HasParts(root, false) then Some(Kids(root.children)) else None
    ensures HasParts(root, false) ==> 4 <= |Kids(root.children)| && Kids(root.children)[0].name == "saml:Issuer"
  {
    ExpectIs(root, UNSIGNED_CHILDREN, true);
    assert UNSIGNED_CHILDREN[..4] == ["saml:Issuer", "saml:Subject", "saml:Conditions", "saml:AuthnStatement"];
    var named := Names(Kids(root.children));
    assert HasParts(root, false) ==> 4 <= |named| && named[0] == "saml:Issuer";
  }

  // ---- The checks before the record -----------------------------------------------------------------

  lemma PresentableIs(d: Document)
    ensures Presentable(d) <==> WithinLimits(d) && IsAssertion(d.root) && Parts(d.root).Some? && ExpectAttributes(Parts(d.root).value[0], ["Format"])
    ensures Presentable(d) ==> d.root.Element? && Parts(d.root).value[0] == IssuerOf(d) && (IsSigned(d.root) <==> HasParts(d.root, true))
  {
    LimitsExactly(d);
    hide EncodedLength, SaysDeclaration, StartTags, AttributesIn, Chunks;
    if Small(d) {
      PartsAre(d.root);
      UnsignedPartsAre(d.root);
      SignedIs(d.root);
      AssertionIs(d.root);
      if HasParts(d.root, true) || HasParts(d.root, false) { AttributesAre(IssuerOf(d), ["Format"]); }
    }
  }

  lemma AssertionIs(root: Forest)
    requires root.Element?
    ensures (exists id :: Identified(root, id)) <==> IsAssertion(root)
  {
    var id := GetAttribute(root.attrs, "ID");
    if id.Some? { IdentifiedIs(root, id.value); }
    forall id | Identified(root, id) ensures IsAssertion(root) { IdentifiedIs(root, id); }
  }

  /** Its second element tells a signed Assertion from another. */
  lemma SignedIs(root: Forest)
    requires root.Element?
    ensures HasParts(root, true) ==> IsSigned(root)
    ensures HasParts(root, false) ==> !IsSigned(root)
  {
    ElementsAre(root.children);
    var kids, named := Kids(root.children), Names(Kids(root.children));
    assert |kids| > 1 ==> named[1] == kids[1].name;
  }

  lemma OursIs(d: Document, w: World)
    requires Presentable(d)
    ensures Ours(d, w) <==> NamesEntity(IssuerOf(d)) && w.identityOf(TextOf(IssuerOf(d))).Some?
  {
    var format := GetAttribute(IssuerOf(d).attrs, "Format");
    forall v ensures Says(IssuerOf(d), "Format", v) <==> format == Some(v) { SaysIs(IssuerOf(d), "Format", v); }
  }

  /** Whose the Assertion is, and that it is signed, are settled before its form is looked at. */
  lemma RefusedEarly(c: Calendar, now: int, skew: nat, d: Document, w: World, clientId: string)
    ensures var r := Precheck(c, now, skew, d, w, clientId).0;
      && (clientId == "" ==> r == Some(WrongClient))
      && (clientId != "" && !Presentable(d) ==> r == Some(Malformed))
      && (clientId != "" && Presentable(d) && !Ours(d, w) ==> r == Some(NotOurs))
      && (clientId != "" && Presentable(d) && Ours(d, w) && !WellSigned(d, w) ==> r == Some(BadSignature))
      && (clientId != "" && Presentable(d) && Ours(d, w) && WellSigned(d, w) && (forall f :: !HasForm(d.root, f)) ==> r == Some(Malformed))
  {
    hide WithinLimits, IsAssertion, Parts, IsSigned, CheckShape, HasForm, HasParts, NamesEntity, Presentable, Ours, Window;
    PresentableIs(d);
    if Presentable(d) {
      OursIs(d, w);
      var f := CheckShape(d.root);
      if f.Some? { FormIsChecked(d.root, f.value); }
    }
  }

  /** Then its dates, the window with skew at both ends, the SP of its audience, and the client. */
  lemma CheckedThen(c: Calendar, now: int, skew: nat, d: Document, w: World, clientId: string, f: Fields)
    requires clientId != "" && Presentable(d) && Ours(d, w) && WellSigned(d, w) && HasForm(d.root, f)
    ensures f.issuer == TextOf(IssuerOf(d)) && Precheck(c, now, skew, d, w, clientId).1 == Some(f)
    ensures var r := Precheck(c, now, skew, d, w, clientId).0;
      && (!Dated(c, f) ==> r == Some(Malformed))
      && (Dated(c, f) && !Begun(c, now, skew, f) ==> r == Some(NotYetValid))
      && (Dated(c, f) && Begun(c, now, skew, f) && Ended(c, now, skew, f) ==> r == Some(Expired))
      && (Dated(c, f) && Begun(c, now, skew, f) && !Ended(c, now, skew, f) && !Exchangeable(f, w) ==> r == Some(NotExchangeable))
      && (Dated(c, f) && Begun(c, now, skew, f) && !Ended(c, now, skew, f) && Exchangeable(f, w) && !ForClient(f, w, clientId) ==> r == Some(WrongClient))
      && (Dated(c, f) && Begun(c, now, skew, f) && !Ended(c, now, skew, f) && Exchangeable(f, w) && ForClient(f, w, clientId) ==> r == None)
  {
    hide WithinLimits, IsAssertion, Parts, IsSigned, CheckShape, HasForm, HasParts, NamesEntity, Presentable, Window, Ours;
    IssuerSays(d, f);
    PresentableIs(d);
    OursIs(d, w);
    FormIsChecked(d.root, f);
    WindowIs(c, now, skew, f, w, w.identityOf(f.issuer).value, clientId);
  }

  lemma WindowIs(c: Calendar, now: int, skew: nat, f: Fields, w: World, tenant: Option<string>, clientId: string)
    requires w.identityOf(f.issuer) == Some(tenant)
    ensures var r := Window(c, now, skew, f, w, tenant, clientId);
      && (!Dated(c, f) ==> r == Some(Malformed))
      && (Dated(c, f) && !Begun(c, now, skew, f) ==> r == Some(NotYetValid))
      && (Dated(c, f) && Begun(c, now, skew, f) && Ended(c, now, skew, f) ==> r == Some(Expired))
      && (Dated(c, f) && Begun(c, now, skew, f) && !Ended(c, now, skew, f) && !Exchangeable(f, w) ==> r == Some(NotExchangeable))
      && (Dated(c, f) && Begun(c, now, skew, f) && !Ended(c, now, skew, f) && Exchangeable(f, w) && !ForClient(f, w, clientId) ==> r == Some(WrongClient))
      && (Dated(c, f) && Begun(c, now, skew, f) && !Ended(c, now, skew, f) && Exchangeable(f, w) && ForClient(f, w, clientId) ==> r == None)
  {}

  lemma IssuerSays(d: Document, f: Fields)
    requires Presentable(d) && HasForm(d.root, f)
    ensures f.issuer == TextOf(IssuerOf(d))
  {}

  /** What passes, exactly. */
  ghost predicate Passes(c: Calendar, now: int, skew: nat, d: Document, w: World, clientId: string, f: Fields) {
    && clientId != "" && Presentable(d) && Ours(d, w) && w.signatureOk && HasForm(d.root, f)
    && Dated(c, f) && Begun(c, now, skew, f) && !Ended(c, now, skew, f)
    && w.identityOf(f.issuer).Some?
    && var tenant := w.identityOf(f.issuer).value;
    && w.providerOf(f.audience, tenant).Some?
    && var sp := w.providerOf(f.audience, tenant).value;
    && sp.tenantId == tenant && sp.clientId == Some(clientId)
  }

  lemma PassesExactly(c: Calendar, now: int, skew: nat, d: Document, w: World, clientId: string, f: Fields)
    ensures Precheck(c, now, skew, d, w, clientId) == (None, Some(f)) <==> Passes(c, now, skew, d, w, clientId, f)
  {
    RefusedEarly(c, now, skew, d, w, clientId);
    if clientId != "" && Presentable(d) && Ours(d, w) && WellSigned(d, w) {
      forall g | HasForm(d.root, g)
        ensures Precheck(c, now, skew, d, w, clientId).1 == Some(g) && g.issuer == TextOf(IssuerOf(d))
        ensures Precheck(c, now, skew, d, w, clientId).0 == None <==> Passes(c, now, skew, d, w, clientId, g)
      {
        CheckedThen(c, now, skew, d, w, clientId, g);
        hide Precheck, HasForm, Presentable;
      }
    }
    hide Precheck, Presentable;
  }

  // ---- With the record ------------------------------------------------------------------------------

  /** The record of this Assertion is there to be used up: it was issued, was not used, and has not expired. */
  ghost predicate Unused(c: Calendar, s: State, id: Text) {
    id in s.issued && id !in s.consumed && c.parse(s.issued[id].notOnOrAfter).Some? && s.now <= c.parse(s.issued[id].notOnOrAfter).value + s.skew
  }

  /** What was recorded at issuance is what is presented, for the SP and tenant it is presented for. */
  ghost predicate Agrees(c: Calendar, r: Record, f: Fields, w: World)
    requires Dated(c, f) && w.identityOf(f.issuer).Some? && Exchangeable(f, w)
  {
    && r.tenantId == w.identityOf(f.issuer).value && r.spId == w.providerOf(f.audience, r.tenantId).value.id
    && r.issuer == f.issuer && r.nameId == f.nameId && r.nameIdFormat == f.nameIdFormat && r.acr == f.classRef
    && r.notOnOrAfter == c.format(c.parse(f.notOnOrAfter).value) && r.authnInstant == c.format(c.parse(f.authnInstant).value)
  }

  /** Exactly when a presentation that says `f` is vouched for. */
  ghost predicate Vouchable(c: Calendar, s: State, d: Document, w: World, clientId: string, f: Fields) {
    Passes(c, s.now, s.skew, d, w, clientId, f) && Unused(c, s, f.assertionId) && Agrees(c, s.issued[f.assertionId], f, w) && w.principalOk
  }

  lemma UnusedIs(c: Calendar, s: State, id: Text)
    requires Inv(c, s)
    ensures Consumable(s, id) == if Unused(c, s, id) then Some(s.issued[id]) else None
  {
    if id in s.issued { assert Exchange.Kept(c, s, id); }
  }

  /** A presentation that passes: vouched for, refused with its record kept, or refused with it used up. */
  lemma PassedThen(c: Calendar, s: State, d: Document, w: World, clientId: string, f: Fields)
    requires Inv(c, s) && Passes(c, s.now, s.skew, d, w, clientId, f)
    ensures var r := Verdict(c, s, d, w, clientId); var id := f.assertionId;
      && (!Unused(c, s, id) ==> r == (Refused(AlreadyExchanged), s))
      && (Unused(c, s, id) && !Agrees(c, s.issued[id], f, w) ==> r == (Refused(NotOurs), Used(s, id)))
      && (Unused(c, s, id) && Agrees(c, s.issued[id], f, w) && !w.principalOk ==> r == (Refused(AccountInactive), Used(s, id)))
      && (Vouchable(c, s, d, w, clientId, f) ==> r == (Vouched(s.issued[id], f), Used(s, id).(vouched := s.vouched + [id])))
  {
    PassesExactly(c, s.now, s.skew, d, w, clientId, f);
    UnusedIs(c, s, f.assertionId);
    hide Precheck, Consumable, Presentable, Ours, HasForm, Inv;
  }

  /** Any other presentation, one without a good signature among them, leaves everything as it was. */
  lemma UnpassedLeaves(c: Calendar, s: State, d: Document, w: World, clientId: string)
    requires forall f :: !Passes(c, s.now, s.skew, d, w, clientId, f)
    ensures var r := Precheck(c, s.now, s.skew, d, w, clientId).0; r.Some? && Verdict(c, s, d, w, clientId) == (Refused(r.value), s)
  {
    var r := Precheck(c, s.now, s.skew, d, w, clientId);
    if r.0 == None {
      assert r == (None, Some(r.1.value));
      PassesExactly(c, s.now, s.skew, d, w, clientId, r.1.value);
    }
  }

  lemma UnsignedLeaves(c: Calendar, s: State, d: Document, w: World, clientId: string)
    requires d.root.Element? && (!w.signatureOk || !HasParts(d.root, true))
    ensures Verdict(c, s, d, w, clientId).0.Refused? && Verdict(c, s, d, w, clientId).1 == s
  {
    forall f ensures !Passes(c, s.now, s.skew, d, w, clientId, f) {}
    UnpassedLeaves(c, s, d, w, clientId);
  }

  // ---- Over runs -------------------------------------------------------------------------------------

  ghost predicate VouchesFor(c: Calendar, s: State, e: Event, id: Text) {
    e.Present? && exists f: Fields :: f.assertionId == id && Vouchable(c, s, e.document, e.world, e.clientId, f)
  }

  /** The presentation uses up the record of `id`. */
  ghost predicate UsesUp(c: Calendar, s: State, e: Event, id: Text) {
    e.Present? && Unused(c, s, id) && exists f: Fields :: f.assertionId == id && Passes(c, s.now, s.skew, e.document, e.world, e.clientId, f)
  }

  /** What each event does to what was issued and used, and to the clock: nothing else ever does. */
  lemma StepUses(c: Calendar, s: State, e: Event, id: Text)
    requires Inv(c, s) && Possible(c, s, e)
    ensures var s' := Step(c, s, e);
      && (id in s'.consumed <==> id in s.consumed || UsesUp(c, s, e, id))
      && (id in s'.issued <==> id in s.issued || (e.Issue? && e.id == id))
      && (id in s'.issued ==> s'.issued[id] == if e.Issue? && e.id == id then e.record else s.issued[id])
      && s'.now == s.now + (if e.Tick? then e.ms else 0) && s'.skew == s.skew
  {
    if e.Present? { PresentUses(c, s, e.document, e.world, e.clientId, id); }
    hide Verdict, Inv, Unused, Passes;
  }

  lemma PresentUses(c: Calendar, s: State, d: Document, w: World, clientId: string, id: Text)
    requires Inv(c, s)
    ensures var s' := Verdict(c, s, d, w, clientId).1;
      && s'.issued == s.issued && s'.now == s.now && s'.skew == s.skew
      && (id in s'.consumed <==> id in s.consumed || (Unused(c, s, id) && exists f: Fields :: f.assertionId == id && Passes(c, s.now, s.skew, d, w, clientId, f)))
  {
    if f: Fields :| Passes(c, s.now, s.skew, d, w, clientId, f) {
      PassedUses(c, s, d, w, clientId, f);
      hide Verdict, Inv, Unused;
      forall g: Fields | Passes(c, s.now, s.skew, d, w, clientId, g) ensures g == f { PassOnce(c, s, d, w, clientId, f, g); }
      hide Passes;
    } else {
      UnpassedLeaves(c, s, d, w, clientId);
      hide Verdict, Passes, Inv, Unused;
    }
  }

  lemma PassedUses(c: Calendar, s: State, d: Document, w: World, clientId: string, f: Fields)
    requires Inv(c, s) && Passes(c, s.now, s.skew, d, w, clientId, f)
    ensures var s' := Verdict(c, s, d, w, clientId).1;
      && s'.issued == s.issued && s'.now == s.now && s'.skew == s.skew
      && s'.consumed == if Unused(c, s, f.assertionId) then s.consumed + {f.assertionId} else s.consumed
  {
    PassedThen(c, s, d, w, clientId, f);
    hide Verdict, Inv, Unused;
  }

  lemma PassOnce(c: Calendar, s: State, d: Document, w: World, clientId: string, f: Fields, g: Fields)
    requires Passes(c, s.now, s.skew, d, w, clientId, f) && Passes(c, s.now, s.skew, d, w, clientId, g)
    ensures f == g
  {
    PassesExactly(c, s.now, s.skew, d, w, clientId, f);
    PassesExactly(c, s.now, s.skew, d, w, clientId, g);
    hide Passes, Precheck;
  }

  lemma StepVouches(c: Calendar, s: State, e: Event)
    requires Inv(c, s) && Possible(c, s, e)
    ensures Step(c, s, e).vouched == s.vouched || exists id :: VouchesFor(c, s, e, id)
    ensures forall id :: VouchesFor(c, s, e, id) ==> Step(c, s, e).vouched == s.vouched + [id]
  {
    if e.Present? {
      hide Verdict, Passes, Vouchable, Agrees, Unused;
      if f :| Passes(c, s.now, s.skew, e.document, e.world, e.clientId, f) {
        VouchedOrNot(c, s, e.document, e.world, e.clientId, f);
        assert Vouchable(c, s, e.document, e.world, e.clientId, f) ==> VouchesFor(c, s, e, f.assertionId);
      } else {
        UnpassedLeaves(c, s, e.document, e.world, e.clientId);
      }
      forall f | Vouchable(c, s, e.document, e.world, e.clientId, f)
        ensures Step(c, s, e).vouched == s.vouched + [f.assertionId]
      {
        VouchableIs(c, s, e.document, e.world, e.clientId, f);
        VouchedOrNot(c, s, e.document, e.world, e.clientId, f);
      }
    }
  }

  lemma VouchableIs(c: Calendar, s: State, d: Document, w: World, clientId: string, f: Fields)
    requires Vouchable(c, s, d, w, clientId, f)
    ensures Passes(c, s.now, s.skew, d, w, clientId, f)
  {}

  lemma VouchedOrNot(c: Calendar, s: State, d: Document, w: World, clientId: string, f: Fields)
    requires Inv(c, s) && Passes(c, s.now, s.skew, d, w, clientId, f)
    ensures var s' := Verdict(c, s, d, w, clientId).1;
      s'.vouched == if Vouchable(c, s, d, w, clientId, f) then s.vouched + [f.assertionId] else s.vouched
  {
    hide Verdict, Inv, Presentable, Ours, HasForm;
    PassedThen(c, s, d, w, clientId, f);
  }

  ghost predicate VouchedBy(c: Calendar, run: seq<State>, es: seq<Event>, i: nat, k: nat, id: Text)
    requires IsRun(c, run, es)
  {
    k < |es| && |run[k].vouched| == i && VouchesFor(c, run[k], es[k], id)
  }

  lemma StepGrows(c: Calendar, s: State, e: Event)
    requires Inv(c, s) && Possible(c, s, e)
    ensures s.vouched <= Step(c, s, e).vouched
  {
    hide Step, VouchesFor, Inv;
    StepVouches(c, s, e);
  }

  lemma NextGrows(c: Calendar, run: seq<State>, es: seq<Event>, n: nat)
    requires IsRun(c, run, es) && n < |es|
    ensures run[n].vouched <= run[n + 1].vouched
  {
    hide Step, Inv, Possible;
    RunKeeps(c, run, es, n);
    StepGrows(c, run[n], es[n]);
  }

  lemma {:induction false} VouchedStay(c: Calendar, run: seq<State>, es: seq<Event>, k: nat, n: nat)
    requires IsRun(c, run, es) && k <= n <= |es|
    ensures run[k].vouched <= run[n].vouched
    decreases n
  {
    hide Step, Inv, Possible;
    if k < n {
      VouchedStay(c, run, es, k, n - 1);
      NextGrows(c, run, es, n - 1);
    }
  }

  lemma {:induction false} VouchedAt(c: Calendar, run: seq<State>, es: seq<Event>, n: nat, i: nat) returns (k: nat)
    requires IsRun(c, run, es) && n <= |es| && i < |run[n].vouched|
    ensures VouchedBy(c, run, es, i, k, run[n].vouched[i])
    decreases n
  {
    hide Step, VouchesFor, Inv;
    assert n > 0 && run[n] == Step(c, run[n - 1], es[n - 1]);
    RunKeeps(c, run, es, n - 1);
    StepVouches(c, run[n - 1], es[n - 1]);
    if i < |run[n - 1].vouched| {
      k := VouchedAt(c, run, es, n - 1, i);
      VouchedStay(c, run, es, n - 1, n);
    } else {
      k := n - 1;
    }
  }

  /**
   * Over any run an Assertion is vouched for by exactly the presentations that are due it: by a client
   * with a name, of a small enough document of the one form, with an Issuer of ours, our signature, both
   * ends of the window open, the audience's SP in the Issuer's tenant and this client's, an account in
   * order, and a record as at issuance that no one has used.
   */
  lemma VouchedExactly(c: Calendar, run: seq<State>, es: seq<Event>, i: nat, id: Text)
    requires IsRun(c, run, es)
    ensures (i < |run[|es|].vouched| && run[|es|].vouched[i] == id) <==> exists k: nat :: VouchedBy(c, run, es, i, k, id)
  {
    hide Step, VouchesFor, Inv;
    if i < |run[|es|].vouched| && run[|es|].vouched[i] == id { var k := VouchedAt(c, run, es, |es|, i); }
    forall k: nat | VouchedBy(c, run, es, i, k, id) ensures i < |run[|es|].vouched| && run[|es|].vouched[i] == id {
      RunKeeps(c, run, es, k);
      StepVouches(c, run[k], es[k]);
      assert run[k + 1] == Step(c, run[k], es[k]);
      VouchedStay(c, run, es, k + 1, |es|);
    }
  }
}
