/** Assertion exchange as the host calls it, over the records in its database. */
module ExchangeApi {
  import opened Optional
  import opened XmlEscape
  import opened XmlMarkup
  import opened ResponseXml
  import opened ExchangeShape
  import opened ExchangeLimits
  import opened Exchange
  import MessageShape

  /** Before the elements still to come. */
  function Onto(out: seq<Forest>, rest: Option<seq<Forest>>): Option<seq<Forest>> {
    if rest.None? then None else Some(out + rest.value)
  }

  /** Walks an element's children, as `Elements` says. */
  method CollectElements(children: Forest) returns (r: Option<seq<Forest>>)
    ensures r == Elements(children)
  {
    var c, out := children, [];
    assert Onto([], Elements(children)) == Elements(children) by {
      if Elements(children).Some? { assert [] + Elements(children).value == Elements(children).value; }
    }
    while !c.Nil?
      invariant Elements(children) == Onto(out, Elements(c))
      decreases c
    {
      match c {
        case Words(t, next) =>
          if exists k :: 0 <= k < |t| && !IsBlank(t[k]) { return None; }
          c := next;
        case Element(name, attrs, inner, next) =>
          OntoOne(out, Element(name, attrs, inner, Nil), Elements(next));
          out := out + [Element(name, attrs, inner, Nil)];
          c := next;
      }
    }
    assert out + [] == out;
    r := Some(out);
  }

  lemma OntoOne(out: seq<Forest>, el: Forest, rest: Option<seq<Forest>>)
    ensures Onto(out, if rest.None? then None else Some([el] + rest.value)) == Onto(out + [el], rest)
  {
    if rest.Some? { assert out + ([el] + rest.value) == out + [el] + rest.value; }
  }

  class IssuedAssertions {
    var now: int
    const skew: nat
    var records: map<Text, Stored>
    ghost var issued: map<Text, Record>
    ghost var consumed: set<Text>
    ghost var vouched: seq<Text>

    constructor (now: int, skew: nat)
      ensures View() == State(now, skew, map[], map[], {}, [])
    {
      this.now, this.skew, records, issued, consumed, vouched := now, skew, map[], map[], {}, [];
    }

    ghost function View(): State
      reads this
    {
      State(now, skew, records, issued, consumed, vouched)
    }

    method RecordExchangeable(c: Calendar, id: Text, r: Record)
      requires Possible(c, View(), Issue(id, r))
      modifies this`records, this`issued
      ensures View() == Step(c, old(View()), Issue(id, r))
    {
      records := records[id := Stored(r, c.parse(r.notOnOrAfter).value + skew)];
      issued := issued[id := r];
    }

    /** The record, removed as it is read. */
    method ConsumeExchangeable(id: Text) returns (r: Option<Record>)
      modifies this`records, this`consumed
      ensures r == Consumable(old(View()), id)
      ensures if r.Some? then View() == Used(old(View()), id) else View() == old(View())
    {
      if id !in records || now > records[id].expiresAt { return None; }
      r := Some(records[id].record);
      records := records - {id};
      consumed := consumed + {id};
    }

    /** The validity window with clock skew, then the audience's SP and its client. */
    method CheckWindow(c: Calendar, f: Fields, w: World, tenant: Option<string>, clientId: string) returns (refusal: Option<Refusal>)
      ensures refusal == Window(c, now, skew, f, w, tenant, clientId)
    {
      var at, from := c.parse(f.authnInstant), c.parse(f.notBefore);
      var end, confirmationEnd := c.parse(f.notOnOrAfter), c.parse(f.confirmationEnd);
      if at.None? || from.None? || end.None? || confirmationEnd.None? { return Some(Malformed); }
      if now < from.value - skew { return Some(NotYetValid); }
      if now >= end.value + skew || now >= confirmationEnd.value + skew { return Some(Expired); }
      var sp := w.providerOf(f.audience, tenant);
      if sp.None? || sp.value.tenantId != tenant { return Some(NotExchangeable); }
      if sp.value.clientId.None? { return Some(NotExchangeable); }
      if sp.value.clientId.value != clientId { return Some(WrongClient); }
      refusal := None;
    }

    /** Its size and markup, then its elements and attributes; before anything else of it is looked at. */
    method CheckLimits(d: Document) returns (ok: bool)
      ensures ok <==> WithinLimits(d)
    {
      if !d.root.Element? || !Prechecked(d.xml) { return false; }
      ghost var looks;
      ok, looks := MessageShape.CheckMessageShape(NodeOf(d.root));
    }

    method CheckPresented(c: Calendar, d: Document, w: World, clientId: string) returns (refusal: Option<Refusal>, fields: Option<Fields>)
      ensures (refusal, fields) == Precheck(c, now, skew, d, w, clientId)
    {
      if clientId == "" { return Some(WrongClient), None; }
      var ok := CheckLimits(d);
      if !ok { return Some(Malformed), None; }
      if !IsAssertion(d.root) { return Some(Malformed), None; }
      var signed := IsSigned(d.root);
      var kids := ExpectChildren(d.root, if signed then SIGNED_CHILDREN else UNSIGNED_CHILDREN, true);
      if kids.None? { return Some(Malformed), None; }
      if !ExpectAttributes(kids.value[0], ["Format"]) { return Some(Malformed), None; }
      if !NamesEntity(kids.value[0]) { return Some(NotOurs), None; }
      var identity := w.identityOf(TextOf(kids.value[0]));
      if identity.None? { return Some(NotOurs), None; }
      if !signed || !w.signatureOk { return Some(BadSignature), None; }
      fields := CheckShape(d.root);
      if fields.None? { return Some(Malformed), None; }
      refusal := CheckWindow(c, fields.value, w, identity.value, clientId);
    }

    /** Vouches for a presented Assertion, once: the record is consumed only after the signature. */
    method VerifyIssuedAssertion(c: Calendar, d: Document, w: World, clientId: string) returns (o: Outcome)
      modifies this`records, this`consumed, this`vouched
      ensures (o, View()) == Verdict(c, old(View()), d, w, clientId)
    {
      var refusal, fields := CheckPresented(c, d, w, clientId);
      if refusal.Some? { return Refused(refusal.value); }
      PassedIsSound(c, now, skew, d, w, clientId);
      var f := fields.value;
      var record := ConsumeExchangeable(f.assertionId);
      if record.None? { return Refused(AlreadyExchanged); }
      if !Matches(c, record.value, f, w) { return Refused(NotOurs); }
      if !w.principalOk { return Refused(AccountInactive); }
      vouched := vouched + [f.assertionId];
      o := Vouched(record.value, f);
    }
  }
}
