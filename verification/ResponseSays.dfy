/**
What a built Response says, element by element: which elements it has, in which order, and what each
attribute and text is, found by name as a reader finds it.
*/
module ResponseSays {
  import opened Optional
  import opened XmlEscape
  import opened XmlMarkup
  import opened ResponseXml
  import opened ExchangeForm

  /** The attribute is there with this value, or not there at all. */
  predicate SaysIf(el: Forest, name: string, v: Option<Text>)
    requires el.Element?
  {
    if v.Some? then Says(el, name, v.value) else forall a :: a in el.attrs ==> a.name != name
  }

  /** An element with this text and nothing else in it. */
  predicate IsText(el: Forest, name: string, text: Text) {
    el.Element? && el.name == name && el.children == Words(text, Nil)
  }

  lemma FirstSays(el: Forest, k: nat)
    requires el.Element? && k < |el.attrs| && forall j :: 0 <= j < k ==> el.attrs[j].name != el.attrs[k].name
    ensures Says(el, el.attrs[k].name, el.attrs[k].value)
  {
    assert el.attrs[k] == Attribute(el.attrs[k].name, el.attrs[k].value);
  }

  /** Three attributes, the last one perhaps. */
  lemma TwoAndPerhaps(el: Forest, a: string, x: Text, b: string, y: Text, c: string, z: Option<Text>)
    requires el.Element? && el.attrs == [Attr(a, x), Attr(b, y)] + IfSome(c, z) && a != b && a != c && b != c
    ensures Says(el, a, x) && Says(el, b, y) && SaysIf(el, c, z)
  {
    FirstSays(el, 0);
    FirstSays(el, 1);
    if z.Some? { FirstSays(el, 2); }
  }

  /** The assertion is for whoever has it, at this SP, until then, and in answer to this request. */
  lemma SubjectSays(i: Input, next: Forest)
    ensures var subject := Subject(i, next); var kids := Kids(subject.children);
      && subject.name == "saml:Subject" && |kids| == 2
      && IsText(kids[0], "saml:NameID", i.nameId) && Says(kids[0], "Format", i.nameIdFormat)
      && kids[1].name == "saml:SubjectConfirmation" && Says(kids[1], "Method", U("urn:oasis:names:tc:SAML:2.0:cm:bearer"))
      && |Kids(kids[1].children)| == 1
      && var data := Kids(kids[1].children)[0];
      data.name == "saml:SubjectConfirmationData" && data.children == Nil
      && Says(data, "NotOnOrAfter", i.notOnOrAfter) && Says(data, "Recipient", i.acsUrl) && SaysIf(data, "InResponseTo", i.requestId)
  {
    var data := ConfirmationData(i);
    TwoAndPerhaps(data, "NotOnOrAfter", i.notOnOrAfter, "Recipient", i.acsUrl, "InResponseTo", i.requestId);
    assert Kids(Confirmation(i).children) == [data];
    FirstSays(Confirmation(i), 0);
    var nameId := Element("saml:NameID", [Attr("Format", i.nameIdFormat)], Words(i.nameId, Nil), Nil);
    FirstSays(nameId, 0);
    assert Kids(Confirmation(i)) == [Confirmation(i)];
    assert Kids(Subject(i, next).children) == [nameId, Confirmation(i)];
  }

  /** It holds from then to then, for this SP only. */
  lemma ConditionsSay(i: Input, next: Forest)
    ensures var conditions := Conditions(i, next);
      && conditions.name == "saml:Conditions" && Says(conditions, "NotBefore", i.notBefore) && Says(conditions, "NotOnOrAfter", i.notOnOrAfter)
      && |Kids(conditions.children)| == 1
      && var restriction := Kids(conditions.children)[0];
      restriction.name == "saml:AudienceRestriction" && |Kids(restriction.children)| == 1 && IsText(Kids(restriction.children)[0], "saml:Audience", i.audience)
  {
    FirstSays(Conditions(i, next), 0);
    FirstSays(Conditions(i, next), 1);
    var audience := Element("saml:Audience", [], Words(i.audience, Nil), Nil);
    assert Kids(audience) == [audience];
    assert Kids(Conditions(i, next).children) == [Element("saml:AudienceRestriction", [], audience, Nil)];
  }

  /** How, when and in which session the user signed in, and until when. */
  lemma AuthnSays(i: Input, next: Forest)
    ensures var authn := AuthnStatement(i, next);
      && authn.name == "saml:AuthnStatement" && Says(authn, "AuthnInstant", i.authnInstant) && Says(authn, "SessionIndex", i.sessionIndex)
      && SaysIf(authn, "SessionNotOnOrAfter", i.sessionNotOnOrAfter)
      && |Kids(authn.children)| == 1
      && var context := Kids(authn.children)[0];
      context.name == "saml:AuthnContext" && |Kids(context.children)| == 1 && IsText(Kids(context.children)[0], "saml:AuthnContextClassRef", i.classRef)
  {
    TwoAndPerhaps(AuthnStatement(i, next), "AuthnInstant", i.authnInstant, "SessionIndex", i.sessionIndex, "SessionNotOnOrAfter", i.sessionNotOnOrAfter);
    var class_ := Element("saml:AuthnContextClassRef", [], Words(i.classRef, Nil), Nil);
    assert Kids(class_) == [class_];
    assert Kids(AuthnContext(i)) == [AuthnContext(i)];
  }

  /** The element of one attribute: its name, and its values in order. */
  predicate AttributeSays(el: Forest, a: SamlAttribute) {
    && el.Element? && el.name == "saml:Attribute" && Says(el, "Name", a.name)
    && Says(el, "NameFormat", U("urn:oasis:names:tc:SAML:2.0:attrname-format:basic"))
    && |Kids(el.children)| == |a.values|
    && forall k :: 0 <= k < |a.values| ==> IsText(Kids(el.children)[k], "saml:AttributeValue", a.values[k])
  }

  lemma {:induction false} ValuesSay(values: seq<Text>)
    ensures |Kids(AttributeValues(values))| == |values|
    ensures forall k :: 0 <= k < |values| ==> IsText(Kids(AttributeValues(values))[k], "saml:AttributeValue", values[k])
  {
    if values != [] {
      ValuesSay(values[1..]);
      assert Kids(AttributeValues(values)) == [Element("saml:AttributeValue", [], Words(values[0], Nil), Nil)] + Kids(AttributeValues(values[1..]));
    }
  }

  /** Every attribute is there, once, in order. */
  lemma {:induction false} AttributesSay(attributes: seq<SamlAttribute>)
    ensures |Kids(SamlAttributes(attributes))| == |attributes|
    ensures forall k :: 0 <= k < |attributes| ==> AttributeSays(Kids(SamlAttributes(attributes))[k], attributes[k])
  {
    if attributes != [] {
      var a := attributes[0];
      var el := Element("saml:Attribute", [Attr("Name", a.name), Attr("NameFormat", U(BASIC))], AttributeValues(a.values), Nil);
      AttributesSay(attributes[1..]);
      ValuesSay(a.values);
      FirstSays(el, 0);
      FirstSays(el, 1);
      assert Kids(SamlAttributes(attributes)) == [el] + Kids(SamlAttributes(attributes[1..]));
      assert AttributeSays(el, a);
    }
  }

  lemma {:induction false} JoinedKids(a: Forest, b: Forest)
    ensures Kids(Join(a, b)) == Kids(a) + Kids(b)
  {
    match a {
      case Nil =>
      case Words(_, n) => JoinedKids(n, b);
      case Element(name, attrs, children, n) => JoinedKids(n, b);
    }
  }

  /**
   * An Assertion is ours, of this identifier and moment, and has the signature it was given, the subject,
   * the conditions, the sign-in and the attributes, if any, and nothing else.
   */
  lemma AssertionSays(i: Input, signature: Forest)
    ensures var assertion := Assertion(i, signature); var kids, n := Kids(assertion.children), |Kids(signature)|;
      && assertion.name == "saml:Assertion" && Says(assertion, "ID", i.assertionId) && Says(assertion, "Version", U("2.0")) && Says(assertion, "IssueInstant", i.issueInstant)
      && |kids| == n + (if i.attributes == [] then 4 else 5)
      && IsText(kids[0], "saml:Issuer", i.issuer) && kids[1..n + 1] == Kids(signature)
      && kids[n + 1] == Subject(i, Nil) && kids[n + 2] == Conditions(i, Nil) && kids[n + 3] == AuthnStatement(i, Nil)
      && (i.attributes != [] ==> kids[n + 4] == Element("saml:AttributeStatement", [], SamlAttributes(i.attributes), Nil))
  {
    FirstSays(Assertion(i, signature), 0);
    FirstSays(Assertion(i, signature), 1);
    FirstSays(Assertion(i, signature), 2);
    var statement := AttributeStatement(i.attributes);
    var rest := Subject(i, Conditions(i, AuthnStatement(i, statement)));
    PartsInOrder(i, statement);
    JoinedKids(signature, rest);
    assert Kids(statement) == if i.attributes == [] then [] else [Element("saml:AttributeStatement", [], SamlAttributes(i.attributes), Nil)];
    assert Kids(AssertionBody(i, signature)) == [Element("saml:Issuer", [], Words(i.issuer, Nil), Nil)] + (Kids(signature) + Kids(rest));
  }

  lemma PartsInOrder(i: Input, statement: Forest)
    ensures Kids(Subject(i, Conditions(i, AuthnStatement(i, statement)))) == [Subject(i, Nil), Conditions(i, Nil), AuthnStatement(i, Nil)] + Kids(statement)
  {
    var authn := AuthnStatement(i, statement);
    assert Kids(authn) == [AuthnStatement(i, Nil)] + Kids(statement);
    var conditions := Conditions(i, authn);
    assert Kids(conditions) == [Conditions(i, Nil)] + Kids(authn);
  }

  /** The Response goes there, is ours, answers this request with success, and has the one Assertion in it. */
  lemma DocumentSays(i: Input, signature: Forest)
    ensures var response := Response(i, signature); var kids := Kids(response.children);
      && response.name == "samlp:Response"
      && Says(response, "xmlns:samlp", U("urn:oasis:names:tc:SAML:2.0:protocol")) && Says(response, "xmlns:saml", U("urn:oasis:names:tc:SAML:2.0:assertion"))
      && Says(response, "ID", i.responseId) && Says(response, "Version", U("2.0")) && Says(response, "IssueInstant", i.issueInstant)
      && Says(response, "Destination", i.acsUrl) && SaysIf(response, "InResponseTo", i.requestId)
      && |kids| == 3 && IsText(kids[0], "saml:Issuer", i.issuer) && kids[1].name == "samlp:Status" && kids[2] == Assertion(i, signature)
      && |Kids(kids[1].children)| == 1
      && var code := Kids(kids[1].children)[0];
      code.name == "samlp:StatusCode" && code.children == Nil && Says(code, "Value", U("urn:oasis:names:tc:SAML:2.0:status:Success"))
  {
    var response := Response(i, signature);
    var code := Element("samlp:StatusCode", [Attr("Value", U(SUCCESS))], Nil, Nil);
    FirstSays(code, 0);
    HeadSays(i, response);
    assert Kids(code) == [code];
    assert Kids(Assertion(i, signature)) == [Assertion(i, signature)];
    assert Kids(Status(Assertion(i, signature))) == [Element("samlp:Status", [], code, Nil)] + [Assertion(i, signature)];
  }

  lemma HeadSays(i: Input, response: Forest)
    requires response.Element? && response.attrs == ResponseAttrs(i)
    ensures Says(response, "xmlns:samlp", U("urn:oasis:names:tc:SAML:2.0:protocol")) && Says(response, "xmlns:saml", U("urn:oasis:names:tc:SAML:2.0:assertion"))
    ensures Says(response, "ID", i.responseId) && Says(response, "Version", U("2.0")) && Says(response, "IssueInstant", i.issueInstant)
    ensures Says(response, "Destination", i.acsUrl) && SaysIf(response, "InResponseTo", i.requestId)
  {
    var a := response.attrs;
    assert a[0] == Attr("xmlns:samlp", U(PROTOCOL)) && a[1] == Attr("xmlns:saml", U(NAMESPACE)) && a[2] == Attr("ID", i.responseId);
    assert a[3] == Attr("Version", U("2.0")) && a[4] == Attr("IssueInstant", i.issueInstant) && a[5] == Attr("Destination", i.acsUrl);
    FirstSays(response, 0);
    FirstSays(response, 1);
    FirstSays(response, 2);
    FirstSays(response, 3);
    FirstSays(response, 4);
    FirstSays(response, 5);
    if i.requestId.Some? {
      assert a[6] == Attr("InResponseTo", i.requestId.value);
      FirstSays(response, 6);
    }
  }
}
