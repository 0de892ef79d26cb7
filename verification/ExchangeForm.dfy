/**
The one form of Assertion that exchange takes, as a table of elements, the attributes they may have and
the elements in them, against the code that looks for it.
*/
module ExchangeForm {
  import opened Optional
  import opened XmlEscape
  import opened XmlMarkup
  import opened ResponseXml
  import opened ExchangeShape

  /** An element: the attributes it may have (`None`: any), and exactly the elements in it, or whatever is in it. */
  datatype Form = Free(name: string, attributes: Option<seq<string>>) | Exactly(name: string, attributes: Option<seq<string>>, kids: seq<Form>)

  /** The child elements, each by itself. */
  function Kids(children: Forest): (r: seq<Forest>)
    ensures forall k :: 0 <= k < |r| ==> r[k].Element?
  {
    match children
    case Nil => []
    case Words(_, next) => Kids(next)
    case Element(name, attrs, inner, next) => [Element(name, attrs, inner, Nil)] + Kids(next)
  }

  predicate NothingBetween(children: Forest) {
    match children
    case Nil => true
    case Words(t, next) => (forall u :: u in t ==> IsBlank(u)) && NothingBetween(next)
    case Element(_, _, _, next) => NothingBetween(next)
  }

  predicate OnlyAttributes(el: Forest, names: seq<string>)
    requires el.Element?
  {
    forall a :: a in el.attrs && !IsNamespaceDeclaration(a.name) ==> a.name in names
  }

  predicate Has(el: Forest, form: Form)
    decreases form
  {
    && el.Element? && el.name == form.name
    && (form.attributes.Some? ==> OnlyAttributes(el, form.attributes.value))
    && (form.Exactly? ==>
          && NothingBetween(el.children) && |Kids(el.children)| == |form.kids|
          && forall k :: 0 <= k < |form.kids| ==> Has(Kids(el.children)[k], form.kids[k]))
  }

  const SUBJECT := Exactly("saml:Subject", None, [
    Free("saml:NameID", Some(["Format"])),
    Exactly("saml:SubjectConfirmation", None, [
      Exactly("saml:SubjectConfirmationData", Some(["NotOnOrAfter", "Recipient", "InResponseTo"]), [])])])

  const CONDITIONS := Exactly("saml:Conditions", Some(["NotBefore", "NotOnOrAfter"]), [
    Exactly("saml:AudienceRestriction", None, [Free("saml:Audience", None)])])

  const AUTHN := Exactly("saml:AuthnStatement", Some(["AuthnInstant", "SessionIndex", "SessionNotOnOrAfter"]), [
    Exactly("saml:AuthnContext", None, [Free("saml:AuthnContextClassRef", None)])])

  /** The first attribute of this name says `v`. */
  predicate Says(el: Forest, name: string, v: Text)
    requires el.Element?
  {
    exists k :: 0 <= k < |el.attrs| && el.attrs[k] == Attribute(name, v) && forall j :: 0 <= j < k ==> el.attrs[j].name != name
  }

  function Names(els: seq<Forest>): seq<string>
    requires forall k :: 0 <= k < |els| ==> els[k].Element?
  {
    seq(|els|, k requires 0 <= k < |els| => els[k].name)
  }

  /** What an Assertion has in it, in this order; attributes are optional. */
  predicate HasParts(root: Forest, signed: bool)
    requires root.Element?
  {
    var names := Names(Kids(root.children));
    && NothingBetween(root.children)
    && (if signed then
          || names == ["saml:Issuer", "ds:Signature", "saml:Subject", "saml:Conditions", "saml:AuthnStatement"]
          || names == ["saml:Issuer", "ds:Signature", "saml:Subject", "saml:Conditions", "saml:AuthnStatement", "saml:AttributeStatement"]
        else
          || names == ["saml:Issuer", "saml:Subject", "saml:Conditions", "saml:AuthnStatement"]
          || names == ["saml:Issuer", "saml:Subject", "saml:Conditions", "saml:AuthnStatement", "saml:AttributeStatement"])
  }

  /** The identifier of an Assertion of this version. */
  predicate Identified(root: Forest, id: Text)
    requires root.Element?
  {
    && root.name == "saml:Assertion" && Says(root, "Version", U("2.0")) && Says(root, "ID", id)
    && 0 < |id| <= 1024 && IsNcName(id)
  }

  predicate SubjectSays(subject: Forest, f: Fields) {
    && Has(subject, SUBJECT)
    && var nameId, confirmation := Kids(subject.children)[0], Kids(subject.children)[1];
    && f.nameId == TextOf(nameId) && Says(nameId, "Format", f.nameIdFormat) && f.nameIdFormat != []
    && Says(confirmation, "Method", U(BEARER)) && Says(Kids(confirmation.children)[0], "NotOnOrAfter", f.confirmationEnd)
  }

  predicate ConditionsSay(conditions: Forest, f: Fields) {
    && Has(conditions, CONDITIONS)
    && f.audience == TextOf(Kids(Kids(conditions.children)[0].children)[0])
    && Says(conditions, "NotBefore", f.notBefore) && Says(conditions, "NotOnOrAfter", f.notOnOrAfter)
  }

  predicate AuthnSays(authn: Forest, f: Fields) {
    && Has(authn, AUTHN)
    && f.classRef == TextOf(Kids(Kids(authn.children)[0].children)[0]) && Says(authn, "AuthnInstant", f.authnInstant)
  }

  /** Exactly the signed form, saying `f`. */
  predicate HasForm(root: Forest, f: Fields)
    requires root.Element?
  {
    && Identified(root, f.assertionId) && HasParts(root, true) && OnlyAttributes(root, ["ID", "Version", "IssueInstant"])
    && var kids := Kids(root.children);
    && f.issuer == TextOf(kids[0]) && SubjectSays(kids[2], f) && ConditionsSay(kids[3], f) && AuthnSays(kids[4], f)
  }

  // ---- The code looks for exactly that ---------------------------------------------------------------

  lemma ElementsAre(children: Forest)
    ensures Elements(children) == if NothingBetween(children) then Some(Kids(children)) else None
  {
    match children
    case Nil =>
    case Words(t, next) => ElementsAre(next);
    case Element(_, _, _, next) => ElementsAre(next);
  }

  lemma ExpectIs(el: Forest, names: seq<string>, optional: bool)
    requires el.Element? && (optional ==> |names| > 0)
    ensures var kids, named := Kids(el.children), Names(Kids(el.children));
      ExpectChildren(el, names, optional) ==
        if NothingBetween(el.children) && (named == names || (optional && named == names[..|names| - 1])) then Some(kids) else None
  {
    ElementsAre(el.children);
  }

  lemma GetIs(attrs: seq<Attribute>, name: string)
    ensures GetAttribute(attrs, name).None? <==> forall k :: 0 <= k < |attrs| ==> attrs[k].name != name
    ensures GetAttribute(attrs, name).Some? ==>
      exists k :: 0 <= k < |attrs| && attrs[k] == Attribute(name, GetAttribute(attrs, name).value) && forall j :: 0 <= j < k ==> attrs[j].name != name
  {
    if attrs != [] && attrs[0].name != name {
      GetIs(attrs[1..], name);
      if GetAttribute(attrs[1..], name).Some? {
        var k :| 0 <= k < |attrs[1..]| && attrs[1..][k] == Attribute(name, GetAttribute(attrs, name).value) && forall j :: 0 <= j < k ==> attrs[1..][j].name != name;
        assert attrs[k + 1] == Attribute(name, GetAttribute(attrs, name).value);
        forall j | 0 <= j < k + 1 ensures attrs[j].name != name { assert j > 0 ==> attrs[1..][j - 1].name != name; }
      }
    }
  }

  lemma SaysIs(el: Forest, name: string, v: Text)
    requires el.Element?
    ensures Says(el, name, v) <==> GetAttribute(el.attrs, name) == Some(v)
  {
    GetIs(el.attrs, name);
    if Says(el, name, v) {
      var k :| 0 <= k < |el.attrs| && el.attrs[k] == Attribute(name, v) && forall j :: 0 <= j < k ==> el.attrs[j].name != name;
      var w := GetAttribute(el.attrs, name);
      assert w.Some?;
      var l :| 0 <= l < |el.attrs| && el.attrs[l] == Attribute(name, w.value) && forall j :: 0 <= j < l ==> el.attrs[j].name != name;
      assert k == l;
    }
  }

  lemma AttributesAre(el: Forest, names: seq<string>)
    requires el.Element?
    ensures OnlyAttributes(el, names) <==> ExpectAttributes(el, names)
  {}

  lemma OneKid(el: Forest, form: Form)
    requires el.Element? && form.Exactly? && |form.kids| == 1 && el.name == form.name
    ensures var kids := ExpectChildren(el, [form.kids[0].name], false);
      && (kids.Some? ==> kids.value == Kids(el.children) && |kids.value| == 1)
      && (Has(el, form) <==> (form.attributes.Some? ==> OnlyAttributes(el, form.attributes.value)) && kids.Some? && Has(kids.value[0], form.kids[0]))
  {
    ExpectIs(el, [form.kids[0].name], false);
    if Names(Kids(el.children)) == [form.kids[0].name] { assert |Names(Kids(el.children))| == 1; }
  }

  lemma FreeIs(el: Forest, form: Form)
    requires el.Element? && form.Free? && el.name == form.name
    ensures Has(el, form) <==> (form.attributes.Some? ==> OnlyAttributes(el, form.attributes.value))
  {}

  lemma ConditionsAre(conditions: Forest, f: Fields)
    requires conditions.Element? && conditions.name == "saml:Conditions"
    ensures CheckConditions(conditions) == Some((f.audience, f.notBefore, f.notOnOrAfter)) <==> ConditionsSay(conditions, f)
  {
    hide GetAttribute, ExpectChildren, ExpectAttributes, Has, Says;
    AttributesAre(conditions, ["NotBefore", "NotOnOrAfter"]);
    OneKid(conditions, CONDITIONS);
    var kids := ExpectChildren(conditions, ["saml:AudienceRestriction"], false);
    SaysIs(conditions, "NotBefore", f.notBefore);
    SaysIs(conditions, "NotOnOrAfter", f.notOnOrAfter);
    if kids.Some? {
      NamedAs(conditions, "saml:AudienceRestriction");
      OneKid(kids.value[0], CONDITIONS.kids[0]);
      var audience := ExpectChildren(kids.value[0], ["saml:Audience"], false);
      if audience.Some? {
        NamedAs(kids.value[0], "saml:Audience");
        FreeIs(audience.value[0], Free("saml:Audience", None));
      }
    }
  }

  lemma NamedAs(el: Forest, name: string)
    requires el.Element? && ExpectChildren(el, [name], false).Some?
    ensures ExpectChildren(el, [name], false).value[0].name == name
  {}

  lemma AuthnIs(authn: Forest, f: Fields)
    requires authn.Element? && authn.name == "saml:AuthnStatement"
    ensures CheckAuthn(authn) == Some((f.classRef, f.authnInstant)) <==> AuthnSays(authn, f)
  {
    hide GetAttribute, ExpectChildren, ExpectAttributes, Has, Says;
    AttributesAre(authn, ["AuthnInstant", "SessionIndex", "SessionNotOnOrAfter"]);
    OneKid(authn, AUTHN);
    var kids := ExpectChildren(authn, ["saml:AuthnContext"], false);
    SaysIs(authn, "AuthnInstant", f.authnInstant);
    if kids.Some? {
      NamedAs(authn, "saml:AuthnContext");
      OneKid(kids.value[0], AUTHN.kids[0]);
      var ref := ExpectChildren(kids.value[0], ["saml:AuthnContextClassRef"], false);
      if ref.Some? {
        NamedAs(kids.value[0], "saml:AuthnContextClassRef");
        FreeIs(ref.value[0], Free("saml:AuthnContextClassRef", None));
      }
    }
  }

  const CONFIRMATION := SUBJECT.kids[1]

  lemma SubjectKids(subject: Forest)
    requires subject.Element? && subject.name == "saml:Subject"
    ensures var kids := ExpectChildren(subject, ["saml:NameID", "saml:SubjectConfirmation"], false);
      && (kids.Some? ==> kids.value == Kids(subject.children) && kids.value[0].name == "saml:NameID" && kids.value[1].name == "saml:SubjectConfirmation")
      && (Has(subject, SUBJECT) <==> kids.Some? && Has(kids.value[0], SUBJECT.kids[0]) && Has(kids.value[1], CONFIRMATION))
  {
    ExpectIs(subject, ["saml:NameID", "saml:SubjectConfirmation"], false);
    var named := Names(Kids(subject.children));
    if named == ["saml:NameID", "saml:SubjectConfirmation"] { assert |named| == 2 && named[0] == "saml:NameID" && named[1] == "saml:SubjectConfirmation"; }
  }

  lemma DataIs(data: Forest)
    requires data.Element? && data.name == "saml:SubjectConfirmationData"
    ensures Has(data, CONFIRMATION.kids[0]) <==>
      ExpectChildren(data, [], false).Some? && ExpectAttributes(data, ["NotOnOrAfter", "Recipient", "InResponseTo"])
  {
    ExpectIs(data, [], false);
    AttributesAre(data, ["NotOnOrAfter", "Recipient", "InResponseTo"]);
  }

  lemma SubjectIs(subject: Forest, f: Fields)
    requires subject.Element? && subject.name == "saml:Subject"
    ensures CheckSubject(subject) == Some((f.nameId, f.nameIdFormat, f.confirmationEnd)) <==> SubjectSays(subject, f)
  {
    hide GetAttribute, ExpectChildren, ExpectAttributes, Has, Says;
    SubjectKids(subject);
    var kids := ExpectChildren(subject, ["saml:NameID", "saml:SubjectConfirmation"], false);
    if kids.Some? {
      FreeIs(kids.value[0], SUBJECT.kids[0]);
      AttributesAre(kids.value[0], ["Format"]);
      SaysIs(kids.value[0], "Format", f.nameIdFormat);
      SaysIs(kids.value[1], "Method", U(BEARER));
      OneKid(kids.value[1], CONFIRMATION);
      var data := ExpectChildren(kids.value[1], ["saml:SubjectConfirmationData"], false);
      if data.Some? {
        NamedAs(kids.value[1], "saml:SubjectConfirmationData");
        DataIs(data.value[0]);
        SaysIs(data.value[0], "NotOnOrAfter", f.confirmationEnd);
      }
    }
  }

  lemma PartsAre(root: Forest)
    requires root.Element?
    ensures ExpectChildren(root, SIGNED_CHILDREN, true) == if HasParts(root, true) then Some(Kids(root.children)) else None
    ensures HasParts(root, true) ==> var kids := Kids(root.children);
      && 5 <= |kids| && kids[0].name == "saml:Issuer" && kids[2].name == "saml:Subject" && kids[3].name == "saml:Conditions" && kids[4].name == "saml:AuthnStatement"
  {
    ExpectIs(root, SIGNED_CHILDREN, true);
    var names := Names(Kids(root.children));
    assert SIGNED_CHILDREN[..5] == ["saml:Issuer", "ds:Signature", "saml:Subject", "saml:Conditions", "saml:AuthnStatement"];
  }

  lemma IdentifiedIs(root: Forest, id: Text)
    requires root.Element?
    ensures Identified(root, id) <==> IsAssertion(root) && GetAttribute(root.attrs, "ID") == Some(id)
  {
    SaysIs(root, "Version", U("2.0"));
    SaysIs(root, "ID", id);
  }

  lemma ShapeInParts(root: Forest, f: Fields, kids: seq<Forest>)
    requires root.Element? && ExpectChildren(root, SIGNED_CHILDREN, true) == Some(kids)
    ensures CheckShape(root) == Some(f) <==>
      && IsAssertion(root) && GetAttribute(root.attrs, "ID") == Some(f.assertionId) && ExpectAttributes(root, ["ID", "Version", "IssueInstant"])
      && f.issuer == TextOf(kids[0]) && CheckSubject(kids[2]) == Some((f.nameId, f.nameIdFormat, f.confirmationEnd))
      && CheckConditions(kids[3]) == Some((f.audience, f.notBefore, f.notOnOrAfter)) && CheckAuthn(kids[4]) == Some((f.classRef, f.authnInstant))
  {
    hide GetAttribute, ExpectChildren, ExpectAttributes, CheckSubject, CheckConditions, CheckAuthn;
    var subject, conditions, authn := CheckSubject(kids[2]), CheckConditions(kids[3]), CheckAuthn(kids[4]);
    if subject.Some? && conditions.Some? && authn.Some? {
      assert subject.value == (subject.value.0, subject.value.1, subject.value.2);
      assert conditions.value == (conditions.value.0, conditions.value.1, conditions.value.2);
      assert authn.value == (authn.value.0, authn.value.1);
    }
  }

  /** The shape check accepts exactly the signed form, and reads from it what it says. */
  lemma FormIsChecked(root: Forest, f: Fields)
    requires root.Element?
    ensures CheckShape(root) == Some(f) <==> HasForm(root, f)
  {
    hide GetAttribute, ExpectChildren, ExpectAttributes, Has, Says, Identified, IsAssertion, HasParts, SubjectSays, ConditionsSay, AuthnSays, CheckSubject, CheckConditions, CheckAuthn;
    PartsAre(root);
    IdentifiedIs(root, f.assertionId);
    AttributesAre(root, ["ID", "Version", "IssueInstant"]);
    if HasParts(root, true) {
      var kids := Kids(root.children);
      SubjectIs(kids[2], f);
      ConditionsAre(kids[3], f);
      AuthnIs(kids[4], f);
      ShapeInParts(root, f, kids);
    }
  }
}
