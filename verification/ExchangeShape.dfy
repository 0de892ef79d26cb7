/**
What assertion exchange reads from a presented Assertion: exactly the shape issuance writes, or nothing.

The parser is foreign: what it makes of written text is `Read`, with escapes undone and attribute
values normalised (section 3.3.3 of XML 1.0). Prefixed names stand for names in their namespace.
*/
module ExchangeShape {
  import opened Optional
  import opened XmlEscape
  import opened XmlMarkup
  import opened ResponseXml
  import AssertionEncryption

  // ---- Reading -----------------------------------------------------------------------------------

  /** Tabs and line feeds in an attribute value become blanks. */
  function Blanks(t: Text): (r: Text)
    ensures |r| == |t| && forall k :: 0 <= k < |t| ==> r[k] == if t[k] == 0x9 || t[k] == LF then 0x20 else t[k]
  {
    seq(|t|, k requires 0 <= k < |t| => if t[k] == 0x9 || t[k] == LF then 0x20 else t[k])
  }

  function ReadText(t: Text): Text { Unescape(EscapeXml(t)) }

  function ReadValue(t: Text): Text { Blanks(ReadText(t)) }

  function ReadAttrs(attrs: seq<Attribute>): (r: seq<Attribute>)
    ensures |r| == |attrs| && forall k :: 0 <= k < |attrs| ==> r[k] == Attribute(attrs[k].name, ReadValue(attrs[k].value))
  {
    seq(|attrs|, k requires 0 <= k < |attrs| => Attribute(attrs[k].name, ReadValue(attrs[k].value)))
  }

  function Read(f: Forest): Forest {
    match f
    case Nil => Nil
    case Words(t, next) => Words(ReadText(t), Read(next))
    case Element(name, attrs, children, next) => Element(name, ReadAttrs(attrs), Read(children), Read(next))
  }

  // ---- Checking ----------------------------------------------------------------------------------

  /** What a JavaScript regular expression calls white space. */
  predicate IsBlank(u: CodeUnit) {
    || 0x9 <= u <= 0xD || u == 0x20 || u == 0xA0 || u == 0x1680 || 0x2000 <= u <= 0x200A || u == 0x2028 || u == 0x2029
    || u == 0x202F || u == 0x205F || u == 0x3000 || u == 0xFEFF
  }

  /** The child elements; text between them is refused. */
  function Elements(children: Forest): Option<seq<Forest>> {
    match children
    case Nil => Some([])
    case Words(t, next) => if exists k :: 0 <= k < |t| && !IsBlank(t[k]) then None else Elements(next)
    case Element(name, attrs, inner, next) =>
      var rest := Elements(next);
      if rest.None? then None else Some([Element(name, attrs, inner, Nil)] + rest.value)
  }

  /** Exactly these children, in this order; with `optional`, the last may be missing. */
  function ExpectChildren(el: Forest, names: seq<string>, optional: bool): (r: Option<seq<Forest>>)
    requires el.Element? && (optional ==> |names| > 0)
    ensures r.Some? ==> forall k :: 0 <= k < |r.value| ==> r.value[k].Element?
    ensures r.Some? ==> |names| - 1 <= |r.value| <= |names| && (!optional ==> |r.value| == |names|)
  {
    var kids := Elements(el.children);
    if kids.None? || |kids.value| > |names| || |kids.value| < |names| - (if optional then 1 else 0) then None
    else if exists k :: 0 <= k < |kids.value| && !(kids.value[k].Element? && kids.value[k].name == names[k]) then None
    else kids
  }

  predicate IsNamespaceDeclaration(name: string) { name == "xmlns" || (|name| >= 6 && name[..6] == "xmlns:") }

  /** Only these attributes, namespace declarations aside. */
  predicate ExpectAttributes(el: Forest, allowed: seq<string>)
    requires el.Element?
  {
    forall k :: 0 <= k < |el.attrs| ==> IsNamespaceDeclaration(el.attrs[k].name) || el.attrs[k].name in allowed
  }

  function GetAttribute(attrs: seq<Attribute>, name: string): Option<Text> {
    if attrs == [] then None
    else if attrs[0].name == name then Some(attrs[0].value)
    else GetAttribute(attrs[1..], name)
  }

  function TextContent(f: Forest): Text {
    match f
    case Nil => []
    case Words(t, next) => t + TextContent(next)
    case Element(_, _, children, next) => TextContent(children) + TextContent(next)
  }

  function TextOf(el: Forest): Text
    requires el.Element?
  {
    TextContent(el.children)
  }

  const SIGNATURE := "ds:Signature"

  /** The children of a signed Assertion. */
  const SIGNED_CHILDREN: seq<string> :=
    ["saml:Issuer", SIGNATURE, "saml:Subject", "saml:Conditions", "saml:AuthnStatement", "saml:AttributeStatement"]

  const UNSIGNED_CHILDREN: seq<string> := ["saml:Issuer", "saml:Subject", "saml:Conditions", "saml:AuthnStatement", "saml:AttributeStatement"]

  /** Its second element is a signature. */
  predicate IsSigned(root: Forest)
    requires root.Element?
  {
    var kids := Elements(root.children);
    kids.Some? && |kids.value| > 1 && kids.value[1].Element? && kids.value[1].name == SIGNATURE
  }

  /** What the presented Assertion says. */
  datatype Fields = Fields(
    assertionId: Text, issuer: Text, nameId: Text, nameIdFormat: Text, audience: Text, classRef: Text,
    notBefore: Text, notOnOrAfter: Text, confirmationEnd: Text, authnInstant: Text)

  function CheckSubject(subject: Forest): Option<(Text, Text, Text)>
    requires subject.Element?
  {
    var kids := ExpectChildren(subject, ["saml:NameID", "saml:SubjectConfirmation"], false);
    if kids.None? then None
    else
      var nameIdEl, confirmation := kids.value[0], kids.value[1];
      var format := GetAttribute(nameIdEl.attrs, "Format");
      var data := ExpectChildren(confirmation, ["saml:SubjectConfirmationData"], false);
      if !ExpectAttributes(nameIdEl, ["Format"]) || format.None? || format.value == []
         || GetAttribute(confirmation.attrs, "Method") != Some(U(BEARER)) || data.None? then None
      else
        var end := GetAttribute(data.value[0].attrs, "NotOnOrAfter");
        if ExpectChildren(data.value[0], [], false).None? || !ExpectAttributes(data.value[0], ["NotOnOrAfter", "Recipient", "InResponseTo"]) || end.None? then None
        else Some((TextOf(nameIdEl), format.value, end.value))
  }

  function CheckConditions(conditions: Forest): Option<(Text, Text, Text)>
    requires conditions.Element?
  {
    var kids := ExpectChildren(conditions, ["saml:AudienceRestriction"], false);
    if !ExpectAttributes(conditions, ["NotBefore", "NotOnOrAfter"]) || kids.None? then None
    else
      var audience := ExpectChildren(kids.value[0], ["saml:Audience"], false);
      var from, end := GetAttribute(conditions.attrs, "NotBefore"), GetAttribute(conditions.attrs, "NotOnOrAfter");
      if audience.None? || from.None? || end.None? then None else Some((TextOf(audience.value[0]), from.value, end.value))
  }

  function CheckAuthn(authn: Forest): Option<(Text, Text)>
    requires authn.Element?
  {
    var kids := ExpectChildren(authn, ["saml:AuthnContext"], false);
    if !ExpectAttributes(authn, ["AuthnInstant", "SessionIndex", "SessionNotOnOrAfter"]) || kids.None? then None
    else
      var ref := ExpectChildren(kids.value[0], ["saml:AuthnContextClassRef"], false);
      var at := GetAttribute(authn.attrs, "AuthnInstant");
      if ref.None? || at.None? then None else Some((TextOf(ref.value[0]), at.value))
  }

  const MAX_SAML_ID_LENGTH := 1024

  predicate IsLetter(u: CodeUnit) { 0x41 <= u <= 0x5A || 0x61 <= u <= 0x7A || u == 0x5F }

  /** A letter or underscore, then letters, digits, underscores, dots and hyphens. */
  predicate IsNcName(t: Text) {
    t != [] && IsLetter(t[0]) && forall k :: 0 <= k < |t| ==> IsLetter(t[k]) || 0x30 <= t[k] <= 0x39 || t[k] == 0x2E || t[k] == 0x2D
  }

  /** An Assertion of this version, with an identifier; the first thing looked at. */
  predicate IsAssertion(root: Forest)
    requires root.Element?
  {
    var id := GetAttribute(root.attrs, "ID");
    && root.name == ASSERTION && GetAttribute(root.attrs, "Version") == Some(U("2.0"))
    && id.Some? && |id.value| <= MAX_SAML_ID_LENGTH && IsNcName(id.value)
  }

  const ENTITY := "urn:oasis:names:tc:SAML:2.0:nameid-format:entity"

  /** An Issuer is in no other format. */
  predicate NamesEntity(issuer: Forest)
    requires issuer.Element?
  {
    var format := GetAttribute(issuer.attrs, "Format");
    format.None? || format.value == [] || format.value == U(ENTITY)
  }

  /** The fields of a signed Assertion of exactly this shape. */
  function CheckShape(root: Forest): Option<Fields>
    requires root.Element?
  {
    var id := GetAttribute(root.attrs, "ID");
    var kids := ExpectChildren(root, SIGNED_CHILDREN, true);
    if !IsAssertion(root) || kids.None? || !ExpectAttributes(root, ["ID", "Version", "IssueInstant"]) then None
    else
      var subject, conditions, authn := CheckSubject(kids.value[2]), CheckConditions(kids.value[3]), CheckAuthn(kids.value[4]);
      if subject.None? || conditions.None? || authn.None? then None
      else Some(Fields(id.value, TextOf(kids.value[0]), subject.value.0, subject.value.1, conditions.value.0, authn.value.0,
                       conditions.value.1, conditions.value.2, subject.value.2, authn.value.1))
  }

  // ---- What issuance writes has this shape ---------------------------------------------------------

  lemma ReadIsCleaned(t: Text)
    ensures ReadText(t) == Cleaned(t)
  {
    EscapeRoundTrip(t);
  }

  /** A plain text, as issuance generates and the fixed URIs are, is read as it was written. */
  predicate IsPlain(t: Text) { forall k :: 0 <= k < |t| ==> 0x28 <= t[k] < 0x3C || 0x41 <= t[k] < 0x7F }

  lemma PlainIsRead(t: Text)
    requires IsPlain(t)
    ensures ReadValue(t) == t && ReadText(t) == t
  {
    assert !HasNonXmlChars(t);
    EscapeRoundTrip(t);
    assert Blanks(t) == t;
  }

  lemma IdIsPlain(t: Text)
    requires IsSamlId(t)
    ensures IsPlain(t) && IsNcName(t)
  {
    assert forall k :: 0 <= k < |t| ==> k == 0 || 0x30 <= t[k] <= 0x39 || 0x61 <= t[k] <= 0x66;
  }

  lemma ReadElement(name: string, attrs: seq<Attribute>, children: Forest, next: Forest)
    ensures Read(Element(name, attrs, children, next)) == Element(name, ReadAttrs(attrs), Read(children), Read(next))
  {}

  lemma LeafKid(name: string, attrs: seq<Attribute>, text: Text, next: Forest)
    ensures Read(Leaf(name, attrs, text, next)) == Element(name, ReadAttrs(attrs), Words(ReadText(text), Nil), Read(next))
    ensures TextContent(Words(ReadText(text), Nil)) == ReadText(text)
  {
    ReadElement(name, attrs, Words(text, Nil), next);
    assert Read(Words(text, Nil)) == Words(ReadText(text), Read(Nil));
  }

  lemma ElementsOne(name: string, attrs: seq<Attribute>, children: Forest, next: Forest)
    ensures var rest := Elements(next);
      Elements(Element(name, attrs, children, next)) == if rest.None? then None else Some([Element(name, attrs, children, Nil)] + rest.value)
  {}

  lemma ElementsOnly(name: string, attrs: seq<Attribute>, children: Forest)
    ensures var f := Element(name, attrs, children, Nil); Elements(f) == Some([f])
  {
    var f := Element(name, attrs, children, Nil);
    ElementsOne(name, attrs, children, Nil);
    assert Elements(Nil) == Some([]) && [f] + [] == [f];
  }

  /** An identifier as issuance makes it: an underscore and 40 hexadecimal digits. */
  predicate IsSamlId(t: Text) {
    |t| == 41 && t[0] == 0x5F && forall k :: 1 <= k < 41 ==> 0x30 <= t[k] <= 0x39 || 0x61 <= t[k] <= 0x66
  }

  /** The input is one that issuance makes: identifiers and instants are plain, the format is there. */
  predicate Issued(i: Input) {
    && IsSamlId(i.assertionId) && IsPlain(i.issueInstant) && IsPlain(i.notBefore) && IsPlain(i.notOnOrAfter) && IsPlain(i.authnInstant)
    && ReadValue(i.nameIdFormat) != []
  }

  lemma DataIsRead(i: Input)
    requires Issued(i)
    ensures var data := Read(ConfirmationData(i));
      && Elements(data) == Some([data]) && ExpectChildren(data, [], false) == Some([])
      && ExpectAttributes(data, ["NotOnOrAfter", "Recipient", "InResponseTo"])
      && GetAttribute(data.attrs, "NotOnOrAfter") == Some(i.notOnOrAfter)
  {
    PlainIsRead(i.notOnOrAfter);
    var data := Read(ConfirmationData(i));
    ReadElement("saml:SubjectConfirmationData", DataAttrs(i), Nil, Nil);
    ElementsOnly("saml:SubjectConfirmationData", ReadAttrs(DataAttrs(i)), Nil);
    assert data == Element("saml:SubjectConfirmationData", ReadAttrs(DataAttrs(i)), Nil, Nil);
    assert data.attrs[0] == Attribute("NotOnOrAfter", i.notOnOrAfter);
  }

  lemma ConfirmationIsRead(i: Input)
    requires Issued(i)
    ensures var confirmation := Read(Confirmation(i)); var data := Read(ConfirmationData(i));
      && Elements(confirmation) == Some([confirmation])
      && ExpectChildren(confirmation, ["saml:SubjectConfirmationData"], false) == Some([data])
      && GetAttribute(confirmation.attrs, "Method") == Some(U(BEARER))
  {
    DataIsRead(i);
    BearerIsPlain();
    PlainIsRead(U(BEARER));
    var confirmation := Read(Confirmation(i));
    ReadElement("saml:SubjectConfirmation", [Attr("Method", U(BEARER))], ConfirmationData(i), Nil);
    ElementsOnly("saml:SubjectConfirmation", ReadAttrs([Attr("Method", U(BEARER))]), Read(ConfirmationData(i)));
    assert confirmation.attrs[0] == Attribute("Method", U(BEARER));
  }

  lemma BearerIsPlain()
    ensures IsPlain(U(BEARER)) && IsPlain(U("2.0"))
  {
    PlainText(BEARER);
    PlainText("2.0");
  }

  lemma PlainText(s: string)
    requires forall k :: 0 <= k < |s| ==> 0x28 <= s[k] as int < 0x3C || 0x41 <= s[k] as int < 0x7F
    ensures IsPlain(U(s))
  {}

  lemma ElementsTwo(name: string, attrs: seq<Attribute>, children: Forest, next: Forest)
    requires next.Element? && Elements(next) == Some([next])
    ensures Elements(Element(name, attrs, children, next)) == Some([Element(name, attrs, children, Nil), next])
  {
    ElementsOne(name, attrs, children, next);
    assert [Element(name, attrs, children, Nil)] + [next] == [Element(name, attrs, children, Nil), next];
  }

  /** A leaf read back, and as the only child. */
  function ReadLeaf(name: string, attrs: seq<Attribute>, text: Text): Forest {
    Element(name, ReadAttrs(attrs), Words(ReadText(text), Nil), Nil)
  }

  lemma LeafIsRead(name: string, attrs: seq<Attribute>, text: Text)
    ensures Read(Leaf(name, attrs, text, Nil)) == ReadLeaf(name, attrs, text)
    ensures Elements(Read(Leaf(name, attrs, text, Nil))) == Some([ReadLeaf(name, attrs, text)])
    ensures TextOf(ReadLeaf(name, attrs, text)) == ReadText(text)
  {
    LeafKid(name, attrs, text, Nil);
    ElementsOnly(name, ReadAttrs(attrs), Words(ReadText(text), Nil));
  }

  /** An element in a row, taken by itself. */
  function Single(f: Forest): Forest
    requires f.Element?
  {
    Element(f.name, f.attrs, f.children, Nil)
  }

  lemma SubjectKids(i: Input)
    requires Issued(i)
    ensures Elements(Read(Leaf("saml:NameID", [Attr("Format", i.nameIdFormat)], i.nameId, Confirmation(i))))
      == Some([ReadLeaf("saml:NameID", [Attr("Format", i.nameIdFormat)], i.nameId), Read(Confirmation(i))])
  {
    ConfirmationIsRead(i);
    LeafKid("saml:NameID", [Attr("Format", i.nameIdFormat)], i.nameId, Confirmation(i));
    ElementsTwo("saml:NameID", ReadAttrs([Attr("Format", i.nameIdFormat)]), Words(ReadText(i.nameId), Nil), Read(Confirmation(i)));
  }

  function ReadSubject(i: Input): Forest {
    Element("saml:Subject", [], Read(Leaf("saml:NameID", [Attr("Format", i.nameIdFormat)], i.nameId, Confirmation(i))), Nil)
  }

  lemma SubjectIsRead(i: Input)
    requires Issued(i)
    ensures CheckSubject(ReadSubject(i)) == Some((ReadText(i.nameId), ReadValue(i.nameIdFormat), i.notOnOrAfter))
  {
    SubjectChildren(i);
    NameIdIsRead(i);
    ConfirmationIsRead(i);
    DataIsRead(i);
  }

  function ReadNameId(i: Input): Forest { ReadLeaf("saml:NameID", [Attr("Format", i.nameIdFormat)], i.nameId) }

  lemma SubjectChildren(i: Input)
    requires Issued(i)
    ensures ExpectChildren(ReadSubject(i), ["saml:NameID", "saml:SubjectConfirmation"], false) == Some([ReadNameId(i), Read(Confirmation(i))])
  {
    SubjectKids(i);
    ReadElement("saml:SubjectConfirmation", [Attr("Method", U(BEARER))], ConfirmationData(i), Nil);
  }

  lemma NameIdIsRead(i: Input)
    ensures var el := ReadNameId(i);
      ExpectAttributes(el, ["Format"]) && GetAttribute(el.attrs, "Format") == Some(ReadValue(i.nameIdFormat)) && TextOf(el) == ReadText(i.nameId)
  {
    LeafIsRead("saml:NameID", [Attr("Format", i.nameIdFormat)], i.nameId);
    assert ReadNameId(i).attrs[0] == Attribute("Format", ReadValue(i.nameIdFormat));
  }

  function ReadConditions(i: Input): Forest {
    Element("saml:Conditions", ReadAttrs([Attr("NotBefore", i.notBefore), Attr("NotOnOrAfter", i.notOnOrAfter)]),
      Read(Element("saml:AudienceRestriction", [], Leaf("saml:Audience", [], i.audience, Nil), Nil)), Nil)
  }

  lemma GetAt(attrs: seq<Attribute>, n: nat, name: string)
    requires n < |attrs| && attrs[n].name == name && forall k :: 0 <= k < n ==> attrs[k].name != name
    ensures GetAttribute(attrs, name) == Some(attrs[n].value)
    decreases n
  {
    if n > 0 { GetAt(attrs[1..], n - 1, name); }
  }

  lemma ConditionsAttrs(i: Input)
    requires Issued(i)
    ensures ExpectAttributes(ReadConditions(i), ["NotBefore", "NotOnOrAfter"])
    ensures GetAttribute(ReadConditions(i).attrs, "NotBefore") == Some(i.notBefore)
    ensures GetAttribute(ReadConditions(i).attrs, "NotOnOrAfter") == Some(i.notOnOrAfter)
  {
    PlainIsRead(i.notBefore);
    PlainIsRead(i.notOnOrAfter);
    var attrs := ReadConditions(i).attrs;
    GetAt(attrs, 0, "NotBefore");
    GetAt(attrs, 1, "NotOnOrAfter");
  }

  lemma ConditionsAreRead(i: Input)
    requires Issued(i)
    ensures CheckConditions(ReadConditions(i)) == Some((ReadText(i.audience), i.notBefore, i.notOnOrAfter))
  {
    ConditionsAttrs(i);
    RestrictionIsRead(i);
    OneRestriction(i);
  }

  lemma OneRestriction(i: Input)
    ensures var restriction := Read(Element("saml:AudienceRestriction", [], Leaf("saml:Audience", [], i.audience, Nil), Nil));
      ExpectChildren(ReadConditions(i), ["saml:AudienceRestriction"], false) == Some([restriction])
  {
    RestrictionIsRead(i);
  }

  lemma RestrictionIsRead(i: Input)
    ensures var restriction := Read(Element("saml:AudienceRestriction", [], Leaf("saml:Audience", [], i.audience, Nil), Nil));
      && restriction.Element? && Elements(restriction) == Some([restriction]) && restriction.name == "saml:AudienceRestriction"
      && ExpectChildren(restriction, ["saml:Audience"], false) == Some([ReadLeaf("saml:Audience", [], i.audience)])
      && TextOf(ReadLeaf("saml:Audience", [], i.audience)) == ReadText(i.audience)
  {
    var leaf := Leaf("saml:Audience", [], i.audience, Nil);
    LeafIsRead("saml:Audience", [], i.audience);
    ReadElement("saml:AudienceRestriction", [], leaf, Nil);
    ElementsOnly("saml:AudienceRestriction", ReadAttrs([]), Read(leaf));
  }

  function ReadAuthn(i: Input): Forest {
    Element("saml:AuthnStatement", ReadAttrs(AuthnAttrs(i)), Read(AuthnContext(i)), Nil)
  }

  lemma AuthnAttributes(i: Input)
    requires Issued(i)
    ensures ExpectAttributes(ReadAuthn(i), ["AuthnInstant", "SessionIndex", "SessionNotOnOrAfter"])
    ensures GetAttribute(ReadAuthn(i).attrs, "AuthnInstant") == Some(i.authnInstant)
  {
    PlainIsRead(i.authnInstant);
    GetAt(ReadAuthn(i).attrs, 0, "AuthnInstant");
  }

  lemma AuthnIsRead(i: Input)
    requires Issued(i)
    ensures CheckAuthn(ReadAuthn(i)) == Some((ReadText(i.classRef), i.authnInstant))
  {
    AuthnAttributes(i);
    ContextIsRead(i);
    assert ExpectChildren(ReadAuthn(i), ["saml:AuthnContext"], false) == Some([Read(AuthnContext(i))]);
  }

  lemma ContextIsRead(i: Input)
    ensures var context := Read(AuthnContext(i));
      && context.Element? && Elements(context) == Some([context]) && context.name == "saml:AuthnContext"
      && ExpectChildren(context, ["saml:AuthnContextClassRef"], false) == Some([ReadLeaf("saml:AuthnContextClassRef", [], i.classRef)])
      && TextOf(ReadLeaf("saml:AuthnContextClassRef", [], i.classRef)) == ReadText(i.classRef)
  {
    var leaf := Leaf("saml:AuthnContextClassRef", [], i.classRef, Nil);
    LeafIsRead("saml:AuthnContextClassRef", [], i.classRef);
    ReadElement("saml:AuthnContext", [], leaf, Nil);
    ElementsOnly("saml:AuthnContext", ReadAttrs([]), Read(leaf));
  }

  // ---- The whole Assertion -------------------------------------------------------------------------

  function ReadStatement(i: Input): seq<Forest> {
    if i.attributes == [] then [] else [Read(AttributeStatement(i.attributes))]
  }

  lemma StatementIsRead(i: Input)
    ensures Elements(Read(AttributeStatement(i.attributes))) == Some(ReadStatement(i))
    ensures i.attributes != [] ==> ReadStatement(i)[0].Element? && ReadStatement(i)[0].name == "saml:AttributeStatement"
  {
    if i.attributes != [] {
      ReadElement("saml:AttributeStatement", [], SamlAttributes(i.attributes), Nil);
      ElementsOnly("saml:AttributeStatement", ReadAttrs([]), Read(SamlAttributes(i.attributes)));
    }
  }

  lemma AuthnKids(i: Input)
    ensures Elements(Read(AuthnStatement(i, AttributeStatement(i.attributes)))) == Some([ReadAuthn(i)] + ReadStatement(i))
  {
    StatementIsRead(i);
    ReadElement("saml:AuthnStatement", AuthnAttrs(i), AuthnContext(i), AttributeStatement(i.attributes));
    ElementsOne("saml:AuthnStatement", ReadAttrs(AuthnAttrs(i)), Read(AuthnContext(i)), Read(AttributeStatement(i.attributes)));
  }

  lemma ConditionsKids(i: Input)
    ensures Elements(Read(Conditions(i, AuthnStatement(i, AttributeStatement(i.attributes))))) == Some([ReadConditions(i), ReadAuthn(i)] + ReadStatement(i))
  {
    var next := AuthnStatement(i, AttributeStatement(i.attributes));
    AuthnKids(i);
    var attrs := [Attr("NotBefore", i.notBefore), Attr("NotOnOrAfter", i.notOnOrAfter)];
    var inner := Element("saml:AudienceRestriction", [], Leaf("saml:Audience", [], i.audience, Nil), Nil);
    ReadElement("saml:Conditions", attrs, inner, next);
    ElementsOne("saml:Conditions", ReadAttrs(attrs), Read(inner), Read(next));
    assert [ReadConditions(i)] + ([ReadAuthn(i)] + ReadStatement(i)) == [ReadConditions(i), ReadAuthn(i)] + ReadStatement(i);
  }

  function AfterIssuer(i: Input): Forest { Subject(i, Conditions(i, AuthnStatement(i, AttributeStatement(i.attributes)))) }

  lemma SubjectKidsOfRoot(i: Input)
    ensures Elements(Read(AfterIssuer(i))) == Some([ReadSubject(i), ReadConditions(i), ReadAuthn(i)] + ReadStatement(i))
  {
    var next := Conditions(i, AuthnStatement(i, AttributeStatement(i.attributes)));
    ConditionsKids(i);
    var inner := Leaf("saml:NameID", [Attr("Format", i.nameIdFormat)], i.nameId, Confirmation(i));
    ReadElement("saml:Subject", [], inner, next);
    assert ReadAttrs([]) == [];
    ElementsOne("saml:Subject", [], Read(inner), Read(next));
    assert [ReadSubject(i)] + ([ReadConditions(i), ReadAuthn(i)] + ReadStatement(i)) == [ReadSubject(i), ReadConditions(i), ReadAuthn(i)] + ReadStatement(i);
  }

  /** The Assertion's enveloped signature, whatever it holds. */
  predicate IsSignature(signature: Forest) { signature.Element? && signature.name == SIGNATURE && signature.next.Nil? }

  /** The decrypted Assertion, alone, as it is parsed. */
  function ReadRoot(i: Input, signature: Forest): Forest { Read(AssertionEncryption.AssertionAlone(i, signature)) }

  lemma RootKids(i: Input, signature: Forest)
    requires IsSignature(signature)
    ensures Elements(Read(AssertionBody(i, signature)))
      == Some([ReadLeaf("saml:Issuer", [], i.issuer), Single(Read(signature)), ReadSubject(i), ReadConditions(i), ReadAuthn(i)] + ReadStatement(i))
  {
    var s := Element(SIGNATURE, signature.attrs, signature.children, AfterIssuer(i));
    assert Join(signature, AfterIssuer(i)) == s;
    SubjectKidsOfRoot(i);
    ReadElement(SIGNATURE, signature.attrs, signature.children, AfterIssuer(i));
    ReadElement(SIGNATURE, signature.attrs, signature.children, Nil);
    ElementsOne(SIGNATURE, ReadAttrs(signature.attrs), Read(signature.children), Read(AfterIssuer(i)));
    LeafKid("saml:Issuer", [], i.issuer, s);
    ElementsOne("saml:Issuer", ReadAttrs([]), Words(ReadText(i.issuer), Nil), Read(s));
    var rest := [ReadSubject(i), ReadConditions(i), ReadAuthn(i)] + ReadStatement(i);
    assert [ReadLeaf("saml:Issuer", [], i.issuer)] + ([Single(Read(signature))] + rest)
        == [ReadLeaf("saml:Issuer", [], i.issuer), Single(Read(signature)), ReadSubject(i), ReadConditions(i), ReadAuthn(i)] + ReadStatement(i);
  }

  /** What the children of a signed Assertion are called. */
  lemma KidsAreNamed(i: Input, signature: Forest)
    requires IsSignature(signature)
    ensures var kids := [ReadLeaf("saml:Issuer", [], i.issuer), Single(Read(signature)), ReadSubject(i), ReadConditions(i), ReadAuthn(i)] + ReadStatement(i);
      5 <= |kids| <= 6 && forall k :: 0 <= k < |kids| ==> kids[k].Element? && kids[k].name == SIGNED_CHILDREN[k]
  {
    StatementIsRead(i);
    ReadElement(SIGNATURE, signature.attrs, signature.children, Nil);
  }

  lemma KidsAreExpected(el: Forest, kids: seq<Forest>)
    requires el.Element? && Elements(el.children) == Some(kids)
    requires 5 <= |kids| <= 6 && forall k :: 0 <= k < |kids| ==> kids[k].Element? && kids[k].name == SIGNED_CHILDREN[k]
    ensures ExpectChildren(el, SIGNED_CHILDREN, true) == Some(kids)
  {}

  lemma RootChildren(i: Input, signature: Forest)
    requires IsSignature(signature)
    ensures ExpectChildren(ReadRoot(i, signature), SIGNED_CHILDREN, true)
      == Some([ReadLeaf("saml:Issuer", [], i.issuer), Single(Read(signature)), ReadSubject(i), ReadConditions(i), ReadAuthn(i)] + ReadStatement(i))
  {
    hide AssertionBody, AssertionAttrs, ReadStatement, ReadLeaf, ReadSubject, ReadConditions, ReadAuthn, ExpectChildren, Elements;
    RootKids(i, signature);
    KidsAreNamed(i, signature);
    ReadElement(ASSERTION, [Attr("xmlns:saml", U(NAMESPACE))] + AssertionAttrs(i), AssertionBody(i, signature), Nil);
    KidsAreExpected(ReadRoot(i, signature), [ReadLeaf("saml:Issuer", [], i.issuer), Single(Read(signature)), ReadSubject(i), ReadConditions(i), ReadAuthn(i)] + ReadStatement(i));
  }

  function RootAttributes(i: Input): seq<Attribute> { ReadAttrs([Attr("xmlns:saml", U(NAMESPACE))] + AssertionAttrs(i)) }

  lemma RootIs(i: Input, signature: Forest)
    ensures ReadRoot(i, signature) == Element(ASSERTION, RootAttributes(i), Read(AssertionBody(i, signature)), Nil)
  {
    ReadElement(ASSERTION, [Attr("xmlns:saml", U(NAMESPACE))] + AssertionAttrs(i), AssertionBody(i, signature), Nil);
  }

  lemma RootAttrs(i: Input)
    requires Issued(i)
    ensures var attrs := RootAttributes(i);
      && |attrs| == 4 && attrs[0].name == "xmlns:saml" && attrs[3].name == "IssueInstant"
      && attrs[1] == Attribute("ID", i.assertionId) && attrs[2] == Attribute("Version", U("2.0"))
  {
    IdIsPlain(i.assertionId);
    PlainIsRead(i.assertionId);
    BearerIsPlain();
    PlainIsRead(U("2.0"));
  }

  lemma RootGets(attrs: seq<Attribute>, id: Text, version: Text)
    requires |attrs| == 4 && attrs[0].name == "xmlns:saml" && attrs[3].name == "IssueInstant"
    requires attrs[1] == Attribute("ID", id) && attrs[2] == Attribute("Version", version)
    ensures GetAttribute(attrs, "ID") == Some(id) && GetAttribute(attrs, "Version") == Some(version)
    ensures forall k :: 0 <= k < |attrs| ==> IsNamespaceDeclaration(attrs[k].name) || attrs[k].name in ["ID", "Version", "IssueInstant"]
  {
    GetAt(attrs, 1, "ID");
    GetAt(attrs, 2, "Version");
  }

  function RootElements(i: Input, signature: Forest): seq<Forest>
    requires signature.Element?
  {
    [ReadLeaf("saml:Issuer", [], i.issuer), Single(Read(signature)), ReadSubject(i), ReadConditions(i), ReadAuthn(i)] + ReadStatement(i)
  }

  lemma RootIsChecked(i: Input, signature: Forest)
    requires Issued(i) && IsSignature(signature)
    ensures var root := ReadRoot(i, signature);
      && root.Element? && IsAssertion(root) && ExpectChildren(root, SIGNED_CHILDREN, true) == Some(RootElements(i, signature))
      && GetAttribute(root.attrs, "ID") == Some(i.assertionId)
      && ExpectAttributes(root, ["ID", "Version", "IssueInstant"])
  {
    RootChildren(i, signature);
    RootIs(i, signature);
    RootAttrs(i);
    RootGets(RootAttributes(i), i.assertionId, U("2.0"));
    IdIsPlain(i.assertionId);
  }

  lemma FieldsAreRead(i: Input)
    requires Issued(i)
    ensures TextOf(ReadLeaf("saml:Issuer", [], i.issuer)) == Cleaned(i.issuer)
    ensures CheckSubject(ReadSubject(i)) == Some((Cleaned(i.nameId), Blanks(Cleaned(i.nameIdFormat)), i.notOnOrAfter))
    ensures CheckConditions(ReadConditions(i)) == Some((Cleaned(i.audience), i.notBefore, i.notOnOrAfter))
    ensures CheckAuthn(ReadAuthn(i)) == Some((Cleaned(i.classRef), i.authnInstant))
  {
    SubjectIsRead(i);
    ConditionsAreRead(i);
    AuthnIsRead(i);
    LeafIsRead("saml:Issuer", [], i.issuer);
    ReadIsCleaned(i.issuer);
    ReadIsCleaned(i.nameId);
    ReadIsCleaned(i.nameIdFormat);
    ReadIsCleaned(i.audience);
    ReadIsCleaned(i.classRef);
  }

  /** The fields an issued Assertion is read to have: what was put in, cleaned of what XML cannot carry. */
  function FieldsOf(i: Input): Fields {
    Fields(i.assertionId, Cleaned(i.issuer), Cleaned(i.nameId), Blanks(Cleaned(i.nameIdFormat)), Cleaned(i.audience), Cleaned(i.classRef),
           i.notBefore, i.notOnOrAfter, i.notOnOrAfter, i.authnInstant)
  }

  lemma RootElementsAre(i: Input, signature: Forest)
    requires IsSignature(signature)
    ensures var kids := RootElements(i, signature);
      && |kids| >= 5 && kids[0] == ReadLeaf("saml:Issuer", [], i.issuer) && kids[0].attrs == []
      && kids[2] == ReadSubject(i) && kids[3] == ReadConditions(i) && kids[4] == ReadAuthn(i)
      && forall k :: 0 <= k < |kids| ==> kids[k].Element?
  {
    StatementIsRead(i);
  }

  /** Every signed Assertion that issuance writes passes the shape check, whatever its inputs. */
  lemma IssuedShapeIsAccepted(i: Input, signature: Forest)
    requires Issued(i) && IsSignature(signature)
    ensures CheckShape(ReadRoot(i, signature)) == Some(FieldsOf(i))
  {
    RootIsChecked(i, signature);
    FieldsAreRead(i);
    RootElementsAre(i, signature);
    ShapeIs(ReadRoot(i, signature), RootElements(i, signature), i.assertionId,
      (Cleaned(i.nameId), Blanks(Cleaned(i.nameIdFormat)), i.notOnOrAfter), (Cleaned(i.audience), i.notBefore, i.notOnOrAfter), (Cleaned(i.classRef), i.authnInstant));
  }

  lemma ShapeIs(root: Forest, kids: seq<Forest>, id: Text, subject: (Text, Text, Text), conditions: (Text, Text, Text), authn: (Text, Text))
    requires root.Element? && IsAssertion(root) && ExpectChildren(root, SIGNED_CHILDREN, true) == Some(kids)
    requires GetAttribute(root.attrs, "ID") == Some(id)
    requires ExpectAttributes(root, ["ID", "Version", "IssueInstant"])
    requires |kids| >= 5 && forall k :: 0 <= k < |kids| ==> kids[k].Element?
    requires CheckSubject(kids[2]) == Some(subject) && CheckConditions(kids[3]) == Some(conditions) && CheckAuthn(kids[4]) == Some(authn)
    ensures CheckShape(root) == Some(Fields(id, TextOf(kids[0]), subject.0, subject.1, conditions.0, authn.0, conditions.1, conditions.2, subject.2, authn.1))
  {}
}
