/**
The Response document, and the encryption of its Assertion.

Identifiers and instants are what the source generates: an underscore and hexadecimal digits, and
ISO 8601 with whole seconds. They are parameters here; like the fixed URIs they hold no character
that escaping changes, so it does not matter that every value is written escaped.
*/
module ResponseXml {
  import opened Optional
  import opened XmlEscape
  import opened XmlMarkup

  datatype SamlAttribute = SamlAttribute(name: Text, values: seq<Text>)

  datatype Input = Input(
    responseId: Text, assertionId: Text,
    issueInstant: Text, notBefore: Text, notOnOrAfter: Text, authnInstant: Text,
    issuer: Text, requestId: Option<Text>, acsUrl: Text, audience: Text,
    nameId: Text, nameIdFormat: Text, attributes: seq<SamlAttribute>,
    sessionIndex: Text, sessionNotOnOrAfter: Option<Text>, classRef: Text)

  function Attr(name: string, value: Text): Attribute { Attribute(name, value) }

  function IfSome(name: string, value: Option<Text>): seq<Attribute> {
    if value.Some? then [Attr(name, value.value)] else []
  }

  function Leaf(name: string, attrs: seq<Attribute>, text: Text, next: Forest): Forest {
    Element(name, attrs, Words(text, Nil), next)
  }

  /** Of no values an empty text, so that an attribute is written with both its tags. */
  function AttributeValues(values: seq<Text>): Forest {
    if values == [] then Words([], Nil) else Leaf("saml:AttributeValue", [], values[0], AttributeValues(values[1..]))
  }

  const BASIC := "urn:oasis:names:tc:SAML:2.0:attrname-format:basic"

  function SamlAttributes(attributes: seq<SamlAttribute>): Forest {
    if attributes == [] then Nil
    else Element("saml:Attribute", [Attr("Name", attributes[0].name), Attr("NameFormat", U(BASIC))],
                 AttributeValues(attributes[0].values), SamlAttributes(attributes[1..]))
  }

  function AttributeStatement(attributes: seq<SamlAttribute>): Forest {
    if attributes == [] then Nil else Element("saml:AttributeStatement", [], SamlAttributes(attributes), Nil)
  }

  const BEARER := "urn:oasis:names:tc:SAML:2.0:cm:bearer"

  function DataAttrs(i: Input): seq<Attribute> {
    [Attr("NotOnOrAfter", i.notOnOrAfter), Attr("Recipient", i.acsUrl)] + IfSome("InResponseTo", i.requestId)
  }

  function ConfirmationData(i: Input): Forest { Element("saml:SubjectConfirmationData", DataAttrs(i), Nil, Nil) }

  function Confirmation(i: Input): Forest {
    Element("saml:SubjectConfirmation", [Attr("Method", U(BEARER))], ConfirmationData(i), Nil)
  }

  function Subject(i: Input, next: Forest): Forest {
    Element("saml:Subject", [], Leaf("saml:NameID", [Attr("Format", i.nameIdFormat)], i.nameId, Confirmation(i)), next)
  }

  function Conditions(i: Input, next: Forest): Forest {
    Element("saml:Conditions", [Attr("NotBefore", i.notBefore), Attr("NotOnOrAfter", i.notOnOrAfter)],
      Element("saml:AudienceRestriction", [], Leaf("saml:Audience", [], i.audience, Nil), Nil), next)
  }

  function AuthnContext(i: Input): Forest {
    Element("saml:AuthnContext", [], Leaf("saml:AuthnContextClassRef", [], i.classRef, Nil), Nil)
  }

  function AuthnAttrs(i: Input): seq<Attribute> {
    [Attr("AuthnInstant", i.authnInstant), Attr("SessionIndex", i.sessionIndex)] + IfSome("SessionNotOnOrAfter", i.sessionNotOnOrAfter)
  }

  function AuthnStatement(i: Input, next: Forest): Forest { Element("saml:AuthnStatement", AuthnAttrs(i), AuthnContext(i), next) }

  function Join(a: Forest, b: Forest): Forest {
    match a
    case Nil => b
    case Words(t, n) => Words(t, Join(n, b))
    case Element(name, attrs, children, n) => Element(name, attrs, children, Join(n, b))
  }

  const ASSERTION := "saml:Assertion"

  function AssertionAttrs(i: Input): seq<Attribute> {
    [Attr("ID", i.assertionId), Attr("Version", U("2.0")), Attr("IssueInstant", i.issueInstant)]
  }

  /** `signature`: nothing, or the Assertion's enveloped signature, after its Issuer. */
  function AssertionBody(i: Input, signature: Forest): Forest {
    Leaf("saml:Issuer", [], i.issuer,
      Join(signature, Subject(i, Conditions(i, AuthnStatement(i, AttributeStatement(i.attributes))))))
  }

  function Assertion(i: Input, signature: Forest): Forest {
    Element(ASSERTION, AssertionAttrs(i), AssertionBody(i, signature), Nil)
  }

  const PROTOCOL := "urn:oasis:names:tc:SAML:2.0:protocol"
  const NAMESPACE := "urn:oasis:names:tc:SAML:2.0:assertion"
  const SUCCESS := "urn:oasis:names:tc:SAML:2.0:status:Success"

  function Response(i: Input, signature: Forest): Forest {
    Element(RESPONSE, ResponseAttrs(i), Leaf("saml:Issuer", [], i.issuer, Status(Assertion(i, signature))), Nil)
  }

  /** The document with every field the Response and its Assertion carry. */
  function BuildResponseXml(i: Input, signature: Forest): Text { Render(Response(i, signature)) }

  // ---- No other Assertion ------------------------------------------------------------------------

  /** Names can be written, and none is that of the Assertion. */
  predicate Harmless(cs: seq<Chunk>) {
    forall n :: 0 <= n < |cs| ==> ChunkOk(cs[n]) && (cs[n].Plain? || cs[n].name != ASSERTION)
  }

  lemma HarmlessConcat(a: seq<Chunk>, b: seq<Chunk>)
    requires Harmless(a) && Harmless(b)
    ensures Harmless(a + b)
  {}

  predicate PlainName(name: string) { IsName(name) && name != ASSERTION }

  predicate AttrNames(attrs: seq<Attribute>) { forall n :: 0 <= n < |attrs| ==> IsName(attrs[n].name) }

  lemma HarmlessElement(f: Forest)
    requires f.Element? && PlainName(f.name) && AttrNames(f.attrs) && Harmless(Chunks(f.children)) && Harmless(Chunks(f.next))
    ensures Harmless(Chunks(f))
  {
    if !f.children.Nil? {
      HarmlessConcat([Start(f.name, f.attrs, false)], Chunks(f.children));
      HarmlessConcat([Start(f.name, f.attrs, false)] + Chunks(f.children), [End(f.name)]);
      HarmlessConcat([Start(f.name, f.attrs, false)] + Chunks(f.children) + [End(f.name)], Chunks(f.next));
    } else {
      HarmlessConcat([Start(f.name, f.attrs, true)], Chunks(f.next));
    }
  }

  lemma HarmlessEmpty(name: string, attrs: seq<Attribute>)
    requires PlainName(name) && AttrNames(attrs)
    ensures Harmless(Chunks(Element(name, attrs, Nil, Nil)))
  {}

  lemma HarmlessLeaf(name: string, attrs: seq<Attribute>, text: Text, next: Forest)
    requires PlainName(name) && AttrNames(attrs) && Harmless(Chunks(next))
    ensures Harmless(Chunks(Leaf(name, attrs, text, next)))
  {
    assert Chunks(Words(text, Nil)) == [Plain(text)];
    HarmlessElement(Leaf(name, attrs, text, next));
  }

  lemma {:induction false} HarmlessValues(values: seq<Text>)
    ensures Harmless(Chunks(AttributeValues(values)))
  {
    if values != [] {
      HarmlessValues(values[1..]);
      HarmlessLeaf("saml:AttributeValue", [], values[0], AttributeValues(values[1..]));
    }
  }

  lemma {:induction false} HarmlessAttributes(attributes: seq<SamlAttribute>)
    ensures Harmless(Chunks(SamlAttributes(attributes)))
  {
    if attributes != [] {
      HarmlessValues(attributes[0].values);
      HarmlessAttributes(attributes[1..]);
      HarmlessElement(SamlAttributes(attributes));
    }
  }

  lemma HarmlessStatement(attributes: seq<SamlAttribute>)
    ensures Harmless(Chunks(AttributeStatement(attributes)))
  {
    HarmlessAttributes(attributes);
    StatementName();
    assert Chunks(Nil) == [];
    if attributes != [] { HarmlessElement(Element("saml:AttributeStatement", [], SamlAttributes(attributes), Nil)); }
  }

  lemma StatementName()
    ensures PlainName("saml:AttributeStatement")
  {}

  lemma HarmlessConfirmation(i: Input)
    ensures Harmless(Chunks(Confirmation(i)))
  {
    HarmlessData(i);
    HarmlessElement(Confirmation(i));
  }

  lemma HarmlessData(i: Input)
    ensures Harmless(Chunks(ConfirmationData(i)))
  {
    DataNames(i);
    DataName();
    HarmlessEmpty("saml:SubjectConfirmationData", DataAttrs(i));
  }

  lemma DataName()
    ensures PlainName("saml:SubjectConfirmationData")
  {}

  lemma NamesOf(a: string, x: Text, b: string, y: Text, c: string, z: Option<Text>)
    requires IsName(a) && IsName(b) && IsName(c)
    ensures AttrNames([Attr(a, x), Attr(b, y)] + IfSome(c, z))
  {}

  lemma DataNames(i: Input)
    ensures AttrNames(DataAttrs(i))
  {
    NamesOf("NotOnOrAfter", i.notOnOrAfter, "Recipient", i.acsUrl, "InResponseTo", i.requestId);
  }

  lemma AuthnNames(i: Input)
    ensures AttrNames(AuthnAttrs(i))
  {
    NamesOf("AuthnInstant", i.authnInstant, "SessionIndex", i.sessionIndex, "SessionNotOnOrAfter", i.sessionNotOnOrAfter);
  }

  lemma HarmlessSubject(i: Input, next: Forest)
    requires Harmless(Chunks(next))
    ensures Harmless(Chunks(Subject(i, next)))
  {
    HarmlessConfirmation(i);
    HarmlessLeaf("saml:NameID", [Attr("Format", i.nameIdFormat)], i.nameId, Confirmation(i));
    HarmlessElement(Subject(i, next));
  }

  lemma HarmlessConditions(i: Input, next: Forest)
    requires Harmless(Chunks(next))
    ensures Harmless(Chunks(Conditions(i, next)))
  {
    HarmlessLeaf("saml:Audience", [], i.audience, Nil);
    HarmlessElement(Element("saml:AudienceRestriction", [], Leaf("saml:Audience", [], i.audience, Nil), Nil));
    HarmlessElement(Conditions(i, next));
  }

  lemma HarmlessContext(i: Input)
    ensures Harmless(Chunks(AuthnContext(i)))
  {
    HarmlessLeaf("saml:AuthnContextClassRef", [], i.classRef, Nil);
    HarmlessElement(AuthnContext(i));
  }

  lemma HarmlessAuthn(i: Input, next: Forest)
    requires Harmless(Chunks(next))
    ensures Harmless(Chunks(AuthnStatement(i, next)))
  {
    HarmlessContext(i);
    AuthnNames(i);
    HarmlessElement(AuthnStatement(i, next));
  }

  lemma {:induction false} HarmlessJoin(a: Forest, b: Forest)
    requires Harmless(Chunks(a)) && Harmless(Chunks(b))
    ensures Harmless(Chunks(Join(a, b)))
  {
    match a {
      case Nil =>
      case Words(t, n) =>
        assert Chunks(a) == [Plain(t)] + Chunks(n);
        forall k | 0 <= k < |Chunks(n)| ensures Chunks(n)[k] == Chunks(a)[k + 1] {}
        HarmlessJoin(n, b);
      case Element(name, attrs, children, n) =>
        HarmlessParts(a);
        HarmlessJoin(n, b);
        HarmlessElement(Join(a, b));
    }
  }

  lemma HarmlessSplit(a: seq<Chunk>, b: seq<Chunk>)
    requires Harmless(a + b)
    ensures Harmless(a) && Harmless(b)
  {
    forall k | 0 <= k < |a| ensures a[k] == (a + b)[k] {}
    forall k | 0 <= k < |b| ensures b[k] == (a + b)[k + |a|] {}
  }

  lemma HarmlessParts(f: Forest)
    requires f.Element? && Harmless(Chunks(f))
    ensures PlainName(f.name) && AttrNames(f.attrs) && Harmless(Chunks(f.children)) && Harmless(Chunks(f.next))
  {
    var start := [Start(f.name, f.attrs, f.children.Nil?)];
    if f.children.Nil? {
      HarmlessSplit(start, Chunks(f.next));
    } else {
      HarmlessSplit(start + Chunks(f.children) + [End(f.name)], Chunks(f.next));
      HarmlessSplit(start + Chunks(f.children), [End(f.name)]);
      HarmlessSplit(start, Chunks(f.children));
    }
    assert start[0].Start? && ChunkOk(start[0]);
  }

  lemma HarmlessBody(i: Input, signature: Forest)
    requires Harmless(Chunks(signature))
    ensures Harmless(Chunks(AssertionBody(i, signature)))
  {
    HarmlessStatement(i.attributes);
    HarmlessAuthn(i, AttributeStatement(i.attributes));
    HarmlessConditions(i, AuthnStatement(i, AttributeStatement(i.attributes)));
    HarmlessSubject(i, Conditions(i, AuthnStatement(i, AttributeStatement(i.attributes))));
    var rest := Subject(i, Conditions(i, AuthnStatement(i, AttributeStatement(i.attributes))));
    HarmlessJoin(signature, rest);
    HarmlessLeaf("saml:Issuer", [], i.issuer, Join(signature, rest));
  }

  // ---- Exactly one Assertion -----------------------------------------------------------------------

  const OPEN: Text := [LT] + (U(ASSERTION) + U(" "))
  const CLOSE: Text := [LT] + (U("/") + U(ASSERTION) + U(">"))

  lemma TagsArePatterns()
    ensures Pattern(OPEN) && Pattern(CLOSE)
  {
    NameText(ASSERTION);
  }

  predicate EndsName(u: CodeUnit) { u == 0x20 || u == 0x2F || u == GT }

  /** Where a tag's name ends. */
  function NameEnd(t: Text, i: nat): (j: nat)
    requires i <= |t|
    ensures i <= j <= |t| && (forall k :: i <= k < j ==> !EndsName(t[k])) && (j < |t| ==> EndsName(t[j]))
    decreases |t| - i
  {
    if i < |t| && !EndsName(t[i]) then NameEnd(t, i + 1) else i
  }

  lemma NameEndIs(t: Text, i: nat, j: nat)
    requires i <= j < |t| && (forall k :: i <= k < j ==> !EndsName(t[k])) && EndsName(t[j])
    ensures NameEnd(t, i) == j
  {}

  /** A start tag's text, from its "<" to the end of its name. */
  lemma StartName(name: string, rest: Text)
    requires IsName(name) && rest != [] && EndsName(rest[0])
    ensures var t := [LT] + (U(name) + rest);
      NameEnd(t, 1) == 1 + |name| && forall k :: 0 <= k < |name| ==> t[1 + k] == name[k] as int
  {
    NameText(name);
    var t := [LT] + (U(name) + rest);
    forall k | 1 <= k < 1 + |name| ensures !EndsName(t[k]) { assert t[k] == U(name)[k - 1]; }
    assert t[1 + |name|] == rest[0];
    NameEndIs(t, 1, 1 + |name|);
  }

  lemma EndName(name: string)
    ensures NameEnd([LT] + (U("/") + U(name) + U(">")), 1) == 1
  {}

  /** What stands at the beginning of `t` is a tag of this name. */
  lemma NameStands(t: Text, name: string)
    requires IsName(name) && At(t, 0, [LT] + (U(name) + U(" ")))
    ensures NameEnd(t, 1) == 1 + |name| && forall k :: 0 <= k < |name| ==> t[1 + k] == name[k] as int
  {
    var p := [LT] + (U(name) + U(" "));
    StartName(name, U(" "));
    forall k | 0 <= k < |p| ensures t[k] == p[k] { assert t[0 + k] == p[k]; }
    NameEndIs(t, 1, 1 + |name|);
  }

  lemma RestEndsName(attrs: seq<Attribute>, empty: bool)
    requires AttrNames(attrs)
    ensures TagRest(attrs, empty) != [] && EndsName(TagRest(attrs, empty)[0])
  {
    AttrsText(attrs);
  }

  /** A tag that begins like the Assertion's start tag is a start tag of that name. */
  lemma OpensOnly(c: Chunk)
    requires ChunkOk(c) && !c.Plain? && At(WriteChunk(c), 0, OPEN)
    ensures c.Start? && c.name == ASSERTION
  {
    NameStands(WriteChunk(c), ASSERTION);
    EndName(c.name);
    if c.Start? {
      RestEndsName(c.attrs, c.empty);
      StartName(c.name, TagRest(c.attrs, c.empty));
      assert |c.name| == |ASSERTION|;
      assert forall k :: 0 <= k < |c.name| ==> c.name[k] as int == ASSERTION[k] as int;
    }
  }

  lemma EndTagName(name: string)
    requires IsName(name)
    ensures var t := WriteChunk(End(name));
      t[1] == 0x2F && NameEnd(t, 2) == 2 + |name| && forall k :: 0 <= k < |name| ==> t[2 + k] == name[k] as int
  {
    NameText(name);
    var t := WriteChunk(End(name));
    forall k | 2 <= k < 2 + |name| ensures !EndsName(t[k]) && t[k] == name[k - 2] as int { assert t[k] == U(name)[k - 2]; }
    NameEndIs(t, 2, 2 + |name|);
  }

  /** The start of a tag's text, up to a ">", settles its name. */
  lemma CloseStands(t: Text)
    requires At(t, 0, CLOSE)
    ensures t[1] == 0x2F && NameEnd(t, 2) == 2 + |ASSERTION| && forall k :: 0 <= k < |ASSERTION| ==> t[2 + k] == ASSERTION[k] as int
  {
    EndTagName(ASSERTION);
    assert CLOSE == WriteChunk(End(ASSERTION));
    forall k | 0 <= k < |CLOSE| ensures t[k] == CLOSE[k] { assert t[0 + k] == CLOSE[k]; }
    NameEndIs(t, 2, 2 + |ASSERTION|);
  }

  lemma StartIsNoEnd(c: Chunk)
    requires ChunkOk(c) && c.Start?
    ensures WriteChunk(c)[1] != 0x2F
  {
    NameText(c.name);
    assert WriteChunk(c)[1] == U(c.name)[0];
  }

  lemma ClosesOnly(c: Chunk)
    requires ChunkOk(c) && !c.Plain? && At(WriteChunk(c), 0, CLOSE)
    ensures c == End(ASSERTION)
  {
    CloseStands(WriteChunk(c));
    if c.Start? {
      StartIsNoEnd(c);
    } else {
      EndTagName(c.name);
      assert |c.name| == |ASSERTION|;
      assert forall k :: 0 <= k < |c.name| ==> c.name[k] as int == ASSERTION[k] as int;
    }
  }

  lemma AssertionOpens(attrs: seq<Attribute>)
    requires attrs != [] && AttrNames(attrs)
    ensures At(WriteChunk(Start(ASSERTION, attrs, false)), 0, OPEN)
  {
    AttrsText(attrs);
    var t := WriteChunk(Start(ASSERTION, attrs, false));
    assert t[..|OPEN|] == OPEN;
    SameAt(t, 0, OPEN, 0, OPEN);
  }

  lemma AssertionCloses()
    ensures At(WriteChunk(End(ASSERTION)), 0, CLOSE)
  {}

  // ---- The document in chunks ------------------------------------------------------------------------

  function ResponseAttrs(i: Input): seq<Attribute> {
    [Attr("xmlns:samlp", U(PROTOCOL)), Attr("xmlns:saml", U(NAMESPACE)), Attr("ID", i.responseId), Attr("Version", U("2.0")),
     Attr("IssueInstant", i.issueInstant), Attr("Destination", i.acsUrl)] + IfSome("InResponseTo", i.requestId)
  }

  const RESPONSE := "samlp:Response"

  /** What stands before the Assertion. */
  function Before(i: Input): seq<Chunk> {
    [Start(RESPONSE, ResponseAttrs(i), false), Start("saml:Issuer", [], false), Plain(i.issuer), End("saml:Issuer"),
     Start("samlp:Status", [], false), Start("samlp:StatusCode", [Attr("Value", U(SUCCESS))], true), End("samlp:Status")]
  }

  function AssertionChunks(i: Input, signature: Forest): seq<Chunk> {
    [Start(ASSERTION, AssertionAttrs(i), false)] + Chunks(AssertionBody(i, signature)) + [End(ASSERTION)]
  }

  lemma ChunksOf(name: string, attrs: seq<Attribute>, children: Forest, next: Forest)
    requires !children.Nil?
    ensures Chunks(Element(name, attrs, children, next)) == [Start(name, attrs, false)] + Chunks(children) + [End(name)] + Chunks(next)
  {}

  lemma LeafChunks(name: string, attrs: seq<Attribute>, text: Text, next: Forest)
    ensures Chunks(Leaf(name, attrs, text, next)) == [Start(name, attrs, false), Plain(text), End(name)] + Chunks(next)
  {
    assert Chunks(Words(text, Nil)) == [Plain(text)];
    ChunksOf(name, attrs, Words(text, Nil), next);
  }

  function Status(next: Forest): Forest {
    Element("samlp:Status", [], Element("samlp:StatusCode", [Attr("Value", U(SUCCESS))], Nil, Nil), next)
  }

  lemma StatusChunks(next: Forest)
    ensures Chunks(Status(next)) ==
      [Start("samlp:Status", [], false), Start("samlp:StatusCode", [Attr("Value", U(SUCCESS))], true), End("samlp:Status")] + Chunks(next)
  {
    var code := Element("samlp:StatusCode", [Attr("Value", U(SUCCESS))], Nil, Nil);
    assert Chunks(code) == [Start("samlp:StatusCode", [Attr("Value", U(SUCCESS))], true)];
    ChunksOf("samlp:Status", [], code, next);
  }

  lemma AssertionIsChunks(i: Input, signature: Forest)
    ensures Chunks(Assertion(i, signature)) == AssertionChunks(i, signature)
  {
    ChunksOf(ASSERTION, AssertionAttrs(i), AssertionBody(i, signature), Nil);
  }

  lemma ResponseChunks(i: Input, signature: Forest)
    ensures Chunks(Response(i, signature)) == Before(i) + AssertionChunks(i, signature) + [End(RESPONSE)]
  {
    var assertion := Assertion(i, signature);
    var status := Status(assertion);
    var body := Leaf("saml:Issuer", [], i.issuer, status);
    AssertionIsChunks(i, signature);
    StatusChunks(assertion);
    LeafChunks("saml:Issuer", [], i.issuer, status);
    ChunksOf(RESPONSE, ResponseAttrs(i), body, Nil);
    assert Response(i, signature) == Element(RESPONSE, ResponseAttrs(i), body, Nil);
  }
}
