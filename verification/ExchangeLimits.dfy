/**
What a presented document may be at the most: 64 KiB, 200 elements and 1000 attributes, and no
document type. And how much of that an issued Assertion takes.
*/
module ExchangeLimits {
  import opened XmlEscape
  import opened XmlMarkup
  import opened ResponseXml
  import opened ExchangeShape
  import opened AssertionEncryption
  import MessageShape

  const MAX_ASSERTION_BYTES := 65536

  /** A presented text, and what the parsers make of it. */
  datatype Document = Document(xml: Text, root: Forest)

  // ---- Its size ----------------------------------------------------------------------------------

  /** Octets in UTF-8: half a surrogate pair takes two, a lone surrogate is replaced by one of three. */
  function UnitOctets(t: Text, k: nat): nat
    requires k < |t|
  {
    if t[k] < 0x80 then 1
    else if t[k] < 0x800 || (IsHigh(t[k]) && IsLowAt(t, k + 1)) || (IsLow(t[k]) && IsHighAt(t, k - 1)) then 2
    else 3
  }

  function OctetsUpTo(t: Text, n: nat): nat
    requires n <= |t|
  {
    if n == 0 then 0 else OctetsUpTo(t, n - 1) + UnitOctets(t, n - 1)
  }

  function Octets(t: Text): nat { OctetsUpTo(t, |t|) }

  function Lower(u: CodeUnit): CodeUnit { if 0x41 <= u <= 0x5A then u + 0x20 else u }

  /** "<!" and this word, in letters of either case. */
  predicate DeclaresAt(xml: Text, i: nat, word: string) {
    && i + 2 + |word| <= |xml| && xml[i] == LT && xml[i + 1] == 0x21
    && forall k :: 0 <= k < |word| ==> Lower(xml[i + 2 + k]) == U(word)[k]
  }

  predicate Declares(xml: Text) {
    exists i :: 0 <= i < |xml| && (DeclaresAt(xml, i, "doctype") || DeclaresAt(xml, i, "entity"))
  }

  predicate Prechecked(xml: Text) { Octets(xml) <= MAX_ASSERTION_BYTES && !Declares(xml) }

  // ---- Its nodes ---------------------------------------------------------------------------------

  function NodesOf(f: Forest): seq<MessageShape.Node> {
    match f
    case Nil => []
    case Words(_, next) => [MessageShape.Other] + NodesOf(next)
    case Element(_, attrs, children, next) => [MessageShape.Element(|attrs|, NodesOf(children))] + NodesOf(next)
  }

  function NodeOf(el: Forest): MessageShape.Node
    requires el.Element?
  {
    MessageShape.Element(|el.attrs|, NodesOf(el.children))
  }

  predicate FewNodes(root: Forest)
    requires root.Element?
  {
    && MessageShape.Elements(NodeOf(root)) <= MessageShape.MAX_MESSAGE_ELEMENTS
    && MessageShape.Attributes(NodeOf(root)) <= MessageShape.MAX_MESSAGE_ATTRIBUTES
  }

  predicate WithinLimits(d: Document) { d.root.Element? && Prechecked(d.xml) && FewNodes(d.root) }

  function ElementCount(f: Forest): nat {
    match f
    case Nil => 0
    case Words(_, next) => ElementCount(next)
    case Element(_, _, children, next) => 1 + ElementCount(children) + ElementCount(next)
  }

  function AttributeCount(f: Forest): nat {
    match f
    case Nil => 0
    case Words(_, next) => AttributeCount(next)
    case Element(_, attrs, children, next) => |attrs| + AttributeCount(children) + AttributeCount(next)
  }

  lemma {:induction false} NodesCount(f: Forest)
    ensures MessageShape.AllElements(NodesOf(f)) == ElementCount(f)
    ensures MessageShape.AllAttributes(NodesOf(f)) == AttributeCount(f)
    decreases f
  {
    match f {
      case Nil =>
      case Words(_, next) =>
        NodesCount(next);
        assert NodesOf(f)[1..] == NodesOf(next);
      case Element(_, attrs, children, next) =>
        NodesCount(children);
        NodesCount(next);
        assert NodesOf(f)[1..] == NodesOf(next);
    }
  }

  lemma {:induction false} ReadCounts(f: Forest)
    ensures ElementCount(Read(f)) == ElementCount(f) && AttributeCount(Read(f)) == AttributeCount(f)
    decreases f
  {
    match f {
      case Nil =>
      case Words(_, next) => ReadCounts(next);
      case Element(_, _, children, next) =>
        ReadCounts(children);
        ReadCounts(next);
    }
  }

  // ---- What an issued Assertion takes --------------------------------------------------------------

  /** The Assertion alone, as it is presented and as it is read. */
  function IssuedDocument(i: Input, signature: Forest): Document {
    Document(Render(AssertionAlone(i, signature)), ReadRoot(i, signature))
  }

  /** An element for each attribute and one for each of its values. */
  function StatementCount(attributes: seq<SamlAttribute>): nat {
    if attributes == [] then 0 else 1 + |attributes[0].values| + StatementCount(attributes[1..])
  }

  function ElementsIssued(i: Input, signature: Forest): nat {
    12 + ElementCount(signature) + if i.attributes == [] then 0 else 1 + StatementCount(i.attributes)
  }

  function AttributesIssued(i: Input, signature: Forest): nat {
    12 + AttributeCount(signature) + 2 * |i.attributes| + (if i.requestId.Some? then 1 else 0) + if i.sessionNotOnOrAfter.Some? then 1 else 0
  }

  lemma LeafCounts(name: string, attrs: seq<Attribute>, text: Text, next: Forest)
    ensures ElementCount(Leaf(name, attrs, text, next)) == 1 + ElementCount(next)
    ensures AttributeCount(Leaf(name, attrs, text, next)) == |attrs| + AttributeCount(next)
  {
    assert ElementCount(Words(text, Nil)) == ElementCount(Nil) && AttributeCount(Words(text, Nil)) == AttributeCount(Nil);
  }

  lemma {:induction false} ValuesCount(values: seq<Text>)
    ensures ElementCount(AttributeValues(values)) == |values| && AttributeCount(AttributeValues(values)) == 0
  {
    if values == [] {
      assert ElementCount(Words([], Nil)) == ElementCount(Nil) && AttributeCount(Words([], Nil)) == AttributeCount(Nil);
    } else {
      ValuesCount(values[1..]);
      LeafCounts("saml:AttributeValue", [], values[0], AttributeValues(values[1..]));
    }
  }

  lemma {:induction false} AttributesCount(attributes: seq<SamlAttribute>)
    ensures ElementCount(SamlAttributes(attributes)) == StatementCount(attributes)
    ensures AttributeCount(SamlAttributes(attributes)) == 2 * |attributes|
  {
    if attributes != [] {
      ValuesCount(attributes[0].values);
      AttributesCount(attributes[1..]);
    }
  }

  lemma StatementCounts(attributes: seq<SamlAttribute>)
    ensures ElementCount(AttributeStatement(attributes)) == if attributes == [] then 0 else 1 + StatementCount(attributes)
    ensures AttributeCount(AttributeStatement(attributes)) == 2 * |attributes|
  {
    AttributesCount(attributes);
    assert ElementCount(Nil) == 0 && AttributeCount(Nil) == 0;
    ElementCounts("saml:AttributeStatement", SamlAttributes(attributes));
  }

  lemma ElementCounts(name: string, children: Forest)
    ensures ElementCount(Element(name, [], children, Nil)) == 1 + ElementCount(children)
    ensures AttributeCount(Element(name, [], children, Nil)) == AttributeCount(children)
  {
    assert ElementCount(Nil) == 0 && AttributeCount(Nil) == 0;
  }

  lemma SubjectCounts(i: Input, next: Forest)
    ensures ElementCount(Subject(i, next)) == 4 + ElementCount(next)
    ensures AttributeCount(Subject(i, next)) == 4 + (if i.requestId.Some? then 1 else 0) + AttributeCount(next)
  {
    LeafCounts("saml:NameID", [Attr("Format", i.nameIdFormat)], i.nameId, Confirmation(i));
  }

  lemma ConditionsCounts(i: Input, next: Forest)
    ensures ElementCount(Conditions(i, next)) == 3 + ElementCount(next)
    ensures AttributeCount(Conditions(i, next)) == 2 + AttributeCount(next)
  {
    LeafCounts("saml:Audience", [], i.audience, Nil);
  }

  lemma AuthnCounts(i: Input, next: Forest)
    ensures ElementCount(AuthnStatement(i, next)) == 3 + ElementCount(next)
    ensures AttributeCount(AuthnStatement(i, next)) == 2 + (if i.sessionNotOnOrAfter.Some? then 1 else 0) + AttributeCount(next)
  {
    LeafCounts("saml:AuthnContextClassRef", [], i.classRef, Nil);
  }

  lemma SignatureCounts(signature: Forest, rest: Forest)
    requires IsSignature(signature)
    ensures ElementCount(Join(signature, rest)) == ElementCount(signature) + ElementCount(rest)
    ensures AttributeCount(Join(signature, rest)) == AttributeCount(signature) + AttributeCount(rest)
  {
    assert Join(signature, rest) == Element(signature.name, signature.attrs, signature.children, rest);
  }

  lemma BodyCounts(i: Input, signature: Forest)
    requires IsSignature(signature)
    ensures 1 + ElementCount(AssertionBody(i, signature)) == ElementsIssued(i, signature)
    ensures 4 + AttributeCount(AssertionBody(i, signature)) == AttributesIssued(i, signature)
  {
    var statement := AttributeStatement(i.attributes);
    var authn := AuthnStatement(i, statement);
    var conditions := Conditions(i, authn);
    StatementCounts(i.attributes);
    AuthnCounts(i, statement);
    ConditionsCounts(i, authn);
    SubjectCounts(i, conditions);
    SignatureCounts(signature, Subject(i, conditions));
    LeafCounts("saml:Issuer", [], i.issuer, Join(signature, Subject(i, conditions)));
  }

  lemma IssuedNodes(i: Input, signature: Forest)
    requires IsSignature(signature)
    ensures var root := ReadRoot(i, signature);
      root.Element? && MessageShape.Elements(NodeOf(root)) == ElementsIssued(i, signature) && MessageShape.Attributes(NodeOf(root)) == AttributesIssued(i, signature)
  {
    RootIs(i, signature);
    var body := AssertionBody(i, signature);
    ReadCounts(body);
    NodesCount(Read(body));
    BodyCounts(i, signature);
  }

  /** Every "<" of a written text begins a tag, and no tag begins "<!". */
  lemma WrittenDeclaresNothing(cs: seq<Chunk>)
    requires AllOk(cs)
    ensures !Declares(Write(cs))
  {
    var xml := Write(cs);
    forall i | 0 <= i < |xml| ensures !DeclaresAt(xml, i, "doctype") && !DeclaresAt(xml, i, "entity") {
      NothingBegins(cs, i);
      DeclarationBegins(xml, i, "doctype");
      DeclarationBegins(xml, i, "entity");
    }
  }

  const BANG: Text := [LT, 0x21]

  lemma DeclarationBegins(xml: Text, i: nat, word: string)
    ensures DeclaresAt(xml, i, word) ==> At(xml, i, BANG)
  {}

  lemma NothingBegins(cs: seq<Chunk>, i: nat)
    requires AllOk(cs) && i < |Write(cs)|
    ensures !At(Write(cs), i, BANG)
  {
    if At(Write(cs), i, BANG) {
      ChunksArePieces(cs, BANG);
      var n := Found(Texts(cs), BANG, i);
      TagBegins(cs[n]);
    }
  }

  lemma TagBegins(c: Chunk)
    requires ChunkOk(c)
    ensures !At(WriteChunk(c), 0, BANG)
  {
    var t := WriteChunk(c);
    if c.Plain? {
      EscapedText(c.text);
      if t != [] { NotAt(t, 0, BANG, 0); }
    } else {
      NameText(c.name);
      assert NameChar(c.name[0]) && U("/")[0] == 0x2F;
      assert t[1] == (if c.Start? then U(c.name)[0] else U("/")[0]) && t[1] != 0x21;
      NotAt(t, 0, BANG, 1);
    }
  }

  /**
   * An issued Assertion is within the limits if and only if it takes 64 KiB at the most, and its
   * attributes and their values are few enough for the elements and attributes they take.
   */
  lemma WithinLimitsIff(i: Input, signature: Forest)
    requires IsSignature(signature) && AllOk(Chunks(AssertionAlone(i, signature)))
    ensures WithinLimits(IssuedDocument(i, signature)) <==>
      Octets(Render(AssertionAlone(i, signature))) <= MAX_ASSERTION_BYTES && ElementsIssued(i, signature) <= 200 && AttributesIssued(i, signature) <= 1000
  {
    IssuedNodes(i, signature);
    WrittenDeclaresNothing(Chunks(AssertionAlone(i, signature)));
  }
}
