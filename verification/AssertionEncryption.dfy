/** The Assertion of a written Response, found by its tags and replaced with its encryption. */
module AssertionEncryption {
  import opened Optional
  import opened XmlEscape
  import opened XmlMarkup
  import opened ResponseXml

  const XMLNS := "xmlns:saml"

  const ENCRYPTED_OPEN: Text := U("<saml:EncryptedAssertion>")
  const ENCRYPTED_CLOSE: Text := U("</saml:EncryptedAssertion>")

  /** `encrypt` stands for the cipher. None: the document does not hold exactly one Assertion. */
  function EncryptAssertionInResponse(xml: Text, encrypt: Text -> Text): Option<Text> {
    var start := IndexOf(xml, OPEN, 0);
    var end := IndexOf(xml, CLOSE, 0);
    if start < 0 || end < start || IndexOf(xml, OPEN, start + 1) >= 0 || IndexOf(xml, CLOSE, end + 1) >= 0 then None
    else
      var assertion := xml[start..end + |CLOSE|];
      Some(xml[..start] + ENCRYPTED_OPEN + encrypt(Standalone(assertion)) + ENCRYPTED_CLOSE + xml[end + |CLOSE|..])
  }

  /** SPs parse the decrypted element on its own: it must declare its prefix itself. */
  function Standalone(assertion: Text): Text
    requires |assertion| >= |OPEN|
  {
    if StartsWith(assertion, OPEN + U(XMLNS) + U("=")) then assertion
    else OPEN + Declaration() + assertion[|OPEN|..]
  }

  // ---- The tags are found ------------------------------------------------------------------------

  lemma BeforeIsHarmless(i: Input)
    ensures Harmless(Before(i))
  {
    StartNames();
    ResponseNames(i);
  }

  lemma StartNames()
    ensures PlainName(RESPONSE) && PlainName("saml:Issuer") && PlainName("samlp:Status") && PlainName("samlp:StatusCode") && IsName("Value")
  {}

  lemma ResponseNames(i: Input)
    ensures AttrNames(ResponseAttrs(i))
  {}

  lemma AssertionNames(i: Input)
    ensures IsName(ASSERTION) && AttrNames(AssertionAttrs(i))
  {}

  ghost predicate Framed(cs: seq<Chunk>, before: seq<Chunk>, start: Chunk, body: seq<Chunk>, end: Chunk, after: seq<Chunk>) {
    && cs == before + [start] + body + [end] + after
    && Harmless(before) && Harmless(body) && Harmless(after) && ChunkOk(start) && ChunkOk(end)
    && start.Start? && end == End(ASSERTION)
  }

  lemma OpenIsFound(cs: seq<Chunk>, before: seq<Chunk>, start: Chunk, body: seq<Chunk>, end: Chunk, after: seq<Chunk>)
    requires Framed(cs, before, start, body, end, after) && At(WriteChunk(start), 0, OPEN)
    ensures var at := |Write(before)|; var xml := Write(cs);
      at < |xml| && IndexOf(xml, OPEN, 0) == at && IndexOf(xml, OPEN, at + 1) == -1
  {
    hide Write, IndexOf, Harmless, WriteChunk, AllOk, At;
    TagsArePatterns();
    FramedOk(cs, before, start, body, end, after);
    forall k | 0 <= k < |cs| && Fits(cs, k, OPEN) ensures k == |before| { OpensThere(cs, before, start, body, end, after, k); }
    assert cs == before + ([start] + body + [end] + after);
    FoundOnce(cs, before, [start] + body + [end] + after, OPEN);
  }

  lemma OpensThere(cs: seq<Chunk>, before: seq<Chunk>, start: Chunk, body: seq<Chunk>, end: Chunk, after: seq<Chunk>, k: nat)
    requires Framed(cs, before, start, body, end, after) && Fits(cs, k, OPEN)
    ensures k == |before|
  {
    FramedAt(cs, before, start, body, end, after, k);
    OpensOnly(cs[k]);
  }

  lemma ClosesThere(cs: seq<Chunk>, before: seq<Chunk>, start: Chunk, body: seq<Chunk>, end: Chunk, after: seq<Chunk>, k: nat)
    requires Framed(cs, before, start, body, end, after) && Fits(cs, k, CLOSE)
    ensures k == |before| + 1 + |body|
  {
    FramedAt(cs, before, start, body, end, after, k);
    ClosesOnly(cs[k]);
  }

  lemma CloseFits(cs: seq<Chunk>, n: nat)
    requires n < |cs| && cs[n] == End(ASSERTION)
    ensures Fits(cs, n, CLOSE)
  {
    AssertionCloses();
  }

  lemma CloseIsFound(cs: seq<Chunk>, before: seq<Chunk>, start: Chunk, body: seq<Chunk>, end: Chunk, after: seq<Chunk>)
    requires Framed(cs, before, start, body, end, after)
    ensures var at := |Write(before + [start] + body)|; var xml := Write(cs);
      at < |xml| && IndexOf(xml, CLOSE, 0) == at && IndexOf(xml, CLOSE, at + 1) == -1
  {
    var a := before + [start] + body;
    TagsArePatterns();
    FramedOk(cs, before, start, body, end, after);
    CloseFits(cs, |a|);
    forall k | 0 <= k < |cs| && Fits(cs, k, CLOSE) ensures k == |a| { ClosesThere(cs, before, start, body, end, after, k); }
    assert cs == a + ([end] + after);
    FoundOnce(cs, a, [end] + after, CLOSE);
  }

  lemma FramedOk(cs: seq<Chunk>, before: seq<Chunk>, start: Chunk, body: seq<Chunk>, end: Chunk, after: seq<Chunk>)
    requires Framed(cs, before, start, body, end, after)
    ensures AllOk(cs) && cs[|before|] == start && cs[|before| + 1 + |body|] == end
  {
    forall k | 0 <= k < |cs| ensures ChunkOk(cs[k]) { FramedAt(cs, before, start, body, end, after, k); }
  }

  lemma FramedAt(cs: seq<Chunk>, before: seq<Chunk>, start: Chunk, body: seq<Chunk>, end: Chunk, after: seq<Chunk>, k: nat)
    requires Framed(cs, before, start, body, end, after) && k < |cs|
    ensures ChunkOk(cs[k])
    ensures !cs[k].Plain? && cs[k].name == ASSERTION ==> (k == |before| && cs[k] == start) || (k == |before| + 1 + |body| && cs[k] == end)
  {
    if k < |before| { assert cs[k] == before[k]; }
    else if |before| < k < |before| + 1 + |body| { assert cs[k] == body[k - |before| - 1]; }
    else if k > |before| + 1 + |body| { assert cs[k] == after[k - |before| - |body| - 2]; }
  }

  lemma ResponseIsFramed(i: Input, signature: Forest)
    requires Harmless(Chunks(signature))
    ensures Framed(Chunks(Response(i, signature)), Before(i), Start(ASSERTION, AssertionAttrs(i), false),
                   Chunks(AssertionBody(i, signature)), End(ASSERTION), [End(RESPONSE)])
  {
    ResponseChunks(i, signature);
    BeforeIsHarmless(i);
    HarmlessBody(i, signature);
    StartNames();
    AssertionNames(i);
    var a := [Start(ASSERTION, AssertionAttrs(i), false)];
    assert Before(i) + AssertionChunks(i, signature) + [End(RESPONSE)]
        == Before(i) + a + Chunks(AssertionBody(i, signature)) + [End(ASSERTION)] + [End(RESPONSE)];
  }

  /** Where the tags of a document's one Assertion stand. */
  ghost predicate OneAt(xml: Text, start: nat, end: nat) {
    && start < end < |xml| && IndexOf(xml, OPEN, 0) == start && IndexOf(xml, OPEN, start + 1) == -1
    && IndexOf(xml, CLOSE, 0) == end && IndexOf(xml, CLOSE, end + 1) == -1
  }

  lemma FramedOne(cs: seq<Chunk>, before: seq<Chunk>, start: Chunk, body: seq<Chunk>, end: Chunk, after: seq<Chunk>)
    requires Framed(cs, before, start, body, end, after) && At(WriteChunk(start), 0, OPEN)
    ensures OneAt(Write(cs), |Write(before)|, |Write(before + [start] + body)|)
  {
    OpenIsFound(cs, before, start, body, end, after);
    CloseIsFound(cs, before, start, body, end, after);
    Lengths(before, start, body);
  }

  function AssertionStart(i: Input): Chunk { Start(ASSERTION, AssertionAttrs(i), false) }

  /** Whatever the inputs hold, the document has one Assertion start tag and one end tag, after it. */
  lemma ExactlyOneAssertion(i: Input, signature: Forest)
    requires Harmless(Chunks(signature))
    ensures OneAt(BuildResponseXml(i, signature), |Write(Before(i))|, |Write(Before(i) + [AssertionStart(i)] + Chunks(AssertionBody(i, signature)))|)
  {
    ResponseIsFramed(i, signature);
    AssertionNames(i);
    AssertionOpens(AssertionAttrs(i));
    FramedOne(Chunks(Response(i, signature)), Before(i), AssertionStart(i), Chunks(AssertionBody(i, signature)), End(ASSERTION), [End(RESPONSE)]);
  }

  lemma Lengths(before: seq<Chunk>, start: Chunk, body: seq<Chunk>)
    requires ChunkOk(start) && start.Start?
    ensures |Write(before + [start] + body)| > |Write(before)|
    ensures |Write(before + [start] + body + [End(ASSERTION)])| == |Write(before + [start] + body)| + |CLOSE|
  {
    WriteConcat(before + [start], body);
    WriteConcat(before, [start]);
    WriteConcat(before + [start] + body, [End(ASSERTION)]);
    WriteOne(start);
    WriteOne(End(ASSERTION));
  }

  // ---- What is encrypted ---------------------------------------------------------------------------

  /** The Assertion as an SP parses it after decrypting it: the same element, declaring its prefix. */
  function AssertionAlone(i: Input, signature: Forest): Forest {
    Element(ASSERTION, [Attr(XMLNS, U(NAMESPACE))] + AssertionAttrs(i), AssertionBody(i, signature), Nil)
  }

  lemma NamespaceIsPlain()
    ensures EscapeXml(U(NAMESPACE)) == U(NAMESPACE)
  {
    PlainTextUnchanged(NAMESPACE);
  }

  lemma {:induction false} EntitiesOfPlain(t: Text)
    requires forall k :: 0 <= k < |t| ==> !IsMarkup(t[k])
    ensures Entities(t) == t
  {
    if t != [] { EntitiesOfPlain(t[1..]); }
  }

  lemma PlainTextUnchanged(s: string)
    requires forall k :: 0 <= k < |s| ==> 'a' <= s[k] <= 'z' || 'A' <= s[k] <= 'Z' || '0' <= s[k] <= '9' || s[k] == ':' || s[k] == '.'
    ensures EscapeXml(U(s)) == U(s)
  {
    var t := U(s);
    assert forall k :: 0 <= k < |t| ==> t[k] == s[k] as int;
    assert !HasNonXmlChars(t);
    CleanIsUnchanged(t);
    EntitiesOfPlain(t);
  }

  /** A first attribute without the blank before it, and what follows. */
  function AttrsTail(attrs: seq<Attribute>): Text
    requires attrs != []
  {
    U(attrs[0].name) + U("=\"") + EscapeXml(attrs[0].value) + U("\"") + (WriteAttrs(attrs[1..]) + U(">"))
  }

  lemma Regroup(a: Text, b: Text, c: Text, d: Text, e: Text, f: Text, g: Text)
    ensures (a + b + c + d + e + f) + g == a + (b + c + d + e + (f + g))
  {}

  lemma AttrsThenEnd(attrs: seq<Attribute>)
    requires attrs != []
    ensures WriteAttrs(attrs) + U(">") == U(" ") + AttrsTail(attrs)
  {
    Regroup(U(" "), U(attrs[0].name), U("=\""), EscapeXml(attrs[0].value), U("\""), WriteAttrs(attrs[1..]), U(">"));
  }

  lemma Regroup4(a: Text, b: Text, c: Text, d: Text)
    ensures a + (b + (c + d)) == a + (b + c) + d
  {}

  lemma StartText(attrs: seq<Attribute>)
    requires attrs != []
    ensures WriteChunk(Start(ASSERTION, attrs, false)) == OPEN + AttrsTail(attrs)
  {
    AttrsThenEnd(attrs);
    Regroup4([LT], U(ASSERTION), U(" "), AttrsTail(attrs));
  }

  /** The prefix's declaration, put in front of an element's attributes. */
  function Declaration(): Text { U(XMLNS) + U("=\"") + U(NAMESPACE) + U("\"") + U(" ") }

  lemma Regroup6(a: Text, b: Text, c: Text, d: Text, e: Text, f: Text)
    ensures a + b + c + d + (e + f) == (a + b + c + d + e) + f
  {}

  lemma DeclaredTail(attrs: seq<Attribute>)
    requires attrs != []
    ensures AttrsTail([Attr(XMLNS, U(NAMESPACE))] + attrs) == Declaration() + AttrsTail(attrs)
  {
    var all := [Attr(XMLNS, U(NAMESPACE))] + attrs;
    assert all[0] == Attr(XMLNS, U(NAMESPACE)) && all[1..] == attrs;
    NamespaceIsPlain();
    AttrsThenEnd(attrs);
    Regroup6(U(XMLNS), U("=\""), U(NAMESPACE), U("\""), U(" "), AttrsTail(attrs));
  }

  function BodyText(i: Input, signature: Forest): Text { Write(Chunks(AssertionBody(i, signature)) + [End(ASSERTION)]) }

  lemma ElementText(attrs: seq<Attribute>, body: Forest)
    requires !body.Nil?
    ensures Render(Element(ASSERTION, attrs, body, Nil)) == WriteChunk(Start(ASSERTION, attrs, false)) + Write(Chunks(body) + [End(ASSERTION)])
  {
    var start := [Start(ASSERTION, attrs, false)];
    ChunksOf(ASSERTION, attrs, body, Nil);
    assert start + Chunks(body) + [End(ASSERTION)] + Chunks(Nil) == start + (Chunks(body) + [End(ASSERTION)]);
    WriteConcat(start, Chunks(body) + [End(ASSERTION)]);
    WriteOne(start[0]);
  }

  lemma AssertionText(i: Input, signature: Forest)
    ensures Render(Assertion(i, signature)) == OPEN + (AttrsTail(AssertionAttrs(i)) + BodyText(i, signature))
  {
    ElementText(AssertionAttrs(i), AssertionBody(i, signature));
    StartText(AssertionAttrs(i));
    Regroup3(OPEN, AttrsTail(AssertionAttrs(i)), BodyText(i, signature));
  }

  lemma Regroup3(a: Text, b: Text, c: Text)
    ensures a + b + c == a + (b + c)
  {}

  lemma AloneText(i: Input, signature: Forest)
    ensures Render(AssertionAlone(i, signature)) == OPEN + (Declaration() + AttrsTail(AssertionAttrs(i))) + BodyText(i, signature)
  {
    ElementText([Attr(XMLNS, U(NAMESPACE))] + AssertionAttrs(i), AssertionBody(i, signature));
    StartText([Attr(XMLNS, U(NAMESPACE))] + AssertionAttrs(i));
    DeclaredTail(AssertionAttrs(i));
  }

  lemma NotDeclared(tail: Text)
    requires tail != [] && tail[0] != U(XMLNS)[0]
    ensures !StartsWith(OPEN + tail, OPEN + U(XMLNS) + U("="))
  {
    XmlEscape.NotStart(OPEN + tail, OPEN + U(XMLNS) + U("="), |OPEN|);
  }

  lemma IdComesFirst(i: Input)
    ensures AttrsTail(AssertionAttrs(i)) != [] && AttrsTail(AssertionAttrs(i))[0] != U(XMLNS)[0]
  {
    assert AssertionAttrs(i)[0] == Attr("ID", i.assertionId);
  }

  lemma StandaloneText(tail: Text, body: Text)
    requires tail != [] && tail[0] != U(XMLNS)[0]
    ensures Standalone(OPEN + (tail + body)) == OPEN + (Declaration() + tail) + body
  {
    NotDeclared(tail + body);
    assert (OPEN + (tail + body))[|OPEN|..] == tail + body;
    assert OPEN + Declaration() + (tail + body) == OPEN + (Declaration() + tail) + body;
  }

  /** What is encrypted is the Assertion's own text, with its prefix declared on it. */
  lemma StandaloneIs(i: Input, signature: Forest)
    ensures |Render(Assertion(i, signature))| >= |OPEN|
    ensures Standalone(Render(Assertion(i, signature))) == Render(AssertionAlone(i, signature))
  {
    AssertionText(i, signature);
    AloneText(i, signature);
    IdComesFirst(i);
    StandaloneText(AttrsTail(AssertionAttrs(i)), BodyText(i, signature));
  }

  lemma Sliced(a: Text, b: Text, c: Text)
    ensures (a + b + c)[|a|..|a + b|] == b && (a + b + c)[..|a|] == a && (a + b + c)[|a + b|..] == c
  {}

  lemma ResponseText(i: Input, signature: Forest)
    ensures BuildResponseXml(i, signature) == Write(Before(i)) + Render(Assertion(i, signature)) + Write([End(RESPONSE)])
    ensures |Write(Before(i) + [AssertionStart(i)] + Chunks(AssertionBody(i, signature)))| + |CLOSE| == |Write(Before(i)) + Render(Assertion(i, signature))|
  {
    hide Concat, Texts;
    ResponseChunks(i, signature);
    AssertionIsChunks(i, signature);
    WriteConcat(Before(i) + AssertionChunks(i, signature), [End(RESPONSE)]);
    WriteConcat(Before(i), AssertionChunks(i, signature));
    var body := Chunks(AssertionBody(i, signature));
    assert Before(i) + AssertionChunks(i, signature) == Before(i) + [AssertionStart(i)] + body + [End(ASSERTION)];
    AssertionNames(i);
    Lengths(Before(i), AssertionStart(i), body);
  }

  /**
   * Encryption never fails on a Response built here, whatever its inputs: it replaces the Assertion
   * element, and nothing else, with the encryption of that element standing alone.
   */
  lemma EncryptionReplacesTheAssertion(i: Input, signature: Forest, encrypt: Text -> Text)
    requires Harmless(Chunks(signature))
    ensures EncryptAssertionInResponse(BuildResponseXml(i, signature), encrypt) ==
      Some(Write(Before(i)) + ENCRYPTED_OPEN + encrypt(Render(AssertionAlone(i, signature))) + ENCRYPTED_CLOSE + Write([End(RESPONSE)]))
  {
    var a, b, c := Write(Before(i)), Render(Assertion(i, signature)), Write([End(RESPONSE)]);
    ExactlyOneAssertion(i, signature);
    ResponseText(i, signature);
    StandaloneIs(i, signature);
    ReplacedAt(BuildResponseXml(i, signature), a, b, c, |Write(Before(i) + [AssertionStart(i)] + Chunks(AssertionBody(i, signature)))|, encrypt);
  }

  lemma ReplacedAt(xml: Text, a: Text, b: Text, c: Text, end: nat, encrypt: Text -> Text)
    requires xml == a + b + c && |b| >= |OPEN| && OneAt(xml, |a|, end) && end + |CLOSE| == |a + b|
    ensures EncryptAssertionInResponse(xml, encrypt) == Some(a + ENCRYPTED_OPEN + encrypt(Standalone(b)) + ENCRYPTED_CLOSE + c)
  {
    Sliced(a, b, c);
    EncryptedAt(xml, encrypt, |a|, end);
  }

  lemma EncryptedAt(xml: Text, encrypt: Text -> Text, start: nat, end: nat)
    requires OneAt(xml, start, end) && end + |CLOSE| <= |xml| && end + |CLOSE| - start >= |OPEN|
    ensures EncryptAssertionInResponse(xml, encrypt) ==
      Some(xml[..start] + ENCRYPTED_OPEN + encrypt(Standalone(xml[start..end + |CLOSE|])) + ENCRYPTED_CLOSE + xml[end + |CLOSE|..])
  {}
}
