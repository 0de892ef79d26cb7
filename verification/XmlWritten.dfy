/**
XML as it is written, in every way of writing it that the scanner goes by: blanks, either quote,
comments, CDATA sections, instructions, declarations. The scanner can read a text exactly if it is
written so, and reads from it the markup it was written for.
*/
module XmlWritten {
  import opened Optional
  import opened XmlText

  // ---- Writing -----------------------------------------------------------------------------------

  /** An attribute: the blanks before its name, around its "=", and the quotes its value is in. */
  datatype Spelling = Spelling(before: string, name: string, beforeEq: string, afterEq: string, quote: char, value: string)

  /** A start tag: its name, its attributes, and the blanks after them. */
  datatype Tag = Tag(name: string, attrs: seq<Spelling>, blanks: string)

  datatype Chunk =
    | Words(text: string)
    | Remark(text: string)
    | Section(text: string)
    | Instruction(text: string)
    | Declaration(text: string)
    | Start(tag: Tag, selfClosing: bool)
    | End(text: string)

  function Quoted(a: Spelling): string { [a.quote] + (a.value + [a.quote]) }

  function Given(a: Spelling): string { a.beforeEq + ("=" + (a.afterEq + Quoted(a))) }

  function SpellingText(a: Spelling): string { a.before + (a.name + Given(a)) }

  function AttrsText(attrs: seq<Spelling>): string {
    if attrs == [] then "" else SpellingText(attrs[0]) + AttrsText(attrs[1..])
  }

  function TagEndText(selfClosing: bool): string { if selfClosing then "/>" else ">" }

  function TextOf(c: Chunk): string {
    match c
    case Words(text) => text
    case Remark(text) => "<!--" + (text + "-->")
    case Section(text) => "<![CDATA[" + (text + "]]>")
    case Instruction(text) => "<?" + (text + "?>")
    case Declaration(text) => "<!" + (text + ">")
    case End(text) => "</" + (text + ">")
    case Start(tag, selfClosing) => "<" + (tag.name + (AttrsText(tag.attrs) + (tag.blanks + TagEndText(selfClosing))))
  }

  function Write(cs: seq<Chunk>): string {
    if cs == [] then "" else TextOf(cs[0]) + Write(cs[1..])
  }

  // ---- What may be written -----------------------------------------------------------------------

  predicate Blanks(s: string) { forall c :: c in s ==> c == ' ' || c == '\t' || c == '\n' || c == '\r' }

  predicate Without(s: string, c: char) { forall i :: 0 <= i < |s| ==> s[i] != c }

  /** No control character, and nothing that separates words. */
  predicate NameChar(c: char) {
    && 0x20 < c as int && !(0x7F <= c as int <= 0x9F) && !(0x2000 <= c as int <= 0x200A)
    && c as int !in [0xA0, 0x1680, 0x2028, 0x2029, 0x202F, 0x205F, 0x3000, 0xFEFF]
  }

  predicate IsName(name: string) { name != "" && forall c :: c in name ==> NameChar(c) }

  predicate TagName(name: string) {
    IsName(name) && name[0] != '!' && name[0] != '?' && Without(name, '/') && Without(name, '>')
  }

  predicate AttrName(name: string) {
    IsName(name) && Without(name, '=') && Without(name, '/') && Without(name, '>') && Without(name, '<')
  }

  predicate SpellingOk(a: Spelling) {
    && a.before != "" && Blanks(a.before) && AttrName(a.name) && Blanks(a.beforeEq) && Blanks(a.afterEq)
    && (a.quote == '"' || a.quote == '\'') && Without(a.value, a.quote)
  }

  predicate AllSpelt(attrs: seq<Spelling>) { forall i :: 0 <= i < |attrs| ==> SpellingOk(attrs[i]) }

  /** `close` comes after `text`, and not before. */
  predicate EndsWith(text: string, close: string) {
    forall i :: 0 <= i < |text| ==> !At(text + close, i, close)
  }

  predicate ChunkOk(c: Chunk) {
    match c
    case Words(text) => Without(text, '<')
    case Remark(text) => EndsWith(text, "-->")
    case Section(text) => EndsWith(text, "]]>")
    case Instruction(text) => EndsWith(text, "?>")
    case Declaration(text) => EndsWith(text, ">") && !At(text, 0, "--") && !At(text, 0, "[CDATA[")
    case End(text) => EndsWith(text, ">")
    case Start(tag, _) => TagName(tag.name) && AllSpelt(tag.attrs) && Blanks(tag.blanks)
  }

  predicate AllOk(cs: seq<Chunk>) { forall i :: 0 <= i < |cs| ==> ChunkOk(cs[i]) }

  // ---- What is meant -----------------------------------------------------------------------------

  function AttrsOf(attrs: seq<Spelling>): (r: seq<Attr>)
    ensures |r| == |attrs| && forall i :: 0 <= i < |r| ==> r[i] == Attr(attrs[i].name, attrs[i].value)
  {
    seq(|attrs|, i requires 0 <= i < |attrs| => Attr(attrs[i].name, attrs[i].value))
  }

  function MarkOf(c: Chunk): seq<Markup> {
    match c
    case Words(_) => []
    case Start(tag, selfClosing) => [Open(AttrsOf(tag.attrs), selfClosing)]
    case End(_) => [Close]
    case _ => [Aside]
  }

  function MarksOf(cs: seq<Chunk>): seq<Markup> {
    if cs == [] then [] else MarkOf(cs[0]) + MarksOf(cs[1..])
  }

  // ---- Characters --------------------------------------------------------------------------------

  lemma NameCharIs(c: char)
    ensures NameChar(c) <==> !NotInName(c)
    ensures NameChar(c) ==> !IsSpace(c)
  {}

  lemma IsNameIs(name: string)
    ensures IsName(name) <==> CleanName(name)
  {
    forall i | 0 <= i < |name| ensures NameChar(name[i]) <==> !NotInName(name[i]) { NameCharIs(name[i]); }
  }

  lemma BlanksAre(s: string)
    ensures Blanks(s) <==> forall i :: 0 <= i < |s| ==> IsSpace(s[i])
  {
    if Blanks(s) {
      forall i | 0 <= i < |s| ensures IsSpace(s[i]) { assert s[i] in s; }
    }
  }

  // ---- Places in a text ----------------------------------------------------------------------------

  lemma AtSplit(xml: string, i: nat, a: string, b: string)
    requires At(xml, i, a + b)
    ensures At(xml, i, a) && At(xml, i + |a|, b)
  {
    assert xml[i..i + |a|] == (a + b)[..|a|];
    assert xml[i + |a|..i + |a| + |b|] == (a + b)[|a|..];
  }

  lemma AtIndex(xml: string, i: nat, s: string, k: nat)
    requires At(xml, i, s) && k < |s|
    ensures xml[i + k] == s[k]
  {
    assert xml[i..i + |s|][k] == s[k];
  }

  lemma AtAll(xml: string, i: nat, s: string)
    requires At(xml, i, s)
    ensures forall k :: i <= k < i + |s| ==> xml[k] == s[k - i]
  {
    forall k | i <= k < i + |s| ensures xml[k] == s[k - i] { AtIndex(xml, i, s, k - i); }
  }

  lemma NotAt(xml: string, i: nat, s: string, k: nat)
    requires k < |s| && i + k < |xml| && xml[i + k] != s[k]
    ensures !At(xml, i, s)
  {
    if At(xml, i, s) { AtIndex(xml, i, s, k); }
  }

  lemma AtWithin(xml: string, from: nat, whole: string, k: nat, s: string)
    requires At(xml, from, whole) && k + |s| <= |whole|
    ensures At(whole, k, s) <==> At(xml, from + k, s)
  {
    var a, b := whole[k..k + |s|], xml[from + k..from + k + |s|];
    forall m | 0 <= m < |s| ensures a[m] == b[m] { AtIndex(xml, from, whole, k + m); }
    assert a == b;
  }

  lemma FoundAt(xml: string, s: string, from: nat, j: nat)
    requires from <= j && At(xml, j, s) && forall i :: from <= i < j ==> !At(xml, i, s)
    ensures IndexOf(xml, s, from) == j
  {}

  lemma SpaceAt(xml: string, from: nat, j: nat)
    requires from <= j < |xml| && (forall i :: from <= i < j ==> IsSpace(xml[i])) && !IsSpace(xml[j])
    ensures SkipSpace(xml, from) == j
  {}

  lemma AttrNameAt(xml: string, from: nat, j: nat)
    requires from <= j < |xml| && (forall i :: from <= i < j ==> !EndsAttrName(xml[i])) && EndsAttrName(xml[j])
    ensures SkipAttrName(xml, from) == j
  {}

  lemma TagNameAt(xml: string, from: nat, j: nat)
    requires from <= j < |xml| && (forall i :: from <= i < j ==> !EndsTagName(xml[i])) && EndsTagName(xml[j])
    ensures SkipTagName(xml, from) == j
  {}

  // ---- Constructs that end in a fixed string ---------------------------------------------------------

  /** From `from` on the text holds `text` and then `close`, for the first time. */
  lemma PastAt(xml: string, from: nat, text: string, close: string, m: Markup)
    requires At(xml, from, text + close) && EndsWith(text, close) && close != ""
    ensures Past(xml, from, close, m) == Some(Found(m, from + |text| + |close|))
  {
    var end := text + close;
    AtAll(xml, from, end);
    forall k | from <= k < from + |text| ensures !At(xml, k, close) {
      assert !At(end, k - from, close);
      AtWithin(xml, from, end, k - from, close);
    }
    AtSplit(xml, from, text, close);
    FoundAt(xml, close, from, from + |text|);
  }

  /** And the other way round. */
  lemma PastIs(xml: string, from: nat, close: string, m: Markup)
    requires from <= |xml| && close != "" && Past(xml, from, close, m).Some?
    ensures var r := Past(xml, from, close, m).value; var text := xml[from..r.next - |close|];
      from + |close| <= r.next && r.markup == m && xml[from..r.next] == text + close && EndsWith(text, close)
  {
    var r := Past(xml, from, close, m).value;
    var j := r.next - |close|;
    var text := xml[from..j];
    assert xml[from..r.next] == text + close;
    forall i | 0 <= i < |text| ensures !At(text + close, i, close) {
      assert !At(xml, from + i, close);
      AtWithin(xml, from, text + close, i, close);
    }
  }

  // ---- Attributes, read ------------------------------------------------------------------------------

  /** Where the parts of an attribute that stands at `from` are. */
  ghost predicate Stands(xml: string, from: nat, a: Spelling, next: nat) {
    var name := from + |a.before|; var nameEnd := name + |a.name|; var eq := nameEnd + |a.beforeEq|;
    var quote := eq + 1 + |a.afterEq|; var close := quote + 1 + |a.value|;
    && At(xml, from, a.before) && At(xml, name, a.name) && At(xml, nameEnd, a.beforeEq)
    && At(xml, eq, "=") && At(xml, eq + 1, a.afterEq) && At(xml, quote, [a.quote])
    && At(xml, quote + 1, a.value) && At(xml, close, [a.quote]) && next == close + 1
  }

  lemma StandsAt(xml: string, from: nat, a: Spelling, next: nat)
    requires At(xml, from, SpellingText(a)) && next == from + |SpellingText(a)|
    ensures Stands(xml, from, a, next)
  {
    hide At, Quoted, Given;
    var name := from + |a.before|;
    AtSplit(xml, from, a.before, a.name + Given(a));
    AtSplit(xml, name, a.name, Given(a));
    GivenStands(xml, name + |a.name|, a);
  }

  lemma GivenStands(xml: string, from: nat, a: Spelling)
    requires At(xml, from, Given(a))
    ensures var eq := from + |a.beforeEq|; var quote := eq + 1 + |a.afterEq|; var close := quote + 1 + |a.value|;
      && At(xml, from, a.beforeEq) && At(xml, eq, "=") && At(xml, eq + 1, a.afterEq)
      && At(xml, quote, [a.quote]) && At(xml, quote + 1, a.value) && At(xml, close, [a.quote]) && close + 1 == from + |Given(a)|
  {
    hide At;
    var eq := from + |a.beforeEq|; var quote := eq + 1 + |a.afterEq|;
    assert |Quoted(a)| == |a.value| + 2;
    hide Quoted;
    AtSplit(xml, from, a.beforeEq, "=" + (a.afterEq + Quoted(a)));
    AtSplit(xml, eq, "=", a.afterEq + Quoted(a));
    AtSplit(xml, eq + 1, a.afterEq, Quoted(a));
    QuotedStands(xml, quote, a);
  }

  lemma QuotedStands(xml: string, quote: nat, a: Spelling)
    requires At(xml, quote, Quoted(a))
    ensures At(xml, quote, [a.quote]) && At(xml, quote + 1, a.value) && At(xml, quote + 1 + |a.value|, [a.quote])
  {
    hide At;
    AtSplit(xml, quote, [a.quote], a.value + [a.quote]);
    AtSplit(xml, quote + 1, a.value, [a.quote]);
  }

  predicate EndsAttr(c: char) { IsSpace(c) || c == '/' || c == '>' }

  lemma NameFirst(name: string)
    requires AttrName(name)
    ensures CleanName(name) && !IsSpace(name[0]) && name[0] != '/' && name[0] != '>'
    ensures forall i :: 0 <= i < |name| ==> !EndsAttrName(name[i])
  {
    IsNameIs(name);
    forall i | 0 <= i < |name| ensures !EndsAttrName(name[i]) {
      assert name[i] in name;
      NameCharIs(name[i]);
    }
  }

  lemma BlanksEnd(xml: string, from: nat, blanks: string)
    requires At(xml, from, blanks) && Blanks(blanks) && from + |blanks| < |xml| && !IsSpace(xml[from + |blanks|])
    ensures SkipSpace(xml, from) == from + |blanks|
  {
    AtAll(xml, from, blanks);
    BlanksAre(blanks);
    SpaceAt(xml, from, from + |blanks|);
  }

  lemma QuoteCloses(xml: string, from: nat, value: string, quote: char)
    requires At(xml, from, value) && At(xml, from + |value|, [quote]) && Without(value, quote)
    ensures IndexOf(xml, [quote], from) == from + |value|
  {
    AtAll(xml, from, value);
    forall k | from <= k < from + |value| ensures !At(xml, k, [quote]) { NotAt(xml, k, [quote], 0); }
    FoundAt(xml, [quote], from, from + |value|);
  }

  lemma ValueIsRead(xml: string, from: nat, name: string, quote: nat, close: nat)
    requires from <= quote < close && close + 1 < |xml| && SkipSpace(xml, from) == quote && (xml[quote] == '"' || xml[quote] == '\'')
    requires IndexOf(xml, [xml[quote]], quote + 1) == close && EndsAttr(xml[close + 1])
    ensures ValueOf(xml, from, name) == Attribute(Attr(name, xml[quote + 1..close]), close + 1)
  {
    hide SkipSpace, IndexOf;
  }

  lemma ValueReads(xml: string, from: nat, a: Spelling, next: nat)
    requires SpellingOk(a) && At(xml, from, a.afterEq)
    requires var quote := from + |a.afterEq|; var close := quote + 1 + |a.value|;
      At(xml, quote, [a.quote]) && At(xml, quote + 1, a.value) && At(xml, close, [a.quote]) && next == close + 1 && next < |xml| && EndsAttr(xml[next])
    ensures ValueOf(xml, from, a.name) == Attribute(Attr(a.name, a.value), next)
  {
    hide SkipSpace, IndexOf, ValueOf, Blanks, Without;
    var quote := from + |a.afterEq|;
    AtIndex(xml, quote, [a.quote], 0);
    BlanksEnd(xml, from, a.afterEq);
    QuoteCloses(xml, quote + 1, a.value, a.quote);
    ValueIsRead(xml, from, a.name, quote, quote + 1 + |a.value|);
  }

  lemma AttributeIsRead(xml: string, k: nat, nameEnd: nat, eq: nat)
    requires k <= nameEnd <= eq < |xml| && SkipAttrName(xml, k) == nameEnd && SkipSpace(xml, nameEnd) == eq && xml[eq] == '=' && CleanName(xml[k..nameEnd])
    ensures NextAttribute(xml, k) == ValueOf(xml, eq + 1, xml[k..nameEnd])
  {
    hide SkipSpace, SkipAttrName, CleanName, ValueOf;
  }

  lemma NameEnds(xml: string, k: nat, a: Spelling)
    requires SpellingOk(a) && At(xml, k, a.name) && At(xml, k + |a.name|, a.beforeEq) && At(xml, k + |a.name| + |a.beforeEq|, "=")
    ensures SkipAttrName(xml, k) == k + |a.name|
  {
    hide SkipAttrName, SkipSpace, IsName, AttrName;
    var nameEnd := k + |a.name|;
    AtIndex(xml, nameEnd + |a.beforeEq|, "=", 0);
    NameFirst(a.name);
    AtAll(xml, k, a.name);
    AtAll(xml, nameEnd, a.beforeEq);
    BlanksAre(a.beforeEq);
    AttrNameAt(xml, k, nameEnd);
  }

  lemma NameReads(xml: string, k: nat, a: Spelling)
    requires SpellingOk(a) && At(xml, k, a.name) && At(xml, k + |a.name|, a.beforeEq) && At(xml, k + |a.name| + |a.beforeEq|, "=")
    ensures NextAttribute(xml, k) == ValueOf(xml, k + |a.name| + |a.beforeEq| + 1, a.name)
  {
    hide SkipAttrName, SkipSpace, NextAttribute, ValueOf, AttrName, CleanName, Blanks;
    var nameEnd := k + |a.name|; var eq := nameEnd + |a.beforeEq|;
    AtIndex(xml, eq, "=", 0);
    NameFirst(a.name);
    NameEnds(xml, k, a);
    BlanksEnd(xml, nameEnd, a.beforeEq);
    AttributeIsRead(xml, k, nameEnd, eq);
  }

  lemma PieceIsRead(xml: string, from: nat, k: nat)
    requires from <= k < |xml| && SkipSpace(xml, from) == k && xml[k] != '/' && xml[k] != '>'
    ensures NextPiece(xml, from) == NextAttribute(xml, k)
  {
    hide SkipSpace, NextAttribute;
    NotAt(xml, k, "/>", 0);
  }

  /** An attribute, before what may come after one, is read as it is meant. */
  lemma SpellingReads(xml: string, from: nat, a: Spelling, next: nat)
    requires Stands(xml, from, a, next) && SpellingOk(a) && next < |xml| && EndsAttr(xml[next])
    ensures NextPiece(xml, from) == Attribute(Attr(a.name, a.value), next)
  {
    hide SkipSpace, NextAttribute, NextPiece, ValueOf, AttrName, CleanName, Blanks, Without;
    var k := from + |a.before|;
    NameFirst(a.name);
    AtIndex(xml, k, a.name, 0);
    BlanksEnd(xml, from, a.before);
    PieceIsRead(xml, from, k);
    NameReads(xml, k, a);
    ValueReads(xml, k + |a.name| + |a.beforeEq| + 1, a, next);
  }

  // ---- Attributes, as read ---------------------------------------------------------------------------

  lemma SpaceIs(xml: string, from: nat)
    requires from <= |xml|
    ensures Blanks(xml[from..SkipSpace(xml, from)])
  {
    BlanksAre(xml[from..SkipSpace(xml, from)]);
  }

  lemma AttrNameIs(xml: string, k: nat, end: nat)
    requires k <= end <= |xml| && CleanName(xml[k..end]) && forall i :: k <= i < end ==> !EndsAttrName(xml[i])
    ensures AttrName(xml[k..end])
  {
    IsNameIs(xml[k..end]);
  }

  /** Where the name of what is read as an attribute is, and its "=". */
  lemma PieceParts(xml: string, from: nat) returns (k: nat, nameEnd: nat, eq: nat)
    requires from < |xml| && EndsAttr(xml[from]) && NextPiece(xml, from).Attribute?
    ensures from < k <= nameEnd <= eq < |xml| && xml[eq] == '=' && Blanks(xml[from..k]) && AttrName(xml[k..nameEnd]) && Blanks(xml[nameEnd..eq])
    ensures NextPiece(xml, from) == ValueOf(xml, eq + 1, xml[k..nameEnd])
  {
    k := SkipSpace(xml, from);
    nameEnd := SkipAttrName(xml, k);
    eq := SkipSpace(xml, nameEnd);
    SpaceIs(xml, from);
    SpaceIs(xml, nameEnd);
    BeforeIsThere(xml, from);
    hide ValueOf, Blanks, AttrName, CleanName;
    AttrNameIs(xml, k, nameEnd);
  }

  /** Whatever is read as an attribute is one, written in some way. */
  lemma SpellingOf(xml: string, from: nat) returns (a: Spelling)
    requires from < |xml| && EndsAttr(xml[from]) && NextPiece(xml, from).Attribute?
    ensures var p := NextPiece(xml, from); SpellingOk(a) && p.attr == Attr(a.name, a.value) && xml[from..p.next] == SpellingText(a)
  {
    hide NextPiece, ValueOf, SkipSpace, Blanks, AttrName, Without, SpellingText, SpellingOk, EndsAttr;
    var k, nameEnd, eq := PieceParts(xml, from);
    var quote, close := ValueIs(xml, eq + 1, xml[k..nameEnd]);
    a := SpellingFrom(xml, from, k, nameEnd, eq, quote, close);
  }

  lemma SpellingFrom(xml: string, from: nat, k: nat, nameEnd: nat, eq: nat, quote: nat, close: nat) returns (a: Spelling)
    requires from < k <= nameEnd <= eq < quote < close < |xml| && xml[eq] == '=' && xml[close] == xml[quote]
    requires Blanks(xml[from..k]) && AttrName(xml[k..nameEnd]) && Blanks(xml[nameEnd..eq]) && Blanks(xml[eq + 1..quote])
    requires (xml[quote] == '"' || xml[quote] == '\'') && Without(xml[quote + 1..close], xml[quote])
    ensures SpellingOk(a) && a.name == xml[k..nameEnd] && a.value == xml[quote + 1..close] && xml[from..close + 1] == SpellingText(a)
  {
    a := Spelling(xml[from..k], xml[k..nameEnd], xml[nameEnd..eq], xml[eq + 1..quote], xml[quote], xml[quote + 1..close]);
    hide AttrName, Blanks, Without, SpellingText;
    SpelledOut(xml, from, k, nameEnd, eq, quote, close);
  }

  lemma BeforeIsThere(xml: string, from: nat)
    requires from < |xml| && EndsAttr(xml[from]) && NextPiece(xml, from).Attribute?
    ensures from < SkipSpace(xml, from)
  {}

  lemma AtOne(xml: string, i: nat, c: char)
    requires i < |xml|
    ensures At(xml, i, [c]) <==> xml[i] == c
  {
    assert xml[i..i + 1] == [xml[i]];
  }

  lemma ValueIs(xml: string, from: nat, name: string) returns (quote: nat, close: nat)
    requires from <= |xml| && ValueOf(xml, from, name).Attribute?
    ensures from <= quote < close < |xml| && (xml[quote] == '"' || xml[quote] == '\'') && xml[close] == xml[quote]
    ensures Blanks(xml[from..quote]) && Without(xml[quote + 1..close], xml[quote])
    ensures ValueOf(xml, from, name) == Attribute(Attr(name, xml[quote + 1..close]), close + 1)
  {
    quote := SkipSpace(xml, from);
    SpaceIs(xml, from);
    hide Blanks;
    close := ValueOf(xml, from, name).next - 1;
    AtOne(xml, close, xml[quote]);
    QuoteIsFirst(xml, quote, close);
  }

  lemma QuoteIsFirst(xml: string, quote: nat, close: nat)
    requires quote < close < |xml| && close == IndexOf(xml, [xml[quote]], quote + 1)
    ensures Without(xml[quote + 1..close], xml[quote])
  {
    var value := xml[quote + 1..close];
    forall i | 0 <= i < |value| ensures value[i] != xml[quote] {
      assert !At(xml, quote + 1 + i, [xml[quote]]);
      AtOne(xml, quote + 1 + i, xml[quote]);
    }
  }

  lemma SpelledOut(xml: string, from: nat, k: nat, nameEnd: nat, eq: nat, quote: nat, close: nat)
    requires from <= k <= nameEnd <= eq < quote < close < |xml| && xml[eq] == '=' && xml[close] == xml[quote]
    ensures xml[from..close + 1] ==
      SpellingText(Spelling(xml[from..k], xml[k..nameEnd], xml[nameEnd..eq], xml[eq + 1..quote], xml[quote], xml[quote + 1..close]))
  {
    var a := Spelling(xml[from..k], xml[k..nameEnd], xml[nameEnd..eq], xml[eq + 1..quote], xml[quote], xml[quote + 1..close]);
    assert xml[quote + 1..close + 1] == a.value + [a.quote];
    assert xml[quote..close + 1] == Quoted(a);
    hide Quoted;
    assert xml[eq + 1..close + 1] == a.afterEq + Quoted(a);
    assert xml[eq..close + 1] == "=" + xml[eq + 1..close + 1];
    assert xml[nameEnd..close + 1] == Given(a);
    hide Given;
    assert xml[k..close + 1] == a.name + Given(a);
    assert xml[from..close + 1] == a.before + xml[k..close + 1];
  }

  // ---- Start tags ------------------------------------------------------------------------------------

  lemma TagEndReads(xml: string, from: nat, blanks: string, selfClosing: bool)
    requires At(xml, from, blanks + TagEndText(selfClosing)) && Blanks(blanks)
    ensures NextPiece(xml, from) == TagEnd(selfClosing, from + |blanks| + |TagEndText(selfClosing)|)
    ensures from < |xml| && EndsAttr(xml[from])
  {
    AtSplit(xml, from, blanks, TagEndText(selfClosing));
    AtIndex(xml, from + |blanks|, TagEndText(selfClosing), 0);
    BlanksEnd(xml, from, blanks);
    if blanks != "" {
      AtIndex(xml, from, blanks, 0);
      BlanksAre(blanks);
    }
  }

  /** What follows a start tag's name at `from` reads as `attrs`, and ends at `end`. */
  ghost predicate RestIs(xml: string, from: nat, attrs: seq<Attr>, selfClosing: bool, end: nat) {
    from < |xml| && EndsAttr(xml[from]) && Rest(xml, from) == Some(TagRest(attrs, selfClosing, end))
  }

  lemma RestStep(xml: string, from: nat, next: nat, a: Attr, attrs: seq<Attr>, selfClosing: bool, end: nat)
    requires from < |xml| && EndsAttr(xml[from]) && NextPiece(xml, from) == Attribute(a, next) && RestIs(xml, next, attrs, selfClosing, end)
    ensures RestIs(xml, from, [a] + attrs, selfClosing, end)
  {
    hide NextPiece;
  }

  lemma SpellingBegins(xml: string, from: nat, a: Spelling, next: nat)
    requires Stands(xml, from, a, next) && SpellingOk(a)
    ensures from < |xml| && EndsAttr(xml[from])
  {
    AtIndex(xml, from, a.before, 0);
    BlanksAre(a.before);
  }

  function Tail(attrs: seq<Spelling>, blanks: string, selfClosing: bool): string { AttrsText(attrs) + (blanks + TagEndText(selfClosing)) }

  lemma TailFirst(attrs: seq<Spelling>, blanks: string, selfClosing: bool)
    requires attrs != []
    ensures Tail(attrs, blanks, selfClosing) == SpellingText(attrs[0]) + Tail(attrs[1..], blanks, selfClosing)
    ensures AttrsOf(attrs) == [Attr(attrs[0].name, attrs[0].value)] + AttrsOf(attrs[1..])
  {
    hide SpellingText;
  }

  lemma {:induction false} TailReads(xml: string, from: nat, attrs: seq<Spelling>, blanks: string, selfClosing: bool)
    requires At(xml, from, Tail(attrs, blanks, selfClosing)) && AllSpelt(attrs) && Blanks(blanks)
    ensures RestIs(xml, from, AttrsOf(attrs), selfClosing, from + |Tail(attrs, blanks, selfClosing)|)
    decreases |attrs|
  {
    hide At, SpellingText, SpellingOk, NextPiece, EndsAttr, Blanks, Stands;
    var end := from + |Tail(attrs, blanks, selfClosing)|;
    if attrs == [] {
      assert Tail(attrs, blanks, selfClosing) == blanks + TagEndText(selfClosing);
      TagEndReads(xml, from, blanks, selfClosing);
    } else {
      var next := from + |SpellingText(attrs[0])|;
      TailFirst(attrs, blanks, selfClosing);
      AtSplit(xml, from, SpellingText(attrs[0]), Tail(attrs[1..], blanks, selfClosing));
      TailReads(xml, next, attrs[1..], blanks, selfClosing);
      StandsAt(xml, from, attrs[0], next);
      SpellingBegins(xml, from, attrs[0], next);
      SpellingReads(xml, from, attrs[0], next);
      RestStep(xml, from, next, Attr(attrs[0].name, attrs[0].value), AttrsOf(attrs[1..]), selfClosing, end);
    }
  }

  lemma NotOther(xml: string, i: nat)
    requires i + 1 < |xml| && xml[i + 1] != '!' && xml[i + 1] != '?' && xml[i + 1] != '/' && At(xml, i, "<")
    ensures Construct(xml, i) == StartTag(xml, i)
  {
    NotAt(xml, i, "<!--", 1);
    NotAt(xml, i, "<![CDATA[", 1);
    NotAt(xml, i, "<?", 1);
    NotAt(xml, i, "<!", 1);
    NotAt(xml, i, "</", 1);
  }

  lemma TagNameReads(xml: string, i: nat, name: string)
    requires At(xml, i, "<") && At(xml, i + 1, name) && TagName(name)
    requires i + 1 + |name| < |xml| && EndsAttr(xml[i + 1 + |name|])
    ensures SkipTagName(xml, i + 1) == i + 1 + |name| && xml[i + 1..i + 1 + |name|] == name && CleanName(name)
    ensures Construct(xml, i) == StartTag(xml, i)
  {
    IsNameIs(name);
    AtAll(xml, i + 1, name);
    forall k | i + 1 <= k < i + 1 + |name| ensures !EndsTagName(xml[k]) {
      assert name[k - i - 1] in name;
      NameCharIs(xml[k]);
    }
    TagNameAt(xml, i + 1, i + 1 + |name|);
    NotOther(xml, i);
  }

  lemma StartTagIs(xml: string, i: nat, k: nat, attrs: seq<Attr>, selfClosing: bool, end: nat)
    requires i < |xml| && SkipTagName(xml, i + 1) == k && CleanName(xml[i + 1..k]) && RestIs(xml, k, attrs, selfClosing, end)
    ensures StartTag(xml, i) == Some(Found(Open(attrs, selfClosing), end))
  {}

  lemma StartText(tag: Tag, selfClosing: bool)
    ensures var tail := Tail(tag.attrs, tag.blanks, selfClosing); var text := TextOf(Start(tag, selfClosing));
      text == "<" + (tag.name + tail) && |text| == 1 + |tag.name| + |tail|
  {
    hide AttrsText;
  }

  lemma StartReads(xml: string, i: nat, tag: Tag, selfClosing: bool)
    requires At(xml, i, TextOf(Start(tag, selfClosing))) && ChunkOk(Start(tag, selfClosing))
    ensures At(xml, i, "<") && Construct(xml, i) == Some(Found(Open(AttrsOf(tag.attrs), selfClosing), i + |TextOf(Start(tag, selfClosing))|))
  {
    hide At, AttrsText, CleanName, Construct, StartTag, TagName, AllSpelt, Blanks, Tail, SkipTagName, Rest, TextOf;
    var tail := Tail(tag.attrs, tag.blanks, selfClosing);
    StartText(tag, selfClosing);
    AtSplit(xml, i, "<", tag.name + tail);
    AtSplit(xml, i + 1, tag.name, tail);
    TailReads(xml, i + 1 + |tag.name|, tag.attrs, tag.blanks, selfClosing);
    TagNameReads(xml, i, tag.name);
    StartTagIs(xml, i, i + 1 + |tag.name|, AttrsOf(tag.attrs), selfClosing, i + |TextOf(Start(tag, selfClosing))|);
  }

  // ---- Start tags, as read ---------------------------------------------------------------------------

  lemma EndIsWritten(xml: string, from: nat) returns (blanks: string)
    requires from <= |xml| && NextPiece(xml, from).TagEnd?
    ensures var p := NextPiece(xml, from); Blanks(blanks) && xml[from..p.next] == blanks + TagEndText(p.selfClosing)
  {
    var k := SkipSpace(xml, from);
    blanks := xml[from..k];
    SpaceIs(xml, from);
    var p := NextPiece(xml, from);
    assert xml[k..p.next] == TagEndText(p.selfClosing);
    assert xml[from..p.next] == xml[from..k] + xml[k..p.next];
  }

  lemma AttributeEnds(xml: string, from: nat)
    requires from <= |xml| && NextPiece(xml, from).Attribute?
    ensures var next := NextPiece(xml, from).next; next < |xml| ==> EndsAttr(xml[next])
  {}

  lemma RestGoesOn(xml: string, from: nat)
    requires from <= |xml| && Rest(xml, from).Some? && NextPiece(xml, from).Attribute?
    ensures var p := NextPiece(xml, from); var r := Rest(xml, from).value;
      p.next < |xml| && Rest(xml, p.next) == Some(TagRest(r.attrs[1..], r.selfClosing, r.next)) && r.attrs != [] && r.attrs[0] == p.attr
  {}

  lemma {:induction false} RestOf(xml: string, from: nat) returns (attrs: seq<Spelling>, blanks: string)
    requires from < |xml| && EndsAttr(xml[from]) && Rest(xml, from).Some?
    ensures var r := Rest(xml, from).value;
      AllSpelt(attrs) && Blanks(blanks) && AttrsOf(attrs) == r.attrs && xml[from..r.next] == Tail(attrs, blanks, r.selfClosing)
    decreases |xml| - from
  {
    var p, r := NextPiece(xml, from), Rest(xml, from).value;
    if p.TagEnd? {
      blanks := EndIsWritten(xml, from);
      attrs := [];
      assert "" + (blanks + TagEndText(r.selfClosing)) == blanks + TagEndText(r.selfClosing);
    } else {
      var a := SpellingOf(xml, from);
      AttributeEnds(xml, from);
      RestGoesOn(xml, from);
      var rest;
      rest, blanks := RestOf(xml, p.next);
      hide Rest, NextPiece, SpellingText, SpellingOk, Blanks, EndsAttr, Tail;
      attrs := [a] + rest;
      TailOf(xml, from, p.next, r.next, a, rest, blanks, r.selfClosing);
    }
  }

  lemma TailOf(xml: string, from: nat, next: nat, end: nat, a: Spelling, rest: seq<Spelling>, blanks: string, selfClosing: bool)
    requires from <= next <= end <= |xml| && xml[from..next] == SpellingText(a) && xml[next..end] == Tail(rest, blanks, selfClosing)
    ensures xml[from..end] == Tail([a] + rest, blanks, selfClosing)
    ensures AttrsOf([a] + rest) == [Attr(a.name, a.value)] + AttrsOf(rest)
  {
    hide SpellingText, Tail;
    TailFirst([a] + rest, blanks, selfClosing);
    assert ([a] + rest)[1..] == rest;
    assert xml[from..end] == xml[from..next] + xml[next..end];
  }

  lemma StartTagParts(xml: string, i: nat) returns (k: nat, rest: TagRest)
    requires At(xml, i, "<") && !At(xml, i, "<!") && !At(xml, i, "<?") && StartTag(xml, i).Some?
    ensures i < k < |xml| && xml[i] == '<' && EndsAttr(xml[k]) && TagName(xml[i + 1..k])
    ensures Rest(xml, k) == Some(rest) && StartTag(xml, i) == Some(Found(Open(rest.attrs, rest.selfClosing), rest.next)) && k <= rest.next <= |xml|
  {
    k := SkipTagName(xml, i + 1);
    AtIndex(xml, i, "<", 0);
    hide CleanName, TagName, Rest, At;
    rest := Rest(xml, k).value;
    TagNameIs(xml, i, k);
  }

  lemma StartOf(xml: string, i: nat) returns (tag: Tag)
    requires At(xml, i, "<") && StartTag(xml, i).Some? && Construct(xml, i) == StartTag(xml, i)
    requires !At(xml, i, "<!") && !At(xml, i, "<?")
    ensures var r := StartTag(xml, i).value;
      r.markup.Open? && ChunkOk(Start(tag, r.markup.selfClosing)) && AttrsOf(tag.attrs) == r.markup.attrs && xml[i..r.next] == TextOf(Start(tag, r.markup.selfClosing))
  {
    hide StartTag, Construct, Rest, SkipTagName, At, CleanName, TagName, AllSpelt, Blanks, Tail, AttrsText, TextOf, EndsAttr;
    var k, rest := StartTagParts(xml, i);
    var attrs, blanks := RestOf(xml, k);
    tag := Tag(xml[i + 1..k], attrs, blanks);
    StartJoined(xml, i, k, rest.next, tag, rest.selfClosing);
  }

  lemma StartJoined(xml: string, i: nat, k: nat, end: nat, tag: Tag, selfClosing: bool)
    requires i < k <= end <= |xml| && xml[i] == '<' && tag.name == xml[i + 1..k] && xml[k..end] == Tail(tag.attrs, tag.blanks, selfClosing)
    ensures xml[i..end] == TextOf(Start(tag, selfClosing))
  {
    hide Tail, TextOf;
    StartText(tag, selfClosing);
    var tail := Tail(tag.attrs, tag.blanks, selfClosing);
    assert xml[i + 1..end] == tag.name + tail;
    assert xml[i..end] == "<" + xml[i + 1..end];
  }

  lemma TagNameIs(xml: string, i: nat, k: nat)
    requires i < k <= |xml| && CleanName(xml[i + 1..k]) && (forall j :: i + 1 <= j < k ==> !EndsTagName(xml[j]))
    requires At(xml, i, "<") && !At(xml, i, "<!") && !At(xml, i, "<?")
    ensures TagName(xml[i + 1..k])
  {
    IsNameIs(xml[i + 1..k]);
    assert xml[i..i + 1] == "<";
    assert xml[i..i + 2] == [xml[i], xml[i + 1]];
  }

  // ---- Other constructs --------------------------------------------------------------------------------

  /** `open`, `text` and `close` stand at `i`: what `Past` finds after `open` is the end of them. */
  lemma BetweenReads(xml: string, i: nat, open: string, text: string, close: string, m: Markup)
    requires At(xml, i, open + (text + close)) && EndsWith(text, close) && close != "" && open != "" && open[0] == '<'
    ensures At(xml, i, open) && At(xml, i, "<") && At(xml, i + |open|, text + close)
    ensures Past(xml, i + |open|, close, m) == Some(Found(m, i + |open| + |text| + |close|))
  {
    AtSplit(xml, i, open, text + close);
    AtIndex(xml, i, open, 0);
    PastAt(xml, i + |open|, text, close, m);
  }

  lemma OpensIn(xml: string, i: nat, text: string, s: string)
    requires At(xml, i, text + ">") && Without(s, '>')
    ensures At(xml, i, s) ==> At(text, 0, s)
  {
    AtAll(xml, i, text + ">");
    if At(xml, i, s) {
      AtAll(xml, i, s);
      assert xml[i + |text|] == '>';
      assert text[..|s|] == s;
    }
  }

  /** The construct at `i` is what `c` is meant as, and as long. */
  ghost predicate IsReadAs(xml: string, i: nat, c: Chunk) {
    At(xml, i, "<") && |MarkOf(c)| == 1 && Construct(xml, i) == Some(Found(MarkOf(c)[0], i + |TextOf(c)|))
  }

  lemma OpeningsAre()
    ensures "<!" + "--" == "<!--" && "<!" + "[CDATA[" == "<![CDATA["
    ensures Without("--", '>') && Without("[CDATA[", '>')
  {}

  /** What stands at `i` is not what differs from it. */
  lemma NotBoth(xml: string, i: nat, s: string, t: string, k: nat)
    requires At(xml, i, s) && k < |s| && k < |t| && s[k] != t[k]
    ensures !At(xml, i, t)
  {
    AtIndex(xml, i, s, k);
    NotAt(xml, i, t, k);
  }

  lemma ConstructIs(xml: string, i: nat)
    requires At(xml, i, "<")
    ensures At(xml, i, "<!--") ==> Construct(xml, i) == Past(xml, i + 4, "-->", Aside)
    ensures !At(xml, i, "<!--") && At(xml, i, "<![CDATA[") ==> Construct(xml, i) == Past(xml, i + 9, "]]>", Aside)
    ensures !At(xml, i, "<!--") && !At(xml, i, "<![CDATA[") && At(xml, i, "<?") ==> Construct(xml, i) == Past(xml, i + 2, "?>", Aside)
    ensures !At(xml, i, "<!--") && !At(xml, i, "<![CDATA[") && !At(xml, i, "<?") && At(xml, i, "<!") ==> Construct(xml, i) == Past(xml, i + 2, ">", Aside)
    ensures !At(xml, i, "<!--") && !At(xml, i, "<![CDATA[") && !At(xml, i, "<?") && !At(xml, i, "<!") && At(xml, i, "</") ==>
      Construct(xml, i) == Past(xml, i + 2, ">", Close)
  {
    hide Past, StartTag;
  }

  lemma OtherReads(xml: string, i: nat, c: Chunk, open: string, text: string, close: string, m: Markup)
    requires At(xml, i, "<") && TextOf(c) == open + (text + close) && MarkOf(c) == [m]
    requires Construct(xml, i) == Some(Found(m, i + |open| + |text| + |close|))
    ensures IsReadAs(xml, i, c)
  {
    hide At, Construct, TextOf;
  }

  lemma DeclarationReads(xml: string, i: nat, text: string)
    requires At(xml, i, TextOf(Declaration(text))) && ChunkOk(Declaration(text))
    ensures IsReadAs(xml, i, Declaration(text))
  {
    hide At, Past, EndsWith, Construct, Without;
    BetweenReads(xml, i, "<!", text, ">", Aside);
    DeclarationOpens(xml, i, text);
    NotBoth(xml, i, "<!", "<?", 1);
    ConstructIs(xml, i);
    OtherReads(xml, i, Declaration(text), "<!", text, ">", Aside);
  }

  lemma DeclarationOpens(xml: string, i: nat, text: string)
    requires At(xml, i + 2, text + ">") && !At(text, 0, "--") && !At(text, 0, "[CDATA[")
    ensures !At(xml, i, "<!--") && !At(xml, i, "<![CDATA[")
  {
    hide At, Without;
    OpeningsAre();
    OpensIn(xml, i + 2, text, "--");
    OpensIn(xml, i + 2, text, "[CDATA[");
    OpensFurther(xml, i, "--");
    OpensFurther(xml, i, "[CDATA[");
  }

  lemma OpensFurther(xml: string, i: nat, s: string)
    ensures At(xml, i, "<!" + s) ==> At(xml, i + 2, s)
  {
    if At(xml, i, "<!" + s) { AtSplit(xml, i, "<!", s); }
  }

  lemma RemarkReads(xml: string, i: nat, text: string)
    requires At(xml, i, TextOf(Remark(text))) && ChunkOk(Remark(text))
    ensures IsReadAs(xml, i, Remark(text))
  {
    hide At, Past, EndsWith, Construct;
    BetweenReads(xml, i, "<!--", text, "-->", Aside);
    ConstructIs(xml, i);
    OtherReads(xml, i, Remark(text), "<!--", text, "-->", Aside);
  }

  lemma SectionReads(xml: string, i: nat, text: string)
    requires At(xml, i, TextOf(Section(text))) && ChunkOk(Section(text))
    ensures IsReadAs(xml, i, Section(text))
  {
    hide At, Past, EndsWith, Construct;
    BetweenReads(xml, i, "<![CDATA[", text, "]]>", Aside);
    NotBoth(xml, i, "<![CDATA[", "<!--", 2);
    ConstructIs(xml, i);
    OtherReads(xml, i, Section(text), "<![CDATA[", text, "]]>", Aside);
  }

  lemma InstructionReads(xml: string, i: nat, text: string)
    requires At(xml, i, TextOf(Instruction(text))) && ChunkOk(Instruction(text))
    ensures IsReadAs(xml, i, Instruction(text))
  {
    hide At, Past, EndsWith, Construct;
    BetweenReads(xml, i, "<?", text, "?>", Aside);
    NotBoth(xml, i, "<?", "<!--", 1);
    NotBoth(xml, i, "<?", "<![CDATA[", 1);
    ConstructIs(xml, i);
    OtherReads(xml, i, Instruction(text), "<?", text, "?>", Aside);
  }

  lemma EndReads(xml: string, i: nat, text: string)
    requires At(xml, i, TextOf(End(text))) && ChunkOk(End(text))
    ensures IsReadAs(xml, i, End(text))
  {
    hide At, Past, EndsWith, Construct;
    BetweenReads(xml, i, "</", text, ">", Close);
    NotBoth(xml, i, "</", "<!--", 1);
    NotBoth(xml, i, "</", "<![CDATA[", 1);
    NotBoth(xml, i, "</", "<?", 1);
    NotBoth(xml, i, "</", "<!", 1);
    ConstructIs(xml, i);
    OtherReads(xml, i, End(text), "</", text, ">", Close);
  }

  /** A construct is read as it is meant. */
  lemma ConstructReads(xml: string, i: nat, c: Chunk)
    requires At(xml, i, TextOf(c)) && ChunkOk(c) && !c.Words?
    ensures IsReadAs(xml, i, c)
  {
    hide Construct, TextOf, ChunkOk, At;
    match c {
      case Start(tag, selfClosing) => StartReads(xml, i, tag, selfClosing);
      case Declaration(text) => DeclarationReads(xml, i, text);
      case Remark(text) => RemarkReads(xml, i, text);
      case Section(text) => SectionReads(xml, i, text);
      case Instruction(text) => InstructionReads(xml, i, text);
      case End(text) => EndReads(xml, i, text);
    }
  }

  lemma OpenAnd(xml: string, i: nat, open: string, next: nat)
    requires At(xml, i, open) && i + |open| <= next <= |xml|
    ensures xml[i..next] == open + xml[i + |open|..next]
  {
    assert xml[i..next] == xml[i..i + |open|] + xml[i + |open|..next];
  }

  lemma BetweenIs(xml: string, i: nat, open: string, close: string, m: Markup) returns (text: string)
    requires At(xml, i, open) && close != "" && Past(xml, i + |open|, close, m).Some?
    ensures var r := Past(xml, i + |open|, close, m).value; r.markup == m && xml[i..r.next] == open + (text + close) && EndsWith(text, close)
  {
    var r := Past(xml, i + |open|, close, m).value;
    PastIs(xml, i + |open|, close, m);
    hide EndsWith, Past;
    text := xml[i + |open|..r.next - |close|];
    OpenAnd(xml, i, open, r.next);
  }

  /** Whatever is read as a construct is one. */
  lemma ChunkOf(xml: string, i: nat) returns (c: Chunk)
    requires At(xml, i, "<") && Construct(xml, i).Some?
    ensures var r := Construct(xml, i).value; ChunkOk(c) && !c.Words? && MarkOf(c) == [r.markup] && xml[i..r.next] == TextOf(c)
  {
    hide EndsWith, Past;
    var text;
    if At(xml, i, "<!--") {
      text := BetweenIs(xml, i, "<!--", "-->", Aside);
      c := Remark(text);
    } else if At(xml, i, "<![CDATA[") {
      text := BetweenIs(xml, i, "<![CDATA[", "]]>", Aside);
      c := Section(text);
    } else if At(xml, i, "<?") {
      text := BetweenIs(xml, i, "<?", "?>", Aside);
      c := Instruction(text);
    } else if At(xml, i, "<!") {
      text := BetweenIs(xml, i, "<!", ">", Aside);
      c := Declaration(text);
      Unopened(xml, i, text, Construct(xml, i).value.next);
    } else if At(xml, i, "</") {
      text := BetweenIs(xml, i, "</", ">", Close);
      c := End(text);
    } else {
      hide Rest, SkipTagName;
      var tag := StartOf(xml, i);
      c := Start(tag, Construct(xml, i).value.markup.selfClosing);
    }
  }

  lemma Unopened(xml: string, i: nat, text: string, next: nat)
    requires i <= next <= |xml| && xml[i..next] == "<!" + (text + ">") && !At(xml, i, "<!--") && !At(xml, i, "<![CDATA[")
    ensures !At(text, 0, "--") && !At(text, 0, "[CDATA[")
  {
    BegunToo(xml, i, text, next, "--");
    BegunToo(xml, i, text, next, "[CDATA[");
    assert "<!" + "--" == "<!--" && "<!" + "[CDATA[" == "<![CDATA[";
  }

  lemma BegunToo(xml: string, i: nat, text: string, next: nat, s: string)
    requires i <= next <= |xml| && xml[i..next] == "<!" + (text + ">")
    ensures At(text, 0, s) ==> At(xml, i, "<!" + s)
  {
    if At(text, 0, s) {
      assert text[..|s|] == s;
      assert xml[i..i + 2 + |s|] == xml[i..next][..2 + |s|] == "<!" + s;
    }
  }

  // ---- Whole texts -------------------------------------------------------------------------------------

  function Followed(ms: seq<Markup>, r: Option<seq<Markup>>): Option<seq<Markup>> {
    if r.None? then None else Some(ms + r.value)
  }

  lemma ConstructStep(xml: string, pos: nat, m: Markup, next: nat)
    requires At(xml, pos, "<") && Construct(xml, pos) == Some(Found(m, next))
    ensures Markups(xml, pos) == Followed([m], Markups(xml, next))
  {
    FoundAt(xml, "<", pos, pos);
  }

  lemma {:induction false} NoneThrough(xml: string, s: string, from: nat, end: nat)
    requires from <= end <= |xml| && forall i :: from <= i < end ==> !At(xml, i, s)
    ensures IndexOf(xml, s, from) == IndexOf(xml, s, end)
    decreases end - from
  {
    if from < end { NoneThrough(xml, s, from + 1, end); }
  }

  lemma WordsRead(xml: string, pos: nat, text: string, end: nat)
    requires At(xml, pos, text) && Without(text, '<') && end == pos + |text|
    ensures Markups(xml, pos) == Followed([], Markups(xml, end))
  {
    AtAll(xml, pos, text);
    forall i | pos <= i < end ensures !At(xml, i, "<") { NotAt(xml, i, "<", 0); }
    NoneThrough(xml, "<", pos, end);
    var r := Markups(xml, end);
    if r.Some? { assert [] + r.value == r.value; }
  }

  lemma ChunkReads(xml: string, pos: nat, c: Chunk, end: nat)
    requires At(xml, pos, TextOf(c)) && ChunkOk(c) && end == pos + |TextOf(c)|
    ensures end <= |xml| && Markups(xml, pos) == Followed(MarkOf(c), Markups(xml, end))
  {
    hide Construct, Markups;
    if c.Words? {
      WordsRead(xml, pos, c.text, end);
    } else {
      hide TextOf, ChunkOk, MarkOf;
      ConstructReads(xml, pos, c);
      AtEnds(xml, pos, TextOf(c));
      hide At;
      ConstructStep(xml, pos, MarkOf(c)[0], end);
      assert MarkOf(c) == [MarkOf(c)[0]];
    }
  }

  lemma AtEnds(xml: string, i: nat, s: string)
    requires At(xml, i, s)
    ensures i + |s| <= |xml|
  {}

  lemma WriteAt(xml: string, pos: nat, cs: seq<Chunk>, next: nat)
    requires cs != [] && At(xml, pos, Write(cs)) && next == pos + |TextOf(cs[0])|
    ensures At(xml, pos, TextOf(cs[0])) && At(xml, next, Write(cs[1..])) && pos + |Write(cs)| == next + |Write(cs[1..])|
  {
    hide TextOf;
    AtSplit(xml, pos, TextOf(cs[0]), Write(cs[1..]));
  }

  /** The scanner reads a written text as its markup, in whichever way it is written. */
  lemma {:induction false} ReadsWritten(xml: string, pos: nat, cs: seq<Chunk>)
    requires At(xml, pos, Write(cs)) && pos + |Write(cs)| == |xml| && AllOk(cs)
    ensures Markups(xml, pos) == Some(MarksOf(cs))
    decreases |cs|
  {
    if cs == [] {
      assert !At(xml, |xml|, "<");
    } else {
      hide Markups, TextOf, ChunkOk, MarkOf;
      var next := pos + |TextOf(cs[0])|;
      WriteAt(xml, pos, cs, next);
      ChunkReads(xml, pos, cs[0], next);
      ReadsWritten(xml, next, cs[1..]);
    }
  }

  lemma {:induction false} WritingOf(xml: string, pos: nat) returns (cs: seq<Chunk>)
    requires pos <= |xml| && Markups(xml, pos).Some?
    ensures AllOk(cs) && Write(cs) == xml[pos..] && MarksOf(cs) == Markups(xml, pos).value
    decreases |xml| - pos
  {
    var i := IndexOf(xml, "<", pos);
    if i < 0 {
      NoneHere(xml, pos, |xml|);
      cs := LastWords(xml, pos);
    } else {
      var r := Construct(xml, i).value;
      var rest := WritingOf(xml, r.next);
      var c := ChunkOf(xml, i);
      NoneHere(xml, pos, i);
      hide Markups, Construct, TextOf, ChunkOk, At, MarkOf;
      cs := Joined(xml, pos, i, r.next, c, rest);
    }
  }

  lemma LastWords(xml: string, pos: nat) returns (cs: seq<Chunk>)
    requires pos <= |xml| && ChunkOk(Words(xml[pos..|xml|]))
    ensures AllOk(cs) && Write(cs) == xml[pos..] && MarksOf(cs) == []
  {
    cs := [Words(xml[pos..|xml|])];
    WriteFirst(Words(xml[pos..|xml|]), []);
    assert cs == [Words(xml[pos..|xml|])] + [];
  }

  lemma NoneHere(xml: string, pos: nat, end: nat)
    requires pos <= end <= |xml| && forall i :: pos <= i < end ==> !At(xml, i, "<")
    ensures ChunkOk(Words(xml[pos..end]))
  {
    forall i | pos <= i < end ensures xml[i] != '<' { assert !At(xml, i, "<"); }
  }

  lemma WriteFirst(c: Chunk, cs: seq<Chunk>)
    ensures Write([c] + cs) == TextOf(c) + Write(cs) && MarksOf([c] + cs) == MarkOf(c) + MarksOf(cs)
  {
    assert ([c] + cs)[1..] == cs;
  }

  lemma Joined(xml: string, pos: nat, i: nat, next: nat, c: Chunk, rest: seq<Chunk>) returns (cs: seq<Chunk>)
    requires pos <= i <= next <= |xml| && xml[i..next] == TextOf(c) && Write(rest) == xml[next..]
    requires ChunkOk(Words(xml[pos..i])) && ChunkOk(c) && AllOk(rest)
    ensures AllOk(cs) && Write(cs) == xml[pos..] && MarksOf(cs) == MarkOf(c) + MarksOf(rest)
  {
    var w := Words(xml[pos..i]);
    var from := [c] + rest;
    cs := [w] + from;
    WriteFirst(c, rest);
    WriteFirst(w, from);
    assert TextOf(w) == xml[pos..i] && MarkOf(w) == [];
    hide TextOf, MarkOf, ChunkOk, Write, MarksOf;
    assert xml[i..] == xml[i..next] + xml[next..];
    assert xml[pos..] == xml[pos..i] + xml[i..];
    assert [] + MarksOf(from) == MarksOf(from);
  }

  /** A text can be read, and is read as `ms`, exactly if there is a way of writing `ms` that it is. */
  lemma ReadExactly(xml: string, ms: seq<Markup>)
    ensures Markups(xml, 0) == Some(ms) <==> exists cs :: AllOk(cs) && Write(cs) == xml && MarksOf(cs) == ms
  {
    if Markups(xml, 0) == Some(ms) { var cs := WritingOf(xml, 0); }
    forall cs | AllOk(cs) && Write(cs) == xml ensures Markups(xml, 0) == Some(MarksOf(cs)) {
      assert xml[0..|xml|] == xml;
      ReadsWritten(xml, 0, cs);
    }
  }
}
