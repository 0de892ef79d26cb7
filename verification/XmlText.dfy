/**
What the strict XML scanner reads: the markup of a text, found construct by construct.

A text is a sequence of Unicode scalar values. Each character that decides anything here is one
UTF-16 unit too, so the units of the source's strings would be read the same way.
*/
module XmlText {
  import opened Optional

  datatype Attr = Attr(name: string, value: string)

  datatype Markup =
    | Aside                                            // a comment, CDATA section, instruction or declaration
    | Close
    | Open(attrs: seq<Attr>, selfClosing: bool)

  // ---- Characters ------------------------------------------------------------------------------

  predicate IsSpace(c: char) { c == ' ' || c == '\t' || c == '\n' || c == '\r' }

  /** Control characters, and everything a JavaScript regular expression calls white space. */
  predicate NotInName(c: char) {
    var u := c as int;
    || u <= 0x20 || 0x7F <= u <= 0xA0 || u == 0x1680 || 0x2000 <= u <= 0x200A || u == 0x2028 || u == 0x2029
    || u == 0x202F || u == 0x205F || u == 0x3000 || u == 0xFEFF
  }

  predicate CleanName(name: string) {
    name != "" && forall i :: 0 <= i < |name| ==> !NotInName(name[i])
  }

  predicate EndsTagName(c: char) { IsSpace(c) || c == '/' || c == '>' }

  predicate EndsAttrName(c: char) { IsSpace(c) || c == '=' || c == '/' || c == '>' || c == '<' }

  // ---- Searching -------------------------------------------------------------------------------

  predicate At(xml: string, i: nat, s: string) {
    i + |s| <= |xml| && xml[i..i + |s|] == s
  }

  /** The first place from `from` on where `s` stands, or -1. */
  function IndexOf(xml: string, s: string, from: nat): (j: int)
    requires from <= |xml|
    ensures j == -1 || (from <= j && At(xml, j, s))
    ensures forall i :: from <= i && (j == -1 || i < j) ==> !At(xml, i, s)
    decreases |xml| - from
  {
    if At(xml, from, s) then from
    else if from == |xml| then -1
    else IndexOf(xml, s, from + 1)
  }

  function SkipSpace(xml: string, k: nat): (j: nat)
    requires k <= |xml|
    ensures k <= j <= |xml| && (forall i :: k <= i < j ==> IsSpace(xml[i])) && (j < |xml| ==> !IsSpace(xml[j]))
    decreases |xml| - k
  {
    if k < |xml| && IsSpace(xml[k]) then SkipSpace(xml, k + 1) else k
  }

  function SkipTagName(xml: string, k: nat): (j: nat)
    requires k <= |xml|
    ensures k <= j <= |xml| && (forall i :: k <= i < j ==> !EndsTagName(xml[i])) && (j < |xml| ==> EndsTagName(xml[j]))
    decreases |xml| - k
  {
    if k < |xml| && !EndsTagName(xml[k]) then SkipTagName(xml, k + 1) else k
  }

  function SkipAttrName(xml: string, k: nat): (j: nat)
    requires k <= |xml|
    ensures k <= j <= |xml| && (forall i :: k <= i < j ==> !EndsAttrName(xml[i])) && (j < |xml| ==> EndsAttrName(xml[j]))
    decreases |xml| - k
  {
    if k < |xml| && !EndsAttrName(xml[k]) then SkipAttrName(xml, k + 1) else k
  }

  // ---- Constructs ------------------------------------------------------------------------------

  datatype Piece =
    | Refused
    | Attribute(attr: Attr, next: nat)
    | TagEnd(selfClosing: bool, next: nat)   // `next`: after the ">"

  /** The quoted value after a name's "=". */
  function ValueOf(xml: string, from: nat, name: string): (p: Piece)
    requires from <= |xml|
    ensures !p.TagEnd? && (p.Attribute? ==> p.attr.name == name && from + 2 <= p.next <= |xml|)
  {
    var quote := SkipSpace(xml, from);
    if quote == |xml| || (xml[quote] != '"' && xml[quote] != '\'') then Refused
    else
      var close := IndexOf(xml, [xml[quote]], quote + 1);
      if close < 0 then Refused
      else if close + 1 < |xml| && !IsSpace(xml[close + 1]) && xml[close + 1] != '>' && xml[close + 1] != '/' then Refused
      else Attribute(Attr(name, xml[quote + 1..close]), close + 1)
  }

  /** `name = "value"` or `name = 'value'`, with no blank before `k`. */
  function NextAttribute(xml: string, k: nat): (p: Piece)
    requires k <= |xml|
    ensures !p.TagEnd? && (p.Attribute? ==> k + |p.attr.name| + 3 <= p.next <= |xml|)
  {
    var nameEnd := SkipAttrName(xml, k);
    var name := xml[k..nameEnd];
    var eq := SkipSpace(xml, nameEnd);
    if !CleanName(name) || eq == |xml| || xml[eq] != '=' then Refused else ValueOf(xml, eq + 1, name)
  }

  function NextPiece(xml: string, from: nat): (p: Piece)
    requires from <= |xml|
    ensures p.Attribute? ==> from + |p.attr.name| + 3 <= p.next <= |xml|
    ensures p.TagEnd? ==> from < p.next <= |xml|
  {
    var k := SkipSpace(xml, from);
    if k == |xml| then Refused
    else if xml[k] == '>' then TagEnd(false, k + 1)
    else if At(xml, k, "/>") then TagEnd(true, k + 2)
    else NextAttribute(xml, k)
  }

  datatype TagRest = TagRest(attrs: seq<Attr>, selfClosing: bool, next: nat)

  /** What follows a start tag's name. */
  function Rest(xml: string, from: nat): (r: Option<TagRest>)
    requires from <= |xml|
    ensures r.Some? ==> from < r.value.next <= |xml|
    decreases |xml| - from
  {
    match NextPiece(xml, from)
    case Refused => None
    case TagEnd(selfClosing, next) => Some(TagRest([], selfClosing, next))
    case Attribute(a, next) =>
      var r := Rest(xml, next);
      if r.None? then None else Some(TagRest([a] + r.value.attrs, r.value.selfClosing, r.value.next))
  }

  datatype Found = Found(markup: Markup, next: nat)

  function Past(xml: string, from: nat, close: string, m: Markup): (r: Option<Found>)
    requires from <= |xml| && |close| > 0
    ensures r.Some? ==> from < r.value.next <= |xml|
  {
    var j := IndexOf(xml, close, from);
    if j < 0 then None else Some(Found(m, j + |close|))
  }

  function StartTag(xml: string, i: nat): (r: Option<Found>)
    requires i < |xml|
    ensures r.Some? ==> i < r.value.next <= |xml|
  {
    var k := SkipTagName(xml, i + 1);
    if !CleanName(xml[i + 1..k]) then None
    else
      var r := Rest(xml, k);
      if r.None? then None else Some(Found(Open(r.value.attrs, r.value.selfClosing), r.value.next))
  }

  /** The construct that begins with the "<" at `i`. */
  function Construct(xml: string, i: nat): (r: Option<Found>)
    requires At(xml, i, "<")
    ensures r.Some? ==> i < r.value.next <= |xml|
  {
    if At(xml, i, "<!--") then Past(xml, i + 4, "-->", Aside)
    else if At(xml, i, "<![CDATA[") then Past(xml, i + 9, "]]>", Aside)
    else if At(xml, i, "<?") then Past(xml, i + 2, "?>", Aside)
    else if At(xml, i, "<!") then Past(xml, i + 2, ">", Aside)
    else if At(xml, i, "</") then Past(xml, i + 2, ">", Close)
    else StartTag(xml, i)
  }

  /** The markup of `xml` from `pos` on, or None where the scanner can make nothing of it. */
  function Markups(xml: string, pos: nat): (r: Option<seq<Markup>>)
    requires pos <= |xml|
    decreases |xml| - pos
  {
    var i := IndexOf(xml, "<", pos);
    if i < 0 then Some([])
    else
      var c := Construct(xml, i);
      if c.None? then None
      else
        var r := Markups(xml, c.value.next);
        if r.None? then None else Some([c.value.markup] + r.value)
  }
}
