/**
What the limits on a presented document count, and what the text of an element is, said of the text and
the tags as they stand: octets of UTF-8, start tags, attributes.
*/
module ExchangeSizes {
  import opened XmlEscape
  import opened XmlMarkup
  import opened ExchangeShape
  import opened ExchangeLimits
  import MessageShape

  // ---- Octets ------------------------------------------------------------------------------------

  /** UTF-8 takes one to four octets a character; a surrogate without its other half is written as U+FFFD. */
  function EncodedLength(t: Text): nat
    decreases |t|
  {
    if t == [] then 0
    else if |t| > 1 && 0xD800 <= t[0] <= 0xDBFF && 0xDC00 <= t[1] <= 0xDFFF then 4 + EncodedLength(t[2..])
    else (if t[0] <= 0x7F then 1 else if t[0] <= 0x7FF then 2 else 3) + EncodedLength(t[1..])
  }

  lemma {:induction false} OctetsFrom(t: Text, n: nat)
    requires n <= |t| && (n < |t| && IsLow(t[n]) ==> !IsHighAt(t, n - 1))
    ensures Octets(t) == OctetsUpTo(t, n) + EncodedLength(t[n..])
    decreases |t| - n
  {
    if n < |t| {
      var rest := t[n..];
      if IsHigh(t[n]) && IsLowAt(t, n + 1) {
        OctetsFrom(t, n + 2);
        assert rest[2..] == t[n + 2..] && OctetsUpTo(t, n + 2) == OctetsUpTo(t, n + 1) + UnitOctets(t, n + 1);
      } else {
        OctetsFrom(t, n + 1);
        assert rest[1..] == t[n + 1..];
      }
    }
  }

  /** Counting each unit by its neighbours comes to encoding the text from its beginning. */
  lemma OctetsAre(t: Text)
    ensures Octets(t) == EncodedLength(t)
  {
    OctetsFrom(t, 0);
    assert t[0..] == t;
  }

  // ---- Letters of either case ----------------------------------------------------------------------

  /** From `i` on the text reads `word`, each letter as it is here or as it is in `upper`. */
  predicate ReadsAt(xml: Text, i: nat, word: string, upper: string)
    requires |word| == |upper|
  {
    i + |word| <= |xml| && forall k :: 0 <= k < |word| ==> xml[i + k] == U(word)[k] || xml[i + k] == U(upper)[k]
  }

  /** `upper` is `word` in capitals. */
  predicate IsUpper(word: string, upper: string) {
    |word| == |upper| && forall k :: 0 <= k < |word| ==> 'a' <= word[k] <= 'z' && upper[k] as int == word[k] as int - 0x20
  }

  lemma LowerIs(u: CodeUnit, c: char)
    requires 'a' <= c <= 'z'
    ensures Lower(u) == c as int <==> u == c as int || u == c as int - 0x20
  {}

  lemma DeclaresIs(xml: Text, i: nat, word: string, upper: string)
    requires i < |xml| && IsUpper(word, upper)
    ensures DeclaresAt(xml, i, word) <==> xml[i] == 0x3C && i + 1 < |xml| && xml[i + 1] == 0x21 && ReadsAt(xml, i + 2, word, upper)
  {
    if i + 2 + |word| <= |xml| {
      forall k | 0 <= k < |word| ensures Lower(xml[i + 2 + k]) == U(word)[k] <==> xml[i + 2 + k] == U(word)[k] || xml[i + 2 + k] == U(upper)[k] {
        LowerIs(xml[i + 2 + k], word[k]);
      }
    }
  }

  /** The text has `<!DOCTYPE` or `<!ENTITY` in it, in letters of either case. */
  predicate SaysDeclaration(xml: Text) {
    exists i :: 0 <= i < |xml| && BeginsDeclaration(xml, i)
  }

  predicate BeginsDeclaration(xml: Text, i: nat) {
    && i + 1 < |xml| && xml[i] == 0x3C && xml[i + 1] == 0x21
    && (ReadsAt(xml, i + 2, "doctype", "DOCTYPE") || ReadsAt(xml, i + 2, "entity", "ENTITY"))
  }

  lemma DeclarationsAre(xml: Text)
    ensures Declares(xml) <==> SaysDeclaration(xml)
  {
    assert IsUpper("doctype", "DOCTYPE") && IsUpper("entity", "ENTITY");
    forall i | 0 <= i < |xml| ensures BeginsDeclaration(xml, i) <==> DeclaresAt(xml, i, "doctype") || DeclaresAt(xml, i, "entity") {
      DeclaresIs(xml, i, "doctype", "DOCTYPE");
      DeclaresIs(xml, i, "entity", "ENTITY");
    }
    hide DeclaresAt, BeginsDeclaration;
  }

  // ---- Tags ---------------------------------------------------------------------------------------

  function StartTags(cs: seq<Chunk>): nat {
    if cs == [] then 0 else (if cs[0].Start? then 1 else 0) + StartTags(cs[1..])
  }

  function AttributesIn(cs: seq<Chunk>): nat {
    if cs == [] then 0 else (if cs[0].Start? then |cs[0].attrs| else 0) + AttributesIn(cs[1..])
  }

  /** All text there is, in the order it is written. */
  function AllText(cs: seq<Chunk>): Text {
    if cs == [] then [] else (if cs[0].Plain? then cs[0].text else []) + AllText(cs[1..])
  }

  lemma {:induction false} CountsConcat(a: seq<Chunk>, b: seq<Chunk>)
    ensures StartTags(a + b) == StartTags(a) + StartTags(b) && AttributesIn(a + b) == AttributesIn(a) + AttributesIn(b)
    ensures AllText(a + b) == AllText(a) + AllText(b)
    decreases |a|
  {
    if a == [] {
      assert a + b == b;
    } else {
      assert (a + b)[1..] == a[1..] + b;
      CountsConcat(a[1..], b);
    }
  }

  lemma CountsOne(c: Chunk)
    ensures StartTags([c]) == (if c.Start? then 1 else 0) && AttributesIn([c]) == (if c.Start? then |c.attrs| else 0)
    ensures AllText([c]) == if c.Plain? then c.text else []
  {
    assert [c][1..] == [];
  }

  lemma CountsTag(start: Chunk, children: seq<Chunk>, end: Chunk, next: seq<Chunk>)
    requires start.Start? && end.End?
    ensures var cs := [start] + children + [end] + next;
      && StartTags(cs) == 1 + StartTags(children) + StartTags(next)
      && AttributesIn(cs) == |start.attrs| + AttributesIn(children) + AttributesIn(next)
      && AllText(cs) == AllText(children) + AllText(next)
  {
    CountsOne(start);
    CountsOne(end);
    CountsConcat([start] + children + [end], next);
    CountsConcat([start] + children, [end]);
    CountsConcat([start], children);
    hide StartTags, AttributesIn, AllText;
  }

  /** What is counted in the tree, and its text content, are what stands in the text it is written as. */
  lemma {:induction false} CountsAre(f: Forest)
    ensures ElementCount(f) == StartTags(Chunks(f)) && AttributeCount(f) == AttributesIn(Chunks(f)) && TextContent(f) == AllText(Chunks(f))
    decreases f
  {
    match f {
      case Nil =>
      case Words(text, next) =>
        CountsAre(next);
        CountsOne(Plain(text));
        CountsConcat([Plain(text)], Chunks(next));
      case Element(name, attrs, children, next) =>
        CountsAre(children);
        CountsAre(next);
        ElementCounts(f);
    }
  }

  lemma ElementCounts(f: Forest)
    requires f.Element?
    ensures StartTags(Chunks(f)) == 1 + StartTags(Chunks(f.children)) + StartTags(Chunks(f.next))
    ensures AttributesIn(Chunks(f)) == |f.attrs| + AttributesIn(Chunks(f.children)) + AttributesIn(Chunks(f.next))
    ensures AllText(Chunks(f)) == AllText(Chunks(f.children)) + AllText(Chunks(f.next))
  {
    var start := Start(f.name, f.attrs, f.children.Nil?);
    if f.children.Nil? {
      CountsOne(start);
      CountsConcat([start], Chunks(f.next));
    } else {
      CountsTag(start, Chunks(f.children), End(f.name), Chunks(f.next));
    }
  }

  /** The element without what follows it. */
  function Alone(el: Forest): Forest
    requires el.Element?
  {
    Element(el.name, el.attrs, el.children, Nil)
  }

  lemma RootCounts(root: Forest)
    requires root.Element?
    ensures MessageShape.Elements(NodeOf(root)) == StartTags(Chunks(Alone(root)))
    ensures MessageShape.Attributes(NodeOf(root)) == AttributesIn(Chunks(Alone(root)))
  {
    NodesCount(root.children);
    CountsAre(Alone(root));
  }

  /** The text of an element is all the text in it, in order. */
  lemma TextOfIs(el: Forest)
    requires el.Element?
    ensures TextOf(el) == AllText(Chunks(el.children))
  {
    CountsAre(el.children);
  }

  /**
   * A document is within the limits exactly if it takes at most 64 KiB in UTF-8, begins no document type or
   * entity declaration, and has at most 200 start tags and 1000 attributes in them.
   */
  lemma LimitsExactly(d: Document)
    ensures WithinLimits(d) <==>
      && d.root.Element? && EncodedLength(d.xml) <= 65_536 && !SaysDeclaration(d.xml)
      && StartTags(Chunks(Alone(d.root))) <= 200 && AttributesIn(Chunks(Alone(d.root))) <= 1000
  {
    OctetsAre(d.xml);
    DeclarationsAre(d.xml);
    if d.root.Element? { RootCounts(d.root); }
  }

  /** Exactly the characters that `\s` matches in a JavaScript regular expression may stand between elements. */
  lemma BlankExactly(u: CodeUnit)
    ensures IsBlank(u) <==>
      u in {0x9, 0xA, 0xB, 0xC, 0xD, 0x20, 0xA0, 0x1680, 0x2000, 0x2001, 0x2002, 0x2003, 0x2004, 0x2005, 0x2006, 0x2007, 0x2008, 0x2009, 0x200A,
            0x2028, 0x2029, 0x202F, 0x205F, 0x3000, 0xFEFF}
  {}
}
