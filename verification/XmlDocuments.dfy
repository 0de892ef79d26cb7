/**
The scanner against documents: a tree of elements, written in whichever way, and which trees the
scanner accepts, told from the tree alone.
*/
module XmlDocuments {
  import opened Optional
  import opened XmlText
  import opened XmlNames
  import opened XmlWritten

  /**
   * A document, or part of one: each node is followed by the next one at its level. `data`: text, a
   * comment, a CDATA section, an instruction or a declaration. `end`: what the end tag says.
   */
  datatype Forest =
    | Nil
    | Data(data: Chunk, next: Forest)
    | Element(tag: Tag, children: Forest, end: string, next: Forest)
    | EmptyElement(tag: Tag, next: Forest)

  /** A document in the order it is written. */
  function Chunks(f: Forest): seq<Chunk> {
    match f
    case Nil => []
    case Data(data, next) => [data] + Chunks(next)
    case Element(tag, children, end, next) => [Start(tag, false)] + Chunks(children) + [End(end)] + Chunks(next)
    case EmptyElement(tag, next) => [Start(tag, true)] + Chunks(next)
  }

  function Render(f: Forest): string { Write(Chunks(f)) }

  predicate NoTags(f: Forest) {
    match f
    case Nil => true
    case Data(data, next) => !data.Start? && !data.End? && NoTags(next)
    case Element(_, children, _, next) => NoTags(children) && NoTags(next)
    case EmptyElement(_, next) => NoTags(next)
  }

  /** Every tag, text and comment of the tree can be written as it is, and tags are only in elements. */
  predicate WellFormed(f: Forest) { NoTags(f) && AllOk(Chunks(f)) }

  /** The tag's attributes, whichever way they are written. */
  function Attrs(tag: Tag): seq<Attr> { AttrsOf(tag.attrs) }

  // ---- Which trees are lawful ------------------------------------------------------------------

  /** The bindings in force in an element: its own declarations over those it inherits. */
  type Env = map<string, string>

  const TOP: Env := map["xml" := XML_NAMESPACE]

  function ExpandIn(env: Env, name: string): ExpandedName {
    var c := Colon(name);
    if c < 0 then Plain(name)
    else if name[..c] in env then InNamespace(env[name[..c]], name[c + 1..])
    else Unbound(name[..c], name[c + 1..])
  }

  /** No two attributes, declarations aside, are spelt to one expanded name. */
  predicate UniqueIn(env: Env, attrs: seq<Attr>) {
    forall i, j :: 0 <= i < j < |attrs| && !IsDeclaration(attrs[i].name) && !IsDeclaration(attrs[j].name) ==>
      ExpandIn(env, attrs[i].name) != ExpandIn(env, attrs[j].name)
  }

  /** Nor two that the scanner confuses. */
  predicate ApartIn(env: Env, attrs: seq<Attr>) {
    forall i, j :: 0 <= i < j < |attrs| && !IsDeclaration(attrs[i].name) && !IsDeclaration(attrs[j].name) ==>
      !Confused(ExpandIn(env, attrs[i].name), ExpandIn(env, attrs[j].name))
  }

  /** Every element's names are unique as spelt, in its own environment, and it is inside fewer than a hundred others. */
  predicate Lawful(f: Forest, env: Env, depth: nat) {
    match f
    case Nil => true
    case Data(_, next) => Lawful(next, env, depth)
    case Element(tag, children, _, next) =>
      && UniqueIn(env + DeclOf(Attrs(tag)), Attrs(tag)) && depth < MAX_XML_DEPTH
      && Lawful(children, env + DeclOf(Attrs(tag)), depth + 1) && Lawful(next, env, depth)
    case EmptyElement(tag, next) => UniqueIn(env + DeclOf(Attrs(tag)), Attrs(tag)) && Lawful(next, env, depth)
  }

  /** No element has two names that the scanner confuses. */
  predicate ToldApart(f: Forest, env: Env) {
    match f
    case Nil => true
    case Data(_, next) => ToldApart(next, env)
    case Element(tag, children, _, next) =>
      ApartIn(env + DeclOf(Attrs(tag)), Attrs(tag)) && ToldApart(children, env + DeclOf(Attrs(tag))) && ToldApart(next, env)
    case EmptyElement(tag, next) => ApartIn(env + DeclOf(Attrs(tag)), Attrs(tag)) && ToldApart(next, env)
  }

  // ---- The scanner reads what was written ------------------------------------------------------

  function Marks(f: Forest): seq<Markup> {
    match f
    case Nil => []
    case Data(data, next) => MarkOf(data) + Marks(next)
    case Element(tag, children, _, next) => [Open(Attrs(tag), false)] + Marks(children) + [Close] + Marks(next)
    case EmptyElement(tag, next) => [Open(Attrs(tag), true)] + Marks(next)
  }

  lemma {:induction false} MarksConcat(a: seq<Chunk>, b: seq<Chunk>)
    ensures MarksOf(a + b) == MarksOf(a) + MarksOf(b)
    decreases |a|
  {
    if a == [] {
      assert a + b == b;
    } else {
      assert (a + b)[1..] == a[1..] + b;
      MarksConcat(a[1..], b);
    }
  }

  lemma {:induction false} MarksAre(f: Forest)
    ensures MarksOf(Chunks(f)) == Marks(f)
    decreases f
  {
    match f {
      case Nil =>
      case Data(_, next) => MarksAre(next);
      case EmptyElement(_, next) => MarksAre(next);
      case Element(tag, children, end, next) =>
        MarksAre(children);
        MarksAre(next);
        var start := [Start(tag, false)];
        MarksConcat(start + Chunks(children) + [End(end)], Chunks(next));
        MarksConcat(start + Chunks(children), [End(end)]);
        MarksConcat(start, Chunks(children));
        assert MarksOf(start) == [Open(Attrs(tag), false)] && MarksOf([End(end)]) == [Close];
    }
  }

  // ---- A stack of scopes is an environment -----------------------------------------------------

  function Merged(scopes: Scopes): Env {
    if scopes == [] then TOP else Merged(scopes[..|scopes| - 1]) + scopes[|scopes| - 1]
  }

  lemma {:induction false} MergedIsInnermost(scopes: Scopes, prefix: string)
    ensures Innermost(scopes, prefix) == if prefix in Merged(scopes) then Some(Merged(scopes)[prefix]) else None
    decreases |scopes|
  {
    if scopes != [] { MergedIsInnermost(scopes[..|scopes| - 1], prefix); }
  }

  lemma MergedPush(scopes: Scopes, d: Decl)
    ensures Merged(scopes + [d]) == Merged(scopes) + d
  {
    assert (scopes + [d])[..|scopes|] == scopes;
  }

  lemma UniqueKeysIn(scopes: Scopes, attrs: seq<Attr>)
    requires CleanAttrs(attrs)
    ensures UniqueKeys(scopes, attrs) <==> UniqueIn(Merged(scopes), attrs) && ApartIn(Merged(scopes), attrs)
  {
    UniqueKeysIff(scopes, attrs);
    forall i | 0 <= i < |attrs| ensures Expand(scopes, attrs[i].name) == ExpandIn(Merged(scopes), attrs[i].name) {
      var c := Colon(attrs[i].name);
      if c >= 0 { MergedIsInnermost(scopes, attrs[i].name[..c]); }
    }
  }

  /** Every attribute's name is one that can be written. */
  predicate CleanNames(f: Forest) {
    match f
    case Nil => true
    case Data(_, next) => CleanNames(next)
    case Element(tag, children, _, next) => CleanAttrs(Attrs(tag)) && CleanNames(children) && CleanNames(next)
    case EmptyElement(tag, next) => CleanAttrs(Attrs(tag)) && CleanNames(next)
  }

  lemma OkParts(a: seq<Chunk>, b: seq<Chunk>)
    requires AllOk(a + b)
    ensures AllOk(a) && AllOk(b)
  {
    assert forall i :: 0 <= i < |a| ==> a[i] == (a + b)[i];
    assert forall i :: 0 <= i < |b| ==> b[i] == (a + b)[|a| + i];
  }

  lemma TagIsClean(tag: Tag, selfClosing: bool)
    requires AllOk([Start(tag, selfClosing)])
    ensures CleanAttrs(Attrs(tag))
  {
    assert ChunkOk([Start(tag, selfClosing)][0]);
    forall i | 0 <= i < |tag.attrs| ensures CleanName(tag.attrs[i].name) {
      assert SpellingOk(tag.attrs[i]);
      IsNameIs(tag.attrs[i].name);
    }
  }

  lemma {:induction false} WellFormedIsClean(f: Forest)
    requires AllOk(Chunks(f))
    ensures CleanNames(f)
    decreases f
  {
    hide ChunkOk, CleanAttrs;
    match f {
      case Nil =>
      case Data(data, next) =>
        OkParts([data], Chunks(next));
        WellFormedIsClean(next);
      case EmptyElement(tag, next) =>
        OkParts([Start(tag, true)], Chunks(next));
        TagIsClean(tag, true);
        WellFormedIsClean(next);
      case Element(tag, children, end, next) =>
        var start := [Start(tag, false)];
        OkParts(start + Chunks(children) + [End(end)], Chunks(next));
        OkParts(start + Chunks(children), [End(end)]);
        OkParts(start, Chunks(children));
        TagIsClean(tag, false);
        WellFormedIsClean(children);
        WellFormedIsClean(next);
    }
  }

  lemma {:induction false} AllFitConcat(scopes: Scopes, f: Forest, rest: seq<Markup>)
    requires CleanNames(f) && NoTags(f)
    ensures AllFit(scopes, Marks(f) + rest) <==> Lawful(f, Merged(scopes), |scopes|) && ToldApart(f, Merged(scopes)) && AllFit(scopes, rest)
    decreases f
  {
    hide UniqueKeys, UniqueIn, ApartIn, CleanAttrs, Expand;
    match f {
      case Nil => assert Marks(f) + rest == rest;
      case Data(data, next) =>
        assert Marks(f) + rest == MarkOf(data) + (Marks(next) + rest);
        AllFitConcat(scopes, next, rest);
        DataFits(scopes, data, Marks(next) + rest);
      case EmptyElement(tag, next) =>
        var attrs := Attrs(tag);
        assert Marks(f) + rest == [Open(attrs, true)] + (Marks(next) + rest);
        MergedPush(scopes, DeclOf(attrs));
        UniqueKeysIn(scopes + [DeclOf(attrs)], attrs);
        AllFitConcat(scopes, next, rest);
      case Element(tag, children, _, next) =>
        var attrs := Attrs(tag);
        var inner := scopes + [DeclOf(attrs)];
        var tail := [Close] + (Marks(next) + rest);
        assert Marks(f) + rest == [Open(attrs, false)] + (Marks(children) + tail);
        MergedPush(scopes, DeclOf(attrs));
        UniqueKeysIn(inner, attrs);
        AllFitConcat(inner, children, tail);
        assert tail[0] == Close && tail[1..] == Marks(next) + rest && After(inner, Close) == scopes;
        AllFitConcat(scopes, next, rest);
    }
  }

  lemma DataFits(scopes: Scopes, data: Chunk, rest: seq<Markup>)
    requires !data.Start? && !data.End?
    ensures AllFit(scopes, MarkOf(data) + rest) <==> AllFit(scopes, rest)
  {
    if data.Words? { assert MarkOf(data) + rest == rest; }
  }

  lemma DocumentReads(f: Forest)
    requires WellFormed(f)
    ensures Markups(Render(f), 0) == Some(Marks(f))
  {
    ReadExactly(Render(f), Marks(f));
    MarksAre(f);
  }

  /**
   * The scanner accepts a document's text, in whichever way it is written, exactly when every element's
   * names are unique as spelt, told from the declarations on it and around it with no stack and no text,
   * and none of them are confused.
   */
  lemma AcceptsTheLawful(f: Forest)
    requires WellFormed(f)
    ensures Accepts(Render(f)) <==> Lawful(f, TOP, 0) && ToldApart(f, TOP)
  {
    DocumentReads(f);
    assert Marks(f) + [] == Marks(f);
    WellFormedIsClean(f);
    AllFitConcat([], f, []);
  }

  ghost predicate AllInOrder(ms: seq<Markup>) {
    forall t :: 0 <= t < |ms| && ms[t].Open? ==> InOrder(ScopesAt([], ms, t), ms[t].attrs, ms[t].selfClosing)
  }

  /** Of all texts, those accepted are the ones that can be written as markup in order: no other is. */
  lemma AcceptedExactly(xml: string)
    ensures Accepts(xml) <==> exists cs :: AllOk(cs) && Write(cs) == xml && AllInOrder(MarksOf(cs))
  {
    hide AllInOrder;
    var ms := Markups(xml, 0);
    if ms.Some? {
      ReadExactly(xml, ms.value);
      AcceptedInOrder(xml);
      forall cs | AllOk(cs) && Write(cs) == xml ensures MarksOf(cs) == ms.value { ReadExactly(xml, MarksOf(cs)); }
    } else {
      forall cs | AllOk(cs) && Write(cs) == xml ensures false { ReadExactly(xml, MarksOf(cs)); }
    }
  }

  lemma AcceptedInOrder(xml: string)
    requires Markups(xml, 0).Some?
    ensures Accepts(xml) <==> AllInOrder(Markups(xml, 0).value)
  {
    AcceptanceIsExact(xml);
  }

  // ---- Documents written plainly ---------------------------------------------------------------

  function InQuotes(a: Attr): Spelling { Spelling(" ", a.name, "", "", '"', a.value) }

  /** A tag written with single blanks and double quotes. */
  function Plainly(name: string, attrs: seq<Attr>): (tag: Tag)
    ensures Attrs(tag) == attrs
  {
    var spelt := seq(|attrs|, i requires 0 <= i < |attrs| => InQuotes(attrs[i]));
    assert AttrsOf(spelt) == attrs;
    Tag(name, spelt, "")
  }

  predicate AllWritable(attrs: seq<Attr>) {
    forall i :: 0 <= i < |attrs| ==> AttrName(attrs[i].name) && Without(attrs[i].value, '"')
  }

  const CONFUSING := [Attr("xmlns:a", ""), Attr("x", ""), Attr("a:x", "")]

  lemma ConfusingDeclares()
    ensures DeclOf(CONFUSING) == map["a" := ""]
    ensures !IsDeclaration("x") && !IsDeclaration("a:x") && IsDeclaration("xmlns:a")
  {
    assert CONFUSING[..2] == [CONFUSING[0], CONFUSING[1]] && CONFUSING[..2][..1] == [CONFUSING[0]] && [CONFUSING[0]][..0] == [];
    assert "xmlns:a"[6..] == "a" && "xmlns:a"[0..6] == "xmlns:";
    assert DeclOf([CONFUSING[0]]) == map["a" := ""];
    assert DeclOf(CONFUSING[..2]) == map["a" := ""];
  }

  /** The plain name "x", and "x" in the namespace "". */
  lemma ConfusingNames()
    ensures var env := TOP + map["a" := ""];
      ExpandIn(env, "x") == Plain("x") && ExpandIn(env, "a:x") == InNamespace("", "x")
  {
    assert Colon("x") == -1;
    assert Colon("a:x") == 1 && "a:x"[..1] == "a" && "a:x"[2..] == "x";
  }

  const CONFUSED := EmptyElement(Plainly("e", CONFUSING), Nil)

  predicate Letters(name: string) { name != "" && forall i :: 0 <= i < |name| ==> 'a' <= name[i] <= 'z' || name[i] == ':' }

  lemma LettersCanBeWritten(name: string)
    requires Letters(name)
    ensures TagName(name) && AttrName(name)
  {
    forall i | 0 <= i < |name| ensures NameChar(name[i]) && name[i] !in "!?/>=<" { assert 'a' <= name[i] <= 'z' || name[i] == ':'; }
  }

  lemma ConfusingCanBeWritten()
    ensures TagName("e") && AllWritable(CONFUSING)
  {
    assert Letters("e") && Letters("xmlns:a") && Letters("x") && Letters("a:x");
    LettersCanBeWritten("e");
    LettersCanBeWritten("xmlns:a");
    LettersCanBeWritten("x");
    LettersCanBeWritten("a:x");
  }

  lemma OneElement(name: string, attrs: seq<Attr>)
    requires TagName(name) && AllWritable(attrs)
    ensures WellFormed(EmptyElement(Plainly(name, attrs), Nil)) && ChunkOk(Start(Plainly(name, attrs), true))
  {
    assert Chunks(EmptyElement(Plainly(name, attrs), Nil)) == [Start(Plainly(name, attrs), true)];
  }

  lemma ConfusedIsLawful()
    ensures Lawful(CONFUSED, TOP, 0) && !ToldApart(CONFUSED, TOP)
  {
    ConfusingDeclares();
    ConfusingNames();
    var env := TOP + DeclOf(CONFUSING);
    assert Confused(ExpandIn(env, CONFUSING[1].name), ExpandIn(env, CONFUSING[2].name));
  }

  /** A lawful document that is refused: its two names, one in an empty namespace and one in none, are confused. */
  lemma LawfulYetRefused()
    ensures WellFormed(CONFUSED) && Lawful(CONFUSED, TOP, 0) && !Accepts(Render(CONFUSED))
  {
    ConfusingCanBeWritten();
    OneElement("e", CONFUSING);
    ConfusedIsLawful();
    AcceptsTheLawful(CONFUSED);
  }
}
