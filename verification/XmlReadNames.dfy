/**
Expanded names as a parser reads them (section 6.3 of Namespaces in XML 1.0), declarations included,
against the scanner, which compares namespaces as they are spelt and passes over declarations: exactly
what it lets through, and a check that leaves nothing of it.
*/
module XmlReadNames {
  import opened XmlText
  import opened XmlReading
  import opened XmlNames
  import opened XmlWritten
  import opened XmlDocuments

  /** An attribute's name as read. That of a declaration is its own: no other may be in its namespace. */
  datatype NameRead = Declares(name: string) | Names(expanded: ExpandedName)

  function UriRead(e: ExpandedName): ExpandedName {
    if e.InNamespace? then InNamespace(ReadValue(e.uri), e.local) else e
  }

  /** The name as read of an attribute that, as spelt, is `e`. */
  function NameOf(name: string, e: ExpandedName): NameRead {
    if IsDeclaration(name) then Declares(name) else Names(UriRead(e))
  }

  /** Two names of one local part in one namespace, spelt in two ways. */
  predicate ReadAlike(e: ExpandedName, f: ExpandedName) {
    e.InNamespace? && f.InNamespace? && e.local == f.local && e.uri != f.uri && ReadValue(e.uri) == ReadValue(f.uri)
  }

  predicate NoneRepeated(attrs: seq<Attr>) {
    forall i, j :: 0 <= i < j < |attrs| && IsDeclaration(attrs[i].name) ==> attrs[i].name != attrs[j].name
  }

  lemma SameName(name: string, e: ExpandedName, other: string, f: ExpandedName)
    ensures NameOf(name, e) == NameOf(other, f) <==>
      if IsDeclaration(name) || IsDeclaration(other) then name == other else e == f || ReadAlike(e, f)
  {}

  // ---- The elements of a text ----------------------------------------------------------------------

  ghost predicate UniqueAsRead(scopes: Scopes, attrs: seq<Attr>) {
    forall i, j :: 0 <= i < j < |attrs| ==>
      NameOf(attrs[i].name, Expand(scopes, attrs[i].name)) != NameOf(attrs[j].name, Expand(scopes, attrs[j].name))
  }

  ghost predicate NoneReadAlike(scopes: Scopes, attrs: seq<Attr>) {
    forall i, j :: 0 <= i < j < |attrs| && !IsDeclaration(attrs[i].name) && !IsDeclaration(attrs[j].name) ==>
      !ReadAlike(Expand(scopes, attrs[i].name), Expand(scopes, attrs[j].name))
  }

  /** Names are unique as read exactly if they are as spelt, no declaration is repeated, and no two are read alike. */
  lemma UniqueAsReadIff(scopes: Scopes, attrs: seq<Attr>)
    ensures UniqueAsRead(scopes, attrs) <==> UniqueNames(scopes, attrs) && NoneRepeated(attrs) && NoneReadAlike(scopes, attrs)
  {
    forall i, j | 0 <= i < j < |attrs|
      ensures NameOf(attrs[i].name, Expand(scopes, attrs[i].name)) == NameOf(attrs[j].name, Expand(scopes, attrs[j].name)) <==>
        (if IsDeclaration(attrs[i].name) || IsDeclaration(attrs[j].name) then attrs[i].name == attrs[j].name
         else Expand(scopes, attrs[i].name) == Expand(scopes, attrs[j].name) || ReadAlike(Expand(scopes, attrs[i].name), Expand(scopes, attrs[j].name)))
    {
      SameName(attrs[i].name, Expand(scopes, attrs[i].name), attrs[j].name, Expand(scopes, attrs[j].name));
    }
  }

  /** The scopes in force in the element that opens at markup `t`, its own declarations among them. */
  function Inside(ms: seq<Markup>, t: nat): Scopes
    requires t < |ms| && ms[t].Open?
  {
    ScopesAt([], ms, t) + [DeclOf(ms[t].attrs)]
  }

  /** What section 6.3 asks of the element at markup `t`, and its place within the limit. */
  ghost predicate RightAt(ms: seq<Markup>, t: nat)
    requires t < |ms| && ms[t].Open?
  {
    UniqueAsRead(Inside(ms, t), ms[t].attrs) && (ms[t].selfClosing || |ScopesAt([], ms, t)| < MAX_XML_DEPTH)
  }

  /** What the scanner passes over. */
  ghost predicate SpeltAsReadAt(ms: seq<Markup>, t: nat)
    requires t < |ms| && ms[t].Open?
  {
    NoneRepeated(ms[t].attrs) && NoneReadAlike(Inside(ms, t), ms[t].attrs)
  }

  /** What the scanner mistakes. */
  ghost predicate ToldApartAt(ms: seq<Markup>, t: nat)
    requires t < |ms| && ms[t].Open?
  {
    NoneConfused(Inside(ms, t), ms[t].attrs)
  }

  lemma RightExactly(ms: seq<Markup>, t: nat)
    requires t < |ms| && ms[t].Open?
    ensures InOrder(ScopesAt([], ms, t), ms[t].attrs, ms[t].selfClosing) && SpeltAsReadAt(ms, t) <==> RightAt(ms, t) && ToldApartAt(ms, t)
  {
    UniqueAsReadIff(Inside(ms, t), ms[t].attrs);
  }

  /**
   * Of the texts that can be read, those accepted in which no element repeats a declaration, or has two
   * names spelt apart and read alike, are those whose names as read are unique, within the depth limit,
   * in which no element has two names that the scanner confuses.
   */
  lemma AcceptanceAsRead(xml: string)
    requires Markups(xml, 0).Some?
    ensures var ms := Markups(xml, 0).value;
      (Accepts(xml) && forall t :: 0 <= t < |ms| && ms[t].Open? ==> SpeltAsReadAt(ms, t))
      <==> (forall t :: 0 <= t < |ms| && ms[t].Open? ==> RightAt(ms, t) && ToldApartAt(ms, t))
  {
    var ms := Markups(xml, 0).value;
    AcceptanceIsExact(xml);
    forall t | 0 <= t < |ms| && ms[t].Open?
      ensures InOrder(ScopesAt([], ms, t), ms[t].attrs, ms[t].selfClosing) && SpeltAsReadAt(ms, t) <==> RightAt(ms, t) && ToldApartAt(ms, t)
    {
      RightExactly(ms, t);
    }
  }

  /**
   * Every element of an accepted text has unique names as read if and only if none repeats a declaration
   * or has two names spelt apart and read alike.
   */
  lemma AcceptedIsUniqueAsRead(xml: string)
    requires Accepts(xml)
    ensures var ms := Markups(xml, 0).value;
      (forall t :: 0 <= t < |ms| && ms[t].Open? ==> RightAt(ms, t)) <==> (forall t :: 0 <= t < |ms| && ms[t].Open? ==> SpeltAsReadAt(ms, t))
  {
    var ms := Markups(xml, 0).value;
    forall t | 0 <= t < |ms| && ms[t].Open? ensures RightAt(ms, t) <==> SpeltAsReadAt(ms, t) {
      AcceptedIsUnique(xml, t);
      UniqueAsReadIff(Inside(ms, t), ms[t].attrs);
    }
  }

  // ---- A check beforehand ----------------------------------------------------------------------------

  /** No namespace declared here is spelt in any other way than it is read, and none is declared twice. */
  predicate PlainlyDeclared(attrs: seq<Attr>) {
    NoneRepeated(attrs) && forall i :: 0 <= i < |attrs| && At(attrs[i].name, 0, "xmlns:") ==> IsPlain(attrs[i].value)
  }

  predicate PlainDecl(d: Decl) { forall p :: p in d ==> IsPlain(d[p]) }

  predicate PlainScopes(scopes: Scopes) { forall k :: 0 <= k < |scopes| ==> PlainDecl(scopes[k]) }

  lemma {:induction false} PlainDeclOf(attrs: seq<Attr>)
    requires forall i :: 0 <= i < |attrs| && At(attrs[i].name, 0, "xmlns:") ==> IsPlain(attrs[i].value)
    ensures PlainDecl(DeclOf(attrs))
  {
    if attrs != [] { PlainDeclOf(attrs[..|attrs| - 1]); }
  }

  lemma PlainAfter(scopes: Scopes, m: Markup)
    requires PlainScopes(scopes) && (m.Open? ==> PlainlyDeclared(m.attrs))
    ensures PlainScopes(After(scopes, m))
  {
    if m.Open? { PlainDeclOf(m.attrs); }
  }

  lemma {:induction false} PlainThroughout(scopes: Scopes, ms: seq<Markup>, t: nat)
    requires PlainScopes(scopes) && t <= |ms| && forall k :: 0 <= k < |ms| && ms[k].Open? ==> PlainlyDeclared(ms[k].attrs)
    ensures PlainScopes(ScopesAt(scopes, ms, t))
    decreases t
  {
    if t > 0 {
      PlainAfter(scopes, ms[0]);
      forall k | 0 <= k < |ms[1..]| && ms[1..][k].Open? ensures PlainlyDeclared(ms[1..][k].attrs) { assert ms[1..][k] == ms[k + 1]; }
      PlainThroughout(After(scopes, ms[0]), ms[1..], t - 1);
    }
  }

  lemma {:induction false} PlainInnermost(scopes: Scopes, prefix: string)
    requires PlainScopes(scopes)
    ensures Innermost(scopes, prefix).Some? ==> IsPlain(Innermost(scopes, prefix).value)
    decreases |scopes|
  {
    if scopes != [] { PlainInnermost(scopes[..|scopes| - 1], prefix); }
  }

  lemma PlainName(scopes: Scopes, name: string)
    requires PlainScopes(scopes)
    ensures UriRead(Expand(scopes, name)) == Expand(scopes, name)
  {
    var c := Colon(name);
    if c >= 0 {
      PlainInnermost(scopes, name[..c]);
      var uri := Innermost(scopes, name[..c]);
      if uri.Some? { PlainIsRead(uri.value); }
    }
  }

  lemma PlainNoneAlike(scopes: Scopes, attrs: seq<Attr>)
    requires PlainScopes(scopes)
    ensures NoneReadAlike(scopes, attrs)
  {
    forall i | 0 <= i < |attrs| ensures UriRead(Expand(scopes, attrs[i].name)) == Expand(scopes, attrs[i].name) { PlainName(scopes, attrs[i].name); }
  }

  /**
   * A text each of whose tags declares its namespaces once and plainly, with no "&", tab or line end, is
   * accepted if and only if its names as read are unique, within the depth limit, and none confused.
   */
  lemma PlainIsEnough(xml: string)
    requires Markups(xml, 0).Some?
    requires var ms := Markups(xml, 0).value; forall t :: 0 <= t < |ms| && ms[t].Open? ==> PlainlyDeclared(ms[t].attrs)
    ensures var ms := Markups(xml, 0).value; Accepts(xml) <==> forall t :: 0 <= t < |ms| && ms[t].Open? ==> RightAt(ms, t) && ToldApartAt(ms, t)
  {
    var ms := Markups(xml, 0).value;
    forall t | 0 <= t < |ms| && ms[t].Open? ensures SpeltAsReadAt(ms, t) {
      PlainThroughout([], ms, t);
      PlainDeclOf(ms[t].attrs);
      PlainNoneAlike(Inside(ms, t), ms[t].attrs);
    }
    AcceptanceAsRead(xml);
  }

  // ---- Documents -------------------------------------------------------------------------------------

  ghost predicate UniqueReadIn(env: Env, attrs: seq<Attr>) {
    forall i, j :: 0 <= i < j < |attrs| ==>
      NameOf(attrs[i].name, ExpandIn(env, attrs[i].name)) != NameOf(attrs[j].name, ExpandIn(env, attrs[j].name))
  }

  ghost predicate NoneAlikeIn(env: Env, attrs: seq<Attr>) {
    forall i, j :: 0 <= i < j < |attrs| && !IsDeclaration(attrs[i].name) && !IsDeclaration(attrs[j].name) ==>
      !ReadAlike(ExpandIn(env, attrs[i].name), ExpandIn(env, attrs[j].name))
  }

  /** Every element's names as read are unique, and it is inside fewer than a hundred others. */
  ghost predicate LawfulAsRead(f: Forest, env: Env, depth: nat) {
    match f
    case Nil => true
    case Data(_, next) => LawfulAsRead(next, env, depth)
    case Element(tag, children, _, next) =>
      && UniqueReadIn(env + DeclOf(Attrs(tag)), Attrs(tag)) && depth < MAX_XML_DEPTH
      && LawfulAsRead(children, env + DeclOf(Attrs(tag)), depth + 1) && LawfulAsRead(next, env, depth)
    case EmptyElement(tag, next) => UniqueReadIn(env + DeclOf(Attrs(tag)), Attrs(tag)) && LawfulAsRead(next, env, depth)
  }

  /** No element repeats a declaration, or has two names spelt apart and read alike. */
  ghost predicate SpeltAsRead(f: Forest, env: Env) {
    match f
    case Nil => true
    case Data(_, next) => SpeltAsRead(next, env)
    case Element(tag, children, _, next) =>
      && NoneRepeated(Attrs(tag)) && NoneAlikeIn(env + DeclOf(Attrs(tag)), Attrs(tag))
      && SpeltAsRead(children, env + DeclOf(Attrs(tag))) && SpeltAsRead(next, env)
    case EmptyElement(tag, next) => NoneRepeated(Attrs(tag)) && NoneAlikeIn(env + DeclOf(Attrs(tag)), Attrs(tag)) && SpeltAsRead(next, env)
  }

  lemma UniqueReadInIff(env: Env, attrs: seq<Attr>)
    ensures UniqueReadIn(env, attrs) <==> UniqueIn(env, attrs) && NoneRepeated(attrs) && NoneAlikeIn(env, attrs)
  {
    forall i, j | 0 <= i < j < |attrs|
      ensures NameOf(attrs[i].name, ExpandIn(env, attrs[i].name)) == NameOf(attrs[j].name, ExpandIn(env, attrs[j].name)) <==>
        (if IsDeclaration(attrs[i].name) || IsDeclaration(attrs[j].name) then attrs[i].name == attrs[j].name
         else ExpandIn(env, attrs[i].name) == ExpandIn(env, attrs[j].name) || ReadAlike(ExpandIn(env, attrs[i].name), ExpandIn(env, attrs[j].name)))
    {
      SameName(attrs[i].name, ExpandIn(env, attrs[i].name), attrs[j].name, ExpandIn(env, attrs[j].name));
    }
  }

  lemma {:induction false} LawfulAsReadIff(f: Forest, env: Env, depth: nat)
    ensures LawfulAsRead(f, env, depth) <==> Lawful(f, env, depth) && SpeltAsRead(f, env)
    decreases f
  {
    match f {
      case Nil =>
      case Data(_, next) => LawfulAsReadIff(next, env, depth);
      case EmptyElement(tag, next) =>
        UniqueReadInIff(env + DeclOf(Attrs(tag)), Attrs(tag));
        LawfulAsReadIff(next, env, depth);
      case Element(tag, children, _, next) =>
        UniqueReadInIff(env + DeclOf(Attrs(tag)), Attrs(tag));
        LawfulAsReadIff(children, env + DeclOf(Attrs(tag)), depth + 1);
        LawfulAsReadIff(next, env, depth);
    }
  }

  /** The same of documents, told from the tree alone. */
  lemma AcceptsTheLawfulAsRead(f: Forest)
    requires WellFormed(f)
    ensures Accepts(Render(f)) && SpeltAsRead(f, TOP) <==> LawfulAsRead(f, TOP, 0) && ToldApart(f, TOP)
  {
    AcceptsTheLawful(f);
    LawfulAsReadIff(f, TOP, 0);
  }

  // ---- What is let through -----------------------------------------------------------------------------

  function TwoSpellings(u: string, v: string): seq<Attr> {
    [Attr("xmlns:a", u), Attr("xmlns:b", v), Attr("a:x", ""), Attr("b:x", "")]
  }

  lemma SpellingsDeclare(u: string, v: string)
    ensures DeclOf(TwoSpellings(u, v)) == map["a" := u, "b" := v]
    ensures IsDeclaration("xmlns:a") && IsDeclaration("xmlns:b") && !IsDeclaration("a:x") && !IsDeclaration("b:x")
  {
    var attrs := TwoSpellings(u, v);
    assert attrs[..3] == attrs[..2] + [attrs[2]] && attrs[..3][..2] == attrs[..2];
    assert attrs[..2] == [attrs[0], attrs[1]] && attrs[..2][..1] == [attrs[0]] && [attrs[0]][..0] == [];
    assert "xmlns:a"[6..] == "a" && "xmlns:a"[0..6] == "xmlns:" && "xmlns:b"[6..] == "b" && "xmlns:b"[0..6] == "xmlns:";
    assert DeclOf([attrs[0]]) == map["a" := u];
    assert DeclOf(attrs[..2]) == map["a" := u, "b" := v];
    assert DeclOf(attrs[..3]) == map["a" := u, "b" := v];
  }

  lemma SpellingsNames(u: string, v: string)
    ensures var env := TOP + map["a" := u, "b" := v];
      ExpandIn(env, "a:x") == InNamespace(u, "x") && ExpandIn(env, "b:x") == InNamespace(v, "x")
  {
    assert Colon("a:x") == 1 && "a:x"[..1] == "a" && "a:x"[2..] == "x";
    assert Colon("b:x") == 1 && "b:x"[..1] == "b" && "b:x"[2..] == "x";
  }

  lemma SpellingsCanBeWritten(u: string, v: string)
    requires Without(u, '"') && Without(v, '"')
    ensures WellFormed(EmptyElement(Plainly("e", TwoSpellings(u, v)), Nil))
  {
    assert Letters("e") && Letters("xmlns:a") && Letters("xmlns:b") && Letters("a:x") && Letters("b:x");
    LettersCanBeWritten("e");
    LettersCanBeWritten("xmlns:a");
    LettersCanBeWritten("xmlns:b");
    LettersCanBeWritten("a:x");
    LettersCanBeWritten("b:x");
    OneElement("e", TwoSpellings(u, v));
  }

  lemma SpellingsAreLawful(u: string, v: string)
    requires u != v
    ensures Lawful(EmptyElement(Plainly("e", TwoSpellings(u, v)), Nil), TOP, 0) && ToldApart(EmptyElement(Plainly("e", TwoSpellings(u, v)), Nil), TOP)
  {
    hide DeclOf, ExpandIn;
    SpellingsDeclare(u, v);
    SpellingsNames(u, v);
  }

  lemma SpellingsAreAlike(u: string, v: string)
    requires u != v && ReadValue(u) == ReadValue(v)
    ensures !LawfulAsRead(EmptyElement(Plainly("e", TwoSpellings(u, v)), Nil), TOP, 0)
  {
    hide DeclOf, ExpandIn, ReadValue;
    SpellingsDeclare(u, v);
    SpellingsNames(u, v);
    var attrs := TwoSpellings(u, v);
    var env := TOP + DeclOf(attrs);
    assert NameOf(attrs[2].name, ExpandIn(env, attrs[2].name)) == NameOf(attrs[3].name, ExpandIn(env, attrs[3].name));
    assert !UniqueReadIn(env, attrs);
  }

  /** Two spellings of one namespace: a document with one name twice, accepted. */
  lemma SpeltApartIsAccepted(u: string, v: string)
    requires u != v && ReadValue(u) == ReadValue(v) && Without(u, '"') && Without(v, '"')
    ensures var f := EmptyElement(Plainly("e", TwoSpellings(u, v)), Nil); WellFormed(f) && Accepts(Render(f)) && !LawfulAsRead(f, TOP, 0)
  {
    hide WellFormed, Accepts, Render, ReadValue, Lawful, ToldApart, LawfulAsRead;
    SpellingsCanBeWritten(u, v);
    SpellingsAreLawful(u, v);
    SpellingsAreAlike(u, v);
    AcceptsTheLawful(EmptyElement(Plainly("e", TwoSpellings(u, v)), Nil));
  }

  /** There is one such document for every namespace with a plain name. */
  lemma AnyNamespaceSpeltApart(u: string)
    requires u != "" && IsPlain(u) && XmlChars(u) && Without(u, '"')
    ensures var f := EmptyElement(Plainly("e", TwoSpellings(u, SpellOut(u))), Nil); WellFormed(f) && Accepts(Render(f)) && !LawfulAsRead(f, TOP, 0)
  {
    PlainIsRead(u);
    SpellingIsRead(u);
    SpellingIsWritable(u);
    SpellingDiffers(u);
    SpeltApartIsAccepted(u, SpellOut(u));
  }

  lemma LetterSpelt()
    ensures SpellOut("u") == "&#117;"
  {
    assert Decimal(1) == "1" && Decimal(11) == Decimal(1) + "1" && Decimal(117) == Decimal(11) + "7";
    assert "u"[1..] == "" && SpellOut("") == "";
  }

  /** So by a reference. */
  lemma ReferenceIsAccepted()
    ensures var f := EmptyElement(Plainly("e", TwoSpellings("u", "&#117;")), Nil); Accepts(Render(f)) && !LawfulAsRead(f, TOP, 0)
  {
    hide SpellOut, Accepts, LawfulAsRead, Render;
    LetterSpelt();
    AnyNamespaceSpeltApart("u");
  }

  /** And by a tab for a blank. */
  lemma TabIsAccepted()
    ensures var f := EmptyElement(Plainly("e", TwoSpellings("a\tb", "a b")), Nil); Accepts(Render(f)) && !LawfulAsRead(f, TOP, 0)
  {
    hide ReadValue, Accepts, LawfulAsRead, Render;
    TabIsBlank();
    assert "a\tb"[1] != "a b"[1];
    SpeltApartIsAccepted("a\tb", "a b");
  }

  lemma TabIsBlank()
    ensures ReadValue("a\tb") == "a b" && ReadValue("a b") == "a b"
  {
    PlainIsRead("a b");
    PlainIsRead("b");
    assert "a\tb"[1..] == "\tb" && "\tb"[1..] == "b";
    Differs("a\tb", "\r\n", 0);
    Differs("\tb", "\r\n", 0);
  }

  function DeclaredTwice(u: string, v: string): seq<Attr> { [Attr("xmlns:a", u), Attr("xmlns:a", v)] }

  lemma TwiceCanBeWritten(u: string, v: string)
    requires Without(u, '"') && Without(v, '"')
    ensures WellFormed(EmptyElement(Plainly("e", DeclaredTwice(u, v)), Nil))
  {
    assert Letters("e") && Letters("xmlns:a");
    LettersCanBeWritten("e");
    LettersCanBeWritten("xmlns:a");
    OneElement("e", DeclaredTwice(u, v));
  }

  lemma TwiceIsLawful(u: string, v: string)
    ensures Lawful(EmptyElement(Plainly("e", DeclaredTwice(u, v)), Nil), TOP, 0) && ToldApart(EmptyElement(Plainly("e", DeclaredTwice(u, v)), Nil), TOP)
    ensures !LawfulAsRead(EmptyElement(Plainly("e", DeclaredTwice(u, v)), Nil), TOP, 0)
  {
    hide DeclOf, ExpandIn;
    SpellingsDeclare(u, v);
    var attrs := DeclaredTwice(u, v);
    var env := TOP + DeclOf(attrs);
    assert NameOf(attrs[0].name, ExpandIn(env, attrs[0].name)) == NameOf(attrs[1].name, ExpandIn(env, attrs[1].name));
    assert !UniqueReadIn(env, attrs);
  }

  /** A declaration given twice, accepted. */
  lemma RepeatedIsAccepted(u: string, v: string)
    requires Without(u, '"') && Without(v, '"')
    ensures var f := EmptyElement(Plainly("e", DeclaredTwice(u, v)), Nil); WellFormed(f) && Accepts(Render(f)) && !LawfulAsRead(f, TOP, 0)
  {
    hide WellFormed, Accepts, Render, Lawful, ToldApart, LawfulAsRead;
    TwiceCanBeWritten(u, v);
    TwiceIsLawful(u, v);
    AcceptsTheLawful(EmptyElement(Plainly("e", DeclaredTwice(u, v)), Nil));
  }

  // ---- What is refused --------------------------------------------------------------------------------

  lemma ConfusedIsSpeltAsRead()
    ensures SpeltAsRead(CONFUSED, TOP)
  {
    hide DeclOf, ExpandIn;
    ConfusingDeclares();
    ConfusingNames();
  }

  /** A document whose names as read are unique, refused: one is in an empty namespace and one in none. */
  lemma LawfulAsReadYetRefused()
    ensures WellFormed(CONFUSED) && LawfulAsRead(CONFUSED, TOP, 0) && !Accepts(Render(CONFUSED))
  {
    hide WellFormed, Accepts, Render, Lawful, SpeltAsRead, LawfulAsRead;
    LawfulYetRefused();
    ConfusedIsSpeltAsRead();
    LawfulAsReadIff(CONFUSED, TOP, 0);
  }
}
