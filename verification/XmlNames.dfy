/**
Expanded names as the scanner has them: which attributes of an element are spelt to name the same
thing, given the namespace declarations of the elements it is in. A namespace is told by the text
between the quotes of its declaration, and declarations are passed over; `XmlReadNames` sets this
against names as they are read (section 6.3 of Namespaces in XML 1.0).
*/
module XmlNames {
  import opened Optional
  import opened XmlText

  const MAX_XML_DEPTH := 100

  const XML_NAMESPACE := "http://www.w3.org/XML/1998/namespace"

  /** The declarations of one element: prefix to URI, as it is spelt. */
  type Decl = map<string, string>

  /** The declarations of the open elements, outermost first. */
  type Scopes = seq<Decl>

  predicate IsDeclaration(name: string) { name == "xmlns" || At(name, 0, "xmlns:") }

  function DeclOf(attrs: seq<Attr>): Decl {
    if attrs == [] then map[]
    else
      var last := attrs[|attrs| - 1];
      var d := DeclOf(attrs[..|attrs| - 1]);
      if At(last.name, 0, "xmlns:") then d[last.name[6..] := last.value] else d
  }

  /** Innermost-scope lookup. */
  function Innermost(scopes: Scopes, prefix: string): Option<string> {
    if scopes == [] then if prefix == "xml" then Some(XML_NAMESPACE) else None
    else if prefix in scopes[|scopes| - 1] then Some(scopes[|scopes| - 1][prefix])
    else Innermost(scopes[..|scopes| - 1], prefix)
  }

  /** An attribute's name, with its prefix resolved. A prefix bound to nothing stands for itself. */
  datatype ExpandedName = Plain(local: string) | InNamespace(uri: string, local: string) | Unbound(prefix: string, local: string)

  function Colon(name: string): (c: int)
    ensures -1 <= c < |name|
    ensures c >= 0 ==> name[c] == ':' && forall i :: 0 <= i < c ==> name[i] != ':'
    ensures c < 0 ==> forall i :: 0 <= i < |name| ==> name[i] != ':'
  {
    if name == "" then -1
    else if name[0] == ':' then 0
    else
      var c := Colon(name[1..]);
      assert forall i :: 0 < i < |name| ==> name[i] == name[1..][i - 1];
      if c < 0 then -1 else c + 1
  }

  function Expand(scopes: Scopes, name: string): ExpandedName {
    var c := Colon(name);
    if c < 0 then Plain(name)
    else
      var uri := Innermost(scopes, name[..c]);
      if uri.Some? then InNamespace(uri.value, name[c + 1..]) else Unbound(name[..c], name[c + 1..])
  }

  /** No two attributes of an element, its declarations aside, are spelt to the same expanded name. */
  ghost predicate UniqueNames(scopes: Scopes, attrs: seq<Attr>) {
    forall i, j :: 0 <= i < j < |attrs| && !IsDeclaration(attrs[i].name) && !IsDeclaration(attrs[j].name) ==>
      Expand(scopes, attrs[i].name) != Expand(scopes, attrs[j].name)
  }

  // ---- Keys ------------------------------------------------------------------------------------

  const NUL := "\0"

  /** The string by which the scanner compares expanded names. */
  function KeyOf(e: ExpandedName): string {
    match e
    case Plain(local) => NUL + local
    case InNamespace(uri, local) => uri + NUL + local
    case Unbound(prefix, local) => "?" + prefix + NUL + local
  }

  predicate CleanAttrs(attrs: seq<Attr>) {
    forall i :: 0 <= i < |attrs| ==> CleanName(attrs[i].name)
  }

  predicate UniqueKeys(scopes: Scopes, attrs: seq<Attr>) {
    forall i, j :: 0 <= i < j < |attrs| && !IsDeclaration(attrs[i].name) && !IsDeclaration(attrs[j].name) ==>
      KeyOf(Expand(scopes, attrs[i].name)) != KeyOf(Expand(scopes, attrs[j].name))
  }

  /** Where the last NUL of `a` + NUL + `x` is, when `x` holds none. */
  lemma LastNul(a: string, x: string, b: string, y: string)
    requires a + NUL + x == b + NUL + y
    requires (forall i :: 0 <= i < |x| ==> x[i] != '\0') && forall i :: 0 <= i < |y| ==> y[i] != '\0'
    ensures a == b && x == y
  {
    var s := a + NUL + x;
    assert s[|a|] == '\0' && s[|b|] == '\0';
    assert forall i :: |a| < i < |s| ==> s[i] == x[i - |a| - 1];
    assert forall i :: |b| < i < |s| ==> s[i] == y[i - |b| - 1];
    assert a == s[..|a|] && b == s[..|b|];
    assert x == s[|a| + 1..] && y == s[|b| + 1..];
  }

  function Front(e: ExpandedName): string {
    match e
    case Plain(_) => ""
    case InNamespace(uri, _) => uri
    case Unbound(prefix, _) => "?" + prefix
  }

  predicate NoNul(s: string) { forall i :: 0 <= i < |s| ==> s[i] != '\0' }

  /**
   * Different names the scanner takes for one: a plain name and the same in an empty namespace; or a
   * name whose prefix is bound to nothing, and the same in the namespace "?" with that prefix.
   */
  predicate Confused(e: ExpandedName, f: ExpandedName) {
    && e.local == f.local
    && (|| (e.Plain? && f.InNamespace? && f.uri == "") || (f.Plain? && e.InNamespace? && e.uri == "")
        || (e.Unbound? && f.InNamespace? && f.uri == "?" + e.prefix) || (f.Unbound? && e.InNamespace? && e.uri == "?" + f.prefix))
  }

  /** Two names have one key exactly if they are one name, or are confused. */
  lemma KeysTellNames(e: ExpandedName, f: ExpandedName)
    requires NoNul(e.local) && NoNul(f.local)
    ensures KeyOf(e) == KeyOf(f) <==> e == f || Confused(e, f)
  {
    assert KeyOf(e) == Front(e) + NUL + e.local && KeyOf(f) == Front(f) + NUL + f.local;
    if KeyOf(e) == KeyOf(f) {
      LastNul(Front(e), e.local, Front(f), f.local);
      if e.Unbound? && f.Unbound? { assert e.prefix == Front(e)[1..] && f.prefix == Front(f)[1..]; }
    }
  }

  /** No two attributes of an element, its declarations aside, have names the scanner confuses. */
  ghost predicate NoneConfused(scopes: Scopes, attrs: seq<Attr>) {
    forall i, j :: 0 <= i < j < |attrs| && !IsDeclaration(attrs[i].name) && !IsDeclaration(attrs[j].name) ==>
      !Confused(Expand(scopes, attrs[i].name), Expand(scopes, attrs[j].name))
  }

  lemma UniqueKeysIff(scopes: Scopes, attrs: seq<Attr>)
    requires CleanAttrs(attrs)
    ensures UniqueKeys(scopes, attrs) <==> UniqueNames(scopes, attrs) && NoneConfused(scopes, attrs)
  {
    forall i, j | 0 <= i < j < |attrs|
      ensures KeyOf(Expand(scopes, attrs[i].name)) == KeyOf(Expand(scopes, attrs[j].name)) <==>
        Expand(scopes, attrs[i].name) == Expand(scopes, attrs[j].name) || Confused(Expand(scopes, attrs[i].name), Expand(scopes, attrs[j].name))
    {
      LocalIsClean(scopes, attrs[i].name);
      LocalIsClean(scopes, attrs[j].name);
      KeysTellNames(Expand(scopes, attrs[i].name), Expand(scopes, attrs[j].name));
    }
  }

  lemma LocalIsClean(scopes: Scopes, name: string)
    requires CleanName(name)
    ensures NoNul(Expand(scopes, name).local)
  {
    assert forall i :: 0 <= i < |name| ==> name[i] as int != 0;
  }

  // ---- Which markup is accepted -----------------------------------------------------------------

  /** The scopes left by the markup before. An end tag that closes nothing is passed over. */
  function After(scopes: Scopes, m: Markup): Scopes {
    match m
    case Aside => scopes
    case Close => if scopes == [] then [] else scopes[..|scopes| - 1]
    case Open(attrs, selfClosing) => if selfClosing then scopes else scopes + [DeclOf(attrs)]
  }

  predicate Fits(scopes: Scopes, m: Markup) {
    m.Open? ==> UniqueKeys(scopes + [DeclOf(m.attrs)], m.attrs) && (m.selfClosing || |scopes| < MAX_XML_DEPTH)
  }

  predicate AllFit(scopes: Scopes, ms: seq<Markup>)
    decreases |ms|
  {
    ms == [] || (Fits(scopes, ms[0]) && AllFit(After(scopes, ms[0]), ms[1..]))
  }

  /** Whether the scanner accepts what is left of `xml`, inside `scopes`. */
  predicate AcceptsFrom(xml: string, pos: nat, scopes: Scopes)
    requires pos <= |xml|
  {
    var ms := Markups(xml, pos);
    ms.Some? && AllFit(scopes, ms.value)
  }

  predicate Accepts(xml: string) { AcceptsFrom(xml, 0, []) }

  // ---- What acceptance means -------------------------------------------------------------------

  /** The declarations in force at markup `t`. */
  function ScopesAt(scopes: Scopes, ms: seq<Markup>, t: nat): Scopes
    requires t <= |ms|
    decreases t
  {
    if t == 0 then scopes else ScopesAt(After(scopes, ms[0]), ms[1..], t - 1)
  }

  lemma {:induction false} FitsAt(scopes: Scopes, ms: seq<Markup>, t: nat)
    requires AllFit(scopes, ms) && t < |ms|
    ensures Fits(ScopesAt(scopes, ms, t), ms[t])
    decreases |ms|
  {
    if t > 0 { FitsAt(After(scopes, ms[0]), ms[1..], t - 1); }
  }

  lemma {:induction false} AllFitIf(scopes: Scopes, ms: seq<Markup>)
    requires forall t :: 0 <= t < |ms| ==> Fits(ScopesAt(scopes, ms, t), ms[t])
    ensures AllFit(scopes, ms)
    decreases |ms|
  {
    if ms != [] {
      var s1, rest := After(scopes, ms[0]), ms[1..];
      assert ScopesAt(scopes, ms, 0) == scopes;
      forall t | 0 <= t < |rest| ensures Fits(ScopesAt(s1, rest, t), rest[t]) {
        assert ScopesAt(scopes, ms, t + 1) == ScopesAt(s1, rest, t) && rest[t] == ms[t + 1];
      }
      AllFitIf(s1, rest);
    }
  }

  /** Names with equal keys in an element that fits would be equal names. */
  lemma UniqueKeysUniqueNames(scopes: Scopes, attrs: seq<Attr>)
    requires UniqueKeys(scopes, attrs)
    ensures UniqueNames(scopes, attrs)
  {}

  /**
   * An accepted text holds no element with two attributes spelt to the same expanded name, in the
   * scopes in force there and its declarations aside, and opens no element inside a hundred others.
   */
  lemma AcceptedIsUnique(xml: string, t: nat)
    requires Accepts(xml) && t < |Markups(xml, 0).value| && Markups(xml, 0).value[t].Open?
    ensures var ms := Markups(xml, 0).value; var scopes := ScopesAt([], ms, t);
      && UniqueNames(scopes + [DeclOf(ms[t].attrs)], ms[t].attrs)
      && (!ms[t].selfClosing ==> |scopes| < MAX_XML_DEPTH)
  {
    var ms := Markups(xml, 0).value;
    FitsAt([], ms, t);
    UniqueKeysUniqueNames(ScopesAt([], ms, t) + [DeclOf(ms[t].attrs)], ms[t].attrs);
  }

  // ---- What can be read has clean names ----------------------------------------------------------

  lemma {:induction false} RestIsClean(xml: string, from: nat)
    requires from <= |xml| && Rest(xml, from).Some?
    ensures CleanAttrs(Rest(xml, from).value.attrs)
    decreases |xml| - from
  {
    var p := NextPiece(xml, from);
    if p.Attribute? { RestIsClean(xml, p.next); }
  }

  lemma ConstructIsClean(xml: string, i: nat)
    requires At(xml, i, "<") && Construct(xml, i).Some? && Construct(xml, i).value.markup.Open?
    ensures CleanAttrs(Construct(xml, i).value.markup.attrs)
  {
    RestIsClean(xml, SkipTagName(xml, i + 1));
  }

  lemma MarkupFirst(xml: string, pos: nat)
    requires pos <= |xml| && Markups(xml, pos).Some? && Markups(xml, pos).value != []
    ensures var i := IndexOf(xml, "<", pos);
      i >= 0 && Construct(xml, i).Some? && Markups(xml, Construct(xml, i).value.next).Some?
      && Markups(xml, pos).value == [Construct(xml, i).value.markup] + Markups(xml, Construct(xml, i).value.next).value
  {}

  lemma {:induction false} MarkupIsClean(xml: string, pos: nat, t: nat)
    requires pos <= |xml| && Markups(xml, pos).Some? && t < |Markups(xml, pos).value| && Markups(xml, pos).value[t].Open?
    ensures CleanAttrs(Markups(xml, pos).value[t].attrs)
    decreases t
  {
    hide Markups, Construct, CleanAttrs, IndexOf, At;
    var i := IndexOf(xml, "<", pos);
    MarkupFirst(xml, pos);
    if t == 0 { ConstructIsClean(xml, i); } else { MarkupIsClean(xml, Construct(xml, i).value.next, t - 1); }
  }

  /** What an element owes: names unique as spelt, none confused, and an open one a place within the limit. */
  ghost predicate InOrder(scopes: Scopes, attrs: seq<Attr>, selfClosing: bool) {
    var inner := scopes + [DeclOf(attrs)];
    UniqueNames(inner, attrs) && NoneConfused(inner, attrs) && (selfClosing || |scopes| < MAX_XML_DEPTH)
  }

  /**
   * A text the scanner can read is accepted if and only if every element's names are unique as spelt,
   * none are confused, and its depth is within the limit. So of texts with such names within the
   * limit it refuses exactly those with confused ones.
   */
  lemma AcceptanceIsExact(xml: string)
    requires Markups(xml, 0).Some?
    ensures var ms := Markups(xml, 0).value;
      Accepts(xml) <==> forall t :: 0 <= t < |ms| && ms[t].Open? ==> InOrder(ScopesAt([], ms, t), ms[t].attrs, ms[t].selfClosing)
  {
    var ms := Markups(xml, 0).value;
    forall t | 0 <= t < |ms| && ms[t].Open?
      ensures Fits(ScopesAt([], ms, t), ms[t]) <==> InOrder(ScopesAt([], ms, t), ms[t].attrs, ms[t].selfClosing)
    {
      MarkupIsClean(xml, 0, t);
      UniqueKeysIff(ScopesAt([], ms, t) + [DeclOf(ms[t].attrs)], ms[t].attrs);
    }
    if Accepts(xml) {
      forall t | 0 <= t < |ms| ensures Fits(ScopesAt([], ms, t), ms[t]) { FitsAt([], ms, t); }
    }
    if forall t :: 0 <= t < |ms| && ms[t].Open? ==> InOrder(ScopesAt([], ms, t), ms[t].attrs, ms[t].selfClosing) {
      AllFitIf([], ms);
    }
  }
}
