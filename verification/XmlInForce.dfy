/**
What an attribute's name means where it stands, said of the markup alone: which elements it is in,
which of their declarations is in force, and when a text is accepted, with no stack and no key.
*/
module XmlInForce {
  import opened Optional
  import opened XmlText
  import opened XmlNames
  import opened XmlWritten
  import opened XmlDocuments

  // ---- Which elements are open -------------------------------------------------------------------

  /** How many elements are open before markup `t`. An end tag with none open counts for nothing. */
  function Height(ms: seq<Markup>, t: nat): nat
    requires t <= |ms|
  {
    if t == 0 then 0
    else
      var h := Height(ms, t - 1);
      match ms[t - 1]
      case Aside => h
      case Close => if h == 0 then 0 else h - 1
      case Open(_, selfClosing) => if selfClosing then h else h + 1
  }

  /** The element that opens at `o` is still open before `t`: its end tag has not come. */
  ghost predicate Stands(ms: seq<Markup>, o: nat, t: nat)
    requires t <= |ms|
  {
    o < t && ms[o].Open? && forall u: nat :: o < u <= t ==> Height(ms, u) > Height(ms, o)
  }

  /** The element at `t`, or one it is in. */
  ghost predicate Around(ms: seq<Markup>, o: nat, t: nat)
    requires t < |ms| && ms[t].Open?
  {
    o == t || Stands(ms, o, t)
  }

  // ---- Which declaration is in force --------------------------------------------------------------

  /** The tag's last declaration of `prefix` is its attribute `i`. */
  predicate LastDeclares(attrs: seq<Attr>, prefix: string, i: int) {
    0 <= i < |attrs| && attrs[i].name == "xmlns:" + prefix && forall j :: i < j < |attrs| ==> attrs[j].name != "xmlns:" + prefix
  }

  predicate DeclaresNone(attrs: seq<Attr>, prefix: string) {
    forall i :: 0 <= i < |attrs| ==> attrs[i].name != "xmlns:" + prefix
  }

  /** No element around declares the prefix. */
  ghost predicate Undeclared(ms: seq<Markup>, t: nat, prefix: string)
    requires t < |ms| && ms[t].Open?
  {
    forall o: nat :: Around(ms, o, t) ==> DeclaresNone(ms[o].attrs, prefix)
  }

  /** The innermost element around that declares the prefix is the one at `o`, by its attribute `i`. */
  ghost predicate DeclaredAt(ms: seq<Markup>, t: nat, prefix: string, o: nat, i: int)
    requires t < |ms| && ms[t].Open?
  {
    && Around(ms, o, t) && LastDeclares(ms[o].attrs, prefix, i)
    && forall q: nat :: o < q && Around(ms, q, t) ==> DeclaresNone(ms[q].attrs, prefix)
  }

  /** The prefix stands for the namespace `uri`; "xml" does so by itself. */
  ghost predicate Bound(ms: seq<Markup>, t: nat, prefix: string, uri: string)
    requires t < |ms| && ms[t].Open?
  {
    || (exists o: nat, i :: DeclaredAt(ms, t, prefix, o, i) && ms[o].attrs[i].value == uri)
    || (prefix == "xml" && uri == "http://www.w3.org/XML/1998/namespace" && Undeclared(ms, t, prefix))
  }

  // ---- What a name means ---------------------------------------------------------------------------

  /** The name is `prefix:local`, parted at its first colon. */
  predicate Parted(name: string, prefix: string, local: string) {
    name == prefix + ":" + local && ':' !in prefix
  }

  /** An attribute called `name` in the tag at `t` is named `e`. */
  ghost predicate Named(ms: seq<Markup>, t: nat, name: string, e: ExpandedName)
    requires t < |ms| && ms[t].Open?
  {
    match e
    case Plain(local) => ':' !in name && local == name
    case InNamespace(uri, local) => exists prefix :: Parted(name, prefix, local) && Bound(ms, t, prefix, uri)
    case Unbound(prefix, local) => Parted(name, prefix, local) && prefix != "xml" && Undeclared(ms, t, prefix)
  }

  ghost predicate DeclaresSome(name: string) { name == "xmlns" || exists prefix :: name == "xmlns:" + prefix }

  /** One is in no namespace and the other in an empty one; or one's prefix is bound to nothing, and the other's to that prefix after a `?`. */
  predicate Mistaken(e: ExpandedName, f: ExpandedName) {
    || (e.Plain? && f == InNamespace("", e.local))
    || (e.Unbound? && f == InNamespace("?" + e.prefix, e.local))
  }

  /** Attributes `i` and `j` of the tag at `t` have different names, and none that the scanner mistakes for one. */
  ghost predicate Apart(ms: seq<Markup>, t: nat, i: nat, j: nat)
    requires t < |ms| && ms[t].Open? && i < |ms[t].attrs| && j < |ms[t].attrs|
  {
    forall e, f :: Named(ms, t, ms[t].attrs[i].name, e) && Named(ms, t, ms[t].attrs[j].name, f) ==>
      e != f && !Mistaken(e, f) && !Mistaken(f, e)
  }

  /** Attributes that declare nothing are told apart, and an element with content is in fewer than a hundred. */
  ghost predicate Orderly(ms: seq<Markup>, t: nat)
    requires t < |ms| && ms[t].Open?
  {
    && (forall i: nat, j: nat :: i < j < |ms[t].attrs| && !DeclaresSome(ms[t].attrs[i].name) && !DeclaresSome(ms[t].attrs[j].name) ==> Apart(ms, t, i, j))
    && (ms[t].selfClosing || Height(ms, t) < 100)
  }

  ghost predicate AllOrderly(ms: seq<Markup>) {
    forall t: nat :: t < |ms| && ms[t].Open? ==> Orderly(ms, t)
  }

  // ---- The scanner's terms mean this ---------------------------------------------------------------

  lemma PrefixedIs(name: string, prefix: string)
    ensures At(name, 0, "xmlns:") && name[6..] == prefix <==> name == "xmlns:" + prefix
  {
    if At(name, 0, "xmlns:") { assert name == name[0..6] + name[6..]; }
    if name == "xmlns:" + prefix { assert name[0..6] == "xmlns:" && name[6..] == prefix; }
  }

  lemma DeclarationIs(name: string)
    ensures IsDeclaration(name) <==> DeclaresSome(name)
  {
    if At(name, 0, "xmlns:") { PrefixedIs(name, name[6..]); }
    forall prefix | name == "xmlns:" + prefix ensures At(name, 0, "xmlns:") { PrefixedIs(name, prefix); }
  }

  lemma {:induction false} DeclOfIs(attrs: seq<Attr>, prefix: string)
    ensures prefix in DeclOf(attrs) <==> !DeclaresNone(attrs, prefix)
    ensures forall i :: LastDeclares(attrs, prefix, i) ==> prefix in DeclOf(attrs) && DeclOf(attrs)[prefix] == attrs[i].value
    ensures prefix in DeclOf(attrs) ==> exists i :: LastDeclares(attrs, prefix, i)
    decreases |attrs|
  {
    if attrs != [] {
      var n := |attrs| - 1;
      DeclOfIs(attrs[..n], prefix);
      PrefixedIs(attrs[n].name, prefix);
      if attrs[n].name == "xmlns:" + prefix {
        assert LastDeclares(attrs, prefix, n);
      } else {
        assert forall i :: LastDeclares(attrs, prefix, i) <==> LastDeclares(attrs[..n], prefix, i);
      }
    }
  }

  lemma {:induction false} ScopesStep(scopes: Scopes, ms: seq<Markup>, t: nat)
    requires t < |ms|
    ensures ScopesAt(scopes, ms, t + 1) == After(ScopesAt(scopes, ms, t), ms[t])
    decreases t
  {
    if t > 0 {
      ScopesStep(After(scopes, ms[0]), ms[1..], t - 1);
    } else {
      assert ScopesAt(After(scopes, ms[0]), ms[1..], 0) == After(scopes, ms[0]);
    }
  }

  /** Some element still open before `t` was opened at height `k`. */
  ghost predicate StandsAt(ms: seq<Markup>, t: nat, k: nat)
    requires t <= |ms|
  {
    exists o: nat :: Stands(ms, o, t) && Height(ms, o) == k
  }

  /** Scope `k` is that of the element standing at height `k`. */
  ghost predicate ScopesStand(scopes: Scopes, ms: seq<Markup>, t: nat)
    requires t <= |ms|
  {
    && |scopes| == Height(ms, t)
    && (forall k: nat :: k < |scopes| ==> StandsAt(ms, t, k))
    && (forall o: nat :: Stands(ms, o, t) ==> Height(ms, o) < |scopes| && scopes[Height(ms, o)] == DeclOf(ms[o].attrs))
  }

  lemma {:induction false} ScopesAre(ms: seq<Markup>, t: nat)
    requires t <= |ms|
    ensures ScopesStand(ScopesAt([], ms, t), ms, t)
    decreases t
  {
    if t > 0 {
      ScopesAre(ms, t - 1);
      ScopesStep([], ms, t - 1);
      ScopesNext(ScopesAt([], ms, t - 1), ms, t - 1);
    }
  }

  lemma StandsNext(ms: seq<Markup>, t: nat, o: nat)
    requires t < |ms|
    ensures Stands(ms, o, t + 1) <==> Height(ms, t + 1) > (if o < t then Height(ms, o) else Height(ms, t)) && ((o == t && ms[t].Open?) || Stands(ms, o, t))
  {}

  lemma ScopesNext(scopes: Scopes, ms: seq<Markup>, t: nat)
    requires t < |ms| && ScopesStand(scopes, ms, t)
    ensures ScopesStand(After(scopes, ms[t]), ms, t + 1)
  {
    var after := After(scopes, ms[t]);
    assert |after| == Height(ms, t + 1);
    forall o: nat | Stands(ms, o, t + 1) ensures Height(ms, o) < |after| && after[Height(ms, o)] == DeclOf(ms[o].attrs) {
      StandsNext(ms, t, o);
      hide Stands, DeclOf;
    }
    var u := t + 1;
    forall k: nat | k < |after| ensures StandsAt(ms, u, k) { StandsAtNext(ms, t, k); }
  }

  lemma StandsAtNext(ms: seq<Markup>, t: nat, k: nat)
    requires t < |ms| && k < Height(ms, t + 1) && (k < Height(ms, t) ==> StandsAt(ms, t, k))
    ensures StandsAt(ms, t + 1, k)
  {
    if k == Height(ms, t) {
      StandsNext(ms, t, t);
    } else {
      var o: nat :| Stands(ms, o, t) && Height(ms, o) == k;
      StandsNext(ms, t, o);
    }
  }

  /** What a stack of scopes answers: the innermost that has the prefix, at `k`; for "xml", its own namespace if none has. */
  lemma {:induction false} InnermostIs(scopes: Scopes, prefix: string) returns (k: int)
    ensures -1 <= k < |scopes| && forall l :: k < l < |scopes| ==> prefix !in scopes[l]
    ensures if k < 0 then Innermost(scopes, prefix) == if prefix == "xml" then Some("http://www.w3.org/XML/1998/namespace") else None
      else prefix in scopes[k] && Innermost(scopes, prefix) == Some(scopes[k][prefix])
    decreases |scopes|
  {
    if scopes == [] {
      k := -1;
    } else if prefix in scopes[|scopes| - 1] {
      k := |scopes| - 1;
    } else {
      k := InnermostIs(scopes[..|scopes| - 1], prefix);
    }
  }

  function Inside(ms: seq<Markup>, t: nat): Scopes
    requires t < |ms| && ms[t].Open?
  {
    ScopesAt([], ms, t) + [DeclOf(ms[t].attrs)]
  }

  ghost predicate AroundAt(ms: seq<Markup>, t: nat, k: nat)
    requires t < |ms| && ms[t].Open?
  {
    exists o: nat :: Around(ms, o, t) && Height(ms, o) == k
  }

  /** The stack holds the declarations of the elements around, the outer ones below. */
  lemma InsideIs(ms: seq<Markup>, t: nat)
    requires t < |ms| && ms[t].Open?
    ensures |Inside(ms, t)| == Height(ms, t) + 1
    ensures forall o: nat :: Around(ms, o, t) ==> Height(ms, o) < |Inside(ms, t)| && Inside(ms, t)[Height(ms, o)] == DeclOf(ms[o].attrs)
    ensures forall k: nat :: k < |Inside(ms, t)| ==> AroundAt(ms, t, k)
  {
    var scopes, tag := ScopesAt([], ms, t), DeclOf(ms[t].attrs);
    ScopesAre(ms, t);
    hide Stands, DeclOf, ScopesAt, Height;
    forall o: nat | Around(ms, o, t) ensures Height(ms, o) < |scopes| + 1 && (scopes + [tag])[Height(ms, o)] == DeclOf(ms[o].attrs) {
      if o != t { assert Stands(ms, o, t); }
    }
    forall k: nat | k < |scopes| + 1 ensures AroundAt(ms, t, k) {
      if k < |scopes| { AroundBelow(ms, t, k); } else { assert Around(ms, t, t); }
    }
  }

  lemma AroundBelow(ms: seq<Markup>, t: nat, k: nat)
    requires t < |ms| && ms[t].Open? && StandsAt(ms, t, k)
    ensures AroundAt(ms, t, k)
  {
    var o: nat :| Stands(ms, o, t) && Height(ms, o) == k;
    assert Around(ms, o, t);
  }

  /** Of two elements around, the inner one is higher. */
  lemma InnerIsHigher(ms: seq<Markup>, t: nat, o: nat, q: nat)
    requires t < |ms| && ms[t].Open? && Around(ms, o, t) && Around(ms, q, t)
    ensures o < q <==> Height(ms, o) < Height(ms, q)
  {}

  lemma BoundIs(ms: seq<Markup>, t: nat, prefix: string)
    requires t < |ms| && ms[t].Open?
    ensures forall uri :: Bound(ms, t, prefix, uri) <==> Innermost(Inside(ms, t), prefix) == Some(uri)
    ensures Innermost(Inside(ms, t), prefix).None? <==> prefix != "xml" && Undeclared(ms, t, prefix)
  {
    var scopes := Inside(ms, t);
    InsideIs(ms, t);
    var k := InnermostIs(scopes, prefix);
    forall o: nat | Around(ms, o, t) ensures DeclaresNone(ms[o].attrs, prefix) <==> prefix !in scopes[Height(ms, o)] {
      DeclOfIs(ms[o].attrs, prefix);
    }
    if k < 0 {
      assert Undeclared(ms, t, prefix);
      forall o: nat, i ensures !DeclaredAt(ms, t, prefix, o, i) {
        if Around(ms, o, t) { DeclOfIs(ms[o].attrs, prefix); }
      }
    } else {
      DeclaredIs(ms, t, prefix, scopes, k);
    }
  }

  /** Scope `k` is the innermost to declare the prefix. */
  lemma DeclaredIs(ms: seq<Markup>, t: nat, prefix: string, scopes: Scopes, k: nat)
    requires t < |ms| && ms[t].Open? && scopes == Inside(ms, t)
    requires k < |scopes| && prefix in scopes[k] && forall l :: k < l < |scopes| ==> prefix !in scopes[l]
    ensures !Undeclared(ms, t, prefix)
    ensures exists o: nat, i :: DeclaredAt(ms, t, prefix, o, i)
    ensures forall o: nat, i :: DeclaredAt(ms, t, prefix, o, i) ==> ms[o].attrs[i].value == scopes[k][prefix]
  {
    InsideIs(ms, t);
    assert AroundAt(ms, t, k);
    var o: nat :| Around(ms, o, t) && Height(ms, o) == k;
    DeclOfIs(ms[o].attrs, prefix);
    var i :| LastDeclares(ms[o].attrs, prefix, i);
    forall q: nat | o < q && Around(ms, q, t) ensures DeclaresNone(ms[q].attrs, prefix) {
      InnerIsHigher(ms, t, o, q);
      DeclOfIs(ms[q].attrs, prefix);
    }
    assert DeclaredAt(ms, t, prefix, o, i);
    forall q: nat, j | DeclaredAt(ms, t, prefix, q, j) ensures ms[q].attrs[j].value == scopes[k][prefix] {
      assert q == o;
    }
  }

  lemma PartedIs(name: string, prefix: string, local: string)
    ensures Parted(name, prefix, local) <==> Colon(name) >= 0 && prefix == name[..Colon(name)] && local == name[Colon(name) + 1..]
  {
    var c := Colon(name);
    if c >= 0 { assert name == name[..c] + ":" + name[c + 1..]; }
    if Parted(name, prefix, local) {
      assert name[|prefix|] == ':' && forall i :: 0 <= i < |prefix| ==> name[i] == prefix[i];
      assert c == |prefix| && name[..c] == prefix && name[c + 1..] == local;
    }
  }

  /** A name with a colon is named by what its prefix is bound to. */
  lemma PrefixedName(ms: seq<Markup>, t: nat, name: string, p: string, l: string)
    requires t < |ms| && ms[t].Open? && Parted(name, p, l)
    ensures forall uri, local :: Named(ms, t, name, InNamespace(uri, local)) <==> local == l && Bound(ms, t, p, uri)
    ensures forall prefix, local :: Named(ms, t, name, Unbound(prefix, local)) <==> prefix == p && local == l && p != "xml" && Undeclared(ms, t, p)
    ensures ':' in name
  {
    forall prefix, local ensures Parted(name, prefix, local) <==> prefix == p && local == l {
      PartedIs(name, prefix, local);
      PartedIs(name, p, l);
    }
    assert name[|p|] == ':';
    hide Bound, Undeclared;
  }

  lemma PlainName(ms: seq<Markup>, t: nat, name: string, e: ExpandedName)
    requires t < |ms| && ms[t].Open? && Colon(name) < 0
    ensures Named(ms, t, name, e) <==> e == Plain(name)
  {
    forall prefix, local ensures !Parted(name, prefix, local) { PartedIs(name, prefix, local); }
  }

  /** The name that the scanner resolves an attribute's to is the one it has. */
  lemma NamedExactly(ms: seq<Markup>, t: nat, name: string, e: ExpandedName)
    requires t < |ms| && ms[t].Open?
    ensures Named(ms, t, name, e) <==> Expand(Inside(ms, t), name) == e
  {
    var c := Colon(name);
    if c < 0 {
      PlainName(ms, t, name, e);
    } else {
      var p, l := name[..c], name[c + 1..];
      PartedIs(name, p, l);
      PrefixedName(ms, t, name, p, l);
      BoundIs(ms, t, p);
      PlainNot(ms, t, name, e);
      hide Bound, Undeclared, Innermost, Parted, Named;
    }
  }

  lemma PlainNot(ms: seq<Markup>, t: nat, name: string, e: ExpandedName)
    requires t < |ms| && ms[t].Open? && ':' in name
    ensures Named(ms, t, name, e) ==> !e.Plain?
  {}

  lemma MistakenIs(e: ExpandedName, f: ExpandedName)
    ensures Confused(e, f) <==> Mistaken(e, f) || Mistaken(f, e)
  {}

  lemma ApartIs(ms: seq<Markup>, t: nat, i: nat, j: nat)
    requires t < |ms| && ms[t].Open? && i < |ms[t].attrs| && j < |ms[t].attrs|
    ensures var a, b := Expand(Inside(ms, t), ms[t].attrs[i].name), Expand(Inside(ms, t), ms[t].attrs[j].name);
      Apart(ms, t, i, j) <==> a != b && !Confused(a, b)
  {
    var a, b := Expand(Inside(ms, t), ms[t].attrs[i].name), Expand(Inside(ms, t), ms[t].attrs[j].name);
    forall e ensures Named(ms, t, ms[t].attrs[i].name, e) <==> a == e { NamedExactly(ms, t, ms[t].attrs[i].name, e); }
    forall e ensures Named(ms, t, ms[t].attrs[j].name, e) <==> b == e { NamedExactly(ms, t, ms[t].attrs[j].name, e); }
    hide Named, Expand;
    MistakenIs(a, b);
    assert Named(ms, t, ms[t].attrs[i].name, a) && Named(ms, t, ms[t].attrs[j].name, b);
  }

  /** Attributes `i` and `j` are as the scanner's own terms have it. */
  ghost predicate ToldFrom(scopes: Scopes, attrs: seq<Attr>, i: int, j: int)
    requires 0 <= i < j < |attrs|
  {
    !IsDeclaration(attrs[i].name) && !IsDeclaration(attrs[j].name) ==>
      Expand(scopes, attrs[i].name) != Expand(scopes, attrs[j].name) && !Confused(Expand(scopes, attrs[i].name), Expand(scopes, attrs[j].name))
  }

  lemma ToldFromIs(scopes: Scopes, attrs: seq<Attr>)
    ensures UniqueNames(scopes, attrs) && NoneConfused(scopes, attrs) <==> forall i: nat, j: nat :: i < j < |attrs| ==> ToldFrom(scopes, attrs, i, j)
  {
    if UniqueNames(scopes, attrs) && NoneConfused(scopes, attrs) {
      forall i: nat, j: nat | i < j < |attrs| ensures ToldFrom(scopes, attrs, i, j) {}
    } else {
      hide Expand, Confused, IsDeclaration;
      var i, j :| 0 <= i < j < |attrs| && !IsDeclaration(attrs[i].name) && !IsDeclaration(attrs[j].name)
        && (Expand(scopes, attrs[i].name) == Expand(scopes, attrs[j].name) || Confused(Expand(scopes, attrs[i].name), Expand(scopes, attrs[j].name)));
      assert !ToldFrom(scopes, attrs, i, j);
    }
  }

  lemma ApartAll(ms: seq<Markup>, t: nat, i: nat, j: nat)
    requires t < |ms| && ms[t].Open? && i < j < |ms[t].attrs|
    ensures ToldFrom(Inside(ms, t), ms[t].attrs, i, j) <==> (!DeclaresSome(ms[t].attrs[i].name) && !DeclaresSome(ms[t].attrs[j].name) ==> Apart(ms, t, i, j))
  {
    ApartIs(ms, t, i, j);
    DeclarationIs(ms[t].attrs[i].name);
    DeclarationIs(ms[t].attrs[j].name);
  }

  lemma OrderlyIs(ms: seq<Markup>, t: nat)
    requires t < |ms| && ms[t].Open?
    ensures Orderly(ms, t) <==> InOrder(ScopesAt([], ms, t), ms[t].attrs, ms[t].selfClosing)
  {
    var attrs := ms[t].attrs;
    ToldFromIs(Inside(ms, t), attrs);
    ScopesAre(ms, t);
    hide Apart, ToldFrom, DeclaresSome, UniqueNames, NoneConfused, DeclOf, Stands, ScopesAt;
    forall i: nat, j: nat | i < j < |attrs|
      ensures ToldFrom(Inside(ms, t), attrs, i, j) <==> (!DeclaresSome(attrs[i].name) && !DeclaresSome(attrs[j].name) ==> Apart(ms, t, i, j))
    {
      ApartAll(ms, t, i, j);
    }
  }

  /**
   * Of all texts, the scanner accepts exactly those that can be written as markup in which no element has
   * two attributes of one name, the declarations in force where it stands taken for it, or of two that are
   * mistaken for one, and none with content is inside a hundred others.
   */
  lemma AcceptedExactly(xml: string)
    ensures Accepts(xml) <==> exists cs :: AllOk(cs) && Write(cs) == xml && AllOrderly(MarksOf(cs))
  {
    XmlDocuments.AcceptedExactly(xml);
    forall cs ensures AllInOrder(MarksOf(cs)) <==> AllOrderly(MarksOf(cs)) {
      var ms := MarksOf(cs);
      forall t: nat | t < |ms| && ms[t].Open? ensures Orderly(ms, t) <==> InOrder(ScopesAt([], ms, t), ms[t].attrs, ms[t].selfClosing) {
        OrderlyIs(ms, t);
      }
    }
  }
}
