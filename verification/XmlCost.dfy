/**
What the scanner's keys cost: a key repeats the URI its prefix is bound to, so a long URI that is used
often is paid for every time. Documents in which that outgrows any multiple of their length.
*/
module XmlCost {
  import opened Optional
  import opened XmlText
  import opened XmlNames
  import opened XmlScanner
  import opened XmlWritten
  import opened XmlDocuments

  // ---- The cost of what is read ------------------------------------------------------------------

  function MarksWork(scopes: Scopes, ms: seq<Markup>): nat
    decreases |ms|
  {
    if ms == [] then 0
    else (if ms[0].Open? then UriLengths(scopes + [DeclOf(ms[0].attrs)], ms[0].attrs) else 0) + MarksWork(After(scopes, ms[0]), ms[1..])
  }

  lemma {:induction false} WorkOfMarks(xml: string, pos: nat, scopes: Scopes)
    requires pos <= |xml| && Markups(xml, pos).Some? && AllFit(scopes, Markups(xml, pos).value)
    ensures UriWork(xml, pos, scopes) == MarksWork(scopes, Markups(xml, pos).value)
    decreases |xml| - pos
  {
    var ms := Markups(xml, pos).value;
    if ms != [] {
      MarkupFirst(xml, pos);
      var c := Construct(xml, IndexOf(xml, "<", pos)).value;
      assert ms[1..] == Markups(xml, c.next).value;
      WorkOfMarks(xml, c.next, After(scopes, c.markup));
    }
  }

  // ---- One long URI, used in every element ---------------------------------------------------------

  const USES := [Attr("a:b", "")]

  function Uses(n: nat): Forest { if n == 0 then Nil else EmptyElement(Plainly("f", USES), Uses(n - 1)) }

  function Binds(uri: string): seq<Attr> { [Attr("xmlns:a", uri)] }

  /** An element that binds a prefix to `uri`, around `n` elements that use it. */
  function Document(uri: string, n: nat): Forest { Element(Plainly("e", Binds(uri)), Uses(n), "e", Nil) }

  lemma {:induction false} UsesAre(n: nat)
    ensures NoTags(Uses(n)) && AllOk(Chunks(Uses(n))) && |Write(Chunks(Uses(n)))| == 11 * n
    decreases n
  {
    if n > 0 {
      UsesAre(n - 1);
      UsesCanBeWritten();
      var chunk := Start(Plainly("f", USES), true);
      assert Chunks(Uses(n)) == [chunk] + Chunks(Uses(n - 1));
      assert Write(Chunks(Uses(n))) == TextOf(chunk) + Write(Chunks(Uses(n - 1)));
    }
  }

  lemma OneAttr(a: Attr)
    ensures |AttrsText(Plainly("e", [a]).attrs)| == |a.name| + |a.value| + 4
    ensures AttrsText(Plainly("f", [a]).attrs) == AttrsText(Plainly("e", [a]).attrs)
  {
    var spelt := Plainly("e", [a]).attrs;
    assert spelt == [InQuotes(a)] && spelt[1..] == [];
    assert Plainly("f", [a]).attrs == spelt;
  }

  lemma UsesCanBeWritten()
    ensures ChunkOk(Start(Plainly("f", USES), true)) && |TextOf(Start(Plainly("f", USES), true))| == 11
  {
    assert Letters("f") && Letters("a:b");
    LettersCanBeWritten("f");
    LettersCanBeWritten("a:b");
    OneElement("f", USES);
    OneAttr(USES[0]);
  }

  lemma BindsCanBeWritten(uri: string)
    requires Without(uri, '"')
    ensures ChunkOk(Start(Plainly("e", Binds(uri)), false)) && ChunkOk(End("e"))
    ensures |TextOf(Start(Plainly("e", Binds(uri)), false))| == 14 + |uri| && |TextOf(End("e"))| == 4
  {
    assert Letters("e") && Letters("xmlns:a");
    LettersCanBeWritten("e");
    LettersCanBeWritten("xmlns:a");
    OneElement("e", Binds(uri));
    OneAttr(Binds(uri)[0]);
  }

  lemma {:induction false} WriteJoins(a: seq<Chunk>, b: seq<Chunk>)
    ensures Write(a + b) == Write(a) + Write(b)
    decreases |a|
  {
    if a == [] {
      assert a + b == b;
    } else {
      assert (a + b)[1..] == a[1..] + b;
      WriteJoins(a[1..], b);
    }
  }

  lemma DocumentIs(uri: string, n: nat)
    requires Without(uri, '"')
    ensures WellFormed(Document(uri, n)) && |Render(Document(uri, n))| == |uri| + 11 * n + 18
  {
    UsesAre(n);
    BindsCanBeWritten(uri);
    var start, end := [Start(Plainly("e", Binds(uri)), false)], [End("e")];
    assert Chunks(Document(uri, n)) == start + Chunks(Uses(n)) + end;
    WriteJoins(start + Chunks(Uses(n)), end);
    WriteJoins(start, Chunks(Uses(n)));
    assert Write(start) == TextOf(start[0]) && Write(end) == TextOf(end[0]);
  }

  lemma {:induction false} UsesLawful(env: Env, n: nat)
    ensures Lawful(Uses(n), env, 1) && ToldApart(Uses(n), env)
    decreases n
  {
    if n > 0 { UsesLawful(env, n - 1); }
  }

  // ---- Its cost ----------------------------------------------------------------------------------

  lemma UseCosts(uri: string)
    ensures UriLengths([map["a" := uri]] + [DeclOf(USES)], USES) == |uri|
  {
    assert !IsDeclaration("a:b") && Colon("a:b") == 1 && "a:b"[..1] == "a";
    assert USES[..0] == [] && USES[1..] == [];
    var outer := [map["a" := uri]];
    assert (outer + [DeclOf(USES)])[..1] == outer;
    assert Innermost(outer, "a") == Some(uri);
  }

  lemma {:induction false} UsesCost(uri: string, n: nat)
    ensures MarksWork([map["a" := uri]], Marks(Uses(n)) + [Close]) == n * |uri|
    decreases n
  {
    var scopes := [map["a" := uri]];
    if n == 0 {
      assert Marks(Uses(n)) + [Close] == [Close] && [Close][1..] == [];
    } else {
      UsesCost(uri, n - 1);
      UseCosts(uri);
      assert Marks(Uses(n)) + [Close] == [Open(USES, true)] + (Marks(Uses(n - 1)) + [Close]);
      assert n * |uri| == |uri| + (n - 1) * |uri|;
    }
  }

  lemma BindsDeclares(uri: string)
    ensures DeclOf(Binds(uri)) == map["a" := uri] && UriLengths([] + [DeclOf(Binds(uri))], Binds(uri)) == 0
  {
    assert Binds(uri)[..0] == [] && Binds(uri)[1..] == [];
    assert "xmlns:a"[0..6] == "xmlns:" && "xmlns:a"[6..] == "a";
    assert IsDeclaration("xmlns:a");
  }

  lemma DocumentLawful(uri: string, n: nat)
    ensures Lawful(Document(uri, n), TOP, 0) && ToldApart(Document(uri, n), TOP)
  {
    UsesLawful(TOP + DeclOf(Binds(uri)), n);
  }

  /** Such a document is accepted, and costs its URI once for each use. */
  lemma DocumentCosts(uri: string, n: nat)
    requires Without(uri, '"')
    ensures var xml := Render(Document(uri, n)); Accepts(xml) && UriWork(xml, 0, []) == n * |uri|
  {
    var f := Document(uri, n);
    DocumentIs(uri, n);
    DocumentLawful(uri, n);
    AcceptsTheLawful(f);
    DocumentReads(f);
    MarksCost(uri, n);
    WorkOfMarks(Render(f), 0, []);
  }

  lemma MarksCost(uri: string, n: nat)
    ensures MarksWork([], Marks(Document(uri, n))) == n * |uri|
  {
    BindsDeclares(uri);
    UsesCost(uri, n);
    assert Marks(Document(uri, n)) == [Open(Binds(uri), false)] + (Marks(Uses(n)) + [Close]);
    assert [] + [DeclOf(Binds(uri))] == [map["a" := uri]];
  }

  function Repeat(c: char, n: nat): (s: string)
    ensures |s| == n && forall i :: 0 <= i < n ==> s[i] == c
  {
    seq(n, i => c)
  }

  lemma Outgrows(c: nat, n: nat)
    requires n == 31 * c + 1
    ensures n * n > c * (12 * n + 19)
  {
    assert n * n == 31 * c * n + n;
    assert 31 * (c * n) == 31 * c * n && c * (12 * n + 19) == 12 * (c * n) + 19 * c;
    assert c * n >= c * 1;
  }

  /** No multiple of a text's length bounds the scanner's steps: some accepted text takes more. */
  lemma NotLinear(c: nat) returns (xml: string)
    ensures Accepts(xml) && UriWork(xml, 0, []) > c * (|xml| + 1)
  {
    var n := 31 * c + 1;
    xml := CostsSquare(Repeat('u', n), n);
    Outgrows(c, n);
    assert |xml| + 1 == 12 * n + 19;
  }

  lemma CostsSquare(uri: string, n: nat) returns (xml: string)
    requires Without(uri, '"') && |uri| == n
    ensures Accepts(xml) && UriWork(xml, 0, []) == n * n && |xml| == 12 * n + 18
  {
    xml := Render(Document(uri, n));
    DocumentIs(uri, n);
    DocumentCosts(uri, n);
  }
}
