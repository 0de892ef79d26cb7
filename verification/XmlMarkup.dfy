/**
Elements written as XML text, in code units, and where their tags are found again by a search.
*/
module XmlMarkup {
  import opened XmlEscape

  datatype Attribute = Attribute(name: string, value: Text)

  /** Elements and texts; each is followed by the next one at its level. */
  datatype Forest =
    | Nil
    | Words(text: Text, next: Forest)
    | Element(name: string, attrs: seq<Attribute>, children: Forest, next: Forest)

  /** The text in the order it is written: every "<" begins a tag, every tag ends with ">". */
  datatype Chunk = Start(name: string, attrs: seq<Attribute>, empty: bool) | End(name: string) | Plain(text: Text)

  function WriteAttrs(attrs: seq<Attribute>): Text {
    if attrs == [] then []
    else U(" ") + U(attrs[0].name) + U("=\"") + EscapeXml(attrs[0].value) + U("\"") + WriteAttrs(attrs[1..])
  }

  function TagRest(attrs: seq<Attribute>, empty: bool): Text { WriteAttrs(attrs) + U(if empty then "/>" else ">") }

  function WriteChunk(c: Chunk): Text {
    match c
    case Start(name, attrs, empty) => [LT] + (U(name) + TagRest(attrs, empty))
    case End(name) => [LT] + (U("/") + U(name) + U(">"))
    case Plain(text) => EscapeXml(text)
  }

  function Concat(ts: seq<Text>): Text { if ts == [] then [] else ts[0] + Concat(ts[1..]) }

  function Texts(cs: seq<Chunk>): (ts: seq<Text>)
    ensures |ts| == |cs| && forall n :: 0 <= n < |cs| ==> ts[n] == WriteChunk(cs[n])
  {
    seq(|cs|, n requires 0 <= n < |cs| => WriteChunk(cs[n]))
  }

  function Write(cs: seq<Chunk>): Text { Concat(Texts(cs)) }

  /** An element without content is written as one empty tag. */
  function Chunks(f: Forest): seq<Chunk> {
    match f
    case Nil => []
    case Words(text, next) => [Plain(text)] + Chunks(next)
    case Element(name, attrs, children, next) =>
      if children.Nil? then [Start(name, attrs, true)] + Chunks(next)
      else [Start(name, attrs, false)] + Chunks(children) + [End(name)] + Chunks(next)
  }

  function Render(f: Forest): Text { Write(Chunks(f)) }

  // ---- Names that can be written -----------------------------------------------------------------

  predicate NameChar(c: char) { 'a' <= c <= 'z' || 'A' <= c <= 'Z' || '0' <= c <= '9' || c == ':' || c == '-' }

  predicate IsName(s: string) { s != "" && forall i :: 0 <= i < |s| ==> NameChar(s[i]) }

  predicate ChunkOk(c: Chunk) {
    match c
    case Start(name, attrs, _) => IsName(name) && forall i :: 0 <= i < |attrs| ==> IsName(attrs[i].name)
    case End(name) => IsName(name)
    case Plain(_) => true
  }

  predicate AllOk(cs: seq<Chunk>) { forall i :: 0 <= i < |cs| ==> ChunkOk(cs[i]) }

  // ---- Searching ---------------------------------------------------------------------------------

  predicate At(s: Text, i: nat, p: Text) { i + |p| <= |s| && forall k :: 0 <= k < |p| ==> s[i + k] == p[k] }

  /** The first place from `from` on where `p` stands, or -1. */
  function IndexOf(s: Text, p: Text, from: nat): (j: int)
    requires from <= |s|
    ensures j == -1 || (from <= j && At(s, j, p))
    ensures forall i :: from <= i && (j == -1 || i < j) ==> !At(s, i, p)
    decreases |s| - from
  {
    if At(s, from, p) then from
    else if from == |s| then -1
    else IndexOf(s, p, from + 1)
  }

  // ---- What a tag's text is ----------------------------------------------------------------------

  lemma NameText(s: string)
    requires IsName(s)
    ensures forall i :: 0 <= i < |s| ==> U(s)[i] == s[i] as int && U(s)[i] != LT && U(s)[i] != GT && U(s)[i] != 0x20 && U(s)[i] != 0x2F
  {}

  lemma EscapedText(t: Text)
    ensures forall i :: 0 <= i < |EscapeXml(t)| ==> EscapeXml(t)[i] != LT && EscapeXml(t)[i] != GT && EscapeXml(t)[i] != QUOT
  {
    EscapedIsClean(t);
  }

  predicate NoAngle(t: Text) { forall i :: 0 <= i < |t| ==> t[i] != LT && t[i] != GT }

  lemma NoAngleConcat(a: Text, b: Text)
    requires NoAngle(a) && NoAngle(b)
    ensures NoAngle(a + b)
  {}

  lemma {:induction false} AttrsText(attrs: seq<Attribute>)
    requires forall i :: 0 <= i < |attrs| ==> IsName(attrs[i].name)
    ensures NoAngle(WriteAttrs(attrs)) && (attrs != [] ==> WriteAttrs(attrs) != [] && WriteAttrs(attrs)[0] == 0x20)
  {
    if attrs != [] {
      NameText(attrs[0].name);
      EscapedText(attrs[0].value);
      AttrsText(attrs[1..]);
      NoAngleConcat(U(" ") + U(attrs[0].name), U("=\""));
      NoAngleConcat(U(" ") + U(attrs[0].name) + U("=\""), EscapeXml(attrs[0].value));
      NoAngleConcat(U(" ") + U(attrs[0].name) + U("=\"") + EscapeXml(attrs[0].value), U("\""));
    }
  }

  /** A tag's text holds one "<", at its beginning, and one ">", at its end. */
  ghost predicate TagShaped(t: Text) {
    && |t| >= 2 && t[0] == LT && t[|t| - 1] == GT && (forall i :: 0 < i < |t| ==> t[i] != LT)
    && (forall i :: 0 <= i < |t| - 1 ==> t[i] != GT)
  }

  lemma ShapedTag(inner: Text)
    requires NoAngle(inner)
    ensures TagShaped([LT] + (inner + U(">")))
  {}

  lemma TagText(c: Chunk)
    requires ChunkOk(c) && !c.Plain?
    ensures TagShaped(WriteChunk(c))
  {
    NameText(c.name);
    if c.Start? {
      AttrsText(c.attrs);
      var inner := U(c.name) + WriteAttrs(c.attrs);
      NoAngleConcat(U(c.name), WriteAttrs(c.attrs));
      if c.empty {
        NoAngleConcat(inner, U("/"));
        ShapedTag(inner + U("/"));
        assert U("/>") == U("/") + U(">");
        assert WriteChunk(c) == [LT] + (inner + U("/") + U(">"));
      } else {
        ShapedTag(inner);
        assert WriteChunk(c) == [LT] + (inner + U(">"));
      }
    } else {
      NoAngleConcat(U("/"), U(c.name));
      ShapedTag(U("/") + U(c.name));
    }
  }

  // ---- Where a tag stands ------------------------------------------------------------------------

  /** A pattern that fits one tag: "<" only at its beginning, ">" only at its end if at all. */
  ghost predicate Pattern(p: Text) {
    |p| > 0 && p[0] == LT && (forall i :: 0 < i < |p| ==> p[i] != LT) && forall i :: 0 <= i < |p| - 1 ==> p[i] != GT
  }

  lemma NotAt(s: Text, i: nat, p: Text, k: nat)
    requires k < |p| && i + k < |s| && s[i + k] != p[k]
    ensures !At(s, i, p)
  {}

  /** Two texts alike from `i` and from `j` on, as far as the pattern goes. */
  lemma SameAt(s: Text, i: nat, t: Text, j: nat, p: Text)
    requires i + |p| <= |s| && j + |p| <= |t| && s[i..i + |p|] == t[j..j + |p|]
    ensures At(s, i, p) <==> At(t, j, p)
  {
    var a, b := s[i..i + |p|], t[j..j + |p|];
    assert forall k :: 0 <= k < |p| ==> a[k] == s[i + k];
    assert forall k :: 0 <= k < |p| ==> b[k] == t[j + k];
  }

  lemma NotInPlain(t: Text, rest: Text, p: Text, i: nat)
    requires NoAngle(t) && Pattern(p) && i < |t|
    ensures !At(t + rest, i, p)
  {
    assert (t + rest)[i] == t[i];
    NotAt(t + rest, i, p, 0);
  }

  lemma InTag(t: Text, rest: Text, p: Text, i: nat)
    requires TagShaped(t) && Pattern(p) && i < |t|
    ensures At(t + rest, i, p) <==> i == 0 && At(t, 0, p)
  {
    var s := t + rest;
    assert forall k :: 0 <= k < |t| ==> s[k] == t[k];
    if i > 0 { NotAt(s, i, p, 0); }
    else if |p| > |t| { NotAt(s, 0, p, |t| - 1); }
    else {
      assert s[0..|p|] == t[0..|p|];
      SameAt(s, 0, t, 0, p);
    }
  }

  lemma PastChunk(t: Text, rest: Text, p: Text, i: nat)
    requires i >= |t|
    ensures At(t + rest, i, p) <==> At(rest, i - |t|, p)
  {
    if i + |p| <= |t + rest| {
      assert (t + rest)[i..i + |p|] == rest[i - |t|..i - |t| + |p|];
      SameAt(t + rest, i, rest, i - |t|, p);
    }
  }

  /** A tag, or text without any. */
  ghost predicate IsPiece(t: Text) { TagShaped(t) || NoAngle(t) }

  ghost predicate ArePieces(ts: seq<Text>) { forall n :: 0 <= n < |ts| ==> IsPiece(ts[n]) }

  /** Within a piece, a pattern stands at the beginning of a tag or nowhere, whatever follows. */
  lemma InPiece(t: Text, rest: Text, p: Text, i: nat)
    requires IsPiece(t) && Pattern(p) && i < |t|
    ensures At(t + rest, i, p) <==> i == 0 && At(t, 0, p)
  {
    if TagShaped(t) { InTag(t, rest, p, i); } else { NotInPlain(t, rest, p, i); }
    if !TagShaped(t) && i == 0 { NotAt(t, 0, p, 0); }
  }

  /** Where piece `n` begins. */
  function Offset(ts: seq<Text>, n: nat): nat
    requires n <= |ts|
    decreases n
  {
    if n == 0 then 0 else |ts[0]| + Offset(ts[1..], n - 1)
  }

  /** The pattern begins piece `n`, which begins at `i`. */
  ghost predicate StandsAs(ts: seq<Text>, n: nat, p: Text, i: nat) { n < |ts| && At(ts[n], 0, p) && i == Offset(ts, n) }

  /** A pattern stands in a written text exactly where it begins a piece. */
  lemma {:induction false} Found(ts: seq<Text>, p: Text, i: nat) returns (n: nat)
    requires ArePieces(ts) && Pattern(p) && At(Concat(ts), i, p)
    ensures StandsAs(ts, n, p, i)
    decreases |ts|
  {
    var rest := Concat(ts[1..]);
    if i < |ts[0]| {
      InPiece(ts[0], rest, p, i);
      n := 0;
    } else {
      PastChunk(ts[0], rest, p, i);
      var m := Found(ts[1..], p, i - |ts[0]|);
      n := m + 1;
    }
  }

  lemma {:induction false} Stands(ts: seq<Text>, p: Text, n: nat, i: nat)
    requires ArePieces(ts) && Pattern(p) && StandsAs(ts, n, p, i)
    ensures At(Concat(ts), i, p)
    decreases |ts|
  {
    var rest := Concat(ts[1..]);
    if n == 0 {
      InPiece(ts[0], rest, p, 0);
    } else {
      Stands(ts[1..], p, n - 1, i - |ts[0]|);
      PastChunk(ts[0], rest, p, i);
    }
  }

  lemma FoundOnlyAt(s: Text, p: Text, at: nat)
    requires |p| > 0 && At(s, at, p) && forall i: nat :: At(s, i, p) ==> i == at
    ensures at < |s| && IndexOf(s, p, 0) == at && IndexOf(s, p, at + 1) == -1
  {
    var first, next := IndexOf(s, p, 0), IndexOf(s, p, at + 1);
    assert first == -1 ==> !At(s, at, p);
  }

  /** If the pattern begins just one piece, a search finds it there, and nothing after. */
  lemma OnlyThere(ts: seq<Text>, p: Text, n: nat)
    requires ArePieces(ts) && Pattern(p) && n < |ts| && At(ts[n], 0, p) && forall m :: 0 <= m < |ts| && At(ts[m], 0, p) ==> m == n
    ensures var at := Offset(ts, n); var s := Concat(ts);
      at < |s| && IndexOf(s, p, 0) == at && IndexOf(s, p, at + 1) == -1
  {
    var s, at := Concat(ts), Offset(ts, n);
    Stands(ts, p, n, at);
    forall i: nat | At(s, i, p) ensures i == at {
      var m := Found(ts, p, i);
    }
    FoundOnlyAt(s, p, at);
  }

  // ---- Chunks as pieces --------------------------------------------------------------------------

  /** The pattern fits chunk `n`. */
  predicate Fits(cs: seq<Chunk>, n: nat, p: Text) { n < |cs| && !cs[n].Plain? && At(WriteChunk(cs[n]), 0, p) }

  lemma ChunkIsPiece(c: Chunk, p: Text)
    requires ChunkOk(c)
    ensures IsPiece(WriteChunk(c)) && (Pattern(p) && c.Plain? ==> !At(WriteChunk(c), 0, p))
  {
    if c.Plain? {
      EscapedText(c.text);
      if Pattern(p) && WriteChunk(c) != [] { NotAt(WriteChunk(c), 0, p, 0); }
    } else {
      TagText(c);
    }
  }

  lemma ChunksArePieces(cs: seq<Chunk>, p: Text)
    requires AllOk(cs) && Pattern(p)
    ensures ArePieces(Texts(cs)) && forall n :: 0 <= n < |cs| ==> (At(Texts(cs)[n], 0, p) <==> Fits(cs, n, p))
  {
    forall n | 0 <= n < |cs| ensures IsPiece(Texts(cs)[n]) && (At(Texts(cs)[n], 0, p) <==> Fits(cs, n, p)) {
      ChunkIsPiece(cs[n], p);
    }
  }

  lemma {:induction false} OffsetIs(a: seq<Text>, b: seq<Text>)
    ensures Offset(a + b, |a|) == |Concat(a)|
    decreases |a|
  {
    if a != [] {
      assert (a + b)[1..] == a[1..] + b;
      OffsetIs(a[1..], b);
    }
  }

  lemma {:induction false} ConcatConcat(a: seq<Text>, b: seq<Text>)
    ensures Concat(a + b) == Concat(a) + Concat(b)
    decreases |a|
  {
    if a == [] {
      assert a + b == b;
    } else {
      assert (a + b)[1..] == a[1..] + b;
      ConcatConcat(a[1..], b);
    }
  }

  lemma WriteConcat(a: seq<Chunk>, b: seq<Chunk>)
    ensures Write(a + b) == Write(a) + Write(b)
  {
    hide Concat, WriteChunk;
    assert Texts(a + b) == Texts(a) + Texts(b);
    ConcatConcat(Texts(a), Texts(b));
  }

  lemma WriteOne(c: Chunk)
    ensures Write([c]) == WriteChunk(c)
  {
    assert Texts([c]) == [WriteChunk(c)];
    assert Concat([WriteChunk(c)]) == WriteChunk(c) + Concat([]);
  }

  /** A pattern that fits only the chunk after `a` is found at the end of `a`'s text. */
  lemma FoundOnce(cs: seq<Chunk>, a: seq<Chunk>, b: seq<Chunk>, p: Text)
    requires cs == a + b && AllOk(cs) && Pattern(p) && Fits(cs, |a|, p) && forall k :: 0 <= k < |cs| && Fits(cs, k, p) ==> k == |a|
    ensures var at := |Write(a)|; var xml := Write(cs);
      at < |xml| && IndexOf(xml, p, 0) == at && IndexOf(xml, p, at + 1) == -1
  {
    hide Concat, IndexOf, At, WriteChunk;
    ChunksArePieces(cs, p);
    assert Texts(cs) == Texts(a) + Texts(b);
    FoundAfter(Texts(cs), Texts(a), Texts(b), p);
  }

  lemma FoundAfter(ts: seq<Text>, a: seq<Text>, b: seq<Text>, p: Text)
    requires ts == a + b && ArePieces(ts) && Pattern(p) && |a| < |ts| && At(ts[|a|], 0, p)
    requires forall m :: 0 <= m < |ts| && At(ts[m], 0, p) ==> m == |a|
    ensures var at := |Concat(a)|; var s := Concat(ts);
      at < |s| && IndexOf(s, p, 0) == at && IndexOf(s, p, at + 1) == -1
  {
    OnlyThere(ts, p, |a|);
    OffsetIs(a, b);
  }
}
