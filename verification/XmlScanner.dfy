/**
The scanner that stands between a text and the XML parsers: one pass, with a stack of scopes and,
for each prefix, a stack of its bindings, so that a lookup looks at one entry however deep it is.

`work` counts its steps: characters looked at, attributes, bindings pushed and popped, and for each
attribute's key every character of it, as it is put together and hashed. A prefix is paid for with
the name it is cut from; a string's hash is kept with it.
*/
module XmlScanner {
  import opened Optional
  import opened XmlText
  import opened XmlNames

  /** The URIs the open scopes declare for a prefix, outermost first. */
  function Stack(scopes: Scopes, prefix: string): seq<string> {
    if scopes == [] then []
    else
      var last := scopes[|scopes| - 1];
      Stack(scopes[..|scopes| - 1], prefix) + if prefix in last then [last[prefix]] else []
  }

  lemma StackPush(scopes: Scopes, d: Decl, prefix: string)
    ensures Stack(scopes + [d], prefix) == Stack(scopes, prefix) + if prefix in d then [d[prefix]] else []
  {
    assert (scopes + [d])[..|scopes|] == scopes;
  }

  /** The top of a prefix's stack is what innermost-scope lookup finds. */
  lemma {:induction false} TopIsInnermost(scopes: Scopes, prefix: string)
    ensures Innermost(scopes, prefix) ==
      if Stack(scopes, prefix) != [] then Some(Stack(scopes, prefix)[|Stack(scopes, prefix)| - 1])
      else if prefix == "xml" then Some(XML_NAMESPACE) else None
    decreases |scopes|
  {
    if scopes != [] { TopIsInnermost(scopes[..|scopes| - 1], prefix); }
  }

  /** How many declarations the open scopes hold. */
  function Size(scopes: Scopes): nat {
    if scopes == [] then 0 else Size(scopes[..|scopes| - 1]) + |scopes[|scopes| - 1]|
  }

  lemma SizePush(scopes: Scopes, d: Decl)
    ensures Size(scopes + [d]) == Size(scopes) + |d|
  {
    assert (scopes + [d])[..|scopes|] == scopes;
  }

  class Namespaces {
    var scopes: Scopes
    var bindings: map<string, seq<string>>

    constructor ()
      ensures Valid() && scopes == []
    {
      scopes, bindings := [], map[];
    }

    ghost function Bound(prefix: string): seq<string>
      reads this`bindings
    {
      if prefix in bindings then bindings[prefix] else []
    }

    /** Each prefix's bindings are the URIs the open scopes declare for it, outermost first. */
    ghost predicate Valid()
      reads this
    {
      forall prefix :: Bound(prefix) == Stack(scopes, prefix)
    }

    method Resolve(decl: Decl, prefix: string) returns (uri: Option<string>)
      requires Valid()
      ensures uri == Innermost(scopes + [decl], prefix)
    {
      TopIsInnermost(scopes + [decl], prefix);
      StackPush(scopes, decl, prefix);
      if prefix in decl { return Some(decl[prefix]); }
      assert Bound(prefix) == Stack(scopes, prefix);
      if prefix in bindings && |bindings[prefix]| > 0 { return Some(bindings[prefix][|bindings[prefix]| - 1]); }
      return if prefix == "xml" then Some(XML_NAMESPACE) else None;
    }

    method PushBinding(prefix: string, uri: string)
      modifies this`bindings
      ensures Bound(prefix) == old(Bound(prefix)) + [uri]
      ensures forall other :: other != prefix ==> Bound(other) == old(Bound(other))
    {
      bindings := bindings[prefix := if prefix in bindings then bindings[prefix] + [uri] else [uri]];
    }

    method PushBindings(decl: Decl) returns (ghost work: nat)
      modifies this`bindings
      ensures forall prefix :: Bound(prefix) == old(Bound(prefix)) + if prefix in decl then [decl[prefix]] else []
      ensures work == |decl|
    {
      work := 0;
      var left := decl.Keys;
      while left != {}
        invariant left <= decl.Keys && work + |left| == |decl|
        invariant forall prefix :: Bound(prefix) == old(Bound(prefix)) + if prefix in decl && prefix !in left then [decl[prefix]] else []
        decreases |left|
      {
        var prefix :| prefix in left;
        left := left - {prefix};
        PushBinding(prefix, decl[prefix]);
        work := work + 1;
      }
    }

    /** An element opens. */
    method Push(decl: Decl) returns (ghost work: nat)
      requires Valid()
      modifies this
      ensures Valid() && scopes == old(scopes) + [decl]
      ensures work == |decl|
    {
      ghost var before := scopes;
      scopes := scopes + [decl];
      work := PushBindings(decl);
      forall prefix ensures Bound(prefix) == Stack(scopes, prefix) { StackPush(before, decl, prefix); }
    }

    /** An element closes; an end tag with none open is passed over. */
    method Pop() returns (ghost work: nat)
      requires Valid()
      modifies this
      ensures Valid() && scopes == After(old(scopes), Close)
      ensures work + Size(scopes) == Size(old(scopes))
    {
      work := 0;
      if |scopes| == 0 { return; }
      var decl := scopes[|scopes| - 1];
      scopes := scopes[..|scopes| - 1];
      var left := decl.Keys;
      assert forall prefix :: Stack(old(scopes), prefix) == Stack(scopes, prefix) + if prefix in decl then [decl[prefix]] else [];
      while left != {}
        invariant left <= decl.Keys && work + |left| == |decl|
        invariant scopes == old(scopes)[..|old(scopes)| - 1]
        invariant forall prefix :: Bound(prefix) == Stack(scopes, prefix) + if prefix in left then [decl[prefix]] else []
        decreases |left|
      {
        var prefix :| prefix in left;
        left := left - {prefix};
        assert Bound(prefix) == Stack(scopes, prefix) + [decl[prefix]];
        if prefix in bindings && |bindings[prefix]| > 0 {
          bindings := bindings[prefix := bindings[prefix][..|bindings[prefix]| - 1]];
        }
        work := work + 1;
      }
    }
  }

  // ---- One tag ---------------------------------------------------------------------------------

  /** The platform's search; it looks at every character up to the end of what it finds. */
  method Find(xml: string, s: string, from: nat) returns (j: int, ghost work: nat)
    requires from <= |xml|
    ensures j == IndexOf(xml, s, from)
    ensures work == if j < 0 then |xml| - from + 1 else j - from + |s|
  {
    j := IndexOf(xml, s, from);
    work := if j < 0 then |xml| - from + 1 else j - from + |s|;
  }

  method ScanSpace(xml: string, from: nat) returns (k: nat, ghost work: nat)
    requires from <= |xml|
    ensures k == SkipSpace(xml, from) && work == k - from
  {
    k, work := from, 0;
    while k < |xml| && IsSpace(xml[k])
      invariant from <= k <= |xml| && SkipSpace(xml, from) == SkipSpace(xml, k) && work == k - from
    {
      k, work := k + 1, work + 1;
    }
  }

  /** Where a scan that took `work` steps ended: after `p`, or anywhere in the text. */
  function EndOf(xml: string, p: Piece): nat { if p.Refused? then |xml| else p.next }

  method ScanValue(xml: string, from: nat, name: string) returns (p: Piece, ghost work: nat)
    requires from <= |xml|
    ensures p == ValueOf(xml, from, name)
    ensures work <= EndOf(xml, p) - from
  {
    var k;
    k, work := ScanSpace(xml, from);
    if k == |xml| || (xml[k] != '"' && xml[k] != '\'') { return Refused, work; }
    var close: int;
    ghost var w;
    close, w := Find(xml, [xml[k]], k + 1);
    work := work + w;
    if close < 0 { return Refused, work; }
    var value := xml[k + 1..close];
    k := close + 1;
    if k < |xml| && !IsSpace(xml[k]) && xml[k] != '>' && xml[k] != '/' { return Refused, work; }
    p := Attribute(Attr(name, value), k);
  }

  method ScanAttrName(xml: string, from: nat) returns (k: nat)
    requires from <= |xml|
    ensures k == SkipAttrName(xml, from)
  {
    k := from;
    while k < |xml| && !IsSpace(xml[k]) && xml[k] != '=' && xml[k] != '/' && xml[k] != '>' && xml[k] != '<'
      invariant from <= k <= |xml| && SkipAttrName(xml, from) == SkipAttrName(xml, k)
    {
      k := k + 1;
    }
  }

  method ScanAttribute(xml: string, nameStart: nat) returns (p: Piece, ghost work: nat)
    requires nameStart <= |xml|
    ensures p == NextAttribute(xml, nameStart)
    ensures work <= 3 * (EndOf(xml, p) - nameStart)
  {
    var n := |xml|;
    var k := ScanAttrName(xml, nameStart);
    var name := xml[nameStart..k];
    work := 2 * |name|;
    ghost var w;
    k, w := ScanSpace(xml, k);
    work := work + w;
    if !CleanName(name) || k == n || xml[k] != '=' { return Refused, work; }
    p, w := ScanValue(xml, k + 1, name);
    work := work + w;
  }

  function Prepend(attrs: seq<Attr>, r: Option<TagRest>): Option<TagRest> {
    if r.None? then None else Some(TagRest(attrs + r.value.attrs, r.value.selfClosing, r.value.next))
  }

  lemma PrependNone(r: Option<TagRest>)
    ensures Prepend([], r) == r
  {
    if r.Some? { assert [] + r.value.attrs == r.value.attrs; }
  }

  lemma PrependOne(xml: string, from: nat, attrs: seq<Attr>, a: Attr, next: nat)
    requires from <= |xml| && NextPiece(xml, from) == Attribute(a, next)
    ensures Prepend(attrs, Rest(xml, from)) == Prepend(attrs + [a], Rest(xml, next))
  {
    var r := Rest(xml, next);
    if r.Some? { assert attrs + ([a] + r.value.attrs) == attrs + [a] + r.value.attrs; }
  }

  lemma PrependEnd(xml: string, from: nat, attrs: seq<Attr>, selfClosing: bool, next: nat)
    requires from <= |xml| && NextPiece(xml, from) == TagEnd(selfClosing, next)
    ensures Prepend(attrs, Rest(xml, from)) == Some(TagRest(attrs, selfClosing, next))
  {
    assert attrs + [] == attrs;
  }

  method ScanPiece(xml: string, from: nat) returns (p: Piece, ghost work: nat)
    requires from <= |xml|
    ensures p == NextPiece(xml, from)
    ensures work <= 3 * (EndOf(xml, p) - from)
  {
    var k;
    k, work := ScanSpace(xml, from);
    if k >= |xml| { return Refused, work; }
    if xml[k] == '>' { return TagEnd(false, k + 1), work; }
    if At(xml, k, "/>") { return TagEnd(true, k + 2), work; }
    ghost var w;
    p, w := ScanAttribute(xml, k);
    work := work + w;
  }

  /** The attributes of a start tag, up to its ">" or "/>". */
  method ScanAttributes(xml: string, from: nat) returns (r: Option<TagRest>, ghost work: nat)
    requires from <= |xml|
    ensures r == Rest(xml, from)
    ensures work <= 4 * ((if r.None? then |xml| else r.value.next) - from) + 4
  {
    var k, attrs := from, [];
    work := 0;
    PrependNone(Rest(xml, from));
    while true
      invariant from <= k <= |xml| && work <= 4 * (k - from)
      invariant Rest(xml, from) == Prepend(attrs, Rest(xml, k))
      decreases |xml| - k
    {
      ghost var w;
      var p;
      p, w := ScanPiece(xml, k);
      work := work + w + 1;
      match p {
        case Refused => return None, work;
        case TagEnd(selfClosing, next) =>
          PrependEnd(xml, k, attrs, selfClosing, next);
          return Some(TagRest(attrs, selfClosing, next)), work;
        case Attribute(a, next) =>
          PrependOne(xml, k, attrs, a, next);
          attrs, k := attrs + [a], next;
      }
    }
  }

  method ScanStartTag(xml: string, i: nat) returns (r: Option<Found>, ghost work: nat)
    requires i < |xml|
    ensures r == StartTag(xml, i)
    ensures work <= 4 * ((if r.None? then |xml| else r.value.next) - i) + 4
  {
    var n := |xml|;
    var k := i + 1;
    while k < n && !IsSpace(xml[k]) && xml[k] != '/' && xml[k] != '>'
      invariant i + 1 <= k <= n && SkipTagName(xml, i + 1) == SkipTagName(xml, k)
    {
      k := k + 1;
    }
    work := 2 * (k - i);
    if k == i + 1 || !CleanName(xml[i + 1..k]) { return None, work; }
    var rest;
    ghost var w;
    rest, w := ScanAttributes(xml, k);
    work := work + w;
    if rest.None? { return None, work; }
    r := Some(Found(Open(rest.value.attrs, rest.value.selfClosing), rest.value.next));
  }

  // ---- One element's names ---------------------------------------------------------------------

  /** The characters attributes take at the least. */
  function Weight(attrs: seq<Attr>): nat {
    if attrs == [] then 0 else |attrs[0].name| + 3 + Weight(attrs[1..])
  }

  lemma {:induction false} WeightConcat(a: seq<Attr>, b: seq<Attr>)
    ensures Weight(a + b) == Weight(a) + Weight(b)
  {
    if a == [] { assert a + b == b; } else { assert (a + b)[1..] == a[1..] + b; WeightConcat(a[1..], b); }
  }

  lemma {:induction false} RestWeight(xml: string, from: nat)
    requires from <= |xml| && Rest(xml, from).Some?
    ensures from + Weight(Rest(xml, from).value.attrs) <= Rest(xml, from).value.next
    decreases |xml| - from
  {
    var p := NextPiece(xml, from);
    if p.Attribute? {
      RestWeight(xml, p.next);
      assert Rest(xml, from).value.attrs[1..] == Rest(xml, p.next).value.attrs;
    }
  }

  lemma {:induction false} DeclSize(attrs: seq<Attr>)
    ensures 3 * |DeclOf(attrs)| <= Weight(attrs)
    decreases |attrs|
  {
    if attrs != [] {
      var n := |attrs| - 1;
      DeclSize(attrs[..n]);
      assert attrs == attrs[..n] + [attrs[n]];
      WeightConcat(attrs[..n], [attrs[n]]);
      assert Weight([attrs[n]]) >= 3;
    }
  }

  method Declarations(attrs: seq<Attr>) returns (decl: Decl)
    ensures decl == DeclOf(attrs)
  {
    decl := map[];
    for j := 0 to |attrs|
      invariant decl == DeclOf(attrs[..j])
    {
      assert attrs[..j + 1][..j] == attrs[..j];
      if At(attrs[j].name, 0, "xmlns:") { decl := decl[attrs[j].name[6..] := attrs[j].value]; }
    }
    assert attrs[..|attrs|] == attrs;
  }

  /** The URI an attribute's key repeats. */
  function UriLength(scopes: Scopes, name: string): nat {
    if IsDeclaration(name) then 0 else var e := Expand(scopes, name); if e.InNamespace? then |e.uri| else 0
  }

  function UriLengths(scopes: Scopes, attrs: seq<Attr>): nat {
    if attrs == [] then 0 else UriLength(scopes, attrs[0].name) + UriLengths(scopes, attrs[1..])
  }

  lemma {:induction false} UriLengthsConcat(scopes: Scopes, a: seq<Attr>, b: seq<Attr>)
    ensures UriLengths(scopes, a + b) == UriLengths(scopes, a) + UriLengths(scopes, b)
  {
    if a == [] { assert a + b == b; } else { assert (a + b)[1..] == a[1..] + b; UriLengthsConcat(scopes, a[1..], b); }
  }

  lemma CostNext(scopes: Scopes, attrs: seq<Attr>, j: nat)
    requires j < |attrs|
    ensures Weight(attrs[..j + 1]) == Weight(attrs[..j]) + |attrs[j].name| + 3
    ensures UriLengths(scopes, attrs[..j + 1]) == UriLengths(scopes, attrs[..j]) + UriLength(scopes, attrs[j].name)
  {
    assert attrs[..j + 1] == attrs[..j] + [attrs[j]] && [attrs[j]][1..] == [];
    WeightConcat(attrs[..j], [attrs[j]]);
    UriLengthsConcat(scopes, attrs[..j], [attrs[j]]);
  }

  lemma CostPart(scopes: Scopes, attrs: seq<Attr>, j: nat)
    requires j <= |attrs|
    ensures Weight(attrs[..j]) <= Weight(attrs) && UriLengths(scopes, attrs[..j]) <= UriLengths(scopes, attrs)
  {
    assert attrs == attrs[..j] + attrs[j..];
    WeightConcat(attrs[..j], attrs[j..]);
    UriLengthsConcat(scopes, attrs[..j], attrs[j..]);
  }

  lemma KeyLength(scopes: Scopes, name: string)
    requires !IsDeclaration(name)
    ensures UriLength(scopes, name) <= |KeyOf(Expand(scopes, name))| <= UriLength(scopes, name) + |name| + 1
  {}

  /** What the keys of attributes have cost. */
  ghost predicate Costs(scopes: Scopes, attrs: seq<Attr>, work: nat) {
    UriLengths(scopes, attrs) <= work <= 2 * Weight(attrs) + UriLengths(scopes, attrs)
  }

  lemma CostStep(scopes: Scopes, attrs: seq<Attr>, j: nat, work: nat)
    requires j < |attrs| && Costs(scopes, attrs[..j], work)
    ensures var looked := work + |attrs[j].name| + 1; var keyed := looked + |KeyOf(Expand(scopes, attrs[j].name))|;
      && (IsDeclaration(attrs[j].name) ==> Costs(scopes, attrs[..j + 1], looked))
      && (!IsDeclaration(attrs[j].name) ==> Costs(scopes, attrs[..j + 1], keyed) && keyed <= 2 * Weight(attrs) + UriLengths(scopes, attrs))
  {
    CostNext(scopes, attrs, j);
    CostPart(scopes, attrs, j + 1);
    if !IsDeclaration(attrs[j].name) { KeyLength(scopes, attrs[j].name); }
  }

  ghost predicate IsSeen(scopes: Scopes, attrs: seq<Attr>, seen: set<string>) {
    forall key :: key in seen <==> exists i :: 0 <= i < |attrs| && !IsDeclaration(attrs[i].name) && key == KeyOf(Expand(scopes, attrs[i].name))
  }

  method KeyFor(ns: Namespaces, decl: Decl, name: string) returns (key: string)
    requires ns.Valid()
    ensures key == KeyOf(Expand(ns.scopes + [decl], name))
  {
    var c := Colon(name);
    if c < 0 { return NUL + name; }
    var uri := ns.Resolve(decl, name[..c]);
    key := (if uri.Some? then uri.value else "?" + name[..c]) + NUL + name[c + 1..];
  }

  lemma SeenStep(scopes: Scopes, attrs: seq<Attr>, seen: set<string>, j: nat)
    requires j < |attrs| && IsSeen(scopes, attrs[..j], seen) && UniqueKeys(scopes, attrs[..j])
    ensures IsDeclaration(attrs[j].name) ==> IsSeen(scopes, attrs[..j + 1], seen) && UniqueKeys(scopes, attrs[..j + 1])
    ensures var key := KeyOf(Expand(scopes, attrs[j].name));
      !IsDeclaration(attrs[j].name) && key !in seen ==> IsSeen(scopes, attrs[..j + 1], seen + {key}) && UniqueKeys(scopes, attrs[..j + 1])
  {
    var next := attrs[..j + 1];
    assert forall i :: 0 <= i < j ==> next[i] == attrs[..j][i];
  }

  /** The key of one more attribute: not among those seen, or a declaration has none. */
  method TakeKey(ns: Namespaces, decl: Decl, attrs: seq<Attr>, j: nat, seen: set<string>, ghost before: nat)
    returns (after: set<string>, repeated: bool, ghost work: nat)
    requires ns.Valid() && j < |attrs|
    requires var scopes := ns.scopes + [decl]; UniqueKeys(scopes, attrs[..j]) && IsSeen(scopes, attrs[..j], seen) && Costs(scopes, attrs[..j], before)
    ensures var scopes := ns.scopes + [decl];
      if repeated then !UniqueKeys(scopes, attrs) && work <= 2 * Weight(attrs) + UriLengths(scopes, attrs)
      else UniqueKeys(scopes, attrs[..j + 1]) && IsSeen(scopes, attrs[..j + 1], after) && Costs(scopes, attrs[..j + 1], work)
  {
    ghost var scopes := ns.scopes + [decl];
    var name := attrs[j].name;
    CostStep(scopes, attrs, j, before);
    SeenStep(scopes, attrs, seen, j);
    work := before + |name| + 1;
    if name == "xmlns" || At(name, 0, "xmlns:") { return seen, false, work; }
    var key := KeyFor(ns, decl, name);
    work := work + |key|;
    if key in seen {
      Repeated(scopes, attrs, seen, j, key);
      return seen, true, work;
    }
    after, repeated := seen + {key}, false;
  }

  method KeysAreUnique(ns: Namespaces, decl: Decl, attrs: seq<Attr>) returns (unique: bool, ghost work: nat)
    requires ns.Valid()
    ensures unique <==> UniqueKeys(ns.scopes + [decl], attrs)
    ensures work <= 2 * Weight(attrs) + UriLengths(ns.scopes + [decl], attrs)
    ensures unique ==> UriLengths(ns.scopes + [decl], attrs) <= work
  {
    ghost var scopes := ns.scopes + [decl];
    var seen: set<string> := {};
    work := 0;
    assert attrs[..|attrs|] == attrs;
    for j := 0 to |attrs|
      invariant UniqueKeys(scopes, attrs[..j]) && IsSeen(scopes, attrs[..j], seen) && Costs(scopes, attrs[..j], work)
    {
      var repeated;
      seen, repeated, work := TakeKey(ns, decl, attrs, j, seen, work);
      if repeated { return false, work; }
    }
    unique := true;
  }

  lemma Repeated(scopes: Scopes, attrs: seq<Attr>, seen: set<string>, j: nat, key: string)
    requires j < |attrs| && IsSeen(scopes, attrs[..j], seen) && key in seen
    requires !IsDeclaration(attrs[j].name) && key == KeyOf(Expand(scopes, attrs[j].name))
    ensures !UniqueKeys(scopes, attrs)
  {
    var i :| 0 <= i < j && !IsDeclaration(attrs[..j][i].name) && key == KeyOf(Expand(scopes, attrs[..j][i].name));
    assert !IsDeclaration(attrs[i].name) && KeyOf(Expand(scopes, attrs[i].name)) == KeyOf(Expand(scopes, attrs[j].name));
  }

  // ---- The scan --------------------------------------------------------------------------------

  function Reach(xml: string, r: Option<Found>): nat { if r.None? then |xml| else r.value.next }

  method Skip(xml: string, from: nat, close: string, m: Markup) returns (r: Option<Found>, ghost work: nat)
    requires from <= |xml| && |close| > 0
    ensures r == Past(xml, from, close, m)
    ensures work <= Reach(xml, r) - from + 1
  {
    var j;
    j, work := Find(xml, close, from);
    if j < 0 { return None, work; }
    r := Some(Found(m, j + |close|));
  }

  method ScanConstruct(xml: string, i: nat) returns (r: Option<Found>, ghost work: nat)
    requires At(xml, i, "<")
    ensures r == Construct(xml, i)
    ensures work <= 4 * (Reach(xml, r) - i) + 9
  {
    ghost var w;
    if At(xml, i, "<!--") {
      r, w := Skip(xml, i + 4, "-->", Aside);
    } else if At(xml, i, "<![CDATA[") {
      r, w := Skip(xml, i + 9, "]]>", Aside);
    } else if At(xml, i, "<?") {
      r, w := Skip(xml, i + 2, "?>", Aside);
    } else if At(xml, i, "<!") {
      r, w := Skip(xml, i + 2, ">", Aside);
    } else if At(xml, i, "</") {
      r, w := Skip(xml, i + 2, ">", Close);
    } else {
      r, w := ScanStartTag(xml, i);
    }
    work := w + 5;
  }

  /** A start tag: its keys are checked, and its declarations come into force. */
  method Enter(ns: Namespaces, attrs: seq<Attr>, selfClosing: bool) returns (error: Option<string>, ghost work: nat)
    requires ns.Valid()
    modifies ns
    ensures ns.Valid()
    ensures error.None? <==> Fits(old(ns.scopes), Open(attrs, selfClosing))
    ensures error.None? ==> ns.scopes == After(old(ns.scopes), Open(attrs, selfClosing))
    ensures work + (if error.None? then Size(ns.scopes) else 0) <= 4 * Weight(attrs) + Size(old(ns.scopes)) + UriLengths(old(ns.scopes) + [DeclOf(attrs)], attrs)
    ensures error.None? ==> UriLengths(old(ns.scopes) + [DeclOf(attrs)], attrs) <= work
  {
    var decl := Declarations(attrs);
    DeclSize(attrs);
    var unique;
    unique, work := KeysAreUnique(ns, decl, attrs);
    work := work + Weight(attrs);   // the loop over the declarations, a name each
    if !unique { return Some("an attribute duplicates another attribute's expanded name"), work; }
    if !selfClosing {
      if |ns.scopes| >= MAX_XML_DEPTH { return Some("elements nest deeper than 100"), work; }
      SizePush(ns.scopes, decl);
      ghost var w := ns.Push(decl);
      work := work + w;
    }
    error := None;
  }

  lemma AcceptStep(xml: string, pos: nat, scopes: Scopes)
    requires pos <= |xml| && IndexOf(xml, "<", pos) >= 0
    ensures var c := Construct(xml, IndexOf(xml, "<", pos));
      AcceptsFrom(xml, pos, scopes) <==>
        c.Some? && Fits(scopes, c.value.markup) && AcceptsFrom(xml, c.value.next, After(scopes, c.value.markup))
  {
    var c := Construct(xml, IndexOf(xml, "<", pos));
    if c.Some? {
      var r := Markups(xml, c.value.next);
      if r.Some? { assert ([c.value.markup] + r.value)[1..] == r.value; }
    }
  }

  /** The URIs repeated in the keys of all the attributes the scanner comes to. */
  function UriWork(xml: string, pos: nat, scopes: Scopes): nat
    requires pos <= |xml|
    decreases |xml| - pos
  {
    var i := IndexOf(xml, "<", pos);
    if i < 0 then 0
    else
      var c := Construct(xml, i);
      if c.None? then 0
      else
        var m := c.value.markup;
        (if m.Open? then UriLengths(scopes + [DeclOf(m.attrs)], m.attrs) else 0)
        + if Fits(scopes, m) then UriWork(xml, c.value.next, After(scopes, m)) else 0
  }

  lemma OpenWeight(xml: string, i: nat)
    requires At(xml, i, "<") && Construct(xml, i).Some? && Construct(xml, i).value.markup.Open?
    ensures i + Weight(Construct(xml, i).value.markup.attrs) <= Construct(xml, i).value.next
  {
    RestWeight(xml, SkipTagName(xml, i + 1));
  }

  /**
   * Accepts a text exactly when its markup can be read and every element's keys are unique in
   * innermost-scope lookup, a hundred deep at the most. It takes a number of steps linear in the
   * text's length, and besides them one for each character of the URIs its keys repeat, which an
   * accepted text does cost.
   */
  method AssertUniqueExpandedAttributes(xml: string) returns (error: Option<string>, ghost work: nat)
    ensures error.None? <==> Accepts(xml)
    ensures work <= 20 * (|xml| + 1) + UriWork(xml, 0, [])
    ensures error.None? ==> UriWork(xml, 0, []) <= work
  {
    var ns := new Namespaces();
    var pos := 0;
    work := 0;
    while true
      invariant pos <= |xml| && ns.Valid() && fresh(ns)
      invariant AcceptsFrom(xml, pos, ns.scopes) <==> Accepts(xml)
      invariant work + Size(ns.scopes) + UriWork(xml, pos, ns.scopes) <= 20 * pos + UriWork(xml, 0, [])
      invariant UriWork(xml, 0, []) <= work + UriWork(xml, pos, ns.scopes)
      decreases |xml| - pos
    {
      ghost var w;
      var i;
      i, w := Find(xml, "<", pos);
      work := work + w;
      if i < 0 { return None, work; }
      AcceptStep(xml, pos, ns.scopes);
      var c;
      c, w := ScanConstruct(xml, i);
      work := work + w;
      if c.None? { return Some("malformed or unterminated markup"), work; }
      match c.value.markup {
        case Aside =>
        case Close =>
          w := ns.Pop();
          work := work + w;
        case Open(attrs, selfClosing) =>
          OpenWeight(xml, i);
          error, w := Enter(ns, attrs, selfClosing);
          work := work + w;
          if error.Some? { return; }
      }
      pos := c.value.next;
    }
  }
}
