/**
What the redirect codec promises: the builder's query is parsed back, the signed octets are what was
sent under plain names, and neither the order of parameters nor an unknown one changes anything.
*/
module RedirectLaws {
  import opened Optional
  import opened Uri
  import opened RedirectBinding

  // ---- Order and unknown parameters --------------------------------------------------------------

  lemma {:induction false} MatchingCounts(ss: seq<Segment>, p: Param, x: Segment)
    ensures multiset(Matching(ss, p))[x] == if x.key == Known(p) then multiset(ss)[x] else 0
    decreases |ss|
  {
    if ss != [] {
      var last := ss[|ss| - 1];
      MatchingCounts(ss[..|ss| - 1], p, x);
      assert ss == ss[..|ss| - 1] + [last];
    }
  }

  lemma MatchingPermutes(ss: seq<Segment>, ts: seq<Segment>, p: Param)
    requires multiset(ss) == multiset(ts)
    ensures multiset(Matching(ss, p)) == multiset(Matching(ts, p))
  {
    forall x: Segment ensures multiset(Matching(ss, p))[x] == multiset(Matching(ts, p))[x] {
      MatchingCounts(ss, p, x);
      MatchingCounts(ts, p, x);
    }
  }

  lemma SameIfShort(a: seq<Segment>, b: seq<Segment>)
    requires multiset(a) == multiset(b)
    ensures |a| == |b| && (|a| <= 1 ==> a == b)
  {
    assert |multiset(a)| == |a| && |multiset(b)| == |b|;
    if |a| == 1 { assert a[0] in multiset(b); }
  }

  /** The two agree on every parameter: what is sent once is the same, and nothing else counts. */
  ghost predicate Alike(ss: seq<Segment>, ts: seq<Segment>) {
    && (Readable(ss) <==> Readable(ts))
    && (forall p: Param :: |Matching(ss, p)| == |Matching(ts, p)| && (|Matching(ss, p)| <= 1 ==> Matching(ss, p) == Matching(ts, p)))
    && (forall p: Param :: PlainlyNamed(ss, p) <==> PlainlyNamed(ts, p))
  }

  lemma AlikeSingle(ss: seq<Segment>, ts: seq<Segment>)
    requires Alike(ss, ts)
    ensures AllSingle(ss) <==> AllSingle(ts)
  {
    forall p: Param ensures Single(ss, p) <==> Single(ts, p) {
      assert |Matching(ss, p)| == |Matching(ts, p)|;
    }
  }

  lemma AlikeParse(ss: seq<Segment>, ts: seq<Segment>, message: Param)
    requires Alike(ss, ts)
    ensures ParseSegments(ss, message) == ParseSegments(ts, message)
  {
    AlikeSingle(ss, ts);
    forall p: Param ensures Sent(ss, p) <==> Sent(ts, p) { assert |Matching(ss, p)| == |Matching(ts, p)|; }
    if AllSingle(ss) {
      forall p: Param ensures Matching(ss, p) == Matching(ts, p) { assert Single(ss, p); }
    }
  }

  /** The order of a query's parameters is of no account. */
  lemma OrderIsOfNoAccount(ss: seq<Segment>, ts: seq<Segment>, message: Param)
    requires multiset(ss) == multiset(ts)
    ensures ParseSegments(ss, message) == ParseSegments(ts, message)
  {
    SameElements(ss, ts);
    SameElements(ts, ss);
    forall p: Param
      ensures |Matching(ss, p)| == |Matching(ts, p)| && (|Matching(ss, p)| <= 1 ==> Matching(ss, p) == Matching(ts, p))
    {
      MatchingPermutes(ss, ts, p);
      SameIfShort(Matching(ss, p), Matching(ts, p));
    }
    forall p: Param ensures PlainlyNamed(ss, p) <==> PlainlyNamed(ts, p) {
      assert |Matching(ss, p)| == |Matching(ts, p)|;
      assert HasName(ss, Spelling(p)) <==> HasName(ts, Spelling(p));
    }
    AlikeParse(ss, ts, message);
  }

  lemma Removed(b: seq<string>, j: nat)
    requires j < |b|
    ensures multiset(b[..j] + b[j + 1..]) == multiset(b) - multiset{b[j]}
  {
    assert b == b[..j] + [b[j]] + b[j + 1..];
  }

  /** A permutation of a list that begins with `a[0]` holds it somewhere. */
  lemma FindFirst(a: seq<string>, b: seq<string>) returns (j: nat)
    requires a != [] && multiset(a) == multiset(b)
    ensures j < |b| && b[j] == a[0] && multiset(a[1..]) == multiset(b[..j] + b[j + 1..])
  {
    assert a[0] in multiset(b);
    j :| 0 <= j < |b| && b[j] == a[0];
    Removed(a, 0);
    assert a[..0] + a[1..] == a[1..];
    Removed(b, j);
  }

  lemma SegmentsFirst(a: seq<string>)
    requires a != []
    ensures multiset(SegmentsOf(a)) == multiset{SegmentOf(a[0])} + multiset(SegmentsOf(a[1..]))
  {
    assert SegmentsOf(a) == [SegmentOf(a[0])] + SegmentsOf(a[1..]);
  }

  lemma {:induction false} SegmentsPermute(a: seq<string>, b: seq<string>)
    requires multiset(a) == multiset(b)
    ensures multiset(SegmentsOf(a)) == multiset(SegmentsOf(b))
    decreases |a|
  {
    if a == [] {
      assert |multiset(b)| == |b|;
    } else {
      var j := FindFirst(a, b);
      SegmentsPermute(a[1..], b[..j] + b[j + 1..]);
      SegmentsFirst(a);
      SegmentsWithout(b, j);
    }
  }

  lemma SegmentsWithout(b: seq<string>, j: nat)
    requires j < |b|
    ensures multiset(SegmentsOf(b)) == multiset{SegmentOf(b[j])} + multiset(SegmentsOf(b[..j] + b[j + 1..]))
  {
    assert SegmentsOf(b) == SegmentsOf(b[..j]) + [SegmentOf(b[j])] + SegmentsOf(b[j + 1..]);
    assert SegmentsOf(b[..j] + b[j + 1..]) == SegmentsOf(b[..j]) + SegmentsOf(b[j + 1..]);
  }

  /** Two queries made of the same segments, in whatever order, are parsed alike. */
  lemma QueryOrderIsOfNoAccount(q: string, r: string, message: Param)
    requires multiset(Split(q)) == multiset(Split(r))
    ensures Parse(q, message) == Parse(r, message)
  {
    SegmentsPermute(Split(q), Split(r));
    OrderIsOfNoAccount(SegmentsOf(Split(q)), SegmentsOf(Split(r)), message);
  }

  lemma SameElements(ss: seq<Segment>, ts: seq<Segment>)
    requires multiset(ss) == multiset(ts)
    ensures Readable(ss) ==> Readable(ts)
    ensures forall name :: HasName(ss, name) ==> HasName(ts, name)
  {
    forall i | 0 <= i < |ts| ensures exists j :: 0 <= j < |ss| && ss[j] == ts[i] { assert ts[i] in multiset(ts); }
    forall i | 0 <= i < |ss| ensures exists j :: 0 <= j < |ts| && ts[j] == ss[i] { assert ss[i] in multiset(ss); }
  }

  /** A parameter that is none of SAML's, whose name can be decoded, changes nothing wherever it stands. */
  lemma UnknownIsIgnored(before: seq<Segment>, s: Segment, after: seq<Segment>, message: Param)
    requires (s.key.Other? || s.key.Empty?) && ParamOf(s.rawName).None?
    ensures ParseSegments(before + [s] + after, message) == ParseSegments(before + after, message)
  {
    var ss, ts := before + [s] + after, before + after;
    forall p: Param ensures Matching(ss, p) == Matching(ts, p) {
      MatchingConcat(before + [s], after, p);
      MatchingNext(before, s, p);
      MatchingConcat(before, after, p);
    }
    forall p: Param ensures PlainlyNamed(ss, p) <==> PlainlyNamed(ts, p) {
      SpellingIsInjective(p);
      Names(before, s, after, Spelling(p));
    }
    assert Readable(ss) <==> Readable(ts) by { Reads(before, s, after); }
    AlikeParse(ss, ts, message);
  }

  lemma Reads(before: seq<Segment>, s: Segment, after: seq<Segment>)
    requires !s.key.Malformed?
    ensures Readable(before + [s] + after) <==> Readable(before + after)
  {
    var ss, ts := before + [s] + after, before + after;
    var n := |before|;
    forall i | 0 <= i < |ts| ensures ts[i] == ss[if i < n then i else i + 1] {}
    if Readable(ss) { forall i | 0 <= i < |ts| ensures !ts[i].key.Malformed? { assert !ss[if i < n then i else i + 1].key.Malformed?; } }
    forall i | 0 <= i < |ss| && i != n ensures ss[i] == ts[if i < n then i else i - 1] {}
    if Readable(ts) { forall i | 0 <= i < |ss| && i != n ensures !ss[i].key.Malformed? { assert !ts[if i < n then i else i - 1].key.Malformed?; } }
  }

  lemma Names(before: seq<Segment>, s: Segment, after: seq<Segment>, name: string)
    requires name != s.rawName
    ensures HasName(before + [s] + after, name) <==> HasName(before + after, name)
  {
    var ss, ts := before + [s] + after, before + after;
    var n := |before|;
    if i :| 0 <= i < |ss| && ss[i].rawName == name { assert ts[if i < n then i else i - 1] == ss[i]; }
    if i :| 0 <= i < |ts| && ts[i].rawName == name { assert ss[if i < n then i else i + 1] == ts[i]; }
  }

  // ---- The signed octets -------------------------------------------------------------------------

  /** A segment of the query as it stands, or one without "=" whose name alone was sent. */
  ghost predicate Literal(parts: seq<string>, p: Param, raw: string) {
    exists i :: 0 <= i < |parts| && (parts[i] == raw || (parts[i] == Spelling(p) && raw == Spelling(p) + "="))
  }

  lemma PlainSegment(part: string, p: Param)
    requires RawName(part) == Spelling(p)
    ensures KeyOf(part) == Known(p)
    ensures part == Spelling(p) + "=" + RawValue(part) || (part == Spelling(p) && RawValue(part) == "")
  {
    PlainNameDecodes(p);
    assert part != "";
    var eq := IndexOf(part, '=');
    if eq >= 0 { assert part == part[..eq] + [part[eq]] + part[eq + 1..]; }
  }

  lemma SpellingIsLetters(p: Param)
    ensures Spelling(p) != "" && forall i :: 0 <= i < |Spelling(p)| ==> Spelling(p)[i] != '+' && Spelling(p)[i] != '%'
  {}

  lemma PlainTextDecodes(s: string)
    requires forall i :: 0 <= i < |s| ==> s[i] != '+' && s[i] != '%'
    ensures FormDecode(s) == Some(s)
  {
    SpacedIsItself(s);
    PlainDecodes(s);
  }

  lemma PlainNameDecodes(p: Param)
    ensures Spelling(p) != "" && FormDecode(Spelling(p)) == Some(Spelling(p))
  {
    SpellingIsLetters(p);
    PlainTextDecodes(Spelling(p));
  }

  lemma SpacedIsItself(s: string)
    requires forall i :: 0 <= i < |s| ==> s[i] != '+'
    ensures Spaced(s) == s
  {}

  lemma OnlyOne(ss: seq<Segment>, p: Param, i: nat)
    requires i < |ss| && ss[i].key == Known(p) && |Matching(ss, p)| == 1
    ensures Matching(ss, p)[0] == ss[i]
  {
    assert ss[i] in Matching(ss, p);
  }

  lemma PlainSegmentIs(part: string, p: Param)
    requires SegmentOf(part).rawName == Spelling(p)
    ensures SegmentOf(part).key == Known(p)
    ensures part == Spelling(p) + "=" + SegmentOf(part).rawValue || (part == Spelling(p) && SegmentOf(part).rawValue == "")
  {
    PlainSegment(part, p);
  }

  /** The segment used is the plainly named one: it is the only one of its name. */
  lemma UsedIsPlain(parts: seq<string>, p: Param)
    requires var ss := SegmentsOf(parts); |Matching(ss, p)| == 1 && PlainlyNamed(ss, p)
    ensures Literal(parts, p, RawOf(SegmentsOf(parts), p))
  {
    var ss := SegmentsOf(parts);
    var i :| 0 <= i < |ss| && ss[i].rawName == Spelling(p);
    PlainSegmentIs(parts[i], p);
    OnlyOne(ss, p, i);
  }

  /**
   * Of an accepted signed query, the octets the signature is checked over are the message, the
   * RelayState if there is one, and the SigAlg, in this order; each is a segment of the query,
   * sent under its plain name, and the only one that decodes to that name.
   */
  lemma OctetsWereSent(rawQuery: string, message: Param)
    requires Parse(rawQuery, message).Some? && Parse(rawQuery, message).value.signed.Some?
    ensures var parts := Split(rawQuery); var ss := SegmentsOf(parts); var signed := Parse(rawQuery, message).value.signed.value;
      && Sent(ss, message) && Sent(ss, SigAlg) && |Matching(ss, message)| == 1 && |Matching(ss, SigAlg)| == 1 && |Matching(ss, RelayState)| <= 1
      && signed.octets == Join([RawOf(ss, message)] + IfSent(ss, RelayState) + [RawOf(ss, SigAlg)])
      && Literal(parts, message, RawOf(ss, message)) && Literal(parts, SigAlg, RawOf(ss, SigAlg))
      && (Sent(ss, RelayState) ==> Literal(parts, RelayState, RawOf(ss, RelayState)))
  {
    var parts := Split(rawQuery);
    var ss := SegmentsOf(parts);
    assert Single(ss, message) && Single(ss, SigAlg) && Single(ss, RelayState);
    UsedIsPlain(parts, message);
    UsedIsPlain(parts, SigAlg);
    if Sent(ss, RelayState) { UsedIsPlain(parts, RelayState); }
  }

  // ---- The builder -------------------------------------------------------------------------------

  function Field(p: Param, value: string): string { Spelling(p) + "=" + Encode(value) }

  /** What is signed: `message` is the deflated, base64-encoded XML. */
  function SignedFields(kind: Param, message: string, relayState: Option<string>, sigAlg: string): seq<string> {
    [Field(kind, message)] + (if relayState.Some? then [Field(RelayState, relayState.value)] else []) + [Field(SigAlg, sigAlg)]
  }

  function Fields(kind: Param, message: string, relayState: Option<string>, sigAlg: string, signature: string): seq<string> {
    SignedFields(kind, message, relayState, sigAlg) + [Field(Signature, signature)]
  }

  /** `sign` stands for the private key: it signs the octets before it. */
  method RedirectBindingQuery(kind: Param, message: string, relayState: Option<string>, sigAlg: string, sign: string -> string)
    returns (q: string, octets: string)
    ensures octets == Join(SignedFields(kind, message, relayState, sigAlg))
    ensures q == Join(Fields(kind, message, relayState, sigAlg, sign(octets)))
  {
    q := Field(kind, message);
    if relayState.Some? { q := q + "&" + Field(RelayState, relayState.value); }
    q := q + "&" + Field(SigAlg, sigAlg);
    octets := q;
    JoinThree(Field(kind, message), if relayState.Some? then [Field(RelayState, relayState.value)] else [], Field(SigAlg, sigAlg));
    q := q + "&" + Field(Signature, sign(octets));
    JoinLast(SignedFields(kind, message, relayState, sigAlg), Field(Signature, sign(octets)));
  }

  lemma {:induction false} JoinLast(parts: seq<string>, last: string)
    requires |parts| > 0
    ensures Join(parts + [last]) == Join(parts) + "&" + last
    decreases |parts|
  {
    if |parts| == 1 {
      assert (parts + [last])[1..] == [last];
    } else {
      assert (parts + [last])[1..] == parts[1..] + [last];
      JoinLast(parts[1..], last);
    }
  }

  lemma JoinThree(a: string, b: seq<string>, c: string)
    requires |b| <= 1
    ensures Join([a] + b + [c]) == (if b == [] then a else a + "&" + b[0]) + "&" + c
  {
    JoinLast([a] + b, c);
    if b != [] { JoinLast([a], b[0]); assert [a] + b == [a] + [b[0]]; } else { assert [a] + b == [a]; }
  }

  // ---- The round trip ----------------------------------------------------------------------------

  lemma IndexOfSafe(s: string, c: char, rest: string)
    requires forall i :: 0 <= i < |s| ==> s[i] != c
    ensures IndexOf(s + [c] + rest, c) == |s|
    ensures IndexOf(s, c) == -1
  {
    var t := s + [c] + rest;
    assert t[|s|] == c && forall i :: 0 <= i < |s| ==> t[i] == s[i];
  }

  lemma FieldParts(name: string, raw: string)
    requires forall i :: 0 <= i < |name| ==> name[i] != '='
    ensures RawName(name + "=" + raw) == name && RawValue(name + "=" + raw) == raw
  {
    IndexOfSafe(name, '=', raw);
    assert name + "=" + raw == name + ['='] + raw;
  }

  lemma SpellingIsPlain(p: Param)
    ensures forall i :: 0 <= i < |Spelling(p)| ==> Spelling(p)[i] != '=' && Spelling(p)[i] != '&'
  {}

  function SegmentFor(p: Param, value: string): Segment { Segment(Known(p), Spelling(p), Encode(value), Some(value)) }

  lemma ValueDecodes(p: Param, value: string)
    ensures DecodeValue(p, Encode(value)) == Some(value)
  {
    NoPlus(value);
    RoundTrip(value);
    hide Encode, Decode, Spaced;
  }

  lemma NoPlus(value: string)
    ensures Spaced(Encode(value)) == Encode(value)
  {
    EncodedIsSafe(value);
    SpacedIsItself(Encode(value));
  }

  lemma FieldIs(p: Param, value: string)
    ensures SegmentOf(Field(p, value)) == SegmentFor(p, value)
  {
    SpellingIsPlain(p);
    FieldParts(Spelling(p), Encode(value));
    PlainSegment(Field(p, value), p);
    ValueDecodes(p, value);
  }

  lemma FieldIsWhole(p: Param, value: string)
    ensures forall i :: 0 <= i < |Field(p, value)| ==> Field(p, value)[i] != '&'
  {
    EncodedIsSafe(value);
    SpellingIsPlain(p);
  }

  lemma {:induction false} SplitJoin(parts: seq<string>)
    requires |parts| > 0 && forall k :: 0 <= k < |parts| ==> forall i :: 0 <= i < |parts[k]| ==> parts[k][i] != '&'
    ensures Split(Join(parts)) == parts
    decreases |parts|
  {
    if |parts| == 1 {
      IndexOfSafe(parts[0], '&', "");
    } else {
      var rest := Join(parts[1..]);
      assert Join(parts) == parts[0] + ['&'] + rest;
      IndexOfSafe(parts[0], '&', rest);
      assert Join(parts)[|parts[0]| + 1..] == rest && Join(parts)[..|parts[0]|] == parts[0];
      SplitJoin(parts[1..]);
    }
  }

  function IfGiven(p: Param, value: Option<string>): seq<Segment> {
    if value.Some? then [SegmentFor(p, value.value)] else []
  }

  /** The segments of a built query. */
  function Built(kind: Param, message: string, relayState: Option<string>, sigAlg: string, signature: string): seq<Segment> {
    [SegmentFor(kind, message)] + IfGiven(RelayState, relayState) + [SegmentFor(SigAlg, sigAlg)] + [SegmentFor(Signature, signature)]
  }

  lemma BuiltSegments(kind: Param, message: string, relayState: Option<string>, sigAlg: string, signature: string)
    ensures var q := Join(Fields(kind, message, relayState, sigAlg, signature));
      SegmentsOf(Split(q)) == Built(kind, message, relayState, sigAlg, signature)
  {
    var fields := Fields(kind, message, relayState, sigAlg, signature);
    FieldIsWhole(kind, message);
    if relayState.Some? { FieldIsWhole(RelayState, relayState.value); }
    FieldIsWhole(SigAlg, sigAlg);
    FieldIsWhole(Signature, signature);
    SplitJoin(fields);
    FieldSegments(kind, message, relayState, sigAlg, signature);
  }

  lemma SegmentsConcat(a: seq<string>, b: seq<string>)
    ensures SegmentsOf(a + b) == SegmentsOf(a) + SegmentsOf(b)
  {}

  lemma OneFieldSegment(p: Param, value: string)
    ensures SegmentsOf([Field(p, value)]) == [SegmentFor(p, value)]
  {
    FieldIs(p, value);
  }

  lemma FieldSegments(kind: Param, message: string, relayState: Option<string>, sigAlg: string, signature: string)
    ensures SegmentsOf(Fields(kind, message, relayState, sigAlg, signature)) == Built(kind, message, relayState, sigAlg, signature)
  {
    var a, c, d := [Field(kind, message)], [Field(SigAlg, sigAlg)], [Field(Signature, signature)];
    var b := if relayState.Some? then [Field(RelayState, relayState.value)] else [];
    SegmentsConcat(a + b + c, d);
    SegmentsConcat(a + b, c);
    SegmentsConcat(a, b);
    OneFieldSegment(kind, message);
    if relayState.Some? { OneFieldSegment(RelayState, relayState.value); }
    OneFieldSegment(SigAlg, sigAlg);
    OneFieldSegment(Signature, signature);
  }

  function Picked(ss: seq<Segment>, p: Param): seq<Segment>
    requires |ss| <= 1
  {
    if ss != [] && ss[0].key == Known(p) then ss else []
  }

  lemma MatchingFew(ss: seq<Segment>, p: Param)
    requires |ss| <= 1
    ensures Matching(ss, p) == Picked(ss, p)
  {
    if ss != [] { MatchingNext([], ss[0], p); assert [] + [ss[0]] == ss; }
  }

  lemma MatchingFour(a: seq<Segment>, b: seq<Segment>, c: seq<Segment>, d: seq<Segment>, p: Param)
    requires |a| <= 1 && |b| <= 1 && |c| <= 1 && |d| <= 1
    ensures Matching(a + b + c + d, p) == Picked(a, p) + Picked(b, p) + Picked(c, p) + Picked(d, p)
  {
    MatchingConcat(a + b + c, d, p);
    MatchingConcat(a + b, c, p);
    MatchingConcat(a, b, p);
    MatchingFew(a, p);
    MatchingFew(b, p);
    MatchingFew(c, p);
    MatchingFew(d, p);
  }

  /** What was built for a parameter. */
  function BuiltFor(kind: Param, message: string, relayState: Option<string>, sigAlg: string, signature: string, p: Param): seq<Segment> {
    match p
    case RelayState => IfGiven(RelayState, relayState)
    case SigAlg => [SegmentFor(SigAlg, sigAlg)]
    case Signature => [SegmentFor(Signature, signature)]
    case _ => if p == kind then [SegmentFor(kind, message)] else []
  }

  /** Only what was built for `p` is picked. */
  lemma OnlyOnePicked(a: seq<Segment>, b: seq<Segment>, c: seq<Segment>, d: seq<Segment>, p: Param)
    requires |a| <= 1 && |b| <= 1 && |c| <= 1 && |d| <= 1
    ensures Picked(b, p) == [] && Picked(c, p) == [] && Picked(d, p) == [] ==> Matching(a + b + c + d, p) == Picked(a, p)
    ensures Picked(a, p) == [] && Picked(c, p) == [] && Picked(d, p) == [] ==> Matching(a + b + c + d, p) == Picked(b, p)
    ensures Picked(a, p) == [] && Picked(b, p) == [] && Picked(d, p) == [] ==> Matching(a + b + c + d, p) == Picked(c, p)
    ensures Picked(a, p) == [] && Picked(b, p) == [] && Picked(c, p) == [] ==> Matching(a + b + c + d, p) == Picked(d, p)
  {
    MatchingFour(a, b, c, d, p);
  }

  lemma BuiltMatching(kind: Param, message: string, relayState: Option<string>, sigAlg: string, signature: string, p: Param)
    requires kind == SamlRequest || kind == SamlResponse
    ensures Matching(Built(kind, message, relayState, sigAlg, signature), p) == BuiltFor(kind, message, relayState, sigAlg, signature, p)
  {
    OnlyOnePicked([SegmentFor(kind, message)], IfGiven(RelayState, relayState), [SegmentFor(SigAlg, sigAlg)], [SegmentFor(Signature, signature)], p);
  }

  lemma BuiltReadable(kind: Param, message: string, relayState: Option<string>, sigAlg: string, signature: string)
    ensures var ss := Built(kind, message, relayState, sigAlg, signature);
      && Readable(ss) && HasName(ss, Spelling(kind)) && HasName(ss, Spelling(SigAlg)) && (relayState.Some? ==> HasName(ss, Spelling(RelayState)))
  {
    var ss := Built(kind, message, relayState, sigAlg, signature);
    assert ss[0] == SegmentFor(kind, message) && ss[|ss| - 2] == SegmentFor(SigAlg, sigAlg);
    if relayState.Some? { assert ss[1] == SegmentFor(RelayState, relayState.value); }
  }

  lemma BuiltSingle(kind: Param, message: string, relayState: Option<string>, sigAlg: string, signature: string, p: Param)
    requires kind == SamlRequest || kind == SamlResponse
    ensures var ss := Built(kind, message, relayState, sigAlg, signature);
      && Single(ss, p) && (Sent(ss, p) <==> p == kind || p == SigAlg || p == Signature || (p == RelayState && relayState.Some?))
  {
    BuiltMatching(kind, message, relayState, sigAlg, signature, p);
  }

  lemma AcceptableIf(ss: seq<Segment>, kind: Param, relayed: bool)
    requires kind == SamlRequest || kind == SamlResponse
    requires forall p: Param :: Single(ss, p) && (Sent(ss, p) <==> p == kind || p == SigAlg || p == Signature || (p == RelayState && relayed))
    requires Readable(ss) && HasName(ss, Spelling(kind)) && HasName(ss, Spelling(SigAlg)) && (relayed ==> HasName(ss, Spelling(RelayState)))
    ensures Acceptable(ss, kind)
  {
    assert AllSingle(ss);
    assert !(Sent(ss, SamlRequest) && Sent(ss, SamlResponse)) && Sent(ss, kind);
    assert PlainlyNamed(ss, kind) && PlainlyNamed(ss, RelayState) && PlainlyNamed(ss, SigAlg);
  }

  lemma BuiltIsAcceptable(kind: Param, message: string, relayState: Option<string>, sigAlg: string, signature: string)
    requires kind == SamlRequest || kind == SamlResponse
    ensures Acceptable(Built(kind, message, relayState, sigAlg, signature), kind)
  {
    var ss := Built(kind, message, relayState, sigAlg, signature);
    BuiltReadable(kind, message, relayState, sigAlg, signature);
    forall p: Param ensures Single(ss, p) && (Sent(ss, p) <==> p == kind || p == SigAlg || p == Signature || (p == RelayState && relayState.Some?)) {
      BuiltSingle(kind, message, relayState, sigAlg, signature, p);
    }
    AcceptableIf(ss, kind, relayState.Some?);
  }

  /**
   * Parsing what the builder wrote gives back the message, the RelayState, the SigAlg and the
   * Signature, whatever characters they hold; and the octets are the very string that was signed.
   */
  lemma BuiltIsParsed(kind: Param, message: string, relayState: Option<string>, sigAlg: string, signature: string)
    requires kind == SamlRequest || kind == SamlResponse
    ensures var octets := Join(SignedFields(kind, message, relayState, sigAlg));
      Parse(Join(Fields(kind, message, relayState, sigAlg, signature)), kind) == Some(Raw(message, relayState, Some(Signed(octets, sigAlg, signature))))
  {
    BuiltSegments(kind, message, relayState, sigAlg, signature);
    BuiltIsAcceptable(kind, message, relayState, sigAlg, signature);
    BuiltValues(kind, message, relayState, sigAlg, signature);
  }

  lemma BuiltValues(kind: Param, message: string, relayState: Option<string>, sigAlg: string, signature: string)
    requires kind == SamlRequest || kind == SamlResponse
    requires Acceptable(Built(kind, message, relayState, sigAlg, signature), kind)
    ensures Parsed(Built(kind, message, relayState, sigAlg, signature), kind)
      == Raw(message, relayState, Some(Signed(Join(SignedFields(kind, message, relayState, sigAlg)), sigAlg, signature)))
  {
    var ss := Built(kind, message, relayState, sigAlg, signature);
    BuiltMatching(kind, message, relayState, sigAlg, signature, kind);
    BuiltMatching(kind, message, relayState, sigAlg, signature, RelayState);
    BuiltMatching(kind, message, relayState, sigAlg, signature, SigAlg);
    BuiltMatching(kind, message, relayState, sigAlg, signature, Signature);
    assert RawOf(ss, kind) == Field(kind, message) && RawOf(ss, SigAlg) == Field(SigAlg, sigAlg);
    assert [RawOf(ss, kind)] + IfSent(ss, RelayState) + IfSent(ss, SigAlg) == SignedFields(kind, message, relayState, sigAlg);
  }
}
