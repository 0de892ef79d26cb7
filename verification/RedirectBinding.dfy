/**
The HTTP-Redirect binding's query (section 3.4.4.1 of Bindings for SAML 2.0): what the parser
takes from a raw query, and over which octets a signature is checked.

`ParseParts` says it of the query's segments as a whole, with no order of reading.
*/
module RedirectBinding {
  import opened Optional
  import opened Uri

  datatype Param = SamlRequest | SamlResponse | RelayState | SigAlg | Signature

  function Spelling(p: Param): string {
    match p
    case SamlRequest => "SAMLRequest"
    case SamlResponse => "SAMLResponse"
    case RelayState => "RelayState"
    case SigAlg => "SigAlg"
    case Signature => "Signature"
  }

  function ParamOf(name: string): Option<Param> {
    if name == "SAMLRequest" then Some(SamlRequest)
    else if name == "SAMLResponse" then Some(SamlResponse)
    else if name == "RelayState" then Some(RelayState)
    else if name == "SigAlg" then Some(SigAlg)
    else if name == "Signature" then Some(Signature)
    else None
  }

  lemma SpellingIsInjective(p: Param)
    ensures ParamOf(Spelling(p)) == Some(p)
  {}

  datatype Signed = Signed(octets: string, sigAlg: string, signature: string)

  datatype Raw = Raw(message: string, relayState: Option<string>, signed: Option<Signed>)

  // ---- Segments --------------------------------------------------------------------------------

  function IndexOf(s: string, c: char): (i: int)
    ensures -1 <= i < |s|
    ensures i >= 0 ==> s[i] == c && forall j :: 0 <= j < i ==> s[j] != c
    ensures i < 0 ==> forall j :: 0 <= j < |s| ==> s[j] != c
  {
    if s == "" then -1
    else if s[0] == c then 0
    else
      var i := IndexOf(s[1..], c);
      assert forall j :: 0 < j < |s| ==> s[j] == s[1..][j - 1];
      if i < 0 then -1 else i + 1
  }

  /** The segments of a query, empty ones included. */
  function Split(q: string): (parts: seq<string>)
    ensures |parts| > 0
    decreases |q|
  {
    var i := IndexOf(q, '&');
    if i < 0 then [q] else [q[..i]] + Split(q[i + 1..])
  }

  function Join(parts: seq<string>): string
    requires |parts| > 0
  {
    if |parts| == 1 then parts[0] else parts[0] + "&" + Join(parts[1..])
  }

  function RawName(part: string): string {
    var eq := IndexOf(part, '=');
    if eq < 0 then part else part[..eq]
  }

  function RawValue(part: string): string {
    var eq := IndexOf(part, '=');
    if eq < 0 then "" else part[eq + 1..]
  }

  function Spaced(s: string): (t: string)
    ensures |t| == |s| && forall i :: 0 <= i < |s| ==> t[i] == if s[i] == '+' then ' ' else s[i]
  {
    if s == "" then "" else [if s[0] == '+' then ' ' else s[0]] + Spaced(s[1..])
  }

  function FormDecode(s: string): Option<string> { Decode(Spaced(s)) }

  /** RelayState and SigAlg are form-encoded; base64 values keep a literal "+". */
  function DecodeValue(p: Param, raw: string): Option<string> {
    if p == RelayState || p == SigAlg then FormDecode(raw) else Decode(raw)
  }

  /** What a segment names, as any reader of the query would decode it. */
  datatype Key = Empty | Malformed | Other | Known(param: Param)

  datatype Segment = Segment(key: Key, rawName: string, rawValue: string, value: Option<string>)

  function KeyOf(part: string): Key {
    if part == "" then Empty
    else
      var name := FormDecode(RawName(part));
      if name.None? then Malformed
      else
        var p := ParamOf(name.value);
        if p.None? then Other else Known(p.value)
  }

  function SegmentOf(part: string): Segment {
    var key := KeyOf(part);
    Segment(key, RawName(part), RawValue(part), if key.Known? then DecodeValue(key.param, RawValue(part)) else None)
  }

  function SegmentsOf(parts: seq<string>): (ss: seq<Segment>)
    ensures |ss| == |parts| && forall i :: 0 <= i < |parts| ==> ss[i] == SegmentOf(parts[i])
  {
    seq(|parts|, i requires 0 <= i < |parts| => SegmentOf(parts[i]))
  }

  // ---- What is parsed --------------------------------------------------------------------------

  predicate Readable(ss: seq<Segment>) {
    forall i :: 0 <= i < |ss| ==> !ss[i].key.Malformed?
  }

  /** The segments of a parameter, in order. */
  function Matching(ss: seq<Segment>, p: Param): (ms: seq<Segment>)
    ensures forall x :: x in ms <==> x in ss && x.key == Known(p)
  {
    if ss == [] then []
    else
      var last := ss[|ss| - 1];
      Matching(ss[..|ss| - 1], p) + if last.key == Known(p) then [last] else []
  }

  predicate Sent(ss: seq<Segment>, p: Param) { Matching(ss, p) != [] }

  /** The segment with the parameter's name spelled plainly. */
  function RawOf(ss: seq<Segment>, p: Param): string
    requires Sent(ss, p)
  {
    Spelling(p) + "=" + Matching(ss, p)[0].rawValue
  }

  function ValueOf(ss: seq<Segment>, p: Param): Option<string> {
    if Sent(ss, p) then Matching(ss, p)[0].value else None
  }

  /** At most one segment of the parameter, with a value that can be decoded. */
  predicate Single(ss: seq<Segment>, p: Param) {
    |Matching(ss, p)| <= 1 && (Sent(ss, p) ==> ValueOf(ss, p).Some?)
  }

  function IfSent(ss: seq<Segment>, p: Param): seq<string> {
    if Sent(ss, p) then [RawOf(ss, p)] else []
  }

  /** The octets a signature covers: the message, RelayState and SigAlg, in this order. */
  function Octets(ss: seq<Segment>, message: Param): string
    requires Sent(ss, message)
  {
    Join([RawOf(ss, message)] + IfSent(ss, RelayState) + IfSent(ss, SigAlg))
  }

  predicate HasName(ss: seq<Segment>, rawName: string) {
    exists i :: 0 <= i < |ss| && ss[i].rawName == rawName
  }

  /** If the parameter was sent, some segment has its name spelled plainly. */
  predicate PlainlyNamed(ss: seq<Segment>, p: Param) { Sent(ss, p) ==> HasName(ss, Spelling(p)) }

  predicate AllSingle(ss: seq<Segment>) { forall p: Param :: Single(ss, p) }

  predicate Acceptable(ss: seq<Segment>, message: Param) {
    && Readable(ss) && AllSingle(ss)
    && !(Sent(ss, SamlRequest) && Sent(ss, SamlResponse)) && Sent(ss, message)
    && (Sent(ss, Signature) <==> Sent(ss, SigAlg))
    && (Sent(ss, Signature) ==> PlainlyNamed(ss, message) && PlainlyNamed(ss, RelayState) && PlainlyNamed(ss, SigAlg))
  }

  function Parsed(ss: seq<Segment>, message: Param): Raw
    requires Acceptable(ss, message)
  {
    assert Single(ss, message) && Single(ss, Signature) && Single(ss, SigAlg);
    Raw(ValueOf(ss, message).value, ValueOf(ss, RelayState),
        if Sent(ss, Signature) then Some(Signed(Octets(ss, message), ValueOf(ss, SigAlg).value, ValueOf(ss, Signature).value)) else None)
  }

  function ParseSegments(ss: seq<Segment>, message: Param): Option<Raw> {
    if Acceptable(ss, message) then Some(Parsed(ss, message)) else None
  }

  function Parse(rawQuery: string, message: Param): Option<Raw> { ParseSegments(SegmentsOf(Split(rawQuery)), message) }

  // ---- The parser ------------------------------------------------------------------------------

  /** A parameter the parser has found: its segment, its name spelled plainly, and its value. */
  datatype Found = Found(raw: string, value: string)

  lemma {:induction false} MatchingConcat(a: seq<Segment>, b: seq<Segment>, p: Param)
    ensures Matching(a + b, p) == Matching(a, p) + Matching(b, p)
    decreases |b|
  {
    if b == [] {
      assert a + b == a;
    } else {
      assert (a + b)[..|a + b| - 1] == a + b[..|b| - 1];
      MatchingConcat(a, b[..|b| - 1], p);
    }
  }

  /** What the parser holds after the segments `ss`. */
  ghost predicate Holds(found: map<Param, Found>, ss: seq<Segment>) {
    forall p: Param ::
      && Single(ss, p) && (p in found <==> Sent(ss, p))
      && (p in found ==> found[p] == Found(RawOf(ss, p), ValueOf(ss, p).value))
  }

  lemma HoldsNext(found: map<Param, Found>, ss: seq<Segment>, s: Segment)
    requires Holds(found, ss)
    ensures !s.key.Known? ==> Holds(found, ss + [s])
    ensures s.key.Known? && s.key.param !in found && s.value.Some? ==>
      Holds(found[s.key.param := Found(Spelling(s.key.param) + "=" + s.rawValue, s.value.value)], ss + [s])
  {
    if !s.key.Known? { HoldsOther(found, ss, s); }
    if s.key.Known? && s.key.param !in found && s.value.Some? { HoldsFound(found, ss, s); }
  }

  lemma MatchingNext(ss: seq<Segment>, s: Segment, p: Param)
    ensures Matching(ss + [s], p) == Matching(ss, p) + if s.key == Known(p) then [s] else []
  {
    assert (ss + [s])[..|ss|] == ss;
  }

  lemma HoldsOther(found: map<Param, Found>, ss: seq<Segment>, s: Segment)
    requires Holds(found, ss) && !s.key.Known?
    ensures Holds(found, ss + [s])
  {
    forall p: Param
      ensures Single(ss + [s], p) && (p in found <==> Sent(ss + [s], p))
      ensures p in found ==> found[p] == Found(RawOf(ss + [s], p), ValueOf(ss + [s], p).value)
    {
      MatchingNext(ss, s, p);
      assert Single(ss, p) && (p in found <==> Sent(ss, p));
    }
  }

  lemma HoldsFound(found: map<Param, Found>, ss: seq<Segment>, s: Segment)
    requires Holds(found, ss) && s.key.Known? && s.key.param !in found && s.value.Some?
    ensures Holds(found[s.key.param := Found(Spelling(s.key.param) + "=" + s.rawValue, s.value.value)], ss + [s])
  {
    var next := found[s.key.param := Found(Spelling(s.key.param) + "=" + s.rawValue, s.value.value)];
    forall p: Param
      ensures Single(ss + [s], p) && (p in next <==> Sent(ss + [s], p))
      ensures p in next ==> next[p] == Found(RawOf(ss + [s], p), ValueOf(ss + [s], p).value)
    {
      MatchingNext(ss, s, p);
      assert Single(ss, p) && (p in found <==> Sent(ss, p));
    }
  }

  lemma MatchingThrough(ss: seq<Segment>, s: Segment, rest: seq<Segment>, p: Param)
    requires s.key == Known(p)
    ensures Matching(ss + [s] + rest, p) == Matching(ss, p) + [s] + Matching(rest, p)
  {
    MatchingConcat(ss + [s], rest, p);
    MatchingNext(ss, s, p);
  }

  /** A second segment of one parameter, or one whose value cannot be decoded, spoils the whole query. */
  lemma Spoiled(ss: seq<Segment>, s: Segment, rest: seq<Segment>, p: Param)
    requires s.key == Known(p) && (Sent(ss, p) || s.value.None?)
    ensures !Single(ss + [s] + rest, p)
  {
    MatchingThrough(ss, s, rest, p);
    var ms := Matching(ss + [s] + rest, p);
    if !Sent(ss, p) {
      assert ms[0] == s;
    }
  }

  /** One segment: held, passed over, or the end of it. */
  method Take(part: string, found: map<Param, Found>) returns (r: Option<map<Param, Found>>)
    ensures var s := SegmentOf(part);
      r == if s.key.Malformed? then None
           else if !s.key.Known? then Some(found)
           else if s.key.param in found || s.value.None? then None
           else Some(found[s.key.param := Found(Spelling(s.key.param) + "=" + s.rawValue, s.value.value)])
  {
    if part == "" { return Some(found); }
    var eq := IndexOf(part, '=');
    var rawKey := if eq < 0 then part else part[..eq];
    var rawValue := if eq < 0 then "" else part[eq + 1..];
    var key := FormDecode(rawKey);
    if key.None? { return None; }
    var p := ParamOf(key.value);
    if p.None? { return Some(found); }
    if p.value in found { return None; }
    var value := if p.value == RelayState || p.value == SigAlg then FormDecode(rawValue) else Decode(rawValue);
    if value.None? { return None; }
    r := Some(found[p.value := Found(Spelling(p.value) + "=" + rawValue, value.value)]);
  }

  lemma NotSingle(ss: seq<Segment>, p: Param, message: Param)
    requires !Single(ss, p)
    ensures !Acceptable(ss, message)
  {
    assert !AllSingle(ss);
  }

  /** The segment at which the parser stops: no reading of the whole query is acceptable. */
  lemma Stopped(before: seq<Segment>, s: Segment, rest: seq<Segment>, found: map<Param, Found>, message: Param)
    requires Holds(found, before)
    requires s.key.Malformed? || (s.key.Known? && (s.key.param in found || s.value.None?))
    ensures !Acceptable(before + [s] + rest, message)
  {
    if s.key.Malformed? {
      assert (before + [s] + rest)[|before|] == s;
    } else {
      assert s.key.param in found <==> Sent(before, s.key.param);
      Spoiled(before, s, rest, s.key.param);
      NotSingle(before + [s] + rest, s.key.param, message);
    }
  }

  lemma StoppedAt(ss: seq<Segment>, i: nat, found: map<Param, Found>, message: Param)
    requires i < |ss| && Holds(found, ss[..i])
    requires ss[i].key.Malformed? || (ss[i].key.Known? && (ss[i].key.param in found || ss[i].value.None?))
    ensures !Acceptable(ss, message)
  {
    Stopped(ss[..i], ss[i], ss[i + 1..], found, message);
    assert ss[..i] + [ss[i]] + ss[i + 1..] == ss;
  }

  /** Reads the segments one by one. */
  method Collect(parts: seq<string>, ghost message: Param) returns (r: Option<map<Param, Found>>)
    ensures var ss := SegmentsOf(parts); if r.None? then !Acceptable(ss, message) else Holds(r.value, ss) && Readable(ss)
  {
    ghost var ss := SegmentsOf(parts);
    var found: map<Param, Found> := map[];
    for i := 0 to |parts|
      invariant Holds(found, ss[..i]) && Readable(ss[..i])
    {
      var next := Take(parts[i], found);
      if next.None? {
        StoppedAt(ss, i, found, message);
        return None;
      }
      HoldsNext(found, ss[..i], ss[i]);
      assert ss[..i + 1] == ss[..i] + [ss[i]];
      found := next.value;
    }
    assert ss[..|parts|] == ss;
    r := Some(found);
  }

  method HasPlainName(parts: seq<string>, name: string) returns (b: bool)
    ensures b <==> HasName(SegmentsOf(parts), name)
  {
    ghost var ss := SegmentsOf(parts);
    for i := 0 to |parts|
      invariant forall j :: 0 <= j < i ==> ss[j].rawName != name
    {
      if RawName(parts[i]) == name {
        assert ss[i].rawName == name;
        return true;
      }
    }
    b := false;
  }

  /** Whether every signed parameter that was found is plainly named. */
  method NamesArePlain(parts: seq<string>, found: map<Param, Found>, message: Param) returns (b: bool)
    requires Holds(found, SegmentsOf(parts))
    ensures var ss := SegmentsOf(parts); b <==> PlainlyNamed(ss, message) && PlainlyNamed(ss, RelayState) && PlainlyNamed(ss, SigAlg)
  {
    hide SegmentsOf;
    ghost var ss := SegmentsOf(parts);
    var names := [message, RelayState, SigAlg];
    for i := 0 to 3
      invariant forall j :: 0 <= j < i ==> PlainlyNamed(ss, names[j])
    {
      if names[i] in found {
        var plain := HasPlainName(parts, Spelling(names[i]));
        if !plain {
          assert !PlainlyNamed(ss, names[i]);
          return false;
        }
      }
    }
    assert PlainlyNamed(ss, names[0]) && PlainlyNamed(ss, names[1]) && PlainlyNamed(ss, names[2]);
    b := true;
  }

  lemma HeldOctets(found: map<Param, Found>, ss: seq<Segment>, message: Param)
    requires Holds(found, ss) && message in found && SigAlg in found
    ensures Octets(ss, message) ==
      Join([found[message].raw] + (if RelayState in found then [found[RelayState].raw] else []) + [found[SigAlg].raw])
  {}

  /** A query's SAML parameters, or nothing when they cannot be read in one way only. */
  method ParseRedirectQuery(rawQuery: string, message: Param) returns (r: Option<Raw>)
    ensures r == Parse(rawQuery, message)
  {
    var parts := Split(rawQuery);
    ghost var ss := SegmentsOf(parts);
    var collected := Collect(parts, message);
    if collected.None? { return None; }
    var found := collected.value;
    if SamlRequest in found && SamlResponse in found { return None; }
    if message !in found { return None; }
    assert forall p: Param :: Single(ss, p) && (p in found <==> Sent(ss, p));
    var relayState := if RelayState in found then Some(found[RelayState].value) else None;
    if Signature !in found && SigAlg !in found { return Some(Raw(found[message].value, relayState, None)); }
    if Signature !in found || SigAlg !in found { return None; }
    var octets := Join([found[message].raw] + (if RelayState in found then [found[RelayState].raw] else []) + [found[SigAlg].raw]);
    HeldOctets(found, ss, message);
    var plain := NamesArePlain(parts, found, message);
    if !plain { return None; }
    return Some(Raw(found[message].value, relayState, Some(Signed(octets, found[SigAlg].value, found[Signature].value))));
  }
}
