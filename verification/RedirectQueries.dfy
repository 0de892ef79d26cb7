/**
Which queries of the HTTP-Redirect binding are accepted, and as what: told from the query as a list of
`name=value` segments, with no order of reading (section 3.4.4.1 of Bindings for SAML 2.0).
*/
module RedirectQueries {
  import opened Optional
  import opened Uri
  import opened RedirectBinding
  import RedirectLaws

  predicate Without(s: string, c: char) { forall i :: 0 <= i < |s| ==> s[i] != c }

  /** A segment, as it is written: a name and a value, or a name alone. */
  ghost predicate Field(part: string, name: string, raw: string) {
    Without(name, '=') && (part == name + "=" + raw || (part == name && raw == ""))
  }

  /** A segment whose name is read as `name`, "+" being a blank in it. */
  ghost predicate IsOf(part: string, name: string, raw: string) {
    part != "" && exists n :: Field(part, n, raw) && FormDecode(n) == Some(name)
  }

  ghost predicate Has(parts: seq<string>, name: string) {
    exists k, raw :: 0 <= k < |parts| && IsOf(parts[k], name, raw)
  }

  /** In RelayState and SigAlg "+" is a blank; elsewhere it is itself, as base64 has it. */
  function Read(name: string, raw: string): Option<string> {
    if name == "RelayState" || name == "SigAlg" then FormDecode(raw) else Decode(raw)
  }

  /** There once at most, with a value that can be decoded. */
  ghost predicate OnceAtMost(parts: seq<string>, name: string) {
    && (forall j, k, a, b :: 0 <= j < k < |parts| ==> !(IsOf(parts[j], name, a) && IsOf(parts[k], name, b)))
    && (forall k, raw :: 0 <= k < |parts| && IsOf(parts[k], name, raw) ==> Read(name, raw).Some?)
  }

  /** Every name can be decoded, and each of these five is there once at most. */
  ghost predicate Unambiguous(parts: seq<string>) {
    && (forall k, n, raw :: 0 <= k < |parts| && parts[k] != "" && Field(parts[k], n, raw) ==> FormDecode(n).Some?)
    && OnceAtMost(parts, "SAMLRequest") && OnceAtMost(parts, "SAMLResponse") && OnceAtMost(parts, "RelayState")
    && OnceAtMost(parts, "SigAlg") && OnceAtMost(parts, "Signature")
  }

  /** Some segment has exactly this name, not only one that is read as it. */
  ghost predicate HasPlainly(parts: seq<string>, name: string) {
    exists k, raw :: 0 <= k < |parts| && Field(parts[k], name, raw)
  }

  ghost predicate May(parts: seq<string>, message: string) {
    && Unambiguous(parts) && Has(parts, message)
    && !(Has(parts, "SAMLRequest") && Has(parts, "SAMLResponse"))
    && (Has(parts, "Signature") <==> Has(parts, "SigAlg"))
    && (Has(parts, "Signature") ==>
          && HasPlainly(parts, message) && HasPlainly(parts, "SigAlg") && (Has(parts, "RelayState") ==> HasPlainly(parts, "RelayState")))
  }

  // ---- Segments ----------------------------------------------------------------------------------

  lemma FieldIs(part: string, name: string, raw: string)
    ensures Field(part, name, raw) <==> name == RawName(part) && raw == RawValue(part)
  {
    if part == name + "=" + raw { assert part[|name|] == '='; }
    var eq := IndexOf(part, '=');
    if eq >= 0 {
      assert part == part[..eq] + "=" + part[eq + 1..];
      if Field(part, name, raw) { Divided(part, name, raw); }
    }
  }

  lemma Divided(part: string, name: string, raw: string)
    requires Field(part, name, raw) && IndexOf(part, '=') >= 0
    ensures IndexOf(part, '=') == |name| && part[..|name|] == name && part[|name| + 1..] == raw
  {
    if part == name + "=" + raw {
      assert part[|name|] == '=' && forall i :: 0 <= i < |name| ==> part[i] == name[i];
    }
  }

  lemma NameIs(part: string, p: Param)
    ensures SegmentOf(part).key == Known(p) <==> part != "" && FormDecode(RawName(part)) == Some(Spelling(p))
  {
    SpellingIsInjective(p);
    NoOtherSpelling(p);
  }

  lemma NoOtherSpelling(p: Param)
    ensures forall name :: ParamOf(name) == Some(p) <==> name == Spelling(p)
  {}

  lemma IsOfIs(part: string, p: Param, raw: string)
    ensures IsOf(part, Spelling(p), raw) <==> SegmentOf(part).key == Known(p) && raw == RawValue(part)
    ensures SegmentOf(part).key == Known(p) ==> SegmentOf(part).value == Read(Spelling(p), RawValue(part)) && SegmentOf(part).rawValue == RawValue(part)
  {
    NameIs(part, p);
    FieldIs(part, RawName(part), RawValue(part));
    forall n | Field(part, n, raw) ensures n == RawName(part) && raw == RawValue(part) { FieldIs(part, n, raw); }
    assert Spelling(p) == "RelayState" <==> p == RelayState;
    assert Spelling(p) == "SigAlg" <==> p == SigAlg;
  }

  // ---- Parameters --------------------------------------------------------------------------------

  /** Segment `k` is the only one of the parameter. */
  ghost predicate OnlyAt(ss: seq<Segment>, p: Param, k: nat) {
    k < |ss| && ss[k].key == Known(p) && forall j :: 0 <= j < |ss| && ss[j].key == Known(p) ==> j == k
  }

  lemma {:induction false} MatchingNone(ss: seq<Segment>, p: Param)
    requires forall j :: 0 <= j < |ss| ==> ss[j].key != Known(p)
    ensures Matching(ss, p) == []
  {
    if ss != [] { MatchingNone(ss[..|ss| - 1], p); }
  }

  lemma MatchingAt(ss: seq<Segment>, p: Param, k: nat)
    requires OnlyAt(ss, p, k)
    ensures Matching(ss, p) == [ss[k]]
  {
    var a, b := ss[..k], ss[k + 1..];
    assert ss == a + [ss[k]] + b;
    assert forall j :: 0 <= j < |b| ==> b[j] == ss[k + 1 + j];
    MatchingNone(a, p);
    MatchingNone(b, p);
    MatchingThrough(a, ss[k], b, p);
  }

  lemma {:induction false} MatchingMany(ss: seq<Segment>, p: Param, j: nat, k: nat)
    requires j < k < |ss| && ss[j].key == Known(p) && ss[k].key == Known(p)
    ensures |Matching(ss, p)| > 1
  {
    var a, b := ss[..k], ss[k + 1..];
    assert ss == a + [ss[k]] + b;
    MatchingThrough(a, ss[k], b, p);
    assert a[j] in Matching(a, p);
  }

  /** What the parser's terms for a parameter mean. */
  lemma ParamIs(ss: seq<Segment>, p: Param)
    ensures Sent(ss, p) <==> exists k :: 0 <= k < |ss| && ss[k].key == Known(p)
    ensures |Matching(ss, p)| <= 1 <==> forall j, k :: 0 <= j < k < |ss| ==> !(ss[j].key == Known(p) && ss[k].key == Known(p))
    ensures forall k: nat :: OnlyAt(ss, p, k) ==> ValueOf(ss, p) == ss[k].value && RawOf(ss, p) == Spelling(p) + "=" + ss[k].rawValue
  {
    if forall k :: 0 <= k < |ss| ==> ss[k].key != Known(p) { MatchingNone(ss, p); }
    if k :| 0 <= k < |ss| && ss[k].key == Known(p) {
      assert ss[k] in Matching(ss, p);
      if forall j :: 0 <= j < |ss| && ss[j].key == Known(p) ==> j == k { MatchingAt(ss, p, k); }
    }
    if j, k :| 0 <= j < k < |ss| && ss[j].key == Known(p) && ss[k].key == Known(p) { MatchingMany(ss, p, j, k); }
    forall k: nat | OnlyAt(ss, p, k) ensures Matching(ss, p) == [ss[k]] { MatchingAt(ss, p, k); }
  }

  lemma SentIs(parts: seq<string>, p: Param)
    ensures Sent(SegmentsOf(parts), p) <==> Has(parts, Spelling(p))
  {
    var ss := SegmentsOf(parts);
    ParamIs(ss, p);
    forall k | 0 <= k < |parts| ensures ss[k].key == Known(p) <==> exists raw :: IsOf(parts[k], Spelling(p), raw) {
      IsOfIs(parts[k], p, RawValue(parts[k]));
      forall raw | IsOf(parts[k], Spelling(p), raw) ensures ss[k].key == Known(p) { IsOfIs(parts[k], p, raw); }
    }
  }

  lemma KeysAre(parts: seq<string>, p: Param)
    ensures var ss := SegmentsOf(parts);
      && (forall k :: 0 <= k < |parts| && ss[k].key == Known(p) ==> IsOf(parts[k], Spelling(p), RawValue(parts[k])) && ss[k].value == Read(Spelling(p), RawValue(parts[k])))
      && (forall k, raw :: 0 <= k < |parts| && IsOf(parts[k], Spelling(p), raw) ==> ss[k].key == Known(p) && raw == RawValue(parts[k]))
  {
    hide IsOf, Read;
    forall k | 0 <= k < |parts| && SegmentOf(parts[k]).key == Known(p)
      ensures IsOf(parts[k], Spelling(p), RawValue(parts[k])) && SegmentOf(parts[k]).value == Read(Spelling(p), RawValue(parts[k]))
    {
      IsOfIs(parts[k], p, RawValue(parts[k]));
    }
    forall k, raw | 0 <= k < |parts| && IsOf(parts[k], Spelling(p), raw) ensures SegmentOf(parts[k]).key == Known(p) && raw == RawValue(parts[k]) {
      IsOfIs(parts[k], p, raw);
    }
  }

  lemma SingleIf(parts: seq<string>, p: Param)
    requires OnceAtMost(parts, Spelling(p))
    ensures Single(SegmentsOf(parts), p)
  {
    var ss := SegmentsOf(parts);
    KeysAre(parts, p);
    hide SegmentsOf, IsOf, Read, Matching, Spelling;
    ParamIs(ss, p);
    if Sent(ss, p) {
      var k :| 0 <= k < |ss| && ss[k].key == Known(p);
      assert IsOf(parts[k], Spelling(p), RawValue(parts[k]));
      assert OnlyAt(ss, p, k);
    }
  }

  lemma SingleOnlyIf(parts: seq<string>, p: Param)
    requires Single(SegmentsOf(parts), p)
    ensures OnceAtMost(parts, Spelling(p))
  {
    var ss := SegmentsOf(parts);
    KeysAre(parts, p);
    hide SegmentsOf, IsOf, Read, Matching, Spelling;
    ParamIs(ss, p);
    forall k, raw | 0 <= k < |parts| && IsOf(parts[k], Spelling(p), raw) ensures Read(Spelling(p), raw).Some? {
      assert OnlyAt(ss, p, k);
    }
  }

  lemma ReadableIs(parts: seq<string>)
    ensures Readable(SegmentsOf(parts)) <==> forall k, n, raw :: 0 <= k < |parts| && parts[k] != "" && Field(parts[k], n, raw) ==> FormDecode(n).Some?
  {
    forall k | 0 <= k < |parts| && parts[k] != ""
      ensures SegmentOf(parts[k]).key.Malformed? <==> FormDecode(RawName(parts[k])).None?
      ensures Field(parts[k], RawName(parts[k]), RawValue(parts[k]))
    {
      FieldIs(parts[k], RawName(parts[k]), RawValue(parts[k]));
    }
    forall k, n, raw | 0 <= k < |parts| && Field(parts[k], n, raw) ensures n == RawName(parts[k]) { FieldIs(parts[k], n, raw); }
  }

  lemma SingleIs(parts: seq<string>, p: Param, name: string)
    requires name == Spelling(p)
    ensures Single(SegmentsOf(parts), p) <==> OnceAtMost(parts, name)
  {
    hide OnceAtMost, Single, SegmentsOf;
    if Single(SegmentsOf(parts), p) { SingleOnlyIf(parts, p); }
    if OnceAtMost(parts, Spelling(p)) { SingleIf(parts, p); }
  }

  lemma FiveParams(ss: seq<Segment>)
    ensures AllSingle(ss) <==> Single(ss, SamlRequest) && Single(ss, SamlResponse) && Single(ss, RelayState) && Single(ss, SigAlg) && Single(ss, Signature)
  {
    hide Single;
    if Single(ss, SamlRequest) && Single(ss, SamlResponse) && Single(ss, RelayState) && Single(ss, SigAlg) && Single(ss, Signature) {
      forall p: Param ensures Single(ss, p) {
        match p { case SamlRequest => case SamlResponse => case RelayState => case SigAlg => case Signature => }
      }
    }
  }

  lemma AllSingleIs(parts: seq<string>)
    ensures AllSingle(SegmentsOf(parts)) <==>
      && OnceAtMost(parts, "SAMLRequest") && OnceAtMost(parts, "SAMLResponse") && OnceAtMost(parts, "RelayState")
      && OnceAtMost(parts, "SigAlg") && OnceAtMost(parts, "Signature")
  {
    hide OnceAtMost, Single, SegmentsOf, AllSingle;
    FiveParams(SegmentsOf(parts));
    SingleIs(parts, SamlRequest, "SAMLRequest");
    SingleIs(parts, SamlResponse, "SAMLResponse");
    SingleIs(parts, RelayState, "RelayState");
    SingleIs(parts, SigAlg, "SigAlg");
    SingleIs(parts, Signature, "Signature");
  }

  lemma UnambiguousIs(parts: seq<string>)
    ensures Readable(SegmentsOf(parts)) && AllSingle(SegmentsOf(parts)) <==> Unambiguous(parts)
  {
    hide OnceAtMost, SegmentsOf, AllSingle, Readable, Field, FormDecode;
    ReadableIs(parts);
    AllSingleIs(parts);
  }

  lemma PlainlyIs(parts: seq<string>, p: Param)
    ensures HasName(SegmentsOf(parts), Spelling(p)) <==> HasPlainly(parts, Spelling(p))
  {
    forall k | 0 <= k < |parts| ensures SegmentOf(parts[k]).rawName == Spelling(p) <==> Field(parts[k], Spelling(p), RawValue(parts[k])) {
      FieldIs(parts[k], Spelling(p), RawValue(parts[k]));
    }
    forall k, raw | 0 <= k < |parts| && Field(parts[k], Spelling(p), raw) ensures RawName(parts[k]) == Spelling(p) { FieldIs(parts[k], Spelling(p), raw); }
  }

  // ---- Whole queries -----------------------------------------------------------------------------

  /**
   * A query is accepted if and only if it can be read in one way only: every name decodes, each SAML
   * parameter is there once at most and decodes, exactly one message is, Signature and SigAlg come
   * together, and what a signature covers is sent under its plain names.
   */
  lemma AcceptedExactly(parts: seq<string>, message: Param)
    requires |parts| > 0 && (forall k :: 0 <= k < |parts| ==> Without(parts[k], '&')) && (message == SamlRequest || message == SamlResponse)
    ensures Parse(Join(parts), message).Some? <==> May(parts, Spelling(message))
  {
    RedirectLaws.SplitJoin(parts);
    hide SegmentsOf, Readable, AllSingle, Unambiguous, Sent, HasName, Has, HasPlainly, Parsed, Join, Split, May, Acceptable;
    AcceptableIs(parts, message);
  }

  lemma AcceptableIs(parts: seq<string>, message: Param)
    requires message == SamlRequest || message == SamlResponse
    ensures Acceptable(SegmentsOf(parts), message) <==> May(parts, Spelling(message))
  {
    hide SegmentsOf, Readable, AllSingle, Unambiguous, Sent, HasName, Has, HasPlainly;
    UnambiguousIs(parts);
    SentIs(parts, SamlRequest);
    SentIs(parts, SamlResponse);
    SentIs(parts, RelayState);
    SentIs(parts, SigAlg);
    SentIs(parts, Signature);
    PlainlyIs(parts, message);
    PlainlyIs(parts, RelayState);
    PlainlyIs(parts, SigAlg);
  }

  /** What the segment of a parameter says, where there is one. */
  ghost predicate Means(parts: seq<string>, name: string, value: Option<string>) {
    if Has(parts, name) then exists k, raw :: 0 <= k < |parts| && IsOf(parts[k], name, raw) && value == Read(name, raw) else value == None
  }

  lemma ValueMeans(parts: seq<string>, p: Param, name: string, value: Option<string>)
    requires Single(SegmentsOf(parts), p) && name == Spelling(p) && value == ValueOf(SegmentsOf(parts), p)
    ensures Means(parts, name, value)
  {
    var ss := SegmentsOf(parts);
    SentIs(parts, p);
    ParamIs(ss, p);
    if Sent(ss, p) {
      var k :| 0 <= k < |ss| && ss[k].key == Known(p);
      assert OnlyAt(ss, p, k);
      IsOfIs(parts[k], p, RawValue(parts[k]));
    }
  }

  lemma SegmentsMean(parts: seq<string>, message: Param, r: Raw)
    requires ParseSegments(SegmentsOf(parts), message) == Some(r)
    ensures Means(parts, Spelling(message), Some(r.message)) && Means(parts, "RelayState", r.relayState)
    ensures Means(parts, "SigAlg", if r.signed.Some? then Some(r.signed.value.sigAlg) else None)
    ensures Means(parts, "Signature", if r.signed.Some? then Some(r.signed.value.signature) else None)
  {
    hide Means, SegmentsOf, Single, ValueOf, ParseSegments;
    AcceptedIsRead(SegmentsOf(parts), message, r);
    ValueMeans(parts, message, Spelling(message), Some(r.message));
    ValueMeans(parts, RelayState, "RelayState", r.relayState);
    ValueMeans(parts, SigAlg, "SigAlg", if r.signed.Some? then Some(r.signed.value.sigAlg) else None);
    ValueMeans(parts, Signature, "Signature", if r.signed.Some? then Some(r.signed.value.signature) else None);
  }

  /** And it is read as what its segments say. */
  lemma ReadAs(parts: seq<string>, message: Param)
    requires |parts| > 0 && (forall k :: 0 <= k < |parts| ==> Without(parts[k], '&')) && Parse(Join(parts), message).Some?
    ensures var r := Parse(Join(parts), message).value;
      && Means(parts, Spelling(message), Some(r.message)) && Means(parts, "RelayState", r.relayState)
      && Means(parts, "SigAlg", if r.signed.Some? then Some(r.signed.value.sigAlg) else None)
      && Means(parts, "Signature", if r.signed.Some? then Some(r.signed.value.signature) else None)
  {
    RedirectLaws.SplitJoin(parts);
    hide Means, SegmentsOf, Join, Split, Parse, ParseSegments, Spelling;
    ParseIs(parts, message);
    SegmentsMean(parts, message, Parse(Join(parts), message).value);
  }

  lemma ParseIs(parts: seq<string>, message: Param)
    requires |parts| > 0 && Split(Join(parts)) == parts
    ensures Parse(Join(parts), message) == ParseSegments(SegmentsOf(parts), message)
  {
    hide Split, Join, SegmentsOf, ParseSegments;
  }

  /** What an acceptable query is read as, by its parameters. */
  lemma AcceptedIsRead(ss: seq<Segment>, message: Param, r: Raw)
    requires ParseSegments(ss, message) == Some(r)
    ensures Single(ss, message) && Single(ss, RelayState) && Single(ss, SigAlg) && Single(ss, Signature)
    ensures
      && Some(r.message) == ValueOf(ss, message) && r.relayState == ValueOf(ss, RelayState)
      && (if r.signed.Some? then Some(r.signed.value.sigAlg) else None) == ValueOf(ss, SigAlg)
      && (if r.signed.Some? then Some(r.signed.value.signature) else None) == ValueOf(ss, Signature)
  {
    assert Single(ss, message) && Single(ss, RelayState) && Single(ss, SigAlg) && Single(ss, Signature);
    hide Matching, RawOf, Octets;
  }
}
