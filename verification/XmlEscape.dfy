/**
Escaping for XML text and attribute values, on UTF-16 code units as a JavaScript string has them:
pairs of surrogates, lone ones and all.
*/
module XmlEscape {

  type CodeUnit = u: int | 0 <= u < 0x1_0000

  type Text = seq<CodeUnit>

  /** A text of plain characters, in code units. */
  function U(s: string): (t: Text)
    ensures |t| == |s|
    ensures forall i :: 0 <= i < |s| ==> t[i] == s[i] as int % 0x1_0000
  {
    seq(|s|, i requires 0 <= i < |s| => s[i] as int % 0x1_0000)
  }

  // ---- Which characters XML carries --------------------------------------------------------------

  predicate IsHigh(u: CodeUnit) { 0xD800 <= u <= 0xDBFF }

  predicate IsLow(u: CodeUnit) { 0xDC00 <= u <= 0xDFFF }

  predicate IsHighAt(s: Text, i: int) { 0 <= i < |s| && IsHigh(s[i]) }

  predicate IsLowAt(s: Text, i: int) { 0 <= i < |s| && IsLow(s[i]) }

  /** C0 controls other than tab, LF and CR; U+FFFD, U+FFFE and U+FFFF. */
  predicate NeverXml(u: CodeUnit) {
    u <= 0x8 || u == 0xB || u == 0xC || 0xE <= u <= 0x1F || 0xFFFD <= u
  }

  /** The unit at `i` is one XML can't carry, or half of a pair whose other half isn't there. */
  predicate NotXmlAt(s: Text, i: int)
    requires 0 <= i < |s|
  {
    NeverXml(s[i]) || (IsHigh(s[i]) && !IsLowAt(s, i + 1)) || (IsLow(s[i]) && !IsHighAt(s, i - 1))
  }

  const CR := 0xD
  const LF := 0xA
  const NEL := 0x85

  /** What a line ending that parsers rewrite begins with. */
  predicate EndsLine(u: CodeUnit) { u == CR || u == NEL || u == 0x2028 || u == 0x2029 }

  predicate HasNonXmlChars(s: Text) {
    (exists i :: 0 <= i < |s| && NotXmlAt(s, i)) || exists i :: 0 <= i < |s| && EndsLine(s[i])
  }

  /** Well-formed UTF-16: surrogates come in pairs only. */
  predicate WellFormed(s: Text) {
    forall i :: 0 <= i < |s| ==> (IsHigh(s[i]) ==> IsLowAt(s, i + 1)) && (IsLow(s[i]) ==> IsHighAt(s, i - 1))
  }

  // ---- The three replacements --------------------------------------------------------------------

  /** What is left of `s[..n]`: each unit is judged where it stands in `s`. */
  function Kept(s: Text, n: nat): (t: Text)
    requires n <= |s|
  {
    if n == 0 then [] else Kept(s, n - 1) + if NotXmlAt(s, n - 1) then [] else [s[n - 1]]
  }

  /** Line endings become LF: CR, CR LF, CR NEL, NEL, LINE SEPARATOR and PARAGRAPH SEPARATOR. */
  function Lines(s: Text): (t: Text)
    decreases |s|
  {
    if s == [] then []
    else if s[0] == CR && |s| > 1 && (s[1] == LF || s[1] == NEL) then [LF] + Lines(s[2..])
    else if EndsLine(s[0]) then [LF] + Lines(s[1..])
    else [s[0]] + Lines(s[1..])
  }

  const AMP := 0x26
  const LT := 0x3C
  const GT := 0x3E
  const QUOT := 0x22
  const APOS := 0x27

  predicate IsMarkup(u: CodeUnit) { u == AMP || u == LT || u == GT || u == QUOT || u == APOS }

  function EntityName(u: CodeUnit): string
    requires IsMarkup(u)
  {
    if u == AMP then "amp" else if u == LT then "lt" else if u == GT then "gt" else if u == QUOT then "quot" else "apos"
  }

  function Entity(u: CodeUnit): Text
    requires IsMarkup(u)
  {
    [AMP] + U(EntityName(u)) + [0x3B]
  }

  function EscapeUnit(u: CodeUnit): Text { if IsMarkup(u) then Entity(u) else [u] }

  function Entities(s: Text): Text {
    if s == [] then [] else EscapeUnit(s[0]) + Entities(s[1..])
  }

  /** What an XML parser is to read. */
  function Cleaned(s: Text): Text { Lines(Kept(s, |s|)) }

  function EscapeXml(s: Text): Text { Entities(Cleaned(s)) }

  // ---- What is left is clean ---------------------------------------------------------------------

  /** Clean so far: no unit that XML can't carry, surrogates paired, perhaps the last still to be. */
  ghost predicate CleanBut(t: Text, open: bool) {
    && (forall i :: 0 <= i < |t| ==> !NeverXml(t[i]))
    && (forall i :: 0 <= i < |t| && IsHigh(t[i]) ==> IsLowAt(t, i + 1) || (open && i == |t| - 1))
    && (forall i :: 0 <= i < |t| && IsLow(t[i]) ==> IsHighAt(t, i - 1))
    && (open ==> t != [] && IsHigh(t[|t| - 1]))
  }

  /** Kept surrogates stay in pairs: the first half is kept with the second. */
  lemma {:induction false} KeptIsClean(s: Text, n: nat)
    requires n <= |s|
    ensures CleanBut(Kept(s, n), n > 0 && IsHigh(s[n - 1]) && IsLowAt(s, n))
  {
    if n > 0 {
      KeptIsClean(s, n - 1);
      var t, last := Kept(s, n - 1), s[n - 1];
      if !NotXmlAt(s, n - 1) {
        var u := t + [last];
        forall i | 0 <= i < |u| && IsHigh(u[i]) ensures IsLowAt(u, i + 1) || (IsLowAt(s, n) && i == |u| - 1) {
          if i < |t| { assert IsHigh(t[i]); }
        }
        forall i | 0 <= i < |u| && IsLow(u[i]) ensures IsHighAt(u, i - 1) {
          if i < |t| { assert IsLow(t[i]); }
        }
      }
    }
  }

  lemma {:induction false} LinesKeeps(s: Text)
    ensures forall i :: 0 <= i < |Lines(s)| ==> !EndsLine(Lines(s)[i]) && (Lines(s)[i] == LF || Lines(s)[i] in s)
    decreases |s|
  {
    if s != [] {
      LinesKeeps(if s[0] == CR && |s| > 1 && (s[1] == LF || s[1] == NEL) then s[2..] else s[1..]);
    }
  }

  /** A pair of surrogates is passed over as it is. */
  lemma {:induction false} LinesPairs(s: Text)
    requires WellFormed(s)
    ensures WellFormed(Lines(s))
    decreases |s|
  {
    if s != [] {
      var n := if s[0] == CR && |s| > 1 && (s[1] == LF || s[1] == NEL) then 2 else if IsHigh(s[0]) then 2 else 1;
      var rest := s[n..];
      TailWellFormed(s, n);
      LinesPairs(rest);
      if IsHigh(s[0]) {
        assert IsLowAt(s, 1);
        assert s[1..][1..] == rest && s[1..][0] == s[1];
        assert Lines(s) == [s[0]] + ([s[1]] + Lines(rest));
        PairFirst(s[0], s[1], Lines(rest));
      } else {
        OneFirst(Lines(s)[0], Lines(rest));
      }
    }
  }

  lemma TailWellFormed(s: Text, n: nat)
    requires WellFormed(s) && 0 < n <= |s| && !IsHigh(s[n - 1])
    ensures WellFormed(s[n..])
  {
    var t := s[n..];
    forall i | 0 <= i < |t| ensures (IsHigh(t[i]) ==> IsLowAt(t, i + 1)) && (IsLow(t[i]) ==> IsHighAt(t, i - 1)) {
      assert t[i] == s[n + i];
      if IsHigh(t[i]) { assert IsLowAt(s, n + i + 1) && t[i + 1] == s[n + i + 1]; }
      if IsLow(t[i]) {
        assert IsHighAt(s, n + i - 1);
        assert i > 0 && t[i - 1] == s[n + i - 1];
      }
    }
  }

  lemma PairFirst(a: CodeUnit, b: CodeUnit, t: Text)
    requires IsHigh(a) && IsLow(b) && WellFormed(t)
    ensures WellFormed([a] + ([b] + t))
  {
    var u := [a] + ([b] + t);
    forall i | 0 <= i < |u| ensures (IsHigh(u[i]) ==> IsLowAt(u, i + 1)) && (IsLow(u[i]) ==> IsHighAt(u, i - 1)) {
      if i >= 2 {
        assert u[i] == t[i - 2];
        if IsHigh(t[i - 2]) { assert IsLowAt(t, i - 1) && u[i + 1] == t[i - 1]; }
        if IsLow(t[i - 2]) { assert IsHighAt(t, i - 3) && u[i - 1] == t[i - 3]; }
      }
    }
  }

  lemma OneFirst(a: CodeUnit, t: Text)
    requires !IsHigh(a) && !IsLow(a) && WellFormed(t)
    ensures WellFormed([a] + t)
  {
    var u := [a] + t;
    forall i | 0 <= i < |u| ensures (IsHigh(u[i]) ==> IsLowAt(u, i + 1)) && (IsLow(u[i]) ==> IsHighAt(u, i - 1)) {
      if i >= 1 {
        assert u[i] == t[i - 1];
        if IsHigh(t[i - 1]) { assert IsLowAt(t, i) && u[i + 1] == t[i]; }
        if IsLow(t[i - 1]) { assert IsHighAt(t, i - 2) && u[i - 1] == t[i - 2]; }
      }
    }
  }

  lemma CleanedIsClean(s: Text)
    ensures !HasNonXmlChars(Cleaned(s)) && WellFormed(Cleaned(s))
  {
    var t := Kept(s, |s|);
    KeptIsClean(s, |s|);
    assert WellFormed(t);
    LinesPairs(t);
    LinesKeeps(t);
    var u := Lines(t);
    forall i | 0 <= i < |u| ensures !NotXmlAt(u, i) && !EndsLine(u[i]) {
      assert u[i] == LF || u[i] in t;
    }
  }

  /** A clean text is left as it is. */
  lemma {:induction false} CleanIsKept(s: Text, n: nat)
    requires !HasNonXmlChars(s) && n <= |s|
    ensures Kept(s, n) == s[..n]
  {
    if n > 0 {
      CleanIsKept(s, n - 1);
      assert s[..n] == s[..n - 1] + [s[n - 1]];
    }
  }

  lemma {:induction false} NoLinesNoChange(s: Text)
    requires forall i :: 0 <= i < |s| ==> !EndsLine(s[i])
    ensures Lines(s) == s
    decreases |s|
  {
    if s != [] { NoLinesNoChange(s[1..]); }
  }

  lemma CleanIsUnchanged(s: Text)
    requires !HasNonXmlChars(s)
    ensures Cleaned(s) == s
  {
    CleanIsKept(s, |s|);
    assert s[..|s|] == s;
    NoLinesNoChange(s);
  }

  // ---- Escaped, and read back --------------------------------------------------------------------

  predicate StartsWith(s: Text, t: Text) { |t| <= |s| && s[..|t|] == t }

  /** The five entities a parser knows; anything else stands for itself. */
  function First(s: Text): (r: (CodeUnit, nat))
    requires s != []
    ensures 0 < r.1 <= |s|
  {
    if StartsWith(s, Entity(AMP)) then (AMP, 5)
    else if StartsWith(s, Entity(LT)) then (LT, 4)
    else if StartsWith(s, Entity(GT)) then (GT, 4)
    else if StartsWith(s, Entity(QUOT)) then (QUOT, 6)
    else if StartsWith(s, Entity(APOS)) then (APOS, 6)
    else (s[0], 1)
  }

  function Unescape(s: Text): Text
    decreases |s|
  {
    if s == [] then [] else [First(s).0] + Unescape(s[First(s).1..])
  }

  lemma EntityText(u: CodeUnit)
    requires IsMarkup(u)
    ensures Entity(u)[0] == AMP && forall i :: 1 <= i < |Entity(u)| ==> !IsMarkup(Entity(u)[i]) && 0x3B <= Entity(u)[i] < 0x80
    ensures |Entity(u)| == if u == AMP then 5 else if u == LT || u == GT then 4 else 6
  {}

  lemma EntityLetters(u: CodeUnit)
    requires IsMarkup(u)
    ensures var e := Entity(u);
      && (u == AMP ==> e[1] == 'a' as int && e[2] == 'm' as int) && (u == APOS ==> e[1] == 'a' as int && e[2] == 'p' as int)
      && (u == LT ==> e[1] == 'l' as int) && (u == GT ==> e[1] == 'g' as int) && (u == QUOT ==> e[1] == 'q' as int)
  {}

  lemma NotStart(s: Text, t: Text, k: nat)
    requires k < |t| && k < |s| && s[k] != t[k]
    ensures !StartsWith(s, t)
  {
    if |t| <= |s| { assert s[..|t|][k] == s[k]; }
  }

  lemma EntityFirst(u: CodeUnit, rest: Text)
    requires IsMarkup(u)
    ensures First(Entity(u) + rest) == (u, |Entity(u)|)
  {
    var s := Entity(u) + rest;
    EntityText(u);
    EntityLetters(u);
    assert StartsWith(s, Entity(u));
    EntityLetters(AMP);
    EntityLetters(LT);
    EntityLetters(GT);
    EntityLetters(QUOT);
    if u == APOS { NotStart(s, Entity(AMP), 2); }
    if u == LT || u == GT || u == QUOT { NotStart(s, Entity(AMP), 1); }
    if u != LT { NotStart(s, Entity(LT), 1); }
    if u != GT { NotStart(s, Entity(GT), 1); }
    if u != QUOT { NotStart(s, Entity(QUOT), 1); }
  }

  lemma PlainFirst(u: CodeUnit, rest: Text)
    requires !IsMarkup(u)
    ensures First([u] + rest) == (u, 1)
  {
    var s := [u] + rest;
    NotStart(s, Entity(AMP), 0);
    NotStart(s, Entity(LT), 0);
    NotStart(s, Entity(GT), 0);
    NotStart(s, Entity(QUOT), 0);
    NotStart(s, Entity(APOS), 0);
  }

  lemma {:induction false} EntitiesRoundTrip(s: Text)
    ensures Unescape(Entities(s)) == s
    decreases |s|
  {
    if s != [] {
      var rest := Entities(s[1..]);
      if IsMarkup(s[0]) { EntityFirst(s[0], rest); } else { PlainFirst(s[0], rest); }
      assert (EscapeUnit(s[0]) + rest)[|EscapeUnit(s[0])|..] == rest;
      EntitiesRoundTrip(s[1..]);
      assert [s[0]] + s[1..] == s;
    }
  }

  /** A parser reads back the cleaned text; for a clean one, the text itself. */
  lemma EscapeRoundTrip(s: Text)
    ensures Unescape(EscapeXml(s)) == Cleaned(s)
    ensures !HasNonXmlChars(s) ==> Unescape(EscapeXml(s)) == s
  {
    EntitiesRoundTrip(Cleaned(s));
    if !HasNonXmlChars(s) { CleanIsUnchanged(s); }
  }

  /** No "<", ">" or quote, and "&" only where an entity begins. */
  ghost predicate NoMarkup(t: Text) {
    forall i :: 0 <= i < |t| && IsMarkup(t[i]) ==> t[i] == AMP && exists u :: IsMarkup(u) && StartsWith(t[i..], Entity(u))
  }

  lemma UnitNoMarkup(u: CodeUnit, rest: Text)
    requires NoMarkup(rest)
    ensures NoMarkup(EscapeUnit(u) + rest)
  {
    var e := EscapeUnit(u);
    var t := e + rest;
    if IsMarkup(u) { EntityText(u); }
    forall i | 0 <= i < |t| && IsMarkup(t[i]) ensures t[i] == AMP && exists v :: IsMarkup(v) && StartsWith(t[i..], Entity(v)) {
      if i < |e| {
        assert t[i] == e[i];
        assert i == 0 && IsMarkup(u);
        assert t[0..] == t && StartsWith(t, Entity(u));
      } else {
        assert t[i] == rest[i - |e|];
        assert t[i..] == rest[i - |e|..];
      }
    }
  }

  lemma {:induction false} EntitiesNoMarkup(s: Text)
    ensures NoMarkup(Entities(s))
    decreases |s|
  {
    if s != [] {
      EntitiesNoMarkup(s[1..]);
      UnitNoMarkup(s[0], Entities(s[1..]));
    }
  }

  ghost predicate Clean(t: Text) { !HasNonXmlChars(t) && WellFormed(t) }

  /** Entities are plain characters: putting them in spoils no clean text. */
  lemma {:induction false} EntitiesWellFormed(s: Text)
    requires WellFormed(s) && forall i :: 0 <= i < |s| ==> !NeverXml(s[i]) && !EndsLine(s[i])
    ensures WellFormed(Entities(s)) && forall i :: 0 <= i < |Entities(s)| ==> !NeverXml(Entities(s)[i]) && !EndsLine(Entities(s)[i])
    decreases |s|
  {
    if s != [] {
      if IsHigh(s[0]) {
        assert IsLowAt(s, 1);
        TailWellFormed(s, 2);
        EntitiesWellFormed(s[2..]);
        assert s[1..][1..] == s[2..] && s[1..][0] == s[1];
        assert Entities(s) == [s[0]] + ([s[1]] + Entities(s[2..]));
        PairFirst(s[0], s[1], Entities(s[2..]));
      } else {
        TailWellFormed(s, 1);
        EntitiesWellFormed(s[1..]);
        if IsMarkup(s[0]) { EntityText(s[0]); }
        PlainThenWellFormed(EscapeUnit(s[0]), Entities(s[1..]));
      }
    }
  }

  lemma {:induction false} PlainThenWellFormed(e: Text, t: Text)
    requires WellFormed(t) && forall i :: 0 <= i < |e| ==> !IsHigh(e[i]) && !IsLow(e[i])
    ensures WellFormed(e + t)
    decreases |e|
  {
    if e == [] {
      assert e + t == t;
    } else {
      PlainThenWellFormed(e[1..], t);
      assert e + t == [e[0]] + (e[1..] + t);
      OneFirst(e[0], e[1..] + t);
    }
  }

  /**
   * Whatever the text: escaped, it holds only what XML carries, is well-formed UTF-16, and has no
   * raw markup character.
   */
  lemma EscapedIsClean(s: Text)
    ensures Clean(EscapeXml(s)) && NoMarkup(EscapeXml(s))
  {
    var t := Cleaned(s);
    CleanedIsClean(s);
    forall i | 0 <= i < |t| ensures !NeverXml(t[i]) && !EndsLine(t[i]) { assert !NotXmlAt(t, i); }
    EntitiesWellFormed(t);
    EntitiesNoMarkup(Cleaned(s));
  }
}
