/**
What escaping does to each code unit, said of the unit where it stands: which are kept, which two are
read as one line ending, and how the five markup characters are spelt.
*/
module XmlCleaned {
  import opened XmlEscape

  /** XML 1.0 carries this unit, U+FFFD aside: a character by itself, or half of a pair that is all there. */
  predicate Carried(s: Text, i: int)
    requires 0 <= i < |s|
  {
    || s[i] in {0x9, 0xA, 0xD} || 0x20 <= s[i] <= 0xD7FF || 0xE000 <= s[i] <= 0xFFFC
    || (0xD800 <= s[i] <= 0xDBFF && i + 1 < |s| && 0xDC00 <= s[i + 1] <= 0xDFFF)
    || (0xDC00 <= s[i] <= 0xDFFF && i > 0 && 0xD800 <= s[i - 1] <= 0xDBFF)
  }

  /** The units of `s[..n]` that XML carries, each judged in its own place. */
  function CarriedOf(s: Text, n: nat): Text
    requires n <= |s|
  {
    if n == 0 then [] else CarriedOf(s, n - 1) + if Carried(s, n - 1) then [s[n - 1]] else []
  }

  /** The second unit of CR LF or CR NEL, which stands for nothing by itself. */
  predicate Seconds(s: Text, i: int)
    requires 0 <= i < |s|
  {
    i > 0 && s[i - 1] == 0xD && s[i] in {0xA, 0x85}
  }

  /** A unit as an XML 1.1 parser reads it: what begins a line ending is read as LF. */
  function AsRead(u: CodeUnit): CodeUnit {
    if u in {0xD, 0x85, 0x2028, 0x2029} then 0xA else u
  }

  /** `s[..n]` as read, unit by unit. */
  function ReadOf(s: Text, n: nat): Text
    requires n <= |s|
  {
    if n == 0 then [] else ReadOf(s, n - 1) + if Seconds(s, n - 1) then [] else [AsRead(s[n - 1])]
  }

  function Spelt(u: CodeUnit): Text {
    if u == 0x26 then U("&amp;") else if u == 0x3C then U("&lt;") else if u == 0x3E then U("&gt;")
    else if u == 0x22 then U("&quot;") else if u == 0x27 then U("&apos;") else [u]
  }

  function SpeltOf(s: Text): Text { if s == [] then [] else Spelt(s[0]) + SpeltOf(s[1..]) }

  lemma CarriedIs(s: Text, i: int)
    requires 0 <= i < |s|
    ensures NotXmlAt(s, i) == !Carried(s, i)
  {}

  lemma {:induction false} KeptExactly(s: Text, n: nat)
    requires n <= |s|
    ensures Kept(s, n) == CarriedOf(s, n)
  {
    if n > 0 {
      KeptExactly(s, n - 1);
      CarriedIs(s, n - 1);
    }
  }

  /** Looking ahead for the second of two, as the source does, comes to looking back for the first. */
  lemma {:induction false} LinesExactly(s: Text, i: nat)
    requires i <= |s| && (i < |s| ==> !Seconds(s, i))
    ensures ReadOf(s, |s|) == ReadOf(s, i) + Lines(s[i..])
    decreases |s| - i
  {
    if i < |s| {
      if i + 1 < |s| && Seconds(s, i + 1) {
        LinesExactly(s, i + 2);
        TwoRead(s, i);
      } else {
        LinesExactly(s, i + 1);
        OneRead(s, i);
      }
    }
  }

  lemma OneRead(s: Text, i: nat)
    requires i < |s| && !Seconds(s, i) && (i + 1 < |s| ==> !Seconds(s, i + 1))
    ensures ReadOf(s, i) + Lines(s[i..]) == ReadOf(s, i + 1) + Lines(s[i + 1..])
  {
    var rest := s[i..];
    assert rest[1..] == s[i + 1..];
    assert Lines(rest) == [AsRead(s[i])] + Lines(s[i + 1..]);
  }

  lemma TwoRead(s: Text, i: nat)
    requires i + 1 < |s| && !Seconds(s, i) && Seconds(s, i + 1)
    ensures ReadOf(s, i) + Lines(s[i..]) == ReadOf(s, i + 2) + Lines(s[i + 2..])
  {
    var rest := s[i..];
    assert rest[2..] == s[i + 2..] && rest[0] == s[i] && rest[1] == s[i + 1];
    assert ReadOf(s, i + 2) == ReadOf(s, i + 1) && ReadOf(s, i + 1) == ReadOf(s, i) + [LF];
  }

  lemma SpeltIs(u: CodeUnit)
    ensures EscapeUnit(u) == Spelt(u)
  {
    if u in {0x26, 0x3C, 0x3E, 0x22, 0x27} {
      EntityText(u);
      assert forall i :: 0 <= i < |Spelt(u)| ==> Spelt(u)[i] == Entity(u)[i];
    }
  }

  lemma {:induction false} EntitiesExactly(s: Text)
    ensures Entities(s) == SpeltOf(s)
    decreases |s|
  {
    if s != [] {
      EntitiesExactly(s[1..]);
      SpeltIs(s[0]);
      hide Spelt, EscapeUnit;
    }
  }

  /** A text is refused as an identifier exactly if some unit of it would be dropped or read as another. */
  lemma RefusedExactly(s: Text)
    ensures HasNonXmlChars(s) <==> exists i :: 0 <= i < |s| && (!Carried(s, i) || s[i] in {0xD, 0x85, 0x2028, 0x2029})
  {
    forall i | 0 <= i < |s| ensures (NotXmlAt(s, i) || EndsLine(s[i])) == (!Carried(s, i) || s[i] in {0xD, 0x85, 0x2028, 0x2029}) {
      CarriedIs(s, i);
    }
  }

  /** Any text at all: the units XML carries, of those no second half of a line ending, each as read and then spelt. */
  lemma EscapedExactly(s: Text)
    ensures var t := CarriedOf(s, |s|);
      Cleaned(s) == ReadOf(t, |t|) && EscapeXml(s) == SpeltOf(ReadOf(t, |t|))
  {
    KeptExactly(s, |s|);
    var t := CarriedOf(s, |s|);
    LinesExactly(t, 0);
    assert t[0..] == t;
    EntitiesExactly(Lines(t));
  }
}
