/**
How an XML parser reads the value of an attribute: line ends and tabs as blanks, references as what
they stand for (sections 2.11, 3.3.3 and 4.1 of XML 1.0). The value of a namespace declaration, read
so, is the name of the namespace.
*/
module XmlReading {
  import opened Optional
  import opened XmlText

  // ---- References --------------------------------------------------------------------------------

  predicate IsXmlChar(n: nat) {
    n == 0x9 || n == 0xA || n == 0xD || 0x20 <= n <= 0xD7FF || 0xE000 <= n <= 0xFFFD || 0x1_0000 <= n <= 0x10_FFFF
  }

  function DigitOf(c: char, base: nat): (d: Option<nat>)
    ensures d.Some? ==> c != ';'
  {
    if '0' <= c <= '9' then Some(c as int - '0' as int)
    else if base == 16 && 'a' <= c <= 'f' then Some(c as int - 'a' as int + 10)
    else if base == 16 && 'A' <= c <= 'F' then Some(c as int - 'A' as int + 10)
    else None
  }

  function DigitsEnd(s: string, k: nat, base: nat): (n: nat)
    requires k <= |s|
    ensures k <= n <= |s| && forall i :: k <= i < n ==> DigitOf(s[i], base).Some?
    ensures n < |s| ==> DigitOf(s[n], base).None?
    decreases |s| - k
  {
    if k < |s| && DigitOf(s[k], base).Some? then DigitsEnd(s, k + 1, base) else k
  }

  function NumberOf(s: string, base: nat): nat
    requires forall i :: 0 <= i < |s| ==> DigitOf(s[i], base).Some?
  {
    if s == "" then 0 else NumberOf(s[..|s| - 1], base) * base + DigitOf(s[|s| - 1], base).value
  }

  /** What a reference stands for, and how long it is. */
  datatype Reading = Reading(c: char, length: nat)

  /** The reference by number whose digits begin at `k`. */
  function ByNumber(s: string, k: nat, base: nat): (r: Option<Reading>)
    requires k <= |s|
    ensures r.Some? ==> k < r.value.length <= |s|
  {
    var n := DigitsEnd(s, k, base);
    if n == k || n == |s| || s[n] != ';' || !IsXmlChar(NumberOf(s[k..n], base)) then None
    else Some(Reading(NumberOf(s[k..n], base) as char, n + 1))
  }

  /** The reference that `s` begins with. Without a document type only these five entities have names. */
  function Reference(s: string): (r: Option<Reading>)
    ensures r.Some? ==> s != "" && s[0] == '&' && 0 < r.value.length <= |s|
  {
    if s == "" || s[0] != '&' then None
    else if At(s, 0, "&lt;") then Some(Reading('<', 4))
    else if At(s, 0, "&gt;") then Some(Reading('>', 4))
    else if At(s, 0, "&amp;") then Some(Reading('&', 5))
    else if At(s, 0, "&apos;") then Some(Reading('\'', 6))
    else if At(s, 0, "&quot;") then Some(Reading('"', 6))
    else if At(s, 0, "&#x") then ByNumber(s, 3, 16)
    else if At(s, 0, "&#") then ByNumber(s, 2, 10)
    else None
  }

  // ---- Values ------------------------------------------------------------------------------------

  function Blank(c: char): char { if c == '\t' || c == '\n' || c == '\r' then ' ' else c }

  /**
   * A value as it is read. An "&" that begins no reference stands for itself here; a parser refuses the
   * document.
   */
  function ReadValue(s: string): string {
    if s == "" then ""
    else
      var r := Reference(s);
      if r.Some? then [r.value.c] + ReadValue(s[r.value.length..])
      else if At(s, 0, "\r\n") then " " + ReadValue(s[2..])
      else [Blank(s[0])] + ReadValue(s[1..])
  }

  /** Nothing in it is read as anything else. */
  predicate IsPlain(s: string) {
    forall i :: 0 <= i < |s| ==> s[i] != '&' && s[i] != '\t' && s[i] != '\n' && s[i] != '\r'
  }

  lemma Differs(s: string, name: string, k: nat)
    requires k < |s| && k < |name| && s[k] != name[k]
    ensures !At(s, 0, name)
  {}

  lemma {:induction false} PlainIsRead(s: string)
    requires IsPlain(s)
    ensures ReadValue(s) == s
  {
    if s != "" {
      Differs(s, "\r\n", 0);
      PlainIsRead(s[1..]);
    }
  }

  // ---- Every text has another spelling -------------------------------------------------------------

  function DigitChar(d: nat): char
    requires d < 10
  {
    ('0' as int + d) as char
  }

  function Decimal(n: nat): (s: string)
    ensures s != "" && forall i :: 0 <= i < |s| ==> '0' <= s[i] <= '9'
  {
    if n < 10 then [DigitChar(n)] else Decimal(n / 10) + [DigitChar(n % 10)]
  }

  lemma {:induction false} DecimalIsRead(n: nat)
    ensures (forall i :: 0 <= i < |Decimal(n)| ==> DigitOf(Decimal(n)[i], 10).Some?) && NumberOf(Decimal(n), 10) == n
  {
    if n >= 10 {
      DecimalIsRead(n / 10);
      assert Decimal(n)[..|Decimal(n)| - 1] == Decimal(n / 10);
    } else {
      assert Decimal(n)[..0] == "";
    }
  }

  /** A character by its number. */
  function Spelt(c: char): string { "&#" + Decimal(c as int) + ";" }

  function SpellOut(s: string): string {
    if s == "" then "" else Spelt(s[0]) + SpellOut(s[1..])
  }

  predicate XmlChars(s: string) { forall i :: 0 <= i < |s| ==> IsXmlChar(s[i] as int) }

  lemma {:induction false} DigitsEndAt(s: string, k: nat, n: nat)
    requires k <= n < |s| && (forall i :: k <= i < n ==> '0' <= s[i] <= '9') && s[n] == ';'
    ensures DigitsEnd(s, k, 10) == n
    decreases n - k
  {
    if k < n { DigitsEndAt(s, k + 1, n); }
  }

  lemma SpeltNumber(s: string, digits: string, rest: string)
    requires s == "&#" + (digits + (";" + rest)) && digits != "" && forall i :: 0 <= i < |digits| ==> '0' <= digits[i] <= '9'
    ensures var n := 2 + |digits|; n < |s| && s[n] == ';' && DigitsEnd(s, 2, 10) == n && s[2..n] == digits && s[0..2] == "&#"
  {
    var n := 2 + |digits|;
    assert forall i :: 2 <= i < n ==> s[i] == digits[i - 2];
    DigitsEndAt(s, 2, n);
  }

  lemma SpeltIsRead(c: char, rest: string)
    requires IsXmlChar(c as int)
    ensures Reference(Spelt(c) + rest) == Some(Reading(c, |Spelt(c)|))
  {
    hide Decimal, Reference, DigitsEnd, NumberOf;
    var s, digits := Spelt(c) + rest, Decimal(c as int);
    assert s == "&#" + (digits + (";" + rest));
    SpeltNumber(s, digits, rest);
    assert s[2] == digits[0];
    NotNamed(s);
    DecimalIsRead(c as int);
  }

  lemma NotNamed(s: string)
    requires |s| > 2 && s[0] == '&' && s[1] == '#' && '0' <= s[2] <= '9'
    ensures Reference(s) == ByNumber(s, 2, 10)
  {
    Differs(s, "&lt;", 1);
    Differs(s, "&gt;", 1);
    Differs(s, "&amp;", 1);
    Differs(s, "&apos;", 1);
    Differs(s, "&quot;", 1);
    Differs(s, "&#x", 2);
    assert s[0..2] == "&#";
  }

  /** A text spelt out by numbers is read as the text. */
  lemma {:induction false} SpellingIsRead(s: string)
    requires XmlChars(s)
    ensures ReadValue(SpellOut(s)) == s
  {
    if s != "" {
      SpeltIsRead(s[0], SpellOut(s[1..]));
      assert SpellOut(s)[|Spelt(s[0])|..] == SpellOut(s[1..]);
      SpellingIsRead(s[1..]);
    }
  }

  lemma {:induction false} SpellingIsWritable(s: string)
    ensures forall i :: 0 <= i < |SpellOut(s)| ==> SpellOut(s)[i] != '"'
  {
    if s != "" { SpellingIsWritable(s[1..]); }
  }

  lemma SpellingDiffers(s: string)
    requires s != "" && IsPlain(s)
    ensures SpellOut(s) != s
  {
    assert SpellOut(s)[0] == '&';
  }
}
