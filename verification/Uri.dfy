/**
Percent-encoding as `encodeURIComponent` and `decodeURIComponent` do it: UTF-8 bytes written "%XX".
Texts are sequences of Unicode scalar values.
*/
module Uri {
  import opened Optional

  type Byte = b: int | 0 <= b < 256

  // ---- UTF-8 -----------------------------------------------------------------------------------

  function Utf8(c: char): (bytes: seq<Byte>)
    ensures 1 <= |bytes| <= 4
  {
    var u := c as int;
    if u < 0x80 then [u]
    else if u < 0x800 then [0xC0 + u / 64, 0x80 + u % 64]
    else if u < 0x1_0000 then [0xE0 + u / 4096, 0x80 + u / 64 % 64, 0x80 + u % 64]
    else [0xF0 + u / 262144, 0x80 + u / 4096 % 64, 0x80 + u / 64 % 64, 0x80 + u % 64]
  }

  predicate IsContinuation(b: Byte) { 0x80 <= b < 0xC0 }

  predicate IsScalar(u: int) { 0 <= u < 0xD800 || 0xE000 <= u < 0x11_0000 }

  /** How many bytes the sequence that begins with `b` has; 0: no sequence begins so. */
  function SequenceLength(b: Byte): (n: nat)
    ensures n <= 4
  {
    if b < 0x80 then 1 else if b < 0xC0 then 0 else if b < 0xE0 then 2 else if b < 0xF0 then 3 else if b < 0xF8 then 4 else 0
  }

  function Combined(bytes: seq<Byte>): int
    requires 1 <= |bytes| <= 4
  {
    var b: seq<int> := bytes;
    match |b|
    case 1 => b[0]
    case 2 => (b[0] - 0xC0) * 64 + (b[1] - 0x80)
    case 3 => (b[0] - 0xE0) * 4096 + (b[1] - 0x80) * 64 + (b[2] - 0x80)
    case _ => (b[0] - 0xF0) * 262144 + (b[1] - 0x80) * 4096 + (b[2] - 0x80) * 64 + (b[3] - 0x80)
  }

  /** The least value that needs `n` bytes. */
  function Least(n: nat): int {
    match n case 2 => 0x80 case 3 => 0x800 case 4 => 0x1_0000 case _ => 0
  }

  /** The scalar value of one whole sequence: the shortest form only, and no surrogate. */
  function Scalar(bytes: seq<Byte>): Option<char>
    requires 1 <= |bytes| <= 4
  {
    if exists i :: 1 <= i < |bytes| && !IsContinuation(bytes[i]) then None
    else if Combined(bytes) < Least(|bytes|) || !IsScalar(Combined(bytes)) then None
    else Some(Combined(bytes) as char)
  }

  lemma DigitsCombine(u: int)
    requires 0 <= u
    ensures u == (u / 64) * 64 + u % 64
    ensures u == (u / 4096) * 4096 + (u / 64 % 64) * 64 + u % 64
    ensures u == (u / 262144) * 262144 + (u / 4096 % 64) * 4096 + (u / 64 % 64) * 64 + u % 64
  {
    assert u / 4096 == u / 64 / 64 && u / 262144 == u / 4096 / 64;
  }

  lemma Utf8Combines(c: char)
    ensures Combined(Utf8(c)) == c as int && Least(|Utf8(c)|) <= c as int
    ensures SequenceLength(Utf8(c)[0]) == |Utf8(c)|
  {
    DigitsCombine(c as int);
  }

  lemma Utf8RoundTrip(c: char)
    ensures SequenceLength(Utf8(c)[0]) == |Utf8(c)| && Scalar(Utf8(c)) == Some(c)
  {
    Utf8Combines(c);
    assert IsScalar(c as int);
    assert forall i :: 1 <= i < |Utf8(c)| ==> IsContinuation(Utf8(c)[i]);
  }

  // ---- Escapes ---------------------------------------------------------------------------------

  function HexDigit(n: int): char
    requires 0 <= n < 16
  {
    "0123456789ABCDEF"[n]
  }

  function HexValue(c: char): (n: int)
    ensures -1 <= n < 16
  {
    if '0' <= c <= '9' then c as int - '0' as int
    else if 'A' <= c <= 'F' then c as int - 'A' as int + 10
    else if 'a' <= c <= 'f' then c as int - 'a' as int + 10
    else -1
  }

  function Escape(b: Byte): string { ['%', HexDigit(b / 16), HexDigit(b % 16)] }

  function Escapes(bytes: seq<Byte>): string {
    if bytes == [] then "" else Escape(bytes[0]) + Escapes(bytes[1..])
  }

  predicate Unreserved(c: char) {
    || 'A' <= c <= 'Z' || 'a' <= c <= 'z' || '0' <= c <= '9'
    || c in "-_.!~*'()"
  }

  function EncodeChar(c: char): string { if Unreserved(c) then [c] else Escapes(Utf8(c)) }

  function Encode(s: string): string {
    if s == "" then "" else EncodeChar(s[0]) + Encode(s[1..])
  }

  /** The byte escaped at the start of `s`. */
  function EscapedByte(s: string): Option<Byte> {
    if |s| < 3 || s[0] != '%' || HexValue(s[1]) < 0 || HexValue(s[2]) < 0 then None
    else Some(HexValue(s[1]) * 16 + HexValue(s[2]))
  }

  function EscapedBytes(s: string, n: nat): (r: Option<seq<Byte>>)
    ensures r.Some? ==> |r.value| == n && 3 * n <= |s|
  {
    if n == 0 then Some([])
    else
      var b := EscapedByte(s);
      if b.None? then None
      else
        var rest := EscapedBytes(s[3..], n - 1);
        if rest.None? then None else Some([b.value] + rest.value)
  }

  datatype Taken = Taken(c: char, length: nat)

  /** The first character of `s`, decoded, and how much of `s` it takes. */
  function First(s: string): (r: Option<Taken>)
    requires s != ""
    ensures r.Some? ==> 0 < r.value.length <= |s|
  {
    if s[0] != '%' then Some(Taken(s[0], 1))
    else
      var b := EscapedByte(s);
      if b.None? then None
      else
        var n := SequenceLength(b.value);
        var bytes := EscapedBytes(s, n);
        if n == 0 || bytes.None? then None
        else
          assert bytes.value[0] == b.value;
          var c := Scalar(bytes.value);
          if c.None? then None else Some(Taken(c.value, 3 * n))
  }

  function Decode(s: string): Option<string>
    decreases |s|
  {
    if s == "" then Some("")
    else
      var f := First(s);
      if f.None? then None
      else
        var rest := Decode(s[f.value.length..]);
        if rest.None? then None else Some([f.value.c] + rest.value)
  }

  // ---- The round trip ----------------------------------------------------------------------------

  lemma HexRoundTrip(n: int)
    requires 0 <= n < 16
    ensures HexValue(HexDigit(n)) == n
  {}

  lemma EscapeRoundTrip(b: Byte, rest: string)
    ensures EscapedByte(Escape(b) + rest) == Some(b)
  {
    HexRoundTrip(b / 16);
    HexRoundTrip(b % 16);
  }

  lemma {:induction false} EscapesLength(bytes: seq<Byte>)
    ensures |Escapes(bytes)| == 3 * |bytes|
  {
    if bytes != [] { EscapesLength(bytes[1..]); }
  }

  lemma EscapesStep(b: Byte, more: seq<Byte>, t: string)
    requires EscapedBytes(t, |more|) == Some(more)
    ensures EscapedBytes(Escape(b) + t, |more| + 1) == Some([b] + more)
  {
    EscapeRoundTrip(b, t);
    assert (Escape(b) + t)[3..] == t;
  }

  lemma EscapesFirst(bytes: seq<Byte>, rest: string)
    requires bytes != []
    ensures Escapes(bytes) + rest == Escape(bytes[0]) + (Escapes(bytes[1..]) + rest) && [bytes[0]] + bytes[1..] == bytes
  {
    Regrouped(Escape(bytes[0]), Escapes(bytes[1..]), rest);
  }

  lemma Regrouped(a: string, b: string, c: string)
    ensures (a + b) + c == a + (b + c)
  {}

  lemma {:induction false} EscapesRoundTrip(bytes: seq<Byte>, rest: string)
    ensures EscapedBytes(Escapes(bytes) + rest, |bytes|) == Some(bytes)
    decreases |bytes|
  {
    if bytes != [] {
      EscapesRoundTrip(bytes[1..], rest);
      EscapesStep(bytes[0], bytes[1..], Escapes(bytes[1..]) + rest);
      EscapesFirst(bytes, rest);
    }
  }

  lemma FirstRoundTrip(c: char, rest: string)
    ensures EncodeChar(c) + rest != ""
    ensures First(EncodeChar(c) + rest) == Some(Taken(c, |EncodeChar(c)|))
  {
    if !Unreserved(c) { FirstEscaped(c, Utf8(c), Escapes(Utf8(c)) + rest, rest); }
  }

  lemma FirstEscaped(c: char, bytes: seq<Byte>, s: string, rest: string)
    requires bytes == Utf8(c) && s == Escapes(bytes) + rest
    ensures s != "" && First(s) == Some(Taken(c, |Escapes(bytes)|))
  {
    Utf8RoundTrip(c);
    EscapesLength(bytes);
    EscapesRoundTrip(bytes, rest);
    EscapesFirst(bytes, rest);
    EscapeRoundTrip(bytes[0], Escapes(bytes[1..]) + rest);
  }

  /** Decoding gives back every text that was encoded. */
  lemma {:induction false} RoundTrip(s: string)
    ensures Decode(Encode(s)) == Some(s)
  {
    if s != "" {
      FirstRoundTrip(s[0], Encode(s[1..]));
      assert (EncodeChar(s[0]) + Encode(s[1..]))[|EncodeChar(s[0])|..] == Encode(s[1..]);
      RoundTrip(s[1..]);
      assert [s[0]] + s[1..] == s;
    }
  }

  predicate Safe(c: char) { Unreserved(c) || c == '%' }

  lemma {:induction false} EscapesAreSafe(bytes: seq<Byte>)
    ensures forall i :: 0 <= i < |Escapes(bytes)| ==> Safe(Escapes(bytes)[i])
  {
    if bytes != [] { EscapesAreSafe(bytes[1..]); }
  }

  /** An encoded text holds no "&", "=" or "+" (nor anything else a query gives a meaning). */
  lemma {:induction false} EncodedIsSafe(s: string)
    ensures forall i :: 0 <= i < |Encode(s)| ==> Safe(Encode(s)[i])
  {
    if s != "" {
      EscapesAreSafe(Utf8(s[0]));
      EncodedIsSafe(s[1..]);
    }
  }

  /** A text of plain characters stands for itself. */
  lemma {:induction false} PlainDecodes(s: string)
    requires forall i :: 0 <= i < |s| ==> s[i] != '%'
    ensures Decode(s) == Some(s)
  {
    if s != "" {
      PlainDecodes(s[1..]);
      assert [s[0]] + s[1..] == s;
    }
  }
}
