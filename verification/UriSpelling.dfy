/**
What `decodeURIComponent` makes of a text, exactly: each character is itself, or the octets of its
UTF-8 form (RFC 3629) in hexadecimal digits of either case, each after a "%"; nothing else decodes.
*/
module UriSpelling {
  import opened Optional
  import opened Uri

  predicate IsDigit(c: char, n: int)
    requires 0 <= n < 16
  {
    c == "0123456789ABCDEF"[n] || c == "0123456789abcdef"[n]
  }

  /** The octet `b`, escaped, stands at `k`. */
  predicate EscapedAt(s: string, k: nat, b: Byte) {
    k + 3 <= |s| && s[k] == '%' && IsDigit(s[k + 1], b / 16) && IsDigit(s[k + 2], b % 16)
  }

  /** `p` is one way to write `c`. */
  predicate SpellsChar(p: string, c: char) {
    || (p == [c] && c != '%')
    || (|p| == 3 * |Utf8(c)| && forall i :: 0 <= i < |Utf8(c)| ==> EscapedAt(p, 3 * i, Utf8(c)[i]))
  }

  /** `s` is one way to write `t`. */
  ghost predicate Spells(s: string, t: string)
    decreases |t|
  {
    if t == "" then s == "" else exists n :: 0 < n <= |s| && SpellsChar(s[..n], t[0]) && Spells(s[n..], t[1..])
  }

  // ---- Octets ------------------------------------------------------------------------------------

  lemma DigitIs(c: char, n: int)
    requires 0 <= n < 16
    ensures IsDigit(c, n) <==> HexValue(c) == n
  {
    if HexValue(c) == n { assert c == "0123456789ABCDEF"[n] || c == "0123456789abcdef"[n]; }
  }

  lemma EscapedIs(s: string, k: nat, b: Byte)
    requires k <= |s|
    ensures EscapedByte(s[k..]) == Some(b) <==> EscapedAt(s, k, b)
  {
    if k + 3 <= |s| {
      DigitIs(s[k + 1], b / 16);
      DigitIs(s[k + 2], b % 16);
      var h, l := HexValue(s[k + 1]), HexValue(s[k + 2]);
      assert h >= 0 && l >= 0 ==> (h * 16 + l) / 16 == h && (h * 16 + l) % 16 == l;
    }
  }

  lemma {:induction false} AllEscapedIs(s: string, k: nat, bytes: seq<Byte>)
    requires k <= |s|
    ensures EscapedBytes(s[k..], |bytes|) == Some(bytes) <==> forall i :: 0 <= i < |bytes| ==> EscapedAt(s, k + 3 * i, bytes[i])
    decreases |bytes|
  {
    if bytes != [] {
      EscapedIs(s, k, bytes[0]);
      assert s[k..] == s[k..][0..];
      if EscapedAt(s, k, bytes[0]) {
        AllEscapedIs(s, k + 3, bytes[1..]);
        AllFrom(s, k, bytes);
        hide EscapedAt, EscapedByte, EscapedBytes;
        EscapedRest(s, k, bytes);
      } else {
        hide EscapedByte, EscapedAt;
        if EscapedBytes(s[k..], |bytes|) == Some(bytes) { EscapedFirst(s[k..], bytes); }
        assert !EscapedAt(s, k + 3 * 0, bytes[0]);
      }
    }
  }

  lemma EscapedFirst(s: string, bytes: seq<Byte>)
    requires bytes != [] && EscapedBytes(s, |bytes|) == Some(bytes)
    ensures EscapedByte(s) == Some(bytes[0])
  {
    hide EscapedByte;
  }

  lemma EscapedRest(s: string, k: nat, bytes: seq<Byte>)
    requires bytes != [] && k + 3 <= |s| && EscapedByte(s[k..]) == Some(bytes[0])
    ensures EscapedBytes(s[k..], |bytes|) == Some(bytes) <==> EscapedBytes(s[k + 3..], |bytes| - 1) == Some(bytes[1..])
  {
    hide EscapedByte;
    assert s[k..][3..] == s[k + 3..];
    assert [bytes[0]] + bytes[1..] == bytes;
  }

  lemma AllFrom(s: string, k: nat, bytes: seq<Byte>)
    requires bytes != [] && EscapedAt(s, k, bytes[0])
    ensures (forall i :: 0 <= i < |bytes| ==> EscapedAt(s, k + 3 * i, bytes[i])) <==>
      (forall i :: 0 <= i < |bytes[1..]| ==> EscapedAt(s, k + 3 + 3 * i, bytes[1..][i]))
  {
    if forall i :: 0 <= i < |bytes[1..]| ==> EscapedAt(s, k + 3 + 3 * i, bytes[1..][i]) {
      forall i | 0 <= i < |bytes| ensures EscapedAt(s, k + 3 * i, bytes[i]) {
        if i > 0 { assert EscapedAt(s, k + 3 + 3 * (i - 1), bytes[1..][i - 1]); }
      }
    }
    if forall i :: 0 <= i < |bytes| ==> EscapedAt(s, k + 3 * i, bytes[i]) {
      forall i | 0 <= i < |bytes[1..]| ensures EscapedAt(s, k + 3 + 3 * i, bytes[1..][i]) { assert EscapedAt(s, k + 3 * (i + 1), bytes[i + 1]); }
    }
  }

  // ---- Characters --------------------------------------------------------------------------------

  lemma Digit64(h: int, l: int)
    requires 0 <= l < 64
    ensures (h * 64 + l) / 64 == h && (h * 64 + l) % 64 == l
  {}

  lemma Three(a: int, b: int, c: int)
    requires 0 <= b < 64 && 0 <= c < 64
    ensures var u := a * 4096 + b * 64 + c; u / 4096 == a && u / 64 % 64 == b && u % 64 == c
  {
    Digit64(a * 64 + b, c);
    Digit64(a, b);
    assert (a * 4096 + b * 64 + c) / 4096 == (a * 4096 + b * 64 + c) / 64 / 64;
  }

  lemma Four(a: int, b: int, c: int, d: int)
    requires 0 <= b < 64 && 0 <= c < 64 && 0 <= d < 64
    ensures var u := a * 262144 + b * 4096 + c * 64 + d; u / 262144 == a && u / 4096 % 64 == b && u / 64 % 64 == c && u % 64 == d
  {
    var u := a * 262144 + b * 4096 + c * 64 + d;
    Digit64((a * 64 + b) * 64 + c, d);
    Three(a, b, c);
    assert u / 64 == a * 4096 + b * 64 + c && u / 4096 == u / 64 / 64 && u / 262144 == u / 64 / 4096;
  }

  /** Whole octets with a scalar value are its UTF-8 form: no longer form, no surrogate, nothing else. */
  lemma ScalarIsUtf8(bytes: seq<Byte>)
    requires 1 <= |bytes| <= 4 && SequenceLength(bytes[0]) == |bytes| && Scalar(bytes).Some?
    ensures Utf8(Scalar(bytes).value) == bytes
  {
    var b: seq<int> := bytes;
    assert forall i :: 1 <= i < |bytes| ==> IsContinuation(bytes[i]);
    if |b| == 2 {
      Digit64(b[0] - 0xC0, b[1] - 0x80);
    } else if |b| == 3 {
      Three(b[0] - 0xE0, b[1] - 0x80, b[2] - 0x80);
    } else if |b| == 4 {
      Four(b[0] - 0xF0, b[1] - 0x80, b[2] - 0x80, b[3] - 0x80);
    }
  }

  /** The first character of a text that decodes, and how much of it is its spelling. */
  lemma FirstIs(s: string, c: char, n: nat)
    requires s != "" && n <= |s|
    ensures First(s) == Some(Taken(c, n)) <==> SpellsChar(s[..n], c)
  {
    if s[0] == '%' {
      if First(s) == Some(Taken(c, n)) { FirstSpells(s, c, n); }
      if SpellsChar(s[..n], c) { SpelledFirst(s, c, n); }
    }
  }

  lemma FirstSpells(s: string, c: char, n: nat)
    requires s != "" && n <= |s| && s[0] == '%' && First(s) == Some(Taken(c, n))
    ensures SpellsChar(s[..n], c)
  {
    assert s[0..] == s;
    var b := EscapedByte(s).value;
    var bytes := EscapedBytes(s, SequenceLength(b)).value;
    assert bytes[0] == b;
    ScalarIsUtf8(bytes);
    AllEscapedIs(s, 0, bytes);
    forall i | 0 <= i < |bytes| ensures EscapedAt(s[..n], 3 * i, bytes[i]) { assert EscapedAt(s, 0 + 3 * i, bytes[i]); }
  }

  lemma SpelledFirst(s: string, c: char, n: nat)
    requires s != "" && n <= |s| && s[0] == '%' && SpellsChar(s[..n], c)
    ensures First(s) == Some(Taken(c, n))
  {
    assert s[0..] == s;
    var bytes := Utf8(c);
    assert s[..n] != [c] || c == '%';
    forall i | 0 <= i < |bytes| ensures EscapedAt(s, 0 + 3 * i, bytes[i]) { assert EscapedAt(s[..n], 3 * i, bytes[i]); }
    AllEscapedIs(s, 0, bytes);
    assert EscapedAt(s, 0 + 3 * 0, bytes[0]);
    EscapedIs(s, 0, bytes[0]);
    Utf8RoundTrip(c);
  }

  /** A text decodes to another exactly if it is a way to write it. */
  lemma {:induction false} DecodesExactly(s: string, t: string)
    ensures Decode(s) == Some(t) <==> Spells(s, t)
    decreases |s|
  {
    if s != "" && t != "" {
      if Decode(s) == Some(t) {
        var n := First(s).value.length;
        FirstIs(s, t[0], n);
        assert Decode(s[n..]).value == t[1..];
        DecodesExactly(s[n..], t[1..]);
      }
      if n :| 0 < n <= |s| && SpellsChar(s[..n], t[0]) && Spells(s[n..], t[1..]) {
        FirstIs(s, t[0], n);
        DecodesExactly(s[n..], t[1..]);
        assert [t[0]] + t[1..] == t;
      }
    }
  }
}
