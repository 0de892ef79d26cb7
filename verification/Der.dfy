/**
The DER encoder behind a generated certificate (ITU-T X.690): lengths, integers, object identifiers
and nested values, with the decoder that reads only canonical forms.

`LIMIT`: JavaScript shifts are on 32 bits; the encoder's numbers stay below.
*/
module Der {
  import opened Optional

  type Byte = b: int | 0 <= b < 256

  type Bytes = seq<Byte>

  const LIMIT := 0x8000_0000

  // ---- Digits ------------------------------------------------------------------------------------

  /** The number's digits to base 256, none for zero. */
  function Digits(n: nat): Bytes {
    if n == 0 then [] else Digits(n / 256) + [n % 256]
  }

  function Value(bytes: Bytes): nat {
    if bytes == [] then 0 else Value(bytes[..|bytes| - 1]) * 256 + bytes[|bytes| - 1]
  }

  lemma {:induction false} DigitsValue(n: nat)
    ensures Value(Digits(n)) == n && (n > 0 ==> Digits(n) != [] && Digits(n)[0] != 0)
  {
    if n > 0 {
      DigitsValue(n / 256);
      assert Digits(n)[..|Digits(n)| - 1] == Digits(n / 256);
    }
  }

  lemma {:induction false} DigitsAreFew(n: nat, k: nat)
    requires n < Power(k)
    ensures |Digits(n)| <= k
  {
    if n > 0 { DigitsAreFew(n / 256, k - 1); }
  }

  function Power(k: nat): nat { if k == 0 then 1 else 256 * Power(k - 1) }

  /** Digits without a leading zero are those of their value. */
  lemma {:induction false} ValueDigits(bytes: Bytes)
    requires bytes != [] ==> bytes[0] != 0
    ensures Digits(Value(bytes)) == bytes
    decreases |bytes|
  {
    if bytes != [] {
      var n := |bytes| - 1;
      ValueDigits(bytes[..n]);
      if n > 0 { ValuePositive(bytes[..n]); }
      assert bytes == bytes[..n] + [bytes[n]];
    }
  }

  lemma {:induction false} ValuePositive(bytes: Bytes)
    requires bytes != [] && bytes[0] != 0
    ensures Value(bytes) > 0
    decreases |bytes|
  {
    if |bytes| > 1 { ValuePositive(bytes[..|bytes| - 1]); }
  }

  // ---- Lengths (section 10.1) --------------------------------------------------------------------

  function Length(n: nat): Bytes
    requires n < LIMIT
  {
    if n < 0x80 then [n]
    else
      DigitsAreFew(n, 4);
      [0x80 + |Digits(n)|] + Digits(n)
  }

  method EncodeLength(n: nat) returns (r: Bytes)
    requires n < LIMIT
    ensures r == Length(n)
  {
    if n < 0x80 { return [n]; }
    var bytes: Bytes := [];
    var v := n;
    while v > 0
      invariant Digits(n) == Digits(v) + bytes
      decreases v
    {
      bytes := [v % 256] + bytes;
      v := v / 256;
    }
    assert Digits(0) + bytes == bytes;
    DigitsAreFew(n, 4);
    r := [0x80 + |bytes|] + bytes;
  }

  datatype Decoded<+T> = Decoded(value: T, used: nat)

  /** Reads the shortest form only, of at most four octets after the first. */
  function DecodeLength(s: Bytes): (r: Option<Decoded<nat>>)
    ensures r.Some? ==> 0 < r.value.used <= |s|
  {
    if s == [] then None
    else if s[0] < 0x80 then Some(Decoded(s[0], 1))
    else
      var k := s[0] - 0x80;
      if k == 0 || k > 4 || |s| < 1 + k || s[1] == 0 || (k == 1 && s[1] < 0x80) then None
      else Some(Decoded(Value(s[1..1 + k]), 1 + k))
  }

  lemma LengthRoundTrip(n: nat, rest: Bytes)
    requires n < LIMIT
    ensures DecodeLength(Length(n) + rest) == Some(Decoded(n, |Length(n)|))
  {
    if n >= 0x80 {
      DigitsValue(n);
      DigitsAreFew(n, 4);
      var k := |Digits(n)|;
      assert (Length(n) + rest)[1..1 + k] == Digits(n);
      if k == 1 { assert Digits(n) == [n]; }
    }
  }

  /** Only what the encoder writes is read: each length has one form, and it is the shortest. */
  lemma LengthIsCanonical(s: Bytes)
    requires DecodeLength(s).Some? && DecodeLength(s).value.value < LIMIT
    ensures var d := DecodeLength(s).value; s[..d.used] == Length(d.value)
  {
    if s[0] >= 0x80 {
      var k := s[0] - 0x80;
      ValueDigits(s[1..1 + k]);
      LongIsLarge(s[1..1 + k]);
    }
  }

  lemma LongIsLarge(bytes: Bytes)
    requires bytes != [] && bytes[0] != 0 && (|bytes| == 1 ==> bytes[0] >= 0x80)
    ensures Value(bytes) >= 0x80
  {
    if |bytes| > 1 {
      ValuePositive(bytes[..|bytes| - 1]);
      assert bytes[..|bytes| - 1][0] == bytes[0];
    } else {
      assert bytes[..0] == [];
    }
  }

  // ---- Tag, length, value ------------------------------------------------------------------------

  function Tlv(tag: Byte, body: Bytes): Bytes
    requires |body| < LIMIT
  {
    [tag] + Length(|body|) + body
  }

  datatype Item = Item(tag: Byte, body: Bytes)

  function DecodeTlv(s: Bytes): (r: Option<Decoded<Item>>)
    ensures r.Some? ==> 0 < r.value.used <= |s| && |r.value.value.body| < r.value.used
  {
    if s == [] then None
    else
      var l := DecodeLength(s[1..]);
      if l.None? || |s| < 1 + l.value.used + l.value.value then None
      else
        var start := 1 + l.value.used;
        Some(Decoded(Item(s[0], s[start..start + l.value.value]), start + l.value.value))
  }

  lemma TlvRoundTrip(tag: Byte, body: Bytes, rest: Bytes)
    requires |body| < LIMIT
    ensures DecodeTlv(Tlv(tag, body) + rest) == Some(Decoded(Item(tag, body), |Tlv(tag, body)|))
  {
    var s := Tlv(tag, body) + rest;
    assert s[1..] == Length(|body|) + (body + rest);
    LengthRoundTrip(|body|, body + rest);
    var start := 1 + |Length(|body|)|;
    assert s[start..start + |body|] == body;
  }

  function WriteAll(items: seq<Item>): Bytes
    requires forall i :: 0 <= i < |items| ==> |items[i].body| < LIMIT
  {
    if items == [] then [] else Tlv(items[0].tag, items[0].body) + WriteAll(items[1..])
  }

  function ReadAll(s: Bytes): Option<seq<Item>>
    decreases |s|
  {
    if s == [] then Some([])
    else
      var d := DecodeTlv(s);
      if d.None? then None
      else
        var rest := ReadAll(s[d.value.used..]);
        if rest.None? then None else Some([d.value.value] + rest.value)
  }

  /** Values written one after another are told apart again, so what is written is read one way only. */
  lemma {:induction false} AllRoundTrip(items: seq<Item>)
    requires forall i :: 0 <= i < |items| ==> |items[i].body| < LIMIT
    ensures ReadAll(WriteAll(items)) == Some(items)
    decreases |items|
  {
    if items != [] {
      var first, rest := Tlv(items[0].tag, items[0].body), WriteAll(items[1..]);
      TlvRoundTrip(items[0].tag, items[0].body, rest);
      AllRoundTrip(items[1..]);
      assert (first + rest)[|first|..] == rest;
      assert [items[0]] + items[1..] == items;
    }
  }

  lemma WrittenOneWay(a: seq<Item>, b: seq<Item>)
    requires forall i :: 0 <= i < |a| ==> |a[i].body| < LIMIT
    requires forall i :: 0 <= i < |b| ==> |b[i].body| < LIMIT
    requires WriteAll(a) == WriteAll(b)
    ensures a == b
  {
    AllRoundTrip(a);
    AllRoundTrip(b);
  }

  // ---- Integers (section 8.3) --------------------------------------------------------------------

  /** An unsigned number's octets without superfluous zeros, and one in front where the sign needs it. */
  function IntegerBody(b: Bytes): Bytes {
    if |b| > 1 && b[0] == 0 && b[1] < 0x80 then IntegerBody(b[1..])
    else if b != [] && b[0] >= 0x80 then [0] + b
    else b
  }

  method EncodeInteger(b: Bytes) returns (body: Bytes)
    ensures body == IntegerBody(b)
  {
    var v := b;
    while |v| > 1 && v[0] == 0 && v[1] < 0x80
      invariant IntegerBody(v) == IntegerBody(b)
      decreases |v|
    {
      v := v[1..];
    }
    if v != [] && v[0] >= 0x80 { v := [0] + v; }
    body := v;
  }

  /** Two's complement. */
  function Signed(body: Bytes): int
    requires body != []
  {
    if body[0] < 0x80 then Value(body) else Value(body) - Power(|body|)
  }

  /** Section 8.3.2: the first nine bits are not all the same. */
  predicate IsMinimal(body: Bytes) {
    body != [] && (|body| > 1 ==> !(body[0] == 0 && body[1] < 0x80) && !(body[0] == 0xFF && body[1] >= 0x80))
  }

  lemma {:induction false} LeadingZero(b: Bytes)
    ensures Value([0] + b) == Value(b)
    decreases |b|
  {
    if b != [] {
      assert ([0] + b)[..|b|] == [0] + b[..|b| - 1];
      LeadingZero(b[..|b| - 1]);
    } else {
      assert [0] + b == [0] && [0][..0] == [];
    }
  }

  /** The number is kept, as a number that is not negative, in the shortest form it has. */
  lemma {:induction false} IntegerKept(b: Bytes)
    requires b != []
    ensures IsMinimal(IntegerBody(b)) && Signed(IntegerBody(b)) == Value(b)
    ensures IntegerBody(b)[0] < 0x80 && Value(IntegerBody(b)) == Value(b)
    decreases |b|
  {
    if |b| > 1 && b[0] == 0 && b[1] < 0x80 {
      assert b == [0] + b[1..];
      LeadingZero(b[1..]);
      IntegerKept(b[1..]);
    } else if b[0] >= 0x80 {
      LeadingZero(b);
    }
  }

  /** An empty buffer has no octet to write: the one input whose encoding is no INTEGER. */
  lemma IntegerNeedsAnOctet(b: Bytes)
    ensures IntegerBody(b) != [] <==> b != []
  {
    if b != [] { IntegerKept(b); }
  }

  // ---- Object identifiers (section 8.19) -----------------------------------------------------------

  function More(n: nat): Bytes {
    if n == 0 then [] else More(n / 128) + [0x80 + n % 128]
  }

  /** An arc to base 128, the high bit set on all but the last octet. */
  function Arc(n: nat): Bytes { More(n / 128) + [n % 128] }

  method EncodeArc(n: nat) returns (chunk: Bytes)
    requires n < LIMIT
    ensures chunk == Arc(n)
  {
    chunk := [n % 128];
    var v: nat := n / 128;
    while v > 0
      invariant Arc(n) == More(v) + chunk
      decreases v
    {
      chunk := [v % 128 + 0x80] + chunk;
      v := v / 128;
    }
    assert More(0) + chunk == chunk;
  }

  function Arcs(ns: seq<nat>): Bytes { if ns == [] then [] else Arc(ns[0]) + Arcs(ns[1..]) }

  /** The first two arcs share one octet, and only 0x00 to 0xFF fit one. */
  function ObjectIdBody(a: nat, b: nat, rest: seq<nat>): Bytes { [(40 * a + b) % 256] + Arcs(rest) }

  method EncodeObjectId(a: nat, b: nat, rest: seq<nat>) returns (out: Bytes)
    requires forall i :: 0 <= i < |rest| ==> rest[i] < LIMIT
    ensures out == ObjectIdBody(a, b, rest)
  {
    out := [(40 * a + b) % 256];
    for i := 0 to |rest|
      invariant ObjectIdBody(a, b, rest) == out + Arcs(rest[i..])
    {
      var chunk := EncodeArc(rest[i]);
      assert rest[i..][1..] == rest[i + 1..];
      assert out + (chunk + Arcs(rest[i + 1..])) == out + chunk + Arcs(rest[i + 1..]);
      out := out + chunk;
    }
    assert out + Arcs([]) == out;
  }

  /** One arc, in its shortest form, `so` being what was read of it. */
  function DecodeArc(s: Bytes, so: nat): (r: Option<Decoded<nat>>)
    ensures r.Some? ==> 0 < r.value.used <= |s|
    decreases |s|
  {
    if s == [] then None
    else if s[0] < 0x80 then Some(Decoded(so * 128 + s[0], 1))
    else if so == 0 && s[0] == 0x80 then None
    else
      var r := DecodeArc(s[1..], so * 128 + (s[0] - 0x80));
      if r.None? then None else Some(Decoded(r.value.value, r.value.used + 1))
  }

  function DecodeArcs(s: Bytes): Option<seq<nat>>
    decreases |s|
  {
    if s == [] then Some([])
    else
      var d := DecodeArc(s, 0);
      if d.None? then None
      else
        var rest := DecodeArcs(s[d.value.used..]);
        if rest.None? then None else Some([d.value.value] + rest.value)
  }

  /** The first subidentifier stands for two arcs. */
  function SplitFirst(x: nat): (nat, nat) {
    if x < 40 then (0, x) else if x < 80 then (1, x - 40) else (2, x - 80)
  }

  function DecodeObjectId(s: Bytes): Option<seq<nat>> {
    var ns := DecodeArcs(s);
    if ns.None? || ns.value == [] then None
    else Some([SplitFirst(ns.value[0]).0, SplitFirst(ns.value[0]).1] + ns.value[1..])
  }

  /** Reading `More(n)` after nothing leaves `n` read. */
  lemma {:induction false} MoreRoundTrip(n: nat, s: Bytes)
    ensures var r := DecodeArc(s, n);
      DecodeArc(More(n) + s, 0) == if r.None? then None else Some(Decoded(r.value.value, |More(n)| + r.value.used))
    decreases n
  {
    if n == 0 {
      assert More(n) + s == s;
    } else {
      var t := [0x80 + n % 128] + s;
      assert More(n) + s == More(n / 128) + t;
      MoreRoundTrip(n / 128, t);
      assert t[1..] == s;
    }
  }

  lemma ArcRoundTrip(n: nat, rest: Bytes)
    ensures DecodeArc(Arc(n) + rest, 0) == Some(Decoded(n, |Arc(n)|))
  {
    var t := [n % 128] + rest;
    assert Arc(n) + rest == More(n / 128) + t;
    MoreRoundTrip(n / 128, t);
  }

  lemma {:induction false} ArcsRoundTrip(ns: seq<nat>)
    ensures DecodeArcs(Arcs(ns)) == Some(ns)
    decreases |ns|
  {
    if ns != [] {
      ArcRoundTrip(ns[0], Arcs(ns[1..]));
      ArcsRoundTrip(ns[1..]);
      assert (Arc(ns[0]) + Arcs(ns[1..]))[|Arc(ns[0])|..] == Arcs(ns[1..]);
      assert [ns[0]] + ns[1..] == ns;
    }
  }

  /** An arc has one form. */
  lemma {:induction false} ArcIsCanonical(s: Bytes, so: nat)
    requires DecodeArc(s, so).Some?
    ensures var d := DecodeArc(s, so).value; More(so) + s[..d.used] == Arc(d.value)
    decreases |s|
  {
    var d := DecodeArc(s, so).value;
    if s[0] < 0x80 {
      assert d.value / 128 == so && d.value % 128 == s[0];
      assert s[..1] == [s[0]];
    } else {
      var next := so * 128 + (s[0] - 0x80);
      ArcIsCanonical(s[1..], next);
      assert next / 128 == so && 0x80 + next % 128 == s[0];
      assert More(next) == More(so) + [s[0]];
      assert s[..d.used] == [s[0]] + s[1..][..d.used - 1];
      assert More(so) + ([s[0]] + s[1..][..d.used - 1]) == More(so) + [s[0]] + s[1..][..d.used - 1];
    }
  }

  lemma {:induction false} ArcsAreCanonical(s: Bytes)
    requires DecodeArcs(s).Some?
    ensures Arcs(DecodeArcs(s).value) == s
    decreases |s|
  {
    if s != [] {
      var d := DecodeArc(s, 0).value;
      ArcIsCanonical(s, 0);
      assert More(0) + s[..d.used] == s[..d.used];
      ArcsAreCanonical(s[d.used..]);
      assert s == s[..d.used] + s[d.used..];
      assert ([d.value] + DecodeArcs(s[d.used..]).value)[1..] == DecodeArcs(s[d.used..]).value;
    }
  }

  lemma SmallArc(x: nat)
    ensures Arc(x) == [x] <==> x < 128
    ensures x >= 128 ==> |Arc(x)| >= 2
  {}

  /** The identifiers that one first octet can hold: at most 0.39, 1.39 and 2.47. */
  predicate FitsOneOctet(a: nat, b: nat) { a <= 2 && (a < 2 ==> b < 40) && 40 * a + b < 128 }

  /** An object identifier is read back as it was given if and only if its first two arcs fit one octet. */
  lemma ObjectIdRoundTrip(a: nat, b: nat, rest: seq<nat>)
    ensures DecodeObjectId(ObjectIdBody(a, b, rest)) == Some([a, b] + rest) <==> FitsOneOctet(a, b)
  {
    var body := ObjectIdBody(a, b, rest);
    if FitsOneOctet(a, b) {
      var x := 40 * a + b;
      SmallArc(x);
      assert Arcs([x] + rest) == body by { assert ([x] + rest)[1..] == rest; }
      ArcsRoundTrip([x] + rest);
      assert ([x] + rest)[1..] == rest;
    }
    if DecodeObjectId(body) == Some([a, b] + rest) {
      var ns := DecodeArcs(body).value;
      assert [a, b] + rest == [SplitFirst(ns[0]).0, SplitFirst(ns[0]).1] + ns[1..];
      assert ([a, b] + rest)[0] == a && ([a, b] + rest)[1] == b && ([a, b] + rest)[2..] == rest;
      assert ([SplitFirst(ns[0]).0, SplitFirst(ns[0]).1] + ns[1..])[2..] == ns[1..];
      ArcsAreCanonical(body);
      SmallArc(ns[0]);
    }
  }

  // ---- The certificate ---------------------------------------------------------------------------

  const SEQUENCE: Byte := 0x30
  const BIT_STRING: Byte := 0x03

  /** What is signed, the algorithm, and the signature, as three values in one. */
  function Certificate(tbs: Bytes, algorithm: Bytes, signature: Bytes): Bytes
    requires |tbs| + |algorithm| + |signature| < LIMIT - 32
  {
    LengthIsShort(|tbs|);
    LengthIsShort(|algorithm|);
    LengthIsShort(|signature| + 1);
    Tlv(SEQUENCE, Tlv(SEQUENCE, tbs) + Tlv(SEQUENCE, algorithm) + Tlv(BIT_STRING, [0] + signature))
  }

  lemma LengthIsShort(n: nat)
    requires n < LIMIT
    ensures |Length(n)| <= 5
  {
    if n >= 0x80 { DigitsAreFew(n, 4); }
  }

  /**
   * A certificate is read back as its three parts, whatever follows it; and the octets of the first,
   * from its tag on, are the very octets that were signed.
   */
  lemma CertificateRoundTrip(tbs: Bytes, algorithm: Bytes, signature: Bytes, rest: Bytes)
    requires |tbs| + |algorithm| + |signature| < LIMIT - 32
    ensures var cert := Certificate(tbs, algorithm, signature); var d := DecodeTlv(cert + rest);
      && d.Some? && d.value.used == |cert| && d.value.value.tag == SEQUENCE
      && ReadAll(d.value.value.body) == Some([Item(SEQUENCE, tbs), Item(SEQUENCE, algorithm), Item(BIT_STRING, [0] + signature)])
      && Tlv(SEQUENCE, tbs) <= d.value.value.body
  {
    LengthIsShort(|tbs|);
    LengthIsShort(|algorithm|);
    LengthIsShort(|signature| + 1);
    var items := [Item(SEQUENCE, tbs), Item(SEQUENCE, algorithm), Item(BIT_STRING, [0] + signature)];
    var body := Tlv(SEQUENCE, tbs) + Tlv(SEQUENCE, algorithm) + Tlv(BIT_STRING, [0] + signature);
    ThreeWritten(items[0], items[1], items[2]);
    AllRoundTrip(items);
    TlvRoundTrip(SEQUENCE, body, rest);
  }

  lemma ThreeWritten(a: Item, b: Item, c: Item)
    requires |a.body| < LIMIT && |b.body| < LIMIT && |c.body| < LIMIT
    ensures WriteAll([a, b, c]) == Tlv(a.tag, a.body) + Tlv(b.tag, b.body) + Tlv(c.tag, c.body)
  {
    assert [a, b, c][1..] == [b, c] && [b, c][1..] == [c] && [c][1..] == [];
    assert WriteAll([c]) == Tlv(c.tag, c.body);
  }
}
