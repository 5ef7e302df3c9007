// Deployment variables carried as padded standard base64 of their UTF-8 bytes,
// with exactly one spelling for each value.
module JsonTransport {
  import opened Wrappers

  type Byte = b: int | 0 <= b < 256 witness 0

  // Text may hold lone surrogates, which stand for undecodable bytes.
  type CodePoint = c: int | 0 <= c < 0x110000 witness 0

  type Text = seq<CodePoint>

  datatype Problem = NotUtf8Text | NotCanonical

  predicate Scalar(c: CodePoint) { !(0xD800 <= c < 0xE000) }

  predicate ScalarText(s: Text) { forall c :: c in s ==> Scalar(c) }

  // ----- UTF-8, section 3 of RFC 3629

  // A continuation byte, with the last six bits.
  function Tail(n: nat): Byte { 0x80 + n % 64 }

  function Lead(base: Byte, n: nat): Byte
    requires base + n < 256
  {
    base + n
  }

  function Utf8Char(c: CodePoint): (bs: seq<Byte>)
    ensures 1 <= |bs| <= 4
  {
    if c < 0x80 then [c]
    else if c < 0x800 then [Lead(0xC0, c / 64), Tail(c)]
    else if c < 0x10000 then [Lead(0xE0, c / 4096), Tail(c / 64), Tail(c)]
    else [Lead(0xF0, c / 262144), Tail(c / 4096), Tail(c / 64), Tail(c)]
  }

  function Utf8Encode(s: Text): seq<Byte> {
    if s == [] then [] else Utf8Char(s[0]) + Utf8Encode(s[1..])
  }

  function Bits(b: Byte): int { b as int - 0x80 }

  predicate Continuation(b: Byte) { 0x80 <= b < 0xC0 }

  // The first character of the bytes and its length; overlong forms,
  // surrogates and values past the last code point are refused.
  function FirstChar(bs: seq<Byte>): (r: Option<(CodePoint, nat)>)
    requires bs != []
    ensures r.Some? ==> 1 <= r.value.1 <= |bs|
  {
    var b: int := bs[0];
    if b < 0x80 then Some((b, 1))
    else if 0xC2 <= b < 0xE0 && |bs| >= 2 && Continuation(bs[1]) then
      Some(((b - 0xC0) * 64 + Bits(bs[1]), 2))
    else if 0xE0 <= b < 0xF0 && |bs| >= 3 && Continuation(bs[1]) && Continuation(bs[2]) then
      var c := (b - 0xE0) * 4096 + Bits(bs[1]) * 64 + Bits(bs[2]);
      if c >= 0x800 && Scalar(c) then Some((c, 3)) else None
    else if 0xF0 <= b < 0xF5 && |bs| >= 4 && Continuation(bs[1]) && Continuation(bs[2]) && Continuation(bs[3]) then
      var c := (b - 0xF0) * 262144 + Bits(bs[1]) * 4096 + Bits(bs[2]) * 64 + Bits(bs[3]);
      if 0x10000 <= c < 0x110000 then Some((c, 4)) else None
    else None
  }

  function Utf8Decode(bs: seq<Byte>): Option<Text> {
    if bs == [] then Some([])
    else
      var (c, n) :- FirstChar(bs);
      var rest :- Utf8Decode(bs[n..]);
      Some([c] + rest)
  }

  lemma FirstCharOfEncoded(c: CodePoint, rest: seq<Byte>)
    requires Scalar(c)
    ensures FirstChar(Utf8Char(c) + rest) == Some((c, |Utf8Char(c)|))
  {
    if c >= 0x800 {
      assert c / 64 == c / 4096 * 64 + c / 64 % 64;
    }
    if c >= 0x10000 {
      assert c / 4096 == c / 262144 * 64 + c / 4096 % 64;
    }
  }

  lemma {:induction false} Utf8RoundTrip(s: Text)
    requires ScalarText(s)
    ensures Utf8Decode(Utf8Encode(s)) == Some(s)
  {
    if s != [] {
      var rest := Utf8Encode(s[1..]);
      FirstCharOfEncoded(s[0], rest);
      Utf8RoundTrip(s[1..]);
      assert (Utf8Char(s[0]) + rest)[|Utf8Char(s[0])|..] == rest;
      assert [s[0]] + s[1..] == s;
    }
  }

  // The number that the bits of an encoded character carry.
  ghost function Carried(bs: seq<Byte>, lead: int): int
    requires bs != []
  {
    if |bs| == 1 then bs[0] as int - lead else Carried(bs[..|bs|-1], lead) * 64 + Bits(bs[|bs|-1])
  }

  // A row of the table of section 3 of RFC 3629: the number of bytes, the range
  // of the first and the bits that they carry.
  ghost predicate Row(bs: seq<Byte>, length: nat, first: int, last: int, lead: int, c: CodePoint) {
    && |bs| == length > 0 && first <= bs[0] as int <= last
    && (forall i :: 1 <= i < length ==> 0x80 <= bs[i] as int <= 0xBF)
    && Carried(bs, lead) == c
  }

  lemma CarriedTwo(a: Byte, b: Byte, lead: int)
    ensures Carried([a, b], lead) == (a as int - lead) * 64 + Bits(b)
  {
    assert [a, b][..1] == [a];
  }

  lemma CarriedThree(a: Byte, b: Byte, c: Byte, lead: int)
    ensures Carried([a, b, c], lead) == ((a as int - lead) * 64 + Bits(b)) * 64 + Bits(c)
  {
    assert [a, b, c][..2] == [a, b];
    CarriedTwo(a, b, lead);
  }

  lemma CarriedFour(a: Byte, b: Byte, c: Byte, d: Byte, lead: int)
    ensures Carried([a, b, c, d], lead) == (((a as int - lead) * 64 + Bits(b)) * 64 + Bits(c)) * 64 + Bits(d)
  {
    assert [a, b, c, d][..3] == [a, b, c];
    CarriedThree(a, b, c, lead);
  }

  lemma Utf8Table(c: CodePoint)
    ensures c <= 0x7F ==> Utf8Char(c) == [c]
    ensures 0x80 <= c <= 0x7FF ==> Row(Utf8Char(c), 2, 0xC2, 0xDF, 0xC0, c)
    ensures 0x800 <= c <= 0xFFFF ==> Row(Utf8Char(c), 3, 0xE0, 0xEF, 0xE0, c)
    ensures 0x10000 <= c ==> Row(Utf8Char(c), 4, 0xF0, 0xF4, 0xF0, c)
  {
    if c >= 0x10000 {
      CarriedFour(Lead(0xF0, c / 262144), Tail(c / 4096), Tail(c / 64), Tail(c), 0xF0);
      Digits64(c);
    } else if c >= 0x800 {
      CarriedThree(Lead(0xE0, c / 4096), Tail(c / 64), Tail(c), 0xE0);
      Digits64(c);
    } else if c >= 0x80 {
      CarriedTwo(Lead(0xC0, c / 64), Tail(c), 0xC0);
    }
  }

  lemma Digits64(c: nat)
    ensures c == c / 64 * 64 + c % 64
    ensures c / 64 == c / 4096 * 64 + c / 64 % 64
    ensures c / 4096 == c / 262144 * 64 + c / 4096 % 64
  {
  }

  lemma Split64(q: nat, r: nat)
    requires r < 64
    ensures (q * 64 + r) / 64 == q && (q * 64 + r) % 64 == r
  {
  }

  lemma EncodedThree(a: nat, b: nat, d: nat)
    requires a < 16 && b < 64 && d < 64 && (a * 64 + b) * 64 + d >= 0x800
    ensures Utf8Char((a * 64 + b) * 64 + d) == [0xE0 + a, 0x80 + b, 0x80 + d]
  {
    var c := (a * 64 + b) * 64 + d;
    Split64(a * 64 + b, d);
    Split64(a, b);
    assert c / 4096 == c / 64 / 64;
  }

  lemma EncodedFour(a: nat, b: nat, d: nat, e: nat)
    requires a < 5 && b < 64 && d < 64 && e < 64 && 0x10000 <= ((a * 64 + b) * 64 + d) * 64 + e < 0x110000
    ensures Utf8Char(((a * 64 + b) * 64 + d) * 64 + e) == [0xF0 + a, 0x80 + b, 0x80 + d, 0x80 + e]
  {
    var c := ((a * 64 + b) * 64 + d) * 64 + e;
    Split64((a * 64 + b) * 64 + d, e);
    Split64(a * 64 + b, d);
    Split64(a, b);
    Digits64(c);
    assert c / 4096 == c / 64 / 64 && c / 262144 == c / 4096 / 64;
  }

  lemma FirstCharIsEncoded(bs: seq<Byte>)
    requires bs != [] && FirstChar(bs).Some?
    ensures Utf8Char(FirstChar(bs).value.0) == bs[..FirstChar(bs).value.1]
  {
    var n, b := FirstChar(bs).value.1, bs[0] as int;
    if n == 3 {
      EncodedThree(b - 0xE0, Bits(bs[1]), Bits(bs[2]));
    } else if n == 4 {
      EncodedFour(b - 0xF0, Bits(bs[1]), Bits(bs[2]), Bits(bs[3]));
    }
  }

  // Whatever is decoded is the encoding of what comes out: no byte sequence but
  // that of the table is accepted.
  lemma {:induction false} Utf8Strict(bs: seq<Byte>)
    ensures Utf8Decode(bs).Some? ==> Utf8Encode(Utf8Decode(bs).value) == bs
  {
    if bs != [] && Utf8Decode(bs).Some? {
      var (c, n) := FirstChar(bs).value;
      FirstCharIsEncoded(bs);
      Utf8Strict(bs[n..]);
      var rest := Utf8Decode(bs[n..]).value;
      assert ([c] + rest)[1..] == rest && bs[..n] + bs[n..] == bs;
    }
  }

  // Decoding never gives a surrogate.
  lemma {:induction false} DecodedIsScalar(bs: seq<Byte>)
    ensures Utf8Decode(bs).Some? ==> ScalarText(Utf8Decode(bs).value)
  {
    if bs != [] && FirstChar(bs).Some? {
      DecodedIsScalar(bs[FirstChar(bs).value.1..]);
    }
  }

  // ----- Base64, section 4 of RFC 4648

  type Sextet = n: int | 0 <= n < 64 witness 0

  function Digit(n: Sextet): char {
    if n < 26 then 'A' + n as char
    else if n < 52 then 'a' + (n - 26) as char
    else if n < 62 then '0' + (n - 52) as char
    else if n == 62 then '+' else '/'
  }

  function Value(c: char): Option<Sextet> {
    if 'A' <= c <= 'Z' then Some(c as int - 'A' as int)
    else if 'a' <= c <= 'z' then Some(c as int - 'a' as int + 26)
    else if '0' <= c <= '9' then Some(c as int - '0' as int + 52)
    else if c == '+' then Some(62)
    else if c == '/' then Some(63)
    else None
  }

  lemma DigitValue(n: Sextet)
    ensures Value(Digit(n)) == Some(n) && Digit(n) != '='
  {
  }

  // The alphabet of table 1 of RFC 4648, in ASCII.
  lemma Alphabet(n: Sextet)
    ensures 'A' <= Digit(n) <= 'Z' <==> n <= 25
    ensures 'a' <= Digit(n) <= 'z' <==> 26 <= n <= 51
    ensures '0' <= Digit(n) <= '9' <==> 52 <= n <= 61
    ensures Digit(n) as int == if n <= 25 then 65 + n else if n <= 51 then 71 + n else if n <= 61 then n - 4
                               else if n == 62 then 43 else 47
  {
  }

  lemma ValueDigit(c: char, n: Sextet)
    ensures Value(c) == Some(n) <==> c == Digit(n)
  {
  }

  // The four sextets of three bytes, and back.
  function Sextet1(x: Byte): Sextet { x / 4 }

  function Sextet2(x: Byte, y: Byte): Sextet { x % 4 * 16 + y / 16 }

  function Sextet3(y: Byte, z: Byte): Sextet { y % 16 * 4 + z / 64 }

  function Sextet4(z: Byte): Sextet { z % 64 }

  function Byte1(a: Sextet, b: Sextet): Byte { a * 4 + b / 16 }

  function Byte2(b: Sextet, c: Sextet): Byte { b % 16 * 16 + c / 4 }

  function Byte3(c: Sextet, d: Sextet): Byte { c % 4 * 64 + d }

  lemma SextetsToBytes(x: Byte, y: Byte, z: Byte)
    ensures Byte1(Sextet1(x), Sextet2(x, y)) == x
    ensures Byte2(Sextet2(x, y), Sextet3(y, z)) == y
    ensures Byte3(Sextet3(y, z), Sextet4(z)) == z
  {
  }

  // Full groups of digits, of which only the last may end in one or two padding
  // characters.
  ghost predicate Padded(t: string) {
    && |t| % 4 == 0
    && (forall i :: 0 <= i < |t| ==> Value(t[i]).Some? || (t[i] == '=' && i >= |t| - 2))
    && (t != "" && t[|t|-2] == '=' ==> t[|t|-1] == '=')
  }

  lemma PaddedMore(t: string)
    requires |t| > 4 && Padded(t[4..]) && t[4..] != ""
    requires Value(t[0]).Some? && Value(t[1]).Some? && Value(t[2]).Some? && Value(t[3]).Some?
    ensures Padded(t)
  {
    forall i | 0 <= i < |t| ensures Value(t[i]).Some? || (t[i] == '=' && i >= |t| - 2) {
      if i >= 4 {
        assert t[i] == t[4..][i-4];
      }
    }
  }

  // The library decoder accepts nothing else.
  lemma {:induction false} DecodedShape(t: string)
    requires Base64Decode(t).Some?
    ensures Padded(t)
  {
    if |t| > 4 {
      DecodedShape(t[4..]);
      PaddedMore(t);
    }
  }

  // Four digits stand for the same number as three bytes.
  lemma SameNumber(x: Byte, y: Byte, z: Byte)
    ensures Sextet1(x) * 262144 + Sextet2(x, y) * 4096 + Sextet3(y, z) * 64 + Sextet4(z) == x * 65536 + y * 256 + z
  {
  }

  function Base64Encode(bs: seq<Byte>): string {
    if bs == [] then ""
    else if |bs| == 1 then [Digit(Sextet1(bs[0])), Digit(Sextet2(bs[0], 0)), '=', '=']
    else if |bs| == 2 then [Digit(Sextet1(bs[0])), Digit(Sextet2(bs[0], bs[1])), Digit(Sextet3(bs[1], 0)), '=']
    else
      [Digit(Sextet1(bs[0])), Digit(Sextet2(bs[0], bs[1])), Digit(Sextet3(bs[1], bs[2])), Digit(Sextet4(bs[2]))]
      + Base64Encode(bs[3..])
  }

  // Refuses other characters and misplaced or missing padding, but, like the
  // library decoder, ignores the bits that the padding leaves over.
  function Base64Decode(t: string): Option<seq<Byte>> {
    if t == "" then Some([])
    else if |t| < 4 then None
    else
      var a :- Value(t[0]);
      var b :- Value(t[1]);
      if t[2] == '=' then
        if t[3] == '=' && |t| == 4 then Some([Byte1(a, b)]) else None
      else
        var c :- Value(t[2]);
        if t[3] == '=' then
          if |t| == 4 then Some([Byte1(a, b), Byte2(b, c)]) else None
        else
          var d :- Value(t[3]);
          var rest :- Base64Decode(t[4..]);
          Some([Byte1(a, b), Byte2(b, c), Byte3(c, d)] + rest)
  }

  lemma PairDecodes(a: Sextet, b: Sextet)
    ensures Base64Decode([Digit(a), Digit(b), '=', '=']) == Some([Byte1(a, b)])
  {
    DigitValue(a);
    DigitValue(b);
  }

  lemma TripleDecodes(a: Sextet, b: Sextet, c: Sextet)
    ensures Base64Decode([Digit(a), Digit(b), Digit(c), '=']) == Some([Byte1(a, b), Byte2(b, c)])
  {
    DigitValue(a);
    DigitValue(b);
    DigitValue(c);
  }

  lemma QuadDecodes(a: Sextet, b: Sextet, c: Sextet, d: Sextet, t: string)
    requires Base64Decode(t).Some?
    ensures Base64Decode([Digit(a), Digit(b), Digit(c), Digit(d)] + t)
         == Some([Byte1(a, b), Byte2(b, c), Byte3(c, d)] + Base64Decode(t).value)
  {
    DigitValue(a);
    DigitValue(b);
    DigitValue(c);
    DigitValue(d);
    assert ([Digit(a), Digit(b), Digit(c), Digit(d)] + t)[4..] == t;
  }

  lemma ThreeMore(x: Byte, y: Byte, z: Byte, t: string)
    requires Base64Decode(t).Some?
    ensures Base64Decode([Digit(Sextet1(x)), Digit(Sextet2(x, y)), Digit(Sextet3(y, z)), Digit(Sextet4(z))] + t)
         == Some([x, y, z] + Base64Decode(t).value)
  {
    SextetsToBytes(x, y, z);
    QuadDecodes(Sextet1(x), Sextet2(x, y), Sextet3(y, z), Sextet4(z), t);
  }

  lemma OneByte(x: Byte)
    ensures Base64Decode(Base64Encode([x])) == Some([x])
  {
    SextetsToBytes(x, 0, 0);
    PairDecodes(Sextet1(x), Sextet2(x, 0));
  }

  lemma TwoBytes(x: Byte, y: Byte)
    ensures Base64Decode(Base64Encode([x, y])) == Some([x, y])
  {
    SextetsToBytes(x, y, 0);
    TripleDecodes(Sextet1(x), Sextet2(x, y), Sextet3(y, 0));
  }

  lemma {:induction false} Base64RoundTrip(bs: seq<Byte>)
    ensures Base64Decode(Base64Encode(bs)) == Some(bs)
  {
    if |bs| == 1 {
      OneByte(bs[0]);
      assert bs == [bs[0]];
    } else if |bs| == 2 {
      TwoBytes(bs[0], bs[1]);
      assert bs == [bs[0], bs[1]];
    } else if |bs| > 2 {
      Base64RoundTrip(bs[3..]);
      ThreeMore(bs[0], bs[1], bs[2], Base64Encode(bs[3..]));
      assert bs == [bs[0], bs[1], bs[2]] + bs[3..];
    }
  }

  // ----- The transport

  function Encode(raw: Text): Result<string, Problem> {
    if ScalarText(raw) then Ok(Base64Encode(Utf8Encode(raw))) else Err(NotUtf8Text)
  }

  function Decode(transport: string): Result<Text, Problem> {
    match Base64Decode(transport)
    case None => Err(NotCanonical)
    case Some(bs) =>
      match Utf8Decode(bs)
      case None => Err(NotCanonical)
      case Some(raw) => if Encode(raw) == Ok(transport) then Ok(raw) else Err(NotCanonical)
  }

  // Encoding refuses exactly the texts with a lone surrogate, and decoding
  // undoes it on every other text.
  lemma RoundTrip(raw: Text)
    ensures Encode(raw).Ok? <==> forall i :: 0 <= i < |raw| ==> raw[i] < 0xD800 || 0xDFFF < raw[i]
    ensures Encode(raw).Err? ==> Encode(raw).error == NotUtf8Text
    ensures Encode(raw).Ok? ==> Decode(Encode(raw).value) == Ok(raw)
  {
    assert ScalarText(raw) <==> forall i :: 0 <= i < |raw| ==> Scalar(raw[i]);
    if ScalarText(raw) {
      Utf8RoundTrip(raw);
      Base64RoundTrip(Utf8Encode(raw));
    }
  }

  // Decoding accepts exactly the image of encoding, so every value has one
  // spelling and every accepted transport decodes to the one text it came from.
  lemma DecodesExactlyTheImage(transport: string, raw: Text)
    ensures Decode(transport) == Ok(raw) <==> Encode(raw) == Ok(transport)
    ensures Decode(transport).Err? ==> Decode(transport).error == NotCanonical
  {
    RoundTrip(raw);
  }

  lemma OneSpelling(a: Text, b: Text)
    requires Encode(a).Ok? && Encode(a) == Encode(b)
    ensures a == b
  {
    RoundTrip(a);
    RoundTrip(b);
  }

  // The last digit before padding, when there is any padding.
  function LastDigit(t: string): Option<Sextet>
    requires |t| >= 4
  {
    if t[|t|-2] == '=' then Value(t[|t|-3]) else Value(t[|t|-2])
  }

  lemma {:induction false} EncodedPaddingBits(bs: seq<Byte>)
    requires bs != []
    ensures var t := Base64Encode(bs);
      && |t| >= 4 && LastDigit(t).Some?
      && (t[|t|-2] == '=' ==> LastDigit(t).value % 16 == 0)
      && (t[|t|-2] != '=' && t[|t|-1] == '=' ==> LastDigit(t).value % 4 == 0)
  {
    if |bs| == 1 {
      DigitValue(Sextet2(bs[0], 0));
    } else if |bs| == 2 {
      DigitValue(Sextet3(bs[1], 0));
    } else {
      DigitValue(Sextet3(bs[1], bs[2]));
      DigitValue(Sextet4(bs[2]));
      if |bs| > 3 {
        EncodedPaddingBits(bs[3..]);
      }
    }
  }

  // Full groups in front change nothing about what the library decoder accepts.
  lemma {:induction false} GroupsInFront(groups: string, tail: string)
    requires Base64Decode(groups).Some? && '=' !in groups && Base64Decode(tail).Some?
    ensures Base64Decode(groups + tail).Some?
  {
    if groups == "" {
      assert groups + tail == tail;
    } else {
      assert groups[2] in groups && groups[3] in groups;
      assert (groups + tail)[4..] == groups[4..] + tail;
      GroupsInFront(groups[4..], tail);
    }
  }

  // Nonzero bits under the padding are refused after anything, although the
  // library decoder accepts them after any full groups.
  lemma PaddingBitsRefused(front: string, a: Sextet, b: Sextet, c: Sextet)
    ensures b % 16 != 0 ==> Decode(front + [Digit(a), Digit(b), '=', '=']).Err?
    ensures c % 4 != 0 ==> Decode(front + [Digit(a), Digit(b), Digit(c), '=']).Err?
    ensures Base64Decode(front).Some? && '=' !in front ==>
      && Base64Decode(front + [Digit(a), Digit(b), '=', '=']).Some?
      && Base64Decode(front + [Digit(a), Digit(b), Digit(c), '=']).Some?
  {
    PairDecodes(a, b);
    TripleDecodes(a, b, c);
    if Base64Decode(front).Some? && '=' !in front {
      GroupsInFront(front, [Digit(a), Digit(b), '=', '=']);
      GroupsInFront(front, [Digit(a), Digit(b), Digit(c), '=']);
    }
    BitsRefused(front, [Digit(a), Digit(b), '=', '='], b);
    BitsRefused(front, [Digit(a), Digit(b), Digit(c), '='], c);
  }

  lemma BitsRefused(front: string, tail: string, n: Sextet)
    requires |tail| == 4 && tail[3] == '=' && tail[if tail[2] == '=' then 1 else 2] == Digit(n)
    ensures n % (if tail[2] == '=' then 16 else 4) != 0 ==> Decode(front + tail).Err?
  {
    DigitValue(n);
    var t := front + tail;
    assert t[|t|-1] == tail[3] && t[|t|-2] == tail[2] && t[|t|-3] == tail[1];
    if Decode(t).Ok? {
      EncodedPaddingBits(Utf8Encode(Decode(t).value));
    }
  }

  // ----- Lengths

  function TransportMaxLength(maxBytes: nat): nat { 4 * ((maxBytes + 2) / 3) }

  lemma {:induction false} Base64Length(bs: seq<Byte>)
    ensures |Base64Encode(bs)| == 4 * ((|bs| + 2) / 3)
  {
    if |bs| > 2 {
      Base64Length(bs[3..]);
      assert (|bs| + 2) / 3 == (|bs| - 3 + 2) / 3 + 1;
    }
  }

  // A value of at most `maxBytes` bytes always fits the declared length, and the
  // bound is met by the longest of them.
  lemma FitsDeclaredLength(raw: Text, maxBytes: nat)
    requires ScalarText(raw)
    ensures |Utf8Encode(raw)| <= maxBytes ==> |Encode(raw).value| <= TransportMaxLength(maxBytes)
    ensures |Utf8Encode(raw)| == maxBytes ==> |Encode(raw).value| == TransportMaxLength(maxBytes)
  {
    Base64Length(Utf8Encode(raw));
  }
}
