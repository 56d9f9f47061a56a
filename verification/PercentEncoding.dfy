/** UTF-8, as far as encoding query values needs it. */
module Utf8 {
  import opened Common

  type byte = x: int | 0 <= x < 256

  /** The one to four bytes of a scalar value. */
  function EncodeChar(c: char): (r: seq<byte>)
    ensures 1 <= |r| <= 4
  {
    var v := c as int;
    if v < 0x80 then [v]
    else if v < 0x800 then [0xC0 + v / 0x40, 0x80 + v % 0x40]
    else if v < 0x10000 then [0xE0 + v / 0x1000, 0x80 + v / 0x40 % 0x40, 0x80 + v % 0x40]
    else [0xF0 + v / 0x40000, 0x80 + v / 0x1000 % 0x40, 0x80 + v / 0x40 % 0x40, 0x80 + v % 0x40]
  }

  function Encode(s: string): seq<byte> {
    if s == [] then [] else EncodeChar(s[0]) + Encode(s[1..])
  }

  /** The number of bytes announced by a lead byte. */
  function Announced(b: byte): nat {
    if b < 0x80 then 1 else if b < 0xE0 then 2 else if b < 0xF0 then 3 else 4
  }

  /** The value carried by the bytes of one character. */
  function Payload(bs: seq<byte>): int
    requires 1 <= |bs| <= 4
  {
    var lead: int, last: int := bs[0], bs[|bs| - 1];
    if |bs| == 1 then lead
    else if |bs| == 2 then (lead - 0xC0) * 0x40 + (last - 0x80)
    else
      var second: int := bs[1];
      if |bs| == 3 then (lead - 0xE0) * 0x1000 + (second - 0x80) * 0x40 + (last - 0x80)
      else
        var third: int := bs[2];
        (lead - 0xF0) * 0x40000 + (second - 0x80) * 0x1000 + (third - 0x80) * 0x40 + (last - 0x80)
  }

  predicate IsScalar(v: int) {
    0 <= v < 0xD800 || 0xE000 <= v < 0x11_0000
  }

  /** The scalar value at the front, provided the bytes are its canonical encoding. */
  function DecodeFirst(bs: seq<byte>): (r: Option<char>)
    requires bs != []
    ensures r.Some? ==> EncodeChar(r.value) <= bs
  {
    var n := Announced(bs[0]);
    if |bs| < n || !IsScalar(Payload(bs[..n])) || EncodeChar(Payload(bs[..n]) as char) != bs[..n] then None
    else Some(Payload(bs[..n]) as char)
  }

  function Decode(bs: seq<byte>): Option<string> {
    if bs == [] then Some([])
    else
      var c := DecodeFirst(bs);
      if c.None? then None
      else
        var rest := Decode(bs[|EncodeChar(c.value)|..]);
        if rest.None? then None else Some([c.value] + rest.value)
  }

  lemma {:induction false} SixBitGroups(v: nat)
    ensures v / 0x1000 * 0x1000 + v / 0x40 % 0x40 * 0x40 + v % 0x40 == v
    ensures v / 0x40000 * 0x40000 + v / 0x1000 % 0x40 * 0x1000 + v / 0x40 % 0x40 * 0x40 + v % 0x40 == v
  {
    assert v / 0x1000 == v / 0x40 / 0x40;
    assert v / 0x40000 == v / 0x1000 / 0x40;
  }

  lemma {:induction false} CharRoundTrip(c: char)
    ensures Payload(EncodeChar(c)) == c as int
    ensures Announced(EncodeChar(c)[0]) == |EncodeChar(c)|
  {
    SixBitGroups(c as int);
  }

  lemma {:induction false} RoundTrip(s: string)
    ensures Decode(Encode(s)) == Some(s)
  {
    if s != [] {
      var first, rest := EncodeChar(s[0]), Encode(s[1..]);
      CharRoundTrip(s[0]);
      assert (first + rest)[..|first|] == first && (first + rest)[|first|..] == rest;
      RoundTrip(s[1..]);
      assert s == [s[0]] + s[1..];
    }
  }
}

/** Percent-encoding of query values, sections 2.1 and 2.3 of RFC 3986. */
module PercentEncoding {
  import opened Common
  import Utf8

  type byte = Utf8.byte

  predicate Unreserved(c: char) {
    'A' <= c <= 'Z' || 'a' <= c <= 'z' || '0' <= c <= '9' || c in {'-', '_', '.', '~'}
  }

  function HexDigit(d: int): (c: char)
    requires 0 <= d < 16
    ensures '0' <= c <= '9' || 'A' <= c <= 'F'
  {
    if d < 10 then ('0' as int + d) as char else ('A' as int + d - 10) as char
  }

  function HexValue(c: char): Option<int> {
    if '0' <= c <= '9' then Some(c as int - '0' as int)
    else if 'A' <= c <= 'F' then Some(c as int - 'A' as int + 10)
    else if 'a' <= c <= 'f' then Some(c as int - 'a' as int + 10)
    else None
  }

  function Triplet(b: byte): string {
    ['%', HexDigit(b / 16), HexDigit(b % 16)]
  }

  function Triplets(bs: seq<byte>): string {
    if bs == [] then [] else Triplet(bs[0]) + Triplets(bs[1..])
  }

  function EncodeOne(c: char): string {
    if Unreserved(c) then [c] else Triplets(Utf8.EncodeChar(c))
  }

  function Encode(s: string): string {
    if s == [] then [] else Encode(s[..|s| - 1]) + EncodeOne(s[|s| - 1])
  }

  /** The inner loop over the bytes of one character. */
  method EncodeBytes(bytes: seq<byte>) returns (out: string)
    ensures out == Triplets(bytes)
  {
    out := "";
    for j := 0 to |bytes|
      invariant out == Triplets(bytes[..j])
    {
      TripletsAppend(bytes[..j], [bytes[j]]);
      assert bytes[..j + 1] == bytes[..j] + [bytes[j]];
      assert Triplets([bytes[j]]) == Triplet(bytes[j]) + Triplets([]);
      out := out + Triplet(bytes[j]);
    }
    assert bytes[..|bytes|] == bytes;
  }

  /** `urlencoding_simple`. */
  method UrlEncode(s: string) returns (out: string)
    ensures out == Encode(s)
  {
    out := "";
    for i := 0 to |s|
      invariant out == Encode(s[..i])
    {
      assert s[..i + 1][..i] == s[..i];
      if Unreserved(s[i]) {
        out := out + [s[i]];
      } else {
        var triplets := EncodeBytes(Utf8.EncodeChar(s[i]));
        out := out + triplets;
      }
    }
    assert s[..|s|] == s;
  }

  lemma {:induction false} ConcatAssociative<T>(a: seq<T>, b: seq<T>, c: seq<T>)
    ensures (a + b) + c == a + (b + c)
  {
  }

  lemma {:induction false} TripletsAppend(a: seq<byte>, b: seq<byte>)
    ensures Triplets(a + b) == Triplets(a) + Triplets(b)
  {
    if a == [] {
      assert a + b == b;
    } else {
      calc {
        Triplets(a + b);
        { assert (a + b)[1..] == a[1..] + b; }
        Triplet(a[0]) + Triplets(a[1..] + b);
        { TripletsAppend(a[1..], b); }
        Triplet(a[0]) + (Triplets(a[1..]) + Triplets(b));
        { ConcatAssociative(Triplet(a[0]), Triplets(a[1..]), Triplets(b)); }
        Triplets(a) + Triplets(b);
      }
    }
  }

  // -------------------------------------------------------------------- decoding

  /** Percent-decoding to bytes; characters outside ASCII cannot occur in a URI. */
  function PercentDecode(s: string): Option<seq<byte>> {
    if s == [] then Some([])
    else if s[0] == '%' then
      if |s| < 3 || HexValue(s[1]).None? || HexValue(s[2]).None? then None
      else
        var rest := PercentDecode(s[3..]);
        if rest.None? then None else Some([HexValue(s[1]).value * 16 + HexValue(s[2]).value] + rest.value)
    else if s[0] as int >= 0x80 then None
    else
      var rest := PercentDecode(s[1..]);
      if rest.None? then None else Some([s[0] as int] + rest.value)
  }

  function DecodeValue(s: string): Option<string> {
    var bs := PercentDecode(s);
    if bs.None? then None else Utf8.Decode(bs.value)
  }

  lemma {:induction false} DecodeTriplet(b: byte, tail: string)
    requires PercentDecode(tail).Some?
    ensures PercentDecode(Triplet(b) + tail) == Some([b] + PercentDecode(tail).value)
  {
    var whole := Triplet(b) + tail;
    assert whole[3..] == tail;
    assert HexValue(whole[1]) == Some(b / 16) && HexValue(whole[2]) == Some(b % 16);
  }

  lemma {:induction false} DecodeTriplets(bs: seq<byte>, tail: string)
    requires PercentDecode(tail).Some?
    ensures PercentDecode(Triplets(bs) + tail) == Some(bs + PercentDecode(tail).value)
  {
    var rest := PercentDecode(tail).value;
    if bs == [] {
      assert Triplets(bs) + tail == tail;
      assert bs + rest == rest;
    } else {
      DecodeTriplets(bs[1..], tail);
      ConcatAssociative(Triplet(bs[0]), Triplets(bs[1..]), tail);
      DecodeTriplet(bs[0], Triplets(bs[1..]) + tail);
      assert bs + rest == [bs[0]] + (bs[1..] + rest);
    }
  }

  lemma {:induction false} DecodeOne(c: char, tail: string)
    requires PercentDecode(tail).Some?
    ensures PercentDecode(EncodeOne(c) + tail) == Some(Utf8.EncodeChar(c) + PercentDecode(tail).value)
  {
    if Unreserved(c) {
      assert ([c] + tail)[1..] == tail;
    } else {
      DecodeTriplets(Utf8.EncodeChar(c), tail);
    }
  }

  lemma {:induction false} DecodeEncoded(s: string, tail: string)
    requires PercentDecode(tail).Some?
    ensures PercentDecode(Encode(s) + tail) == Some(Utf8.Encode(s) + PercentDecode(tail).value)
    decreases |s|
  {
    if s == [] {
      assert Encode(s) + tail == tail;
      assert Utf8.Encode(s) + PercentDecode(tail).value == PercentDecode(tail).value;
    } else {
      var front, c := s[..|s| - 1], s[|s| - 1];
      var rest := PercentDecode(tail).value;
      DecodeOne(c, tail);
      DecodeEncoded(front, EncodeOne(c) + tail);
      ConcatAssociative(Encode(front), EncodeOne(c), tail);
      assert s == front + [c];
      Utf8Append(front, c);
      ConcatAssociative(Utf8.Encode(front), Utf8.EncodeChar(c), rest);
    }
  }

  lemma {:induction false} Utf8Append(s: string, c: char)
    ensures Utf8.Encode(s + [c]) == Utf8.Encode(s) + Utf8.EncodeChar(c)
  {
    if s == [] {
      assert s + [c] == [c];
      assert Utf8.Encode([c]) == Utf8.EncodeChar(c) + Utf8.Encode([]);
    } else {
      Utf8Append(s[1..], c);
      assert (s + [c])[1..] == s[1..] + [c];
    }
  }

  /** Encoding is undone by decoding, for every string. */
  lemma {:induction false} EncodeRoundTrip(s: string)
    ensures DecodeValue(Encode(s)) == Some(s)
  {
    assert PercentDecode([]) == Some([]);
    DecodeEncoded(s, []);
    assert Encode(s) + [] == Encode(s);
    assert Utf8.Encode(s) + [] == Utf8.Encode(s);
    Utf8.RoundTrip(s);
  }

  lemma {:induction false} EncodeIsInjective(s: string, t: string)
    requires Encode(s) == Encode(t)
    ensures s == t
  {
    EncodeRoundTrip(s);
    EncodeRoundTrip(t);
  }

  predicate UpperHex(c: char) {
    '0' <= c <= '9' || 'A' <= c <= 'F'
  }

  /** Unreserved characters and percent triplets in upper-case hex, nothing else. */
  predicate SafeText(s: string) {
    s == [] || (Unreserved(s[0]) && SafeText(s[1..]))
    || (|s| >= 3 && s[0] == '%' && UpperHex(s[1]) && UpperHex(s[2]) && SafeText(s[3..]))
  }

  lemma {:induction false} TripletsAreSafe(bs: seq<byte>, tail: string)
    requires SafeText(tail)
    ensures SafeText(Triplets(bs) + tail)
  {
    if bs == [] {
      assert Triplets(bs) + tail == tail;
    } else {
      TripletsAreSafe(bs[1..], tail);
      assert (Triplets(bs) + tail)[3..] == Triplets(bs[1..]) + tail;
    }
  }

  lemma {:induction false} OneIsSafeBefore(c: char, tail: string)
    requires SafeText(tail)
    ensures SafeText(EncodeOne(c) + tail)
  {
    if Unreserved(c) {
      assert ([c] + tail)[1..] == tail;
    } else {
      TripletsAreSafe(Utf8.EncodeChar(c), tail);
    }
  }

  lemma {:induction false} EncodedIsSafeBefore(s: string, tail: string)
    requires SafeText(tail)
    ensures SafeText(Encode(s) + tail)
    decreases |s|
  {
    if s == [] {
      assert Encode(s) + tail == tail;
    } else {
      var front, c := s[..|s| - 1], s[|s| - 1];
      OneIsSafeBefore(c, tail);
      EncodedIsSafeBefore(front, EncodeOne(c) + tail);
      ConcatAssociative(Encode(front), EncodeOne(c), tail);
    }
  }

  lemma {:induction false} EncodedIsSafe(s: string)
    ensures SafeText(Encode(s))
  {
    EncodedIsSafeBefore(s, []);
    assert Encode(s) + [] == Encode(s);
  }

  /** Letters, digits, the four marks of section 2.3 of RFC 3986 and the percent sign: nothing else comes out. */
  lemma {:induction false} EncodedAlphabet(s: string, c: char)
    requires c in Encode(s)
    ensures 'A' <= c <= 'Z' || 'a' <= c <= 'z' || '0' <= c <= '9' || c == '-' || c == '_' || c == '.' || c == '~' || c == '%'
  {
    EncodedIsSafe(s);
    SafeAlphabet(Encode(s), c);
  }

  lemma {:induction false} SafeAlphabet(s: string, c: char)
    requires SafeText(s) && c in s
    ensures 'A' <= c <= 'Z' || 'a' <= c <= 'z' || '0' <= c <= '9' || c == '-' || c == '_' || c == '.' || c == '~' || c == '%'
  {
    if Unreserved(s[0]) {
      assert s == [s[0]] + s[1..];
      if c != s[0] {
        SafeAlphabet(s[1..], c);
      }
    } else {
      assert s == [s[0], s[1], s[2]] + s[3..];
      if c in s[3..] {
        SafeAlphabet(s[3..], c);
      }
    }
  }

  /** A string of nothing but letters, digits and the four marks is its own encoding. */
  lemma {:induction false} UnreservedIsUnchanged(s: string)
    requires forall c :: c in s ==>
               'A' <= c <= 'Z' || 'a' <= c <= 'z' || '0' <= c <= '9' || c == '-' || c == '_' || c == '.' || c == '~'
    ensures Encode(s) == s
  {
    if s != [] {
      var front, c := s[..|s| - 1], s[|s| - 1];
      assert s == front + [c];
      assert c in s && forall d :: d in front ==> d in s;
      UnreservedIsUnchanged(front);
    }
  }

  lemma {:induction false} SafeTextAvoids(s: string, c: char)
    requires SafeText(s) && c in {'?', '&', '='}
    ensures c !in s
  {
    if s != [] {
      if Unreserved(s[0]) {
        SafeTextAvoids(s[1..], c);
      } else {
        SafeTextAvoids(s[3..], c);
        assert s == [s[0], s[1], s[2]] + s[3..];
      }
    }
  }
}
