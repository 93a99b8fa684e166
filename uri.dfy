/**
 * `encodeURIComponent` as ECMAScript defines it, and the avatar address the
 * roster derives from an employee's name with it.
 */
module Uri {

  /** The fixed address of the avatar service; the encoded name is appended to it. */
  const AVATAR_PREFIX: string := "https://ui-avatars.com/api/?name="

  /** The characters `encodeURIComponent` leaves as they are: ASCII letters, digits and `-_.!~*'()`. */
  predicate IsUnreserved(c: char) {
    ('A' <= c <= 'Z') || ('a' <= c <= 'z') || ('0' <= c <= '9') ||
    c == '-' || c == '_' || c == '.' || c == '!' || c == '~' || c == '*' || c == '\'' || c == '(' || c == ')'
  }

  /** A character that may appear in an encoded component: an unreserved one or the escape mark. */
  predicate IsUrlSafe(c: char) {
    IsUnreserved(c) || c == '%'
  }

  /** The UTF-8 encoding of one Unicode scalar value, as byte values. */
  function Utf8(c: char): (bytes: seq<int>)
    ensures 1 <= |bytes| <= 4
    ensures forall i :: 0 <= i < |bytes| ==> 0 <= bytes[i] < 256
  {
    var cp := c as int;
    if cp < 0x80 then [cp]
    else if cp < 0x800 then [0xC0 + cp / 64, 0x80 + cp % 64]
    else if cp < 0x10000 then [0xE0 + cp / 4096, 0x80 + (cp / 64) % 64, 0x80 + cp % 64]
    else [0xF0 + cp / 262144, 0x80 + (cp / 4096) % 64, 0x80 + (cp / 64) % 64, 0x80 + cp % 64]
  }

  /** The upper-case hexadecimal digit for `d`. */
  function HexDigit(d: int): (c: char)
    requires 0 <= d < 16
    ensures IsUnreserved(c)
  {
    if d < 10 then ('0' as int + d) as char else ('A' as int + d - 10) as char
  }

  /** The value of an upper-case hexadecimal digit (0 for any other character). */
  function HexValue(c: char): int {
    if '0' <= c <= '9' then c as int - '0' as int
    else if 'A' <= c <= 'F' then c as int - 'A' as int + 10
    else 0
  }

  /** The number of bytes a UTF-8 sequence has, read off its first byte. */
  function LeadLength(b: int): int {
    if b < 0x80 then 1 else if b < 0xE0 then 2 else if b < 0xF0 then 3 else 4
  }

  /** The code point a UTF-8 sequence of one to four bytes stands for. */
  function Utf8Value(bytes: seq<int>): int
    requires 1 <= |bytes| <= 4
  {
    if |bytes| == 1 then bytes[0]
    else if |bytes| == 2 then (bytes[0] - 0xC0) * 64 + (bytes[1] - 0x80)
    else if |bytes| == 3 then (bytes[0] - 0xE0) * 4096 + (bytes[1] - 0x80) * 64 + (bytes[2] - 0x80)
    else (bytes[0] - 0xF0) * 262144 + (bytes[1] - 0x80) * 4096 + (bytes[2] - 0x80) * 64 + (bytes[3] - 0x80)
  }

  /** `%XY` for the byte `b`, with `XY` its two upper-case hexadecimal digits. */
  function PercentEncode(bytes: seq<int>): (r: string)
    requires forall i :: 0 <= i < |bytes| ==> 0 <= bytes[i] < 256
    ensures |r| == 3 * |bytes|
    ensures forall i :: 0 <= i < |r| ==> IsUrlSafe(r[i])
  {
    if bytes == [] then []
    else ['%', HexDigit(bytes[0] / 16), HexDigit(bytes[0] % 16)] + PercentEncode(bytes[1..])
  }

  /** One character: itself when unreserved, otherwise its UTF-8 bytes percent-encoded. */
  function EncodeChar(c: char): (r: string)
    ensures forall i :: 0 <= i < |r| ==> IsUrlSafe(r[i])
  {
    if IsUnreserved(c) then [c] else PercentEncode(Utf8(c))
  }

  /** `encodeURIComponent(s)`. */
  function EncodeURIComponent(s: string): (r: string)
    ensures |r| >= |s|
    ensures forall i :: 0 <= i < |r| ==> IsUrlSafe(r[i])
  {
    if s == [] then [] else EncodeChar(s[0]) + EncodeURIComponent(s[1..])
  }

  /** A string of unreserved characters is its own encoding. */
  lemma {:induction false} EncodeUnreservedIdentity(s: string)
    requires forall i :: 0 <= i < |s| ==> IsUnreserved(s[i])
    ensures EncodeURIComponent(s) == s
  {
    if s != [] {
      EncodeUnreservedIdentity(s[1..]);
    }
  }

  /** The avatar address derived from a name: the service prefix followed by the encoded name. */
  function AvatarFor(name: string): (url: string)
    ensures |url| >= |AVATAR_PREFIX| && url[..|AVATAR_PREFIX|] == AVATAR_PREFIX
    ensures forall i :: |AVATAR_PREFIX| <= i < |url| ==> IsUrlSafe(url[i])
  {
    AVATAR_PREFIX + EncodeURIComponent(name)
  }

  /** Reading a digit back gives the number it was written for. */
  lemma HexRoundTrip(d: int)
    requires 0 <= d < 16
    ensures HexValue(HexDigit(d)) == d
  {
  }

  /** Splitting off the lowest six bits. */
  lemma DivMod64(x: int)
    requires x >= 0
    ensures x == (x / 64) * 64 + x % 64
    ensures (x / 64) / 64 == x / 4096 && (x / 4096) / 64 == x / 262144
  {
  }

  /** UTF-8 decoding undoes UTF-8 encoding, and the first byte announces the length. */
  lemma Utf8RoundTrip(c: char)
    ensures Utf8Value(Utf8(c)) == c as int
    ensures LeadLength(Utf8(c)[0]) == |Utf8(c)|
  {
    var cp := c as int;
    DivMod64(cp);
    DivMod64(cp / 64);
    DivMod64(cp / 4096);
  }

  /** Different characters have different UTF-8 encodings. */
  lemma Utf8Injective(a: char, b: char)
    requires Utf8(a) == Utf8(b)
    ensures a == b
  {
    Utf8RoundTrip(a);
    Utf8RoundTrip(b);
  }

  /** Reading the bytes back out of their `%XY` form. */
  lemma {:induction false} PercentEncodeInjective(x: seq<int>, y: seq<int>)
    requires forall i :: 0 <= i < |x| ==> 0 <= x[i] < 256
    requires forall i :: 0 <= i < |y| ==> 0 <= y[i] < 256
    requires PercentEncode(x) == PercentEncode(y)
    ensures x == y
  {
    if x != [] {
      var r := PercentEncode(x);
      HexRoundTrip(x[0] / 16);
      HexRoundTrip(x[0] % 16);
      HexRoundTrip(y[0] / 16);
      HexRoundTrip(y[0] % 16);
      assert x[0] == HexValue(r[1]) * 16 + HexValue(r[2]) == y[0];
      assert PercentEncode(x[1..]) == r[3..] == PercentEncode(y[1..]);
      PercentEncodeInjective(x[1..], y[1..]);
    }
  }

  /** How many characters the encoding of the first character of `s` takes, read off its start. */
  function EncodedLength(s: string): int {
    if s == [] then 0
    else if s[0] != '%' then 1
    else if |s| < 3 then |s|
    else 3 * LeadLength(HexValue(s[1]) * 16 + HexValue(s[2]))
  }

  /** The encoding of one character is recognisable from its start, whatever follows it. */
  lemma EncodedLengthOfChar(c: char, rest: string)
    ensures EncodedLength(EncodeChar(c) + rest) == |EncodeChar(c)|
  {
    if !IsUnreserved(c) {
      var bytes := Utf8(c);
      Utf8RoundTrip(c);
      HexRoundTrip(bytes[0] / 16);
      HexRoundTrip(bytes[0] % 16);
      var e := EncodeChar(c) + rest;
      assert e[0] == '%' && e[1] == HexDigit(bytes[0] / 16) && e[2] == HexDigit(bytes[0] % 16);
    }
  }

  /** Different characters have different encodings. */
  lemma EncodeCharInjective(a: char, b: char)
    requires EncodeChar(a) == EncodeChar(b)
    ensures a == b
  {
    if !IsUnreserved(a) && !IsUnreserved(b) {
      PercentEncodeInjective(Utf8(a), Utf8(b));
      Utf8Injective(a, b);
    }
  }

  /** `encodeURIComponent` loses nothing: different strings have different encodings. */
  lemma {:induction false} EncodeInjective(s: string, t: string)
    requires EncodeURIComponent(s) == EncodeURIComponent(t)
    ensures s == t
  {
    if s != [] && t != [] {
      var a, b := EncodeChar(s[0]), EncodeChar(t[0]);
      var e := EncodeURIComponent(s);
      EncodedLengthOfChar(s[0], EncodeURIComponent(s[1..]));
      EncodedLengthOfChar(t[0], EncodeURIComponent(t[1..]));
      assert |a| == |b|;
      assert a == e[..|a|] == b;
      EncodeCharInjective(s[0], t[0]);
      assert EncodeURIComponent(s[1..]) == e[|a|..] == EncodeURIComponent(t[1..]);
      EncodeInjective(s[1..], t[1..]);
    }
  }

  /** Two different names never share a derived avatar address. */
  lemma AvatarForInjective(a: string, b: string)
    requires AvatarFor(a) == AvatarFor(b)
    ensures a == b
  {
    assert EncodeURIComponent(a) == AvatarFor(a)[|AVATAR_PREFIX|..];
    EncodeInjective(a, b);
  }
}
