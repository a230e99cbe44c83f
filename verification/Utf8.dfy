/** UTF-8, on characters that are Unicode scalar values. */
module Utf8 {
  import opened Basics
  import opened Base64Url

  function EncodeChar(c: char): seq<Byte> {
    var n := c as int;
    if n < 0x80 then [n]
    else if n < 0x800 then [0xC0 + n / 64, 0x80 + n % 64]
    else if n < 0x1_0000 then [0xE0 + n / 4096, 0x80 + n / 64 % 64, 0x80 + n % 64]
    else [0xF0 + n / 262144, 0x80 + n / 4096 % 64, 0x80 + n / 64 % 64, 0x80 + n % 64]
  }

  function Encode(s: string): seq<Byte> {
    if s == [] then [] else EncodeChar(s[0]) + Encode(s[1..])
  }

  predicate IsScalar(n: int) {
    0 <= n < 0xD800 || 0xE000 <= n < 0x11_0000
  }

  predicate Continues(b: Byte) {
    0x80 <= b < 0xC0
  }

  /** Six more bits from a continuation byte. */
  function Bits(n: int, b: int): int {
    n * 64 + (b - 0x80)
  }

  /** The first character and the number of bytes it takes, or None for a malformed sequence. */
  function DecodeChar(b: seq<Byte>): (r: Option<(char, nat)>)
    requires b != []
    ensures r.Some? ==> 1 <= r.value.1 <= |b|
  {
    if b[0] < 0x80 then Some((b[0] as char, 1))
    else if 0xC0 <= b[0] < 0xE0 && |b| >= 2 && Continues(b[1]) then
      Scalar(Bits(b[0] as int - 0xC0, b[1]), 0x80, 2)
    else if 0xE0 <= b[0] < 0xF0 && |b| >= 3 && Continues(b[1]) && Continues(b[2]) then
      Scalar(Bits(Bits(b[0] as int - 0xE0, b[1]), b[2]), 0x800, 3)
    else if 0xF0 <= b[0] < 0xF8 && |b| >= 4 && Continues(b[1]) && Continues(b[2]) && Continues(b[3]) then
      Scalar(Bits(Bits(Bits(b[0] as int - 0xF0, b[1]), b[2]), b[3]), 0x1_0000, 4)
    else None
  }

  /** Overlong forms and surrogates are malformed. */
  function Scalar(n: int, least: int, width: nat): Option<(char, nat)> {
    if least <= n && IsScalar(n) then Some((n as char, width)) else None
  }

  /** A byte that starts no well-formed character reads as U+FFFD. */
  function Decode(b: seq<Byte>): string
    decreases |b|
  {
    if b == [] then []
    else
      match DecodeChar(b)
      case None => [0xFFFD as char] + Decode(b[1..])
      case Some((c, width)) => [c] + Decode(b[width..])
  }

  lemma CharRoundTrip(c: char, rest: seq<Byte>)
    ensures DecodeChar(EncodeChar(c) + rest) == Some((c, |EncodeChar(c)|))
  {
    var n := c as int;
    var b := EncodeChar(c) + rest;
    assert IsScalar(n);
    if n < 0x80 {
    } else if n < 0x800 {
      assert b[0] == 0xC0 + n / 64 && b[1] == 0x80 + n % 64;
    } else if n < 0x1_0000 {
      assert b[0] == 0xE0 + n / 4096 && b[1] == 0x80 + n / 64 % 64 && b[2] == 0x80 + n % 64;
      ThreeGroups(n);
    } else {
      assert b[0] == 0xF0 + n / 262144 && b[1] == 0x80 + n / 4096 % 64 && b[2] == 0x80 + n / 64 % 64 && b[3] == 0x80 + n % 64;
      FourGroups(n);
    }
  }

  lemma ThreeGroups(n: nat)
    ensures Bits(Bits(n / 4096, 0x80 + n / 64 % 64), 0x80 + n % 64) == n
  {
    assert n / 64 == n / 4096 * 64 + n / 64 % 64;
  }

  lemma FourGroups(n: nat)
    ensures Bits(Bits(Bits(n / 262144, 0x80 + n / 4096 % 64), 0x80 + n / 64 % 64), 0x80 + n % 64) == n
  {
    assert n / 4096 == n / 262144 * 64 + n / 4096 % 64;
    ThreeGroups(n);
  }

  lemma {:induction false} RoundTrip(s: string)
    ensures Decode(Encode(s)) == s
  {
    if s != [] {
      var first := EncodeChar(s[0]);
      CharRoundTrip(s[0], Encode(s[1..]));
      assert Encode(s)[|first|..] == Encode(s[1..]);
      RoundTrip(s[1..]);
      assert s == [s[0]] + s[1..];
    }
  }

  /** The examples of section 7 of RFC 3629 that show each length. */
  lemma KnownEncodings()
    ensures Encode(['A', 0x2262 as char, 0x391 as char, '.']) == [0x41, 0xE2, 0x89, 0xA2, 0xCE, 0x91, 0x2E]
    ensures Encode([0x233B4 as char]) == [0xF0, 0xA3, 0x8E, 0xB4]
  {
    assert ['.'][1..] == [];
    assert Encode(['.']) == [0x2E];
    assert [0x391 as char, '.'][1..] == ['.'];
    assert EncodeChar(0x391 as char) == [0xCE, 0x91];
    assert Encode([0x391 as char, '.']) == [0xCE, 0x91, 0x2E];
    assert [0x2262 as char, 0x391 as char, '.'][1..] == [0x391 as char, '.'];
    assert Encode([0x2262 as char, 0x391 as char, '.']) == [0xE2, 0x89, 0xA2, 0xCE, 0x91, 0x2E];
    assert ['A', 0x2262 as char, 0x391 as char, '.'][1..] == [0x2262 as char, 0x391 as char, '.'];
  }
}
