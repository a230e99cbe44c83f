/** Unpadded base64url: sections 3.2 and 5 of RFC 4648. */
module Base64Url {
  import opened Basics

  type Byte = x: int | 0 <= x < 256
  type Sextet = x: int | 0 <= x < 64

  function SextetChar(v: Sextet): char {
    if v < 26 then ('A' as int + v) as char
    else if v < 52 then ('a' as int + (v - 26)) as char
    else if v < 62 then ('0' as int + (v - 52)) as char
    else if v == 62 then '-'
    else '_'
  }

  function SextetValue(c: char): Option<Sextet> {
    if 'A' <= c <= 'Z' then Some(c as int - 'A' as int)
    else if 'a' <= c <= 'z' then Some(c as int - 'a' as int + 26)
    else if '0' <= c <= '9' then Some(c as int - '0' as int + 52)
    else if c == '-' then Some(62)
    else if c == '_' then Some(63)
    else None
  }

  lemma SextetRoundTrip(v: Sextet)
    ensures SextetValue(SextetChar(v)) == Some(v)
    ensures SextetChar(v) != '\r' && SextetChar(v) != '\n'
  {
  }

  function ToSextets(b: seq<Byte>): seq<Sextet> {
    if b == [] then []
    else if |b| == 1 then [b[0] / 4, b[0] % 4 * 16]
    else if |b| == 2 then [b[0] / 4, b[0] % 4 * 16 + b[1] / 16, b[1] % 16 * 4]
    else [b[0] / 4, b[0] % 4 * 16 + b[1] / 16, b[1] % 16 * 4 + b[2] / 64, b[2] % 64] + ToSextets(b[3..])
  }

  function First(a: int, b: int): Byte
    requires 0 <= a < 64 && 0 <= b < 64
  {
    a * 4 + b / 16
  }

  function Second(b: int, c: int): Byte
    requires 0 <= b < 64 && 0 <= c < 64
  {
    b % 16 * 16 + c / 4
  }

  function Third(c: int, d: int): Byte
    requires 0 <= c < 64 && 0 <= d < 64
  {
    c % 4 * 64 + d
  }

  /** Left-over bits of the last group are ignored; a single left-over character is an error. */
  function FromSextets(v: seq<Sextet>): Option<seq<Byte>> {
    if v == [] then Some([])
    else if |v| == 1 then None
    else if |v| == 2 then Some([First(v[0], v[1])])
    else if |v| == 3 then Some([First(v[0], v[1]), Second(v[1], v[2])])
    else
      match FromSextets(v[4..])
      case None => None
      case Some(rest) => Some([First(v[0], v[1]), Second(v[1], v[2]), Third(v[2], v[3])] + rest)
  }

  lemma GroupRoundTrip(x: Byte, y: Byte, z: Byte)
    ensures First(x / 4, x % 4 * 16 + y / 16) == x
    ensures Second(x % 4 * 16 + y / 16, y % 16 * 4 + z / 64) == y
    ensures Third(y % 16 * 4 + z / 64, z % 64) == z
  {
  }

  lemma {:induction false} GroupsRoundTrip(b: seq<Byte>)
    ensures FromSextets(ToSextets(b)) == Some(b)
  {
    var v := ToSextets(b);
    if |b| >= 3 {
      GroupsRoundTrip(b[3..]);
      assert v[4..] == ToSextets(b[3..]);
      GroupRoundTrip(b[0], b[1], b[2]);
      assert b == [b[0], b[1], b[2]] + b[3..];
    } else if |b| == 2 {
      GroupRoundTrip(b[0], b[1], 0);
      assert b == [b[0], b[1]];
    } else if |b| == 1 {
      GroupRoundTrip(b[0], 0, 0);
      assert b == [b[0]];
    }
  }

  function Encode(b: seq<Byte>): string {
    Spell(ToSextets(b))
  }

  function Spell(v: seq<Sextet>): string {
    if v == [] then [] else [SextetChar(v[0])] + Spell(v[1..])
  }

  /** Line breaks between characters are skipped. */
  function Read(s: string): Option<seq<Sextet>> {
    if s == [] then Some([])
    else if s[0] == '\r' || s[0] == '\n' then Read(s[1..])
    else
      match (SextetValue(s[0]), Read(s[1..]))
      case (Some(v), Some(rest)) => Some([v] + rest)
      case _ => None
  }

  function Decode(s: string): Option<seq<Byte>> {
    match Read(s)
    case None => None
    case Some(v) => FromSextets(v)
  }

  lemma {:induction false} SpellingRoundTrip(v: seq<Sextet>)
    ensures Read(Spell(v)) == Some(v)
  {
    if v != [] {
      SextetRoundTrip(v[0]);
      SpellingRoundTrip(v[1..]);
      assert Spell(v)[1..] == Spell(v[1..]);
      assert v == [v[0]] + v[1..];
    }
  }

  lemma RoundTrip(b: seq<Byte>)
    ensures Decode(Encode(b)) == Some(b)
    ensures b != [] ==> Encode(b) != []
  {
    GroupsRoundTrip(b);
    SpellingRoundTrip(ToSextets(b));
  }

  // ---------- the alphabet ----------

  /** Table 2 of RFC 4648. */
  lemma SextetsAreAlphabet(v: Sextet)
    ensures v < 26 ==> SextetChar(v) == "ABCDEFGHIJKLMNOPQRSTUVWXYZ"[v]
    ensures 26 <= v < 52 ==> SextetChar(v) == "abcdefghijklmnopqrstuvwxyz"[v - 26]
    ensures 52 <= v ==> SextetChar(v) == "0123456789-_"[v - 52]
  {
  }

  /** Some of the test vectors of section 10 of RFC 4648, without padding, and one with both special characters. */
  lemma KnownEncodings()
    ensures Encode([0x66]) == "Zg" && Encode([0x66, 0x6F]) == "Zm8" && Encode([0x66, 0x6F, 0x6F]) == "Zm9v"
    ensures Encode([0xFB, 0xFF]) == "-_8"
  {
    SpellFour(25, 38, 61, 47);
    SpellFour(62, 63, 60, 0);
    assert ToSextets([0x66, 0x6F, 0x6F]) == [25, 38, 61, 47] + ToSextets([0x66, 0x6F, 0x6F][3..]);
  }

  lemma SpellFour(a: Sextet, b: Sextet, c: Sextet, d: Sextet)
    ensures Spell([a, b]) == [SextetChar(a), SextetChar(b)]
    ensures Spell([a, b, c]) == [SextetChar(a), SextetChar(b), SextetChar(c)]
    ensures Spell([a, b, c, d]) == [SextetChar(a), SextetChar(b), SextetChar(c), SextetChar(d)]
  {
    assert [d][1..] == [] && [b][1..] == [] && [c][1..] == [];
    assert Spell([b]) == [SextetChar(b)] && Spell([c]) == [SextetChar(c)] && Spell([d]) == [SextetChar(d)];
    assert [a, b][1..] == [b] && [b, c][1..] == [c] && [c, d][1..] == [d];
    assert Spell([b, c]) == [SextetChar(b), SextetChar(c)] && Spell([c, d]) == [SextetChar(c), SextetChar(d)];
    assert [a, b, c][1..] == [b, c] && [b, c, d][1..] == [c, d];
    assert Spell([b, c, d]) == [SextetChar(b), SextetChar(c), SextetChar(d)];
    assert [a, b, c, d][1..] == [b, c, d];
  }

  function WithoutBreaks(s: string): string {
    if s == [] then [] else (if s[0] == '\r' || s[0] == '\n' then [] else [s[0]]) + WithoutBreaks(s[1..])
  }

  predicate InAlphabet(c: char) {
    'A' <= c <= 'Z' || 'a' <= c <= 'z' || '0' <= c <= '9' || c == '-' || c == '_'
  }

  lemma {:induction false} ReadIff(s: string)
    ensures Read(s).Some? <==> forall c | c in WithoutBreaks(s) :: InAlphabet(c)
    ensures Read(s).Some? ==> |Read(s).value| == |WithoutBreaks(s)|
  {
    if s != [] {
      var rest := WithoutBreaks(s[1..]);
      ReadIff(s[1..]);
      if s[0] == '\r' || s[0] == '\n' {
        assert WithoutBreaks(s) == rest;
      } else {
        assert WithoutBreaks(s) == [s[0]] + rest;
        assert s[0] in WithoutBreaks(s) && forall c | c in rest :: c in WithoutBreaks(s);
      }
    }
  }

  lemma {:induction false} FromSextetsIff(v: seq<Sextet>)
    ensures FromSextets(v).Some? <==> |v| % 4 != 1
  {
    hide First, Second, Third;
    if |v| >= 4 {
      FromSextetsIff(v[4..]);
      assert |v| % 4 == |v[4..]| % 4;
    }
  }

  /** What can be decoded: characters of the alphabet, leaving line breaks aside, and no single one at the end. */
  lemma DecodesIff(s: string)
    ensures Decode(s).Some? <==>
              (forall c | c in WithoutBreaks(s) :: InAlphabet(c)) && |WithoutBreaks(s)| % 4 != 1
  {
    ReadIff(s);
    if Read(s).Some? {
      FromSextetsIff(Read(s).value);
    }
  }
}
