/** The parts of Go's `strings`, `strconv` and `unicode` packages that the services rely on. */
module Text {
  import opened Basics

  // ---------- prefixes and suffixes ----------

  predicate HasPrefix(s: string, prefix: string) {
    prefix <= s
  }

  predicate HasSuffix(s: string, suffix: string) {
    |suffix| <= |s| && s[|s| - |suffix|..] == suffix
  }

  /** `strings.ToLower` on ASCII letters; every other character is left alone. */
  function LowerChar(c: char): (r: char)
    ensures r == '.' <==> c == '.'
    ensures r == '/' <==> c == '/'
  {
    if 'A' <= c <= 'Z' then (c as int + 32) as char else c
  }

  function ToLower(s: string): (r: string)
    ensures |r| == |s|
    ensures forall i | 0 <= i < |s| :: r[i] == LowerChar(s[i])
  {
    seq(|s|, i requires 0 <= i < |s| => LowerChar(s[i]))
  }

  lemma LowerAlphabet(i: nat, c: char)
    ensures i < 26 ==> LowerChar("ABCDEFGHIJKLMNOPQRSTUVWXYZ"[i]) == "abcdefghijklmnopqrstuvwxyz"[i]
    ensures !('A' <= c <= 'Z') ==> LowerChar(c) == c
  {
  }

  // ---------- white space ----------

  /** `unicode.IsSpace`. */
  predicate IsSpace(c: char) {
    || c in {'\t', '\n', '\r', ' '}
    || (c as int) in {0x0B, 0x0C, 0x85, 0xA0, 0x1680, 0x2028, 0x2029, 0x202F, 0x205F, 0x3000}
    || 0x2000 <= c as int <= 0x200A
  }

  function TrimLeft(s: string): string {
    if s != [] && IsSpace(s[0]) then TrimLeft(s[1..]) else s
  }

  function TrimRight(s: string): string {
    if s != [] && IsSpace(s[|s| - 1]) then TrimRight(s[..|s| - 1]) else s
  }

  function TrimSpace(s: string): string {
    TrimRight(TrimLeft(s))
  }

  lemma {:induction false} TrimLeftIs(s: string) returns (front: string)
    ensures s == front + TrimLeft(s) && (forall c | c in front :: IsSpace(c))
    ensures TrimLeft(s) == "" || !IsSpace(TrimLeft(s)[0])
  {
    front := "";
    if s != [] && IsSpace(s[0]) {
      var rest := TrimLeftIs(s[1..]);
      front := [s[0]] + rest;
      assert s == [s[0]] + s[1..];
    }
  }

  lemma {:induction false} TrimRightIs(s: string) returns (back: string)
    ensures s == TrimRight(s) + back && (forall c | c in back :: IsSpace(c))
    ensures TrimRight(s) == "" || !IsSpace(TrimRight(s)[|TrimRight(s)| - 1])
  {
    back := "";
    if s != [] && IsSpace(s[|s| - 1]) {
      var rest := TrimRightIs(s[..|s| - 1]);
      back := rest + [s[|s| - 1]];
      assert s == s[..|s| - 1] + [s[|s| - 1]];
    }
  }

  /** Trimming takes away exactly the white space at both ends. */
  lemma TrimSpaceIs(s: string) returns (front: string, back: string)
    ensures s == front + TrimSpace(s) + back
    ensures (forall c | c in front :: IsSpace(c)) && (forall c | c in back :: IsSpace(c))
    ensures TrimSpace(s) == "" || (!IsSpace(TrimSpace(s)[0]) && !IsSpace(TrimSpace(s)[|TrimSpace(s)| - 1]))
  {
    front := TrimLeftIs(s);
    back := TrimRightIs(TrimLeft(s));
    assert front + (TrimSpace(s) + back) == front + TrimSpace(s) + back;
    if TrimSpace(s) != "" {
      assert TrimLeft(s)[0] == TrimSpace(s)[0];
    }
  }

  lemma TrimTwice(s: string)
    ensures TrimSpace(TrimSpace(s)) == TrimSpace(s)
  {
    var front, back := TrimSpaceIs(s);
  }

  // ---------- fields: maximal runs of non-space characters ----------

  function TokenLength(s: string): (n: nat)
    ensures n <= |s|
    ensures forall i | 0 <= i < n :: !IsSpace(s[i])
    ensures n < |s| ==> IsSpace(s[n])
  {
    if s == [] || IsSpace(s[0]) then 0 else 1 + TokenLength(s[1..])
  }

  /** `strings.Fields`. */
  function Fields(s: string): seq<string> {
    if s == [] then []
    else if IsSpace(s[0]) then Fields(s[1..])
    else [s[..TokenLength(s)]] + Fields(s[TokenLength(s)..])
  }

  /** `strings.Join`. */
  function Join(parts: seq<string>, sep: string): string {
    if parts == [] then []
    else if |parts| == 1 then parts[0]
    else parts[0] + sep + Join(parts[1..], sep)
  }

  predicate IsToken(t: string) {
    t != [] && forall c | c in t :: !IsSpace(c)
  }

  lemma {:induction false} FieldsAreTokens(s: string)
    ensures forall t | t in Fields(s) :: IsToken(t)
    decreases |s|
  {
    if s != [] {
      if IsSpace(s[0]) {
        FieldsAreTokens(s[1..]);
      } else {
        FieldsAreTokens(s[TokenLength(s)..]);
      }
    }
  }

  lemma {:induction false} TokenLengthStops(t: string, rest: string)
    requires forall c | c in t :: !IsSpace(c)
    requires rest == [] || IsSpace(rest[0])
    ensures TokenLength(t + rest) == |t|
  {
    if t == [] {
      assert t + rest == rest;
    } else {
      assert t[0] in t;
      assert (t + rest)[1..] == t[1..] + rest;
      TokenLengthStops(t[1..], rest);
    }
  }

  /** Splitting what was joined with single spaces gives the tokens back. */
  lemma {:induction false} FieldsOfJoin(parts: seq<string>)
    requires forall t | t in parts :: IsToken(t)
    ensures Fields(Join(parts, " ")) == parts
  {
    if parts != [] {
      var t := parts[0];
      assert t in parts && t[0] in t;
      if |parts| == 1 {
        TokenLengthStops(t, []);
        assert t + [] == t;
        assert t[|t|..] == [];
      } else {
        var rest := Join(parts[1..], " ");
        var joined := t + " " + rest;
        assert joined == t + (" " + rest);
        TokenLengthStops(t, " " + rest);
        assert joined[..|t|] == t && joined[|t|..] == " " + rest;
        assert (" " + rest)[1..] == rest;
        FieldsOfJoin(parts[1..]);
      }
    }
  }

  /** White space separates fields, wherever it stands. */
  lemma {:induction false} FieldsAtSpace(s: string, c: char, t: string)
    requires IsSpace(c)
    ensures Fields(s + [c] + t) == Fields(s) + Fields(t)
    decreases |s|
  {
    var all := s + [c] + t;
    if s == [] {
      assert all[1..] == t;
    } else if IsSpace(s[0]) {
      assert all[1..] == s[1..] + [c] + t;
      FieldsAtSpace(s[1..], c, t);
    } else {
      var n := TokenLength(s);
      assert all == s[..n] + (s[n..] + [c] + t);
      TokenLengthStops(s[..n], s[n..] + [c] + t);
      assert all[..n] == s[..n] && all[n..] == s[n..] + [c] + t;
      FieldsAtSpace(s[n..], c, t);
    }
  }

  /** Text without white space is one field, and no text none. */
  lemma FieldOfToken(t: string)
    ensures IsToken(t) ==> Fields(t) == [t]
    ensures Fields("") == []
  {
    if IsToken(t) {
      FieldsOfJoin([t]);
    }
  }

  // ---------- splitting at one character ----------

  /** `s.split("c")` and `strings.Split` for a one-character separator: always at least one part. */
  function Split(s: string, sep: char): (parts: seq<string>)
    ensures |parts| >= 1
    ensures forall p | p in parts :: sep !in p
  {
    if s == [] then [[]]
    else
      var rest := Split(s[1..], sep);
      if s[0] == sep then [[]] + rest else [[s[0]] + rest[0]] + rest[1..]
  }

  lemma {:induction false} JoinOfSplit(s: string, sep: char)
    ensures Join(Split(s, sep), [sep]) == s
  {
    if s != [] {
      var rest := Split(s[1..], sep);
      JoinOfSplit(s[1..], sep);
      if s[0] == sep {
        assert ([[]] + rest)[1..] == rest;
        assert [] + [sep] + s[1..] == s;
      } else {
        var parts := [[s[0]] + rest[0]] + rest[1..];
        assert parts[1..] == rest[1..];
        assert s == [s[0]] + s[1..];
        if |rest| > 1 {
          assert [s[0]] + (rest[0] + [sep] + Join(rest[1..], [sep])) == [s[0]] + rest[0] + [sep] + Join(rest[1..], [sep]);
        }
      }
    }
  }

  lemma {:induction false} SplitOfJoin(parts: seq<string>, sep: char)
    requires |parts| >= 1
    requires forall p | p in parts :: sep !in p
    ensures Split(Join(parts, [sep]), sep) == parts
    decreases |parts|, |parts[0]|
  {
    var head := parts[0];
    if head == [] {
      if |parts| > 1 {
        assert Join(parts, [sep]) == [sep] + Join(parts[1..], [sep]);
        assert ([sep] + Join(parts[1..], [sep]))[1..] == Join(parts[1..], [sep]);
        SplitOfJoin(parts[1..], sep);
        assert parts == [[]] + parts[1..];
      } else {
        assert parts == [[]];
      }
    } else {
      var shorter := [head[1..]] + parts[1..];
      assert shorter[1..] == parts[1..];
      assert head == [head[0]] + head[1..];
      assert head in parts && head[0] in head;
      var joined := Join(parts, [sep]);
      assert joined[0] == head[0] != sep;
      assert joined[1..] == Join(shorter, [sep]);
      SplitOfJoin(shorter, sep);
      assert parts == [[head[0]] + shorter[0]] + shorter[1..];
    }
  }

  // ---------- decimal numbers ----------

  predicate IsDigit(c: char) {
    '0' <= c <= '9'
  }

  function DigitChar(d: nat): (c: char)
    requires d < 10
    ensures IsDigit(c)
  {
    ('0' as int + d) as char
  }

  function DigitValue(c: char): (d: nat)
    requires IsDigit(c)
    ensures d < 10
  {
    c as int - '0' as int
  }

  /** Decimal digits without leading zeros. */
  function Decimal(n: nat): (s: string)
    ensures s != []
    ensures forall c | c in s :: IsDigit(c)
  {
    if n < 10 then [DigitChar(n)] else Decimal(n / 10) + [DigitChar(n % 10)]
  }

  function ParseDigits(s: string): nat
    requires forall c | c in s :: IsDigit(c)
  {
    if s == [] then 0 else 10 * ParseDigits(s[..|s| - 1]) + DigitValue(s[|s| - 1])
  }

  lemma {:induction false} ParseDecimal(n: nat)
    ensures ParseDigits(Decimal(n)) == n
  {
    if n < 10 {
      assert [DigitChar(n)][..0] == [];
    } else {
      ParseDecimal(n / 10);
      var s := Decimal(n / 10) + [DigitChar(n % 10)];
      assert s[..|s| - 1] == Decimal(n / 10);
    }
  }

  /** `%03d` for a natural number. */
  function PadThree(n: nat): string {
    if n < 10 then "00" + Decimal(n)
    else if n < 100 then "0" + Decimal(n)
    else Decimal(n)
  }

  lemma PadThreeDigits(n: nat)
    ensures forall c | c in PadThree(n) :: IsDigit(c)
    ensures ParseDigits(PadThree(n)) == n
    ensures if n < 1000 then |PadThree(n)| == 3 else PadThree(n)[0] != '0'
  {
    ParseDecimal(n);
    DecimalStarts(n);
    if 100 <= n < 1000 {
      assert Decimal(n) == Decimal(n / 10) + [DigitChar(n % 10)] && |Decimal(n / 10)| == 2;
    }
    if n < 100 {
      ParseDecimal(n / 10);
      ParseLeadingZero(Decimal(n));
      ParseLeadingZero("0" + Decimal(n));
      assert "00" + Decimal(n) == ['0'] + ("0" + Decimal(n));
    }
  }

  lemma {:induction false} DecimalStarts(n: nat)
    ensures n > 0 ==> Decimal(n)[0] != '0'
  {
    if n >= 10 {
      DecimalStarts(n / 10);
    }
  }

  lemma {:induction false} ParseLeadingZero(s: string)
    requires forall c | c in s :: IsDigit(c)
    ensures forall c | c in ['0'] + s :: IsDigit(c)
    ensures ParseDigits(['0'] + s) == ParseDigits(s)
  {
    var t := ['0'] + s;
    if s == [] {
      assert t[..0] == [];
    } else {
      ParseLeadingZero(s[..|s| - 1]);
      assert t[..|t| - 1] == ['0'] + s[..|s| - 1];
    }
  }
}
