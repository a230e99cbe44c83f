/** JSON text as Go's `encoding/json` reads it, and as it writes strings and integers (RFC 8259). */
module Json {
  import opened Basics
  import opened Text

  datatype Value =
    | Null
    | Bool(value: bool)
    | Number(literal: string)
    | Text(text: string)
    | Array(items: seq<Value>)
    | Object(members: seq<Member>)

  datatype Member = Member(key: string, value: Value)

  /** Something read from the front of a text, and what follows it. */
  type Reading<T> = Option<(T, string)>

  // ---------- integers ----------

  function WriteInt(n: Int64): string {
    if n < 0 then "-" + Decimal(-(n as int)) else Decimal(n)
  }

  predicate AllDigits(s: string) {
    forall c | c in s :: IsDigit(c)
  }

  /** The 64-bit integer that a number literal spells, if it does. */
  function ReadInt(s: string): Option<Int64> {
    var negative := s != [] && s[0] == '-';
    var digits := if negative then s[1..] else s;
    if digits == [] || !AllDigits(digits) then None
    else
      var magnitude: int := ParseDigits(digits);
      var n: int := if negative then -magnitude else magnitude;
      if -0x8000_0000_0000_0000 <= n < 0x8000_0000_0000_0000 then Some(n) else None
  }

  lemma {:induction false} NoLeadingZero(n: nat)
    ensures Decimal(n)[0] == '0' ==> n == 0
    ensures n < 10 ==> |Decimal(n)| == 1
  {
    if n >= 10 {
      NoLeadingZero(n / 10);
    }
  }

  lemma ReadDigits(digits: string)
    requires digits != [] && AllDigits(digits)
    ensures ParseDigits(digits) < 0x8000_0000_0000_0000 ==> ReadInt(digits) == Some(ParseDigits(digits))
    ensures ParseDigits(digits) <= 0x8000_0000_0000_0000 ==> ReadInt(['-'] + digits) == Some(-(ParseDigits(digits) as int))
  {
    assert digits[0] in digits;
    assert (['-'] + digits)[1..] == digits;
  }

  lemma IntRoundTrip(n: Int64)
    ensures ReadInt(WriteInt(n)) == Some(n)
  {
    var magnitude: nat := if n < 0 then -(n as int) else n;
    ParseDecimal(magnitude);
    ReadDigits(Decimal(magnitude));
  }

  // ---------- number literals ----------

  function DigitRun(s: string): (n: nat)
    ensures n <= |s|
    ensures forall i | 0 <= i < n :: IsDigit(s[i])
    ensures n < |s| ==> !IsDigit(s[n])
  {
    if s == [] || !IsDigit(s[0]) then 0 else 1 + DigitRun(s[1..])
  }

  /** The length of the integer part: an optional minus, and digits without a leading zero. */
  function IntPart(s: string): (n: nat)
    ensures n <= |s|
  {
    var sign := if s != [] && s[0] == '-' then 1 else 0;
    if sign == |s| || !IsDigit(s[sign]) then 0
    else if s[sign] == '0' then sign + 1
    else sign + DigitRun(s[sign..])
  }

  /** The length of a fraction, zero if there is none, or None if it has no digits. */
  function FractionPart(s: string): (n: Option<nat>)
    ensures n.Some? ==> n.value <= |s|
  {
    if s == [] || s[0] != '.' then Some(0)
    else if DigitRun(s[1..]) == 0 then None
    else Some(1 + DigitRun(s[1..]))
  }

  function ExponentPart(s: string): (n: Option<nat>)
    ensures n.Some? ==> n.value <= |s|
  {
    if s == [] || (s[0] != 'e' && s[0] != 'E') then Some(0)
    else
      var sign := if |s| > 1 && (s[1] == '+' || s[1] == '-') then 2 else 1;
      if DigitRun(s[sign..]) == 0 then None else Some(sign + DigitRun(s[sign..]))
  }

  function NumberLength(s: string): (n: Option<nat>)
    ensures n.Some? ==> 0 < n.value <= |s|
  {
    var whole := IntPart(s);
    if whole == 0 then None
    else
      match FractionPart(s[whole..])
      case None => None
      case Some(fraction) =>
        match ExponentPart(s[whole + fraction..])
        case None => None
        case Some(exponent) => Some(whole + fraction + exponent)
  }

  lemma {:induction false} DigitRunStops(digits: string, rest: string)
    requires AllDigits(digits) && (rest == [] || !IsDigit(rest[0]))
    ensures DigitRun(digits + rest) == |digits|
  {
    if digits == [] {
      assert digits + rest == rest;
    } else {
      assert digits[0] in digits;
      assert (digits + rest)[1..] == digits[1..] + rest;
      DigitRunStops(digits[1..], rest);
    }
  }

  /** Digits without a leading zero, and what cannot continue them. */
  ghost predicate Plain(digits: string, rest: string) {
    && digits != [] && AllDigits(digits) && (digits[0] == '0' ==> |digits| == 1)
    && rest != [] && !IsDigit(rest[0]) && rest[0] !in {'.', 'e', 'E'}
  }

  lemma IntPartPlain(digits: string, rest: string)
    requires Plain(digits, rest)
    ensures IntPart(digits + rest) == |digits|
  {
    assert digits[0] in digits;
    DigitRunStops(digits, rest);
    assert (digits + rest)[0..] == digits + rest;
  }

  lemma IntPartSigned(digits: string, rest: string)
    requires Plain(digits, rest)
    ensures IntPart(['-'] + digits + rest) == 1 + |digits|
  {
    assert digits[0] in digits;
    DigitRunStops(digits, rest);
    assert (['-'] + digits + rest)[1..] == digits + rest;
  }

  lemma NumberEnds(s: string, n: nat)
    requires IntPart(s) == n && 0 < n < |s| && s[n] !in {'.', 'e', 'E'}
    ensures NumberLength(s) == Some(n)
  {
    assert s[n..][0] == s[n];
  }

  /** A written integer is read as a number when something that cannot continue it follows. */
  lemma WrittenIntIsNumber(n: Int64, rest: string)
    requires rest != [] && !IsDigit(rest[0]) && rest[0] !in {'.', 'e', 'E'}
    ensures NumberLength(WriteInt(n) + rest) == Some(|WriteInt(n)|)
  {
    var magnitude: nat := if n < 0 then -(n as int) else n;
    NoLeadingZero(magnitude);
    if n < 0 {
      IntPartSigned(Decimal(magnitude), rest);
    } else {
      IntPartPlain(Decimal(magnitude), rest);
    }
    NumberEnds(WriteInt(n) + rest, |WriteInt(n)|);
  }

  // ---------- strings ----------

  function HexChar(d: nat): char
    requires d < 16
  {
    if d < 10 then ('0' as int + d) as char else ('a' as int + (d - 10)) as char
  }

  function HexValue(c: char): (d: Option<nat>)
    ensures d.Some? ==> d.value < 16
  {
    if '0' <= c <= '9' then Some(c as int - '0' as int)
    else if 'a' <= c <= 'f' then Some(c as int - 'a' as int + 10)
    else if 'A' <= c <= 'F' then Some(c as int - 'A' as int + 10)
    else None
  }

  function UnicodeEscape(n: nat): string
    requires n < 0x1_0000
  {
    ['\\', 'u', HexChar(n / 4096), HexChar(n / 256 % 16), HexChar(n / 16 % 16), HexChar(n % 16)]
  }

  /** How `json.Marshal` writes one character of a string. */
  function EscapeChar(c: char): string {
    match ShortEscape(c)
    case Some(e) => ['\\', e]
    case None => if NeedsHex(c) then UnicodeEscape(c as int) else [c]
  }

  function ShortEscape(c: char): (e: Option<char>)
    ensures e.Some? ==> SimpleEscape(e.value) == Some(c) && e.value != 'u'
  {
    if c == '"' || c == '\\' then Some(c)
    else if c as int == 0x08 then Some('b')
    else if c as int == 0x0C then Some('f')
    else if c == '\n' then Some('n')
    else if c == '\r' then Some('r')
    else if c == '\t' then Some('t')
    else None
  }

  /** Control characters, and those that HTML or JavaScript could trip over. */
  predicate NeedsHex(c: char) {
    c as int < 0x20 || c in {'<', '>', '&'} || c as int in {0x2028, 0x2029}
  }

  function Escape(s: string): string {
    if s == [] then [] else EscapeChar(s[0]) + Escape(s[1..])
  }

  function ReadHex(s: string): (r: Option<nat>)
    ensures r.Some? ==> |s| >= 4 && r.value < 0x1_0000
  {
    if |s| < 4 then None
    else
      match (HexValue(s[0]), HexValue(s[1]), HexValue(s[2]), HexValue(s[3]))
      case (Some(a), Some(b), Some(c), Some(d)) => Some(a * 4096 + b * 256 + c * 16 + d)
      case _ => None
  }

  /** The character after `\u` and how much of `s` it uses: a surrogate pair is one character, a lone surrogate U+FFFD. */
  function ReadUnicode(s: string): (r: Option<(char, nat)>)
    ensures r.Some? ==> r.value.1 <= |s|
  {
    match ReadHex(s)
    case None => None
    case Some(n) =>
      if n < 0xD800 || n >= 0xE000 then Some((n as char, 4))
      else if n < 0xDC00 && |s| >= 10 && s[4] == '\\' && s[5] == 'u' && ReadHex(s[6..]).Some?
              && 0xDC00 <= ReadHex(s[6..]).value < 0xE000 then
        Some(((0x1_0000 + (n - 0xD800) * 1024 + (ReadHex(s[6..]).value - 0xDC00)) as char, 10))
      else Some((0xFFFD as char, 4))
  }

  function SimpleEscape(c: char): Option<char> {
    if c == '"' || c == '\\' || c == '/' then Some(c)
    else if c == 'b' then Some(0x08 as char)
    else if c == 'f' then Some(0x0C as char)
    else if c == 'n' then Some('\n')
    else if c == 'r' then Some('\r')
    else if c == 't' then Some('\t')
    else None
  }

  /** The contents of a string literal whose opening quote has been read, and what follows its closing quote. */
  function Unescape(s: string): (r: Reading<string>)
    ensures r.Some? ==> |r.value.1| < |s|
    decreases |s|
  {
    if s == [] then None
    else if s[0] == '"' then Some(([], s[1..]))
    else if s[0] as int < 0x20 then None
    else if s[0] != '\\' then Prepend(s[0], Unescape(s[1..]))
    else if |s| == 1 then None
    else if s[1] == 'u' then
      match ReadUnicode(s[2..])
      case None => None
      case Some((c, width)) => Prepend(c, Unescape(s[2 + width..]))
    else
      match SimpleEscape(s[1])
      case None => None
      case Some(c) => Prepend(c, Unescape(s[2..]))
  }

  function Prepend(c: char, rest: Reading<string>): Reading<string> {
    match rest
    case None => None
    case Some((value, after)) => Some(([c] + value, after))
  }

  lemma HexDigit(d: nat)
    requires d < 16
    ensures HexValue(HexChar(d)) == Some(d)
  {
  }

  lemma HexRoundTrip(n: nat, rest: string)
    requires n < 0x1_0000
    ensures ReadHex(UnicodeEscape(n)[2..] + rest) == Some(n)
  {
    var s := UnicodeEscape(n)[2..] + rest;
    assert s[0] == HexChar(n / 4096) && s[1] == HexChar(n / 256 % 16) && s[2] == HexChar(n / 16 % 16) && s[3] == HexChar(n % 16);
    HexDigit(n / 4096);
    HexDigit(n / 256 % 16);
    HexDigit(n / 16 % 16);
    HexDigit(n % 16);
    SixteenTwice(n);
    SixteenTwice(n / 16);
  }

  lemma SixteenTwice(n: nat)
    ensures n / 16 / 16 == n / 256 && n / 16 / 256 == n / 4096
    ensures n / 16 == n / 256 * 16 + n / 16 % 16
  {
  }

  lemma HexEscapedChar(n: nat, rest: string)
    requires n < 0xD800 || 0xE000 <= n < 0x1_0000
    ensures Unescape(UnicodeEscape(n) + rest) == Prepend(n as char, Unescape(rest))
  {
    var s := UnicodeEscape(n) + rest;
    HexRoundTrip(n, rest);
    assert s[2..] == UnicodeEscape(n)[2..] + rest;
    assert s[6..] == rest;
  }

  lemma EscapedChar(c: char, rest: string)
    ensures Unescape(EscapeChar(c) + rest) == Prepend(c, Unescape(rest))
  {
    var s := EscapeChar(c) + rest;
    if ShortEscape(c).Some? {
      assert s[2..] == rest;
    } else if NeedsHex(c) {
      HexEscapedChar(c as int, rest);
    } else {
      assert s[1..] == rest;
    }
  }

  lemma {:induction false} StringRoundTrip(value: string, after: string)
    ensures Unescape(Escape(value) + ['"'] + after) == Some((value, after))
  {
    if value == [] {
      assert Escape(value) + ['"'] + after == ['"'] + after;
    } else {
      var rest := Escape(value[1..]) + ['"'] + after;
      assert Escape(value) + ['"'] + after == EscapeChar(value[0]) + rest;
      EscapedChar(value[0], rest);
      StringRoundTrip(value[1..], after);
      assert value == [value[0]] + value[1..];
    }
  }

  function Quote(s: string): string {
    ['"'] + (Escape(s) + ['"'])
  }

  /** A written string literal reads back, whatever follows it. */
  lemma QuoteRoundTrip(value: string, after: string)
    ensures (Quote(value) + after)[0] == '"'
    ensures Unescape((Quote(value) + after)[1..]) == Some((value, after))
  {
    StringRoundTrip(value, after);
    assert (Quote(value) + after)[1..] == Escape(value) + ['"'] + after;
  }

  // ---------- values ----------

  predicate IsSpaceChar(c: char) {
    c in {' ', '\t', '\r', '\n'}
  }

  function SkipSpace(s: string): (r: string)
    ensures |r| <= |s|
    ensures r == [] || !IsSpaceChar(r[0])
    ensures s == [] || !IsSpaceChar(s[0]) ==> r == s
  {
    if s != [] && IsSpaceChar(s[0]) then SkipSpace(s[1..]) else s
  }

  function ReadWord(word: string, value: Value, s: string): (r: Reading<Value>)
    requires word != []
    ensures r.Some? ==> |r.value.1| < |s|
  {
    if word <= s then Some((value, s[|word|..])) else None
  }

  function ReadNumber(s: string): (r: Reading<Value>)
    ensures r.Some? ==> |r.value.1| < |s|
  {
    match NumberLength(s)
    case None => None
    case Some(n) => Some((Number(s[..n]), s[n..]))
  }

  function ReadString(s: string): (r: Reading<string>)
    ensures r.Some? ==> |r.value.1| < |s|
  {
    if s == [] || s[0] != '"' then None else Unescape(s[1..])
  }

  /** One value at the very front of the text. */
  function ReadValue(s: string): (r: Reading<Value>)
    ensures r.Some? ==> |r.value.1| < |s|
    decreases |s|, 1
  {
    if s == [] then None
    else if s[0] == '{' then
      var rest := SkipSpace(s[1..]);
      if rest != [] && rest[0] == '}' then Some((Object([]), rest[1..]))
      else
        match ReadMembers(rest)
        case None => None
        case Some((members, after)) => Some((Object(members), after))
    else if s[0] == '[' then
      var rest := SkipSpace(s[1..]);
      if rest != [] && rest[0] == ']' then Some((Array([]), rest[1..]))
      else
        match ReadItems(rest)
        case None => None
        case Some((items, after)) => Some((Array(items), after))
    else if s[0] == '"' then
      match ReadString(s)
      case None => None
      case Some((text, after)) => Some((Text(text), after))
    else if s[0] == 'n' then ReadWord("null", Null, s)
    else if s[0] == 't' then ReadWord("true", Bool(true), s)
    else if s[0] == 'f' then ReadWord("false", Bool(false), s)
    else ReadNumber(s)
  }

  /** The members of an object up to and with its closing brace, from the quote of the first key on. */
  function ReadMembers(s: string): (r: Reading<seq<Member>>)
    ensures r.Some? ==> |r.value.1| < |s|
    decreases |s|, 1
  {
    match ReadMember(s)
    case None => None
    case Some((member, after)) =>
      if after == [] then None
      else if after[0] == '}' then Some(([member], after[1..]))
      else if after[0] == ',' then
        match ReadMembers(SkipSpace(after[1..]))
        case None => None
        case Some((members, end)) => Some(([member] + members, end))
      else None
  }

  /** A key, a colon and a value, with the white space around them. */
  function ReadMember(s: string): (r: Reading<Member>)
    ensures r.Some? ==> |r.value.1| < |s|
    decreases |s|, 0
  {
    match ReadString(s)
    case None => None
    case Some((key, after)) =>
      var colon := SkipSpace(after);
      if colon == [] || colon[0] != ':' then None
      else
        match ReadValue(SkipSpace(colon[1..]))
        case None => None
        case Some((value, end)) => Some((Member(key, value), SkipSpace(end)))
  }

  function ReadItems(s: string): (r: Reading<seq<Value>>)
    ensures r.Some? ==> |r.value.1| < |s|
    decreases |s|, 2
  {
    match ReadValue(s)
    case None => None
    case Some((item, end)) =>
      var after := SkipSpace(end);
      if after == [] then None
      else if after[0] == ']' then Some(([item], after[1..]))
      else if after[0] == ',' then
        match ReadItems(SkipSpace(after[1..]))
        case None => None
        case Some((items, last)) => Some(([item] + items, last))
      else None
  }

  /** A whole document: one value, and white space around it. */
  function Read(s: string): Option<Value> {
    match ReadValue(SkipSpace(s))
    case None => None
    case Some((value, after)) => if SkipSpace(after) == [] then Some(value) else None
  }

  // ---------- writing objects ----------

  function WriteMember(key: string, value: string): (r: string)
    ensures r != [] && r[0] == '"'
  {
    Quote(key) + ([':'] + value)
  }

  /** A written member reads back, when its value does and nothing that follows is white space. */
  lemma MemberRoundTrip(key: string, text: string, value: Value, after: string)
    requires text != [] && !IsSpaceChar(text[0]) && after != [] && !IsSpaceChar(after[0])
    requires ReadValue(text + after) == Some((value, after))
    ensures ReadMember(WriteMember(key, text) + after) == Some((Member(key, value), after))
  {
    var colon := [':'] + (text + after);
    assert WriteMember(key, text) + after == Quote(key) + colon;
    QuoteRoundTrip(key, colon);
    assert colon[1..] == text + after;
    MemberRead(Quote(key) + colon, key, text + after, value, after);
  }

  lemma MemberRead(s: string, key: string, rest: string, value: Value, after: string)
    requires ReadString(s) == Some((key, [':'] + rest)) && rest != [] && !IsSpaceChar(rest[0])
    requires ReadValue(rest) == Some((value, after)) && after != [] && !IsSpaceChar(after[0])
    ensures ReadMember(s) == Some((Member(key, value), after))
  {
    var colon := [':'] + rest;
    assert SkipSpace(colon) == colon && colon[1..] == rest && SkipSpace(rest) == rest && SkipSpace(after) == after;
  }

  lemma TextRoundTrip(text: string, after: string)
    ensures ReadValue(Quote(text) + after) == Some((Text(text), after))
  {
    QuoteRoundTrip(text, after);
  }

  lemma NumberRoundTrip(n: Int64, after: string)
    requires after != [] && after[0] == ','
    ensures WriteInt(n) != [] && !IsSpaceChar(WriteInt(n)[0])
    ensures ReadValue(WriteInt(n) + after) == Some((Number(WriteInt(n)), after))
  {
    var s := WriteInt(n) + after;
    WrittenIntIsNumber(n, after);
    WrittenIntStarts(n);
    assert s[0] == WriteInt(n)[0];
    NumberRead(s, |WriteInt(n)|);
    assert s[..|WriteInt(n)|] == WriteInt(n) && s[|WriteInt(n)|..] == after;
  }

  lemma WrittenIntStarts(n: Int64)
    ensures WriteInt(n) != [] && (WriteInt(n)[0] == '-' || IsDigit(WriteInt(n)[0]))
  {
    var magnitude: nat := if n < 0 then -(n as int) else n;
    assert Decimal(magnitude)[0] in Decimal(magnitude);
  }

  lemma NumberRead(s: string, n: nat)
    requires s != [] && (s[0] == '-' || IsDigit(s[0])) && NumberLength(s) == Some(n)
    ensures ReadValue(s) == Some((Number(s[..n]), s[n..]))
  {
    assert ReadNumber(s) == Some((Number(s[..n]), s[n..]));
    assert s[0] != '{' && s[0] != '[' && s[0] != '"' && s[0] != 'n' && s[0] != 't' && s[0] != 'f';
    assert ReadValue(s) == ReadNumber(s);
  }

  /** An object of an integer and a string. */
  function WriteObject(first: string, n: Int64, second: string, text: string): string {
    ['{'] + (WriteMember(first, WriteInt(n)) + ([','] + (WriteMember(second, Quote(text)) + ['}'])))
  }

  lemma LastMember(s: string, m: Member, after: string)
    requires ReadMember(s) == Some((m, ['}'] + after))
    ensures ReadMembers(s) == Some(([m], after))
  {
    assert (['}'] + after)[1..] == after;
  }

  lemma NextMember(s: string, m: Member, rest: string, members: seq<Member>, after: string)
    requires ReadMember(s) == Some((m, [','] + rest)) && rest != [] && !IsSpaceChar(rest[0])
    requires ReadMembers(rest) == Some((members, after))
    ensures ReadMembers(s) == Some(([m] + members, after))
  {
    assert ([','] + rest)[1..] == rest && SkipSpace(rest) == rest;
  }

  lemma ObjectRead(s: string, members: seq<Member>)
    requires s != [] && s[0] == '"' && ReadMembers(s) == Some((members, []))
    ensures Read(['{'] + s) == Some(Object(members))
  {
    assert (['{'] + s)[1..] == s && SkipSpace(s) == s && SkipSpace(['{'] + s) == ['{'] + s;
    assert ReadValue(['{'] + s) == Some((Object(members), []));
  }

  lemma ObjectRoundTrip(first: string, n: Int64, second: string, text: string)
    ensures Read(WriteObject(first, n, second, text))
         == Some(Object([Member(first, Number(WriteInt(n))), Member(second, Text(text))]))
  {
    var last := WriteMember(second, Quote(text)) + ['}'];
    var all := WriteMember(first, WriteInt(n)) + ([','] + last);
    TextRoundTrip(text, ['}']);
    MemberRoundTrip(second, Quote(text), Text(text), ['}']);
    assert ['}'] + [] == ['}'];
    LastMember(last, Member(second, Text(text)), []);
    NumberRoundTrip(n, [','] + last);
    MemberRoundTrip(first, WriteInt(n), Number(WriteInt(n)), [','] + last);
    var members := [Member(first, Number(WriteInt(n))), Member(second, Text(text))];
    assert members == [members[0]] + [members[1]];
    NextMember(all, Member(first, Number(WriteInt(n))), last, [Member(second, Text(text))], []);
    assert all[0] == '"';
    ObjectRead(all, members);
  }

  // ---------- what the writer writes ----------

  /** A character that needs no escape in a string literal. */
  predicate StandsForItself(c: char) {
    c as int >= 0x20 && c !in {'"', '\\', '<', '>', '&'} && c as int !in {0x2028, 0x2029}
  }

  lemma {:induction false} PlainText(s: string)
    requires forall c | c in s :: StandsForItself(c)
    ensures Escape(s) == s
  {
    if s != [] {
      assert s[0] in s && EscapeChar(s[0]) == [s[0]];
      PlainText(s[1..]);
      assert s == [s[0]] + s[1..];
    }
  }

  /** Written strings can stand in HTML and in scripts: what could trip them over is spelled with escapes. */
  lemma {:induction false} EscapedIsHarmless(s: string)
    ensures forall c | c in Escape(s) :: c as int >= 0x20 && c !in {'<', '>', '&'} && c as int !in {0x2028, 0x2029}
  {
    if s != [] {
      EscapedIsHarmless(s[1..]);
    }
  }

  lemma MemberText(key: string, value: string)
    requires forall c | c in key :: StandsForItself(c)
    ensures WriteMember(key, value) == "\"" + key + "\":" + value
  {
    PlainText(key);
  }

  lemma Flat(a: string, b: string, c: string, d: string, e: string)
    ensures a + (b + (c + (d + e))) == a + b + c + d + e
  {
  }

  /** A written object, character by character, for keys that need no escapes. */
  lemma ObjectText(first: string, n: Int64, second: string, text: string)
    requires (forall c | c in first :: StandsForItself(c)) && forall c | c in second :: StandsForItself(c)
    ensures WriteObject(first, n, second, text)
         == "{" + ("\"" + first + "\":" + WriteInt(n)) + "," + ("\"" + second + "\":" + ("\"" + Escape(text) + "\"")) + "}"
  {
    hide WriteMember;
    MemberText(first, WriteInt(n));
    MemberText(second, Quote(text));
    assert Quote(text) == "\"" + Escape(text) + "\"";
    Flat("{", WriteMember(first, WriteInt(n)), ",", WriteMember(second, Quote(text)), "}");
  }
}
