/** The opaque listing cursor: unpadded base64url over a JSON object. */
module Cursor {
  import opened Basics
  import Base64Url
  import Json
  import Utf8

  datatype SubmissionCursor = SubmissionCursor(createdAt: Int64, submissionId: string)

  datatype DecodeError = BadBase64 | BadPayload

  const ZERO := SubmissionCursor(0, "")

  const TIME_KEY := "createdAtUnix"
  const ID_KEY := "submissionId"

  function Payload(c: SubmissionCursor): string {
    Json.WriteObject(TIME_KEY, c.createdAt, ID_KEY, c.submissionId)
  }

  function Encode(c: SubmissionCursor): string {
    Base64Url.Encode(Utf8.Encode(Payload(c)))
  }

  // ---------- decoding ----------

  /** Keys are compared without case; two characters outside ASCII fold to an ASCII letter. */
  function FoldChar(c: char): char {
    if 'A' <= c <= 'Z' then (c as int + 32) as char
    else if c as int == 0x17F then 's'
    else if c as int == 0x212A then 'k'
    else c
  }

  function Fold(s: string): (r: string)
    ensures |r| == |s|
  {
    seq(|s|, i requires 0 <= i < |s| => FoldChar(s[i]))
  }

  /** One member of the object. Null changes nothing and unknown keys are ignored. */
  function Assign(c: SubmissionCursor, m: Json.Member): Option<SubmissionCursor> {
    if Fold(m.key) == Fold(TIME_KEY) then
      match m.value
      case Null => Some(c)
      case Number(literal) =>
        (match Json.ReadInt(literal)
         case None => None
         case Some(n) => Some(c.(createdAt := n)))
      case _ => None
    else if Fold(m.key) == Fold(ID_KEY) then
      match m.value
      case Null => Some(c)
      case Text(text) => Some(c.(submissionId := text))
      case _ => None
    else Some(c)
  }

  /** The members in their order; a later one replaces an earlier one. */
  function Bind(c: SubmissionCursor, members: seq<Json.Member>): Option<SubmissionCursor>
    decreases |members|
  {
    if members == [] then Some(c)
    else
      match Assign(c, members[0])
      case None => None
      case Some(next) => Bind(next, members[1..])
  }

  /** `json.Unmarshal` into the two fields. */
  function ReadPayload(text: string): Option<SubmissionCursor> {
    match Json.Read(text)
    case None => None
    case Some(Null) => Some(ZERO)
    case Some(Object(members)) => Bind(ZERO, members)
    case Some(_) => None
  }

  /** The empty string means "from the start". */
  function Decode(value: string): Result<SubmissionCursor, DecodeError> {
    if value == "" then Ok(ZERO)
    else
      match Base64Url.Decode(value)
      case None => Err(BadBase64)
      case Some(bytes) =>
        match ReadPayload(Utf8.Decode(bytes))
        case None => Err(BadPayload)
        case Some(cursor) => Ok(cursor)
  }

  lemma EmptyMeansStart()
    ensures Decode("") == Ok(ZERO)
  {
  }

  // ---------- round trip ----------

  lemma KeysDiffer()
    ensures Fold(ID_KEY) != Fold(TIME_KEY)
  {
    assert |Fold(TIME_KEY)| == 13 && |Fold(ID_KEY)| == 12;
  }

  lemma AssignTime(c: SubmissionCursor, key: string, n: Int64)
    requires Fold(key) == Fold(TIME_KEY)
    ensures Assign(c, Json.Member(key, Json.Number(Json.WriteInt(n)))) == Some(c.(createdAt := n))
  {
    Json.IntRoundTrip(n);
  }

  lemma AssignId(c: SubmissionCursor, key: string, id: string)
    requires Fold(key) == Fold(ID_KEY)
    ensures Assign(c, Json.Member(key, Json.Text(id))) == Some(c.(submissionId := id))
  {
    KeysDiffer();
  }

  lemma BindOne(c: SubmissionCursor, m: Json.Member)
    ensures Bind(c, [m]) == Assign(c, m)
  {
    assert [m][1..] == [];
  }

  lemma BindTwo(c: SubmissionCursor, first: Json.Member, second: Json.Member)
    requires Assign(c, first).Some?
    ensures Bind(c, [first, second]) == Assign(Assign(c, first).value, second)
  {
    assert [first, second][1..] == [second];
    BindOne(Assign(c, first).value, second);
  }

  /** The object reads back with its keys in any spelling that differs by case only. */
  lemma ObjectReadsBack(timeKey: string, idKey: string, c: SubmissionCursor)
    requires Fold(timeKey) == Fold(TIME_KEY) && Fold(idKey) == Fold(ID_KEY)
    ensures ReadPayload(Json.WriteObject(timeKey, c.createdAt, idKey, c.submissionId)) == Some(c)
  {
    Json.ObjectRoundTrip(timeKey, c.createdAt, idKey, c.submissionId);
    AssignTime(ZERO, timeKey, c.createdAt);
    AssignId(ZERO.(createdAt := c.createdAt), idKey, c.submissionId);
    BindTwo(ZERO, Json.Member(timeKey, Json.Number(Json.WriteInt(c.createdAt))), Json.Member(idKey, Json.Text(c.submissionId)));
  }

  lemma PayloadNonEmpty(c: SubmissionCursor)
    ensures Utf8.Encode(Payload(c)) != []
  {
    assert Payload(c)[0] == '{';
  }

  /** Round trip for every 64-bit time and every id, and no cursor is spelled like "no cursor". */
  lemma RoundTrip(c: SubmissionCursor)
    ensures Decode(Encode(c)) == Ok(c)
    ensures Encode(c) != ""
  {
    ObjectReadsBack(TIME_KEY, ID_KEY, c);
    PayloadNonEmpty(c);
    Utf8.RoundTrip(Payload(c));
    Base64Url.RoundTrip(Utf8.Encode(Payload(c)));
  }

  lemma EncodeInjective(a: SubmissionCursor, b: SubmissionCursor)
    ensures Encode(a) == Encode(b) <==> a == b
  {
    hide Decode, Encode;
    RoundTrip(a);
    RoundTrip(b);
  }

  // ---------- any object that a client may send ----------

  /** The last value that is not null among the members with this key, in any case; null if there is none. */
  function LastValue(members: seq<Json.Member>, folded: string): Json.Value
    decreases |members|
  {
    if members == [] then Json.Null
    else
      var later := LastValue(members[1..], folded);
      if !later.Null? then later else if Fold(members[0].key) == folded then members[0].value else Json.Null
  }

  /** A member that can be read: null is always fine, and keys that mean nothing may have any value. */
  predicate Readable(m: Json.Member) {
    && (Fold(m.key) == "createdatunix" ==> m.value.Null? || (m.value.Number? && Json.ReadInt(m.value.literal).Some?))
    && (Fold(m.key) == "submissionid" ==> m.value.Null? || m.value.Text?)
  }

  lemma FoldedKeys()
    ensures Fold(TIME_KEY) == "createdatunix" && Fold(ID_KEY) == "submissionid"
  {
    assert TIME_KEY == "createdAtUnix" && ID_KEY == "submissionId";
  }

  lemma AssignIff(c: SubmissionCursor, m: Json.Member)
    ensures Assign(c, m).Some? <==> Readable(m)
    ensures Readable(m) ==>
              Assign(c, m).value == SubmissionCursor(
                if Fold(m.key) == "createdatunix" && m.value.Number? then Json.ReadInt(m.value.literal).value else c.createdAt,
                if Fold(m.key) == "submissionid" && m.value.Text? then m.value.text else c.submissionId)
  {
    hide Fold, Json.ReadInt;
    FoldedKeys();
    KeysDiffer();
  }

  /** Members in any order, repeated, null or unknown: each field has its last value that is not null. */
  lemma {:induction false} BindIff(c: SubmissionCursor, members: seq<Json.Member>)
    ensures Bind(c, members).Some? <==> forall m | m in members :: Readable(m)
    ensures Bind(c, members).Some? ==>
              var time, id := LastValue(members, "createdatunix"), LastValue(members, "submissionid");
              && (time.Null? || (time.Number? && Json.ReadInt(time.literal).Some?)) && (id.Null? || id.Text?)
              && Bind(c, members).value == SubmissionCursor(
                   if time.Null? then c.createdAt else Json.ReadInt(time.literal).value,
                   if id.Null? then c.submissionId else id.text)
    decreases |members|
  {
    hide Fold, Json.ReadInt, Assign;
    if members != [] {
      assert members == [members[0]] + members[1..];
      AssignIff(c, members[0]);
      if Readable(members[0]) {
        BindIff(Assign(c, members[0]).value, members[1..]);
      }
    }
  }

  /** Which JSON texts are read as a cursor: null, or an object all of whose members can be read. */
  lemma ReadPayloadIff(text: string)
    ensures ReadPayload(text).Some? <==>
              match Json.Read(text)
              case Some(Null) => true
              case Some(Object(members)) => forall m | m in members :: Readable(m)
              case _ => false
    ensures Json.Read(text) == Some(Json.Null) ==> ReadPayload(text) == Some(SubmissionCursor(0, ""))
  {
    hide Json.Read, Readable;
    if Json.Read(text).Some? && Json.Read(text).value.Object? {
      BindIff(ZERO, Json.Read(text).value.members);
    }
  }

  /** The JSON that a cursor stands for: its time and its id under their keys. */
  lemma PayloadText(c: SubmissionCursor)
    ensures Payload(c)
         == "{" + ("\"" + "createdAtUnix" + "\":" + Json.WriteInt(c.createdAt)) + ","
            + ("\"" + "submissionId" + "\":" + ("\"" + Json.Escape(c.submissionId) + "\"")) + "}"
  {
    Json.ObjectText(TIME_KEY, c.createdAt, ID_KEY, c.submissionId);
  }

  /** Which texts are refused for their spelling: a character outside the alphabet, or a single one left over. */
  lemma BadBase64Iff(value: string)
    ensures Decode(value) == Err(BadBase64) <==>
              (exists c :: c in Base64Url.WithoutBreaks(value) && !Base64Url.InAlphabet(c))
              || |Base64Url.WithoutBreaks(value)| % 4 == 1
  {
    Base64Url.DecodesIff(value);
  }
}
