/**
  The PostgreSQL submission repository. SQL is modelled as filter, order and limit over the rows of the
  table; the database is assumed to order ids as Go does.
 */
module PostgresStore {
  import opened Basics
  import opened Ordering
  import opened Submissions
  import opened Listing
  import opened MemoryStore
  import opened Pagination
  import Cursor

  /** The enumeration type of the status column. */
  datatype DbStatus =
    | QueuedDb | CompilingDb | RunningDb | AcceptedDb | WrongAnswerDb | TimeLimitExceededDb
    | MemoryLimitExceededDb | RuntimeErrorDb | CompileErrorDb | SystemErrorDb

  datatype Row = Row(
    submissionId: string,
    actorId: string,
    problemId: string,
    contestId: string,
    languageId: string,
    status: DbStatus,
    score: int,
    createdAt: Int64)

  datatype SqlError = UnsupportedStatus | NoRows | BadCursor(error: Cursor.DecodeError)

  function StatusToDb(status: Status): Option<DbStatus> {
    match status
    case Queued => Some(QueuedDb)
    case Compiling => Some(CompilingDb)
    case Running => Some(RunningDb)
    case Accepted => Some(AcceptedDb)
    case WrongAnswer => Some(WrongAnswerDb)
    case TimeLimitExceeded => Some(TimeLimitExceededDb)
    case MemoryLimitExceeded => Some(MemoryLimitExceededDb)
    case RuntimeError => Some(RuntimeErrorDb)
    case CompileError => Some(CompileErrorDb)
    case SystemError => Some(SystemErrorDb)
    case Unspecified => None
  }

  function StatusFromDb(status: DbStatus): Status {
    match status
    case QueuedDb => Queued
    case CompilingDb => Compiling
    case RunningDb => Running
    case AcceptedDb => Accepted
    case WrongAnswerDb => WrongAnswer
    case TimeLimitExceededDb => TimeLimitExceeded
    case MemoryLimitExceededDb => MemoryLimitExceeded
    case RuntimeErrorDb => RuntimeError
    case CompileErrorDb => CompileError
    case SystemErrorDb => SystemError
  }

  /** The two switches are inverse to each other, and only "unspecified" cannot be stored. */
  lemma StatusRoundTrip(status: Status, db: DbStatus)
    ensures StatusToDb(status) == Some(db) <==> status == StatusFromDb(db)
    ensures StatusToDb(status).None? <==> status.Unspecified?
  {
  }

  function ToSubmission(row: Row): Submission {
    Submission(row.submissionId, row.actorId, row.problemId, row.contestId, row.languageId,
               StatusFromDb(row.status), row.score, row.createdAt)
  }

  function ToRow(s: Submission, status: DbStatus): Row {
    Row(s.submissionId, s.actorId, s.problemId, s.contestId, s.languageId, status, s.score, s.createdAt)
  }

  // ---------- the statements ----------

  predicate Where(q: Query, c: Cursor.SubmissionCursor, row: Row) {
    && (q.actorId == "" || row.actorId == q.actorId)
    && (q.problemId == "" || row.problemId == q.problemId)
    && (q.contestId == "" || row.contestId == q.contestId)
    && (|| c.createdAt == 0
        || row.createdAt < c.createdAt
        || (row.createdAt == c.createdAt && StringLess(row.submissionId, c.submissionId)))
  }

  predicate RowBefore(a: Row, b: Row) {
    a.createdAt > b.createdAt || (a.createdAt == b.createdAt && StringLess(b.submissionId, a.submissionId))
  }

  function Filter(table: seq<Row>, q: Query, c: Cursor.SubmissionCursor): seq<Row> {
    if table == [] then []
    else (if Where(q, c, table[0]) then [table[0]] else []) + Filter(table[1..], q, c)
  }

  function Select(table: seq<Row>, q: Query, c: Cursor.SubmissionCursor, limit: nat): seq<Row> {
    Take(Sort(RowBefore, Filter(table, q, c)), limit)
  }

  /** INSERT, or on conflict of (submission_id, created_at) an update of status and score. */
  function SqlInsert(table: seq<Row>, row: Row): seq<Row> {
    if table == [] then [row]
    else if table[0].submissionId == row.submissionId && table[0].createdAt == row.createdAt then
      [table[0].(status := row.status, score := row.score)] + table[1..]
    else [table[0]] + SqlInsert(table[1..], row)
  }

  function Updated(row: Row, status: DbStatus): Row {
    row.(status := status, score := if status == AcceptedDb then 100 else row.score)
  }

  function SqlUpdate(table: seq<Row>, id: string, status: DbStatus): seq<Row> {
    if table == [] then []
    else [if table[0].submissionId == id then Updated(table[0], status) else table[0]] + SqlUpdate(table[1..], id, status)
  }

  function ToSubmissions(rows: seq<Row>): (r: seq<Submission>)
    ensures |r| == |rows|
    ensures forall i | 0 <= i < |rows| :: r[i] == ToSubmission(rows[i])
  {
    if rows == [] then [] else [ToSubmission(rows[0])] + ToSubmissions(rows[1..])
  }

  lemma OneMore<T>(xs: seq<T>, i: nat)
    requires i < |xs|
    ensures xs[..i + 1] == xs[..i] + [xs[i]]
  {
  }

  // ---------- the repository ----------

  /** The row that an update returns: one with this id, or an error when there is none. */
  ghost predicate AnswersUpdate(table: seq<Row>, id: string, r: Result<Submission, SqlError>) {
    match r
    case Ok(s) => exists i :: 0 <= i < |table| && table[i].submissionId == id && s == ToSubmission(table[i])
    case Err(error) => error == NoRows && forall i | 0 <= i < |table| :: table[i].submissionId != id
  }

  class PostgresRepository {
    var table: seq<Row>

    constructor ()
      ensures table == []
    {
      table := [];
    }

    method Save(s: Submission) returns (error: Option<SqlError>)
      modifies this
      ensures error == if s.status.Unspecified? then Some(UnsupportedStatus) else None
      ensures table == SqlApply(old(table), Write.Create(s))
      ensures !s.status.Unspecified? && UniqueIds(old(table)) && MaySave(StoreOf(old(table)), s) ==>
                SameData(table, StoreOf(old(table))[s.submissionId := s])
    {
      if !s.status.Unspecified? && UniqueIds(table) && MaySave(StoreOf(table), s) {
        SaveAgrees(table, s);
      }
      var status := StatusToDb(s.status);
      if status.None? {
        return Some(UnsupportedStatus);
      }
      table := SqlInsert(table, ToRow(s, status.value));
      error := None;
    }

    method UpdateStatus(id: string, status: Status) returns (r: Result<Submission, SqlError>)
      modifies this
      ensures table == SqlApply(old(table), Write.Update(id, status))
      ensures status.Unspecified? ==> r == Err(UnsupportedStatus)
      ensures !status.Unspecified? ==> AnswersUpdate(table, id, r)
      ensures !status.Unspecified? && UniqueIds(old(table)) ==>
                && SameData(table, Apply(StoreOf(old(table)), Write.Update(id, status)))
                && r == if id in StoreOf(old(table)) then Ok(StoreOf(table)[id]) else Err(NoRows)
    {
      var db := StatusToDb(status);
      if db.None? {
        return Err(UnsupportedStatus);
      }
      ghost var before := table;
      table := SqlUpdate(table, id, db.value);
      r := ReadRow(id);
      if UniqueIds(before) {
        UpdateAgrees(before, id, status);
        AnsweredIsStored(before, table, id, status, r);
      }
    }

    /** The row that the statement returns. */
    method ReadRow(id: string) returns (r: Result<Submission, SqlError>)
      ensures AnswersUpdate(table, id, r)
    {
      for i := 0 to |table|
        invariant forall j | 0 <= j < i :: table[j].submissionId != id
      {
        if table[i].submissionId == id {
          return Ok(ToSubmission(table[i]));
        }
      }
      r := Err(NoRows);
    }

    /** Runs the query and reads its rows one by one. */
    method Fetch(q: Query, cursor: Cursor.SubmissionCursor, limit: nat) returns (submissions: seq<Submission>)
      ensures submissions == ToSubmissions(Select(table, q, cursor, limit))
    {
      var rows := Select(table, q, cursor, limit);
      submissions := [];
      for i := 0 to |rows|
        invariant submissions == ToSubmissions(rows)[..i]
      {
        OneMore(ToSubmissions(rows), i);
        submissions := submissions + [ToSubmission(rows[i])];
      }
    }

    /** Asks for one row more than the page holds, to learn whether there is a next page. */
    method ListSubmissions(q: Query) returns (r: Result<Page, SqlError>)
      ensures r == SqlList(table, q)
      ensures r.Ok? <==> Cursor.Decode(q.cursor).Ok?
      ensures r.Ok? && UniqueIds(table) ==> IsPage(StoreOf(table), q, Cursor.Decode(q.cursor).value, r.value)
    {
      hide Cursor.Decode, Cursor.Encode, Select, ToSubmissions, IsPage, UniqueIds;
      if UniqueIds(table) {
        SqlListIsPage(table, q);
      }
      var decoded := Cursor.Decode(q.cursor);
      if decoded.Err? {
        return Err(BadCursor(decoded.error));
      }
      var cursor := decoded.value;
      var pageSize: int := q.pageSize;
      if pageSize <= 0 {
        pageSize := 30;
      }
      if pageSize > 100 {
        pageSize := 100;
      }
      assert pageSize == NormalizePageSize(q.pageSize);
      var submissions := Fetch(q, cursor, pageSize + 1);
      assert SqlList(table, q) == Ok(SqlPage(submissions, pageSize));
      if |submissions| <= pageSize {
        return Ok(Page(submissions, ""));
      }
      var page := submissions[..pageSize];
      var last := page[|page| - 1];
      assert last == submissions[pageSize - 1];
      r := Ok(Page(page, Cursor.Encode(Cursor.SubmissionCursor(last.createdAt, last.submissionId))));
    }
  }

  function SqlList(table: seq<Row>, q: Query): Result<Page, SqlError> {
    match Cursor.Decode(q.cursor)
    case Err(e) => Err(BadCursor(e))
    case Ok(c) =>
      var limit := NormalizePageSize(q.pageSize);
      Ok(SqlPage(ToSubmissions(Select(table, q, c, limit as nat + 1)), limit))
  }

  function SqlPage(fetched: seq<Submission>, limit: Int32): Page
    requires limit >= 1
  {
    if |fetched| <= limit then Page(fetched, "")
    else Page(fetched[..limit], Cursor.Encode(CursorOf(fetched[limit - 1])))
  }

  // ---------- agreement with the in-memory repository ----------

  ghost predicate UniqueIds(table: seq<Row>) {
    forall i, j | 0 <= i < j < |table| :: table[i].submissionId != table[j].submissionId
  }

  /** The submissions a table holds. */
  ghost function StoreOf(table: seq<Row>): Store {
    if table == [] then map[]
    else
      var last := table[|table| - 1];
      StoreOf(table[..|table| - 1])[last.submissionId := ToSubmission(last)]
  }

  /** The table holds exactly the submissions of the store, one row each. */
  ghost predicate SameData(table: seq<Row>, store: Store) {
    UniqueIds(table) && store == StoreOf(table)
  }

  ghost predicate HasRow(table: seq<Row>, id: string) {
    exists i :: 0 <= i < |table| && table[i].submissionId == id
  }

  ghost predicate Describes(table: seq<Row>, store: Store) {
    && (forall i | 0 <= i < |table| ::
          table[i].submissionId in store && store[table[i].submissionId] == ToSubmission(table[i]))
    && (forall id | id in store :: HasRow(table, id))
  }

  lemma DescribesOneMore(table: seq<Row>, row: Row, store: Store)
    requires Describes(table, store) && !HasRow(table, row.submissionId)
    ensures Describes(table + [row], store[row.submissionId := ToSubmission(row)])
  {
    var more := table + [row];
    var after := store[row.submissionId := ToSubmission(row)];
    forall i | 0 <= i < |more|
      ensures more[i].submissionId in after && after[more[i].submissionId] == ToSubmission(more[i])
    {
      if i < |table| {
        assert more[i] == table[i];
      }
    }
    forall id | id in after ensures HasRow(more, id) {
      if id == row.submissionId {
        assert more[|table|].submissionId == id;
      } else {
        var i :| 0 <= i < |table| && table[i].submissionId == id;
        assert more[i].submissionId == id;
      }
    }
  }

  lemma {:induction false} StoreOfRows(table: seq<Row>)
    requires UniqueIds(table)
    ensures WellKeyed(StoreOf(table))
    ensures Describes(table, StoreOf(table))
  {
    if table != [] {
      var n := |table| - 1;
      StoreOfRows(table[..n]);
      DescribesOneMore(table[..n], table[n], StoreOf(table[..n]));
      assert table == table[..n] + [table[n]];
    }
  }

  lemma {:induction false} FilterMembers(table: seq<Row>, q: Query, c: Cursor.SubmissionCursor)
    requires UniqueIds(table)
    ensures UniqueIds(Filter(table, q, c))
    ensures forall row :: row in Filter(table, q, c) <==> row in table && Where(q, c, row)
  {
    if table != [] {
      FilterMembers(table[1..], q, c);
      assert table == [table[0]] + table[1..];
      assert forall i | 0 <= i < |table[1..]| :: table[1..][i] == table[i + 1];
      var rest := Filter(table[1..], q, c);
      forall i | 0 <= i < |rest| ensures rest[i].submissionId != table[0].submissionId {
        assert rest[i] in table[1..];
      }
    }
  }

  /** Reading rows as submissions commutes with sorting. */
  lemma {:induction false} InsertCommutes(row: Row, rows: seq<Row>)
    ensures ToSubmissions(Ordering.Insert(RowBefore, row, rows)) == Ordering.Insert(Before, ToSubmission(row), ToSubmissions(rows))
  {
    if rows != [] {
      assert RowBefore(rows[0], row) == Before(ToSubmission(rows[0]), ToSubmission(row));
      InsertCommutes(row, rows[1..]);
      assert ToSubmissions(rows)[1..] == ToSubmissions(rows[1..]);
      if RowBefore(rows[0], row) {
        var inserted := Ordering.Insert(RowBefore, row, rows[1..]);
        assert ([rows[0]] + inserted)[1..] == inserted;
      } else {
        assert ([row] + rows)[1..] == rows;
      }
    } else {
      assert ([row] + rows)[1..] == rows;
    }
  }

  lemma {:induction false} SortCommutes(rows: seq<Row>)
    ensures ToSubmissions(Sort(RowBefore, rows)) == Sort(Before, ToSubmissions(rows))
  {
    if rows != [] {
      SortCommutes(rows[1..]);
      InsertCommutes(rows[0], Sort(RowBefore, rows[1..]));
      assert ToSubmissions(rows)[1..] == ToSubmissions(rows[1..]);
    }
  }

  lemma WhereIsFilterAndBound(q: Query, c: Cursor.SubmissionCursor, row: Row)
    ensures Where(q, c, row) <==> Matches(q, ToSubmission(row)) && AfterCursor(ToSubmission(row), c)
  {
  }

  /** Ordered rows of the query are the full listing. */
  lemma SelectIsListed(table: seq<Row>, store: Store, q: Query, c: Cursor.SubmissionCursor)
    requires SameData(table, store)
    ensures ToSubmissions(Sort(RowBefore, Filter(table, q, c))) == Listed(store, q, c)
  {
    var rows := Filter(table, q, c);
    var collected := ToSubmissions(rows);
    StoreOfRows(table);
    FilterMembers(table, q, c);
    SortCommutes(rows);
    forall s ensures s in Elements(collected) <==> s in Candidates(store, q, c) {
      SelectedIff(table, store, q, c, s);
    }
    assert Elements(collected) == Candidates(store, q, c);
    SortedCandidates(store, q, c, collected);
  }

  lemma SelectedIff(table: seq<Row>, store: Store, q: Query, c: Cursor.SubmissionCursor, s: Submission)
    requires SameData(table, store)
    ensures s in ToSubmissions(Filter(table, q, c)) <==> s in Candidates(store, q, c)
  {
    hide Matches, AfterCursor, Where, ToSubmission;
    var rows := Filter(table, q, c);
    StoreOfRows(table);
    FilterMembers(table, q, c);
    if s in ToSubmissions(rows) {
      var i :| 0 <= i < |rows| && ToSubmissions(rows)[i] == s;
      assert rows[i] in table;
      WhereIsFilterAndBound(q, c, rows[i]);
    }
    if s in Candidates(store, q, c) {
      var id :| id in store && store[id] == s && Matches(q, s) && AfterCursor(s, c);
      var i :| 0 <= i < |table| && table[i].submissionId == id;
      WhereIsFilterAndBound(q, c, table[i]);
      assert table[i] in rows;
      var k :| 0 <= k < |rows| && rows[k] == table[i];
      assert ToSubmissions(rows)[k] == s;
    }
  }

  /**
    The two repositories list the same page with the same next cursor, for every query, over the same data.
   */
  lemma ListingsAgree(table: seq<Row>, store: Store, q: Query)
    requires SameData(table, store)
    ensures match List(store, q)
            case Ok(page) => SqlList(table, q) == Ok(page)
            case Err(e) => SqlList(table, q) == Err(BadCursor(e))
  {
    var decoded := Cursor.Decode(q.cursor);
    if decoded.Ok? {
      var limit := NormalizePageSize(q.pageSize);
      SelectIsListed(table, store, q, decoded.value);
      TakeAndCut(Sort(RowBefore, Filter(table, q, decoded.value)), limit);
    }
  }

  lemma SqlListIsPage(table: seq<Row>, q: Query)
    requires UniqueIds(table)
    ensures SqlList(table, q).Ok? ==>
              Cursor.Decode(q.cursor).Ok? && IsPage(StoreOf(table), q, Cursor.Decode(q.cursor).value, SqlList(table, q).value)
  {
    hide Cursor.Decode, IsPage;
    ListingsAgree(table, StoreOf(table), q);
    StoreOfRows(table);
    if List(StoreOf(table), q).Ok? {
      ListIsPage(StoreOf(table), q);
    }
  }

  /** One row more than the limit is enough to cut the page and to see whether another follows. */
  lemma TakeAndCut(rows: seq<Row>, limit: Int32)
    requires limit >= 1
    ensures SqlPage(ToSubmissions(Take(rows, limit as nat + 1)), limit) == Cut(ToSubmissions(rows), limit)
  {
    var fetched := ToSubmissions(Take(rows, limit as nat + 1));
    if |rows| > limit {
      assert fetched[..limit] == ToSubmissions(rows)[..limit];
    }
  }

  /** Saving a submission with a new id keeps the two in step. */
  lemma {:induction false} InsertNew(table: seq<Row>, row: Row)
    requires forall i | 0 <= i < |table| :: table[i].submissionId != row.submissionId || table[i].createdAt != row.createdAt
    ensures SqlInsert(table, row) == table + [row]
  {
    if table != [] {
      InsertNew(table[1..], row);
      assert table == [table[0]] + table[1..];
      assert [table[0]] + (table[1..] + [row]) == table + [row];
    }
  }

  lemma {:induction false} UpdateRows(table: seq<Row>, id: string, status: DbStatus)
    ensures |SqlUpdate(table, id, status)| == |table|
    ensures forall i | 0 <= i < |table| ::
              SqlUpdate(table, id, status)[i] == if table[i].submissionId == id then Updated(table[i], status) else table[i]
  {
    if table != [] {
      UpdateRows(table[1..], id, status);
    }
  }

  /** What a write does to the table, when the repository accepts it. */
  ghost function SqlApply(table: seq<Row>, w: Write): seq<Row> {
    match w
    case Create(s) => if s.status.Unspecified? then table else SqlInsert(table, ToRow(s, StatusToDb(s.status).value))
    case Update(id, status) => if status.Unspecified? then table else SqlUpdate(table, id, StatusToDb(status).value)
  }

  ghost predicate Storable(w: Write) {
    match w
    case Create(s) => !s.status.Unspecified?
    case Update(_, status) => !status.Unspecified?
  }

  /** Every create with a new id and every status update keeps table and store in step, if the status can be stored. */
  lemma WriteAgrees(table: seq<Row>, store: Store, w: Write)
    requires SameData(table, store) && Storable(w)
    requires w.Create? ==> w.submission.submissionId !in store
    ensures SameData(SqlApply(table, w), Apply(store, w))
  {
    match w {
      case Create(s) => CreateAgrees(table, store, s);
      case Update(id, status) => UpdateAgrees(table, id, status);
    }
  }

  lemma CreateAgrees(table: seq<Row>, store: Store, s: Submission)
    requires SameData(table, store) && !s.status.Unspecified? && s.submissionId !in store
    ensures SameData(SqlInsert(table, ToRow(s, StatusToDb(s.status).value)), store[s.submissionId := s])
  {
    var row := ToRow(s, StatusToDb(s.status).value);
    StoreOfRows(table);
    InsertNew(table, row);
    assert ToSubmission(row) == s;
    assert (table + [row])[..|table|] == table;
  }

  /** A submission that is new, or stored with another status or score. */
  ghost predicate MaySave(store: Store, s: Submission) {
    s.submissionId in store ==> SamePlace(store[s.submissionId], s)
  }

  /** Both halves of the upsert leave the store with the submission saved. */
  lemma SaveAgrees(table: seq<Row>, s: Submission)
    requires UniqueIds(table) && !s.status.Unspecified? && MaySave(StoreOf(table), s)
    ensures SameData(SqlInsert(table, ToRow(s, StatusToDb(s.status).value)), StoreOf(table)[s.submissionId := s])
  {
    if s.submissionId in StoreOf(table) {
      StoreOfRows(table);
      var i :| 0 <= i < |table| && table[i].submissionId == s.submissionId;
      RowKeepsPlace(table[i], s);
      InsertKnown(table, ToRow(s, StatusToDb(s.status).value), i);
      SaveKnown(table, StoreOf(table), i, ToRow(s, StatusToDb(s.status).value), s);
    } else {
      CreateAgrees(table, StoreOf(table), s);
    }
  }

  lemma RowKeepsPlace(row: Row, s: Submission)
    requires SamePlace(ToSubmission(row), s) && !s.status.Unspecified?
    ensures ToRow(s, StatusToDb(s.status).value) == row.(status := StatusToDb(s.status).value, score := s.score)
    ensures ToSubmission(ToRow(s, StatusToDb(s.status).value)) == s
  {
  }

  lemma SaveKnown(table: seq<Row>, store: Store, i: nat, row: Row, s: Submission)
    requires UniqueIds(table) && Describes(table, store) && i < |table|
    requires row.submissionId == table[i].submissionId == s.submissionId && ToSubmission(row) == s
    ensures SameData(table[i := row], store[s.submissionId := s])
  {
    RowReplaced(table, store, i, row);
    StoreDetermined(table[i := row], store[s.submissionId := s]);
  }

  lemma {:induction false} InsertKnown(table: seq<Row>, row: Row, i: nat)
    requires UniqueIds(table) && i < |table|
    requires table[i].submissionId == row.submissionId && table[i].createdAt == row.createdAt
    ensures SqlInsert(table, row) == table[i := table[i].(status := row.status, score := row.score)]
  {
    assert table == [table[0]] + table[1..];
    if i > 0 {
      var after := table[i].(status := row.status, score := row.score);
      assert table[0].submissionId != row.submissionId;
      InsertKnown(table[1..], row, i - 1);
      assert table[i := after] == [table[0]] + table[1..][i - 1 := after];
    }
  }

  lemma RowReplaced(table: seq<Row>, store: Store, i: nat, row: Row)
    requires UniqueIds(table) && Describes(table, store) && i < |table| && row.submissionId == table[i].submissionId
    ensures UniqueIds(table[i := row]) && Describes(table[i := row], store[row.submissionId := ToSubmission(row)])
  {
    var after := table[i := row];
    forall id | id in store[row.submissionId := ToSubmission(row)] ensures HasRow(after, id) {
      var k :| 0 <= k < |table| && table[k].submissionId == id;
      assert after[k].submissionId == id;
    }
  }

  lemma AnsweredIsStored(before: seq<Row>, table: seq<Row>, id: string, status: Status, r: Result<Submission, SqlError>)
    requires SameData(table, Apply(StoreOf(before), Write.Update(id, status))) && AnswersUpdate(table, id, r)
    ensures id in StoreOf(before) <==> id in StoreOf(table)
    ensures r == if id in StoreOf(before) then Ok(StoreOf(table)[id]) else Err(NoRows)
  {
    StoreOfRows(table);
    RowAnswers(table, StoreOf(table), id, r);
  }

  lemma RowAnswers(table: seq<Row>, store: Store, id: string, r: Result<Submission, SqlError>)
    requires Describes(table, store) && AnswersUpdate(table, id, r)
    ensures r == if id in store then Ok(store[id]) else Err(NoRows)
  {
    if id in store {
      assert HasRow(table, id);
    }
  }

  /** A table determines its store: the ids of its rows, each with its row's submission. */
  lemma StoreDetermined(table: seq<Row>, store: Store)
    requires UniqueIds(table) && Describes(table, store)
    ensures SameData(table, store)
  {
    StoreOfRows(table);
    forall id ensures id in store <==> id in StoreOf(table) {
    }
    forall id | id in store ensures store[id] == StoreOf(table)[id] {
      var i :| 0 <= i < |table| && table[i].submissionId == id;
    }
    assert store == StoreOf(table);
  }

  lemma UpdateAgrees(table: seq<Row>, id: string, status: Status)
    requires UniqueIds(table) && !status.Unspecified?
    ensures SameData(SqlUpdate(table, id, StatusToDb(status).value), Apply(StoreOf(table), Write.Update(id, status)))
  {
    var db := StatusToDb(status).value;
    StoreOfRows(table);
    UpdateRows(table, id, db);
    RowsFollowUpdate(table, SqlUpdate(table, id, db), StoreOf(table), id, status);
    StoreDetermined(SqlUpdate(table, id, db), Apply(StoreOf(table), Write.Update(id, status)));
  }

  lemma RowsFollowUpdate(table: seq<Row>, after: seq<Row>, store: Store, id: string, status: Status)
    requires Describes(table, store) && !status.Unspecified? && |after| == |table|
    requires forall i | 0 <= i < |table| ::
               after[i] == if table[i].submissionId == id then Updated(table[i], StatusToDb(status).value) else table[i]
    ensures Describes(after, Apply(store, Write.Update(id, status)))
  {
    hide ToSubmission, WithStatus, Updated;
    var updated := Apply(store, Write.Update(id, status));
    forall i | 0 <= i < |after|
      ensures after[i].submissionId in updated && updated[after[i].submissionId] == ToSubmission(after[i])
    {
      assert store[table[i].submissionId] == ToSubmission(table[i]);
      RowFollowsUpdate(table[i], store, id, status);
    }
    forall i | 0 <= i < |after| ensures after[i].submissionId == table[i].submissionId {
      UpdatedRow(table[i], status);
    }
    forall other | other in updated ensures HasRow(after, other) {
      var i :| 0 <= i < |table| && table[i].submissionId == other;
      assert after[i].submissionId == other;
    }
  }

  lemma RowFollowsUpdate(row: Row, store: Store, id: string, status: Status)
    requires !status.Unspecified? && row.submissionId in store && store[row.submissionId] == ToSubmission(row)
    ensures var after := if row.submissionId == id then Updated(row, StatusToDb(status).value) else row;
            && after.submissionId in Apply(store, Write.Update(id, status))
            && Apply(store, Write.Update(id, status))[after.submissionId] == ToSubmission(after)
  {
    UpdatedRow(row, status);
  }

  lemma UpdatedRow(row: Row, status: Status)
    requires !status.Unspecified?
    ensures Updated(row, StatusToDb(status).value).submissionId == row.submissionId
    ensures ToSubmission(Updated(row, StatusToDb(status).value)) == WithStatus(ToSubmission(row), status)
  {
  }

  /** After an update that only the in-memory repository accepts, the two no longer hold the same data. */
  lemma UnspecifiedDiverges(table: seq<Row>, store: Store, id: string)
    requires SameData(table, store) && id in store
    ensures !SameData(SqlApply(table, Write.Update(id, Unspecified)), Apply(store, Write.Update(id, Unspecified)))
  {
    StoreOfRows(table);
    var i :| 0 <= i < |table| && table[i].submissionId == id;
    assert ToSubmission(table[i]).status != Unspecified;
  }

  lemma RefusedCreateDiverges(table: seq<Row>, store: Store, s: Submission)
    requires SameData(table, store) && s.status.Unspecified?
    ensures !SameData(SqlApply(table, Write.Create(s)), Apply(store, Write.Create(s)))
  {
    StoreOfRows(table);
    assert Apply(store, Write.Create(s))[s.submissionId] == s;
    if s.submissionId in store {
      var i :| 0 <= i < |table| && table[i].submissionId == s.submissionId;
      assert store[s.submissionId] == ToSubmission(table[i]);
    }
  }

  /** A known id with another time gets a second row; with the same time but other fields, only status and score change. */
  lemma MisplacedCreateDiverges(table: seq<Row>, store: Store, s: Submission)
    requires SameData(table, store) && !s.status.Unspecified? && !MaySave(store, s)
    ensures !SameData(SqlApply(table, Write.Create(s)), Apply(store, Write.Create(s)))
  {
    StoreOfRows(table);
    var row := ToRow(s, StatusToDb(s.status).value);
    var i :| 0 <= i < |table| && table[i].submissionId == s.submissionId;
    if table[i].createdAt == s.createdAt {
      InsertKnown(table, row, i);
      OtherRowDiverges(SqlInsert(table, row), i, store, s);
    } else {
      InsertNew(table, row);
      assert (table + [row])[i].submissionId == (table + [row])[|table|].submissionId;
    }
  }

  lemma OtherRowDiverges(table: seq<Row>, i: nat, store: Store, s: Submission)
    requires i < |table| && table[i].submissionId == s.submissionId && ToSubmission(table[i]) != s
    ensures !SameData(table, Apply(store, Write.Create(s)))
  {
    if UniqueIds(table) {
      StoreOfRows(table);
      assert table[i].submissionId in StoreOf(table);
    }
  }

  /**
    Exactly which writes keep the two in step: a status that can be stored, for a new submission or one
    that differs from the stored one by status and score only; or an update of an unknown id.
   */
  lemma StepAgreesIff(table: seq<Row>, store: Store, w: Write)
    requires SameData(table, store)
    ensures SameData(SqlApply(table, w), Apply(store, w)) <==>
            match w
            case Create(s) => Storable(w) && MaySave(store, s)
            case Update(id, _) => Storable(w) || id !in store
  {
    match w {
      case Create(s) =>
        if s.status.Unspecified? {
          RefusedCreateDiverges(table, store, s);
        } else if MaySave(store, s) {
          SaveAgrees(table, s);
        } else {
          MisplacedCreateDiverges(table, store, s);
        }
      case Update(id, status) =>
        if !status.Unspecified? {
          UpdateAgrees(table, id, status);
        } else if id in store {
          UnspecifiedDiverges(table, store, id);
        }
    }
  }

  ghost function SqlApplyAll(table: seq<Row>, writes: seq<Write>): seq<Row>
    decreases writes
  {
    if writes == [] then table else SqlApplyAll(SqlApply(table, writes[0]), writes[1..])
  }

  /**
    Two implementations, one behaviour: after any sequence of creations with new ids and status updates,
    from an empty start, both repositories answer every listing query alike.
   */
  lemma RepositoriesAgree(writes: seq<Write>, q: Query)
    requires FreshCreates(map[], writes) && forall w | w in writes :: Storable(w)
    ensures match List(ApplyAll(map[], writes), q)
            case Ok(page) => SqlList(SqlApplyAll([], writes), q) == Ok(page)
            case Err(e) => SqlList(SqlApplyAll([], writes), q) == Err(BadCursor(e))
  {
    RunsAgree([], map[], writes);
    ListingsAgree(SqlApplyAll([], writes), ApplyAll(map[], writes), q);
  }

  lemma {:induction false} RunsAgree(table: seq<Row>, store: Store, writes: seq<Write>)
    requires SameData(table, store) && FreshCreates(store, writes) && forall w | w in writes :: Storable(w)
    ensures SameData(SqlApplyAll(table, writes), ApplyAll(store, writes))
    decreases writes
  {
    if writes != [] {
      assert writes[0] in writes;
      WriteAgrees(table, store, writes[0]);
      RunsAgree(SqlApply(table, writes[0]), Apply(store, writes[0]), writes[1..]);
    }
  }
}
