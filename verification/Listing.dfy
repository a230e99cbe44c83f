/** What a page of submissions is: filter, strict cursor bound, descending (createdAt, id) order, page size. */
module Listing {
  import opened Basics
  import opened Ordering
  import opened Submissions
  import Cursor

  datatype Query = Query(cursor: string, pageSize: Int32, actorId: string, problemId: string, contestId: string)

  datatype Page = Page(submissions: seq<Submission>, nextCursor: string)

  type Store = map<string, Submission>

  ghost predicate WellKeyed(store: Store) {
    forall id | id in store :: store[id].submissionId == id
  }

  predicate Matches(q: Query, s: Submission) {
    && (q.actorId == "" || s.actorId == q.actorId)
    && (q.problemId == "" || s.problemId == q.problemId)
    && (q.contestId == "" || s.contestId == q.contestId)
  }

  /** A cursor with time zero bounds nothing. */
  predicate AfterCursor(s: Submission, c: Cursor.SubmissionCursor) {
    || c.createdAt == 0
    || s.createdAt < c.createdAt
    || (s.createdAt == c.createdAt && StringLess(s.submissionId, c.submissionId))
  }

  /** `a` is listed before `b`. */
  predicate Before(a: Submission, b: Submission) {
    if a.createdAt == b.createdAt then StringLess(b.submissionId, a.submissionId) else a.createdAt > b.createdAt
  }

  function NormalizePageSize(n: Int32): (r: Int32)
    ensures 1 <= r <= 100
    ensures 1 <= n <= 100 ==> r == n
    ensures n <= 0 ==> r == 30
  {
    if n <= 0 then 30 else if n > 100 then 100 else n
  }

  function CursorOf(s: Submission): Cursor.SubmissionCursor {
    Cursor.SubmissionCursor(s.createdAt, s.submissionId)
  }

  // ---------- the specification of a listing ----------

  ghost function Candidates(store: Store, q: Query, c: Cursor.SubmissionCursor): set<Submission> {
    set id | id in store && Matches(q, store[id]) && AfterCursor(store[id], c) :: store[id]
  }

  /** All candidates, newest first. */
  ghost function Listed(store: Store, q: Query, c: Cursor.SubmissionCursor): seq<Submission> {
    Sort(Before, Enumerate(Candidates(store, q, c)))
  }

  /** The first page of a full listing. The next cursor names the page's last item, and is empty on the last page. */
  function Cut(listed: seq<Submission>, limit: Int32): Page
    requires limit >= 1
  {
    if |listed| <= limit then Page(listed, "")
    else Page(listed[..limit], Cursor.Encode(CursorOf(listed[limit - 1])))
  }

  ghost function List(store: Store, q: Query): Result<Page, Cursor.DecodeError> {
    match Cursor.Decode(q.cursor)
    case Err(e) => Err(e)
    case Ok(c) => Ok(Cut(Listed(store, q, c), NormalizePageSize(q.pageSize)))
  }

  // ---------- the order ----------

  lemma BeforeTransitive(a: Submission, b: Submission, c: Submission)
    requires Before(a, b) && Before(b, c)
    ensures Before(a, c)
  {
    if a.createdAt == b.createdAt == c.createdAt {
      StringLessTransitive(c.submissionId, b.submissionId, a.submissionId);
    }
  }

  lemma BeforeTotal(a: Submission, b: Submission)
    ensures !Before(a, a)
    ensures a.submissionId != b.submissionId ==> Before(a, b) || Before(b, a)
    ensures Before(a, b) ==> !Before(b, a)
  {
    StringLessTotal(a.submissionId, b.submissionId);
    if Before(a, b) && Before(b, a) {
      BeforeTransitive(a, b, a);
    }
  }

  /** Submissions with different ids are strictly ordered by `Before`. */
  lemma BeforeIsStrictOrder(s: set<Submission>)
    requires forall a, b | a in s && b in s && a.submissionId == b.submissionId :: a == b
    ensures StrictOrderOn(Before, s)
  {
    forall a, b | a in s && b in s ensures !Before(a, a) && (a == b || Before(a, b) || Before(b, a)) {
      BeforeTotal(a, b);
    }
    forall a, b, c | a in s && b in s && c in s && Before(a, b) && Before(b, c) ensures Before(a, c) {
      BeforeTransitive(a, b, c);
    }
  }

  /** A listing is the candidates in strictly descending order. */
  lemma ListedIsChain(store: Store, q: Query, c: Cursor.SubmissionCursor)
    requires WellKeyed(store)
    ensures Chain(Before, Listed(store, q, c))
    ensures Elements(Listed(store, q, c)) == Candidates(store, q, c)
    ensures |Listed(store, q, c)| == |Candidates(store, q, c)|
  {
    BeforeIsStrictOrder(Candidates(store, q, c));
    SortDistinct(Before, Enumerate(Candidates(store, q, c)));
  }

  /** Whatever the order in which the candidates were collected, sorting them gives the same listing. */
  lemma SortedCandidates(store: Store, q: Query, c: Cursor.SubmissionCursor, collected: seq<Submission>)
    requires WellKeyed(store)
    requires Elements(collected) == Candidates(store, q, c)
    requires forall i, j | 0 <= i < j < |collected| :: collected[i] != collected[j]
    ensures Sort(Before, collected) == Listed(store, q, c)
  {
    ListedIsChain(store, q, c);
    BeforeIsStrictOrder(Candidates(store, q, c));
    SortDistinct(Before, collected);
    ChainIsUnique(Before, Sort(Before, collected), Listed(store, q, c));
  }

  /** Anything that lists the candidates in strictly descending order is the listing. */
  lemma ListedIsUnique(store: Store, q: Query, c: Cursor.SubmissionCursor, xs: seq<Submission>)
    requires WellKeyed(store) && Chain(Before, xs) && Elements(xs) == Candidates(store, q, c)
    ensures xs == Listed(store, q, c)
  {
    ListedIsChain(store, q, c);
    BeforeIsStrictOrder(Candidates(store, q, c));
    ChainIsUnique(Before, xs, Listed(store, q, c));
  }

  // ---------- a page, said without the listing ----------

  /** What a query asks for, below its cursor. */
  ghost function Wanted(store: Store, q: Query, c: Cursor.SubmissionCursor): set<Submission> {
    set id | id in store
      && (q.actorId == "" || store[id].actorId == q.actorId)
      && (q.problemId == "" || store[id].problemId == q.problemId)
      && (q.contestId == "" || store[id].contestId == q.contestId)
      && (|| c.createdAt == 0
          || store[id].createdAt < c.createdAt
          || (store[id].createdAt == c.createdAt && StringLess(store[id].submissionId, c.submissionId))) :: store[id]
  }

  /** `a` is newer than `b`; of two from the same second, the greater id counts as newer. */
  ghost predicate Newer(a: Submission, b: Submission) {
    a.createdAt > b.createdAt || (a.createdAt == b.createdAt && StringLess(b.submissionId, a.submissionId))
  }

  /** The newest of what is wanted, newest first: all of it, or `limit` of it if there is more. */
  ghost predicate IsTop(wanted: set<Submission>, limit: int, xs: seq<Submission>) {
    && |xs| == (if |wanted| <= limit then |wanted| else limit)
    && (forall s | s in xs :: s in wanted)
    && (forall i, j | 0 <= i < j < |xs| :: Newer(xs[i], xs[j]))
    && (forall s, t | s in xs && t in wanted && t !in xs :: Newer(s, t))
  }

  /**
    The page holds the newest of what is wanted, as much as the limit allows: 30 when no positive size was
    asked for, 100 when more than that was, and otherwise what was asked for. Exactly when something is left
    over there is a next cursor, and it stands for the last item.
   */
  ghost predicate IsPage(store: Store, q: Query, c: Cursor.SubmissionCursor, page: Page) {
    var wanted := Wanted(store, q, c);
    var limit := if q.pageSize <= 0 then 30 else if q.pageSize > 100 then 100 else q.pageSize;
    && IsTop(wanted, limit, page.submissions)
    && (page.nextCursor != "" <==> |wanted| > limit)
    && (page.nextCursor != "" ==>
          && page.submissions != []
          && var last := page.submissions[|page.submissions| - 1];
             Cursor.Decode(page.nextCursor) == Ok(Cursor.SubmissionCursor(last.createdAt, last.submissionId)))
  }

  lemma WantedAreCandidates(store: Store, q: Query, c: Cursor.SubmissionCursor)
    ensures Wanted(store, q, c) == Candidates(store, q, c)
  {
  }

  /** The front of a descending list of what is wanted. */
  lemma FrontIsTop(listed: seq<Submission>, wanted: set<Submission>, limit: nat)
    requires Chain(Before, listed) && Elements(listed) == wanted && |listed| == |wanted|
    ensures IsTop(wanted, limit, if |listed| <= limit then listed else listed[..limit])
  {
    var xs := if |listed| <= limit then listed else listed[..limit];
    forall s | s in xs ensures s in wanted {
      assert s in Elements(listed);
    }
    forall i, j | 0 <= i < j < |xs| ensures Newer(xs[i], xs[j]) {
      assert Before(listed[i], listed[j]);
    }
    forall s, t | s in xs && t in wanted && t !in xs ensures Newer(s, t) {
      assert t in Elements(listed);
      LeftOverIsOlder(listed, xs, s, t);
    }
  }

  lemma LeftOverIsOlder(listed: seq<Submission>, xs: seq<Submission>, s: Submission, t: Submission)
    requires Chain(Before, listed) && xs <= listed && s in xs && t in listed && t !in xs
    ensures Newer(s, t)
  {
    var i :| 0 <= i < |xs| && xs[i] == s;
    var j :| 0 <= j < |listed| && listed[j] == t;
    assert listed[i] == s;
    assert forall k | 0 <= k < |xs| :: xs[k] == listed[k] && xs[k] in xs;
    assert Before(listed[i], listed[j]);
  }

  lemma CutIsPage(store: Store, q: Query, c: Cursor.SubmissionCursor)
    requires WellKeyed(store)
    ensures IsPage(store, q, c, Cut(Listed(store, q, c), NormalizePageSize(q.pageSize)))
  {
    hide Cursor.Decode, Cursor.Encode, Listed, Wanted, Candidates, IsTop;
    var listed := Listed(store, q, c);
    var limit := NormalizePageSize(q.pageSize);
    ListedIsChain(store, q, c);
    WantedAreCandidates(store, q, c);
    FrontIsTop(listed, Wanted(store, q, c), limit);
    if |listed| > limit {
      Cursor.RoundTrip(CursorOf(listed[limit - 1]));
    }
  }

  /** Every successful answer to a query is such a page. */
  lemma ListIsPage(store: Store, q: Query)
    requires WellKeyed(store) && List(store, q).Ok?
    ensures Cursor.Decode(q.cursor).Ok? && IsPage(store, q, Cursor.Decode(q.cursor).value, List(store, q).value)
  {
    hide Cursor.Decode, IsPage, Cut;
    CutIsPage(store, q, Cursor.Decode(q.cursor).value);
  }
}
