/** Whole walks through a listing, feeding each page's next cursor into the next request, while others write. */
module Pagination {
  import opened Basics
  import opened Ordering
  import opened Submissions
  import opened Listing
  import opened MemoryStore
  import Cursor

  // ---------- writes between requests ----------

  /** What a listing can see of a submission never changes: its id, time, actor, problem and contest. */
  ghost predicate SamePlace(a: Submission, b: Submission) {
    a == b.(status := a.status, score := a.score)
  }

  /** Nothing is removed and nothing moves. */
  ghost predicate Grows(before: Store, after: Store) {
    forall id | id in before :: id in after && SamePlace(before[id], after[id])
  }

  datatype Write = Create(submission: Submission) | Update(id: string, status: Status)

  ghost function Apply(store: Store, w: Write): Store {
    match w
    case Create(s) => store[s.submissionId := s]
    case Update(id, status) => if id in store then store[id := WithStatus(store[id], status)] else store
  }

  ghost function ApplyAll(store: Store, writes: seq<Write>): Store
    decreases writes
  {
    if writes == [] then store else ApplyAll(Apply(store, writes[0]), writes[1..])
  }

  /** Every create in the sequence uses an id that is new at its turn. */
  ghost predicate FreshCreates(store: Store, writes: seq<Write>)
    decreases writes
  {
    if writes == [] then true
    else
      && (writes[0].Create? ==> writes[0].submission.submissionId !in store)
      && FreshCreates(Apply(store, writes[0]), writes[1..])
  }

  /** Any number of creations with new ids and status updates only let the store grow. */
  lemma {:induction false} WritesGrow(store: Store, writes: seq<Write>)
    requires WellKeyed(store) && FreshCreates(store, writes)
    ensures WellKeyed(ApplyAll(store, writes)) && Grows(store, ApplyAll(store, writes))
    decreases writes
  {
    if writes != [] {
      WritesGrow(Apply(store, writes[0]), writes[1..]);
    }
  }

  // ---------- walks ----------

  /** One request: what is stored when it is served, the page size asked for, and the page returned. */
  datatype Visit = Visit(store: Store, size: Int32, page: Page)

  const START := Cursor.ZERO

  ghost function RequestCursor(walk: seq<Visit>, i: nat): string
    requires i <= |walk|
  {
    if i == 0 then "" else walk[i - 1].page.nextCursor
  }

  /** Each page answers its request, with the same filter throughout; only the last may lack a next cursor. */
  ghost predicate IsWalk(filter: Query, walk: seq<Visit>) {
    && walk != []
    && (forall i {:trigger Link(walk, i)} | 0 <= i < |walk| :: Link(walk, i))
    && (forall i {:trigger Answered(filter, walk, i)} | 0 <= i < |walk| :: Answered(filter, walk, i))
  }

  ghost predicate Link(walk: seq<Visit>, i: nat)
    requires i < |walk|
  {
    && WellKeyed(walk[i].store)
    && (i + 1 < |walk| ==> Grows(walk[i].store, walk[i + 1].store) && walk[i].page.nextCursor != "")
  }

  ghost predicate Answered(filter: Query, walk: seq<Visit>, i: nat)
    requires i < |walk|
  {
    List(walk[i].store, filter.(cursor := RequestCursor(walk, i), pageSize := walk[i].size)) == Ok(walk[i].page)
  }

  ghost predicate Completed(walk: seq<Visit>) {
    walk != [] && walk[|walk| - 1].page.nextCursor == ""
  }

  /** Everything returned from page `i` on. */
  ghost function ReturnedFrom(walk: seq<Visit>, i: nat): seq<Submission>
    requires i <= |walk|
    decreases |walk| - i
  {
    if i == |walk| then [] else walk[i].page.submissions + ReturnedFrom(walk, i + 1)
  }

  ghost function Returned(walk: seq<Visit>): seq<Submission> {
    ReturnedFrom(walk, 0)
  }

  /** The bound that request `i` puts on its page: the last item of the page before. */
  ghost function Bound(walk: seq<Visit>, i: nat): Cursor.SubmissionCursor
    requires i <= |walk|
  {
    if i > 0 && walk[i - 1].page.submissions != []
      then CursorOf(walk[i - 1].page.submissions[|walk[i - 1].page.submissions| - 1]) else START
  }

  /** No request is made with a cursor whose time is zero. */
  ghost predicate NoZeroCursor(walk: seq<Visit>) {
    forall i | 1 <= i < |walk| :: Bound(walk, i).createdAt != 0
  }

  ghost predicate DistinctIds(xs: seq<Submission>) {
    forall i, j | 0 <= i < j < |xs| :: xs[i].submissionId != xs[j].submissionId
  }

  ghost predicate HasId(xs: seq<Submission>, id: string) {
    exists i :: 0 <= i < |xs| && xs[i].submissionId == id
  }

  // ---------- one page ----------

  lemma ListedIgnoresPaging(store: Store, q: Query, cursor: string, size: Int32, c: Cursor.SubmissionCursor)
    ensures Listed(store, q.(cursor := cursor, pageSize := size), c) == Listed(store, q, c)
  {
    assert Candidates(store, q.(cursor := cursor, pageSize := size), c) == Candidates(store, q, c);
  }

  /** A page is all of the listing or its first `limit` items, and the next cursor then decodes to the last of them. */
  ghost predicate TopOf(page: Page, listed: seq<Submission>, limit: nat) {
    if |listed| <= limit then page.submissions == listed && page.nextCursor == ""
    else page.submissions == listed[..limit] && page.nextCursor != ""
  }

  lemma CutIsTop(listed: seq<Submission>, limit: Int32)
    requires limit >= 1
    ensures TopOf(Cut(listed, limit), listed, limit)
    ensures Cut(listed, limit).nextCursor != "" ==>
              Cursor.Decode(Cut(listed, limit).nextCursor) == Ok(CursorOf(Cut(listed, limit).submissions[limit - 1]))
  {
    if |listed| > limit {
      Cursor.RoundTrip(CursorOf(listed[limit - 1]));
    }
  }

  /** What an answered request returns, in terms of the bound its cursor stands for. */
  lemma AnswerIsTop(store: Store, q: Query, cursor: string, size: Int32, c: Cursor.SubmissionCursor, page: Page)
    requires List(store, q.(cursor := cursor, pageSize := size)) == Ok(page) && Cursor.Decode(cursor) == Ok(c)
    ensures TopOf(page, Listed(store, q, c), NormalizePageSize(size))
    ensures page.nextCursor != "" ==>
              page.submissions != [] && Cursor.Decode(page.nextCursor) == Ok(CursorOf(page.submissions[|page.submissions| - 1]))
  {
    hide Cursor.Decode, Cursor.Encode, Listed, Candidates;
    ListedIgnoresPaging(store, q, cursor, size, c);
    CutIsTop(Listed(store, q, c), NormalizePageSize(size));
  }

  lemma VisitIsTop(filter: Query, walk: seq<Visit>, i: nat)
    requires IsWalk(filter, walk) && i < |walk|
    requires Cursor.Decode(RequestCursor(walk, i)) == Ok(Bound(walk, i))
    ensures TopOf(walk[i].page, Listed(walk[i].store, filter, Bound(walk, i)), NormalizePageSize(walk[i].size))
    ensures i + 1 < |walk| ==> Cursor.Decode(RequestCursor(walk, i + 1)) == Ok(Bound(walk, i + 1))
  {
    assert Link(walk, i) && Answered(filter, walk, i);
    AnswerIsTop(walk[i].store, filter, RequestCursor(walk, i), walk[i].size, Bound(walk, i), walk[i].page);
  }

  lemma {:induction false} CursorDecodes(filter: Query, walk: seq<Visit>, i: nat)
    requires IsWalk(filter, walk) && i < |walk|
    ensures Cursor.Decode(RequestCursor(walk, i)) == Ok(Bound(walk, i))
  {
    if i > 0 {
      CursorDecodes(filter, walk, i - 1);
      VisitIsTop(filter, walk, i - 1);
    }
  }

  /** Page `i` is the top of the listing below its bound, and has a next cursor iff something is left over. */
  lemma PageIsTop(filter: Query, walk: seq<Visit>, i: nat)
    requires IsWalk(filter, walk) && i < |walk|
    ensures TopOf(walk[i].page, Listed(walk[i].store, filter, Bound(walk, i)), NormalizePageSize(walk[i].size))
    ensures WellKeyed(walk[i].store) && (i + 1 < |walk| ==> walk[i].page.nextCursor != "")
  {
    CursorDecodes(filter, walk, i);
    VisitIsTop(filter, walk, i);
    assert Link(walk, i);
  }

  /** What is known of the items of page `i`. */
  lemma PageItems(filter: Query, walk: seq<Visit>, i: nat)
    requires IsWalk(filter, walk) && i < |walk|
    ensures Chain(Before, walk[i].page.submissions)
    ensures forall s | s in walk[i].page.submissions ::
              && s.submissionId in walk[i].store && walk[i].store[s.submissionId] == s
              && Matches(filter, s) && AfterCursor(s, Bound(walk, i))
  {
    PageIsTop(filter, walk, i);
    var listed := Listed(walk[i].store, filter, Bound(walk, i));
    ListedIsChain(walk[i].store, filter, Bound(walk, i));
    forall s | s in walk[i].page.submissions
      ensures s.submissionId in walk[i].store && walk[i].store[s.submissionId] == s
              && Matches(filter, s) && AfterCursor(s, Bound(walk, i))
    {
      assert s in Elements(listed);
    }
  }

  lemma {:induction false} StoresGrow(filter: Query, walk: seq<Visit>, i: nat, j: nat)
    requires IsWalk(filter, walk) && i <= j < |walk|
    ensures Grows(walk[i].store, walk[j].store)
  {
    if i < j {
      StoresGrow(filter, walk, i, j - 1);
      assert Link(walk, j - 1);
    }
  }

  /** The last item of a page that is followed by another, and the bound it gives. */
  lemma LastItem(filter: Query, walk: seq<Visit>, i: nat) returns (last: Submission)
    requires IsWalk(filter, walk) && i + 1 < |walk|
    ensures walk[i].page.submissions != [] && last == walk[i].page.submissions[|walk[i].page.submissions| - 1]
    ensures Bound(walk, i + 1) == CursorOf(last)
    ensures last.submissionId in walk[i].store && walk[i].store[last.submissionId] == last && Matches(filter, last)
    ensures last.submissionId in walk[i + 1].store && SamePlace(last, walk[i + 1].store[last.submissionId])
    ensures AfterCursor(last, Bound(walk, i))
  {
    PageItems(filter, walk, i);
    PageIsTop(filter, walk, i);
    var page := walk[i].page.submissions;
    last := page[|page| - 1];
    assert last in page;
    assert Link(walk, i);
  }

  // ---------- coverage ----------

  /** A candidate of request `i` is on page `i`, or is still a candidate of request `i + 1`. */
  lemma OnPageOrNext(filter: Query, walk: seq<Visit>, i: nat, id: string)
    requires IsWalk(filter, walk) && i < |walk|
    requires id in walk[i].store && Matches(filter, walk[i].store[id]) && AfterCursor(walk[i].store[id], Bound(walk, i))
    ensures || HasId(walk[i].page.submissions, id)
            || (walk[i].page.nextCursor != "" && AfterCursor(walk[i].store[id], Bound(walk, i + 1)))
  {
    PageIsTop(filter, walk, i);
    InTopOrBelow(walk[i].store, filter, Bound(walk, i), walk[i].page, NormalizePageSize(walk[i].size), walk[i].store[id]);
  }

  lemma InTopOrBelow(store: Store, q: Query, c: Cursor.SubmissionCursor, page: Page, limit: nat, s: Submission)
    requires WellKeyed(store) && limit >= 1 && TopOf(page, Listed(store, q, c), limit)
    requires s in Candidates(store, q, c)
    ensures || HasId(page.submissions, s.submissionId)
            || (page.nextCursor != "" && page.submissions != []
                && AfterCursor(s, CursorOf(page.submissions[|page.submissions| - 1])))
  {
    var listed := Listed(store, q, c);
    ListedIsChain(store, q, c);
    assert s in Elements(listed);
    var k :| 0 <= k < |listed| && listed[k] == s;
    if k < |page.submissions| {
      assert page.submissions[k] == s;
    } else {
      assert Before(listed[limit - 1], listed[k]);
    }
  }

  /** A completed walk returns everything that was below its bound at any of its requests. */
  lemma {:induction false} CoversFrom(filter: Query, walk: seq<Visit>, i: nat, id: string)
    requires IsWalk(filter, walk) && Completed(walk) && i < |walk|
    requires id in walk[i].store && Matches(filter, walk[i].store[id]) && AfterCursor(walk[i].store[id], Bound(walk, i))
    ensures HasId(ReturnedFrom(walk, i), id)
    decreases |walk| - i
  {
    OnPageOrNext(filter, walk, i, id);
    var page, rest := walk[i].page.submissions, ReturnedFrom(walk, i + 1);
    if HasId(page, id) {
      var k :| 0 <= k < |page| && page[k].submissionId == id;
      assert (page + rest)[k].submissionId == id;
    } else {
      assert Link(walk, i);
      CoversFrom(filter, walk, i + 1, id);
      var k :| 0 <= k < |rest| && rest[k].submissionId == id;
      assert (page + rest)[|page| + k].submissionId == id;
    }
  }

  // ---------- no repetition ----------

  lemma BelowNonZero(s: Submission, t: Submission)
    requires AfterCursor(t, CursorOf(s)) && s.createdAt != 0
    ensures Before(s, t)
  {
  }

  lemma ChainAppend(xs: seq<Submission>, ys: seq<Submission>)
    requires Chain(Before, xs) && Chain(Before, ys)
    requires xs != [] ==> forall y | y in ys :: Before(xs[|xs| - 1], y)
    ensures Chain(Before, xs + ys)
  {
    forall i, j | 0 <= i < j < |xs + ys| ensures Before((xs + ys)[i], (xs + ys)[j]) {
      if i < |xs| <= j {
        assert (xs + ys)[j] in ys;
        if i < |xs| - 1 {
          BeforeTransitive(xs[i], xs[|xs| - 1], ys[j - |xs|]);
        }
      }
    }
  }

  /** Without zero cursors everything returned is in strictly descending order, across pages too. */
  lemma {:induction false} Descends(filter: Query, walk: seq<Visit>, i: nat)
    requires IsWalk(filter, walk) && i < |walk|
    requires NoZeroCursor(walk)
    ensures Chain(Before, ReturnedFrom(walk, i))
    ensures forall s | s in ReturnedFrom(walk, i) :: AfterCursor(s, Bound(walk, i))
    decreases |walk| - i
  {
    PageItems(filter, walk, i);
    var page, rest := walk[i].page.submissions, ReturnedFrom(walk, i + 1);
    if i + 1 == |walk| {
      assert page + rest == page;
    } else {
      Descends(filter, walk, i + 1);
      var last := LastItem(filter, walk, i);
      forall s | s in rest ensures Before(last, s) && AfterCursor(s, Bound(walk, i)) {
        BelowNonZero(last, s);
        StaysBelow(last, s, Bound(walk, i));
      }
      ChainAppend(page, rest);
    }
  }

  lemma StaysBelow(a: Submission, b: Submission, c: Cursor.SubmissionCursor)
    requires AfterCursor(a, c) && Before(a, b)
    ensures AfterCursor(b, c)
  {
    if a.createdAt == b.createdAt == c.createdAt && c.createdAt != 0 {
      StringLessTransitive(b.submissionId, a.submissionId, c.submissionId);
    }
  }

  /** Everything returned was stored, with the time and id it still has at the end of the walk. */
  lemma {:induction false} ReturnedIsStored(filter: Query, walk: seq<Visit>, i: nat, s: Submission)
    requires IsWalk(filter, walk) && i <= |walk| && s in ReturnedFrom(walk, i)
    ensures var final := walk[|walk| - 1].store;
            && s.submissionId in final && SamePlace(final[s.submissionId], s) && Matches(filter, s)
    decreases |walk| - i
  {
    if s in walk[i].page.submissions {
      PageItems(filter, walk, i);
      StoresGrow(filter, walk, i, |walk| - 1);
    } else {
      ReturnedIsStored(filter, walk, i + 1, s);
    }
  }

  lemma DistinctWithoutZero(filter: Query, walk: seq<Visit>)
    requires IsWalk(filter, walk) && NoZeroCursor(walk)
    ensures DistinctIds(Returned(walk))
  {
    Descends(filter, walk, 0);
    var all := Returned(walk);
    forall i, j | 0 <= i < j < |all| ensures all[i].submissionId != all[j].submissionId {
      ReturnedIsStored(filter, walk, 0, all[i]);
      ReturnedIsStored(filter, walk, 0, all[j]);
      assert Before(all[i], all[j]);
      StringLessTotal(all[i].submissionId, all[j].submissionId);
    }
  }

  lemma {:induction false} ReturnedSplits(walk: seq<Visit>, i: nat, j: nat) returns (before: seq<Submission>)
    requires i <= j <= |walk|
    ensures ReturnedFrom(walk, i) == before + ReturnedFrom(walk, j)
    decreases j - i
  {
    if i == j {
      before := [];
    } else {
      var rest := ReturnedSplits(walk, i + 1, j);
      before := walk[i].page.submissions + rest;
    }
  }

  /** A cursor with time zero restarts the listing, so a completed walk returns the page before it again. */
  lemma ZeroCursorRepeats(filter: Query, walk: seq<Visit>, i: nat)
    requires IsWalk(filter, walk) && Completed(walk) && 1 <= i < |walk|
    requires Bound(walk, i).createdAt == 0
    ensures !DistinctIds(Returned(walk))
  {
    var last := LastItem(filter, walk, i - 1);
    CoversFrom(filter, walk, i, last.submissionId);
    var before := ReturnedSplits(walk, 0, i - 1);
    RepeatedId(before, walk[i - 1].page.submissions, ReturnedFrom(walk, i));
  }

  lemma RepeatedId(before: seq<Submission>, page: seq<Submission>, rest: seq<Submission>)
    requires page != [] && HasId(rest, page[|page| - 1].submissionId)
    ensures !DistinctIds(before + (page + rest))
  {
    var k :| 0 <= k < |rest| && rest[k].submissionId == page[|page| - 1].submissionId;
    var all := before + (page + rest);
    assert all[|before| + |page| - 1] == page[|page| - 1];
    assert all[|before| + |page| + k] == rest[k];
  }

  /**
    Pagination under interleaving. Whatever is created with new ids or updated between the requests, a
    completed walk returns every matching submission that was there at the start, and it returns
    nothing twice exactly when no request was made with a cursor of time zero.
   */
  lemma CompletedWalk(filter: Query, walk: seq<Visit>)
    requires IsWalk(filter, walk) && Completed(walk)
    ensures forall id | id in walk[0].store && Matches(filter, walk[0].store[id]) :: HasId(Returned(walk), id)
    ensures DistinctIds(Returned(walk)) <==> NoZeroCursor(walk)
  {
    forall id | id in walk[0].store && Matches(filter, walk[0].store[id]) ensures HasId(Returned(walk), id) {
      CoversFrom(filter, walk, 0, id);
    }
    if NoZeroCursor(walk) {
      DistinctWithoutZero(filter, walk);
    } else {
      var i :| 1 <= i < |walk| && Bound(walk, i).createdAt == 0;
      ZeroCursorRepeats(filter, walk, i);
    }
  }

  /** With nonzero creation times: every matching submission of the start exactly once, nothing twice. */
  lemma ExactlyOnce(filter: Query, walk: seq<Visit>)
    requires IsWalk(filter, walk) && Completed(walk)
    requires forall i, id | 0 <= i < |walk| && id in walk[i].store :: walk[i].store[id].createdAt != 0
    ensures DistinctIds(Returned(walk))
    ensures forall id | id in walk[0].store && Matches(filter, walk[0].store[id]) :: HasId(Returned(walk), id)
  {
    forall i | 1 <= i < |walk| ensures Bound(walk, i).createdAt != 0 {
      var last := LastItem(filter, walk, i - 1);
    }
    CompletedWalk(filter, walk);
  }

  // ---------- no writes ----------

  /** The listing below the n-th item is the rest of the listing, unless that item's time is zero. */
  lemma RestIsBelow(store: Store, q: Query, c: Cursor.SubmissionCursor, n: nat)
    requires WellKeyed(store) && 1 <= n <= |Listed(store, q, c)|
    ensures var listed := Listed(store, q, c);
            Listed(store, q, CursorOf(listed[n - 1])) == listed[n..] <==> listed[n - 1].createdAt != 0
  {
    var listed := Listed(store, q, c);
    ListedIsChain(store, q, c);
    var bound := CursorOf(listed[n - 1]);
    ListedIsChain(store, q, bound);
    assert listed[n - 1] in Elements(listed);
    if listed[n - 1].createdAt != 0 {
      BoundedCandidates(store, q, c, n);
      ListedIsUnique(store, q, bound, listed[n..]);
    } else {
      assert listed[n - 1] in Candidates(store, q, bound);
      assert listed[n - 1] in Elements(Listed(store, q, bound));
      forall k | n <= k < |listed| ensures listed[k] != listed[n - 1] {
        assert Before(listed[n - 1], listed[k]);
        BeforeTotal(listed[k], listed[k]);
      }
      assert listed[n - 1] !in listed[n..];
    }
  }

  /** In a chain, exactly what stands after an element is what it precedes. */
  lemma AfterInChain(listed: seq<Submission>, n: nat, s: Submission)
    requires Chain(Before, listed) && 1 <= n <= |listed|
    ensures s in listed[n..] <==> s in listed && Before(listed[n - 1], s)
  {
    if s in listed[n..] {
      var k :| 0 <= k < |listed[n..]| && listed[n..][k] == s;
      assert listed[n + k] == s;
    }
    if s in listed && Before(listed[n - 1], s) {
      var k :| 0 <= k < |listed| && listed[k] == s;
      BeforeTotal(listed[n - 1], s);
      BeforeTotal(s, s);
      assert k >= n;
      assert listed[n..][k - n] == s;
    }
  }

  lemma BoundedCandidates(store: Store, q: Query, c: Cursor.SubmissionCursor, n: nat)
    requires WellKeyed(store) && 1 <= n <= |Listed(store, q, c)|
    requires Listed(store, q, c)[n - 1].createdAt != 0
    ensures Elements(Listed(store, q, c)[n..]) == Candidates(store, q, CursorOf(Listed(store, q, c)[n - 1]))
  {
    var listed := Listed(store, q, c);
    ListedIsChain(store, q, c);
    var last := listed[n - 1];
    assert last in Elements(listed);
    forall s ensures s in listed[n..] <==> s in Candidates(store, q, CursorOf(last)) {
      AfterInChain(listed, n, s);
      assert s in listed <==> s in Elements(listed);
      if s in Candidates(store, q, CursorOf(last)) {
        BelowNonZero(last, s);
        StaysBelow(last, s, c);
      }
    }
  }

  ghost predicate NoWrites(walk: seq<Visit>) {
    forall i, j | 0 <= i < |walk| && 0 <= j < |walk| :: walk[i].store == walk[j].store
  }

  /** Without writes and zero cursors, what lies below the next bound is what the page left over. */
  lemma PageThenRest(filter: Query, walk: seq<Visit>, i: nat)
    requires IsWalk(filter, walk) && NoWrites(walk) && NoZeroCursor(walk) && i + 1 < |walk|
    ensures Listed(walk[i].store, filter, Bound(walk, i))
         == walk[i].page.submissions + Listed(walk[i + 1].store, filter, Bound(walk, i + 1))
    ensures walk[i].page.submissions != []
  {
    PageIsTop(filter, walk, i);
    var last := LastItem(filter, walk, i);
    TopThenRest(walk[i].store, filter, Bound(walk, i), walk[i].page, NormalizePageSize(walk[i].size));
  }

  lemma TakeAndDrop<T>(xs: seq<T>, n: nat)
    requires n <= |xs|
    ensures xs == xs[..n] + xs[n..]
  {
  }

  lemma TopThenRest(store: Store, q: Query, c: Cursor.SubmissionCursor, page: Page, n: nat)
    requires WellKeyed(store) && n >= 1 && TopOf(page, Listed(store, q, c), n)
    requires page.nextCursor != "" && page.submissions != []
    requires page.submissions[|page.submissions| - 1].createdAt != 0
    ensures Listed(store, q, c) == page.submissions + Listed(store, q, CursorOf(page.submissions[|page.submissions| - 1]))
  {
    var listed := Listed(store, q, c);
    assert page.submissions == listed[..n] && page.submissions[|page.submissions| - 1] == listed[n - 1];
    RestIsBelow(store, q, c, n);
    TakeAndDrop(listed, n);
  }

  /** Without writes and zero cursors, the pages from `i` on are exactly what lies below the bound of request `i`. */
  lemma {:induction false} PagesSpellListing(filter: Query, walk: seq<Visit>, i: nat)
    requires IsWalk(filter, walk) && Completed(walk) && NoWrites(walk) && NoZeroCursor(walk) && i < |walk|
    ensures ReturnedFrom(walk, i) == Listed(walk[i].store, filter, Bound(walk, i))
    decreases |walk| - i
  {
    hide Listed, List, Answered;
    if i + 1 == |walk| {
      PageIsTop(filter, walk, i);
      assert walk[i].page.submissions + ReturnedFrom(walk, i + 1) == walk[i].page.submissions;
    } else {
      PageThenRest(filter, walk, i);
      PagesSpellListing(filter, walk, i + 1);
    }
  }

  /**
    Pagination without writes: for any page sizes, the concatenated pages of a completed walk are the
    whole filtered listing in descending (createdAt, id) order, exactly when no cursor of time zero was used.
   */
  lemma StaticWalk(filter: Query, walk: seq<Visit>)
    requires IsWalk(filter, walk) && Completed(walk) && NoWrites(walk)
    ensures Returned(walk) == Listed(walk[0].store, filter, START) <==> NoZeroCursor(walk)
  {
    if NoZeroCursor(walk) {
      PagesSpellListing(filter, walk, 0);
    } else {
      CompletedWalk(filter, walk);
      var listed := Listed(walk[0].store, filter, START);
      PageIsTop(filter, walk, 0);
      ListedIsChain(walk[0].store, filter, START);
      forall i, j | 0 <= i < j < |listed| ensures listed[i].submissionId != listed[j].submissionId {
        assert listed[i] in Elements(listed) && listed[j] in Elements(listed);
        assert Before(listed[i], listed[j]);
        BeforeTotal(listed[i], listed[j]);
      }
      assert DistinctIds(listed);
    }
  }

  /** Each page uses up the listing, so without writes a walk has at most as many pages as matching submissions, or one. */
  lemma {:induction false} WalkTerminates(filter: Query, walk: seq<Visit>, i: nat)
    requires IsWalk(filter, walk) && NoWrites(walk) && NoZeroCursor(walk) && i < |walk|
    ensures i + |Candidates(walk[i].store, filter, Bound(walk, i))| <= |Candidates(walk[0].store, filter, START)|
    ensures i > 0 ==>
              |Candidates(walk[i].store, filter, Bound(walk, i))| < |Candidates(walk[i - 1].store, filter, Bound(walk, i - 1))|
  {
    if i > 0 {
      WalkTerminates(filter, walk, i - 1);
      RemainingFalls(filter, walk, i - 1);
    }
  }

  lemma RemainingFalls(filter: Query, walk: seq<Visit>, i: nat)
    requires IsWalk(filter, walk) && NoWrites(walk) && NoZeroCursor(walk) && i + 1 < |walk|
    ensures |Candidates(walk[i + 1].store, filter, Bound(walk, i + 1))| < |Candidates(walk[i].store, filter, Bound(walk, i))|
  {
    PageThenRest(filter, walk, i);
    assert Link(walk, i) && Link(walk, i + 1);
    ListedIsChain(walk[i].store, filter, Bound(walk, i));
    ListedIsChain(walk[i + 1].store, filter, Bound(walk, i + 1));
  }

  /** With a zero time at the end of a full first page, the next request returns the first page again: the walk never ends. */
  lemma ZeroTimeLoops(store: Store, filter: Query, size: Int32)
    requires WellKeyed(store)
    requires |Listed(store, filter, START)| > NormalizePageSize(size)
    requires Listed(store, filter, START)[NormalizePageSize(size) - 1].createdAt == 0
    ensures var first := List(store, filter.(cursor := "", pageSize := size));
            && first.Ok? && first.value.nextCursor != ""
            && List(store, filter.(cursor := first.value.nextCursor, pageSize := size)) == first
  {
    hide Cursor.Decode, Cursor.Encode;
    var n := NormalizePageSize(size);
    var last := Listed(store, filter, START)[n - 1];
    var next := Cursor.Encode(CursorOf(last));
    Cursor.EmptyMeansStart();
    Cursor.RoundTrip(CursorOf(last));
    ListedIgnoresPaging(store, filter, "", size, START);
    ListedIgnoresPaging(store, filter, next, size, CursorOf(last));
    assert Candidates(store, filter, CursorOf(last)) == Candidates(store, filter, START);
  }

  /** Such a store: two submissions created at time zero, listed one at a time. */
  lemma ZeroTimeHappens() returns (store: Store, filter: Query)
    ensures WellKeyed(store)
    ensures |Listed(store, filter, START)| > NormalizePageSize(1)
    ensures Listed(store, filter, START)[0].createdAt == 0
  {
    var a := Submission("a", "u", "p", "", "go", Queued, 0, 0);
    var b := Submission("b", "u", "p", "", "go", Queued, 0, 0);
    store := map["a" := a, "b" := b];
    filter := Query("", 1, "", "", "");
    TwoAtZero(store, filter, a, b);
  }

  lemma TwoAtZero(store: Store, filter: Query, a: Submission, b: Submission)
    requires store == map[a.submissionId := a, b.submissionId := b] && a.submissionId != b.submissionId
    requires Matches(filter, a) && Matches(filter, b) && a.createdAt == b.createdAt == 0
    ensures WellKeyed(store) && |Listed(store, filter, START)| == 2 && Listed(store, filter, START)[0].createdAt == 0
  {
    hide Listed, Matches;
    ListedIsChain(store, filter, START);
    var all := Candidates(store, filter, START);
    assert store[a.submissionId] in all && store[b.submissionId] in all;
    assert all == {a, b};
    assert Listed(store, filter, START)[0] in Elements(Listed(store, filter, START));
  }
}
