/** When a walk through a listing comes to its end. */
module WalkTermination {
  import opened Basics
  import opened Ordering
  import opened Submissions
  import opened Listing
  import opened Pagination
  import Cursor

  // ---------- nobody writes ----------

  /** A client that keeps asking with one page size while nothing is written. */
  ghost predicate SteadyWalk(store: Store, filter: Query, size: Int32, walk: seq<Visit>) {
    IsWalk(filter, walk) && forall i | 0 <= i < |walk| :: walk[i].store == store && walk[i].size == size
  }

  ghost function FullListing(store: Store, filter: Query): seq<Submission> {
    Listed(store, filter, START)
  }

  /** The item before the k-th page boundary does not have time zero, if anything comes after it. */
  ghost predicate GoodBoundary(listed: seq<Submission>, n: nat, k: nat) {
    1 <= k * n < |listed| ==> listed[k * n - 1].createdAt != 0
  }

  ghost predicate NoZeroBoundary(listed: seq<Submission>, n: nat) {
    forall k: nat | k >= 1 :: GoodBoundary(listed, n, k)
  }

  lemma NextMultiple(k: nat, n: nat)
    requires n >= 1
    ensures (k + 1) * n == k * n + n && k * n >= k
  {
  }

  lemma FewerMultiples(k: nat, m: nat, n: nat)
    requires k * n < m * n
    ensures k < m
  {
    MoreMultiples(m, k, n);
  }

  lemma MoreMultiples(k: nat, m: nat, n: nat)
    ensures k <= m ==> k * n <= m * n
  {
    if k <= m {
      assert m * n == k * n + (m - k) * n;
    }
  }

  lemma DropTwice<T>(xs: seq<T>, p: nat, n: nat)
    requires p + n <= |xs|
    ensures xs[p..][n..] == xs[p + n..]
    ensures n >= 1 ==> xs[p..][..n][n - 1] == xs[p + n - 1]
  {
  }

  /** From a page that starts at position `p` of the listing to the next. */
  lemma NextPosition(store: Store, filter: Query, c: Cursor.SubmissionCursor, page: Page, p: nat, n: nat)
    requires WellKeyed(store) && n >= 1 && p <= |FullListing(store, filter)|
    requires Listed(store, filter, c) == FullListing(store, filter)[p..]
    requires TopOf(page, FullListing(store, filter)[p..], n) && page.nextCursor != ""
    ensures var listed := FullListing(store, filter);
            && p + n < |listed| && |page.submissions| == n && page.submissions[n - 1] == listed[p + n - 1]
            && (listed[p + n - 1].createdAt != 0 ==> Listed(store, filter, CursorOf(listed[p + n - 1])) == listed[p + n..])
  {
    DropTwice(FullListing(store, filter), p, n);
    RestIsBelow(store, filter, c, n);
  }

  /** Page `i` starts at the i-th boundary of the listing as long as no zero time has been met. */
  ghost predicate StartsAt(store: Store, filter: Query, walk: seq<Visit>, i: nat, p: nat)
    requires i < |walk|
  {
    var listed := FullListing(store, filter);
    && p <= |listed| && Listed(store, filter, Bound(walk, i)) == listed[p..]
    && (i > 0 ==> 1 <= p < |listed| && Bound(walk, i) == CursorOf(listed[p - 1]) && listed[p - 1].createdAt != 0)
  }

  lemma FirstPage(store: Store, filter: Query, walk: seq<Visit>)
    requires walk != []
    ensures StartsAt(store, filter, walk, 0, 0)
  {
    assert FullListing(store, filter)[0..] == FullListing(store, filter);
  }

  lemma {:induction false} PageAt(store: Store, filter: Query, size: Int32, walk: seq<Visit>, i: nat)
    requires SteadyWalk(store, filter, size, walk) && WellKeyed(store) && i < |walk|
    requires NoZeroBoundary(FullListing(store, filter), NormalizePageSize(size)) || NoZeroCursor(walk)
    ensures StartsAt(store, filter, walk, i, i * NormalizePageSize(size))
  {
    hide Answered, List, Listed, TopOf, Bound, Matches, AfterCursor, SamePlace, FullListing;
    if i == 0 {
      FirstPage(store, filter, walk);
    } else {
      var n: nat := NormalizePageSize(size);
      var p := (i - 1) * n;
      PageAt(store, filter, size, walk, i - 1);
      NextMultiple(i - 1, n);
      assert i * n == p + n;
      NextPage(store, filter, size, walk, i - 1, p);
      if NoZeroBoundary(FullListing(store, filter), n) {
        assert GoodBoundary(FullListing(store, filter), n, i);
      }
      assert StartsAt(store, filter, walk, i, p + n);
    }
  }

  lemma NextPage(store: Store, filter: Query, size: Int32, walk: seq<Visit>, i: nat, p: nat)
    requires SteadyWalk(store, filter, size, walk) && WellKeyed(store) && i + 1 < |walk|
    requires StartsAt(store, filter, walk, i, p)
    ensures var n, listed := NormalizePageSize(size), FullListing(store, filter);
            && p + n < |listed| && Bound(walk, i + 1) == CursorOf(listed[p + n - 1])
            && (listed[p + n - 1].createdAt != 0 ==> StartsAt(store, filter, walk, i + 1, p + n))
  {
    hide Answered, List, Listed, TopOf, Bound, Matches, AfterCursor, SamePlace, FullListing;
    PageIsTop(filter, walk, i);
    assert walk[i].page.nextCursor != "";
    var last := LastItem(filter, walk, i);
    NextPosition(store, filter, Bound(walk, i), walk[i].page, p, NormalizePageSize(size));
    assert last == FullListing(store, filter)[p + NormalizePageSize(size) - 1];
  }

  lemma FirstAnswer(store: Store, filter: Query, size: Int32)
    ensures List(store, filter.(cursor := "", pageSize := size)).Ok?
  {
    hide Cursor.Decode, Listed;
    Cursor.EmptyMeansStart();
  }

  lemma Begin(store: Store, filter: Query, size: Int32) returns (walk: seq<Visit>)
    requires WellKeyed(store)
    ensures SteadyWalk(store, filter, size, walk) && |walk| == 1
  {
    hide List;
    FirstAnswer(store, filter, size);
    walk := [Visit(store, size, List(store, filter.(cursor := "", pageSize := size)).value)];
    assert Link(walk, 0) && Answered(filter, walk, 0);
  }

  /** A next cursor is always accepted. */
  lemma NextAnswer(store: Store, filter: Query, size: Int32, walk: seq<Visit>) returns (next: Visit)
    requires SteadyWalk(store, filter, size, walk) && !Completed(walk)
    ensures next.store == store && next.size == size
    ensures List(store, filter.(cursor := walk[|walk| - 1].page.nextCursor, pageSize := size)) == Ok(next.page)
  {
    hide Cursor.Decode;
    var i := |walk| - 1;
    CursorDecodes(filter, walk, i);
    assert Answered(filter, walk, i);
    AnswerIsTop(store, filter, RequestCursor(walk, i), size, Bound(walk, i), walk[i].page);
    next := Visit(store, size, List(store, filter.(cursor := walk[i].page.nextCursor, pageSize := size)).value);
  }

  /** A walk that has not come to its end can be continued. */
  lemma Continue(store: Store, filter: Query, size: Int32, walk: seq<Visit>) returns (longer: seq<Visit>)
    requires SteadyWalk(store, filter, size, walk) && !Completed(walk)
    ensures SteadyWalk(store, filter, size, longer) && |longer| == |walk| + 1 && walk < longer
  {
    hide List;
    var next := NextAnswer(store, filter, size, walk);
    longer := walk + [next];
    assert Link(walk, |walk| - 1);
    forall j | 0 <= j < |longer| ensures Link(longer, j) && Answered(filter, longer, j) {
      if j < |walk| {
        assert Link(walk, j) && Answered(filter, walk, j);
        assert longer[j] == walk[j] && RequestCursor(longer, j) == RequestCursor(walk, j);
      }
    }
  }

  // ---------- the pages after a zero cursor ----------

  lemma ZeroBoundsNothing(store: Store, filter: Query, c: Cursor.SubmissionCursor)
    requires c.createdAt == 0
    ensures Listed(store, filter, c) == Listed(store, filter, START)
  {
    assert Candidates(store, filter, c) == Candidates(store, filter, START);
  }

  lemma SameTop(a: Page, b: Page, listed: seq<Submission>, n: nat)
    requires TopOf(a, listed, n) && TopOf(b, listed, n)
    ensures a.submissions == b.submissions && (a.nextCursor == "" <==> b.nextCursor == "")
  {
  }

  /** After a request with a cursor of time zero the walk returns the same pages again from the first one on. */
  lemma {:induction false} PagesRepeat(store: Store, filter: Query, size: Int32, walk: seq<Visit>, i: nat, k: nat)
    requires SteadyWalk(store, filter, size, walk) && 1 <= i && i + k < |walk| && Bound(walk, i).createdAt == 0
    ensures Listed(store, filter, Bound(walk, i + k)) == Listed(store, filter, Bound(walk, k))
    ensures walk[i + k].page.submissions == walk[k].page.submissions
    ensures walk[i + k].page.nextCursor == "" <==> walk[k].page.nextCursor == ""
  {
    hide Answered, List, Listed;
    if k == 0 {
      ZeroBoundsNothing(store, filter, Bound(walk, i));
    } else {
      PagesRepeat(store, filter, size, walk, i, k - 1);
      var last := LastItem(filter, walk, i + k - 1);
      assert Bound(walk, i + k) == Bound(walk, k);
    }
    SamePages(store, filter, size, walk, i + k, k);
  }

  lemma SamePages(store: Store, filter: Query, size: Int32, walk: seq<Visit>, i: nat, k: nat)
    requires SteadyWalk(store, filter, size, walk) && i < |walk| && k < |walk|
    requires Listed(store, filter, Bound(walk, i)) == Listed(store, filter, Bound(walk, k))
    ensures walk[i].page.submissions == walk[k].page.submissions
    ensures walk[i].page.nextCursor == "" <==> walk[k].page.nextCursor == ""
  {
    PageIsTop(filter, walk, i);
    PageIsTop(filter, walk, k);
    SameTop(walk[i].page, walk[k].page, Listed(store, filter, Bound(walk, k)), NormalizePageSize(size));
  }

  /** So a walk with one page size that completes has used no such cursor, and has returned the whole listing in order. */
  lemma CompletedMeansListed(store: Store, filter: Query, size: Int32, walk: seq<Visit>)
    requires SteadyWalk(store, filter, size, walk) && Completed(walk)
    ensures NoZeroCursor(walk) && Returned(walk) == FullListing(store, filter)
  {
    if !NoZeroCursor(walk) {
      var i :| 1 <= i < |walk| && Bound(walk, i).createdAt == 0;
      ZeroCursorMeansMore(store, filter, size, walk, i);
      assert false;
    }
    StaticWalk(filter, walk);
  }

  lemma ZeroCursorMeansMore(store: Store, filter: Query, size: Int32, walk: seq<Visit>, i: nat)
    requires SteadyWalk(store, filter, size, walk) && 1 <= i < |walk| && Bound(walk, i).createdAt == 0
    ensures !Completed(walk)
  {
    PagesRepeat(store, filter, size, walk, i, |walk| - 1 - i);
    assert Link(walk, |walk| - 1 - i);
  }

  lemma CompletedMeansGoodBoundaries(store: Store, filter: Query, size: Int32, walk: seq<Visit>)
    requires SteadyWalk(store, filter, size, walk) && Completed(walk) && WellKeyed(store)
    ensures NoZeroBoundary(FullListing(store, filter), NormalizePageSize(size))
  {
    var n: nat, listed, last := NormalizePageSize(size), FullListing(store, filter), |walk| - 1;
    CompletedMeansListed(store, filter, size, walk);
    PageAt(store, filter, size, walk, last);
    PageIsTop(filter, walk, last);
    NextMultiple(last, n);
    forall k: nat | k >= 1 ensures GoodBoundary(listed, n, k) {
      if k * n < |listed| {
        FewerMultiples(k, last + 1, n);
        PageAt(store, filter, size, walk, k);
      }
    }
  }

  /** Without zero boundaries a walk has at most one page more than there are full pages, and can always be finished. */
  lemma {:induction false} Finish(store: Store, filter: Query, size: Int32, walk: seq<Visit>) returns (done: seq<Visit>)
    requires SteadyWalk(store, filter, size, walk) && WellKeyed(store)
    requires NoZeroBoundary(FullListing(store, filter), NormalizePageSize(size))
    ensures |walk| <= |FullListing(store, filter)| + 1
    ensures SteadyWalk(store, filter, size, done) && Completed(done) && walk <= done
    decreases |FullListing(store, filter)| + 1 - |walk|
  {
    PageAt(store, filter, size, walk, |walk| - 1);
    NextMultiple(|walk| - 1, NormalizePageSize(size));
    done := walk;
    if !Completed(walk) {
      var longer := Continue(store, filter, size, walk);
      PageAt(store, filter, size, longer, |walk|);
      NextMultiple(|walk|, NormalizePageSize(size));
      done := Finish(store, filter, size, longer);
    }
  }

  /**
    Termination without writes: a walk with a given page size comes to its end if and only if no item
    at a page boundary, with something after it, has time zero.
   */
  lemma WalkCompletesIff(store: Store, filter: Query, size: Int32)
    requires WellKeyed(store)
    ensures (exists walk :: SteadyWalk(store, filter, size, walk) && Completed(walk))
       <==> NoZeroBoundary(FullListing(store, filter), NormalizePageSize(size))
  {
    if NoZeroBoundary(FullListing(store, filter), NormalizePageSize(size)) {
      var walk := Begin(store, filter, size);
      var done := Finish(store, filter, size, walk);
    }
    if walk :| SteadyWalk(store, filter, size, walk) && Completed(walk) {
      CompletedMeansGoodBoundaries(store, filter, size, walk);
    }
  }

  /** Otherwise it goes on for ever: there is a walk of every length, and none of them is at its end. */
  lemma {:induction false} EndlessWalk(store: Store, filter: Query, size: Int32, length: nat) returns (walk: seq<Visit>)
    requires WellKeyed(store) && length >= 1
    requires !NoZeroBoundary(FullListing(store, filter), NormalizePageSize(size))
    ensures SteadyWalk(store, filter, size, walk) && |walk| == length && !Completed(walk)
  {
    if length == 1 {
      walk := Begin(store, filter, size);
    } else {
      var shorter := EndlessWalk(store, filter, size, length - 1);
      walk := Continue(store, filter, size, shorter);
    }
    WalkCompletesIff(store, filter, size);
  }

  // ---------- others write ----------

  /** The ids still to come below a bound. */
  ghost function Remaining(store: Store, q: Query, c: Cursor.SubmissionCursor): set<string> {
    set id | id in store && Matches(q, store[id]) && AfterCursor(store[id], c)
  }

  /** What is created between requests `i` and `i + 1` is not listed below the cursor of request `i + 1`. */
  ghost predicate NothingNewBelow(filter: Query, walk: seq<Visit>, i: nat)
    requires i + 1 < |walk|
  {
    forall id | id in walk[i + 1].store && id !in walk[i].store :: !AfterCursor(walk[i + 1].store[id], Bound(walk, i + 1))
  }

  lemma InterleavedFalls(filter: Query, walk: seq<Visit>, i: nat)
    requires IsWalk(filter, walk) && i + 1 < |walk| && Bound(walk, i + 1).createdAt != 0
    requires NothingNewBelow(filter, walk, i)
    ensures Remaining(walk[i + 1].store, filter, Bound(walk, i + 1)) < Remaining(walk[i].store, filter, Bound(walk, i))
  {
    var last := LastItem(filter, walk, i);
    assert Link(walk, i);
    forall id | id in Remaining(walk[i + 1].store, filter, Bound(walk, i + 1))
      ensures id in Remaining(walk[i].store, filter, Bound(walk, i))
    {
      var s := walk[i].store[id];
      BelowNonZero(last, s);
      StaysBelow(last, s, Bound(walk, i));
    }
    StringLessTotal(last.submissionId, last.submissionId);
    assert last.submissionId in Remaining(walk[i].store, filter, Bound(walk, i));
  }

  /**
    Termination under interleaving: while new submissions stay out of what the walk has still to return,
    whatever the page sizes, each request leaves less to come, so there are at most as many requests as
    ids at the start, and one more.
   */
  lemma {:induction false} InterleavedWalkTerminates(filter: Query, walk: seq<Visit>, i: nat)
    requires IsWalk(filter, walk) && NoZeroCursor(walk) && i < |walk|
    requires forall j | 0 <= j < |walk| - 1 :: NothingNewBelow(filter, walk, j)
    ensures i + |Remaining(walk[i].store, filter, Bound(walk, i))| <= |Remaining(walk[0].store, filter, START)|
  {
    if i > 0 {
      InterleavedWalkTerminates(filter, walk, i - 1);
      InterleavedFalls(filter, walk, i - 1);
      SmallerSet(Remaining(walk[i].store, filter, Bound(walk, i)), Remaining(walk[i - 1].store, filter, Bound(walk, i - 1)));
    }
  }

  lemma SmallerSet(a: set<string>, b: set<string>)
    requires a < b
    ensures |a| < |b|
  {
    assert a + (b - a) == b;
    assert |b| == |a| + |b - a|;
  }
}
