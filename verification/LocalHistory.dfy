/** The browser's own history of submissions: the sixty most recently remembered ones. */
module LocalHistory {
  import opened Basics
  import opened Ordering

  /** A stored submission response: its id and whatever other fields it has. */
  datatype Response = Response(submissionId: string, fields: map<string, string>)

  const LIMIT: nat := 60

  function Find(current: seq<Response>, id: string): Option<Response> {
    if current == [] then None
    else if current[0].submissionId == id then Some(current[0])
    else Find(current[1..], id)
  }

  function Without(current: seq<Response>, id: string): seq<Response> {
    if current == [] then []
    else (if current[0].submissionId != id then [current[0]] else []) + Without(current[1..], id)
  }

  /** `{...old, ...submission}`. */
  function Merge(known: Option<Response>, submission: Response): Response {
    match known
    case None => submission
    case Some(o) => Response(submission.submissionId, o.fields + submission.fields)
  }

  function Remembered(current: seq<Response>, submission: Response): seq<Response> {
    Take([Merge(Find(current, submission.submissionId), submission)] + Without(current, submission.submissionId), LIMIT)
  }

  /** The `localStorage` entry: nothing, text that is not a JSON array, or a list of responses. */
  datatype Item = Missing | Malformed | Stored(list: seq<Response>)

  class LocalStorage {
    var item: Item

    constructor ()
      ensures Contents() == []
    {
      item := Missing;
    }

    function Contents(): seq<Response>
      reads this
    {
      if item.Stored? then item.list else []
    }

    /** `readLocalSubmissions`: empty on the server and on anything unreadable. */
    method Read(inBrowser: bool) returns (r: seq<Response>)
      ensures r == if inBrowser then Contents() else []
    {
      if !inBrowser {
        return [];
      }
      match item {
        case Missing => r := [];
        case Malformed => r := [];
        case Stored(list) => r := list;
      }
    }

    method Remember(inBrowser: bool, submission: Response)
      modifies this
      ensures Contents() == if inBrowser then Remembered(old(Contents()), submission) else old(Contents())
    {
      if !inBrowser {
        return;
      }
      var current := Read(inBrowser);
      var merged := Merge(Find(current, submission.submissionId), submission);
      var next := [merged] + Without(current, submission.submissionId);
      item := Stored(if |next| > LIMIT then next[..LIMIT] else next);
    }
  }

  // ---------- what a sequence of calls leaves behind ----------

  function RememberAll(calls: seq<Response>): seq<Response> {
    if calls == [] then [] else Remembered(RememberAll(calls[..|calls| - 1]), calls[|calls| - 1])
  }

  function Ids(rs: seq<Response>): (ids: seq<string>)
    ensures |ids| == |rs|
    ensures forall i | 0 <= i < |rs| :: ids[i] == rs[i].submissionId
  {
    seq(|rs|, i requires 0 <= i < |rs| => rs[i].submissionId)
  }

  /** The position of the last call about an id, counted from one; zero if there is none. */
  function LastCall(calls: seq<Response>, id: string): (n: nat)
    ensures n <= |calls|
    ensures n > 0 ==> calls[n - 1].submissionId == id
    ensures forall i | n <= i < |calls| :: calls[i].submissionId != id
  {
    if calls == [] then 0
    else if calls[|calls| - 1].submissionId == id then |calls|
    else LastCall(calls[..|calls| - 1], id)
  }

  /** All ids ever remembered, each once, the most recently remembered first. */
  ghost predicate MostRecentFirst(ids: seq<string>, calls: seq<Response>) {
    && (forall id :: id in ids <==> LastCall(calls, id) > 0)
    && Ordered(calls, ids)
  }

  ghost predicate Ordered(calls: seq<Response>, ids: seq<string>) {
    forall i, j | 0 <= i < j < |ids| :: Later(calls, ids[i], ids[j])
  }

  /** `a` was remembered after `b`. */
  predicate Later(calls: seq<Response>, a: string, b: string) {
    LastCall(calls, a) > LastCall(calls, b)
  }

  function Drop(ids: seq<string>, id: string): seq<string> {
    if ids == [] then [] else (if ids[0] != id then [ids[0]] else []) + Drop(ids[1..], id)
  }

  /** The reference: move to the front, without any limit. */
  function AllIds(calls: seq<Response>): seq<string> {
    if calls == [] then []
    else
      var id := calls[|calls| - 1].submissionId;
      [id] + Drop(AllIds(calls[..|calls| - 1]), id)
  }

  lemma {:induction false} DropMembers(ids: seq<string>, id: string)
    ensures forall x :: x in Drop(ids, id) <==> x in ids && x != id
  {
    if ids != [] {
      DropMembers(ids[1..], id);
      assert ids == [ids[0]] + ids[1..];
    }
  }

  lemma LastCallStep(calls: seq<Response>, id: string)
    requires calls != []
    ensures var last := calls[|calls| - 1].submissionId;
            LastCall(calls, id) == if id == last then |calls| else LastCall(calls[..|calls| - 1], id)
  {
  }

  lemma OrderedPrepend(calls: seq<Response>, id: string, rest: seq<string>)
    requires Ordered(calls, rest) && forall k | 0 <= k < |rest| :: Later(calls, id, rest[k])
    ensures Ordered(calls, [id] + rest)
  {
    var all := [id] + rest;
    forall i, j | 0 <= i < j < |all| ensures Later(calls, all[i], all[j]) {
      assert all[j] == rest[j - 1] && (i > 0 ==> all[i] == rest[i - 1]);
    }
  }

  lemma {:induction false} DropKeepsOrder(ids: seq<string>, calls: seq<Response>, id: string)
    requires Ordered(calls, ids)
    ensures Ordered(calls, Drop(ids, id))
  {
    if ids != [] {
      var rest := Drop(ids[1..], id);
      DropKeepsOrder(ids[1..], calls, id);
      DropMembers(ids[1..], id);
      forall k | 0 <= k < |rest| ensures Later(calls, ids[0], rest[k]) {
        assert rest[k] in ids[1..];
      }
      OrderedPrepend(calls, ids[0], rest);
      assert [] + rest == rest;
    }
  }

  lemma {:induction false} AllIdsMembers(calls: seq<Response>, id: string)
    ensures id in AllIds(calls) <==> LastCall(calls, id) > 0
  {
    if calls != [] {
      var before := calls[..|calls| - 1];
      AllIdsMembers(before, id);
      DropMembers(AllIds(before), calls[|calls| - 1].submissionId);
    }
  }

  lemma {:induction false} AllIdsOrdered(calls: seq<Response>)
    ensures Ordered(calls, AllIds(calls))
  {
    if calls != [] {
      var before := calls[..|calls| - 1];
      var id := calls[|calls| - 1].submissionId;
      var rest := Drop(AllIds(before), id);
      AllIdsOrdered(before);
      DropKeepsOrder(AllIds(before), before, id);
      DropMembers(AllIds(before), id);
      forall k | 0 <= k < |rest| ensures LastCall(calls, rest[k]) == LastCall(before, rest[k]) <= |before| {
        assert rest[k] in rest;
        LastCallStep(calls, rest[k]);
      }
      forall i, j | 0 <= i < j < |rest| ensures Later(calls, rest[i], rest[j]) {
        assert Later(before, rest[i], rest[j]);
      }
      OrderedPrepend(calls, id, rest);
    }
  }

  /** The reference list is indeed every id, ordered by its most recent call. */
  lemma AllIdsMostRecentFirst(calls: seq<Response>)
    ensures MostRecentFirst(AllIds(calls), calls)
  {
    forall id ensures id in AllIds(calls) <==> LastCall(calls, id) > 0 {
      AllIdsMembers(calls, id);
    }
    AllIdsOrdered(calls);
  }

  ghost predicate Distinct(ids: seq<string>) {
    forall i, j | 0 <= i < j < |ids| :: ids[i] != ids[j]
  }

  lemma {:induction false} DropAbsent(ids: seq<string>, id: string)
    requires id !in ids
    ensures Drop(ids, id) == ids
  {
    if ids != [] {
      assert ids[0] in ids;
      DropAbsent(ids[1..], id);
      assert ids == [ids[0]] + ids[1..];
    }
  }

  /** Dropping an id from the first n + 1 leaves the same first n as dropping it from all. */
  lemma {:induction false} TakeDrop(ids: seq<string>, id: string, n: nat)
    requires Distinct(ids)
    ensures Take(Drop(Take(ids, n + 1), id), n) == Take(Drop(ids, id), n)
  {
    if |ids| > n + 1 {
      var front := ids[..n + 1];
      assert front[1..] == ids[1..][..n];
      if ids[0] == id {
        forall x | x in ids[1..] ensures x != id {
        }
        DropAbsent(ids[1..], id);
        DropAbsent(front[1..], id);
        assert Drop(front, id) == front[1..] && Drop(ids, id) == ids[1..];
      } else if n > 0 {
        TakeDrop(ids[1..], id, n - 1);
        TakeFront(ids[0], Drop(front[1..], id), n);
        TakeFront(ids[0], Drop(ids[1..], id), n);
      }
    }
  }

  lemma TakeFront(x: string, xs: seq<string>, n: nat)
    requires n > 0
    ensures Take([x] + xs, n) == [x] + Take(xs, n - 1)
  {
  }

  lemma {:induction false} IdsWithout(rs: seq<Response>, id: string)
    ensures Ids(Without(rs, id)) == Drop(Ids(rs), id)
  {
    if rs != [] {
      IdsWithout(rs[1..], id);
      assert Ids(rs)[1..] == Ids(rs[1..]);
      if rs[0].submissionId != id {
        assert Ids([rs[0]] + Without(rs[1..], id)) == [rs[0].submissionId] + Ids(Without(rs[1..], id));
      } else {
        assert [] + Without(rs[1..], id) == Without(rs[1..], id);
        assert [] + Drop(Ids(rs)[1..], id) == Drop(Ids(rs)[1..], id);
      }
    }
  }

  lemma IdsOfRemembered(current: seq<Response>, s: Response)
    ensures Ids(Remembered(current, s)) == Take([s.submissionId] + Drop(Ids(current), s.submissionId), LIMIT)
  {
    IdsWithout(current, s.submissionId);
    var merged := Merge(Find(current, s.submissionId), s);
    var next := [merged] + Without(current, s.submissionId);
    assert Ids(next) == [s.submissionId] + Ids(Without(current, s.submissionId));
    assert Ids(Take(next, LIMIT)) == Take(Ids(next), LIMIT);
  }

  /**
    After any sequence of calls from empty storage the stored ids are the first sixty of all ids ever
    remembered, ordered by most recent call, whatever was evicted in between.
   */
  lemma {:induction false} HistoryIsMostRecent(calls: seq<Response>)
    ensures Ids(RememberAll(calls)) == Take(AllIds(calls), 60)
    ensures MostRecentFirst(AllIds(calls), calls)
    ensures Distinct(Ids(RememberAll(calls)))
  {
    AllIdsMostRecentFirst(calls);
    if calls != [] {
      var before := calls[..|calls| - 1];
      var s := calls[|calls| - 1];
      HistoryIsMostRecent(before);
      IdsOfRemembered(RememberAll(before), s);
      AllIdsMostRecentFirst(before);
      TakeDrop(AllIds(before), s.submissionId, LIMIT - 1);
      TakeFront(s.submissionId, Drop(Take(AllIds(before), LIMIT), s.submissionId), LIMIT);
      TakeFront(s.submissionId, Drop(AllIds(before), s.submissionId), LIMIT);
    }
  }

  // ---------- the stored fields ----------

  ghost predicate Keeps(r: Response, call: Response) {
    forall key | key in call.fields :: key in r.fields && r.fields[key] == call.fields[key]
  }

  lemma {:induction false} WithoutKeeps(rs: seq<Response>, id: string)
    ensures forall r | r in Without(rs, id) :: r in rs && r.submissionId != id
  {
    if rs != [] {
      WithoutKeeps(rs[1..], id);
    }
  }

  /** Every stored response shows every field of the most recent call about it. */
  lemma {:induction false} LatestFieldsWin(calls: seq<Response>, r: Response)
    requires r in RememberAll(calls)
    ensures var n := LastCall(calls, r.submissionId);
            n > 0 && Keeps(r, calls[n - 1])
  {
    var before := calls[..|calls| - 1];
    var s := calls[|calls| - 1];
    var current := RememberAll(before);
    LastCallStep(calls, r.submissionId);
    WithoutKeeps(current, s.submissionId);
    var next := [Merge(Find(current, s.submissionId), s)] + Without(current, s.submissionId);
    assert r in next;
    if r != next[0] {
      assert r in Without(current, s.submissionId);
      LatestFieldsWin(before, r);
    }
  }

  lemma {:induction false} FindFirst(current: seq<Response>, k: nat)
    requires k < |current| && forall j | 0 <= j < k :: current[j].submissionId != current[k].submissionId
    ensures Find(current, current[k].submissionId) == Some(current[k])
  {
    if k > 0 {
      FindFirst(current[1..], k - 1);
    }
  }

  lemma {:induction false} FindNothing(current: seq<Response>, id: string)
    requires forall j | 0 <= j < |current| :: current[j].submissionId != id
    ensures Find(current, id) == None
  {
    if current != [] {
      FindNothing(current[1..], id);
    }
  }

  /**
    Right after a call the response in front has every field of the call, keeps those fields of the stored
    response that the call does not bring, and has no others.
   */
  lemma OlderFieldsSurvive(current: seq<Response>, s: Response, k: nat)
    requires k < |current| && current[k].submissionId == s.submissionId
    requires forall j | 0 <= j < k :: current[j].submissionId != s.submissionId
    ensures var next := Remembered(current, s);
            && next != [] && next[0].submissionId == s.submissionId
            && (forall key :: key in next[0].fields <==> key in s.fields || key in current[k].fields)
            && (forall key | key in s.fields :: next[0].fields[key] == s.fields[key])
            && (forall key | key in current[k].fields && key !in s.fields :: next[0].fields[key] == current[k].fields[key])
  {
    FindFirst(current, k);
  }

  /** A response that was not stored is put in front as it is. */
  lemma NewResponseIsStored(current: seq<Response>, s: Response)
    requires forall j | 0 <= j < |current| :: current[j].submissionId != s.submissionId
    ensures Remembered(current, s) != [] && Remembered(current, s)[0] == s
  {
    FindNothing(current, s.submissionId);
  }

  lemma {:induction false} WithoutIsRest(rs: seq<Response>, id: string, x: Response)
    ensures multiset(Without(rs, id))[x] == if x.submissionId == id then 0 else multiset(rs)[x]
  {
    if rs != [] {
      WithoutIsRest(rs[1..], id, x);
      assert rs == [rs[0]] + rs[1..];
    }
  }

  /** Below the limit a call changes no other response. */
  lemma OthersStay(current: seq<Response>, s: Response, r: Response)
    requires |current| < 60 && r.submissionId != s.submissionId
    ensures r in Remembered(current, s) <==> r in current
  {
    WithoutIsRest(current, s.submissionId, r);
    WithoutShorter(current, s.submissionId);
    var merged := Merge(Find(current, s.submissionId), s);
    assert Remembered(current, s) == [merged] + Without(current, s.submissionId);
    assert r in current <==> r in multiset(current);
    assert r in Without(current, s.submissionId) <==> r in multiset(Without(current, s.submissionId));
  }

  lemma {:induction false} WithoutShorter(rs: seq<Response>, id: string)
    ensures |Without(rs, id)| <= |rs|
  {
    if rs != [] {
      WithoutShorter(rs[1..], id);
    }
  }
}
