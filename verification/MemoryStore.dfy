/** The in-memory submission repository. */
module MemoryStore {
  import opened Basics
  import opened Ordering
  import opened Submissions
  import opened Listing
  import Cursor

  datatype RepositoryError = NotFound

  /** A submission as an object: stored ones are updated in place. */
  class SubmissionRecord {
    var submissionId: string
    var actorId: string
    var problemId: string
    var contestId: string
    var languageId: string
    var status: Status
    var score: int
    var createdAt: Int64

    constructor (s: Submission)
      ensures Value() == s
    {
      submissionId, actorId, problemId, contestId := s.submissionId, s.actorId, s.problemId, s.contestId;
      languageId, status, score, createdAt := s.languageId, s.status, s.score, s.createdAt;
    }

    function Value(): Submission
      reads this
    {
      Submission(submissionId, actorId, problemId, contestId, languageId, status, score, createdAt)
    }
  }

  /** The change `UpdateStatus` makes: acceptance also gives full score, and nothing takes it away. */
  function WithStatus(s: Submission, status: Status): Submission {
    s.(status := status, score := if status == Accepted then 100 else s.score)
  }

  lemma StaysWellKeyed(store: Store, id: string, status: Status)
    requires WellKeyed(store) && id in store
    ensures WellKeyed(store[id := WithStatus(store[id], status)])
  {
  }

  class MemoryRepository {
    var submissions: map<string, SubmissionRecord>

    constructor ()
      ensures Valid() && Stored() == map[]
    {
      submissions := map[];
    }

    ghost function Stored(): Store
      reads this, submissions.Values
    {
      map id | id in submissions :: submissions[id].Value()
    }

    /** Every record is filed under its own id, so no two ids share a record. */
    ghost predicate Valid()
      reads this, submissions.Values
    {
      WellKeyed(Stored())
    }

    /** Stores a copy: the caller keeps the record it passed in. */
    method Save(submission: SubmissionRecord)
      requires Valid()
      modifies this
      ensures Valid()
      ensures Stored() == old(Stored())[submission.submissionId := submission.Value()]
      ensures submission.submissionId in submissions && fresh(submissions[submission.submissionId])
    {
      ghost var before := Stored();
      var copy := new SubmissionRecord(submission.Value());
      submissions := submissions[submission.submissionId := copy];
      assert Stored() == before[submission.submissionId := submission.Value()];
    }

    /** Hands out a copy: changing it does not change what is stored. */
    method Get(id: string) returns (r: Result<SubmissionRecord, RepositoryError>)
      requires Valid()
      ensures r.Ok? <==> id in Stored()
      ensures r.Ok? ==> fresh(r.value) && r.value.Value() == Stored()[id]
    {
      if id !in submissions {
        return Err(NotFound);
      }
      var copy := new SubmissionRecord(submissions[id].Value());
      r := Ok(copy);
    }

    /** Updates the stored record in place and hands out a copy of it. */
    method UpdateStatus(id: string, status: Status) returns (r: Result<SubmissionRecord, RepositoryError>)
      requires Valid()
      modifies if id in submissions then {submissions[id]} else {}
      ensures Valid() && submissions == old(submissions)
      ensures r.Ok? <==> id in old(Stored())
      ensures r.Err? ==> Stored() == old(Stored())
      ensures r.Ok? ==> Stored() == old(Stored())[id := WithStatus(old(Stored())[id], status)]
      ensures r.Ok? ==> fresh(r.value) && r.value.Value() == Stored()[id]
    {
      if id !in submissions {
        return Err(NotFound);
      }
      ghost var before := Stored();
      var submission := submissions[id];
      submission.status := status;
      if status == Accepted {
        submission.score := 100;
      }
      forall other | other in submissions && other != id ensures submissions[other].Value() == before[other] {
        assert before[other].submissionId != before[id].submissionId;
      }
      assert Stored() == before[id := WithStatus(before[id], status)];
      StaysWellKeyed(before, id, status);
      ghost var after := Stored();
      var copy := new SubmissionRecord(submission.Value());
      assert Stored() == after;
      r := Ok(copy);
    }

    /** Collects copies in the map's own arbitrary order, sorts them, and cuts off a page. */
    method ListSubmissions(q: Query) returns (r: Result<Page, Cursor.DecodeError>)
      requires Valid()
      ensures r == List(Stored(), q)
      ensures r.Ok? <==> Cursor.Decode(q.cursor).Ok?
      ensures r.Ok? ==> IsPage(Stored(), q, Cursor.Decode(q.cursor).value, r.value)
    {
      hide IsPage, Matches, AfterCursor, Before, Listed, Cursor.Decode, Cursor.Encode;
      var decoded := Cursor.Decode(q.cursor);
      if decoded.Err? {
        return Err(decoded.error);
      }
      var cursor := decoded.value;
      ghost var store := Stored();
      ListIsPage(store, q);
      var candidates: seq<Submission> := [];
      var rest := submissions.Keys;
      while rest != {}
        invariant rest <= submissions.Keys
        invariant forall s | s in candidates :: s.submissionId in submissions.Keys - rest
        invariant forall i, j | 0 <= i < j < |candidates| :: candidates[i] != candidates[j]
        invariant Elements(candidates)
               == set id | id in store && id !in rest && Matches(q, store[id]) && AfterCursor(store[id], cursor) :: store[id]
        decreases rest
      {
        var id :| id in rest;
        var submission := submissions[id].Value();
        assert submission == store[id];
        ghost var previous := candidates;
        if Matches(q, submission) && AfterCursor(submission, cursor) {
          candidates := candidates + [submission];
          assert Elements(candidates) == Elements(previous) + {submission};
        }
        rest := rest - {id};
      }
      assert Elements(candidates) == Candidates(store, q, cursor);
      SortedCandidates(store, q, cursor, candidates);
      candidates := Sort(Before, candidates);
      var limit := NormalizePageSize(q.pageSize);
      if |candidates| <= limit {
        return Ok(Page(candidates, ""));
      }
      var page := candidates[..limit];
      r := Ok(Page(page, Cursor.Encode(CursorOf(page[|page| - 1]))));
    }
  }
}
