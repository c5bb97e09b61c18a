/** Recounting the `submissions` table: the reference the denormalised counters are compared with. */
module Recount {
  import opened SubmissionStatus
  import opened SubmissionTables
  import opened FiniteSets

  /** A group of submissions some counter column keeps the size of. */
  datatype Bucket =
    | AttemptsOf(u: UserId, p: ProblemId)
    | AcceptedOf(u: UserId, p: ProblemId)
    | FailedOf(u: UserId, p: ProblemId)
    | SubmittedTo(p: ProblemId)
    | AcceptedFor(p: ProblemId)

  predicate InBucket(b: Bucket, s: Submission) {
    match b
    case AttemptsOf(u, p) => s.userId == u && s.problemId == p
    case AcceptedOf(u, p) => s.userId == u && s.problemId == p && s.status.Accepted?
    case FailedOf(u, p) => s.userId == u && s.problemId == p && IsFailed(s.status)
    case SubmittedTo(p) => s.problemId == p
    case AcceptedFor(p) => s.problemId == p && s.status.Accepted?
  }

  function Members(subs: Submissions, b: Bucket): set<SubmissionId> {
    set id | id in subs && InBucket(b, subs[id])
  }

  function Count(subs: Submissions, b: Bucket): nat {
    |Members(subs, b)|
  }

  function Weight(b: Bucket, s: Submission): nat {
    if InBucket(b, s) then 1 else 0
  }

  lemma CountAfterInsert(subs: Submissions, id: SubmissionId, s: Submission, b: Bucket)
    requires id !in subs
    ensures Count(subs[id := s], b) == Count(subs, b) + Weight(b, s)
  {
    MembersAfterWrite(subs, id, s, b);
    assert id !in Members(subs, b);
    assert Members(subs, b) - {id} == Members(subs, b);
  }

  lemma CountAfterUpdate(subs: Submissions, id: SubmissionId, s: Submission, b: Bucket)
    requires id in subs
    ensures Count(subs[id := s], b) == Count(subs, b) - Weight(b, subs[id]) + Weight(b, s)
  {
    MembersAfterWrite(subs, id, s, b);
    MembersAfterWrite(subs, id, subs[id], b);
    assert subs[id := subs[id]] == subs;
  }

  /** Writing one row changes a group by that row alone. */
  lemma MembersAfterWrite(subs: Submissions, id: SubmissionId, s: Submission, b: Bucket)
    ensures |Members(subs[id := s], b)| == |Members(subs, b) - {id}| + Weight(b, s)
  {
    var now, others := Members(subs[id := s], b), Members(subs, b) - {id};
    forall x ensures x in now <==> x in others || (x == id && InBucket(b, s)) {
      assert x != id ==> (x in subs[id := s] <==> x in subs);
    }
    if InBucket(b, s) {
      assert now == others + {id};
    } else {
      assert now == others;
    }
  }

  /** The attempts behind the counters are the sets of submissions their columns are named after. */
  lemma AttemptsWrittenOut(subs: Submissions, u: UserId, p: ProblemId)
    ensures Members(subs, AttemptsOf(u, p)) == set id | id in subs && subs[id].userId == u && subs[id].problemId == p
    ensures Members(subs, AcceptedOf(u, p)) ==
            set id | id in subs && subs[id].userId == u && subs[id].problemId == p && subs[id].status == Accepted
    ensures Members(subs, FailedOf(u, p)) ==
            set id | id in subs && subs[id].userId == u && subs[id].problemId == p
                     && subs[id].status in {WrongAnswer, TimeLimitExceeded, MemoryLimitExceeded, RuntimeError,
                                            CompileError, BuildResourceExceeded, OutputExceeded}
  {
    var attempts := set id | id in subs && subs[id].userId == u && subs[id].problemId == p;
    forall id ensures id in Members(subs, AttemptsOf(u, p)) <==> id in attempts {}
    var accepted :=
      set id | id in subs && subs[id].userId == u && subs[id].problemId == p && subs[id].status == Accepted;
    forall id ensures id in Members(subs, AcceptedOf(u, p)) <==> id in accepted {}
    var failed :=
      set id | id in subs && subs[id].userId == u && subs[id].problemId == p
               && subs[id].status in {WrongAnswer, TimeLimitExceeded, MemoryLimitExceeded, RuntimeError,
                                      CompileError, BuildResourceExceeded, OutputExceeded};
    forall id ensures id in Members(subs, FailedOf(u, p)) <==> id in failed {}
  }

  lemma SubmittedWrittenOut(subs: Submissions, p: ProblemId)
    ensures Members(subs, SubmittedTo(p)) == set id | id in subs && subs[id].problemId == p
    ensures Members(subs, AcceptedFor(p)) ==
            set id | id in subs && subs[id].problemId == p && subs[id].status == Accepted
  {
    var submitted := set id | id in subs && subs[id].problemId == p;
    forall id ensures id in Members(subs, SubmittedTo(p)) <==> id in submitted {}
    var accepted := set id | id in subs && subs[id].problemId == p && subs[id].status == Accepted;
    forall id ensures id in Members(subs, AcceptedFor(p)) <==> id in accepted {}
  }

  /** `narrow` groups only submissions `wide` groups too. */
  ghost predicate Narrower(subs: Submissions, narrow: Bucket, wide: Bucket) {
    forall id | id in subs && InBucket(narrow, subs[id]) :: InBucket(wide, subs[id])
  }

  lemma NarrowerMembers(subs: Submissions, narrow: Bucket, wide: Bucket)
    requires Narrower(subs, narrow, wide)
    ensures Members(subs, narrow) <= Members(subs, wide)
  {
    forall id | id in Members(subs, narrow) ensures id in Members(subs, wide) {
      assert id in subs && InBucket(narrow, subs[id]);
    }
  }

  /** Accepted and failed attempts are disjoint groups of attempts; a submission that is neither leaves room. */
  lemma RoomForVerdict(subs: Submissions, u: UserId, p: ProblemId, pending: set<SubmissionId>)
    requires forall id | id in pending ::
               && id in subs && InBucket(AttemptsOf(u, p), subs[id])
               && !subs[id].status.Accepted? && !IsFailed(subs[id].status)
    ensures Count(subs, AcceptedOf(u, p)) + Count(subs, FailedOf(u, p)) + |pending|
         <= Count(subs, AttemptsOf(u, p))
  {
    var accepted, failed := Members(subs, AcceptedOf(u, p)), Members(subs, FailedOf(u, p));
    var attempts := Members(subs, AttemptsOf(u, p));
    NarrowerMembers(subs, AcceptedOf(u, p), AttemptsOf(u, p));
    NarrowerMembers(subs, FailedOf(u, p), AttemptsOf(u, p));
    forall id | id in accepted ensures id !in failed && id !in pending {
      assert InBucket(AcceptedOf(u, p), subs[id]);
    }
    forall id | id in failed ensures id !in pending {
      assert InBucket(FailedOf(u, p), subs[id]);
    }
    forall id | id in pending ensures id in attempts {
      assert InBucket(AttemptsOf(u, p), subs[id]);
    }
    UnionSize(accepted, failed);
    UnionSize(accepted + failed, pending);
    SubsetSize(accepted + failed + pending, attempts);
  }

  /** A submission that is not accepted leaves room for one more among the accepted ones of its problem. */
  lemma RoomForAccepted(subs: Submissions, id: SubmissionId)
    requires id in subs && !subs[id].status.Accepted?
    ensures Count(subs, AcceptedFor(subs[id].problemId)) < Count(subs, SubmittedTo(subs[id].problemId))
  {
    var p := subs[id].problemId;
    var accepted, submitted := Members(subs, AcceptedFor(p)), Members(subs, SubmittedTo(p));
    NarrowerMembers(subs, AcceptedFor(p), SubmittedTo(p));
    assert id !in accepted && id in submitted;
    UnionSize(accepted, {id});
    SubsetSize(accepted + {id}, submitted);
  }

  lemma AcceptedAreSubmitted(subs: Submissions, p: ProblemId)
    ensures Count(subs, AcceptedFor(p)) <= Count(subs, SubmittedTo(p))
  {
    NarrowerMembers(subs, AcceptedFor(p), SubmittedTo(p));
    SubsetSize(Members(subs, AcceptedFor(p)), Members(subs, SubmittedTo(p)));
  }

  lemma PositiveCount(subs: Submissions, b: Bucket)
    ensures Count(subs, b) > 0 <==> exists id :: id in subs && InBucket(b, subs[id])
  {
    var m := Members(subs, b);
    if m != {} {
      var id := Pick(m);
      assert id in subs && InBucket(b, subs[id]);
    } else {
      forall id | id in subs ensures !InBucket(b, subs[id]) {
        assert id !in m;
      }
    }
  }
}
