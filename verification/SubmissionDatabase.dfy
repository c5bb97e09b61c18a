/**
 * The submission services as they run: statements that update the tables in place, inside transactions
 * that undo them on failure. Every method is tied to the transaction function of `Lifecycle` it carries out.
 */
module SubmissionDatabase {
  import opened Common
  import opened SubmissionStatus
  import opened SubmissionTables
  import opened FiniteSets
  import opened Counters
  import opened ProblemTables
  import opened Lifecycle
  import opened LifecycleInvariant
  import opened Rejudge
  import opened LeaseOrder

  /** A whole transaction did what `expected` says: committed, or failed and left the tables as they were. */
  ghost predicate Commits<U>(r: Result<U>, expected: Result<Db>, before: Db, now: Db) {
    Performs(r, expected, now) && (r.Err? ==> now == before)
  }

  function LeasedId(r: Option<LeasedSubmission>): Option<SubmissionId> {
    if r.Some? then Some(r.value.id) else None
  }

  class Database {
    var users: map<UserId, Option<Time>>
    var problems: map<ProblemId, Problem>
    var statistics: StatisticsTable
    var summaries: Summaries
    var submissions: Submissions
    var history: Histories
    var queue: Queue
    var nextSubmissionId: SubmissionId
    var issuedTokens: set<Token>
    var clock: Time

    function View(): Db
      reads this
    {
      Db(users, problems, statistics, summaries, submissions, history, queue, nextSubmissionId, issuedTokens, clock)
    }

    constructor (start: Time)
      ensures View() == Empty(start)
      ensures Inv(View())
    {
      users, problems, statistics, summaries := map[], map[], map[], map[];
      submissions, history, queue := map[], map[], map[];
      nextSubmissionId, issuedTokens, clock := 1, {}, start;
      new;
      EmptyKeepsInv(start);
    }

    /** What the destructor of an uncommitted transaction does. */
    method Rollback(saved: Db)
      modifies this
      ensures View() == saved
    {
      users, problems, statistics, summaries := saved.users, saved.problems, saved.statistics, saved.summaries;
      submissions, history, queue := saved.submissions, saved.history, saved.queue;
      nextSubmissionId, issuedTokens, clock := saved.nextSubmissionId, saved.issuedTokens, saved.clock;
    }

    // ---- user_problem_summary_repository ----

    method IncreaseUserSubmissions(k: SummaryKey) returns (r: Result<()>)
      modifies `summaries
      ensures Performs(r, IncreaseSubmissionCount(old(summaries), k), summaries)
    {
      if !ValidKey(k) {
        return Err(InvalidReference);
      }
      if k in summaries {
        summaries := summaries[k := summaries[k].(submissions := summaries[k].submissions + 1)];
      } else {
        summaries := summaries[k := Summary(1, 0, 0)];
      }
      return Ok(());
    }

    method LeaveStatus(k: SummaryKey, from: Status) returns (r: Result<()>)
      requires ValidKey(k)
      modifies `summaries
      ensures Performs(r, LeaveClass(old(summaries), k, from), summaries)
    {
      if from.Accepted? {
        if k !in summaries || summaries[k].accepted <= 0 {
          return Err(Conflict);
        }
        summaries := summaries[k := summaries[k].(accepted := summaries[k].accepted - 1)];
      } else if IsFailed(from) {
        if k !in summaries || summaries[k].failed <= 0 {
          return Err(Conflict);
        }
        summaries := summaries[k := summaries[k].(failed := summaries[k].failed - 1)];
      }
      return Ok(());
    }

    method EnterStatus(k: SummaryKey, to: Status) returns (r: Result<()>)
      requires ValidKey(k)
      modifies `summaries
      ensures Performs(r, EnterClass(old(summaries), k, to), summaries)
    {
      if to.Accepted? || IsFailed(to) {
        if k !in summaries || summaries[k].accepted + summaries[k].failed >= summaries[k].submissions {
          return Err(Conflict);
        }
        var row := summaries[k];
        summaries := summaries[k :=
          if to.Accepted? then row.(accepted := row.accepted + 1) else row.(failed := row.failed + 1)];
      }
      return Ok(());
    }

    method ApplyStatusTransition(k: SummaryKey, from: Status, to: Status) returns (r: Result<()>)
      modifies `summaries
      ensures Performs(r, ApplyTransition(old(summaries), k, from, to), summaries)
    {
      if !ValidKey(k) {
        return Err(InvalidReference);
      }
      if from.Accepted? == to.Accepted? && IsFailed(from) == IsFailed(to) {
        return Ok(());
      }
      var _ :- LeaveStatus(k, from);
      r := EnterStatus(k, to);
    }

    // ---- problem_statistics_repository ----

    method IncreaseProblemSubmissions(p: ProblemId) returns (r: Result<()>)
      modifies `statistics
      ensures Performs(r, IncreaseSubmitted(old(statistics), p), statistics)
    {
      if p <= 0 {
        return Err(InvalidReference);
      }
      if p !in statistics {
        return Err(NotFound);
      }
      statistics := statistics[p := statistics[p].(submissionCount := statistics[p].submissionCount + 1)];
      return Ok(());
    }

    method IncreaseProblemAccepted(p: ProblemId) returns (r: Result<()>)
      modifies `statistics
      ensures Performs(r, IncreaseAcceptedCount(old(statistics), p), statistics)
    {
      if p <= 0 {
        return Err(InvalidReference);
      }
      if p !in statistics {
        return Err(NotFound);
      }
      if statistics[p].acceptedCount + 1 > statistics[p].submissionCount {
        return Err(ValidationError);
      }
      statistics := statistics[p := statistics[p].(acceptedCount := statistics[p].acceptedCount + 1)];
      return Ok(());
    }

    method DecreaseProblemAccepted(p: ProblemId) returns (r: Result<()>)
      modifies `statistics
      ensures Performs(r, DecreaseAcceptedCount(old(statistics), p), statistics)
    {
      if p <= 0 {
        return Err(InvalidReference);
      }
      if p !in statistics || statistics[p].acceptedCount <= 0 {
        return Err(Conflict);
      }
      statistics := statistics[p := statistics[p].(acceptedCount := statistics[p].acceptedCount - 1)];
      return Ok(());
    }

    // ---- submission_queue_repository ----

    method InsertSubmissionRow(c: CreateCommand) returns (r: Result<QueuedResponse>)
      modifies `submissions, `history, `nextSubmissionId
      ensures r.Ok? ==> InsertSubmission(old(View()), c) == Ok((View(), r.value))
      ensures r.Err? ==> InsertSubmission(old(View()), c) == Err(r.error)
    {
      if !ValidCommand(c) {
        return Err(InvalidInput);
      }
      if c.problemId !in problems {
        return Err(NotFound);
      }
      var id, version := nextSubmissionId, problems[c.problemId].version;
      nextSubmissionId := id + 1;
      submissions := submissions[id := Submission(
        c.userId, c.problemId, version, c.language, c.sourceCode, Queued, NO_RESULT)];
      history := Record(history, id, HistoryEntry(None, Queued, None));
      return Ok(QueuedResponse(id, Queued, version));
    }

    method EnqueueSubmission(id: SubmissionId, priority: int) returns (r: Result<()>)
      modifies `queue
      ensures Performs(r, Enqueue(old(View()), id, priority), View())
    {
      if id <= 0 {
        return Err(InvalidReference);
      }
      if id !in submissions {
        return Err(NotFound);
      }
      if id in queue {
        return Err(Conflict);
      }
      queue := queue[id := NewQueueRow(priority, clock)];
      return Ok(());
    }

    /** The candidate query: rows other transactions have locked are skipped, ties are broken arbitrarily. */
    method FindCandidate(locked: set<SubmissionId>) returns (choice: Option<SubmissionId>)
      ensures Candidate(View(), locked, choice)
    {
      var open := set id | id in queue && Eligible(View(), id) && id !in locked;
      if open == {} {
        forall id | Eligible(View(), id) ensures id in locked {
          assert id !in open;
        }
        return None;
      }
      LeaderExists(queue, open);
      assert exists id :: id in open && forall other | other in open :: Before(queue[id], queue[other]) by {
        var id :| id in open && Leads(queue, id, open);
        assert forall other | other in open :: Before(queue[id], queue[other]);
      }
      var id :| id in open && forall other | other in open :: Before(queue[id], queue[other]);
      return Some(id);
    }

    /** UPDATE of the candidate's row; attempt number and token fence off every earlier lease. */
    method UpdateLease(duration: Time, id: SubmissionId, token: Token) returns (leased: LeasedSubmission)
      requires duration > 0 && Eligible(View(), id)
      modifies `queue, `issuedTokens
      ensures leased.id == id
      ensures LeaseSubmission(old(View()), duration, Some(id), token) == Ok((View(), Some(leased)))
    {
      var row := queue[id].(
        leasedUntil := Some(clock + duration),
        attemptNo := queue[id].attemptNo + 1,
        leaseToken := Some(token));
      queue := queue[id := row];
      issuedTokens := issuedTokens + {token};
      return LeasedSubmission(
        id, submissions[id].problemId, submissions[id].problemVersion, submissions[id].language,
        submissions[id].sourceCode, row.attemptNo, token, clock + duration);
    }

    /** Leasing takes the best unlocked candidate, or returns nothing when there is none. */
    method Lease(duration: Time, locked: set<SubmissionId>, token: Token) returns (r: Result<Option<LeasedSubmission>>)
      requires token != ""
      modifies `queue, `issuedTokens
      ensures r.Ok? <==> duration > 0
      ensures r.Err? ==> r.error == InvalidInput && View() == old(View())
      ensures r.Ok? ==> Candidate(old(View()), locked, LeasedId(r.value))
      ensures r.Ok? ==> LeaseSubmission(old(View()), duration, LeasedId(r.value), token) == Ok((View(), r.value))
      ensures old(Inv(View())) ==> Inv(View())
    {
      if duration <= 0 {
        return Err(InvalidInput);
      }
      var choice := FindCandidate(locked);
      if Inv(View()) {
        LeaseKeepsInv(View(), duration, choice, token);
      }
      if choice.None? {
        return Ok(None);
      }
      var leased := UpdateLease(duration, choice.value, token);
      return Ok(Some(leased));
    }

    method ReleaseSubmissionLease(id: SubmissionId, attemptNo: int, token: Token) returns (r: Result<()>)
      modifies `queue
      ensures Performs(r, ReleaseLease(old(View()), id, attemptNo, token), View())
    {
      if !ValidLeaseReference(id, attemptNo, token) {
        return Err(InvalidReference);
      }
      if !LeaseHeld(queue, clock, id, attemptNo, token) {
        return Err(Conflict);
      }
      queue := queue[id := queue[id].(availableAt := clock, leasedUntil := None, leaseToken := None)];
      return Ok(());
    }

    // ---- submission_finalize_repository ----

    /** UPDATE of the status and INSERT of the history row, for a submission its callers have found and locked. */
    method PersistTransition(id: SubmissionId, from: Status, to: Status, reason: Option<string>)
      requires id in submissions && submissions[id].status == from
      modifies `submissions, `history
      ensures View() == WriteStatus(old(View()), id, old(submissions[id]).(status := to), reason)
    {
      submissions := submissions[id := submissions[id].(status := to)];
      history := Record(history, id, HistoryEntry(Some(from), to, reason));
    }

    method UpdateSubmissionStatus(id: SubmissionId, attemptNo: int, token: Token, to: Status, reason: Option<string>)
      returns (r: Result<()>)
      modifies `submissions, `history, `summaries
      ensures Performs(r, UpdateStatus(old(View()), id, attemptNo, token, to, reason), View())
    {
      var context :- LeasedContext(View(), id, attemptNo, token);
      PersistTransition(id, context.status, to, reason);
      r := ApplyStatusTransition(KeyOf(context), context.status, to);
    }

    /** Clears the result columns and records the way back to the queue. */
    method ResetSubmission(id: SubmissionId, from: Status)
      requires id in submissions && submissions[id].status == from
      modifies `submissions, `history
      ensures View() == WriteStatus(old(View()), id, Reset(old(submissions[id])), None)
    {
      submissions := submissions[id := submissions[id].(result := NO_RESULT)];
      PersistTransition(id, from, Queued, None);
    }

    method RejudgeStored(id: SubmissionId) returns (r: Result<QueuedResponse>)
      modifies `submissions, `history, `summaries, `statistics, `queue
      ensures Performs(r, RejudgeSubmission(old(View()), id), View())
      ensures r.Ok? ==> id in submissions && r.value == QueuedResponse(id, Queued, submissions[id].problemVersion)
    {
      if id <= 0 {
        return Err(InvalidReference);
      }
      if id !in submissions {
        return Err(NotFound);
      }
      var context := submissions[id];
      if context.status.Queued? || context.status.Judging? {
        return Err(Conflict);
      }
      if context.status.Accepted? {
        var _ :- DecreaseProblemAccepted(context.problemId);
      }
      ResetSubmission(id, context.status);
      var _ :- ApplyStatusTransition(KeyOf(context), context.status, Queued);
      var _ :- EnqueueSubmission(id, REJUDGE_PRIORITY);
      return Ok(QueuedResponse(id, Queued, context.problemVersion));
    }

    /** UPDATE of status and result, INSERT of the history row and DELETE of the queue row. */
    method StoreVerdict(request: FinalizeRequest, from: Status)
      requires request.id in submissions && submissions[request.id].status == from
      modifies `submissions, `history, `queue
      ensures View() == VerdictStored(old(View()), request)
    {
      submissions := submissions[request.id :=
        submissions[request.id].(status := request.to, result := request.result)];
      history := Record(history, request.id, HistoryEntry(Some(from), request.to, request.reason));
      queue := queue - {request.id};
    }

    /** The repository half of finalize; the accepted counter is left to the service. */
    method FinalizeStored(request: FinalizeRequest) returns (r: Result<FinalizeResult>)
      modifies `submissions, `history, `summaries, `queue
      ensures r.Ok? ==> FinalizeRows(old(View()), request) == Ok((View(), r.value))
      ensures r.Err? ==> FinalizeRows(old(View()), request) == Err(r.error)
    {
      var context :- LeasedContext(View(), request.id, request.attemptNo, request.token);
      var firstAccepted := request.to.Accepted? && !context.status.Accepted?;
      if !ResultInRange(request.result) {
        return Err(ValidationError);
      }
      StoreVerdict(request, context.status);
      var _ :- ApplyStatusTransition(KeyOf(context), context.status, request.to);
      return Ok(FinalizeResult(context.problemId, firstAccepted));
    }

    // ---- submission_command_service ----

    method CreateInTransaction(c: CreateCommand) returns (r: Result<QueuedResponse>)
      modifies this
      ensures r.Ok? ==> CreateSubmission(old(View()), c) == Ok((View(), r.value))
      ensures r.Err? ==> CreateSubmission(old(View()), c) == Err(r.error)
    {
      if c.userId <= 0 {
        return Err(InvalidReference);
      }
      if c.userId !in users {
        return Err(NotFound);
      }
      if Banned(View(), c.userId) {
        return Err(Forbidden);
      }
      var created :- InsertSubmissionRow(c);
      var _ :- IncreaseUserSubmissions((c.userId, c.problemId));
      var _ :- EnqueueSubmission(created.id, NORMAL_PRIORITY);
      var _ :- IncreaseProblemSubmissions(c.problemId);
      return Ok(created);
    }

    /** Submitting commits the new submission, or fails and changes nothing. */
    method Create(c: CreateCommand) returns (r: Result<QueuedResponse>)
      modifies this
      ensures r.Ok? ==> CreateSubmission(old(View()), c) == Ok((View(), r.value))
      ensures r.Err? ==> CreateSubmission(old(View()), c) == Err(r.error) && View() == old(View())
      ensures old(Inv(View())) ==> Inv(View())
    {
      var saved := View();
      r := CreateInTransaction(c);
      if r.Err? {
        Rollback(saved);
      } else if Inv(saved) {
        CreateKeepsInv(saved, c);
      }
    }

    /** Single rejudge: from a sound database it succeeds exactly on a decided submission. */
    method RejudgeSubmissionById(id: SubmissionId) returns (r: Result<QueuedResponse>)
      modifies this
      ensures Commits(r, RejudgeSubmission(old(View()), id), old(View()), View())
      ensures r.Ok? ==>
                && id in old(submissions)
                && r.value == QueuedResponse(id, Queued, old(submissions)[id].problemVersion)
      ensures old(Inv(View())) ==>
                && (r.Ok? <==> id in old(submissions) && IsTerminal(old(submissions)[id].status))
                && Inv(View())
    {
      var saved := View();
      r := RejudgeStored(id);
      if Inv(saved) {
        RejudgeOneExact(saved, id);
        if r.Ok? {
          RejudgeKeepsInv(saved, id);
        }
      }
      if r.Err? {
        Rollback(saved);
      }
    }

    method RejudgeProblemStored(p: ProblemId) returns (r: Result<()>)
      modifies `submissions, `history, `summaries, `statistics, `queue
      ensures Performs(r, RejudgeProblem(old(View()), p), View())
    {
      if p <= 0 {
        return Err(InvalidReference);
      }
      var ids := SortDescending(WrongOrAccepted(View(), p));
      for i := 0 to |ids|
        invariant RejudgeEach(View(), ids[i..]) == RejudgeEach(old(View()), ids)
      {
        assert ids[i..] != [] && ids[i..][0] == ids[i] && ids[i..][1..] == ids[i + 1..];
        var _ :- RejudgeStored(ids[i]);
      }
      return Ok(());
    }

    /** Problem rejudge is all or nothing, and from a sound database it always commits. */
    method RejudgeAllOf(p: ProblemId) returns (r: Result<()>)
      modifies this
      ensures Commits(r, RejudgeProblem(old(View()), p), old(View()), View())
      ensures old(Inv(View())) && p > 0 ==>
                && r.Ok?
                && RejudgedAll(old(View()), View(), WrongOrAccepted(old(View()), p))
      ensures old(Inv(View())) ==> Inv(View())
    {
      var saved := View();
      r := RejudgeProblemStored(p);
      if Inv(saved) && p > 0 {
        RejudgeProblemExact(saved, p);
      }
      if r.Err? {
        Rollback(saved);
      }
    }

    // ---- submission_judge_service ----

    method Mark(id: SubmissionId, attemptNo: int, token: Token) returns (r: Result<()>)
      modifies this
      ensures Commits(r, MarkJudging(old(View()), id, attemptNo, token), old(View()), View())
      ensures old(Inv(View())) ==> Inv(View()) && (r.Ok? <==> old(LeaseHeld(queue, clock, id, attemptNo, token)))
      ensures r.Ok? && id in old(history) ==>
                && id in old(submissions)
                && submissions == old(submissions)[id := old(submissions)[id].(status := Judging)]
                && history == old(history)[id := old(history)[id] +
                     [HistoryEntry(Some(old(submissions)[id].status), Judging, None)]]
    {
      var saved := View();
      if Inv(saved) && LeaseHeld(queue, clock, id, attemptNo, token) {
        UpdateStatusExact(saved, id, attemptNo, token, Judging, None);
      }
      r := UpdateSubmissionStatus(id, attemptNo, token, Judging, None);
      if r.Err? {
        Rollback(saved);
      } else if id in saved.history {
        MarkWrites(saved, id, attemptNo, token);
      }
    }

    method RequeueImmediately(id: SubmissionId, attemptNo: int, token: Token, reason: Option<string>)
      returns (r: Result<()>)
      modifies this
      ensures Commits(r, Requeue(old(View()), id, attemptNo, token, reason), old(View()), View())
      ensures old(Inv(View())) ==> Inv(View()) && (r.Ok? <==> old(LeaseHeld(queue, clock, id, attemptNo, token)))
      ensures r.Ok? && id in old(history) ==>
                && id in old(submissions)
                && submissions == old(submissions)[id := old(submissions)[id].(status := Queued)]
                && history == old(history)[id := old(history)[id] +
                     [HistoryEntry(Some(old(submissions)[id].status), Queued, reason)]]
    {
      var saved := View();
      if Inv(saved) && LeaseHeld(queue, clock, id, attemptNo, token) {
        RequeueExact(saved, id, attemptNo, token, reason);
      }
      r := UpdateSubmissionStatus(id, attemptNo, token, Queued, reason);
      if r.Ok? {
        r := ReleaseSubmissionLease(id, attemptNo, token);
      }
      if r.Err? {
        Rollback(saved);
      } else if id in saved.history {
        RequeueWrites(saved, id, attemptNo, token, reason);
      }
    }

    /** Finalizing keeps a sound database sound exactly when it fails or is given a verdict. */
    method FinalizeSubmission(request: FinalizeRequest) returns (r: Result<()>)
      modifies this
      ensures Commits(r, Finalize(old(View()), request), old(View()), View())
      ensures old(Inv(View())) ==>
                && (Inv(View()) <==> r.Err? || IsTerminal(request.to))
                && (r.Ok? <==> && old(LeaseHeld(queue, clock, request.id, request.attemptNo, request.token))
                               && ResultInRange(request.result))
      ensures r.Ok? && request.id in old(history) ==>
                && request.id in old(submissions)
                && submissions == old(submissions)[request.id :=
                     old(submissions)[request.id].(status := request.to, result := request.result)]
                && history == old(history)[request.id := old(history)[request.id] +
                     [HistoryEntry(Some(old(submissions)[request.id].status), request.to, request.reason)]]
    {
      var saved := View();
      if Inv(saved) && LeaseHeld(queue, clock, request.id, request.attemptNo, request.token)
        && ResultInRange(request.result) {
        FinalizeNeedsVerdict(saved, request);
      }
      var stored := FinalizeStored(request);
      if stored.Ok? && stored.value.firstAccepted {
        r := IncreaseProblemAccepted(stored.value.problemId);
      } else {
        r := if stored.Ok? then Ok(()) else Err(stored.error);
      }
      if r.Err? {
        Rollback(saved);
      } else if request.id in saved.history {
        FinalizeWrites(saved, request);
      }
    }
  }
}
