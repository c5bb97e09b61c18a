/**
 * The denormalised counters: `user_problem_attempt_summary` and `problem_statistics`.
 * Every update carries the guard of its UPDATE statement; a guard that matches no row is a conflict.
 */
module Counters {
  import opened Common
  import opened SubmissionStatus
  import opened SubmissionTables
  import opened Recount

  type SummaryKey = (UserId, ProblemId)

  datatype Summary = Summary(submissions: int, accepted: int, failed: int)
  datatype Statistics = Statistics(submissionCount: int, acceptedCount: int)

  type Summaries = map<SummaryKey, Summary>
  type StatisticsTable = map<ProblemId, Statistics>

  predicate ValidKey(k: SummaryKey) {
    k.0 > 0 && k.1 > 0
  }

  // ---- user_problem_attempt_summary ----

  function IncreaseSubmissionCount(t: Summaries, k: SummaryKey): Result<Summaries> {
    if !ValidKey(k) then Err(InvalidReference)
    else if k in t then Ok(t[k := t[k].(submissions := t[k].submissions + 1)])
    else Ok(t[k := Summary(1, 0, 0)])
  }

  function IncreaseAccepted(t: Summaries, k: SummaryKey): Result<Summaries> {
    if !ValidKey(k) then Err(InvalidReference)
    else if k in t && t[k].accepted + t[k].failed < t[k].submissions then
      Ok(t[k := t[k].(accepted := t[k].accepted + 1)])
    else Err(Conflict)
  }

  function DecreaseAccepted(t: Summaries, k: SummaryKey): Result<Summaries> {
    if !ValidKey(k) then Err(InvalidReference)
    else if k in t && t[k].accepted > 0 then Ok(t[k := t[k].(accepted := t[k].accepted - 1)])
    else Err(Conflict)
  }

  function IncreaseFailed(t: Summaries, k: SummaryKey): Result<Summaries> {
    if !ValidKey(k) then Err(InvalidReference)
    else if k in t && t[k].accepted + t[k].failed < t[k].submissions then
      Ok(t[k := t[k].(failed := t[k].failed + 1)])
    else Err(Conflict)
  }

  function DecreaseFailed(t: Summaries, k: SummaryKey): Result<Summaries> {
    if !ValidKey(k) then Err(InvalidReference)
    else if k in t && t[k].failed > 0 then Ok(t[k := t[k].(failed := t[k].failed - 1)])
    else Err(Conflict)
  }

  /** Leaves the class of `from`: the decrease half of `apply_submission_status_transition`. */
  function LeaveClass(t: Summaries, k: SummaryKey, from: Status): Result<Summaries> {
    if from.Accepted? then DecreaseAccepted(t, k)
    else if IsFailed(from) then DecreaseFailed(t, k)
    else Ok(t)
  }

  /** Enters the class of `to`: the increase half of `apply_submission_status_transition`. */
  function EnterClass(t: Summaries, k: SummaryKey, to: Status): Result<Summaries> {
    if to.Accepted? then IncreaseAccepted(t, k)
    else if IsFailed(to) then IncreaseFailed(t, k)
    else Ok(t)
  }

  function ApplyTransition(t: Summaries, k: SummaryKey, from: Status, to: Status): Result<Summaries> {
    if !ValidKey(k) then Err(InvalidReference)
    else if from.Accepted? == to.Accepted? && IsFailed(from) == IsFailed(to) then Ok(t)
    else
      var left :- LeaveClass(t, k, from);
      EnterClass(left, k, to)
  }

  // ---- problem_statistics ----

  function IncreaseSubmitted(t: StatisticsTable, p: ProblemId): Result<StatisticsTable> {
    if p <= 0 then Err(InvalidReference)
    else if p in t then Ok(t[p := t[p].(submissionCount := t[p].submissionCount + 1)])
    else Err(NotFound)
  }

  /** The CHECK constraint keeps the accepted count within the submission count. */
  function IncreaseAcceptedCount(t: StatisticsTable, p: ProblemId): Result<StatisticsTable> {
    if p <= 0 then Err(InvalidReference)
    else if p !in t then Err(NotFound)
    else if t[p].acceptedCount + 1 > t[p].submissionCount then Err(ValidationError)
    else Ok(t[p := t[p].(acceptedCount := t[p].acceptedCount + 1)])
  }

  function DecreaseAcceptedCount(t: StatisticsTable, p: ProblemId): Result<StatisticsTable> {
    if p <= 0 then Err(InvalidReference)
    else if p in t && t[p].acceptedCount > 0 then Ok(t[p := t[p].(acceptedCount := t[p].acceptedCount - 1)])
    else Err(Conflict)
  }

  // ---- what the guards protect ----

  /** The CHECK constraint of a summary row. */
  predicate RowInCheck(row: Summary) {
    0 <= row.accepted && 0 <= row.failed && row.accepted + row.failed <= row.submissions
  }

  /** The row moved from one class to another, without any guard. */
  function MovedRow(row: Summary, from: Status, to: Status): Summary {
    Summary(
      row.submissions,
      row.accepted - (if from.Accepted? then 1 else 0) + (if to.Accepted? then 1 else 0),
      row.failed - (if IsFailed(from) then 1 else 0) + (if IsFailed(to) then 1 else 0))
  }

  /**
   * On any table, exact or not, whose rows satisfy their CHECK, a transition between different classes commits exactly
   * when the moved row satisfies it too, and is a conflict otherwise: the guards refuse no more and no less.
   */
  lemma GuardsAreTheCheck(t: Summaries, k: SummaryKey, from: Status, to: Status)
    requires ValidKey(k) && (k in t ==> RowInCheck(t[k]))
    requires from.Accepted? != to.Accepted? || IsFailed(from) != IsFailed(to)
    ensures ApplyTransition(t, k, from, to) ==
            if k in t && RowInCheck(MovedRow(t[k], from, to)) then Ok(t[k := MovedRow(t[k], from, to)])
            else Err(Conflict)
  {
    var left := LeaveClass(t, k, from);
    if k in t && left.Ok? {
      assert left.value[k := MovedRow(t[k], from, to)] == t[k := MovedRow(t[k], from, to)];
    }
  }

  /** The same for the accepted count of a problem, whose CHECK is 0 <= accepted <= submitted. */
  lemma CountGuardsAreTheCheck(t: StatisticsTable, p: ProblemId)
    requires p > 0 && p in t && 0 <= t[p].acceptedCount <= t[p].submissionCount
    ensures IncreaseAcceptedCount(t, p) ==
            if t[p].acceptedCount < t[p].submissionCount
            then Ok(t[p := Statistics(t[p].submissionCount, t[p].acceptedCount + 1)])
            else Err(ValidationError)
    ensures DecreaseAcceptedCount(t, p) ==
            if 0 < t[p].acceptedCount then Ok(t[p := Statistics(t[p].submissionCount, t[p].acceptedCount - 1)])
            else Err(Conflict)
  {
  }

  // ---- what the counters must say ----

  /** The summary row a fresh GROUP BY over `submissions` would produce. */
  function SummaryOf(subs: Submissions, k: SummaryKey): Summary {
    Summary(Count(subs, AttemptsOf(k.0, k.1)), Count(subs, AcceptedOf(k.0, k.1)), Count(subs, FailedOf(k.0, k.1)))
  }

  function StatisticsOf(subs: Submissions, p: ProblemId): Statistics {
    Statistics(Count(subs, SubmittedTo(p)), Count(subs, AcceptedFor(p)))
  }

  /** The row of a user and problem exists exactly for attempts, and is then their recount. */
  ghost predicate SummaryExact(t: Summaries, subs: Submissions, k: SummaryKey) {
    && (k in t <==> Count(subs, AttemptsOf(k.0, k.1)) > 0)
    && (k in t ==> t[k] == SummaryOf(subs, k))
  }

  /** The validation script's FULL OUTER JOIN reports no difference. */
  ghost predicate SummariesExact(t: Summaries, subs: Submissions) {
    forall k: SummaryKey :: SummaryExact(t, subs, k)
  }

  ghost predicate StatisticExact(t: StatisticsTable, subs: Submissions, p: ProblemId) {
    p in t ==> t[p] == StatisticsOf(subs, p)
  }

  ghost predicate StatisticsExact(t: StatisticsTable, subs: Submissions) {
    forall p :: StatisticExact(t, subs, p)
  }

  function KeyOf(s: Submission): SummaryKey {
    (s.userId, s.problemId)
  }

  // ---- insertion ----

  lemma InsertKeepsSummaries(t: Summaries, subs: Submissions, id: SubmissionId, s: Submission)
    requires SummariesExact(t, subs) && ValidKey(KeyOf(s))
    requires id !in subs && s.status.Queued?
    ensures IncreaseSubmissionCount(t, KeyOf(s)).Ok?
    ensures SummariesExact(IncreaseSubmissionCount(t, KeyOf(s)).value, subs[id := s])
  {
    var t', subs' := IncreaseSubmissionCount(t, KeyOf(s)).value, subs[id := s];
    forall k: SummaryKey ensures SummaryExact(t', subs', k) {
      assert SummaryExact(t, subs, k);
      CountAfterInsert(subs, id, s, AttemptsOf(k.0, k.1));
      CountAfterInsert(subs, id, s, AcceptedOf(k.0, k.1));
      CountAfterInsert(subs, id, s, FailedOf(k.0, k.1));
      RoomForVerdict(subs, k.0, k.1, {});
      assert k == KeyOf(s) <==> InBucket(AttemptsOf(k.0, k.1), s);
    }
  }

  lemma InsertKeepsStatistics(t: StatisticsTable, subs: Submissions, id: SubmissionId, s: Submission)
    requires StatisticsExact(t, subs)
    requires id !in subs && s.status.Queued? && s.problemId > 0 && s.problemId in t
    ensures IncreaseSubmitted(t, s.problemId).Ok?
    ensures StatisticsExact(IncreaseSubmitted(t, s.problemId).value, subs[id := s])
  {
    var t', subs' := IncreaseSubmitted(t, s.problemId).value, subs[id := s];
    forall p ensures StatisticExact(t', subs', p) {
      assert StatisticExact(t, subs, p);
      CountAfterInsert(subs, id, s, SubmittedTo(p));
      CountAfterInsert(subs, id, s, AcceptedFor(p));
    }
  }

  // ---- status changes ----

  ghost function Delta(b: Bucket, from: Submission, to: Submission): int {
    Weight(b, to) - Weight(b, from)
  }

  /** The row a status change must leave behind for the changed submission's own key. */
  lemma SummaryAfterUpdate(subs: Submissions, id: SubmissionId, s: Submission, k: SummaryKey)
    requires id in subs && KeyOf(s) == KeyOf(subs[id])
    ensures SummaryOf(subs[id := s], k) ==
            if k != KeyOf(s) then SummaryOf(subs, k)
            else Summary(
                   SummaryOf(subs, k).submissions,
                   SummaryOf(subs, k).accepted + Delta(AcceptedOf(k.0, k.1), subs[id], s),
                   SummaryOf(subs, k).failed + Delta(FailedOf(k.0, k.1), subs[id], s))
  {
    CountAfterUpdate(subs, id, s, AttemptsOf(k.0, k.1));
    CountAfterUpdate(subs, id, s, AcceptedOf(k.0, k.1));
    CountAfterUpdate(subs, id, s, FailedOf(k.0, k.1));
  }

  /**
   * From exact summaries, no guard of a status transition ever fires, whatever the two statuses are:
   * the submission's own row ends at its recount, and the summaries are exact again.
   */
  lemma TransitionKeepsSummaries(t: Summaries, subs: Submissions, id: SubmissionId, s: Submission)
    requires SummariesExact(t, subs) && id in subs
    requires KeyOf(s) == KeyOf(subs[id]) && ValidKey(KeyOf(s))
    ensures ApplyTransition(t, KeyOf(s), subs[id].status, s.status) ==
            Ok(t[KeyOf(s) := SummaryOf(subs[id := s], KeyOf(s))])
    ensures SummariesExact(ApplyTransition(t, KeyOf(s), subs[id].status, s.status).value, subs[id := s])
  {
    var k0, from, to := KeyOf(s), subs[id].status, s.status;
    OwnRow(t, subs, id);
    SummaryAfterUpdate(subs, id, s, k0);
    var r := ApplyTransition(t, k0, from, to);
    assert r.Ok? && r.value == t[k0 := SummaryOf(subs[id := s], k0)];
    var t', subs' := r.value, subs[id := s];
    forall k: SummaryKey ensures SummaryExact(t', subs', k) {
      assert SummaryExact(t, subs, k);
      SummaryAfterUpdate(subs, id, s, k);
      CountAfterUpdate(subs, id, s, AttemptsOf(k.0, k.1));
    }
  }

  /** A stored submission has a summary row, and that row has room exactly as its guards ask. */
  lemma OwnRow(t: Summaries, subs: Submissions, id: SubmissionId)
    requires SummariesExact(t, subs) && id in subs
    ensures KeyOf(subs[id]) in t
    ensures
      var row := t[KeyOf(subs[id])];
      && row == SummaryOf(subs, KeyOf(subs[id]))
      && (subs[id].status.Accepted? ==> row.accepted > 0)
      && (IsFailed(subs[id].status) ==> row.failed > 0)
      && row.accepted + row.failed <= row.submissions
      && (!subs[id].status.Accepted? && !IsFailed(subs[id].status) ==> row.accepted + row.failed < row.submissions)
  {
    var k := KeyOf(subs[id]);
    assert SummaryExact(t, subs, k);
    assert InBucket(AttemptsOf(k.0, k.1), subs[id]);
    PositiveCount(subs, AttemptsOf(k.0, k.1));
    PositiveCount(subs, AcceptedOf(k.0, k.1));
    PositiveCount(subs, FailedOf(k.0, k.1));
    if subs[id].status.Accepted? {
      assert InBucket(AcceptedOf(k.0, k.1), subs[id]);
    } else if IsFailed(subs[id].status) {
      assert InBucket(FailedOf(k.0, k.1), subs[id]);
    }
    if subs[id].status.Accepted? || IsFailed(subs[id].status) {
      RoomForVerdict(subs, k.0, k.1, {});
    } else {
      RoomForVerdict(subs, k.0, k.1, {id});
    }
  }

  /** The per-problem accepted count changes by exactly what a status change moves in or out of `Accepted`. */
  lemma StatisticsAfterUpdate(subs: Submissions, id: SubmissionId, s: Submission, p: ProblemId)
    requires id in subs && s.problemId == subs[id].problemId
    ensures StatisticsOf(subs[id := s], p) ==
            if p != s.problemId then StatisticsOf(subs, p)
            else Statistics(
                   StatisticsOf(subs, p).submissionCount,
                   StatisticsOf(subs, p).acceptedCount + Delta(AcceptedFor(p), subs[id], s))
  {
    CountAfterUpdate(subs, id, s, SubmittedTo(p));
    CountAfterUpdate(subs, id, s, AcceptedFor(p));
  }
}
