/**
 * The submission lifecycle: every service call as one transaction on the tables.
 * A transaction is a function of the tables, whose `clock` is what `NOW()` returns throughout it; `Err` rolls back.
 */
module Lifecycle {
  import opened Common
  import opened SubmissionStatus
  import opened SubmissionTables
  import opened Counters
  import opened FiniteSets
  import opened ProblemTables

  /** All tables, with the sequence behind `submission_id`, the lease tokens ever drawn and the clock. */
  datatype Db = Db(
    users: map<UserId, Option<Time>>,
    problems: map<ProblemId, Problem>,
    statistics: StatisticsTable,
    summaries: Summaries,
    submissions: Submissions,
    history: Histories,
    queue: Queue,
    nextSubmissionId: SubmissionId,
    issuedTokens: set<Token>,
    clock: Time)

  datatype CreateCommand = CreateCommand(userId: UserId, problemId: ProblemId, language: string, sourceCode: string)
  datatype QueuedResponse = QueuedResponse(id: SubmissionId, status: Status, problemVersion: int)
  datatype LeasedSubmission = LeasedSubmission(
    id: SubmissionId, problemId: ProblemId, problemVersion: int, language: string, sourceCode: string,
    attemptNo: int, token: Token, leasedUntil: Time)
  datatype FinalizeRequest = FinalizeRequest(
    id: SubmissionId, attemptNo: int, token: Token,
    to: Status, result: JudgeResult, reason: Option<string>)

  predicate ValidCommand(c: CreateCommand) {
    && c.userId > 0 && c.problemId > 0
    && c.sourceCode != "" && c.language in ["cpp", "python", "java"]
  }

  predicate Banned(db: Db, u: UserId)
    requires u in db.users
  {
    db.users[u].Some? && db.users[u].value > db.clock
  }

  function Empty(clock: Time): Db {
    Db(map[], map[], map[], map[], map[], map[], map[], 1, {}, clock)
  }

  /** A later transaction sees the same tables and a later clock. */
  function Tick(db: Db, now: Time): Db {
    db.(clock := now)
  }

  // ---- shared statement groups ----

  /** `enqueue_submission`: the UNIQUE constraint on `submission_id` makes a second row a conflict. */
  function Enqueue(db: Db, id: SubmissionId, priority: int): Result<Db> {
    if id <= 0 then Err(InvalidReference)
    else if id !in db.submissions then Err(NotFound)
    else if id in db.queue then Err(Conflict)
    else Ok(db.(queue := db.queue[id := NewQueueRow(priority, db.clock)]))
  }

  /** The locked join of submission and queue row every leased operation starts with. */
  function LeasedContext(db: Db, id: SubmissionId, attemptNo: int, token: Token): (r: Result<Submission>)
    ensures r.Ok? ==> id in db.submissions && r.value == db.submissions[id]
  {
    if !ValidLeaseReference(id, attemptNo, token) then Err(InvalidReference)
    else if id in db.submissions && LeaseHeld(db.queue, db.clock, id, attemptNo, token) then Ok(db.submissions[id])
    else Err(Conflict)
  }

  /** UPDATE of the submission row together with its history row. */
  function WriteStatus(db: Db, id: SubmissionId, s: Submission, reason: Option<string>): Db
    requires id in db.submissions
  {
    db.(submissions := db.submissions[id := s],
        history := Record(db.history, id, HistoryEntry(Some(db.submissions[id].status), s.status, reason)))
  }

  // ---- create ----

  /** The repository half: the submission row pins the version the problem has now. */
  function InsertSubmission(db: Db, c: CreateCommand): Result<(Db, QueuedResponse)> {
    if !ValidCommand(c) then Err(InvalidInput)
    else if c.problemId !in db.problems then Err(NotFound)
    else
      var id := db.nextSubmissionId;
      var version := db.problems[c.problemId].version;
      var s := Submission(c.userId, c.problemId, version, c.language, c.sourceCode, Queued, NO_RESULT);
      Ok((db.(submissions := db.submissions[id := s],
              history := Record(db.history, id, HistoryEntry(None, Queued, None)),
              nextSubmissionId := id + 1),
          QueuedResponse(id, Queued, version)))
  }

  function CreateSubmission(db: Db, c: CreateCommand): Result<(Db, QueuedResponse)> {
    if c.userId <= 0 then Err(InvalidReference)
    else if c.userId !in db.users then Err(NotFound)
    else if Banned(db, c.userId) then Err(Forbidden)
    else
      var inserted :- InsertSubmission(db, c);
      var summaries :- IncreaseSubmissionCount(inserted.0.summaries, (c.userId, c.problemId));
      var queued :- Enqueue(inserted.0.(summaries := summaries), inserted.1.id, NORMAL_PRIORITY);
      var statistics :- IncreaseSubmitted(queued.statistics, c.problemId);
      Ok((queued.(statistics := statistics), inserted.1))
  }

  // ---- lease ----

  /** Available, and either never leased or with an expired lease. */
  predicate Available(row: QueueRow, now: Time) {
    row.availableAt <= now && (row.leasedUntil.None? || row.leasedUntil.value <= now)
  }

  predicate Eligible(db: Db, id: SubmissionId) {
    id in db.queue && id in db.submissions && Available(db.queue[id], db.clock)
  }

  /** `ORDER BY priority DESC, created_at ASC`: row `a` may come before row `b`. */
  predicate Before(a: QueueRow, b: QueueRow) {
    a.priority > b.priority || (a.priority == b.priority && a.createdAt <= b.createdAt)
  }

  /** What the candidate query may return when other transactions hold the rows in `locked`. */
  ghost predicate Candidate(db: Db, locked: set<SubmissionId>, choice: Option<SubmissionId>) {
    match choice
    case None => forall id | Eligible(db, id) :: id in locked
    case Some(id) =>
      && Eligible(db, id) && id !in locked
      && forall other | Eligible(db, other) && other !in locked :: Before(db.queue[id], db.queue[other])
  }

  /** `lease_submission` once the candidate and the token are drawn. */
  function LeaseSubmission(db: Db, duration: Time, choice: Option<SubmissionId>, token: Token)
    : Result<(Db, Option<LeasedSubmission>)>
    requires choice.Some? ==> Eligible(db, choice.value)
  {
    if duration <= 0 then Err(InvalidInput)
    else if choice.None? then Ok((db, None))
    else
      var id := choice.value;
      var row := db.queue[id].(
        leasedUntil := Some(db.clock + duration),
        attemptNo := db.queue[id].attemptNo + 1,
        leaseToken := Some(token));
      Ok((db.(queue := db.queue[id := row], issuedTokens := db.issuedTokens + {token}),
          Some(LeasedSubmission(id, db.submissions[id].problemId, db.submissions[id].problemVersion,
                                db.submissions[id].language, db.submissions[id].sourceCode,
                                row.attemptNo, token, db.clock + duration))))
  }

  // ---- leased operations ----

  function UpdateStatus(db: Db, id: SubmissionId, attemptNo: int, token: Token, to: Status, reason: Option<string>)
    : Result<Db>
  {
    var s :- LeasedContext(db, id, attemptNo, token);
    var written := WriteStatus(db, id, s.(status := to), reason);
    var summaries :- ApplyTransition(written.summaries, KeyOf(s), s.status, to);
    Ok(written.(summaries := summaries))
  }

  function MarkJudging(db: Db, id: SubmissionId, attemptNo: int, token: Token): Result<Db> {
    UpdateStatus(db, id, attemptNo, token, Judging, None)
  }

  function ReleaseLease(db: Db, id: SubmissionId, attemptNo: int, token: Token): Result<Db> {
    if !ValidLeaseReference(id, attemptNo, token) then Err(InvalidReference)
    else if LeaseHeld(db.queue, db.clock, id, attemptNo, token) then
      Ok(db.(queue := db.queue[id := db.queue[id].(availableAt := db.clock, leasedUntil := None, leaseToken := None)]))
    else Err(Conflict)
  }

  function Requeue(db: Db, id: SubmissionId, attemptNo: int, token: Token, reason: Option<string>): Result<Db> {
    var updated :- UpdateStatus(db, id, attemptNo, token, Queued, reason);
    ReleaseLease(updated, id, attemptNo, token)
  }

  /** The repository half of finalize tells the service whether to count an acceptance. */
  datatype FinalizeResult = FinalizeResult(problemId: ProblemId, firstAccepted: bool)

  /** Status, result and history written, and the queue row deleted. */
  function VerdictStored(db: Db, req: FinalizeRequest): Db
    requires req.id in db.submissions
  {
    var s := db.submissions[req.id];
    var written := WriteStatus(db, req.id, s.(status := req.to, result := req.result), req.reason);
    written.(queue := written.queue - {req.id})
  }

  /** The CHECK constraints on the result columns reject an out-of-range result. */
  function FinalizeRows(db: Db, req: FinalizeRequest): Result<(Db, FinalizeResult)> {
    var s :- LeasedContext(db, req.id, req.attemptNo, req.token);
    if !ResultInRange(req.result) then Err(ValidationError) else
      var stored := VerdictStored(db, req);
      var summaries :- ApplyTransition(stored.summaries, KeyOf(s), s.status, req.to);
      Ok((stored.(summaries := summaries), FinalizeResult(s.problemId, req.to.Accepted? && !s.status.Accepted?)))
  }

  function Finalize(db: Db, req: FinalizeRequest): Result<Db> {
    var rows :- FinalizeRows(db, req);
    if rows.1.firstAccepted then
      var statistics :- IncreaseAcceptedCount(rows.0.statistics, rows.1.problemId);
      Ok(rows.0.(statistics := statistics))
    else Ok(rows.0)
  }

  // ---- rejudge ----

  function RejudgeSubmission(db: Db, id: SubmissionId): Result<Db> {
    if id <= 0 then Err(InvalidReference)
    else if id !in db.submissions then Err(NotFound)
    else
      var s := db.submissions[id];
      if !IsTerminal(s.status) then Err(Conflict) else
        var statistics :- (if s.status.Accepted? then DecreaseAcceptedCount(db.statistics, s.problemId)
                           else Ok(db.statistics));
        var cleared := db.(statistics := statistics);
        var written := WriteStatus(cleared, id, s.(status := Queued, result := NO_RESULT), None);
        var summaries :- ApplyTransition(written.summaries, KeyOf(s), s.status, Queued);
        Enqueue(written.(summaries := summaries), id, REJUDGE_PRIORITY)
  }

  /** The rows `get_wa_or_ac_submissions` selects. */
  function WrongOrAccepted(db: Db, p: ProblemId): set<SubmissionId> {
    set id | id in db.submissions
             && db.submissions[id].problemId == p && p in db.problems && db.submissions[id].userId in db.users
             && (db.submissions[id].status.WrongAnswer? || db.submissions[id].status.Accepted?)
  }

  /** The rejudge loop: the first failure fails the whole transaction. */
  function RejudgeEach(db: Db, ids: seq<SubmissionId>): Result<Db>
    decreases |ids|
  {
    if ids == [] then Ok(db)
    else
      var first :- RejudgeSubmission(db, ids[0]);
      RejudgeEach(first, ids[1..])
  }

  function RejudgeProblem(db: Db, p: ProblemId): Result<Db> {
    if p <= 0 then Err(InvalidReference)
    else RejudgeEach(db, SortDescending(WrongOrAccepted(db, p)))
  }
}
