/** The rows of the submission schema. Times are the transaction-start clock, in any fixed unit. */
module SubmissionTables {
  import opened Common
  import opened SubmissionStatus

  type UserId = int
  type ProblemId = int
  type SubmissionId = int
  type Time = int
  type Token = string

  const NORMAL_PRIORITY := 100
  const REJUDGE_PRIORITY := 0

  /** The nullable result columns of `submissions`. */
  datatype JudgeResult = JudgeResult(
    score: Option<int>,
    compileOutput: Option<string>,
    judgeOutput: Option<string>,
    elapsedMs: Option<int>,
    maxRssKb: Option<int>)

  const NO_RESULT := JudgeResult(None, None, None, None, None)

  /** The CHECK constraints on the result columns. */
  predicate ResultInRange(r: JudgeResult) {
    && (r.score.Some? ==> 0 <= r.score.value <= 100)
    && (r.elapsedMs.Some? ==> 0 <= r.elapsedMs.value)
    && (r.maxRssKb.Some? ==> 0 <= r.maxRssKb.value)
  }

  datatype Submission = Submission(
    userId: UserId,
    problemId: ProblemId,
    problemVersion: int,
    language: string,
    sourceCode: string,
    status: Status,
    result: JudgeResult)

  datatype HistoryEntry = HistoryEntry(from: Option<Status>, to: Status, reason: Option<string>)

  datatype QueueRow = QueueRow(
    priority: int,
    attemptNo: int,
    leaseToken: Option<Token>,
    availableAt: Time,
    leasedUntil: Option<Time>,
    createdAt: Time)

  type Submissions = map<SubmissionId, Submission>
  type Histories = map<SubmissionId, seq<HistoryEntry>>
  type Queue = map<SubmissionId, QueueRow>

  /** A row as `INSERT INTO submission_queue(submission_id, priority)` creates it. */
  function NewQueueRow(priority: int, now: Time): QueueRow {
    QueueRow(priority, 0, None, now, None, now)
  }

  /** The history rows of one submission, in `history_id` order, with one more appended. */
  function Record(history: Histories, id: SubmissionId, entry: HistoryEntry): Histories {
    history[id := (if id in history then history[id] else []) + [entry]]
  }

  /** The rows match `WHERE submission_id, attempt_no, lease_token` and an unexpired lease. */
  predicate LeaseHeld(queue: Queue, now: Time, id: SubmissionId, attemptNo: int, token: Token) {
    && id in queue
    && queue[id].attemptNo == attemptNo
    && queue[id].leaseToken == Some(token)
    && queue[id].leasedUntil.Some?
    && queue[id].leasedUntil.value > now
  }

  predicate ValidLeaseReference(id: SubmissionId, attemptNo: int, token: Token) {
    id > 0 && attemptNo > 0 && token != ""
  }
}
