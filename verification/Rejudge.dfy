/** Rejudging: one submission, and all wrong or accepted submissions of a problem in one transaction. */
module Rejudge {
  import opened Common
  import opened SubmissionStatus
  import opened SubmissionTables
  import opened FiniteSets
  import opened Recount
  import opened Counters
  import opened Lifecycle
  import opened LifecycleInvariant

  function Reset(s: Submission): Submission {
    s.(status := Queued, result := NO_RESULT)
  }

  // ---- one submission ----

  /** The committed state of a single rejudge, without its guards: both counter rows are recounted. */
  ghost function Rejudged(db: Db, id: SubmissionId): Db
    requires id in db.submissions
  {
    var s := db.submissions[id];
    var written := WriteStatus(db, id, Reset(s), None);
    written.(
      queue := db.queue[id := NewQueueRow(REJUDGE_PRIORITY, db.clock)],
      summaries := db.summaries[KeyOf(s) := SummaryOf(written.submissions, KeyOf(s))],
      statistics := db.statistics[s.problemId := StatisticsOf(written.submissions, s.problemId)])
  }

  /** Single rejudge succeeds exactly on a decided submission, and then no counter guard fires. */
  lemma RejudgeOneExact(db: Db, id: SubmissionId)
    requires Inv(db)
    ensures RejudgeSubmission(db, id).Ok? <==> id in db.submissions && IsTerminal(db.submissions[id].status)
    ensures RejudgeSubmission(db, id).Ok? ==> RejudgeSubmission(db, id).value == Rejudged(db, id)
    ensures id in db.submissions && !IsTerminal(db.submissions[id].status) ==>
              RejudgeSubmission(db, id) == Err(Conflict)
    ensures id !in db.submissions ==> RejudgeSubmission(db, id) == Err(if id <= 0 then InvalidReference else NotFound)
  {
    if id in db.submissions {
      assert SubmissionResolves(db, id, db.submissions[id]);
      if IsTerminal(db.submissions[id].status) {
        AcceptedCountGuardHolds(db, id);
        TransitionKeepsSummaries(db.summaries, db.submissions, id, Reset(db.submissions[id]));
        assert id !in db.queue;
      }
    }
  }

  /** The guarded decrement of the accepted count never fires and ends at the recount. */
  lemma AcceptedCountGuardHolds(db: Db, id: SubmissionId)
    requires Inv(db) && id in db.submissions && IsTerminal(db.submissions[id].status)
    ensures
      var s := db.submissions[id];
      var subs := db.submissions[id := Reset(s)];
      (if s.status.Accepted? then DecreaseAcceptedCount(db.statistics, s.problemId) else Ok(db.statistics))
      == Ok(db.statistics[s.problemId := StatisticsOf(subs, s.problemId)])
  {
    var s := db.submissions[id];
    assert SubmissionResolves(db, id, s);
    assert StatisticExact(db.statistics, db.submissions, s.problemId);
    StatisticsAfterUpdate(db.submissions, id, Reset(s), s.problemId);
    if s.status.Accepted? {
      assert InBucket(AcceptedFor(s.problemId), s);
      PositiveCount(db.submissions, AcceptedFor(s.problemId));
    } else {
      assert db.statistics[s.problemId := db.statistics[s.problemId]] == db.statistics;
    }
  }

  lemma RejudgeKeepsInv(db: Db, id: SubmissionId)
    requires Inv(db) && id in db.submissions && IsTerminal(db.submissions[id].status)
    ensures Inv(Rejudged(db, id))
  {
    RejudgeKeepsTables(db, id);
    var d := Rejudged(db, id);
    forall x | x != id ensures SameRows(db, d, x) {}
    RowChangeKeepsQueue(db, d, id);
  }

  lemma RejudgeKeepsTables(db: Db, id: SubmissionId)
    requires Inv(db) && id in db.submissions
    ensures TablesSound(Rejudged(db, id))
  {
    var s := db.submissions[id];
    assert SubmissionResolves(db, id, s);
    WriteStatusKeepsHistory(db, id, Reset(s), None);
    TransitionKeepsSummaries(db.summaries, db.submissions, id, Reset(s));
    RecountedStatisticsExact(db, id, Reset(s));
    SameKeysResolve(WriteStatus(db, id, Reset(s), None), Rejudged(db, id));
  }

  /** On any tables, sound or not, nothing that commits puts a second queue row under a submission. */
  lemma NeverEnqueuedTwice(db: Db, id: SubmissionId, c: CreateCommand)
    ensures RejudgeSubmission(db, id).Ok? ==> id !in db.queue
    ensures CreateSubmission(db, c).Ok? ==> db.nextSubmissionId !in db.queue
  {
  }

  // ---- many submissions ----

  /** Submission `id` came out of the rejudge queued, cleared, with one more history row and a fresh queue row. */
  ghost predicate RowRejudged(db: Db, d: Db, id: SubmissionId) {
    && id in db.submissions && id in d.submissions
    && d.submissions[id] == db.submissions[id].(status := Queued, result := JudgeResult(None, None, None, None, None))
    && id in db.history && id in d.history
    && d.history[id] == db.history[id] + [HistoryEntry(Some(db.submissions[id].status), Queued, None)]
    && id !in db.queue && id in d.queue && d.queue[id] == QueueRow(0, 0, None, db.clock, None, db.clock)
  }

  /** Submission `id` came out of the rejudge as it went in. */
  ghost predicate RowKept(db: Db, d: Db, id: SubmissionId) {
    && SameRows(db, d, id)
    && (id in d.history <==> id in db.history)
    && (id in db.history ==> d.history[id] == db.history[id])
  }

  ghost predicate RejudgedAll(db: Db, d: Db, ids: set<SubmissionId>) {
    && (forall id | id in ids :: RowRejudged(db, d, id))
    && (forall id | id !in ids :: RowKept(db, d, id))
    && d.users == db.users && d.problems == db.problems
    && d.nextSubmissionId == db.nextSubmissionId
    && d.issuedTokens == db.issuedTokens && d.clock == db.clock
  }

  ghost predicate AllDecided(db: Db, ids: set<SubmissionId>) {
    forall id | id in ids :: id in db.submissions && IsTerminal(db.submissions[id].status)
  }

  lemma RejudgedOneIsAll(db: Db, id: SubmissionId)
    requires Inv(db) && id in db.submissions && IsTerminal(db.submissions[id].status)
    ensures RejudgedAll(db, Rejudged(db, id), {id})
  {
    var d := Rejudged(db, id);
    assert id in db.history && id !in db.queue;
    assert RowRejudged(db, d, id);
    forall x | x !in {id} ensures RowKept(db, d, x) {
      assert x != id;
    }
  }

  /** Rejudging a group after another is rejudging their union. */
  lemma RejudgedAllComposes(db: Db, first: Db, d: Db, a: set<SubmissionId>, b: set<SubmissionId>)
    requires RejudgedAll(db, first, a) && RejudgedAll(first, d, b)
    requires forall id | id in a :: id !in b
    ensures RejudgedAll(db, d, a + b)
  {
    forall id | id in a + b ensures RowRejudged(db, d, id) {
      if id in a {
        assert RowRejudged(db, first, id) && RowKept(first, d, id);
      } else {
        assert RowKept(db, first, id) && RowRejudged(first, d, id);
      }
    }
    forall id | id !in a + b ensures RowKept(db, d, id) {
      assert RowKept(db, first, id) && RowKept(first, d, id);
    }
  }

  /** Rejudging any list of distinct decided submissions commits, touches exactly those, and keeps the invariant. */
  lemma {:induction false} RejudgeEachExact(db: Db, ids: seq<SubmissionId>)
    requires Inv(db) && Distinct(ids) && AllDecided(db, Elements(ids))
    ensures RejudgeEach(db, ids).Ok?
    ensures RejudgedAll(db, RejudgeEach(db, ids).value, Elements(ids))
    ensures Inv(RejudgeEach(db, ids).value)
    decreases |ids|
  {
    if ids == [] {
      forall id | id !in Elements(ids) ensures RowKept(db, db, id) {}
    } else {
      var id, rest := ids[0], ids[1..];
      assert id in Elements(ids);
      RejudgeOneExact(db, id);
      RejudgeKeepsInv(db, id);
      RejudgedOneIsAll(db, id);
      var first := Rejudged(db, id);
      TailElements(ids);
      StillDecided(db, first, id, Elements(rest));
      RejudgeEachExact(first, rest);
      RejudgedAllComposes(db, first, RejudgeEach(first, rest).value, {id}, Elements(rest));
    }
  }

  lemma TailElements(ids: seq<SubmissionId>)
    requires ids != [] && Distinct(ids)
    ensures Distinct(ids[1..])
    ensures Elements(ids) == {ids[0]} + Elements(ids[1..]) && ids[0] !in Elements(ids[1..])
  {
    assert ids == [ids[0]] + ids[1..];
  }

  lemma StillDecided(db: Db, first: Db, id: SubmissionId, rest: set<SubmissionId>)
    requires RejudgedAll(db, first, {id}) && id !in rest
    requires forall x | x in rest :: x in db.submissions && IsTerminal(db.submissions[x].status)
    ensures AllDecided(first, rest)
  {
    forall x | x in rest ensures x in first.submissions && IsTerminal(first.submissions[x].status) {
      assert x !in {id};
      assert RowKept(db, first, x);
    }
  }

  // ---- one problem ----

  /**
   * From every reachable state a problem rejudge commits: it never meets a conflict, resets exactly the
   * submissions that were accepted or wrong, and keeps the invariant.
   */
  lemma RejudgeProblemExact(db: Db, p: ProblemId)
    requires Inv(db) && p > 0
    ensures RejudgeProblem(db, p).Ok?
    ensures RejudgedAll(db, RejudgeProblem(db, p).value, WrongOrAccepted(db, p))
    ensures Inv(RejudgeProblem(db, p).value)
    ensures forall id ::
              id in WrongOrAccepted(db, p) <==>
              && id in db.submissions && db.submissions[id].problemId == p
              && (db.submissions[id].status.Accepted? || db.submissions[id].status.WrongAnswer?)
  {
    var targets := WrongOrAccepted(db, p);
    SortDescendingSorts(targets);
    RejudgeEachExact(db, SortDescending(targets));
    forall id
      ensures id in targets <==>
              && id in db.submissions && db.submissions[id].problemId == p
              && (db.submissions[id].status.Accepted? || db.submissions[id].status.WrongAnswer?)
    {
      if id in db.submissions { assert SubmissionResolves(db, id, db.submissions[id]); }
    }
  }

  /** Afterwards the problem has no accepted or wrong submission and its accepted count is zero. */
  lemma RejudgeProblemEmpties(db: Db, p: ProblemId)
    requires Inv(db) && p > 0
    ensures RejudgeProblem(db, p).Ok?
    ensures
      var d := RejudgeProblem(db, p).value;
      && (forall id | id in d.submissions && d.submissions[id].problemId == p ::
            !d.submissions[id].status.Accepted? && !d.submissions[id].status.WrongAnswer?)
      && (p in d.statistics ==> d.statistics[p].acceptedCount == 0)
  {
    RejudgeProblemExact(db, p);
    var d := RejudgeProblem(db, p).value;
    var targets := WrongOrAccepted(db, p);
    forall id | id in d.submissions && d.submissions[id].problemId == p
      ensures !d.submissions[id].status.Accepted? && !d.submissions[id].status.WrongAnswer?
      ensures !InBucket(AcceptedFor(p), d.submissions[id])
    {
      if id in targets { assert RowRejudged(db, d, id); } else { assert RowKept(db, d, id); }
    }
    PositiveCount(d.submissions, AcceptedFor(p));
    assert StatisticExact(d.statistics, d.submissions, p);
  }

  /** Every bucket whose submissions all survive unchanged keeps its size. */
  lemma UntouchedBucket(db: Db, d: Db, targets: set<SubmissionId>, b: Bucket)
    requires RejudgedAll(db, d, targets)
    requires forall id | id in targets && id in db.submissions ::
               !InBucket(b, db.submissions[id]) && !InBucket(b, Reset(db.submissions[id]))
    ensures Count(d.submissions, b) == Count(db.submissions, b)
  {
    forall id ensures id in Members(d.submissions, b) <==> id in Members(db.submissions, b) {
      if id in targets { assert RowRejudged(db, d, id); } else { assert RowKept(db, d, id); }
    }
    assert Members(d.submissions, b) == Members(db.submissions, b);
  }

  /** Every other problem keeps its statistics row and all its summary rows. */
  lemma RejudgeProblemIsLocal(db: Db, p: ProblemId, q: ProblemId, u: UserId)
    requires Inv(db) && p > 0 && q != p
    ensures RejudgeProblem(db, p).Ok?
    ensures
      var d := RejudgeProblem(db, p).value;
      && (q in d.statistics <==> q in db.statistics)
      && (q in db.statistics ==> d.statistics[q] == db.statistics[q])
      && ((u, q) in d.summaries <==> (u, q) in db.summaries)
      && ((u, q) in db.summaries ==> d.summaries[(u, q)] == db.summaries[(u, q)])
  {
    RejudgeProblemExact(db, p);
    var d := RejudgeProblem(db, p).value;
    var targets := WrongOrAccepted(db, p);
    UntouchedBucket(db, d, targets, SubmittedTo(q));
    UntouchedBucket(db, d, targets, AcceptedFor(q));
    UntouchedBucket(db, d, targets, AttemptsOf(u, q));
    UntouchedBucket(db, d, targets, AcceptedOf(u, q));
    UntouchedBucket(db, d, targets, FailedOf(u, q));
    assert d.problems == db.problems && d.statistics.Keys == db.statistics.Keys;
    assert StatisticExact(d.statistics, d.submissions, q) && StatisticExact(db.statistics, db.submissions, q);
    assert SummaryExact(d.summaries, d.submissions, (u, q)) && SummaryExact(db.summaries, db.submissions, (u, q));
  }
}
