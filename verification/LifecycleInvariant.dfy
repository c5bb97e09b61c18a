/** The inductive invariant of the lifecycle and the proof that every transaction keeps it. */
module LifecycleInvariant {
  import opened Common
  import opened SubmissionStatus
  import opened SubmissionTables
  import opened Recount
  import opened Counters
  import opened ProblemTables
  import opened Lifecycle

  // ---- the invariant ----

  /** Keys are positive and foreign keys resolve. */
  ghost predicate KeysResolve(db: Db) {
    && (forall u | u in db.users :: u > 0)
    && (forall p | p in db.problems :: p > 0)
    && db.statistics.Keys == db.problems.Keys
    && db.nextSubmissionId > 0
    && (forall id | id in db.submissions :: SubmissionResolves(db, id, db.submissions[id]))
  }

  ghost predicate SubmissionResolves(db: Db, id: SubmissionId, s: Submission) {
    0 < id < db.nextSubmissionId && s.userId in db.users && s.problemId in db.problems
  }

  /** An unbroken chain of status changes, from creation to `current`. */
  ghost predicate Chain(h: seq<HistoryEntry>, current: Status) {
    && |h| > 0
    && h[0].from == None && h[0].to == Queued
    && (forall i :: 1 <= i < |h| ==> h[i].from == Some(h[i - 1].to))
    && h[|h| - 1].to == current
  }

  ghost predicate HistoriesChain(db: Db) {
    && db.history.Keys == db.submissions.Keys
    && forall id | id in db.submissions :: Chain(db.history[id], db.submissions[id].status)
  }

  /** A lease is a token and a deadline together, its token was drawn, and no timestamp lies ahead of the clock. */
  ghost predicate RowSound(db: Db, row: QueueRow) {
    && row.attemptNo >= 0
    && row.availableAt <= db.clock && row.createdAt <= db.clock
    && (row.leaseToken.Some? <==> row.leasedUntil.Some?)
    && (row.leaseToken.Some? ==>
          row.attemptNo > 0 && row.leaseToken.value != "" && row.leaseToken.value in db.issuedTokens)
  }

  /** A submission has a queue row exactly while it has no verdict, and then no result columns. */
  ghost predicate QueueMatches(db: Db) {
    && (forall id :: id in db.queue <==> id in db.submissions && !IsTerminal(db.submissions[id].status))
    && (forall id | id in db.queue :: db.submissions[id].result == NO_RESULT)
    && (forall id | id in db.queue :: RowSound(db, db.queue[id]))
    && (forall id | id in db.submissions :: ResultInRange(db.submissions[id].result))
  }

  /** Everything except the tie between the queue and the statuses. */
  ghost predicate TablesSound(db: Db) {
    && KeysResolve(db)
    && HistoriesChain(db)
    && SummariesExact(db.summaries, db.submissions)
    && StatisticsExact(db.statistics, db.submissions)
  }

  ghost predicate Inv(db: Db) {
    TablesSound(db) && QueueMatches(db)
  }

  // ---- building blocks ----

  lemma ChainGrows(h: seq<HistoryEntry>, from: Status, to: Status, reason: Option<string>)
    requires Chain(h, from)
    ensures Chain(h + [HistoryEntry(Some(from), to, reason)], to)
  {
  }

  /** A status write keeps the keys and the chains of every submission. */
  lemma WriteStatusKeepsHistory(db: Db, id: SubmissionId, s: Submission, reason: Option<string>)
    requires KeysResolve(db) && HistoriesChain(db) && id in db.submissions
    requires s.userId == db.submissions[id].userId && s.problemId == db.submissions[id].problemId
    ensures KeysResolve(WriteStatus(db, id, s, reason)) && HistoriesChain(WriteStatus(db, id, s, reason))
  {
    var w := WriteStatus(db, id, s, reason);
    ChainGrows(db.history[id], db.submissions[id].status, s.status, reason);
    forall x | x in w.submissions
      ensures Chain(w.history[x], w.submissions[x].status) && SubmissionResolves(w, x, w.submissions[x])
    {
      if x != id { assert x in db.submissions; }
      assert SubmissionResolves(db, x, db.submissions[x]);
    }
  }

  ghost predicate SameRows(db: Db, d: Db, x: SubmissionId) {
    && (x in d.submissions <==> x in db.submissions)
    && (x in d.queue <==> x in db.queue)
    && (x in db.submissions ==> d.submissions[x] == db.submissions[x])
    && (x in db.queue ==> d.queue[x] == db.queue[x])
  }

  /** The tie between queue and statuses needs checking at the changed row only. */
  lemma RowChangeKeepsQueue(db: Db, d: Db, id: SubmissionId)
    requires QueueMatches(db)
    requires forall x | x != id :: SameRows(db, d, x)
    requires d.clock == db.clock && db.issuedTokens <= d.issuedTokens
    requires id in d.submissions && ResultInRange(d.submissions[id].result)
    requires id in d.queue <==> !IsTerminal(d.submissions[id].status)
    requires id in d.queue ==> RowSound(d, d.queue[id]) && d.submissions[id].result == NO_RESULT
    ensures QueueMatches(d)
  {
    forall x
      ensures x in d.queue <==> x in d.submissions && !IsTerminal(d.submissions[x].status)
      ensures x in d.queue ==> RowSound(d, d.queue[x]) && d.submissions[x].result == NO_RESULT
      ensures x in d.submissions ==> ResultInRange(d.submissions[x].result)
    {
      if x != id {
        assert SameRows(db, d, x);
        if x in db.queue { assert RowSound(db, db.queue[x]); }
      }
    }
  }

  /** With a live lease the submission has no verdict yet. */
  lemma LiveMeansPending(db: Db, id: SubmissionId, attemptNo: int, token: Token)
    requires Inv(db) && LeaseHeld(db.queue, db.clock, id, attemptNo, token)
    ensures id in db.submissions && !IsTerminal(db.submissions[id].status)
    ensures db.submissions[id].result == NO_RESULT && ValidLeaseReference(id, attemptNo, token)
    ensures ValidKey(KeyOf(db.submissions[id]))
  {
    assert id in db.queue && RowSound(db, db.queue[id]);
    assert SubmissionResolves(db, id, db.submissions[id]);
  }

  // ---- changes around the submissions ----

  /** Users, problems and clock may grow under unchanged submissions and queue. */
  lemma SurroundingsKeepKeys(db: Db, d: Db)
    requires KeysResolve(db) && d.submissions == db.submissions && d.nextSubmissionId == db.nextSubmissionId
    requires forall u | u in db.users :: u in d.users
    requires forall u | u in d.users :: u > 0
    requires forall p | p in db.problems :: p in d.problems
    requires forall p | p in d.problems :: p > 0
    requires d.statistics.Keys == d.problems.Keys
    ensures KeysResolve(d)
  {
    forall id | id in d.submissions ensures SubmissionResolves(d, id, d.submissions[id]) {
      assert SubmissionResolves(db, id, db.submissions[id]);
    }
  }

  lemma SurroundingsKeepQueue(db: Db, d: Db)
    requires QueueMatches(db) && d.submissions == db.submissions && d.queue == db.queue
    requires d.clock >= db.clock && d.issuedTokens == db.issuedTokens
    ensures QueueMatches(d)
  {
    forall id | id in d.queue ensures RowSound(d, d.queue[id]) {
      assert RowSound(db, db.queue[id]);
    }
  }

  lemma EmptyKeepsInv(clock: Time)
    ensures Inv(Empty(clock))
  {
    var db := Empty(clock);
    forall k: SummaryKey ensures SummaryExact(db.summaries, db.submissions, k) {
      assert Members(db.submissions, AttemptsOf(k.0, k.1)) == {};
    }
  }

  lemma TickKeepsInv(db: Db, now: Time)
    requires Inv(db) && now >= db.clock
    ensures Inv(Tick(db, now))
  {
    SurroundingsKeepKeys(db, Tick(db, now));
    SurroundingsKeepQueue(db, Tick(db, now));
  }

  // ---- create ----

  /** The committed state of a creation, without its guards: both counter rows are recounted. */
  ghost function Created(db: Db, c: CreateCommand): Db
    requires c.problemId in db.problems
  {
    var id := db.nextSubmissionId;
    var s := Submission(
      c.userId, c.problemId, db.problems[c.problemId].version, c.language, c.sourceCode, Queued,
      JudgeResult(None, None, None, None, None));
    var subs := db.submissions[id := s];
    db.(submissions := subs,
        history := db.history[id := [HistoryEntry(None, Queued, None)]],
        queue := db.queue[id := QueueRow(100, 0, None, db.clock, None, db.clock)],
        nextSubmissionId := id + 1,
        summaries := db.summaries[(c.userId, c.problemId) := SummaryOf(subs, (c.userId, c.problemId))],
        statistics := db.statistics[c.problemId := StatisticsOf(subs, c.problemId)])
  }

  /** A known user whose ban, if any, is over, an existing problem, and a source in one of the three languages. */
  ghost predicate Creatable(db: Db, c: CreateCommand) {
    && c.userId in db.users && (db.users[c.userId].None? || db.users[c.userId].value <= db.clock)
    && c.problemId in db.problems && c.sourceCode != ""
    && (c.language == "cpp" || c.language == "python" || c.language == "java")
  }

  /**
   * Creation fails only for a missing or banned user, an invalid command or a missing problem. It pins the
   * current version, queues the submission and leaves both counter rows at their recount.
   */
  lemma CreateExact(db: Db, c: CreateCommand)
    requires Inv(db)
    ensures CreateSubmission(db, c).Ok? <==> Creatable(db, c)
    ensures Creatable(db, c) ==>
              CreateSubmission(db, c) ==
              Ok((Created(db, c), QueuedResponse(db.nextSubmissionId, Queued, db.problems[c.problemId].version)))
    ensures !Creatable(db, c) ==>
              CreateSubmission(db, c) ==
              Err(if c.userId <= 0 then InvalidReference
                  else if c.userId !in db.users then NotFound
                  else if db.users[c.userId].Some? && db.users[c.userId].value > db.clock then Forbidden
                  else if c.problemId > 0 && c.problemId !in db.problems && c.sourceCode != ""
                          && (c.language == "cpp" || c.language == "python" || c.language == "java") then NotFound
                  else InvalidInput)
  {
    if Creatable(db, c) {
      var id, d := db.nextSubmissionId, Created(db, c);
      NextIdIsFresh(db);
      CreatedCounters(db, c);
      RecordFirst(db.history, id, HistoryEntry(None, Queued, None));
    }
  }

  lemma RecordFirst(history: Histories, id: SubmissionId, entry: HistoryEntry)
    requires id !in history
    ensures Record(history, id, entry) == history[id := [entry]]
  {
    assert [] + [entry] == [entry];
  }

  /** The two counter increments of a creation end at the recount. */
  lemma CreatedCounters(db: Db, c: CreateCommand)
    requires Inv(db) && Creatable(db, c)
    ensures IncreaseSubmissionCount(db.summaries, (c.userId, c.problemId)) == Ok(Created(db, c).summaries)
    ensures IncreaseSubmitted(db.statistics, c.problemId) == Ok(Created(db, c).statistics)
    ensures SummariesExact(Created(db, c).summaries, Created(db, c).submissions)
    ensures StatisticsExact(Created(db, c).statistics, Created(db, c).submissions)
  {
    var id, d := db.nextSubmissionId, Created(db, c);
    NextIdIsFresh(db);
    InsertKeepsSummaries(db.summaries, db.submissions, id, d.submissions[id]);
    InsertKeepsStatistics(db.statistics, db.submissions, id, d.submissions[id]);
    var k := (c.userId, c.problemId);
    assert SummaryExact(IncreaseSubmissionCount(db.summaries, k).value, d.submissions, k);
    assert StatisticExact(IncreaseSubmitted(db.statistics, c.problemId).value, d.submissions, c.problemId);
  }

  lemma CreateKeepsInv(db: Db, c: CreateCommand)
    requires Inv(db)
    ensures CreateSubmission(db, c).Ok? <==> Creatable(db, c)
    ensures CreateSubmission(db, c).Ok? ==> Inv(CreateSubmission(db, c).value.0)
  {
    CreateExact(db, c);
    if Creatable(db, c) {
      var id, d := db.nextSubmissionId, Created(db, c);
      NextIdIsFresh(db);
      CreatedCounters(db, c);
      RecordFirst(db.history, id, HistoryEntry(None, Queued, None));
      InsertKeepsRows(db, d, id, d.submissions[id]);
    }
  }

  lemma NextIdIsFresh(db: Db)
    requires Inv(db)
    ensures db.nextSubmissionId !in db.submissions
    ensures db.nextSubmissionId !in db.queue
    ensures db.nextSubmissionId !in db.history
  {
    var id := db.nextSubmissionId;
    assert id in db.submissions ==> SubmissionResolves(db, id, db.submissions[id]);
  }

  /** The row-by-row part of creation. */
  lemma InsertKeepsRows(db: Db, d: Db, id: SubmissionId, s: Submission)
    requires Inv(db) && id == db.nextSubmissionId && id !in db.submissions && id !in db.queue && id !in db.history
    requires s.status.Queued? && s.result == NO_RESULT && s.userId in db.users && s.problemId in db.problems
    requires d.users == db.users && d.problems == db.problems && d.statistics.Keys == db.statistics.Keys
    requires d.submissions == db.submissions[id := s] && d.nextSubmissionId == id + 1
    requires d.history == Record(db.history, id, HistoryEntry(None, Queued, None))
    requires d.queue == db.queue[id := NewQueueRow(NORMAL_PRIORITY, db.clock)]
    requires d.issuedTokens == db.issuedTokens && d.clock == db.clock
    ensures KeysResolve(d) && HistoriesChain(d) && QueueMatches(d)
  {
    forall x | x in d.submissions
      ensures SubmissionResolves(d, x, d.submissions[x])
      ensures Chain(d.history[x], d.submissions[x].status)
    {
      if x != id {
        assert x in db.submissions && SubmissionResolves(db, x, db.submissions[x]);
      }
    }
    RowChangeKeepsQueue(db, d, id);
  }

  // ---- lease ----

  lemma LeaseKeepsInv(db: Db, duration: Time, choice: Option<SubmissionId>, token: Token)
    requires Inv(db) && (choice.Some? ==> Eligible(db, choice.value) && token != "")
    ensures LeaseSubmission(db, duration, choice, token).Ok? <==> duration > 0
    ensures duration > 0 ==> Inv(LeaseSubmission(db, duration, choice, token).value.0)
  {
    if duration > 0 && choice.Some? {
      var id, d := choice.value, LeaseSubmission(db, duration, choice, token).value.0;
      assert RowSound(db, db.queue[id]);
      SameSubmissionsKeepTables(db, d);
      RowChangeKeepsQueue(db, d, id);
    }
  }

  /** Queue-only changes leave the rest of the invariant alone. */
  lemma SameSubmissionsKeepTables(db: Db, d: Db)
    requires TablesSound(db)
    requires d == db.(queue := d.queue, issuedTokens := d.issuedTokens, clock := d.clock)
    ensures TablesSound(d)
  {
    forall x | x in d.submissions ensures SubmissionResolves(d, x, d.submissions[x]) {
      assert SubmissionResolves(db, x, db.submissions[x]);
    }
  }

  // ---- status updates under a lease ----

  /**
   * Marking and requeueing: with a live lease `UpdateStatus` always succeeds, and since both statuses
   * are without verdict it changes no counter.
   */
  lemma UpdateStatusExact(db: Db, id: SubmissionId, attemptNo: int, token: Token, to: Status, reason: Option<string>)
    requires Inv(db) && !IsTerminal(to)
    requires LeaseHeld(db.queue, db.clock, id, attemptNo, token)
    ensures id in db.submissions
    ensures UpdateStatus(db, id, attemptNo, token, to, reason) ==
            Ok(WriteStatus(db, id, db.submissions[id].(status := to), reason))
    ensures Inv(WriteStatus(db, id, db.submissions[id].(status := to), reason))
  {
    LiveMeansPending(db, id, attemptNo, token);
    PendingChangeKeepsInv(db, id, to, reason);
    var d := WriteStatus(db, id, db.submissions[id].(status := to), reason);
    assert ApplyTransition(d.summaries, KeyOf(db.submissions[id]), db.submissions[id].status, to) == Ok(d.summaries);
  }

  /** A change between the two statuses without verdict keeps the invariant with the counters as they are. */
  lemma PendingChangeKeepsInv(db: Db, id: SubmissionId, to: Status, reason: Option<string>)
    requires Inv(db) && id in db.submissions && ValidKey(KeyOf(db.submissions[id]))
    requires !IsTerminal(to) && !IsTerminal(db.submissions[id].status)
    ensures Inv(WriteStatus(db, id, db.submissions[id].(status := to), reason))
  {
    PendingChangeKeepsTables(db, id, to, reason);
    var d := WriteStatus(db, id, db.submissions[id].(status := to), reason);
    assert id in db.queue && RowSound(db, db.queue[id]);
    RowChangeKeepsQueue(db, d, id);
  }

  lemma PendingChangeKeepsTables(db: Db, id: SubmissionId, to: Status, reason: Option<string>)
    requires TablesSound(db) && id in db.submissions && ValidKey(KeyOf(db.submissions[id]))
    requires !IsTerminal(to) && !IsTerminal(db.submissions[id].status)
    ensures TablesSound(WriteStatus(db, id, db.submissions[id].(status := to), reason))
  {
    var s := db.submissions[id].(status := to);
    WriteStatusKeepsHistory(db, id, s, reason);
    TransitionKeepsSummaries(db.summaries, db.submissions, id, s);
    StatusChangeKeepsStatistics(db, id, s);
  }

  /** A change that does not cross `Accepted` leaves every statistics row exact. */
  lemma StatusChangeKeepsStatistics(db: Db, id: SubmissionId, s: Submission)
    requires StatisticsExact(db.statistics, db.submissions) && id in db.submissions
    requires s.problemId == db.submissions[id].problemId
    requires s.status.Accepted? == db.submissions[id].status.Accepted?
    ensures StatisticsExact(db.statistics, db.submissions[id := s])
  {
    var subs := db.submissions[id := s];
    forall p ensures StatisticExact(db.statistics, subs, p) {
      assert StatisticExact(db.statistics, db.submissions, p);
      StatisticsAfterUpdate(db.submissions, id, s, p);
    }
  }

  /** The committed state of a requeue: queued again, and the row free from now on with its attempts counted. */
  ghost function Requeued(db: Db, id: SubmissionId, reason: Option<string>): Db
    requires id in db.submissions && id in db.queue
  {
    var row := db.queue[id];
    WriteStatus(db, id, db.submissions[id].(status := Queued), reason).(
      queue := db.queue[id := QueueRow(row.priority, row.attemptNo, None, db.clock, None, row.createdAt)])
  }

  /** Requeueing with a live lease succeeds, keeps the invariant and frees the row at once. */
  lemma RequeueExact(db: Db, id: SubmissionId, attemptNo: int, token: Token, reason: Option<string>)
    requires Inv(db)
    requires LeaseHeld(db.queue, db.clock, id, attemptNo, token)
    ensures id in db.submissions && id in db.queue
    ensures Requeue(db, id, attemptNo, token, reason) == Ok(Requeued(db, id, reason))
    ensures Inv(Requeued(db, id, reason)) && Eligible(Requeued(db, id, reason), id)
  {
    LiveMeansPending(db, id, attemptNo, token);
    UpdateStatusExact(db, id, attemptNo, token, Queued, reason);
    RequeueCommits(db, id, attemptNo, token, reason);
    RowFreed(WriteStatus(db, id, db.submissions[id].(status := Queued), reason), Requeued(db, id, reason), id);
  }

  lemma RequeueCommits(db: Db, id: SubmissionId, attemptNo: int, token: Token, reason: Option<string>)
    requires LeaseHeld(db.queue, db.clock, id, attemptNo, token) && ValidLeaseReference(id, attemptNo, token)
    requires id in db.submissions
    requires UpdateStatus(db, id, attemptNo, token, Queued, reason)
          == Ok(WriteStatus(db, id, db.submissions[id].(status := Queued), reason))
    ensures Requeue(db, id, attemptNo, token, reason) == Ok(Requeued(db, id, reason))
  {
  }

  /** Freeing the row of a queued submission keeps the invariant. */
  lemma RowFreed(u: Db, d: Db, id: SubmissionId)
    requires Inv(u) && id in u.queue && u.submissions[id].status.Queued?
    requires d == u.(queue := u.queue[id :=
      QueueRow(u.queue[id].priority, u.queue[id].attemptNo, None, u.clock, None, u.queue[id].createdAt)])
    ensures Inv(d) && Eligible(d, id)
  {
    SameSubmissionsKeepTables(u, d);
    assert RowSound(u, u.queue[id]);
    RowChangeKeepsQueue(u, d, id);
  }

  // ---- finalize ----

  /** The committed state of a finalize, without its guards: the counters are simply recounted for the two keys. */
  ghost function Finalized(db: Db, req: FinalizeRequest): Db
    requires req.id in db.submissions
  {
    var s := db.submissions[req.id];
    var written := WriteStatus(db, req.id, s.(status := req.to, result := req.result), req.reason);
    written.(
      queue := db.queue - {req.id},
      summaries := db.summaries[KeyOf(s) := SummaryOf(written.submissions, KeyOf(s))],
      statistics := db.statistics[s.problemId := StatisticsOf(written.submissions, s.problemId)])
  }

  /**
   * With a live lease and an in-range result, finalize never conflicts: both counters end at their recount,
   * whatever status it is given.
   */
  lemma FinalizeExact(db: Db, req: FinalizeRequest)
    requires Inv(db) && ResultInRange(req.result)
    requires LeaseHeld(db.queue, db.clock, req.id, req.attemptNo, req.token)
    ensures req.id in db.submissions
    ensures Finalize(db, req) == Ok(Finalized(db, req))
  {
    LiveMeansPending(db, req.id, req.attemptNo, req.token);
    var s := db.submissions[req.id];
    var s' := s.(status := req.to, result := req.result);
    TransitionKeepsSummaries(db.summaries, db.submissions, req.id, s');
    AcceptanceCounted(db, req.id, s');
  }

  /** The accepted counter has its row and its room, and ends at the recount. */
  lemma AcceptanceCounted(db: Db, id: SubmissionId, s: Submission)
    requires KeysResolve(db) && StatisticsExact(db.statistics, db.submissions) && id in db.submissions
    requires !db.submissions[id].status.Accepted? && s.problemId == db.submissions[id].problemId
    ensures
      (if s.status.Accepted? then IncreaseAcceptedCount(db.statistics, s.problemId) else Ok(db.statistics))
      == Ok(db.statistics[s.problemId := StatisticsOf(db.submissions[id := s], s.problemId)])
  {
    assert SubmissionResolves(db, id, db.submissions[id]);
    assert StatisticExact(db.statistics, db.submissions, s.problemId);
    StatisticsAfterUpdate(db.submissions, id, s, s.problemId);
    RoomForAccepted(db.submissions, id);
    assert db.statistics[s.problemId := db.statistics[s.problemId]] == db.statistics;
  }

  // ---- what a leased operation writes ----

  /** Marking changes the status and adds one history row without reason, and nothing else. */
  lemma MarkWrites(db: Db, id: SubmissionId, n: int, t: Token)
    requires MarkJudging(db, id, n, t).Ok? && id in db.history
    ensures id in db.submissions
    ensures
      var d, s := MarkJudging(db, id, n, t).value, db.submissions[id];
      && d.submissions == db.submissions[id := s.(status := Judging)]
      && d.history == db.history[id := db.history[id] + [HistoryEntry(Some(s.status), Judging, None)]]
      && d == db.(submissions := d.submissions, history := d.history, summaries := d.summaries)
  {
  }

  /** Requeueing changes the status, adds one history row with the given reason, and frees the queue row. */
  lemma RequeueWrites(db: Db, id: SubmissionId, n: int, t: Token, reason: Option<string>)
    requires Requeue(db, id, n, t, reason).Ok? && id in db.history
    ensures id in db.submissions && id in db.queue
    ensures
      var d, s := Requeue(db, id, n, t, reason).value, db.submissions[id];
      && d.submissions == db.submissions[id := s.(status := Queued)]
      && d.history == db.history[id := db.history[id] + [HistoryEntry(Some(s.status), Queued, reason)]]
      && d.queue == db.queue[id := db.queue[id].(availableAt := db.clock, leasedUntil := None, leaseToken := None)]
      && d == db.(submissions := d.submissions, history := d.history, summaries := d.summaries, queue := d.queue)
  {
  }

  /**
   * Finalizing stores status and result, adds one history row with the request's reason, and deletes the queue row. On
   * any tables the accepted count of the problem rises by one for a first acceptance, and no statistics row otherwise.
   */
  lemma FinalizeWrites(db: Db, req: FinalizeRequest)
    requires Finalize(db, req).Ok? && req.id in db.history
    ensures req.id in db.submissions
    ensures
      var d, s := Finalize(db, req).value, db.submissions[req.id];
      && d.submissions == db.submissions[req.id := s.(status := req.to, result := req.result)]
      && d.history == db.history[req.id := db.history[req.id] + [HistoryEntry(Some(s.status), req.to, req.reason)]]
      && d.queue == db.queue - {req.id}
      && (if req.to == Accepted && s.status != Accepted then
            && s.problemId in db.statistics && s.problemId in d.statistics
            && d.statistics[s.problemId].acceptedCount == db.statistics[s.problemId].acceptedCount + 1
            && d.statistics == db.statistics[s.problemId := d.statistics[s.problemId]]
          else d.statistics == db.statistics)
      && d == db.(submissions := d.submissions, history := d.history, summaries := d.summaries,
                  statistics := d.statistics, queue := d.queue)
  {
  }

  /** Whatever status finalize is given, keys, histories and counters stay sound. */
  lemma FinalizeKeepsTables(db: Db, req: FinalizeRequest)
    requires Inv(db) && req.id in db.submissions
    ensures TablesSound(Finalized(db, req))
  {
    var s := db.submissions[req.id];
    var s' := s.(status := req.to, result := req.result);
    var w := WriteStatus(db, req.id, s', req.reason);
    var d := Finalized(db, req);
    assert SubmissionResolves(db, req.id, s);
    WriteStatusKeepsHistory(db, req.id, s', req.reason);
    TransitionKeepsSummaries(db.summaries, db.submissions, req.id, s');
    RecountedStatisticsExact(db, req.id, s');
    SameKeysResolve(w, d);
  }

  lemma SameKeysResolve(w: Db, d: Db)
    requires KeysResolve(w)
    requires d.users == w.users && d.problems == w.problems && d.statistics.Keys == w.statistics.Keys
    requires d.submissions == w.submissions && d.nextSubmissionId == w.nextSubmissionId
    ensures KeysResolve(d)
  {
    forall x | x in d.submissions ensures SubmissionResolves(d, x, d.submissions[x]) {
      assert SubmissionResolves(w, x, w.submissions[x]);
    }
  }

  /** The invariant survives finalize exactly when the requested status is a verdict. */
  lemma FinalizeNeedsVerdict(db: Db, req: FinalizeRequest)
    requires Inv(db) && ResultInRange(req.result)
    requires LeaseHeld(db.queue, db.clock, req.id, req.attemptNo, req.token)
    ensures Finalize(db, req).Ok?
    ensures Inv(Finalize(db, req).value) <==> IsTerminal(req.to)
  {
    FinalizeExact(db, req);
    FinalizeKeepsTables(db, req);
    FinalizeQueueMatches(db, req);
  }

  lemma FinalizeQueueMatches(db: Db, req: FinalizeRequest)
    requires QueueMatches(db) && req.id in db.submissions && ResultInRange(req.result)
    ensures QueueMatches(Finalized(db, req)) <==> IsTerminal(req.to)
  {
    var d := Finalized(db, req);
    assert req.id in d.submissions && req.id !in d.queue && d.submissions[req.id].status == req.to;
    if IsTerminal(req.to) {
      RowChangeKeepsQueue(db, d, req.id);
    }
  }

  /** A concrete database and request for which finalize breaks the invariant. */
  lemma StrandedExample()
    ensures exists db, req :: Inv(db) && Finalize(db, req).Ok? && !Inv(Finalize(db, req).value)
  {
    var problem := Problem(1, "sum", None, None, map[], map[], map[], map[], 1, 1);
    var start := Empty(0).(
      users := map[1 := None], problems := map[1 := problem], statistics := map[1 := Statistics(0, 0)]);
    StartKeepsInv(start, problem);
    var c := CreateCommand(1, 1, "cpp", "int main(){}");
    CreateKeepsInv(start, c);
    var created := CreateSubmission(start, c).value.0;
    assert created.clock == 0 && 1 in created.queue && 1 in created.submissions;
    assert created.queue[1] == NewQueueRow(NORMAL_PRIORITY, 0);
    LeaseKeepsInv(created, 60, Some(1), "t");
    var leased := LeaseSubmission(created, 60, Some(1), "t").value.0;
    assert LeaseHeld(leased.queue, leased.clock, 1, 1, "t");
    var req := FinalizeRequest(1, 1, "t", Queued, NO_RESULT, None);
    FinalizeNeedsVerdict(leased, req);
  }

  lemma StartKeepsInv(db: Db, problem: Problem)
    requires db == Empty(0).(
      users := map[1 := None], problems := map[1 := problem], statistics := map[1 := Statistics(0, 0)])
    ensures Inv(db)
  {
    EmptyKeepsInv(0);
    assert Members(db.submissions, SubmittedTo(1)) == {} && Members(db.submissions, AcceptedFor(1)) == {};
    forall p ensures StatisticExact(db.statistics, db.submissions, p) {}
  }

  lemma RecountedStatisticsExact(db: Db, id: SubmissionId, s: Submission)
    requires StatisticsExact(db.statistics, db.submissions) && id in db.submissions
    requires s.problemId == db.submissions[id].problemId
    ensures StatisticsExact(db.statistics[s.problemId := StatisticsOf(db.submissions[id := s], s.problemId)],
                            db.submissions[id := s])
  {
    var t := db.statistics[s.problemId := StatisticsOf(db.submissions[id := s], s.problemId)];
    var subs := db.submissions[id := s];
    forall p ensures StatisticExact(t, subs, p) {
      if p != s.problemId {
        assert StatisticExact(db.statistics, db.submissions, p);
        StatisticsAfterUpdate(db.submissions, id, s, p);
      }
    }
  }
}
