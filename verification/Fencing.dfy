/** Lease fencing over whole runs, and the balance of enqueues and finalizes. */
module Fencing {
  import opened Common
  import opened SubmissionStatus
  import opened SubmissionTables
  import opened Lifecycle
  import opened LifecycleInvariant
  import opened Rejudge
  import opened System

  // ---- one holder at a time ----

  predicate Holds(db: Db, id: SubmissionId, attemptNo: int, token: Token) {
    LeaseHeld(db.queue, db.clock, id, attemptNo, token)
  }

  /** At any time at most one (attempt, token) pair can act on a submission. */
  lemma OneHolder(db: Db, id: SubmissionId, n1: int, t1: Token, n2: int, t2: Token)
    requires Holds(db, id, n1, t1) && Holds(db, id, n2, t2)
    ensures n1 == n2 && t1 == t2
  {
  }

  /** Without the lease, every leased operation is a conflict, or invalid if it names none, and changes nothing. */
  lemma StaleConflicts(db: Db, id: SubmissionId, n: int, t: Token, reason: Option<string>, request: FinalizeRequest)
    requires !Holds(db, id, n, t) || id <= 0 || n <= 0 || t == ""
    requires request.id == id && request.attemptNo == n && request.token == t
    ensures
      var failure := if id <= 0 || n <= 0 || t == "" then InvalidReference else Conflict;
      && MarkJudging(db, id, n, t) == Err(failure) && Requeue(db, id, n, t, reason) == Err(failure)
      && ReleaseLease(db, id, n, t) == Err(failure) && Finalize(db, request) == Err(failure)
    ensures Enabled(db, Conclude(request)) ==> Commit(db, Conclude(request)) == db
    ensures Commit(db, Mark(id, n, t)) == db && Commit(db, GiveBack(id, n, t, reason)) == db
  {
  }

  lemma HolderMarks(db: Db, id: SubmissionId, n: int, t: Token)
    requires Inv(db) && Holds(db, id, n, t)
    ensures id in db.submissions && id in db.history
    ensures MarkJudging(db, id, n, t) == Ok(db.(
              submissions := db.submissions[id := db.submissions[id].(status := Judging)],
              history := db.history[id := db.history[id] +
                [HistoryEntry(Some(db.submissions[id].status), Judging, None)]]))
  {
    UpdateStatusExact(db, id, n, t, Judging, None);
    MarkWrites(db, id, n, t);
  }

  lemma HolderRequeues(db: Db, id: SubmissionId, n: int, t: Token, reason: Option<string>)
    requires Inv(db) && Holds(db, id, n, t)
    ensures id in db.submissions && id in db.history
    ensures Requeue(db, id, n, t, reason) == Ok(db.(
              submissions := db.submissions[id := db.submissions[id].(status := Status.Queued)],
              history := db.history[id := db.history[id] +
                [HistoryEntry(Some(db.submissions[id].status), Status.Queued, reason)]],
              queue := db.queue[id := db.queue[id].(availableAt := db.clock, leasedUntil := None, leaseToken := None)]))
  {
    RequeueExact(db, id, n, t, reason);
    RequeueWrites(db, id, n, t, reason);
  }

  lemma HolderFinalizes(db: Db, request: FinalizeRequest)
    requires Inv(db) && Holds(db, request.id, request.attemptNo, request.token)
    ensures
      (var r := request.result;
       && (r.score.Some? ==> 0 <= r.score.value <= 100)
       && (r.elapsedMs.Some? ==> 0 <= r.elapsedMs.value)
       && (r.maxRssKb.Some? ==> 0 <= r.maxRssKb.value)) <==> Finalize(db, request).Ok?
    ensures Finalize(db, request).Err? ==> Finalize(db, request) == Err(ValidationError)
  {
    if ResultInRange(request.result) {
      FinalizeExact(db, request);
    } else {
      LiveMeansPending(db, request.id, request.attemptNo, request.token);
    }
  }

  /**
   * With the lease, marking and requeueing always commit, and finalize does exactly when the score is 0..100 and the
   * measurements are not negative. Each writes its own status and adds exactly one history row, with the status it
   * found and its own reason; marking leaves the queue alone, requeueing frees the row and finalize deletes it.
   */
  lemma HolderSucceeds(db: Db, id: SubmissionId, n: int, t: Token, reason: Option<string>, request: FinalizeRequest)
    requires Inv(db) && id in db.queue
    requires db.queue[id].attemptNo == n && db.queue[id].leaseToken == Some(t)
    requires db.queue[id].leasedUntil.Some? && db.queue[id].leasedUntil.value > db.clock
    requires request.id == id && request.attemptNo == n && request.token == t
    ensures id in db.submissions && id in db.history
    ensures MarkJudging(db, id, n, t) == Ok(db.(
              submissions := db.submissions[id := db.submissions[id].(status := Judging)],
              history := db.history[id := db.history[id] +
                [HistoryEntry(Some(db.submissions[id].status), Judging, None)]]))
    ensures Requeue(db, id, n, t, reason) == Ok(db.(
              submissions := db.submissions[id := db.submissions[id].(status := Status.Queued)],
              history := db.history[id := db.history[id] +
                [HistoryEntry(Some(db.submissions[id].status), Status.Queued, reason)]],
              queue := db.queue[id := db.queue[id].(availableAt := db.clock, leasedUntil := None, leaseToken := None)]))
    ensures
      (var r := request.result;
       && (r.score.Some? ==> 0 <= r.score.value <= 100)
       && (r.elapsedMs.Some? ==> 0 <= r.elapsedMs.value)
       && (r.maxRssKb.Some? ==> 0 <= r.maxRssKb.value)) <==> Finalize(db, request).Ok?
    ensures Finalize(db, request).Err? ==> Finalize(db, request) == Err(ValidationError)
    ensures Finalize(db, request).Ok? ==>
              var d := Finalize(db, request).value;
              && d.submissions == db.submissions[id :=
                   db.submissions[id].(status := request.to, result := request.result)]
              && d.history == db.history[id := db.history[id] +
                   [HistoryEntry(Some(db.submissions[id].status), request.to, request.reason)]]
              && d.queue == db.queue - {id}
  {
    HolderMarks(db, id, n, t);
    HolderRequeues(db, id, n, t, reason);
    HolderFinalizes(db, request);
    if Finalize(db, request).Ok? {
      FinalizeWrites(db, request);
    }
  }

  // ---- a dead lease stays dead ----

  /** The token was drawn at some time, and its lease can no longer act. */
  ghost predicate Dead(db: Db, id: SubmissionId, n: int, t: Token) {
    t in db.issuedTokens && !Holds(db, id, n, t)
  }

  /** A commit gives a submission's queue row a lease it did not have only by drawing a fresh token. */
  ghost predicate LeasesOnlyFresh(db: Db, d: Db) {
    && db.issuedTokens <= d.issuedTokens && d.clock >= db.clock
    && forall id | id in d.queue && d.queue[id].leaseToken.Some? ::
         || d.queue[id].leaseToken.value !in db.issuedTokens
         || (id in db.queue && d.queue[id] == db.queue[id])
  }

  lemma FreshKeepsDead(db: Db, d: Db, id: SubmissionId, n: int, t: Token)
    requires LeasesOnlyFresh(db, d) && Dead(db, id, n, t)
    ensures Dead(d, id, n, t)
  {
  }

  lemma RejudgeAllFresh(db: Db, d: Db, ids: set<SubmissionId>)
    requires RejudgedAll(db, d, ids)
    ensures LeasesOnlyFresh(db, d)
  {
    forall id | id in ids ensures id in d.queue && d.queue[id].leaseToken.None? {
      assert RowRejudged(db, d, id);
    }
    forall id | id in d.queue && d.queue[id].leaseToken.Some? ensures id in db.queue && d.queue[id] == db.queue[id] {
      assert RowKept(db, d, id);
    }
  }

  /** What a committed event leaves in the queue. */
  function QueueAfter(db: Db, ev: Event): Queue
    requires ev.Lease? && ev.choice.Some? ==> ev.choice.value in db.queue
  {
    match ev
    case Submit(_) => db.queue[db.nextSubmissionId := NewQueueRow(NORMAL_PRIORITY, db.clock)]
    case Lease(duration, _, choice, token) =>
      if choice.None? then db.queue
      else
        var row := db.queue[choice.value];
        db.queue[choice.value := row.(
          leasedUntil := Some(db.clock + duration), attemptNo := row.attemptNo + 1, leaseToken := Some(token))]
    case GiveBack(id, _, _, _) =>
      if id !in db.queue then db.queue
      else db.queue[id := db.queue[id].(availableAt := db.clock, leasedUntil := None, leaseToken := None)]
    case Conclude(request) => db.queue - {request.id}
    case RejudgeOne(id) => db.queue[id := NewQueueRow(REJUDGE_PRIORITY, db.clock)]
    case _ => db.queue
  }

  lemma SubmitQueue(db: Db, c: CreateCommand)
    requires CreateSubmission(db, c).Ok?
    ensures
      var d := CreateSubmission(db, c).value.0;
      && d.queue == db.queue[db.nextSubmissionId := NewQueueRow(NORMAL_PRIORITY, db.clock)]
      && d.issuedTokens == db.issuedTokens && d.clock == db.clock
      && CreateSubmission(db, c).value.1.id == db.nextSubmissionId
  {
  }

  lemma LeasedQueue(db: Db, id: SubmissionId, n: int, t: Token, to: Status, reason: Option<string>)
    requires UpdateStatus(db, id, n, t, to, reason).Ok?
    ensures
      var d := UpdateStatus(db, id, n, t, to, reason).value;
      d.queue == db.queue && d.issuedTokens == db.issuedTokens && d.clock == db.clock
  {
  }

  lemma RejudgeQueue(db: Db, id: SubmissionId)
    requires RejudgeSubmission(db, id).Ok?
    ensures
      var d := RejudgeSubmission(db, id).value;
      && d.queue == db.queue[id := NewQueueRow(REJUDGE_PRIORITY, db.clock)] && id !in db.queue
      && d.issuedTokens == db.issuedTokens && d.clock == db.clock
  {
  }

  lemma RequeueQueue(db: Db, id: SubmissionId, n: int, t: Token, reason: Option<string>)
    requires Requeue(db, id, n, t, reason).Ok?
    ensures
      var d := Requeue(db, id, n, t, reason).value;
      && id in db.queue && Holds(db, id, n, t)
      && d.queue == db.queue[id := db.queue[id].(availableAt := db.clock, leasedUntil := None, leaseToken := None)]
      && d.issuedTokens == db.issuedTokens && d.clock == db.clock
  {
    LeasedQueue(db, id, n, t, Status.Queued, reason);
  }

  lemma FinalizeQueue(db: Db, request: FinalizeRequest)
    requires Finalize(db, request).Ok?
    ensures
      var d := Finalize(db, request).value;
      && Holds(db, request.id, request.attemptNo, request.token) && d.queue == db.queue - {request.id}
      && d.issuedTokens == db.issuedTokens && d.clock == db.clock
  {
  }

  lemma LeaseQueue(db: Db, ev: Event)
    requires Enabled(db, ev) && ev.Lease? && Transaction(db, ev).Ok?
    ensures ev.choice.Some? ==> ev.choice.value in db.queue && ev.token !in db.issuedTokens
    ensures
      var d := Transaction(db, ev).value;
      && d.queue == QueueAfter(db, ev) && d.clock == db.clock
      && d.issuedTokens == db.issuedTokens + (if ev.choice.Some? then {ev.token} else {})
  {
  }

  lemma CatalogQueue(db: Db, ev: Event)
    requires Enabled(db, ev) && (ev.RegisterUser? || ev.SetBan? || ev.NewProblem? || ev.EditProblem?)
    requires Transaction(db, ev).Ok?
    ensures
      var d := Transaction(db, ev).value;
      d.queue == db.queue && d.issuedTokens == db.issuedTokens && d.clock == db.clock
  {
  }

  /** Every committed event but a problem rejudge writes at most one queue row, as described. */
  lemma CommittedQueue(db: Db, ev: Event)
    requires Enabled(db, ev) && !ev.RejudgeAll? && Transaction(db, ev).Ok?
    ensures ev.Lease? && ev.choice.Some? ==> ev.choice.value in db.queue && ev.token !in db.issuedTokens
    ensures
      var d := Transaction(db, ev).value;
      && d.queue == QueueAfter(db, ev) && d.clock == db.clock
      && d.issuedTokens == db.issuedTokens + (if ev.Lease? && ev.choice.Some? then {ev.token} else {})
  {
    match ev
    case Submit(c) => SubmitQueue(db, c);
    case Lease(_, _, _, _) => LeaseQueue(db, ev);
    case Mark(id, n, t) => LeasedQueue(db, id, n, t, Judging, None);
    case GiveBack(id, n, t, reason) => RequeueQueue(db, id, n, t, reason);
    case Conclude(request) => FinalizeQueue(db, request);
    case RejudgeOne(id) => RejudgeQueue(db, id);
    case _ => CatalogQueue(db, ev);
  }

  lemma QueueAfterFresh(db: Db, d: Db, ev: Event)
    requires ev.Lease? && ev.choice.Some? ==> ev.choice.value in db.queue && ev.token !in db.issuedTokens
    requires d.queue == QueueAfter(db, ev) && d.clock == db.clock && db.issuedTokens <= d.issuedTokens
    ensures LeasesOnlyFresh(db, d)
  {
  }

  lemma RejudgeProblemFresh(db: Db, p: ProblemId)
    requires Inv(db) && p > 0
    ensures RejudgeProblem(db, p).Ok? && LeasesOnlyFresh(db, RejudgeProblem(db, p).value)
  {
    RejudgeProblemExact(db, p);
    RejudgeAllFresh(db, RejudgeProblem(db, p).value, WrongOrAccepted(db, p));
  }

  lemma CommitLeasesOnlyFresh(db: Db, ev: Event)
    requires Inv(db) && Enabled(db, ev)
    ensures LeasesOnlyFresh(db, Commit(db, ev))
  {
    if ev.RejudgeAll? {
      if ev.p > 0 { RejudgeProblemFresh(db, ev.p); }
    } else if Transaction(db, ev).Ok? {
      CommittedQueue(db, ev);
      QueueAfterFresh(db, Commit(db, ev), ev);
    }
  }

  /**
   * A lease that cannot act never acts again, in any run: whatever expired, released, finalized or superseded
   * it, and although a rejudge may later recreate the row with the attempt number restarted.
   */
  lemma {:induction false} DeadForever(db: Db, run: seq<Step>, id: SubmissionId, n: int, t: Token)
    requires SystemInv(db) && Legal(db, run) && Dead(db, id, n, t)
    ensures Dead(Final(db, run), id, n, t)
    decreases |run|
  {
    if run == [] {
    } else {
      var ticked := Tick(db, run[0].now);
      TickHolds(db, run[0].now);
      assert LeasesOnlyFresh(db, ticked);
      FreshKeepsDead(db, ticked, id, n, t);
      CommitLeasesOnlyFresh(ticked, run[0].event);
      FreshKeepsDead(ticked, After(db, run[0]), id, n, t);
      StepHolds(db, run[0]);
      DeadForever(After(db, run[0]), run[1..], id, n, t);
    }
  }

  /**
   * Whatever made a lease unable to act, in every later state of every run each leased operation that uses it is a
   * conflict and changes nothing.
   */
  lemma DeadLeaseConflicts(
    db: Db, run: seq<Step>, id: SubmissionId, n: int, t: Token, reason: Option<string>, request: FinalizeRequest)
    requires SystemInv(db) && Legal(db, run) && Dead(db, id, n, t) && ValidLeaseReference(id, n, t)
    requires request.id == id && request.attemptNo == n && request.token == t
    ensures
      var d := Final(db, run);
      && MarkJudging(d, id, n, t) == Err(Conflict) && Requeue(d, id, n, t, reason) == Err(Conflict)
      && ReleaseLease(d, id, n, t) == Err(Conflict) && Finalize(d, request) == Err(Conflict)
      && Commit(d, Mark(id, n, t)) == d && Commit(d, GiveBack(id, n, t, reason)) == d
      && (Enabled(d, Conclude(request)) ==> Commit(d, Conclude(request)) == d)
  {
    DeadForever(db, run, id, n, t);
    StaleConflicts(Final(db, run), id, n, t, reason, request);
  }

  // ---- what kills a lease ----

  lemma HeldIsIssued(db: Db, id: SubmissionId, n: int, t: Token)
    requires QueueMatches(db) && Holds(db, id, n, t)
    ensures t in db.issuedTokens
  {
    assert RowSound(db, db.queue[id]);
  }

  /** Finalizing ends the lease used. */
  lemma FinalizeKills(db: Db, request: FinalizeRequest)
    requires QueueMatches(db) && Finalize(db, request).Ok?
    ensures Dead(Finalize(db, request).value, request.id, request.attemptNo, request.token)
  {
    FinalizeQueue(db, request);
    HeldIsIssued(db, request.id, request.attemptNo, request.token);
  }

  /** Giving a submission back ends the lease used. */
  lemma RequeueKills(db: Db, id: SubmissionId, n: int, t: Token, reason: Option<string>)
    requires QueueMatches(db) && Requeue(db, id, n, t, reason).Ok?
    ensures Dead(Requeue(db, id, n, t, reason).value, id, n, t)
  {
    RequeueQueue(db, id, n, t, reason);
    HeldIsIssued(db, id, n, t);
  }

  /** Reaching its deadline ends a lease. */
  lemma ExpiryKills(db: Db, now: Time, id: SubmissionId, n: int, t: Token)
    requires QueueMatches(db) && Holds(db, id, n, t) && now >= db.queue[id].leasedUntil.value
    ensures Dead(Tick(db, now), id, n, t)
  {
    HeldIsIssued(db, id, n, t);
  }

  /** Leasing a row ends whatever lease was drawn for it before, and starts the one returned. */
  lemma LeaseSupersedes(db: Db, ev: Event, id: SubmissionId, n: int, t: Token)
    requires Enabled(db, ev) && ev.Lease? && ev.choice == Some(id) && ev.duration > 0
    requires t in db.issuedTokens
    ensures LeaseSubmission(db, ev.duration, ev.choice, ev.token).Ok?
    ensures Dead(Commit(db, ev), id, n, t)
    ensures
      var leased := LeaseSubmission(db, ev.duration, ev.choice, ev.token).value.1;
      && leased.Some? && leased.value.id == id && leased.value.attemptNo == db.queue[id].attemptNo + 1
      && Holds(Commit(db, ev), id, leased.value.attemptNo, leased.value.token)
  {
  }

  /** A lease hands out the submission with the version it pins, until the deadline it stores, and keeps its place. */
  lemma LeaseHandsOut(db: Db, duration: Time, id: SubmissionId, token: Token)
    requires Eligible(db, id) && duration > 0
    ensures LeaseSubmission(db, duration, Some(id), token).Ok?
    ensures
      var (d, leased) := LeaseSubmission(db, duration, Some(id), token).value;
      && leased == Some(LeasedSubmission(id, db.submissions[id].problemId, db.submissions[id].problemVersion,
                                         db.submissions[id].language, db.submissions[id].sourceCode,
                                         db.queue[id].attemptNo + 1, token, db.clock + duration))
      && d.submissions == db.submissions && d.history == db.history && d.summaries == db.summaries
      && d.statistics == db.statistics && d.queue.Keys == db.queue.Keys
      && d.queue[id].priority == db.queue[id].priority && d.queue[id].createdAt == db.queue[id].createdAt
      && d.queue[id].leasedUntil == Some(leased.value.leasedUntil)
      && (forall x | x in db.queue && x != id :: d.queue[x] == db.queue[x])
  {
  }

  /** A repeated finalize is a conflict in every later state. */
  lemma FinalizeOnce(db: Db, request: FinalizeRequest, run: seq<Step>)
    requires SystemInv(db) && Finalize(db, request).Ok? && IsTerminal(request.to)
    requires Legal(Finalize(db, request).value, run)
    ensures Finalize(Final(Finalize(db, request).value, run), request) == Err(Conflict)
  {
    FinalizeHolds(db, request);
    FinalizeKills(db, request);
    DeadForever(Finalize(db, request).value, run, request.id, request.attemptNo, request.token);
  }

  // ---- enqueues and finalizes balance ----

  function Queued(db: Db, id: SubmissionId): nat {
    if id in db.queue then 1 else 0
  }

  /** How often this event, if it commits, enqueues `id`. */
  ghost function EnqueuesBy(db: Db, ev: Event, id: SubmissionId): nat
    requires Enabled(db, ev)
  {
    if Transaction(db, ev).Ok? && Enqueued(db, ev, id) then 1 else 0
  }

  predicate Enqueued(db: Db, ev: Event, id: SubmissionId) {
    match ev
    case Submit(_) => id == db.nextSubmissionId
    case RejudgeOne(x) => x == id
    case RejudgeAll(p) => id in WrongOrAccepted(db, p)
    case _ => false
  }

  /** How often this event, if it commits, finalizes `id`. */
  ghost function FinalizesBy(db: Db, ev: Event, id: SubmissionId): nat
    requires Enabled(db, ev)
  {
    if Transaction(db, ev).Ok? && ev.Conclude? && ev.request.id == id then 1 else 0
  }

  ghost function Enqueues(db: Db, run: seq<Step>, id: SubmissionId): nat
    requires Legal(db, run)
    decreases |run|
  {
    if run == [] then 0
    else EnqueuesBy(Tick(db, run[0].now), run[0].event, id) + Enqueues(After(db, run[0]), run[1..], id)
  }

  ghost function Finalizes(db: Db, run: seq<Step>, id: SubmissionId): nat
    requires Legal(db, run)
    decreases |run|
  {
    if run == [] then 0
    else FinalizesBy(Tick(db, run[0].now), run[0].event, id) + Finalizes(After(db, run[0]), run[1..], id)
  }

  lemma RejudgeAllBalance(db: Db, p: ProblemId, id: SubmissionId)
    requires Inv(db) && p > 0
    ensures RejudgeProblem(db, p).Ok?
    ensures Queued(RejudgeProblem(db, p).value, id)
         == Queued(db, id) + (if id in WrongOrAccepted(db, p) then 1 else 0)
  {
    RejudgeProblemExact(db, p);
    var d := RejudgeProblem(db, p).value;
    if id in WrongOrAccepted(db, p) { assert RowRejudged(db, d, id); } else { assert RowKept(db, d, id); }
  }

  lemma QueueAfterBalance(db: Db, ev: Event, id: SubmissionId)
    requires !ev.RejudgeAll?
    requires ev.Submit? ==> db.nextSubmissionId !in db.queue
    requires ev.RejudgeOne? ==> ev.id !in db.queue
    requires ev.Conclude? ==> ev.request.id in db.queue
    requires ev.Lease? && ev.choice.Some? ==> ev.choice.value in db.queue
    ensures (if id in QueueAfter(db, ev) then 1 else 0)
         == Queued(db, id) + (if Enqueued(db, ev, id) then 1 else 0)
            - (if ev.Conclude? && ev.request.id == id then 1 else 0)
  {
  }

  /** What the balance of one event rests on: rows are inserted where there was none and deleted where there was one. */
  lemma EventRows(db: Db, ev: Event)
    requires Inv(db) && Enabled(db, ev) && Transaction(db, ev).Ok?
    ensures ev.Submit? ==> db.nextSubmissionId !in db.queue
    ensures ev.RejudgeOne? ==> ev.id !in db.queue
    ensures ev.Conclude? ==> ev.request.id in db.queue
  {
    if ev.Submit? {
      NextIdIsFresh(db);
    } else if ev.RejudgeOne? {
      RejudgeQueue(db, ev.id);
    } else if ev.Conclude? {
      FinalizeQueue(db, ev.request);
    }
  }

  lemma CommitBalance(db: Db, ev: Event, id: SubmissionId)
    requires SystemInv(db) && Enabled(db, ev)
    ensures Queued(Commit(db, ev), id) == Queued(db, id) + EnqueuesBy(db, ev, id) - FinalizesBy(db, ev, id)
  {
    if ev.RejudgeAll? {
      if ev.p > 0 { RejudgeAllBalance(db, ev.p, id); }
    } else if Transaction(db, ev).Ok? {
      EventRows(db, ev);
      CommittedQueue(db, ev);
      QueueAfterBalance(db, ev, id);
    }
  }

  /**
   * Over any run, the committed finalizes of a submission and its row still in the queue account for exactly
   * its enqueues: each enqueue is ended by at most one finalize, and none is lost.
   */
  lemma {:induction false} EnqueuesBalance(db: Db, run: seq<Step>, id: SubmissionId)
    requires SystemInv(db) && Legal(db, run)
    ensures Finalizes(db, run, id) + Queued(Final(db, run), id) == Enqueues(db, run, id) + Queued(db, id)
    decreases |run|
  {
    if run == [] {
    } else {
      TickHolds(db, run[0].now);
      CommitBalance(Tick(db, run[0].now), run[0].event, id);
      StepHolds(db, run[0]);
      EnqueuesBalance(After(db, run[0]), run[1..], id);
    }
  }
}
