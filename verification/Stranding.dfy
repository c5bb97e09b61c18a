/**
 * What a finalize without verdict does for ever. Nothing in the request check rules it out, and it breaks the run
 * invariant, so nothing here assumes that invariant.
 */
module Stranding {
  import opened Common
  import opened SubmissionStatus
  import opened SubmissionTables
  import opened FiniteSets
  import opened Lifecycle
  import opened LifecycleInvariant
  import opened System

  /** Without verdict and without queue row, under an id that will not be given out again. */
  ghost predicate Stranded(db: Db, id: SubmissionId) {
    && id in db.submissions && !IsTerminal(db.submissions[id].status)
    && id !in db.queue && id < db.nextSubmissionId
  }

  /** The submission is still stranded, and exactly as it was. */
  ghost predicate StaysStranded(db: Db, d: Db, id: SubmissionId) {
    Stranded(d, id) && id in db.submissions && d.submissions[id] == db.submissions[id]
  }

  lemma CreateLeavesStranded(db: Db, c: CreateCommand, id: SubmissionId)
    requires Stranded(db, id) && CreateSubmission(db, c).Ok?
    ensures StaysStranded(db, CreateSubmission(db, c).value.0, id)
  {
  }

  lemma LeaseLeavesStranded(db: Db, duration: Time, choice: Option<SubmissionId>, token: Token, id: SubmissionId)
    requires Stranded(db, id) && (choice.Some? ==> Eligible(db, choice.value))
    requires LeaseSubmission(db, duration, choice, token).Ok?
    ensures StaysStranded(db, LeaseSubmission(db, duration, choice, token).value.0, id)
  {
  }

  lemma UpdateLeavesStranded(
    db: Db, x: SubmissionId, n: int, t: Token, to: Status, reason: Option<string>, id: SubmissionId)
    requires Stranded(db, id) && UpdateStatus(db, x, n, t, to, reason).Ok?
    ensures StaysStranded(db, UpdateStatus(db, x, n, t, to, reason).value, id)
  {
  }

  lemma RequeueLeavesStranded(db: Db, x: SubmissionId, n: int, t: Token, reason: Option<string>, id: SubmissionId)
    requires Stranded(db, id) && Requeue(db, x, n, t, reason).Ok?
    ensures StaysStranded(db, Requeue(db, x, n, t, reason).value, id)
  {
    UpdateLeavesStranded(db, x, n, t, Queued, reason, id);
  }

  lemma FinalizeLeavesStranded(db: Db, request: FinalizeRequest, id: SubmissionId)
    requires Stranded(db, id) && Finalize(db, request).Ok?
    ensures StaysStranded(db, Finalize(db, request).value, id)
  {
  }

  lemma RejudgeLeavesStranded(db: Db, x: SubmissionId, id: SubmissionId)
    requires Stranded(db, id) && RejudgeSubmission(db, x).Ok?
    ensures StaysStranded(db, RejudgeSubmission(db, x).value, id)
  {
  }

  /** A rejudge loop that commits has not met the submission, on which it would have failed. */
  lemma {:induction false} RejudgeEachLeavesStranded(db: Db, ids: seq<SubmissionId>, id: SubmissionId)
    requires Stranded(db, id) && RejudgeEach(db, ids).Ok?
    ensures StaysStranded(db, RejudgeEach(db, ids).value, id)
    decreases |ids|
  {
    if ids != [] {
      RejudgeLeavesStranded(db, ids[0], id);
      RejudgeEachLeavesStranded(RejudgeSubmission(db, ids[0]).value, ids[1..], id);
    }
  }

  lemma CatalogLeavesStranded(db: Db, ev: Event, id: SubmissionId)
    requires Stranded(db, id) && Enabled(db, ev) && Transaction(db, ev).Ok?
    requires ev.RegisterUser? || ev.SetBan? || ev.NewProblem? || ev.EditProblem?
    ensures StaysStranded(db, Transaction(db, ev).value, id)
  {
  }

  lemma CommitLeavesStranded(db: Db, ev: Event, id: SubmissionId)
    requires Stranded(db, id) && Enabled(db, ev)
    ensures StaysStranded(db, Commit(db, ev), id)
  {
    if Transaction(db, ev).Ok? {
      match ev
      case Submit(c) => CreateLeavesStranded(db, c, id);
      case Lease(duration, _, choice, token) => LeaseLeavesStranded(db, duration, choice, token, id);
      case Mark(x, n, t) => UpdateLeavesStranded(db, x, n, t, Judging, None, id);
      case GiveBack(x, n, t, reason) => RequeueLeavesStranded(db, x, n, t, reason, id);
      case Conclude(request) => FinalizeLeavesStranded(db, request, id);
      case RejudgeOne(x) => RejudgeLeavesStranded(db, x, id);
      case RejudgeAll(p) => RejudgeAllLeavesStranded(db, p, id);
      case _ => CatalogLeavesStranded(db, ev, id);
    }
  }

  lemma RejudgeAllLeavesStranded(db: Db, p: ProblemId, id: SubmissionId)
    requires Stranded(db, id) && RejudgeProblem(db, p).Ok?
    ensures StaysStranded(db, RejudgeProblem(db, p).value, id)
  {
    RejudgeEachLeavesStranded(db, SortDescending(WrongOrAccepted(db, p)), id);
  }

  lemma {:induction false} StrandedForever(db: Db, run: seq<Step>, id: SubmissionId)
    requires Stranded(db, id) && Legal(db, run)
    ensures StaysStranded(db, Final(db, run), id)
    decreases |run|
  {
    if run == [] {
    } else {
      CommitLeavesStranded(Tick(db, run[0].now), run[0].event, id);
      StrandedForever(After(db, run[0]), run[1..], id);
    }
  }

  /**
   * A finalize without verdict commits, and in every state any later run can reach the submission is still queued or
   * judging without a queue row: no lease can take it, none is held on it, and no rejudge brings it back.
   */
  lemma FinalizeWithoutVerdictStrands(db: Db, req: FinalizeRequest, run: seq<Step>, n: int, t: Token)
    requires Inv(db) && ResultInRange(req.result) && !IsTerminal(req.to)
    requires LeaseHeld(db.queue, db.clock, req.id, req.attemptNo, req.token)
    ensures Finalize(db, req).Ok?
    ensures Legal(Finalize(db, req).value, run) ==>
              var d := Final(Finalize(db, req).value, run);
              && req.id in d.submissions && d.submissions[req.id].status == req.to && req.id !in d.queue
              && !Eligible(d, req.id) && !LeaseHeld(d.queue, d.clock, req.id, n, t)
              && RejudgeSubmission(d, req.id) == Err(Conflict)
  {
    FinalizeExact(db, req);
    LiveMeansPending(db, req.id, req.attemptNo, req.token);
    assert SubmissionResolves(db, req.id, db.submissions[req.id]);
    var d := Finalize(db, req).value;
    assert Stranded(d, req.id);
    if Legal(d, run) {
      StrandedForever(d, run, req.id);
    }
  }
}
