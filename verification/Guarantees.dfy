/** What the run invariant gives a reader: exact counters, exact problem states, kept histories and pinned content. */
module Guarantees {
  import opened Common
  import opened SubmissionStatus
  import opened SubmissionTables
  import opened Recount
  import opened Counters
  import opened ProblemTables
  import opened TextCounts
  import opened ProblemOps
  import opened ProblemInvariant
  import opened Lifecycle
  import opened LifecycleInvariant
  import opened Rejudge
  import opened System

  // ---- counters ----

  lemma ReachableCounts(db: Db)
    requires Reachable(db)
    ensures SummariesExact(db.summaries, db.submissions) && StatisticsExact(db.statistics, db.submissions)
    ensures db.statistics.Keys == db.problems.Keys
  {
    ReachableHolds(db);
  }

  /** In every reachable state every counter row is the recount of the submissions table, and so passes its CHECKs. */
  lemma CountersAreRecounts(db: Db, k: SummaryKey, p: ProblemId)
    requires Reachable(db)
    ensures k in db.summaries <==>
            exists id :: id in db.submissions && db.submissions[id].userId == k.0 && db.submissions[id].problemId == k.1
    ensures k in db.summaries ==>
              && db.summaries[k] == Summary(
                   |set id | id in db.submissions
                             && db.submissions[id].userId == k.0 && db.submissions[id].problemId == k.1|,
                   |set id | id in db.submissions
                             && db.submissions[id].userId == k.0 && db.submissions[id].problemId == k.1
                             && db.submissions[id].status == Accepted|,
                   |set id | id in db.submissions
                             && db.submissions[id].userId == k.0 && db.submissions[id].problemId == k.1
                             && db.submissions[id].status in {WrongAnswer, TimeLimitExceeded, MemoryLimitExceeded,
                                                              RuntimeError, CompileError, BuildResourceExceeded,
                                                              OutputExceeded}|)
              && 0 < db.summaries[k].submissions && 0 <= db.summaries[k].accepted && 0 <= db.summaries[k].failed
              && db.summaries[k].accepted + db.summaries[k].failed <= db.summaries[k].submissions
    ensures p in db.statistics <==> p in db.problems
    ensures p in db.statistics ==>
              && db.statistics[p] == Statistics(
                   |set id | id in db.submissions && db.submissions[id].problemId == p|,
                   |set id | id in db.submissions && db.submissions[id].problemId == p
                             && db.submissions[id].status == Accepted|)
              && 0 <= db.statistics[p].acceptedCount <= db.statistics[p].submissionCount
  {
    ReachableCounts(db);
    AttemptsWrittenOut(db.submissions, k.0, k.1);
    SubmittedWrittenOut(db.submissions, p);
    assert SummaryExact(db.summaries, db.submissions, k) && StatisticExact(db.statistics, db.submissions, p);
    AttemptsExist(db.submissions, k);
    RoomForVerdict(db.submissions, k.0, k.1, {});
    AcceptedAreSubmitted(db.submissions, p);
  }

  lemma AttemptsExist(subs: Submissions, k: SummaryKey)
    ensures Count(subs, AttemptsOf(k.0, k.1)) > 0 <==>
            exists id :: id in subs && subs[id].userId == k.0 && subs[id].problemId == k.1
  {
    var b := AttemptsOf(k.0, k.1);
    PositiveCount(subs, b);
    if id :| id in subs && subs[id].userId == k.0 && subs[id].problemId == k.1 {
      assert InBucket(b, subs[id]);
    }
  }

  datatype ProblemState = Solved | Wrong

  /** `get_user_problem_state`. */
  function UserProblemState(db: Db, p: ProblemId, u: UserId): Result<Option<ProblemState>> {
    if p <= 0 || u <= 0 then Err(InvalidInput)
    else if (u, p) !in db.summaries then Ok(None)
    else if db.summaries[(u, p)].accepted > 0 then Ok(Some(Solved))
    else if db.summaries[(u, p)].failed > 0 then Ok(Some(Wrong))
    else Ok(None)
  }

  lemma AcceptedOrFailed(subs: Submissions, u: UserId, p: ProblemId)
    ensures Count(subs, AcceptedOf(u, p)) > 0 <==>
            exists id :: id in subs && subs[id].userId == u && subs[id].problemId == p && subs[id].status == Accepted
    ensures Count(subs, FailedOf(u, p)) > 0 <==>
            exists id ::
              && id in subs && subs[id].userId == u && subs[id].problemId == p
              && subs[id].status in {WrongAnswer, TimeLimitExceeded, MemoryLimitExceeded, RuntimeError,
                                     CompileError, BuildResourceExceeded, OutputExceeded}
  {
    PositiveCount(subs, AcceptedOf(u, p));
    PositiveCount(subs, FailedOf(u, p));
    forall id | id in subs
      ensures InBucket(AcceptedOf(u, p), subs[id]) <==>
              subs[id].userId == u && subs[id].problemId == p && subs[id].status == Accepted
      ensures InBucket(FailedOf(u, p), subs[id]) <==>
              && subs[id].userId == u && subs[id].problemId == p
              && subs[id].status in {WrongAnswer, TimeLimitExceeded, MemoryLimitExceeded, RuntimeError,
                                     CompileError, BuildResourceExceeded, OutputExceeded}
    {
    }
  }

  /** The problem state is read off the sizes of the two groups. */
  lemma StateFromCounts(db: Db, p: ProblemId, u: UserId)
    requires SummariesExact(db.summaries, db.submissions) && p > 0 && u > 0
    ensures UserProblemState(db, p, u) ==
            Ok(if Count(db.submissions, AcceptedOf(u, p)) > 0 then Some(Solved)
               else if Count(db.submissions, FailedOf(u, p)) > 0 then Some(Wrong)
               else None)
  {
    RoomForVerdict(db.submissions, u, p, {});
    assert SummaryExact(db.summaries, db.submissions, (u, p));
  }

  /**
   * "Solved" exactly when an accepted submission exists, "wrong" exactly when none is accepted and one has one of the
   * seven failed statuses; a user whose attempts are all queued, judging or lost to the infrastructure is told neither.
   */
  lemma UserProblemStateExact(db: Db, p: ProblemId, u: UserId)
    requires Reachable(db) && p > 0 && u > 0
    ensures UserProblemState(db, p, u).Ok?
    ensures UserProblemState(db, p, u) == Ok(Some(Solved)) <==>
            exists id ::
              && id in db.submissions && db.submissions[id].userId == u && db.submissions[id].problemId == p
              && db.submissions[id].status == Accepted
    ensures UserProblemState(db, p, u) == Ok(Some(Wrong)) <==>
            && (forall id |
                  id in db.submissions && db.submissions[id].userId == u && db.submissions[id].problemId == p ::
                  db.submissions[id].status != Accepted)
            && exists id ::
                 && id in db.submissions && db.submissions[id].userId == u && db.submissions[id].problemId == p
                 && db.submissions[id].status in {WrongAnswer, TimeLimitExceeded, MemoryLimitExceeded, RuntimeError,
                                                  CompileError, BuildResourceExceeded, OutputExceeded}
    ensures (forall id | id in db.submissions && db.submissions[id].userId == u && db.submissions[id].problemId == p ::
               db.submissions[id].status in {Queued, Judging, InfraFailure}) ==>
              UserProblemState(db, p, u) == Ok(None)
  {
    ReachableCounts(db);
    StateFromCounts(db, p, u);
    AcceptedOrFailed(db.submissions, u, p);
  }

  // ---- the queue ----

  /**
   * In every reachable state a submission has a queue row exactly while it is queued or judging, its result
   * columns are then NULL, and every lease in the queue has an attempt number and a drawn token.
   */
  lemma QueuedExactlyWhilePending(db: Db, id: SubmissionId)
    requires Reachable(db)
    ensures id in db.queue <==>
            id in db.submissions && (db.submissions[id].status.Queued? || db.submissions[id].status.Judging?)
    ensures id in db.queue ==>
              id in db.submissions && db.submissions[id].result == JudgeResult(None, None, None, None, None)
    ensures id in db.queue && db.queue[id].leasedUntil.Some? ==>
              && db.queue[id].attemptNo > 0 && db.queue[id].leaseToken.Some?
              && db.queue[id].leaseToken.value in db.issuedTokens
  {
    ReachableHolds(db);
    if id in db.queue {
      assert RowSound(db, db.queue[id]);
    }
  }

  /**
   * No pending submission is ever stuck: once the lease it may have has run out, and at once if it has none, it can
   * be leased again.
   */
  lemma PendingIsNeverStuck(db: Db, id: SubmissionId, now: Time)
    requires Reachable(db) && id in db.submissions && !IsTerminal(db.submissions[id].status)
    requires now >= db.clock
    ensures id in db.queue
    ensures db.queue[id].leasedUntil.None? || db.queue[id].leasedUntil.value <= now <==> Eligible(Tick(db, now), id)
  {
    ReachableHolds(db);
    assert id in db.queue && RowSound(db, db.queue[id]);
  }

  // ---- submissions over runs ----

  /** What no operation changes about a submission. */
  predicate SameSubmission(s: Submission, t: Submission) {
    t == s.(status := t.status, result := t.result)
  }

  /** The submission is still there, still the same, and its history was only appended to. */
  ghost predicate Carried(db: Db, d: Db, id: SubmissionId) {
    && id in db.submissions && id in d.submissions && SameSubmission(db.submissions[id], d.submissions[id])
    && id in db.history && id in d.history && db.history[id] <= d.history[id]
  }

  lemma CarriedTwice(db: Db, c: Db, d: Db, id: SubmissionId)
    requires Carried(db, c, id) && Carried(c, d, id)
    ensures Carried(db, d, id)
  {
  }

  predicate TouchesSubmissions(ev: Event) {
    !ev.RegisterUser? && !ev.SetBan? && !ev.NewProblem? && !ev.EditProblem? && !ev.Lease?
  }

  lemma OtherEventsCarry(db: Db, ev: Event)
    requires Enabled(db, ev) && !TouchesSubmissions(ev) && Transaction(db, ev).Ok?
    ensures Transaction(db, ev).value.submissions == db.submissions
    ensures Transaction(db, ev).value.history == db.history
  {
  }

  lemma CommitCarries(db: Db, ev: Event, id: SubmissionId)
    requires SystemInv(db) && Enabled(db, ev) && id in db.submissions
    ensures Carried(db, Commit(db, ev), id)
  {
    if Transaction(db, ev).Ok? {
      if !TouchesSubmissions(ev) {
        OtherEventsCarry(db, ev);
      } else if ev.Mark? || ev.GiveBack? || ev.Conclude? {
        JudgeEventsCarry(db, ev, id);
      } else if ev.Submit? {
        NextIdIsFresh(db);
        CreateCarries(db, ev.command, id);
      } else if ev.RejudgeOne? {
        RejudgeOneExact(db, ev.id);
        RejudgedCarries(db, ev.id, id);
      } else {
        RejudgeAllCarries(db, ev.p, id);
      }
    }
  }

  lemma JudgeEventsCarry(db: Db, ev: Event, id: SubmissionId)
    requires HistoriesChain(db) && Enabled(db, ev) && id in db.submissions
    requires (ev.Mark? || ev.GiveBack? || ev.Conclude?) && Transaction(db, ev).Ok?
    ensures Carried(db, Transaction(db, ev).value, id)
  {
    match ev
    case Mark(x, n, t) => UpdateCarries(db, x, n, t, Judging, None, id);
    case GiveBack(x, n, t, reason) => UpdateCarries(db, x, n, t, Queued, reason, id);
    case Conclude(request) => FinalizeCarries(db, request, id);
  }

  lemma CreateCarries(db: Db, c: CreateCommand, id: SubmissionId)
    requires HistoriesChain(db) && id in db.submissions && db.nextSubmissionId !in db.submissions
    requires CreateSubmission(db, c).Ok?
    ensures Carried(db, CreateSubmission(db, c).value.0, id)
  {
  }

  lemma UpdateCarries(db: Db, x: SubmissionId, n: int, t: Token, to: Status, reason: Option<string>, id: SubmissionId)
    requires HistoriesChain(db) && id in db.submissions && UpdateStatus(db, x, n, t, to, reason).Ok?
    ensures Carried(db, UpdateStatus(db, x, n, t, to, reason).value, id)
  {
  }

  lemma FinalizeCarries(db: Db, request: FinalizeRequest, id: SubmissionId)
    requires HistoriesChain(db) && id in db.submissions && Finalize(db, request).Ok?
    ensures Carried(db, Finalize(db, request).value, id)
  {
  }

  lemma RejudgedCarries(db: Db, x: SubmissionId, id: SubmissionId)
    requires HistoriesChain(db) && id in db.submissions && x in db.submissions
    ensures Carried(db, Rejudged(db, x), id)
  {
  }

  lemma RejudgeAllCarries(db: Db, p: ProblemId, id: SubmissionId)
    requires Inv(db) && id in db.submissions && RejudgeProblem(db, p).Ok?
    ensures Carried(db, RejudgeProblem(db, p).value, id)
  {
    RejudgeProblemExact(db, p);
    var d := RejudgeProblem(db, p).value;
    if id in WrongOrAccepted(db, p) { assert RowRejudged(db, d, id); } else { assert RowKept(db, d, id); }
  }

  /**
   * Over any run a submission keeps its user, problem, pinned version and source, and its history stays one
   * unbroken chain that only grows and ends at its status.
   */
  lemma {:induction false} HistoryGrows(db: Db, run: seq<Step>, id: SubmissionId)
    requires SystemInv(db) && Legal(db, run) && id in db.submissions
    ensures Carried(db, Final(db, run), id)
    ensures Chain(Final(db, run).history[id], Final(db, run).submissions[id].status)
    decreases |run|
  {
    if run == [] {
    } else {
      TickHolds(db, run[0].now);
      CommitCarries(Tick(db, run[0].now), run[0].event, id);
      StepHolds(db, run[0]);
      assert Carried(db, After(db, run[0]), id);
      HistoryGrows(After(db, run[0]), run[1..], id);
      CarriedTwice(db, After(db, run[0]), Final(db, run), id);
    }
  }

  // ---- published versions over runs ----

  ghost predicate SnapshotsCarried(db: Db, d: Db, p: ProblemId) {
    p in db.problems && p in d.problems && KeepsSnapshots(db.problems[p], d.problems[p])
  }

  /** Only the two catalog events write the problem tables. */
  lemma ProblemsUntouched(db: Db, ev: Event)
    requires Inv(db) && Enabled(db, ev) && Transaction(db, ev).Ok? && !ev.NewProblem? && !ev.EditProblem?
    ensures Transaction(db, ev).value.problems == db.problems
  {
    match ev
    case Submit(c) => CreateWrites(db, c);
    case GiveBack(x, n, t, reason) => RequeueWrites(db, x, n, t, reason);
    case Conclude(request) => FinalizeWrites(db, request);
    case RejudgeOne(x) => RejudgeOneExact(db, x);
    case RejudgeAll(q) => RejudgeProblemExact(db, q);
    case _ =>
  }

  lemma EditCarriesSnapshots(db: Db, q: ProblemId, e: ProblemEdit, p: ProblemId)
    requires CatalogSound(db) && p in db.problems && EditOne(db, q, e).Ok?
    ensures SnapshotsCarried(db, EditOne(db, q, e).value, p)
  {
    EditOneWrites(db, q, e);
    assert ProblemInv(db.problems[q]);
    EditSound(db.problems[q], e);
    ReplacedCarriesSnapshots(db, EditOne(db, q, e).value, q, ApplyEdit(db.problems[q], e).value, p);
  }

  lemma ReplacedCarriesSnapshots(db: Db, d: Db, q: ProblemId, edited: Problem, p: ProblemId)
    requires p in db.problems && q in db.problems && d.problems == db.problems[q := edited]
    requires KeepsSnapshots(db.problems[q], edited)
    ensures SnapshotsCarried(db, d, p)
  {
  }

  lemma NewProblemCarriesSnapshots(db: Db, q: ProblemId, title: string, p: ProblemId)
    requires p in db.problems && q !in db.problems && AddProblem(db, q, title).Ok?
    ensures SnapshotsCarried(db, AddProblem(db, q, title).value, p)
  {
  }

  lemma SameProblemsCarrySnapshots(db: Db, d: Db, p: ProblemId)
    requires p in db.problems && d.problems == db.problems
    ensures SnapshotsCarried(db, d, p)
  {
  }

  lemma CommitCarriesSnapshots(db: Db, ev: Event, p: ProblemId)
    requires SystemInv(db) && Enabled(db, ev) && p in db.problems
    ensures SnapshotsCarried(db, Commit(db, ev), p)
  {
    if Transaction(db, ev).Ok? {
      if ev.EditProblem? {
        EditCarriesSnapshots(db, ev.p, ev.edit, p);
      } else if ev.NewProblem? {
        NewProblemCarriesSnapshots(db, ev.p, ev.title, p);
      } else {
        ProblemsUntouched(db, ev);
        SameProblemsCarrySnapshots(db, Commit(db, ev), p);
      }
    } else {
      SameProblemsCarrySnapshots(db, Commit(db, ev), p);
    }
  }

  lemma {:induction false} SnapshotsKept(db: Db, run: seq<Step>, p: ProblemId)
    requires SystemInv(db) && Legal(db, run) && p in db.problems
    ensures SnapshotsCarried(db, Final(db, run), p)
    decreases |run|
  {
    if run == [] {
    } else {
      TickHolds(db, run[0].now);
      CommitCarriesSnapshots(Tick(db, run[0].now), run[0].event, p);
      StepHolds(db, run[0]);
      SnapshotsKept(After(db, run[0]), run[1..], p);
      SnapshotsChain(db.problems[p], After(db, run[0]).problems[p], Final(db, run).problems[p]);
    }
  }

  /**
   * In every reachable state every version of a problem from 1 to the current one can be fetched, the current one
   * is the live content under positive limits, the positions of its testcases and samples are 1..n and counted
   * exactly, and every testcase row caches the sizes of its own input and output.
   */
  lemma VersionsPublished(db: Db, p: ProblemId, v: int)
    requires Reachable(db) && p in db.problems
    ensures 1 <= v <= db.problems[p].version ==> FetchManifest(db.problems[p], v).Ok?
    ensures ContentSound(db.problems[p])
    ensures
      var limits := db.problems[p].limits;
      limits.Some? && limits.value.memoryMb > 0 && limits.value.timeMs > 0
    ensures FetchManifest(db.problems[p], db.problems[p].version) == Ok(Live(db.problems[p]))
    ensures forall id | id in db.problems[p].testcases ::
              var row := db.problems[p].testcases[id].data;
              && row.inputChars == |row.content.input| && row.outputChars == |row.content.output|
              && row.inputLines == (if row.content.input == "" then 0 else |Lines(row.content.input)|)
              && row.outputLines == (if row.content.output == "" then 0 else |Lines(row.content.output)|)
  {
    ReachableHolds(db);
    assert ProblemInv(db.problems[p]);
    if 1 <= v <= db.problems[p].version {
      FetchComplete(db.problems[p], v);
    }
    forall id | id in db.problems[p].testcases
      ensures
        var row := db.problems[p].testcases[id].data;
        && row.inputChars == |row.content.input| && row.outputChars == |row.content.output|
        && row.inputLines == (if row.content.input == "" then 0 else |Lines(row.content.input)|)
        && row.outputLines == (if row.content.output == "" then 0 else |Lines(row.content.output)|)
    {
      MeasuredCounts(db.problems[p].testcases[id].data.content);
    }
  }

  /** The judge's fetch for a submission: the manifest of its pinned problem version. */
  ghost function FetchPinned(db: Db, id: SubmissionId): Result<Manifest>
    requires id in db.submissions && db.submissions[id].problemId in db.problems
  {
    FetchManifest(db.problems[db.submissions[id].problemId], db.submissions[id].problemVersion)
  }

  /** In every reachable state every submission's pin resolves: never missing, never inconsistent. */
  lemma PinResolves(db: Db, id: SubmissionId)
    requires Reachable(db) && id in db.submissions
    ensures db.submissions[id].problemId in db.problems && FetchPinned(db, id).Ok?
  {
    ReachableHolds(db);
    assert PinExists(db, db.submissions[id]);
    var p := db.problems[db.submissions[id].problemId];
    assert ProblemInv(p);
    FetchComplete(p, db.submissions[id].problemVersion);
  }

  /**
   * Whatever happens after a submission is created, problem edits and rejudges included, its pin fetches
   * exactly the limits and testcases that were live at its creation.
   */
  lemma PinnedContent(db: Db, c: CreateCommand, run: seq<Step>)
    requires SystemInv(db) && CreateSubmission(db, c).Ok?
    requires Legal(CreateSubmission(db, c).value.0, run)
    ensures c.problemId in db.problems && ProblemInv(db.problems[c.problemId])
    ensures
      var id, d := CreateSubmission(db, c).value.1.id, Final(CreateSubmission(db, c).value.0, run);
      && id in d.submissions && d.submissions[id].problemId == c.problemId && c.problemId in d.problems
      && FetchPinned(d, id) == Ok(Live(db.problems[c.problemId]))
  {
    var created := CreateSubmission(db, c).value.0;
    CreateHolds(db, c);
    CreateWrites(db, c);
    var id := CreateSubmission(db, c).value.1.id;
    HistoryGrows(created, run, id);
    SnapshotsKept(created, run, c.problemId);
  }
}
