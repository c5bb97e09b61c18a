/** Which of two waiting submissions a lease may take, over whole runs, by what put each of them into the queue. */
module EnqueueOrder {
  import opened Common
  import opened SubmissionTables
  import opened Lifecycle
  import opened LifecycleInvariant
  import opened Rejudge
  import opened LeaseOrder
  import opened System
  import opened Fencing

  /** What enqueued a submission, and when. */
  datatype Arrival = Created(at: Time) | SentBack(at: Time)

  /** The arrival this event makes of `id`, if it commits and enqueues it. */
  ghost function ArrivalBy(db: Db, ev: Event, id: SubmissionId): Option<Arrival>
    requires Enabled(db, ev)
  {
    if EnqueuesBy(db, ev, id) == 0 then None
    else if ev.Submit? then Some(Created(db.clock))
    else Some(SentBack(db.clock))
  }

  /** The last arrival of `id` in a run. */
  ghost function LastArrival(db: Db, run: seq<Step>, id: SubmissionId): Option<Arrival>
    requires Legal(db, run)
    decreases |run|
  {
    if run == [] then None
    else
      var later := LastArrival(After(db, run[0]), run[1..], id);
      if later.Some? then later else ArrivalBy(Tick(db, run[0].now), run[0].event, id)
  }

  /** A waiting row kept its place since `db`, or has the place its arrival gave it. */
  ghost predicate PlacedBy(db: Db, d: Db, id: SubmissionId, arrival: Option<Arrival>) {
    id in d.queue ==>
      match arrival
      case None =>
        && id in db.queue && d.queue[id].priority == db.queue[id].priority
        && d.queue[id].createdAt == db.queue[id].createdAt
      case Some(Created(at)) => d.queue[id].priority == NORMAL_PRIORITY && d.queue[id].createdAt == at
      case Some(SentBack(at)) => d.queue[id].priority == REJUDGE_PRIORITY && d.queue[id].createdAt == at
  }

  lemma RejudgeAllPlaces(db: Db, p: ProblemId, id: SubmissionId)
    requires Inv(db) && p > 0
    ensures RejudgeProblem(db, p).Ok?
    ensures PlacedBy(db, RejudgeProblem(db, p).value, id,
                     if id in WrongOrAccepted(db, p) then Some(SentBack(db.clock)) else None)
  {
    RejudgeProblemExact(db, p);
    var d := RejudgeProblem(db, p).value;
    if id in WrongOrAccepted(db, p) { assert RowRejudged(db, d, id); } else { assert RowKept(db, d, id); }
  }

  lemma QueueAfterPlaces(db: Db, d: Db, ev: Event, id: SubmissionId)
    requires ev.Lease? && ev.choice.Some? ==> ev.choice.value in db.queue
    requires !ev.RejudgeAll? && d.queue == QueueAfter(db, ev)
    ensures PlacedBy(db, d, id,
                     if !Enqueued(db, ev, id) then None
                     else if ev.Submit? then Some(Created(db.clock))
                     else Some(SentBack(db.clock)))
  {
  }

  lemma OneRowPlaces(db: Db, ev: Event, id: SubmissionId)
    requires Enabled(db, ev) && !ev.RejudgeAll? && Transaction(db, ev).Ok?
    ensures PlacedBy(db, Transaction(db, ev).value, id, ArrivalBy(db, ev, id))
  {
    CommittedQueue(db, ev);
    QueueAfterPlaces(db, Transaction(db, ev).value, ev, id);
  }

  lemma CommitPlaces(db: Db, ev: Event, id: SubmissionId)
    requires SystemInv(db) && Enabled(db, ev)
    ensures PlacedBy(db, Commit(db, ev), id, ArrivalBy(db, ev, id))
  {
    if ev.RejudgeAll? {
      if ev.p > 0 { RejudgeAllPlaces(db, ev.p, id); }
    } else if Transaction(db, ev).Ok? {
      OneRowPlaces(db, ev, id);
    }
  }

  lemma PlacedTwice(db: Db, c: Db, d: Db, id: SubmissionId, first: Option<Arrival>, later: Option<Arrival>)
    requires PlacedBy(db, c, id, first) && PlacedBy(c, d, id, later)
    ensures PlacedBy(db, d, id, if later.Some? then later else first)
  {
  }

  /** Over any run the place of a waiting row is the one its last arrival gave it: leasing and requeueing keep it. */
  lemma {:induction false} ArrivalPlaces(db: Db, run: seq<Step>, id: SubmissionId)
    requires SystemInv(db) && Legal(db, run)
    ensures PlacedBy(db, Final(db, run), id, LastArrival(db, run, id))
    decreases |run|
  {
    if run == [] {
    } else {
      var ticked, next := Tick(db, run[0].now), After(db, run[0]);
      TickHolds(db, run[0].now);
      CommitPlaces(ticked, run[0].event, id);
      StepHolds(db, run[0]);
      ArrivalPlaces(next, run[1..], id);
      PlacedTwice(db, next, Final(db, run), id,
                  ArrivalBy(ticked, run[0].event, id), LastArrival(next, run[1..], id));
    }
  }

  /**
   * Over any run: while a submission waits, eligible and unlocked, that was last enqueued by its creation, no lease
   * takes one that was last enqueued by a rejudge, and of two that arrived alike none takes the later.
   */
  lemma NoRejudgeBeforeNormal(
    db: Db, run: seq<Step>, locked: set<SubmissionId>, first: SubmissionId, second: SubmissionId)
    requires SystemInv(db) && Legal(db, run)
    requires Eligible(Final(db, run), first) && first !in locked
    requires LastArrival(db, run, first).Some? && LastArrival(db, run, second).Some?
    requires
      var a, b := LastArrival(db, run, first).value, LastArrival(db, run, second).value;
      (a.Created? && b.SentBack?) || (a.Created? == b.Created? && a.at < b.at)
    ensures !Candidate(Final(db, run), locked, Some(second))
  {
    ArrivalPlaces(db, run, first);
    ArrivalPlaces(db, run, second);
    if Candidate(Final(db, run), locked, Some(second)) {
      CandidateComesFirst(Final(db, run), locked, second, first);
    }
  }

  /** In a run from the empty database every waiting submission has arrived. */
  lemma WaitingHasArrived(clock: Time, run: seq<Step>, id: SubmissionId)
    requires Legal(Empty(clock), run) && id in Final(Empty(clock), run).queue
    ensures LastArrival(Empty(clock), run, id).Some?
  {
    EmptyHolds(clock);
    ArrivalPlaces(Empty(clock), run, id);
  }
}
