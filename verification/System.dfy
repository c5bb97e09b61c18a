/** The whole system as a state machine: any legal interleaving of service calls under a monotone clock. */
module System {
  import opened Common
  import opened SubmissionStatus
  import opened SubmissionTables
  import opened Recount
  import opened Counters
  import opened ProblemTables
  import opened ProblemOps
  import opened ProblemInvariant
  import opened Lifecycle
  import opened LifecycleInvariant
  import opened Rejudge

  datatype ProblemEdit =
    | EditTitle(title: string)
    | EditLimits(limits: Limits)
    | EditStatement(description: string, inputFormat: string, outputFormat: string, note: Option<string>)
    | AddSample(content: Content)
    | EditSample(order: int, content: Content)
    | DropSample
    | AddCase(content: Content)
    | EditCase(order: int, content: Content)
    | MoveCase(source: int, target: int)
    | DropCase(order: int)
    | DropAllCases
    | ReplaceCases(contents: seq<Content>)

  datatype Event =
    | RegisterUser(u: UserId)
    | SetBan(u: UserId, until: Option<Time>)
    | NewProblem(p: ProblemId, title: string)
    | EditProblem(p: ProblemId, edit: ProblemEdit)
    | Submit(command: CreateCommand)
    | Lease(duration: Time, locked: set<SubmissionId>, choice: Option<SubmissionId>, token: Token)
    | Mark(id: SubmissionId, attemptNo: int, token: Token)
    | GiveBack(id: SubmissionId, attemptNo: int, token: Token, reason: Option<string>)
    | Conclude(request: FinalizeRequest)
    | RejudgeOne(id: SubmissionId)
    | RejudgeAll(p: ProblemId)

  /** A service call together with the clock its transaction starts at. */
  datatype Step = Step(now: Time, event: Event)

  ghost function ApplyEdit(p: Problem, e: ProblemEdit): Result<Problem> {
    match e
    case EditTitle(title) => UpdateProblem(p, title)
    case EditLimits(limits) => SetLimits(p, limits)
    case EditStatement(d, i, o, n) => SetStatement(p, d, i, o, n)
    case AddSample(c) => CreateSample(p, c)
    case EditSample(order, c) => SetSample(p, order, c)
    case DropSample => DeleteSample(p)
    case AddCase(c) => CreateTestcase(p, c)
    case EditCase(order, c) => SetTestcase(p, order, c)
    case MoveCase(s, t) => MoveTestcase(p, s, t)
    case DropCase(order) => DeleteTestcase(p, order)
    case DropAllCases => DeleteAllTestcases(p)
    case ReplaceCases(cs) => ReplaceTestcases(p, cs)
  }

  /** `create_problem` across the problem tables and the statistics. */
  ghost function AddProblem(db: Db, p: ProblemId, title: string): Result<Db> {
    var created :- CreateProblem(title);
    Ok(db.(problems := db.problems[p := created], statistics := db.statistics[p := Statistics(0, 0)]))
  }

  /** How an edit of a missing problem fails: a rejected argument, a foreign key violation or a missing row. */
  function MissingProblem(p: ProblemId, e: ProblemEdit): Error {
    if (e.MoveCase? && e.target <= 0) || (e.ReplaceCases? && |e.contents| > MAX_REPLACED) then ValidationError
    else if p <= 0 then InvalidReference
    else
      match e
      case EditTitle(title) => if title == "" then InvalidInput else NotFound
      case EditLimits(limits) => if !ValidLimits(limits) then InvalidInput else ValidationError
      case EditStatement(d, i, o, _) => if d == "" || i == "" || o == "" then InvalidInput else ValidationError
      case EditSample(order, _) => if order <= 0 then InvalidReference else NotFound
      case EditCase(order, _) => if order <= 0 then InvalidReference else NotFound
      case MoveCase(source, _) => if source <= 0 then InvalidReference else NotFound
      case DropCase(order) => if order <= 0 then InvalidReference else NotFound
      case DropAllCases => NotFound
      case _ => ValidationError
  }

  ghost function EditOne(db: Db, p: ProblemId, e: ProblemEdit): Result<Db> {
    if p !in db.problems then Err(MissingProblem(p, e))
    else
      var edited :- ApplyEdit(db.problems[p], e);
      Ok(db.(problems := db.problems[p := edited]))
  }

  /**
   * What the environment guarantees: ids come from their sequences, a lease takes a candidate row and draws
   * a fresh token, and the judge concludes with a verdict.
   */
  ghost predicate Enabled(db: Db, ev: Event) {
    match ev
    case RegisterUser(u) => u > 0 && u !in db.users
    case SetBan(u, _) => u in db.users
    case NewProblem(p, _) => p > 0 && p !in db.problems
    case Lease(_, locked, choice, token) =>
      Candidate(db, locked, choice) && (choice.Some? ==> token != "" && token !in db.issuedTokens)
    case Conclude(request) => IsTerminal(request.to)
    case _ => true
  }

  /** The transaction of an event. */
  ghost function Transaction(db: Db, ev: Event): Result<Db>
    requires Enabled(db, ev)
  {
    match ev
    case RegisterUser(u) => Ok(db.(users := db.users[u := None]))
    case SetBan(u, until) => Ok(db.(users := db.users[u := until]))
    case NewProblem(p, title) => AddProblem(db, p, title)
    case EditProblem(p, e) => EditOne(db, p, e)
    case Submit(c) =>
      var created :- CreateSubmission(db, c);
      Ok(created.0)
    case Lease(duration, _, choice, token) =>
      var leased :- LeaseSubmission(db, duration, choice, token);
      Ok(leased.0)
    case Mark(id, n, t) => MarkJudging(db, id, n, t)
    case GiveBack(id, n, t, reason) => Requeue(db, id, n, t, reason)
    case Conclude(request) => Finalize(db, request)
    case RejudgeOne(id) => RejudgeSubmission(db, id)
    case RejudgeAll(p) => RejudgeProblem(db, p)
  }

  /** Commit or roll back. */
  ghost function Commit(db: Db, ev: Event): Db
    requires Enabled(db, ev)
  {
    var r := Transaction(db, ev);
    if r.Ok? then r.value else db
  }

  ghost predicate LegalStep(db: Db, s: Step) {
    s.now >= db.clock && Enabled(Tick(db, s.now), s.event)
  }

  ghost function After(db: Db, s: Step): Db
    requires LegalStep(db, s)
  {
    Commit(Tick(db, s.now), s.event)
  }

  ghost predicate Legal(db: Db, run: seq<Step>)
    decreases |run|
  {
    run == [] || (LegalStep(db, run[0]) && Legal(After(db, run[0]), run[1..]))
  }

  ghost function Final(db: Db, run: seq<Step>): Db
    requires Legal(db, run)
    decreases |run|
  {
    if run == [] then db else Final(After(db, run[0]), run[1..])
  }

  // ---- the system invariant ----

  /** Every problem is sound and every submission pins a version that has been published. */
  ghost predicate CatalogSound(db: Db) {
    && (forall p | p in db.problems :: ProblemInv(db.problems[p]))
    && (forall id | id in db.submissions :: PinExists(db, db.submissions[id]))
  }

  ghost predicate PinExists(db: Db, s: Submission) {
    s.problemId in db.problems && 1 <= s.problemVersion <= db.problems[s.problemId].version
  }

  ghost predicate SystemInv(db: Db) {
    Inv(db) && CatalogSound(db)
  }

  lemma EmptyHolds(clock: Time)
    ensures SystemInv(Empty(clock))
  {
    EmptyKeepsInv(clock);
  }

  lemma TickHolds(db: Db, now: Time)
    requires SystemInv(db) && now >= db.clock
    ensures SystemInv(Tick(db, now))
  {
    TickKeepsInv(db, now);
    PinsHold(db, Tick(db, now));
  }

  /** Submissions that keep their problem and version keep their pins. */
  lemma PinsHold(db: Db, d: Db)
    requires CatalogSound(db) && d.problems == db.problems
    requires forall id | id in d.submissions ::
               && id in db.submissions
               && d.submissions[id].problemId == db.submissions[id].problemId
               && d.submissions[id].problemVersion == db.submissions[id].problemVersion
    ensures CatalogSound(d)
  {
    forall id | id in d.submissions ensures PinExists(d, d.submissions[id]) {
      assert PinExists(db, db.submissions[id]);
    }
  }

  // ---- users and problems ----

  lemma UsersHold(db: Db, u: UserId, ban: Option<Time>)
    requires SystemInv(db) && u > 0
    ensures SystemInv(db.(users := db.users[u := ban]))
  {
    var d := db.(users := db.users[u := ban]);
    SurroundingsKeepKeys(db, d);
    SurroundingsKeepQueue(db, d);
    PinsHold(db, d);
  }

  /** Replacing a problem by a sound later version of itself, or adding a sound one, keeps the system sound. */
  lemma ProblemWriteHolds(db: Db, d: Db, p: ProblemId, q: Problem)
    requires SystemInv(db) && ProblemInv(q) && p > 0
    requires d.problems == db.problems[p := q] && SameSubmissionTables(db, d)
    requires p in db.problems ==> db.problems[p].version <= q.version
    requires d.statistics == if p in db.problems then db.statistics else db.statistics[p := Statistics(0, 0)]
    ensures SystemInv(d)
  {
    ProblemWriteStatistics(db, d, p);
    ProblemWriteCatalog(db, d, p, q);
    ProblemWriteKeys(db, d, p, q);
    SurroundingsKeepQueue(db, d);
  }

  ghost predicate SameSubmissionTables(db: Db, d: Db) {
    && d.users == db.users && d.submissions == db.submissions && d.history == db.history
    && d.queue == db.queue && d.summaries == db.summaries && d.nextSubmissionId == db.nextSubmissionId
    && d.issuedTokens == db.issuedTokens && d.clock == db.clock
  }

  lemma ProblemWriteKeys(db: Db, d: Db, p: ProblemId, q: Problem)
    requires KeysResolve(db) && p > 0 && SameSubmissionTables(db, d) && d.problems == db.problems[p := q]
    requires d.statistics == if p in db.problems then db.statistics else db.statistics[p := Statistics(0, 0)]
    ensures KeysResolve(d)
  {
    assert d.statistics.Keys == d.problems.Keys;
    SurroundingsKeepKeys(db, d);
  }

  lemma ProblemWriteCatalog(db: Db, d: Db, p: ProblemId, q: Problem)
    requires CatalogSound(db) && ProblemInv(q)
    requires d.submissions == db.submissions && d.problems == db.problems[p := q]
    requires p in db.problems ==> db.problems[p].version <= q.version
    ensures CatalogSound(d)
  {
    forall id | id in d.submissions ensures PinExists(d, d.submissions[id]) {
      assert PinExists(db, db.submissions[id]);
    }
    forall x | x in d.problems ensures ProblemInv(d.problems[x]) {
      if x != p { assert ProblemInv(db.problems[x]); }
    }
  }

  lemma ProblemWriteStatistics(db: Db, d: Db, p: ProblemId)
    requires KeysResolve(db) && StatisticsExact(db.statistics, db.submissions) && d.submissions == db.submissions
    requires d.statistics == if p in db.problems then db.statistics else db.statistics[p := Statistics(0, 0)]
    ensures StatisticsExact(d.statistics, d.submissions)
  {
    forall x ensures StatisticExact(d.statistics, d.submissions, x) {
      if p !in db.problems && x == p {
        NobodySubmitted(db, p);
      } else {
        assert StatisticExact(db.statistics, db.submissions, x);
      }
    }
  }

  lemma NobodySubmitted(db: Db, p: ProblemId)
    requires KeysResolve(db) && p !in db.problems
    ensures StatisticsOf(db.submissions, p) == Statistics(0, 0)
  {
    forall id | id in db.submissions
      ensures !InBucket(SubmittedTo(p), db.submissions[id]) && !InBucket(AcceptedFor(p), db.submissions[id])
    {
      assert SubmissionResolves(db, id, db.submissions[id]);
    }
    PositiveCount(db.submissions, SubmittedTo(p));
    PositiveCount(db.submissions, AcceptedFor(p));
  }

  ghost predicate EditedSoundly(p: Problem, edited: Result<Problem>) {
    edited.Ok? ==> ProblemInv(edited.value) && KeepsSnapshots(p, edited.value)
  }

  lemma TextEditSound(p: Problem, e: ProblemEdit)
    requires ProblemInv(p) && (e.EditTitle? || e.EditLimits? || e.EditStatement?)
    ensures EditedSoundly(p, ApplyEdit(p, e))
  {
    match e
    case EditTitle(title) => UpdateProblemSound(p, title);
    case EditLimits(limits) => SetLimitsSound(p, limits);
    case EditStatement(d, i, o, n) => SetStatementSound(p, d, i, o, n);
  }

  lemma AddSampleKept(p: Problem, c: Content)
    requires ProblemInv(p)
    ensures EditedSoundly(p, CreateSample(p, c))
  {
    CreateSampleSound(p, c);
  }

  lemma EditSampleKept(p: Problem, order: int, c: Content)
    requires ProblemInv(p)
    ensures EditedSoundly(p, SetSample(p, order, c))
  {
    SetSampleSound(p, order, c);
  }

  lemma DropSampleKept(p: Problem)
    requires ProblemInv(p)
    ensures EditedSoundly(p, DeleteSample(p))
  {
    DeleteSampleSound(p);
  }

  lemma AddCaseKept(p: Problem, c: Content)
    requires ProblemInv(p)
    ensures EditedSoundly(p, CreateTestcase(p, c))
  {
    CreateTestcaseSound(p, c);
  }

  lemma EditCaseKept(p: Problem, order: int, c: Content)
    requires ProblemInv(p)
    ensures EditedSoundly(p, SetTestcase(p, order, c))
  {
    SetTestcaseSound(p, order, c);
  }

  lemma MoveCaseKept(p: Problem, source: int, target: int)
    requires ProblemInv(p)
    ensures EditedSoundly(p, MoveTestcase(p, source, target))
  {
    MoveTestcaseSound(p, source, target);
  }

  lemma DropCaseKept(p: Problem, order: int)
    requires ProblemInv(p)
    ensures EditedSoundly(p, DeleteTestcase(p, order))
  {
    DeleteTestcaseSound(p, order);
  }

  lemma DropAllCasesKept(p: Problem)
    requires ProblemInv(p)
    ensures EditedSoundly(p, DeleteAllTestcases(p))
  {
    DeleteAllSound(p);
  }

  lemma ReplaceCasesKept(p: Problem, cs: seq<Content>)
    requires ProblemInv(p)
    ensures EditedSoundly(p, ReplaceTestcases(p, cs))
  {
    ReplaceSound(p, cs);
  }

  lemma SampleEditSound(p: Problem, e: ProblemEdit)
    requires ProblemInv(p) && (e.AddSample? || e.EditSample? || e.DropSample?)
    ensures EditedSoundly(p, ApplyEdit(p, e))
  {
    match e
    case AddSample(c) => AddSampleKept(p, c);
    case EditSample(order, c) => EditSampleKept(p, order, c);
    case DropSample => DropSampleKept(p);
  }

  lemma CaseEditSound(p: Problem, e: ProblemEdit)
    requires ProblemInv(p) && (e.AddCase? || e.EditCase? || e.MoveCase?)
    ensures EditedSoundly(p, ApplyEdit(p, e))
  {
    match e
    case AddCase(c) => AddCaseKept(p, c);
    case EditCase(order, c) => EditCaseKept(p, order, c);
    case MoveCase(source, target) => MoveCaseKept(p, source, target);
  }

  /** Every edit keeps the problem sound and never alters a published version. */
  lemma EditSound(p: Problem, e: ProblemEdit)
    requires ProblemInv(p)
    ensures EditedSoundly(p, ApplyEdit(p, e))
  {
    if e.EditTitle? || e.EditLimits? || e.EditStatement? {
      TextEditSound(p, e);
    } else if e.AddSample? || e.EditSample? || e.DropSample? {
      SampleEditSound(p, e);
    } else if e.AddCase? || e.EditCase? || e.MoveCase? {
      CaseEditSound(p, e);
    } else if e.ReplaceCases? {
      ReplaceCasesKept(p, e.contents);
    } else if e.DropCase? {
      DropCaseKept(p, e.order);
    } else {
      DropAllCasesKept(p);
    }
  }

  // ---- every step keeps the invariant ----

  lemma CreateWrites(db: Db, c: CreateCommand)
    requires CreateSubmission(db, c).Ok?
    ensures c.problemId in db.problems
    ensures
      var d, id := CreateSubmission(db, c).value.0, db.nextSubmissionId;
      && d.problems == db.problems && id in d.submissions && CreateSubmission(db, c).value.1.id == id
      && d.submissions == db.submissions[id := d.submissions[id]]
      && d.submissions[id].problemId == c.problemId
      && d.submissions[id].problemVersion == db.problems[c.problemId].version
  {
  }

  lemma NewPinHolds(db: Db, d: Db, id: SubmissionId, p: ProblemId)
    requires CatalogSound(db) && p in db.problems && d.problems == db.problems && id in d.submissions
    requires d.submissions == db.submissions[id := d.submissions[id]]
    requires d.submissions[id].problemId == p && d.submissions[id].problemVersion == db.problems[p].version
    ensures CatalogSound(d)
  {
    assert ProblemInv(db.problems[p]);
    forall x | x in d.submissions ensures PinExists(d, d.submissions[x]) {
      if x != id { assert PinExists(db, db.submissions[x]); }
    }
  }

  lemma CreateHolds(db: Db, c: CreateCommand)
    requires SystemInv(db) && CreateSubmission(db, c).Ok?
    ensures SystemInv(CreateSubmission(db, c).value.0)
  {
    CreateKeepsInv(db, c);
    CreateWrites(db, c);
    NewPinHolds(db, CreateSubmission(db, c).value.0, db.nextSubmissionId, c.problemId);
  }

  /** A status write keeps the pins. */
  lemma WriteKeepsCatalog(db: Db, d: Db, id: SubmissionId)
    requires CatalogSound(db) && id in db.submissions && id in d.submissions && d.problems == db.problems
    requires d.submissions == db.submissions[id := d.submissions[id]]
    requires d.submissions[id].problemId == db.submissions[id].problemId
    requires d.submissions[id].problemVersion == db.submissions[id].problemVersion
    ensures CatalogSound(d)
  {
    PinsHold(db, d);
  }

  lemma MarkHolds(db: Db, id: SubmissionId, n: int, t: Token)
    requires SystemInv(db) && MarkJudging(db, id, n, t).Ok?
    ensures SystemInv(MarkJudging(db, id, n, t).value)
  {
    UpdateStatusExact(db, id, n, t, Judging, None);
    WriteKeepsCatalog(db, MarkJudging(db, id, n, t).value, id);
  }

  lemma RequeueHolds(db: Db, id: SubmissionId, n: int, t: Token, reason: Option<string>)
    requires SystemInv(db) && Requeue(db, id, n, t, reason).Ok?
    ensures SystemInv(Requeue(db, id, n, t, reason).value)
  {
    RequeueExact(db, id, n, t, reason);
    RequeueWrites(db, id, n, t, reason);
    WriteKeepsCatalog(db, Requeue(db, id, n, t, reason).value, id);
  }

  lemma FinalizeHolds(db: Db, request: FinalizeRequest)
    requires SystemInv(db) && Finalize(db, request).Ok? && IsTerminal(request.to)
    ensures SystemInv(Finalize(db, request).value)
  {
    FinalizeWrites(db, request);
    FinalizeNeedsVerdict(db, request);
    WriteKeepsCatalog(db, Finalize(db, request).value, request.id);
  }

  lemma RejudgeOneHolds(db: Db, id: SubmissionId)
    requires SystemInv(db) && RejudgeSubmission(db, id).Ok?
    ensures SystemInv(RejudgeSubmission(db, id).value)
  {
    RejudgeOneExact(db, id);
    RejudgeKeepsInv(db, id);
    WriteKeepsCatalog(db, Rejudged(db, id), id);
  }

  lemma RejudgeAllHolds(db: Db, p: ProblemId)
    requires SystemInv(db) && p > 0
    ensures RejudgeProblem(db, p).Ok? && SystemInv(RejudgeProblem(db, p).value)
  {
    RejudgeProblemExact(db, p);
    var d := RejudgeProblem(db, p).value;
    forall id | id in d.submissions
      ensures && id in db.submissions
              && d.submissions[id].problemId == db.submissions[id].problemId
              && d.submissions[id].problemVersion == db.submissions[id].problemVersion
    {
      if id in WrongOrAccepted(db, p) { assert RowRejudged(db, d, id); } else { assert RowKept(db, d, id); }
    }
    PinsHold(db, d);
  }

  lemma NewProblemHolds(db: Db, p: ProblemId, title: string)
    requires SystemInv(db) && p > 0 && p !in db.problems && AddProblem(db, p, title).Ok?
    ensures SystemInv(AddProblem(db, p, title).value)
  {
    CreateProblemSound(title);
    ProblemWriteHolds(db, AddProblem(db, p, title).value, p, CreateProblem(title).value);
  }

  lemma CatalogEventHolds(db: Db, ev: Event)
    requires SystemInv(db) && Enabled(db, ev) && (ev.NewProblem? || ev.EditProblem?)
    ensures SystemInv(Commit(db, ev))
  {
    if Transaction(db, ev).Ok? {
      match ev
      case NewProblem(p, title) => NewProblemHolds(db, p, title);
      case EditProblem(p, e) => EditHolds(db, p, e);
    }
  }

  lemma EditOneWrites(db: Db, p: ProblemId, e: ProblemEdit)
    requires EditOne(db, p, e).Ok?
    ensures p in db.problems && ApplyEdit(db.problems[p], e).Ok?
    ensures EditOne(db, p, e).value == db.(problems := db.problems[p := ApplyEdit(db.problems[p], e).value])
  {
  }

  lemma EditHolds(db: Db, p: ProblemId, e: ProblemEdit)
    requires SystemInv(db) && EditOne(db, p, e).Ok?
    ensures SystemInv(EditOne(db, p, e).value)
  {
    EditOneWrites(db, p, e);
    EditSound(db.problems[p], e);
    ProblemWriteHolds(db, EditOne(db, p, e).value, p, ApplyEdit(db.problems[p], e).value);
  }

  lemma UserEventHolds(db: Db, ev: Event)
    requires SystemInv(db) && Enabled(db, ev) && (ev.RegisterUser? || ev.SetBan?)
    ensures SystemInv(Commit(db, ev))
  {
    assert ev.SetBan? ==> ev.u > 0;
    UsersHold(db, ev.u, if ev.RegisterUser? then None else ev.until);
  }

  lemma LeaseEventHolds(db: Db, ev: Event)
    requires SystemInv(db) && Enabled(db, ev) && ev.Lease?
    ensures SystemInv(Commit(db, ev))
  {
    LeaseKeepsInv(db, ev.duration, ev.choice, ev.token);
    if ev.duration > 0 { PinsHold(db, Commit(db, ev)); }
  }

  lemma JudgeEventHolds(db: Db, ev: Event)
    requires SystemInv(db) && Enabled(db, ev) && (ev.Mark? || ev.GiveBack? || ev.Conclude?)
    requires Transaction(db, ev).Ok?
    ensures SystemInv(Transaction(db, ev).value)
  {
    match ev
    case Mark(id, n, t) => MarkHolds(db, id, n, t);
    case GiveBack(id, n, t, reason) => RequeueHolds(db, id, n, t, reason);
    case Conclude(request) => FinalizeHolds(db, request);
  }

  lemma CommandEventHolds(db: Db, ev: Event)
    requires SystemInv(db) && Enabled(db, ev) && (ev.Submit? || ev.RejudgeOne? || ev.RejudgeAll?)
    requires Transaction(db, ev).Ok?
    ensures SystemInv(Transaction(db, ev).value)
  {
    match ev
    case Submit(c) => CreateHolds(db, c);
    case RejudgeOne(id) => RejudgeOneHolds(db, id);
    case RejudgeAll(p) => RejudgeAllHolds(db, p);
  }

  /** Whatever a transaction is and whether it commits, the system stays sound. */
  lemma CommitHolds(db: Db, ev: Event)
    requires SystemInv(db) && Enabled(db, ev)
    ensures SystemInv(Commit(db, ev))
  {
    if ev.RegisterUser? || ev.SetBan? {
      UserEventHolds(db, ev);
    } else if ev.NewProblem? || ev.EditProblem? {
      CatalogEventHolds(db, ev);
    } else if ev.Lease? {
      LeaseEventHolds(db, ev);
    } else if Transaction(db, ev).Ok? {
      if ev.Mark? || ev.GiveBack? || ev.Conclude? {
        JudgeEventHolds(db, ev);
      } else {
        CommandEventHolds(db, ev);
      }
    }
  }

  lemma StepHolds(db: Db, s: Step)
    requires SystemInv(db) && LegalStep(db, s)
    ensures SystemInv(After(db, s))
  {
    TickHolds(db, s.now);
    CommitHolds(Tick(db, s.now), s.event);
  }

  /** The invariant holds at the end of every legal run. */
  lemma {:induction false} RunHolds(db: Db, run: seq<Step>)
    requires SystemInv(db) && Legal(db, run)
    ensures SystemInv(Final(db, run))
    decreases |run|
  {
    if run == [] {
    } else {
      StepHolds(db, run[0]);
      RunHolds(After(db, run[0]), run[1..]);
    }
  }

  /** A state some run from an empty database ends in. */
  ghost predicate Reachable(db: Db) {
    exists clock, run :: Legal(Empty(clock), run) && Final(Empty(clock), run) == db
  }

  lemma ReachableHolds(db: Db)
    requires Reachable(db)
    ensures SystemInv(db)
  {
    var clock, run :| Legal(Empty(clock), run) && Final(Empty(clock), run) == db;
    EmptyHolds(clock);
    RunHolds(Empty(clock), run);
  }
}
