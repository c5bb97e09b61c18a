/**
 * One HTTP connection as a state machine. Completions of reads, writes, timers and handlers are pending until
 * the environment delivers them, in any order and as late as it likes; each is delivered at most once.
 */
module SessionProtocol {
  import opened Common

  datatype Phase = Reading | AwaitingHandler | Writing | Closed
  datatype ReadKind = Initial | KeepAliveFollowup
  datatype TimerMode = NoTimer | KeepAliveIdle | RequestDeadline

  /** Which of the two optional timeouts the server configures. */
  datatype Config = Config(keepAliveIdle: bool, requestDeadline: bool)

  /** A request is identified by its payload; nothing depends on what is in it. */
  type Request = int

  datatype Response =
    | HandlerResponse(request: Request, needEof: bool)
    | DeadlineResponse(request: Request)
    | ReadErrorResponse

  /** Responses the session makes itself carry a length and `Connection: close`, so they need the end of stream. */
  predicate NeedsEof(r: Response) {
    if r.HandlerResponse? then r.needEof else true
  }

  /** A socket operation the session has started. */
  datatype SocketOp = Read(generation: nat) | Write(generation: nat, response: Response)

  datatype ReadOutcome = EndOfStream | Received(request: Request) | BadRequest | SocketGone | SocketFailed
  datatype WriteOutcome = Written | WriteIgnored | WriteFailed

  datatype Session = Session(
    config: Config,
    phase: Phase,
    closing: bool,
    generation: nat,
    kind: ReadKind,
    request: Option<Request>,
    timerMode: TimerMode,
    timerGeneration: nat,
    pendingReads: multiset<nat>,
    pendingWrites: multiset<(nat, bool)>,
    pendingTimers: multiset<(TimerMode, nat)>,
    pendingCalls: multiset<(nat, Request)>,
    operations: seq<SocketOp>,
    received: map<nat, Request>)

  function Fresh(config: Config): Session {
    Session(config, Closed, false, 0, Initial, None, NoTimer, 0,
            multiset{}, multiset{}, multiset{}, multiset{}, [], map[])
  }

  // ---- the session's own steps ----

  function CancelTimer(s: Session): Session {
    s.(timerMode := NoTimer, timerGeneration := s.timerGeneration + 1)
  }

  function ArmTimer(s: Session, mode: TimerMode): Session {
    var g := s.timerGeneration + 1;
    s.(timerMode := mode, timerGeneration := g, pendingTimers := s.pendingTimers + multiset{(mode, g)})
  }

  /** `begin_read` of the request cycle. */
  function BeginCycle(s: Session, kind: ReadKind): Session {
    s.(request := None, generation := s.generation + 1, kind := kind, phase := Reading)
  }

  function ReadTimer(s: Session, kind: ReadKind): Session {
    if kind.KeepAliveFollowup? && s.config.keepAliveIdle then ArmTimer(s, KeepAliveIdle) else CancelTimer(s)
  }

  /** `async_read` under the current generation. */
  function SubmitRead(s: Session): Session {
    s.(pendingReads := s.pendingReads + multiset{s.generation}, operations := s.operations + [Read(s.generation)])
  }

  function StartRead(s: Session, kind: ReadKind): Session {
    if s.closing then s else SubmitRead(ReadTimer(BeginCycle(s, kind), kind))
  }

  function WriteResponse(s: Session, generation: nat, response: Response): Session {
    if s.closing then s
    else s.(phase := Writing,
            pendingWrites := s.pendingWrites + multiset{(generation, NeedsEof(response))},
            operations := s.operations + [Write(generation, response)])
  }

  function Close(s: Session): Session {
    if s.closing then s
    else CancelTimer(s).(closing := true, phase := Closed, request := None, kind := Initial)
  }

  // ---- completions ----

  predicate TimerMatches(s: Session, mode: TimerMode, g: nat) {
    s.timerMode == mode && s.timerGeneration == g
  }

  function IdleExpired(s: Session): Session {
    if s.phase != Reading || s.kind != KeepAliveFollowup then s else Close(s)
  }

  function DeadlineExpired(s: Session): Session {
    if s.request.None? then s
    else if s.phase == Writing then Close(s)
    else if s.phase != AwaitingHandler then s
    else WriteResponse(s, s.generation, DeadlineResponse(s.request.value))
  }

  function OnTimer(s: Session, mode: TimerMode, g: nat, aborted: bool): Session {
    if aborted || s.closing || !TimerMatches(s, mode, g) then s
    else
      var t := CancelTimer(s);
      match mode
      case KeepAliveIdle => IdleExpired(t)
      case RequestDeadline => DeadlineExpired(t)
      case NoTimer => t
  }

  function AcceptRequest(s: Session, g: nat, request: Request): Session {
    s.(request := Some(request), phase := AwaitingHandler, received := s.received[g := request])
  }

  function DeadlineTimer(s: Session): Session {
    if s.config.requestDeadline then ArmTimer(s, RequestDeadline) else CancelTimer(s)
  }

  /** `async_handle` with the request and its generation. */
  function SubmitCall(s: Session, g: nat, request: Request): Session {
    s.(pendingCalls := s.pendingCalls + multiset{(g, request)})
  }

  function OnRead(s: Session, g: nat, outcome: ReadOutcome): Session {
    if s.phase != Reading || s.generation != g then s
    else
      var t := CancelTimer(s);
      match outcome
      case EndOfStream => Close(t)
      case BadRequest => WriteResponse(t, g, ReadErrorResponse)
      case SocketGone => t
      case SocketFailed => t
      case Received(request) => SubmitCall(DeadlineTimer(AcceptRequest(t, g, request)), g, request)
  }

  function OnHandlerResponse(s: Session, g: nat, response: Response): Session {
    if s.closing || s.phase != AwaitingHandler || s.generation != g then s
    else WriteResponse(s, g, response)
  }

  function OnWrite(s: Session, g: nat, shouldClose: bool, outcome: WriteOutcome): Session {
    if s.phase != Writing || s.generation != g then s
    else
      var t := CancelTimer(s);
      match outcome
      case WriteIgnored => t
      case WriteFailed => t
      case Written => if shouldClose then Close(t) else StartRead(t, KeepAliveFollowup)
  }

  // ---- runs ----

  datatype Event =
    | Run
    | ReadCompletes(readGeneration: nat, readOutcome: ReadOutcome)
    | WriteCompletes(writeGeneration: nat, shouldClose: bool, writeOutcome: WriteOutcome)
    | TimerCompletes(mode: TimerMode, timerGeneration: nat, aborted: bool)
    | HandlerCompletes(callGeneration: nat, request: Request, needEof: bool)

  /** `run` is called once; a completion can only be delivered while it is pending. */
  predicate Enabled(s: Session, e: Event) {
    match e
    case Run => s == Fresh(s.config)
    case ReadCompletes(g, _) => g in s.pendingReads
    case WriteCompletes(g, c, _) => (g, c) in s.pendingWrites
    case TimerCompletes(m, g, _) => (m, g) in s.pendingTimers
    case HandlerCompletes(g, r, _) => (g, r) in s.pendingCalls
  }

  function Next(s: Session, e: Event): Session
    requires Enabled(s, e)
  {
    match e
    case Run => StartRead(s, Initial)
    case ReadCompletes(g, outcome) => OnRead(s.(pendingReads := s.pendingReads - multiset{g}), g, outcome)
    case WriteCompletes(g, c, outcome) =>
      OnWrite(s.(pendingWrites := s.pendingWrites - multiset{(g, c)}), g, c, outcome)
    case TimerCompletes(m, g, aborted) =>
      OnTimer(s.(pendingTimers := s.pendingTimers - multiset{(m, g)}), m, g, aborted)
    case HandlerCompletes(g, r, needEof) =>
      OnHandlerResponse(s.(pendingCalls := s.pendingCalls - multiset{(g, r)}), g, HandlerResponse(r, needEof))
  }

  predicate Legal(s: Session, run: seq<Event>)
    decreases |run|
  {
    run == [] || (Enabled(s, run[0]) && Legal(Next(s, run[0]), run[1..]))
  }

  function Final(s: Session, run: seq<Event>): Session
    requires Legal(s, run)
    decreases |run|
  {
    if run == [] then s else Final(Next(s, run[0]), run[1..])
  }

  // ---- the invariant ----

  /** The response answers the request of its generation: that very request, or the failure to read one. */
  predicate Answers(received: map<nat, Request>, g: nat, r: Response) {
    if r.ReadErrorResponse? then g !in received else g in received && received[g] == r.request
  }

  /** Operation `i` of a connection that has started `count`: reads and answers take turns, one each per generation. */
  predicate InTurn(op: SocketOp, i: nat, count: nat, received: map<nat, Request>) {
    if i % 2 == 0 then op == Read(i / 2 + 1)
    else
      && op.Write? && op.generation == i / 2 + 1
      && Answers(received, op.generation, op.response)
      && (i < count - 1 ==> !NeedsEof(op.response))
  }

  /**
   * What the session has put on the wire: read 1, write 1, read 2, write 2, ... in strict alternation, each
   * response answering its own request, and none but the last closing the connection.
   */
  ghost predicate Alternates(operations: seq<SocketOp>, received: map<nat, Request>) {
    forall i :: 0 <= i < |operations| ==> InTurn(operations[i], i, |operations|, received)
  }

  /** At most one read or write is pending, and it is the one the phase is about. */
  ghost predicate OneOperation(s: Session) {
    && |s.pendingReads| + |s.pendingWrites| <= 1
    && (s.phase == Reading ==>
          s.pendingWrites == multiset{} && (forall g | g in s.pendingReads :: g == s.generation))
    && (s.phase == AwaitingHandler ==> s.pendingReads == multiset{} && s.pendingWrites == multiset{})
    && (s.phase == Writing ==>
          && s.pendingReads == multiset{} && |s.operations| > 0 && s.operations[|s.operations| - 1].Write?
          && (forall w | w in s.pendingWrites ::
                w == (s.generation, NeedsEof(s.operations[|s.operations| - 1].response))))
  }

  ghost predicate PhaseSound(s: Session) {
    && (s.closing ==> s.phase == Closed)
    && (s.phase == Closed && !s.closing ==> s == Fresh(s.config))
    && (s.phase == Reading ==>
          s.request.None? && s.generation !in s.received && |s.operations| == 2 * s.generation - 1)
    && (s.phase == AwaitingHandler ==>
          && s.request.Some? && s.generation in s.received && s.received[s.generation] == s.request.value
          && |s.operations| == 2 * s.generation - 1)
    && (s.phase == Writing ==> |s.operations| == 2 * s.generation)
    && (s.phase == Writing && s.request.Some? ==>
          s.generation in s.received && s.received[s.generation] == s.request.value)
  }

  /** An armed keep-alive timer means waiting for a follow-up request; an armed deadline one unanswered or unsent. */
  ghost predicate TimerSound(s: Session) {
    && (s.timerMode == KeepAliveIdle ==> s.phase == Reading && s.kind == KeepAliveFollowup)
    && (s.timerMode == RequestDeadline ==> (s.phase == AwaitingHandler || s.phase == Writing) && s.request.Some?)
    && TimersPast(s)
  }

  /** No pending expiry is ahead of the timer, and one of the current generation is of the current mode. */
  ghost predicate TimersPast(s: Session) {
    forall t | t in s.pendingTimers ::
      t.0 != NoTimer && t.1 <= s.timerGeneration && (t.1 == s.timerGeneration ==> t.0 == s.timerMode)
  }

  /** A pending handler works on the request of its generation. */
  ghost predicate CallsSound(s: Session) {
    && (forall g | g in s.received :: 1 <= g <= s.generation)
    && (forall c | c in s.pendingCalls :: c.0 in s.received && s.received[c.0] == c.1)
  }

  /** The awaited handler call is pending exactly once. */
  ghost predicate Awaited(s: Session) {
    s.phase == AwaitingHandler && s.request.Some? ==> s.pendingCalls[(s.generation, s.request.value)] == 1
  }

  ghost predicate SessionInv(s: Session) {
    && Alternates(s.operations, s.received) && OneOperation(s) && PhaseSound(s)
    && TimerSound(s) && CallsSound(s) && Awaited(s)
  }

  lemma FreshHolds(config: Config)
    ensures SessionInv(Fresh(config))
  {
  }

  // ---- every step keeps the invariant ----

  lemma NoneLeft<T>(m: multiset<T>, x: T)
    requires x in m && |m| <= 1
    ensures m - multiset{x} == multiset{}
  {
    assert |m - multiset{x}| == |m| - 1;
  }

  lemma CloseHolds(s: Session)
    requires Alternates(s.operations, s.received) && CallsSound(s) && |s.pendingReads| + |s.pendingWrites| <= 1
    requires TimersPast(s)
    requires s.closing ==> SessionInv(s)
    ensures SessionInv(Close(s))
  {
  }

  /** The next operation in turn extends the alternation, unless the last one was to close. */
  lemma AlternatesOn(operations: seq<SocketOp>, received: map<nat, Request>, op: SocketOp)
    requires Alternates(operations, received)
    requires InTurn(op, |operations|, |operations| + 1, received)
    requires |operations| > 0 && operations[|operations| - 1].Write? ==>
               !NeedsEof(operations[|operations| - 1].response)
    ensures Alternates(operations + [op], received)
  {
    var n := |operations|;
    forall i | 0 <= i < n ensures InTurn(operations[i], i, n + 1, received) {
      assert InTurn(operations[i], i, n, received);
    }
  }

  /** A newly received request answers no earlier generation. */
  lemma AlternatesStill(operations: seq<SocketOp>, received: map<nat, Request>, g: nat, r: Request)
    requires Alternates(operations, received) && |operations| == 2 * g - 1
    ensures Alternates(operations, received[g := r])
  {
    forall i | 0 <= i < |operations| ensures InTurn(operations[i], i, |operations|, received[g := r]) {
      assert InTurn(operations[i], i, |operations|, received);
    }
  }

  /** Starting a read is sound once the previous exchange is over and was not to close the connection. */
  lemma StartReadHolds(s: Session, kind: ReadKind)
    requires Alternates(s.operations, s.received) && CallsSound(s) && !s.closing
    requires s.pendingReads == multiset{} && s.pendingWrites == multiset{}
    requires |s.operations| == 2 * s.generation
    requires |s.operations| > 0 ==>
               s.operations[|s.operations| - 1].Write? && !NeedsEof(s.operations[|s.operations| - 1].response)
    requires TimersPast(s)
    ensures SessionInv(StartRead(s, kind))
  {
    StartReadTimer(s, kind);
    StartReadRest(s, StartRead(s, kind));
  }

  lemma StartReadTimer(s: Session, kind: ReadKind)
    requires TimersPast(s) && !s.closing
    ensures TimerSound(StartRead(s, kind))
  {
  }

  lemma StartReadRest(s: Session, t: Session)
    requires Alternates(s.operations, s.received) && CallsSound(s) && !s.closing
    requires s.pendingWrites == multiset{} && |s.operations| == 2 * s.generation
    requires |s.operations| > 0 ==>
               s.operations[|s.operations| - 1].Write? && !NeedsEof(s.operations[|s.operations| - 1].response)
    requires t.phase == Reading && !t.closing && t.request.None? && t.generation == s.generation + 1
    requires t.pendingReads == multiset{t.generation} && t.pendingWrites == multiset{}
    requires t.pendingCalls == s.pendingCalls && t.received == s.received
    requires t.operations == s.operations + [Read(t.generation)] && TimerSound(t)
    ensures SessionInv(t)
  {
    AlternatesOn(s.operations, s.received, Read(t.generation));
  }

  lemma WriteHolds(s: Session, g: nat, r: Response)
    requires Alternates(s.operations, s.received) && CallsSound(s) && TimerSound(s) && !s.closing
    requires s.pendingReads == multiset{} && s.pendingWrites == multiset{}
    requires g == s.generation && |s.operations| == 2 * g - 1 && Answers(s.received, g, r)
    requires s.timerMode != KeepAliveIdle
    requires s.request.Some? ==> g in s.received && s.received[g] == s.request.value
    ensures SessionInv(WriteResponse(s, g, r))
  {
    assert InTurn(s.operations[|s.operations| - 1], |s.operations| - 1, |s.operations|, s.received);
    AlternatesOn(s.operations, s.received, Write(g, r));
  }

  lemma ReceivedHolds(s: Session, g: nat, r: Request)
    requires SessionInv(s) && s.phase == Reading && s.generation == g && s.pendingReads == multiset{}
    ensures SessionInv(OnRead(s, g, Received(r)))
  {
    ReceivedTimer(s, g, r);
    ReceivedRest(s, OnRead(s, g, Received(r)), g, r);
  }

  lemma ReceivedRest(s: Session, t: Session, g: nat, r: Request)
    requires SessionInv(s) && s.phase == Reading && s.generation == g && s.pendingReads == multiset{}
    requires t.phase == AwaitingHandler && t.closing == s.closing && t.request == Some(r) && t.generation == g
    requires t.pendingReads == s.pendingReads && t.pendingWrites == s.pendingWrites && t.operations == s.operations
    requires t.received == s.received[g := r] && t.pendingCalls == s.pendingCalls + multiset{(g, r)}
    requires TimerSound(t)
    ensures SessionInv(t)
  {
    AlternatesStill(s.operations, s.received, g, r);
    CallAdded(s, t, g, r);
    ReceivedPhase(s, t, g, r);
  }

  lemma ReceivedPhase(s: Session, t: Session, g: nat, r: Request)
    requires PhaseSound(s) && OneOperation(s) && s.phase == Reading && s.generation == g && s.pendingReads == multiset{}
    requires t.phase == AwaitingHandler && t.closing == s.closing && t.request == Some(r) && t.generation == g
    requires t.pendingReads == s.pendingReads && t.pendingWrites == s.pendingWrites && t.operations == s.operations
    requires t.received == s.received[g := r]
    ensures PhaseSound(t) && OneOperation(t)
  {
  }

  lemma ReceivedTimer(s: Session, g: nat, r: Request)
    requires TimersPast(s) && s.phase == Reading && s.generation == g
    ensures TimerSound(OnRead(s, g, Received(r)))
  {
  }

  /** A fresh generation's call is pending once, beside calls of earlier generations. */
  lemma CallAdded(s: Session, t: Session, g: nat, r: Request)
    requires CallsSound(s) && g !in s.received && g >= 1
    requires t.received == s.received[g := r] && t.pendingCalls == s.pendingCalls + multiset{(g, r)}
    requires t.generation == s.generation == g && t.request == Some(r)
    ensures CallsSound(t) && Awaited(t)
  {
    assert (g, r) !in s.pendingCalls;
    forall c | c in t.pendingCalls ensures c.0 in t.received && t.received[c.0] == c.1 {
      assert c == (g, r) || c in s.pendingCalls;
    }
  }

  lemma CancelHolds(s: Session)
    requires SessionInv(s) && s.phase != Closed
    ensures SessionInv(CancelTimer(s))
  {
  }

  lemma TimerDelivered(s: Session, mode: TimerMode, g: nat)
    requires SessionInv(s) && (mode, g) in s.pendingTimers
    ensures SessionInv(s.(pendingTimers := s.pendingTimers - multiset{(mode, g)})) && mode != NoTimer
  {
  }

  lemma TimerHolds(s: Session, mode: TimerMode, g: nat, aborted: bool)
    requires SessionInv(s) && Enabled(s, TimerCompletes(mode, g, aborted))
    ensures SessionInv(Next(s, TimerCompletes(mode, g, aborted)))
  {
    TimerDelivered(s, mode, g);
    TimerHandled(s.(pendingTimers := s.pendingTimers - multiset{(mode, g)}), mode, g, aborted);
  }

  lemma TimerHandled(t: Session, mode: TimerMode, g: nat, aborted: bool)
    requires SessionInv(t) && mode != NoTimer
    ensures SessionInv(OnTimer(t, mode, g, aborted))
  {
    if !aborted && !t.closing && TimerMatches(t, mode, g) {
      var u := CancelTimer(t);
      if mode == KeepAliveIdle || t.phase == Writing {
        CloseHolds(u);
      } else {
        WriteHolds(u, u.generation, DeadlineResponse(u.request.value));
      }
    }
  }

  lemma ReadHolds(s: Session, g: nat, outcome: ReadOutcome)
    requires SessionInv(s) && Enabled(s, ReadCompletes(g, outcome))
    ensures SessionInv(Next(s, ReadCompletes(g, outcome)))
  {
    NoneLeft(s.pendingReads, g);
    var t := s.(pendingReads := s.pendingReads - multiset{g});
    assert SessionInv(t);
    if t.phase == Reading && t.generation == g {
      var u := CancelTimer(t);
      if outcome.EndOfStream? {
        CloseHolds(u);
      } else if outcome.BadRequest? {
        WriteHolds(u, g, ReadErrorResponse);
      } else if outcome.Received? {
        ReceivedHolds(t, g, outcome.request);
      }
    }
  }

  /** A delivered handler call was for the request of its generation; only the awaited one can change the phase. */
  lemma CallDelivered(s: Session, g: nat, r: Request)
    requires SessionInv(s) && (g, r) in s.pendingCalls
    ensures g in s.received && s.received[g] == r
    ensures CallsSound(s.(pendingCalls := s.pendingCalls - multiset{(g, r)}))
    ensures !(s.phase == AwaitingHandler && s.generation == g) ==>
              Awaited(s.(pendingCalls := s.pendingCalls - multiset{(g, r)}))
  {
    forall c | c in s.pendingCalls - multiset{(g, r)} ensures c.0 in s.received && s.received[c.0] == c.1 {
      assert c in s.pendingCalls;
    }
  }

  lemma HandlerAnswers(s: Session, t: Session, g: nat, r: Request, needEof: bool)
    requires SessionInv(s) && s.phase == AwaitingHandler && s.generation == g && s.received[g] == r
    requires t == s.(pendingCalls := t.pendingCalls) && CallsSound(t)
    ensures SessionInv(WriteResponse(t, g, HandlerResponse(r, needEof)))
  {
    WriteHolds(t, g, HandlerResponse(r, needEof));
  }

  lemma CallIgnored(s: Session, t: Session)
    requires SessionInv(s) && t == s.(pendingCalls := t.pendingCalls) && CallsSound(t) && Awaited(t)
    requires s.pendingCalls != multiset{}
    ensures SessionInv(t)
  {
    assert s != Fresh(s.config);
  }

  lemma HandlerHolds(s: Session, g: nat, r: Request, needEof: bool)
    requires SessionInv(s) && Enabled(s, HandlerCompletes(g, r, needEof))
    ensures SessionInv(Next(s, HandlerCompletes(g, r, needEof)))
  {
    CallDelivered(s, g, r);
    var t := s.(pendingCalls := s.pendingCalls - multiset{(g, r)});
    if s.phase == AwaitingHandler && s.generation == g {
      HandlerAnswers(s, t, g, r, needEof);
    } else {
      CallIgnored(s, t);
    }
  }

  lemma WriteDelivered(s: Session, g: nat, c: bool)
    requires SessionInv(s) && (g, c) in s.pendingWrites
    ensures
      var t := s.(pendingWrites := s.pendingWrites - multiset{(g, c)});
      && SessionInv(t) && t.pendingWrites == multiset{}
      && (t.phase == Writing ==>
            t.generation == g && |t.operations| > 0 && c == NeedsEof(t.operations[|t.operations| - 1].response))
  {
    NoneLeft(s.pendingWrites, (g, c));
    if s.phase == Writing {
      assert (g, c) == (s.generation, NeedsEof(s.operations[|s.operations| - 1].response));
    }
  }

  /** After a written response the session closes or waits for the next request. */
  lemma WriteOver(s: Session, c: bool)
    requires SessionInv(s) && s.phase == Writing && s.pendingWrites == multiset{}
    requires c == NeedsEof(s.operations[|s.operations| - 1].response)
    ensures SessionInv(if c then Close(s) else StartRead(s, KeepAliveFollowup))
  {
    if c {
      CloseHolds(s);
    } else {
      StartReadHolds(s, KeepAliveFollowup);
    }
  }

  lemma WriteCompletionHolds(s: Session, g: nat, c: bool, outcome: WriteOutcome)
    requires SessionInv(s) && Enabled(s, WriteCompletes(g, c, outcome))
    ensures SessionInv(Next(s, WriteCompletes(g, c, outcome)))
  {
    WriteDelivered(s, g, c);
    WriteHandled(s.(pendingWrites := s.pendingWrites - multiset{(g, c)}), g, c, outcome);
  }

  lemma WriteHandled(t: Session, g: nat, c: bool, outcome: WriteOutcome)
    requires SessionInv(t) && t.pendingWrites == multiset{}
    requires t.phase == Writing ==> t.generation == g && c == NeedsEof(t.operations[|t.operations| - 1].response)
    ensures SessionInv(OnWrite(t, g, c, outcome))
  {
    if t.phase == Writing {
      CancelHolds(t);
      WriteOver(CancelTimer(t), c);
    }
  }

  lemma NextHolds(s: Session, e: Event)
    requires SessionInv(s) && Enabled(s, e)
    ensures SessionInv(Next(s, e))
  {
    match e
    case Run => StartReadHolds(s, Initial);
    case ReadCompletes(g, outcome) => ReadHolds(s, g, outcome);
    case WriteCompletes(g, c, outcome) => WriteCompletionHolds(s, g, c, outcome);
    case TimerCompletes(m, g, aborted) => TimerHolds(s, m, g, aborted);
    case HandlerCompletes(g, r, needEof) => HandlerHolds(s, g, r, needEof);
  }

  /** The invariant holds under every interleaving of completions. */
  lemma {:induction false} RunHolds(s: Session, run: seq<Event>)
    requires SessionInv(s) && Legal(s, run)
    ensures SessionInv(Final(s, run))
    decreases |run|
  {
    if run != [] {
      NextHolds(s, run[0]);
      RunHolds(Next(s, run[0]), run[1..]);
    }
  }

  // ---- what the invariant says ----

  /** A run of a connection, from its construction. */
  ghost predicate Reachable(s: Session) {
    exists config, run :: Legal(Fresh(config), run) && Final(Fresh(config), run) == s
  }

  lemma ReachableHolds(s: Session)
    requires Reachable(s)
    ensures SessionInv(s)
  {
    var config, run :| Legal(Fresh(config), run) && Final(Fresh(config), run) == s;
    FreshHolds(config);
    RunHolds(Fresh(config), run);
  }

  /** Under every interleaving at most one read or write is pending, and only the one its phase is about. */
  lemma OneOperationPending(s: Session)
    requires Reachable(s)
    ensures |s.pendingReads| + |s.pendingWrites| <= 1
    ensures s.phase == AwaitingHandler ==> s.pendingReads == multiset{} && s.pendingWrites == multiset{}
    ensures s.phase == Reading ==> s.pendingWrites == multiset{}
    ensures s.phase == Writing ==> s.pendingReads == multiset{}
  {
    ReachableHolds(s);
  }

  /**
   * Under every interleaving every generation has at most one read and one response, answers go out in request
   * order, each computed for its own request, and a response that closes the connection is the last operation.
   */
  lemma WireIsSound(s: Session, i: int, j: int)
    requires Reachable(s) && 0 <= i < j < |s.operations|
    ensures s.operations[i].generation <= s.operations[j].generation
    ensures s.operations[i].Read? == s.operations[j].Read? ==> s.operations[i].generation < s.operations[j].generation
    ensures s.operations[j].Write? && s.operations[j].response.ReadErrorResponse? ==>
              s.operations[j].generation !in s.received
    ensures s.operations[j].Write? && !s.operations[j].response.ReadErrorResponse? ==>
              && s.operations[j].generation in s.received
              && s.operations[j].response.request == s.received[s.operations[j].generation]
    ensures s.operations[i].Write? ==>
              s.operations[i].response.HandlerResponse? && !s.operations[i].response.needEof
  {
    ReachableHolds(s);
    assert InTurn(s.operations[i], i, |s.operations|, s.received);
    assert InTurn(s.operations[j], j, |s.operations|, s.received);
  }

  /** Only more has been started, and nothing more by a session that was closing. */
  predicate Extends(s: Session, d: Session) {
    && s.operations <= d.operations && s.timerGeneration <= d.timerGeneration
    && (s.closing ==> d.closing && d.operations == s.operations)
  }

  lemma TimerExtends(s: Session, mode: TimerMode, g: nat, aborted: bool)
    ensures Extends(s, OnTimer(s, mode, g, aborted))
  {
  }

  lemma ReadExtends(s: Session, g: nat, outcome: ReadOutcome)
    ensures Extends(s, OnRead(s, g, outcome))
  {
  }

  lemma WriteExtends(s: Session, g: nat, shouldClose: bool, outcome: WriteOutcome)
    ensures Extends(s, OnWrite(s, g, shouldClose, outcome))
  {
  }

  lemma NextExtends(s: Session, e: Event)
    requires Enabled(s, e)
    ensures Extends(s, Next(s, e))
  {
    match e
    case Run =>
    case ReadCompletes(g, outcome) => ReadExtends(s.(pendingReads := s.pendingReads - multiset{g}), g, outcome);
    case WriteCompletes(g, c, outcome) =>
      WriteExtends(s.(pendingWrites := s.pendingWrites - multiset{(g, c)}), g, c, outcome);
    case TimerCompletes(m, g, aborted) =>
      TimerExtends(s.(pendingTimers := s.pendingTimers - multiset{(m, g)}), m, g, aborted);
    case HandlerCompletes(_, _, _) =>
  }

  /** After close nothing is started, whatever completions still arrive. */
  lemma {:induction false} NothingAfterClose(s: Session, run: seq<Event>)
    requires s.closing && Legal(s, run)
    ensures Final(s, run).closing && Final(s, run).operations == s.operations
    decreases |run|
  {
    if run != [] {
      NextExtends(s, run[0]);
      NothingAfterClose(Next(s, run[0]), run[1..]);
    }
  }

  lemma {:induction false} OperationsExtend(s: Session, run: seq<Event>)
    requires Legal(s, run)
    ensures s.operations <= Final(s, run).operations
    ensures s.timerGeneration <= Final(s, run).timerGeneration
    decreases |run|
  {
    if run != [] {
      NextExtends(s, run[0]);
      OperationsExtend(Next(s, run[0]), run[1..]);
    }
  }

  /** Once a response that closes the connection is started, it stays the last operation for ever. */
  lemma ClosingResponseIsLast(s: Session, run: seq<Event>)
    requires SessionInv(s) && Legal(s, run)
    requires |s.operations| > 0 && s.operations[|s.operations| - 1].Write?
    requires s.operations[|s.operations| - 1].response.HandlerResponse? ==>
               s.operations[|s.operations| - 1].response.needEof
    ensures Final(s, run).operations == s.operations
  {
    var d, n := Final(s, run), |s.operations|;
    OperationsExtend(s, run);
    RunHolds(s, run);
    assert d.operations[n - 1] == s.operations[n - 1];
    assert InTurn(s.operations[n - 1], n - 1, n, s.received);
    assert InTurn(d.operations[n - 1], n - 1, |d.operations|, d.received);
  }

  /** An expired deadline on an unanswered request starts the 503, and nothing on this connection follows it. */
  lemma DeadlineAnswersAndEnds(s: Session, g: nat, run: seq<Event>)
    requires SessionInv(s) && s.phase == AwaitingHandler && s.timerMode == RequestDeadline && s.timerGeneration == g
    requires Enabled(s, TimerCompletes(RequestDeadline, g, false))
    requires Legal(Next(s, TimerCompletes(RequestDeadline, g, false)), run)
    ensures s.generation in s.received
    ensures Final(Next(s, TimerCompletes(RequestDeadline, g, false)), run).operations
         == s.operations + [Write(s.generation, DeadlineResponse(s.received[s.generation]))]
  {
    var e := TimerCompletes(RequestDeadline, g, false);
    NextHolds(s, e);
    ClosingResponseIsLast(Next(s, e), run);
  }

  // ---- timers ----

  /** The timer handler without its inner guards. */
  function OnTimerUnguarded(s: Session, mode: TimerMode): Session {
    var t := CancelTimer(s);
    if mode == KeepAliveIdle || t.phase == Writing then Close(t)
    else WriteResponse(t, t.generation, DeadlineResponse(if t.request.Some? then t.request.value else 0))
  }

  /** What a current pending expiry implies: everything the guards behind the match check. */
  lemma CurrentTimerMeans(s: Session, mode: TimerMode, g: nat)
    requires SessionInv(s) && (mode, g) in s.pendingTimers && g == s.timerGeneration
    ensures !s.closing && mode == s.timerMode && mode != NoTimer
    ensures mode == KeepAliveIdle ==> s.phase == Reading && s.kind == KeepAliveFollowup
    ensures mode == RequestDeadline ==> s.request.Some? && (s.phase == AwaitingHandler || s.phase == Writing)
  {
  }

  lemma GuardsRedundant(t: Session, mode: TimerMode, g: nat, aborted: bool)
    requires mode != NoTimer && g <= t.timerGeneration
    requires g == t.timerGeneration ==>
               && !t.closing && mode == t.timerMode
               && (mode == KeepAliveIdle ==> t.phase == Reading && t.kind == KeepAliveFollowup)
               && (mode == RequestDeadline ==> t.request.Some? && (t.phase == AwaitingHandler || t.phase == Writing))
    ensures OnTimer(t, mode, g, aborted) == if !aborted && g == t.timerGeneration then OnTimerUnguarded(t, mode) else t
  {
  }

  /**
   * A pending expiry acts exactly when it is not aborted and its generation is current; then the closing, phase,
   * kind and request checks behind the match never fire.
   */
  lemma TimerGuardsNeverFire(s: Session, mode: TimerMode, g: nat, aborted: bool)
    requires SessionInv(s) && Enabled(s, TimerCompletes(mode, g, aborted))
    ensures
      var t := s.(pendingTimers := s.pendingTimers - multiset{(mode, g)});
      Next(s, TimerCompletes(mode, g, aborted)) ==
      if !aborted && g == s.timerGeneration then OnTimerUnguarded(t, mode) else t
  {
    if g == s.timerGeneration {
      CurrentTimerMeans(s, mode, g);
    }
    GuardsRedundant(s.(pendingTimers := s.pendingTimers - multiset{(mode, g)}), mode, g, aborted);
  }

  /** An expiry that is not current never acts in any later state. */
  lemma StaleTimerNeverActs(s: Session, run: seq<Event>, mode: TimerMode, g: nat, aborted: bool)
    requires Legal(s, run) && g < s.timerGeneration
    requires Enabled(Final(s, run), TimerCompletes(mode, g, aborted))
    ensures
      var d := Final(s, run);
      Next(d, TimerCompletes(mode, g, aborted)) == d.(pendingTimers := d.pendingTimers - multiset{(mode, g)})
  {
    OperationsExtend(s, run);
  }

  /**
   * With the timeouts configured, nothing waits untimed: an unanswered request has its deadline armed, and a
   * connection reading a follow-up request its idle timeout. A timeout that is not configured is never armed.
   */
  ghost predicate WaitsTimed(s: Session) {
    && (!s.config.requestDeadline ==> s.timerMode != RequestDeadline)
    && (!s.config.keepAliveIdle ==> s.timerMode != KeepAliveIdle)
    && (s.phase == AwaitingHandler && s.config.requestDeadline ==> s.timerMode == RequestDeadline)
    && (s.phase == Reading && s.kind == KeepAliveFollowup && s.config.keepAliveIdle && s.pendingReads != multiset{} ==>
          s.timerMode == KeepAliveIdle)
  }

  lemma TimerWaitsTimed(t: Session, mode: TimerMode, g: nat, aborted: bool)
    requires WaitsTimed(t) && mode != NoTimer
    requires TimerMatches(t, mode, g) ==>
               && (mode == KeepAliveIdle ==> t.phase == Reading && t.kind == KeepAliveFollowup)
               && (mode == RequestDeadline ==> t.request.Some? && (t.phase == AwaitingHandler || t.phase == Writing))
    ensures WaitsTimed(OnTimer(t, mode, g, aborted))
  {
  }

  lemma ReadWaitsTimed(t: Session, g: nat, outcome: ReadOutcome)
    requires WaitsTimed(t) && t.pendingReads == multiset{}
    ensures WaitsTimed(OnRead(t, g, outcome))
  {
  }

  lemma WriteWaitsTimed(t: Session, g: nat, c: bool, outcome: WriteOutcome)
    requires WaitsTimed(t)
    ensures WaitsTimed(OnWrite(t, g, c, outcome))
  {
  }

  lemma ReadDelivered(s: Session, g: nat)
    requires SessionInv(s) && g in s.pendingReads
    ensures s.pendingReads - multiset{g} == multiset{}
    ensures s.phase == Reading ==> g == s.generation && !s.closing
  {
    NoneLeft(s.pendingReads, g);
  }

  lemma NextWaitsTimed(s: Session, e: Event)
    requires SessionInv(s) && WaitsTimed(s) && Enabled(s, e)
    ensures WaitsTimed(Next(s, e))
  {
    match e
    case Run =>
    case ReadCompletes(g, outcome) =>
      ReadDelivered(s, g);
      ReadWaitsTimed(s.(pendingReads := multiset{}), g, outcome);
    case WriteCompletes(g, c, outcome) =>
      WriteWaitsTimed(s.(pendingWrites := s.pendingWrites - multiset{(g, c)}), g, c, outcome);
    case TimerCompletes(m, g, aborted) =>
      if g == s.timerGeneration { CurrentTimerMeans(s, m, g); }
      TimerWaitsTimed(s.(pendingTimers := s.pendingTimers - multiset{(m, g)}), m, g, aborted);
    case HandlerCompletes(_, _, _) =>
  }

  lemma {:induction false} RunWaitsTimed(s: Session, run: seq<Event>)
    requires SessionInv(s) && WaitsTimed(s) && Legal(s, run)
    ensures WaitsTimed(Final(s, run))
    decreases |run|
  {
    if run != [] {
      NextHolds(s, run[0]);
      NextWaitsTimed(s, run[0]);
      RunWaitsTimed(Next(s, run[0]), run[1..]);
    }
  }

  lemma ReachableWaitsTimed(s: Session)
    requires Reachable(s)
    ensures WaitsTimed(s)
  {
    var config, run :| Legal(Fresh(config), run) && Final(Fresh(config), run) == s;
    FreshHolds(config);
    RunWaitsTimed(Fresh(config), run);
  }

  // ---- completed reads and writes ----

  /** What a completed read leads to: a closed session, a 400 that ends it, a request handed over, or nothing more. */
  lemma ReadLeadsOn(s: Session, g: nat, outcome: ReadOutcome)
    requires SessionInv(s) && s.phase == Reading && Enabled(s, ReadCompletes(g, outcome))
    ensures g == s.generation
    ensures
      var d := Next(s, ReadCompletes(g, outcome));
      match outcome
      case EndOfStream => d.closing && d.operations == s.operations
      case BadRequest => d.operations == s.operations + [Write(g, ReadErrorResponse)]
      case Received(r) =>
        && d.phase == AwaitingHandler && d.request == Some(r) && (g, r) in d.pendingCalls
        && d.operations == s.operations
      case _ => !d.closing && d.pendingReads == multiset{} && d.operations == s.operations
  {
    ReadDelivered(s, g);
  }

  /**
   * A completed write was that of the last operation, a response. Written, it closes the session if the session made
   * the response itself or its handler asked for the end of the stream, and starts the next generation's read
   * otherwise; after a failed write nothing more is started.
   */
  lemma WriteLeadsOn(s: Session, g: nat, shouldClose: bool, outcome: WriteOutcome)
    requires PhaseSound(s) && OneOperation(s) && s.phase == Writing
    requires Enabled(s, WriteCompletes(g, shouldClose, outcome))
    ensures g == s.generation && |s.operations| > 0 && s.operations[|s.operations| - 1].Write?
    ensures
      var response := s.operations[|s.operations| - 1].response;
      shouldClose <==> !response.HandlerResponse? || response.needEof
    ensures
      var d := Next(s, WriteCompletes(g, shouldClose, outcome));
      if outcome != Written then
        !d.closing && d.phase == Writing && d.operations == s.operations && d.timerMode == NoTimer
      else if shouldClose then d.closing && d.operations == s.operations
      else
        && !d.closing && d.phase == Reading && d.kind == KeepAliveFollowup && d.generation == g + 1
        && d.operations == s.operations + [Read(g + 1)] && d.pendingReads == s.pendingReads + multiset{g + 1}
  {
    WritingMeans(s, g, shouldClose);
    if outcome == Written {
      WriteStep(s, g, shouldClose);
    }
  }

  lemma WritingMeans(s: Session, g: nat, c: bool)
    requires PhaseSound(s) && OneOperation(s) && s.phase == Writing && (g, c) in s.pendingWrites
    ensures g == s.generation && !s.closing
    ensures |s.operations| > 0 && s.operations[|s.operations| - 1].Write?
    ensures c == NeedsEof(s.operations[|s.operations| - 1].response)
  {
  }

  lemma WriteStep(s: Session, g: nat, shouldClose: bool)
    requires s.phase == Writing && s.generation == g && !s.closing
    requires Enabled(s, WriteCompletes(g, shouldClose, Written))
    ensures
      var d := Next(s, WriteCompletes(g, shouldClose, Written));
      if shouldClose then d.closing && d.operations == s.operations
      else
        && !d.closing && d.phase == Reading && d.kind == KeepAliveFollowup && d.generation == g + 1
        && d.operations == s.operations + [Read(g + 1)] && d.pendingReads == s.pendingReads + multiset{g + 1}
  {
  }

  // ---- handlers ----

  /** The awaited handler can always still answer, and its answer is the one sent. */
  lemma AwaitedIsAnswered(s: Session, needEof: bool)
    requires SessionInv(s) && s.phase == AwaitingHandler
    ensures s.generation in s.received
    ensures
      var e := HandlerCompletes(s.generation, s.received[s.generation], needEof);
      && Enabled(s, e)
      && Next(s, e).operations == s.operations + [Write(s.generation, HandlerResponse(e.request, needEof))]
  {
    assert s.pendingCalls[(s.generation, s.request.value)] == 1;
  }

  /** A response just started is the one pending write, and its completion closes exactly when it has to. */
  ghost predicate EndsWith(s: Session, response: Response, close: bool) {
    && s.phase == Writing && |s.operations| > 0
    && s.operations[|s.operations| - 1] == Write(s.generation, response)
    && (forall g, c :: (g, c) in s.pendingWrites <==> g == s.generation && c == close)
    && Enabled(s, WriteCompletes(s.generation, close, Written))
    && Next(s, WriteCompletes(s.generation, close, Written)).closing == close
    && Next(s, WriteCompletes(s.generation, close, Written)).operations
    == s.operations + if close then [] else [Read(s.generation + 1)]
  }

  lemma StartedResponseEnds(s: Session, response: Response)
    requires s.phase == Writing && !s.closing && |s.operations| > 0
    requires s.operations[|s.operations| - 1] == Write(s.generation, response)
    requires s.pendingWrites == multiset{(s.generation, NeedsEof(response))}
    ensures EndsWith(s, response, !response.HandlerResponse? || response.needEof)
  {
    WriteStep(s, s.generation, NeedsEof(response));
  }

  /**
   * What the handler's answer decides: delivered to any connection that awaits it, it starts the one write pending;
   * when that is written the connection closes exactly if the answer needed the end of the stream, and otherwise
   * reads its next request.
   */
  lemma AnswerDecidesConnection(s: Session, needEof: bool)
    requires Reachable(s) && s.phase == AwaitingHandler
    ensures s.generation in s.received
    ensures
      var e := HandlerCompletes(s.generation, s.received[s.generation], needEof);
      && Enabled(s, e)
      && Next(s, e).generation == s.generation
      && Next(s, e).operations == s.operations + [Write(s.generation, HandlerResponse(e.request, needEof))]
      && EndsWith(Next(s, e), HandlerResponse(e.request, needEof), needEof)
  {
    ReachableHolds(s);
    AwaitedIsAnswered(s, needEof);
    var r := s.received[s.generation];
    StartedResponseEnds(Next(s, HandlerCompletes(s.generation, r, needEof)), HandlerResponse(r, needEof));
  }

  /** The 503 of an expired deadline closes the connection once it is written. */
  lemma DeadlineResponseCloses(s: Session)
    requires Reachable(s) && s.phase == AwaitingHandler
    requires Enabled(s, TimerCompletes(RequestDeadline, s.timerGeneration, false))
    ensures s.request.Some?
    ensures EndsWith(Next(s, TimerCompletes(RequestDeadline, s.timerGeneration, false)),
                     DeadlineResponse(s.request.value), true)
  {
    ReachableHolds(s);
    CurrentTimerMeans(s, RequestDeadline, s.timerGeneration);
    var t := s.(pendingTimers := s.pendingTimers - multiset{(RequestDeadline, s.timerGeneration)});
    assert OnTimer(t, RequestDeadline, s.timerGeneration, false)
        == WriteResponse(CancelTimer(t), s.generation, DeadlineResponse(s.request.value));
    StartedResponseEnds(Next(s, TimerCompletes(RequestDeadline, s.timerGeneration, false)),
                        DeadlineResponse(s.request.value));
  }

  /** The 400 of an unreadable request closes the connection once it is written. */
  lemma ReadErrorResponseCloses(s: Session, g: nat)
    requires Reachable(s) && s.phase == Reading && Enabled(s, ReadCompletes(g, BadRequest))
    ensures EndsWith(Next(s, ReadCompletes(g, BadRequest)), ReadErrorResponse, true)
  {
    ReachableHolds(s);
    ReadDelivered(s, g);
    BadRequestAnswered(s, g);
    StartedResponseEnds(Next(s, ReadCompletes(g, BadRequest)), ReadErrorResponse);
  }

  lemma BadRequestAnswered(s: Session, g: nat)
    requires s.phase == Reading && s.generation == g && !s.closing && g in s.pendingReads
    requires s.pendingWrites == multiset{}
    ensures
      var d := Next(s, ReadCompletes(g, BadRequest));
      && d.phase == Writing && !d.closing && d.generation == g
      && d.operations == s.operations + [Write(g, ReadErrorResponse)]
      && d.pendingWrites == multiset{(g, NeedsEof(ReadErrorResponse))}
  {
  }

  /** A handler whose request has been answered already, or whose connection is closing, is ignored for ever. */
  lemma LateHandlerIsIgnored(s: Session, run: seq<Event>, g: nat, r: Request, needEof: bool)
    requires SessionInv(s) && Legal(s, run) && (2 * g <= |s.operations| || s.closing)
    requires Enabled(Final(s, run), HandlerCompletes(g, r, needEof))
    ensures
      var d := Final(s, run);
      Next(d, HandlerCompletes(g, r, needEof)) == d.(pendingCalls := d.pendingCalls - multiset{(g, r)})
  {
    OperationsExtend(s, run);
    RunHolds(s, run);
    if s.closing {
      NothingAfterClose(s, run);
    }
  }
}
