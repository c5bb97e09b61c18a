/**
 * The session object: handlers that update its fields in place. The ghost fields record what is pending with
 * the socket, the timer and the request handlers, and what has been started on the wire.
 */
module HttpSession {
  import opened Common
  import opened SessionProtocol

  class Connection {
    const config: Config
    var phase: Phase
    var closing: bool
    var generation: nat
    var kind: ReadKind
    var request: Option<Request>
    var timerMode: TimerMode
    var timerGeneration: nat
    ghost var pendingReads: multiset<nat>
    ghost var pendingWrites: multiset<(nat, bool)>
    ghost var pendingTimers: multiset<(TimerMode, nat)>
    ghost var pendingCalls: multiset<(nat, Request)>
    ghost var operations: seq<SocketOp>
    ghost var received: map<nat, Request>

    ghost function View(): Session
      reads this
    {
      Session(config, phase, closing, generation, kind, request, timerMode, timerGeneration,
              pendingReads, pendingWrites, pendingTimers, pendingCalls, operations, received)
    }

    constructor (config: Config)
      ensures View() == Fresh(config)
      ensures SessionInv(View())
    {
      this.config := config;
      phase, closing, generation, kind, request := Closed, false, 0, Initial, None;
      timerMode, timerGeneration := NoTimer, 0;
      pendingReads, pendingWrites, pendingTimers, pendingCalls := multiset{}, multiset{}, multiset{}, multiset{};
      operations, received := [], map[];
      new;
      FreshHolds(config);
    }

    // ---- timer_state ----

    method DisarmTimer()
      modifies `timerMode, `timerGeneration
      ensures View() == CancelTimer(old(View()))
    {
      timerMode := NoTimer;
      timerGeneration := timerGeneration + 1;
    }

    method RearmTimer(mode: TimerMode)
      modifies `timerMode, `timerGeneration, `pendingTimers
      ensures View() == ArmTimer(old(View()), mode)
    {
      timerMode := mode;
      timerGeneration := timerGeneration + 1;
      pendingTimers := pendingTimers + multiset{(mode, timerGeneration)};
    }

    method SetReadTimer(next: ReadKind)
      modifies `timerMode, `timerGeneration, `pendingTimers
      ensures View() == ReadTimer(old(View()), next)
    {
      if next == KeepAliveFollowup && config.keepAliveIdle {
        RearmTimer(KeepAliveIdle);
      } else {
        DisarmTimer();
      }
    }

    method ArmRequestDeadline()
      modifies `timerMode, `timerGeneration, `pendingTimers
      ensures View() == DeadlineTimer(old(View()))
    {
      if config.requestDeadline {
        RearmTimer(RequestDeadline);
      } else {
        DisarmTimer();
      }
    }

    // ---- request_cycle_state ----

    method BeginRequestCycle(next: ReadKind)
      modifies `request, `generation, `kind, `phase
      ensures View() == BeginCycle(old(View()), next)
    {
      request, generation, kind, phase := None, generation + 1, next, Reading;
    }

    method SetRequest(g: nat, r: Request)
      modifies `request, `phase, `received
      ensures View() == AcceptRequest(old(View()), g, r)
    {
      request, phase := Some(r), AwaitingHandler;
      received := received[g := r];
    }

    // ---- starting operations ----

    method AsyncRead()
      modifies `pendingReads, `operations
      ensures View() == SubmitRead(old(View()))
    {
      pendingReads := pendingReads + multiset{generation};
      operations := operations + [Read(generation)];
    }

    method AsyncHandle(g: nat, r: Request)
      modifies `pendingCalls
      ensures View() == SubmitCall(old(View()), g, r)
    {
      pendingCalls := pendingCalls + multiset{(g, r)};
    }

    method BeginRead(next: ReadKind)
      modifies this
      ensures View() == StartRead(old(View()), next)
      ensures old(closing) ==> View() == old(View())
      ensures !old(closing) ==>
                && phase == Reading && request.None? && kind == next && generation == old(generation) + 1
                && operations == old(operations) + [Read(generation)]
                && pendingReads == old(pendingReads) + multiset{generation}
                && timerMode == if next == KeepAliveFollowup && config.keepAliveIdle then KeepAliveIdle else NoTimer
    {
      if closing {
        return;
      }
      BeginRequestCycle(next);
      SetReadTimer(next);
      AsyncRead();
    }

    method SendResponse(g: nat, response: Response)
      modifies `phase, `pendingWrites, `operations
      ensures View() == WriteResponse(old(View()), g, response)
      ensures old(closing) ==> View() == old(View())
      ensures !old(closing) ==>
                && phase == Writing && operations == old(operations) + [Write(g, response)]
                && pendingWrites == old(pendingWrites) + multiset{(g, !response.HandlerResponse? || response.needEof)}
    {
      if closing {
        return;
      }
      phase := Writing;
      var shouldClose := NeedsEof(response);
      pendingWrites := pendingWrites + multiset{(g, shouldClose)};
      operations := operations + [Write(g, response)];
    }

    method CloseConnection()
      modifies `phase, `closing, `timerMode, `timerGeneration, `request, `kind
      ensures View() == Close(old(View()))
      ensures closing && (old(closing) ==> View() == old(View()))
      ensures !old(closing) ==>
                && phase == Closed && request.None? && kind == Initial
                && timerMode == NoTimer && timerGeneration == old(timerGeneration) + 1
    {
      if closing {
        return;
      }
      closing := true;
      phase := Closed;
      DisarmTimer();
      request := None;
      kind := Initial;
    }

    // ---- completions ----

    /** `run`, called once on a new session. */
    method Start()
      requires Enabled(View(), Run)
      modifies this
      ensures View() == Next(old(View()), Run)
      ensures old(SessionInv(View())) ==> SessionInv(View())
    {
      if SessionInv(View()) {
        NextHolds(View(), Run);
      }
      BeginRead(Initial);
    }

    /** The idle timeout closes a connection that still waits for its next request. */
    method OnIdleExpired()
      modifies this
      ensures View() == IdleExpired(old(View()))
    {
      if phase != Reading || kind != KeepAliveFollowup {
        return;
      }
      CloseConnection();
    }

    /** The deadline answers an unanswered request with a 503, and closes a connection still writing its answer. */
    method OnDeadlineExpired()
      modifies this
      ensures View() == DeadlineExpired(old(View()))
    {
      if request.None? {
        return;
      }
      if phase == Writing {
        CloseConnection();
        return;
      }
      if phase != AwaitingHandler {
        return;
      }
      SendResponse(generation, DeadlineResponse(request.value));
    }

    method OnTimerFired(mode: TimerMode, g: nat, aborted: bool)
      requires Enabled(View(), TimerCompletes(mode, g, aborted))
      modifies this
      ensures View() == Next(old(View()), TimerCompletes(mode, g, aborted))
      ensures old(SessionInv(View())) ==> SessionInv(View())
    {
      if SessionInv(View()) {
        NextHolds(View(), TimerCompletes(mode, g, aborted));
      }
      pendingTimers := pendingTimers - multiset{(mode, g)};
      if aborted || closing || timerMode != mode || timerGeneration != g {
        return;
      }
      DisarmTimer();
      match mode
      case KeepAliveIdle => OnIdleExpired();
      case RequestDeadline => OnDeadlineExpired();
      case NoTimer =>
    }

    method OnReadDone(g: nat, outcome: ReadOutcome)
      requires Enabled(View(), ReadCompletes(g, outcome))
      modifies this
      ensures View() == Next(old(View()), ReadCompletes(g, outcome))
      ensures old(SessionInv(View())) ==> SessionInv(View())
    {
      if SessionInv(View()) {
        NextHolds(View(), ReadCompletes(g, outcome));
      }
      pendingReads := pendingReads - multiset{g};
      if phase != Reading || generation != g {
        return;
      }
      DisarmTimer();
      match outcome
      case EndOfStream => CloseConnection();
      case BadRequest => SendResponse(g, ReadErrorResponse);
      case SocketGone =>
      case SocketFailed =>
      case Received(r) =>
        SetRequest(g, r);
        ArmRequestDeadline();
        AsyncHandle(g, r);
    }

    method OnHandlerDone(g: nat, r: Request, needEof: bool)
      requires Enabled(View(), HandlerCompletes(g, r, needEof))
      modifies this
      ensures View() == Next(old(View()), HandlerCompletes(g, r, needEof))
      ensures old(SessionInv(View())) ==> SessionInv(View())
    {
      if SessionInv(View()) {
        NextHolds(View(), HandlerCompletes(g, r, needEof));
      }
      pendingCalls := pendingCalls - multiset{(g, r)};
      if closing || phase != AwaitingHandler || generation != g {
        return;
      }
      SendResponse(g, HandlerResponse(r, needEof));
    }

    method OnWriteDone(g: nat, shouldClose: bool, outcome: WriteOutcome)
      requires Enabled(View(), WriteCompletes(g, shouldClose, outcome))
      modifies this
      ensures View() == Next(old(View()), WriteCompletes(g, shouldClose, outcome))
      ensures old(SessionInv(View())) ==> SessionInv(View())
    {
      if SessionInv(View()) {
        NextHolds(View(), WriteCompletes(g, shouldClose, outcome));
      }
      pendingWrites := pendingWrites - multiset{(g, shouldClose)};
      if phase != Writing || generation != g {
        return;
      }
      DisarmTimer();
      if outcome.WriteIgnored? || outcome.WriteFailed? {
        return;
      }
      if shouldClose {
        CloseConnection();
        return;
      }
      BeginRead(KeepAliveFollowup);
    }
  }
}
