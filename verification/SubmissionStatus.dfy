/** The submission statuses and the three classifications the counters and the judge rely on. */
module SubmissionStatus {

  datatype Status =
    | Queued
    | Judging
    | Accepted
    | WrongAnswer
    | TimeLimitExceeded
    | MemoryLimitExceeded
    | RuntimeError
    | CompileError
    | BuildResourceExceeded
    | OutputExceeded
    | InfraFailure

  /** The catalog's `is_terminal` column: a verdict has been reached. */
  predicate IsTerminal(s: Status) {
    !s.Queued? && !s.Judging?
  }

  /** The seven statuses the attempt summary counts as failed; `InfraFailure` is not one of them. */
  predicate IsFailed(s: Status) {
    || s.WrongAnswer?
    || s.TimeLimitExceeded?
    || s.MemoryLimitExceeded?
    || s.RuntimeError?
    || s.CompileError?
    || s.BuildResourceExceeded?
    || s.OutputExceeded?
  }

  /** What the judge's evaluation can decide. */
  datatype JudgeVerdict =
    | VerdictAccepted
    | VerdictWrongAnswer
    | VerdictTimeLimitExceeded
    | VerdictMemoryLimitExceeded
    | VerdictRuntimeError
    | VerdictCompileError
    | VerdictOutputExceeded
    | VerdictInvalidOutput

  /** The status a verdict is stored as: the judge never finalizes into a non-terminal status. */
  function ToStatus(v: JudgeVerdict): (s: Status)
    ensures s.Accepted? <==> v.VerdictAccepted?
    ensures s.WrongAnswer? <==> v.VerdictWrongAnswer? || v.VerdictInvalidOutput?
    ensures s.TimeLimitExceeded? <==> v.VerdictTimeLimitExceeded?
    ensures s.MemoryLimitExceeded? <==> v.VerdictMemoryLimitExceeded?
    ensures s.RuntimeError? <==> v.VerdictRuntimeError?
    ensures s.CompileError? <==> v.VerdictCompileError?
    ensures s.OutputExceeded? <==> v.VerdictOutputExceeded?
    ensures IsTerminal(s) && (!s.Accepted? ==> IsFailed(s))
  {
    match v
    case VerdictAccepted => Accepted
    case VerdictWrongAnswer => WrongAnswer
    case VerdictTimeLimitExceeded => TimeLimitExceeded
    case VerdictMemoryLimitExceeded => MemoryLimitExceeded
    case VerdictRuntimeError => RuntimeError
    case VerdictCompileError => CompileError
    case VerdictOutputExceeded => OutputExceeded
    case VerdictInvalidOutput => WrongAnswer
  }
}
