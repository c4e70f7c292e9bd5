/** The job state machine: its states, the transition table and the terminal states. */
module JobLifecycle {

  datatype JobState = Queued | Processing | RetryScheduled | Succeeded | FailedAttention | Cancelled

  function AllowedTransitions(from: JobState): set<JobState>
  {
    match from
    case Cancelled => {}
    case FailedAttention => {Queued}
    case Processing => {Queued, RetryScheduled, Succeeded, FailedAttention, Cancelled}
    case Queued => {Processing, Cancelled}
    case RetryScheduled => {Queued, Cancelled}
    case Succeeded => {}
  }

  predicate CanTransition(from: JobState, to: JobState)
  {
    to in AllowedTransitions(from)
  }

  /** The states listed as terminal; FailedAttention is listed although an operator may requeue it. */
  predicate IsTerminal(state: JobState)
  {
    state == Succeeded || state == FailedAttention || state == Cancelled
  }

  /** A stage name: one lower-case letter, then at most 63 lower-case letters, digits or underscores. */
  predicate IsSafeStage(stage: string)
  {
    && 1 <= |stage| <= 64
    && 'a' <= stage[0] <= 'z'
    && forall i | 1 <= i < |stage| :: 'a' <= stage[i] <= 'z' || '0' <= stage[i] <= '9' || stage[i] == '_'
  }

  /** The processing stages in which an operator may still ask for cancellation. */
  predicate IsSafeCancellationStage(stage: string)
  {
    stage == "starting" || stage == "loading_inputs" || stage == "validating_inputs"
  }
}
