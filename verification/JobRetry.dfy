/** The automatic retry decision. Times are milliseconds; the random draw is a parameter. */
module JobRetry {
  import opened Options

  datatype FailureClass = Transient | RateLimit | Credential | InvalidInput | SemanticOutput | DatabaseError | Unknown

  datatype NextAction = ReconnectAccount | ReplaceInput | ReviewOutput | ContactSupport

  datatype Failure = Failure(errorClass: FailureClass, credentialRecoverable: bool, providerRetryAfterMs: Option<real>)

  datatype Decision = Retry(delayMs: int, nextAttemptAt: int) | GiveUp(nextAction: NextAction)

  const RETRY_HORIZON_MS := 86_400_000

  function MaximumAttempts(c: FailureClass): int
  {
    match c
    case Credential => 2
    case DatabaseError => 3
    case InvalidInput => 1
    case RateLimit => 8
    case SemanticOutput => 2
    case Transient => 5
    case Unknown => 1
  }

  function RetryCaps(c: FailureClass): seq<int>
  {
    match c
    case Credential => [1_000]
    case DatabaseError => [1_000, 5_000]
    case InvalidInput => []
    case RateLimit => [30_000, 120_000, 600_000, 1_800_000, 7_200_000, 21_600_000, 43_200_000]
    case SemanticOutput => [1_000]
    case Transient => [30_000, 120_000, 600_000, 1_800_000, 7_200_000]
    case Unknown => []
  }

  function TerminalNextAction(f: Failure): Option<NextAction>
  {
    match f.errorClass
    case Credential => if f.credentialRecoverable then None else Some(ReconnectAccount)
    case InvalidInput => Some(ReplaceInput)
    case Unknown => Some(ContactSupport)
    case _ => None
  }

  function FallbackTerminalAction(c: FailureClass): NextAction
  {
    match c
    case Credential => ReconnectAccount
    case InvalidInput => ReplaceInput
    case SemanticOutput => ReviewOutput
    case _ => ContactSupport
  }

  function Max(a: int, b: int): int { if a < b then b else a }

  function Min(a: int, b: int): int { if a < b then a else b }

  function ClampRandom(r: real): real
  {
    if r < 0.0 then 0.0 else if r > 1.0 then 1.0 else r
  }

  /** The jittered wait, or the provider's if that is longer. */
  function DelayOf(cap: int, random: real, providerRetryAfterMs: Option<real>): int
  {
    var jittered := Max(1_000, (cap as real * ClampRandom(random)).Floor);
    var provider := match providerRetryAfterMs
      case Some(ms) => if ms > 0.0 then ms.Floor else 0
      case None => 0;
    Max(jittered, provider)
  }

  /** A retry always leaves an attempt in the budget of the job and of the failure class, waits at
      least one second, never longer than the horizon, and never lands after the job's own deadline. */
  function DecideJobRetry(attemptNumber: int, maxAttempts: int, failure: Failure, jobCreatedAt: int,
                          now: int, random: real): (d: Decision)
    ensures d.Retry? ==>
              && 1 <= attemptNumber < maxAttempts
              && attemptNumber < MaximumAttempts(failure.errorClass)
              && TerminalNextAction(failure) == None
              && 1_000 <= d.delayMs <= RETRY_HORIZON_MS
              && d.nextAttemptAt == now + d.delayMs <= jobCreatedAt + RETRY_HORIZON_MS
    ensures d.Retry? && failure.providerRetryAfterMs.Some? ==>
              d.delayMs >= failure.providerRetryAfterMs.value.Floor
  {
    var terminal := TerminalNextAction(failure);
    var caps := RetryCaps(failure.errorClass);
    var allowed := Min(maxAttempts, MaximumAttempts(failure.errorClass));
    if terminal.Some? then GiveUp(terminal.value)
    else if attemptNumber < 1 || maxAttempts < 1 || attemptNumber >= allowed then
      GiveUp(FallbackTerminalAction(failure.errorClass))
    else if attemptNumber - 1 >= |caps| then GiveUp(FallbackTerminalAction(failure.errorClass))
    else
      var delayMs := DelayOf(caps[attemptNumber - 1], random, failure.providerRetryAfterMs);
      if delayMs > RETRY_HORIZON_MS || now + delayMs > jobCreatedAt + RETRY_HORIZON_MS then
        GiveUp(FallbackTerminalAction(failure.errorClass))
      else Retry(delayMs, now + delayMs)
  }

  // ----- When a failure is retried, and when -----

  /** Which attempts of a failure class may be followed by another, and the longest wait before it. */
  predicate WaitsUpTo(c: FailureClass, attempt: int, cap: int)
  {
    match c
    case Credential => attempt == 1 && cap == 1_000
    case SemanticOutput => attempt == 1 && cap == 1_000
    case DatabaseError => (attempt == 1 && cap == 1_000) || (attempt == 2 && cap == 5_000)
    case Transient =>
      || (attempt == 1 && cap == 30_000) || (attempt == 2 && cap == 120_000)
      || (attempt == 3 && cap == 600_000) || (attempt == 4 && cap == 1_800_000)
    case RateLimit =>
      || (attempt == 1 && cap == 30_000) || (attempt == 2 && cap == 120_000) || (attempt == 3 && cap == 600_000)
      || (attempt == 4 && cap == 1_800_000) || (attempt == 5 && cap == 7_200_000) || (attempt == 6 && cap == 21_600_000)
      || (attempt == 7 && cap == 43_200_000)
    case InvalidInput => false
    case Unknown => false
  }

  /** A credential that cannot be recovered is not tried again. */
  predicate WorthRetrying(f: Failure) { f.errorClass == Credential ==> f.credentialRecoverable }

  predicate IsFloor(k: int, x: real) { k as real <= x < (k + 1) as real }

  /** The draw as a share. */
  predicate IsShare(r: real, random: real)
  {
    0.0 <= r <= 1.0 && (0.0 <= random <= 1.0 ==> r == random) && (random < 0.0 ==> r == 0.0) && (random > 1.0 ==> r == 1.0)
  }

  /** A share of the longest wait in whole milliseconds, or the provider's delay, or a second: the longest of them. */
  predicate IsWait(delay: int, jitter: int, provider: Option<real>)
  {
    && delay >= 1_000 && delay >= jitter
    && (provider.Some? && provider.value > 0.0 ==> provider.value < (delay + 1) as real)
    && (delay == 1_000 || delay == jitter || (provider.Some? && provider.value > 0.0 && IsFloor(delay, provider.value)))
  }

  /** The delay fits into a day, and the next attempt into the day after the job was created. */
  predicate InTime(delay: int, jobCreatedAt: int, now: int)
  {
    delay <= 86_400_000 && now + delay <= jobCreatedAt + 86_400_000
  }

  /** The jitter and the delay that this attempt would wait. */
  predicate WouldWait(attempt: int, failure: Failure, random: real, cap: int, share: real, jitter: int, delay: int)
  {
    && WaitsUpTo(failure.errorClass, attempt, cap) && IsShare(share, random) && IsFloor(jitter, cap as real * share)
    && IsWait(delay, jitter, failure.providerRetryAfterMs)
  }

  /** What the operator is told when there is no retry. */
  function Advice(c: FailureClass): NextAction
  {
    if c == Credential then ReconnectAccount
    else if c == InvalidInput then ReplaceInput
    else if c == SemanticOutput then ReviewOutput
    else ContactSupport
  }

  /** A failure is retried exactly when it is worth it, its class and its job both have an attempt left, and the
      wait is in time; it then waits that long. Otherwise the class says what to do. */
  lemma RetryExactly(attempt: int, maxAttempts: int, failure: Failure, jobCreatedAt: int, now: int, random: real)
    ensures var d := DecideJobRetry(attempt, maxAttempts, failure, jobCreatedAt, now, random);
            && (d.Retry? <==> WorthRetrying(failure) && attempt < maxAttempts
                              && exists cap, share, jitter, delay ::
                                   WouldWait(attempt, failure, random, cap, share, jitter, delay) && InTime(delay, jobCreatedAt, now))
            && (d.Retry? ==> d.nextAttemptAt == now + d.delayMs
                             && exists cap, share, jitter :: WouldWait(attempt, failure, random, cap, share, jitter, d.delayMs))
            && (d.GiveUp? ==> d.nextAction == Advice(failure.errorClass))
  {
    var d := DecideJobRetry(attempt, maxAttempts, failure, jobCreatedAt, now, random);
    if 1 <= attempt < MaximumAttempts(failure.errorClass) {
      var cap, share := RetryCaps(failure.errorClass)[attempt - 1], ClampRandom(random);
      var jitter := (cap as real * share).Floor;
      var delay := DelayOf(cap, random, failure.providerRetryAfterMs);
      CapIs(failure.errorClass, attempt);
      assert WouldWait(attempt, failure, random, cap, share, jitter, delay);
      WaitIsUnique(attempt, failure, random, cap, share, jitter, delay);
    } else {
      NoCapBeyond(failure.errorClass, attempt);
    }
  }

  lemma CapIs(c: FailureClass, attempt: int)
    requires 1 <= attempt < MaximumAttempts(c)
    ensures attempt <= |RetryCaps(c)| && WaitsUpTo(c, attempt, RetryCaps(c)[attempt - 1])
  {
  }

  lemma NoCapBeyond(c: FailureClass, attempt: int)
    requires !(1 <= attempt < MaximumAttempts(c))
    ensures forall cap :: !WaitsUpTo(c, attempt, cap)
  {
  }

  /** An attempt determines its wait. */
  lemma WaitIsUnique(attempt: int, failure: Failure, random: real, cap: int, share: real, jitter: int, delay: int)
    requires WouldWait(attempt, failure, random, cap, share, jitter, delay)
    ensures forall cap', share', jitter', delay' | WouldWait(attempt, failure, random, cap', share', jitter', delay') :: delay' == delay
  {
    forall cap', share', jitter', delay' | WouldWait(attempt, failure, random, cap', share', jitter', delay') ensures delay' == delay {
      assert cap' == cap && share' == share;
      FloorIsUnique(jitter, jitter', cap as real * share);
      LongestIsUnique(delay, delay', jitter, failure.providerRetryAfterMs);
    }
  }

  lemma FloorIsUnique(a: int, b: int, x: real)
    requires IsFloor(a, x) && IsFloor(b, x)
    ensures a == b
  {
  }

  lemma LongestIsUnique(a: int, b: int, jitter: int, provider: Option<real>)
    requires IsWait(a, jitter, provider) && IsWait(b, jitter, provider)
    ensures a == b
  {
  }
}
