/** Error recovery: exponential backoff, per-operation circuit breakers, the choice of
  a recovery strategy for a classified error, the bounded retry loop around an
  operation, and the health summary.

  Durations and instants are whole milliseconds. The clock is a parameter: the loop
  runs at one instant `now`, so the sleeps between attempts do not advance it. The
  operation being retried is an oracle `op` that gives, for each attempt number, what
  that invocation returned and whether asking for permissions succeeded at that point.
 */
module ErrorRecovery {
  import opened Wrappers
  import opened Core
  import opened Seqs
  import opened Text

  datatype RecoveryConfig = RecoveryConfig(
    maxRetries: nat,
    baseRetryDelay: nat,
    maxRetryDelay: nat,
    apiTimeout: nat,
    permissionCheckInterval: nat,
    autoPermissionRecovery: bool,
    circuitBreakerThreshold: nat,
    circuitBreakerRecoveryTime: nat)

  /** The defaults: 3 retries, 100 ms base delay capped at 5 s, breaker after 5 failures
      for 60 s. */
  const DefaultConfig: RecoveryConfig :=
    RecoveryConfig(3, 100, 5000, 2000, 30000, true, 5, 60000)

  /** `attempt as u32` must stay below 32 for `2_u32.pow(attempt)` not to overflow. */
  predicate PowFits(c: RecoveryConfig) {
    c.maxRetries < 32
  }

  datatype PermissionType = Accessibility | InputMonitoring | ScreenRecording

  datatype RecoverableError =
    | PermissionDenied(permission: PermissionType)
    | ApiUnavailable
    | WindowNotFound(windowId: nat)
    | WorkspaceOperationFailed
    | SystemOverloaded
    | CommunicationFailure

  datatype RecoveryStrategy =
    | RetryWithBackoff(attempts: nat, delay: nat)
    | RequestPermissions(permissions: seq<PermissionType>)
    | WaitAndRetry(waitTime: nat)
    | CircuitBreaker(until: nat)
    | NoRecovery

  /** An `anyhow::Error`: either a crate error or some other error known by its text. */
  datatype AnyError = Crate(error: TilleRSError) | Other(message: string)

  // ---------------------------------------------------------------------------
  // Backoff
  // ---------------------------------------------------------------------------

  function Pow2(n: nat): (r: nat)
    ensures r >= 1
  {
    if n == 0 then 1 else 2 * Pow2(n - 1)
  }

  /** `calculate_backoff_delay`: the base delay doubled `attempt` times, capped at the
      maximum delay. */
  function Backoff(c: RecoveryConfig, attempt: nat): (d: nat)
    requires attempt < 32
    ensures d <= c.maxRetryDelay
    ensures d == c.maxRetryDelay || d == c.baseRetryDelay * Pow2(attempt)
    ensures d <= c.baseRetryDelay * Pow2(attempt)
  {
    var delay := c.baseRetryDelay * Pow2(attempt);
    if delay < c.maxRetryDelay then delay else c.maxRetryDelay
  }

  lemma {:induction false} Pow2Monotone(a: nat, b: nat)
    requires a <= b
    ensures Pow2(a) <= Pow2(b)
    decreases b
  {
    if a < b {
      Pow2Monotone(a, b - 1);
    }
  }

  /** A later attempt never waits less. */
  lemma BackoffMonotone(c: RecoveryConfig, a: nat, b: nat)
    requires a <= b < 32
    ensures Backoff(c, a) <= Backoff(c, b)
  {
    Pow2Monotone(a, b);
    ScaleMonotone(c.baseRetryDelay, Pow2(a), Pow2(b));
  }

  lemma ScaleMonotone(k: nat, x: nat, y: nat)
    requires x <= y
    ensures k * x <= k * y
  {
    var d := y - x;
    assert k * y == k * x + k * d;
  }

  /** Under the defaults the first three delays strictly grow and stay under the cap. */
  lemma DefaultBackoffGrows()
    ensures Backoff(DefaultConfig, 0) < Backoff(DefaultConfig, 1) < Backoff(DefaultConfig, 2)
    ensures Backoff(DefaultConfig, 2) <= DefaultConfig.maxRetryDelay
  {
    assert Pow2(1) == 2 && Pow2(2) == 4;
  }

  // ---------------------------------------------------------------------------
  // Circuit breakers
  // ---------------------------------------------------------------------------

  datatype CircuitState = Closed | Open

  datatype BreakerState = BreakerState(failures: nat, lastFailure: Option<nat>, state: CircuitState)

  type Breakers = map<string, BreakerState>

  const FreshBreaker: BreakerState := BreakerState(0, None, Closed)

  /** `Instant::elapsed`, which saturates at zero for an instant in the future. */
  function Elapsed(since: nat, now: nat): (d: nat)
    ensures since <= now ==> since + d == now
    ensures now < since ==> d == 0
  {
    if since <= now then now - since else 0
  }

  /** `is_circuit_open`: an open breaker blocks until the recovery time has passed since
      its recorded instant; an open breaker without an instant does not block. */
  function IsCircuitOpen(c: RecoveryConfig, bs: Breakers, name: string, now: nat): (r: bool)
    ensures r ==> name in bs && bs[name].state == Open && bs[name].lastFailure.Some?
                  && now < bs[name].lastFailure.value + c.circuitBreakerRecoveryTime
    ensures (&& name in bs && bs[name].state == Open && bs[name].lastFailure.Some?
             && bs[name].lastFailure.value <= now < bs[name].lastFailure.value + c.circuitBreakerRecoveryTime) ==> r
    ensures c.circuitBreakerRecoveryTime == 0 ==> !r
  {
    && name in bs
    && bs[name].state == Open
    && bs[name].lastFailure.Some?
    && Elapsed(bs[name].lastFailure.value, now) < c.circuitBreakerRecoveryTime
  }

  function Entry(bs: Breakers, name: string): (b: BreakerState)
    ensures name !in bs ==> b == FreshBreaker
    ensures name in bs ==> b == bs[name]
  {
    if name in bs then bs[name] else FreshBreaker
  }

  /** `record_failure`: one more failure at `now`; the breaker opens once the count
      reaches the threshold and is never closed here. */
  function RecordFailure(c: RecoveryConfig, bs: Breakers, name: string, now: nat): (r: Breakers)
    ensures r.Keys == bs.Keys + {name}
    ensures forall n :: n in bs && n != name ==> r[n] == bs[n]
    ensures r[name].failures == Entry(bs, name).failures + 1
    ensures r[name].lastFailure == Some(now)
    ensures r[name].failures >= c.circuitBreakerThreshold ==> r[name].state == Open
    ensures r[name].failures < c.circuitBreakerThreshold ==> r[name].state == Entry(bs, name).state
  {
    var b := Entry(bs, name);
    var failures := b.failures + 1;
    bs[name := BreakerState(failures, Some(now), if failures >= c.circuitBreakerThreshold then Open else b.state)]
  }

  /** A recorded failure never closes a breaker. */
  lemma FailureNeverCloses(c: RecoveryConfig, bs: Breakers, name: string, now: nat)
    requires name in bs && bs[name].state == Open
    ensures RecordFailure(c, bs, name, now)[name].state == Open
  {
  }

  /** `open_circuit_breaker`: opens the breaker and stores `until` as its instant; the
      failure count is kept. */
  function OpenBreaker(bs: Breakers, name: string, until: nat): (r: Breakers)
    ensures r.Keys == bs.Keys + {name}
    ensures forall n :: n in bs && n != name ==> r[n] == bs[n]
    ensures r[name] == BreakerState(Entry(bs, name).failures, Some(until), Open)
  {
    bs[name := Entry(bs, name).(state := Open, lastFailure := Some(until))]
  }

  /** `reset_circuit_breaker`: a breaker with failures is cleared and closed; a breaker
      without failures, or no breaker, is left as it is. */
  function ResetBreaker(bs: Breakers, name: string): (r: Breakers)
    ensures r.Keys == bs.Keys
    ensures forall n :: n in bs && n != name ==> r[n] == bs[n]
    ensures name in bs && bs[name].failures > 0 ==> r[name] == FreshBreaker
    ensures name in bs && bs[name].failures == 0 ==> r[name] == bs[name]
  {
    if name in bs && bs[name].failures > 0 then bs[name := FreshBreaker] else bs
  }

  /** After a reset no failures are left on the breaker. */
  lemma ResetClearsFailures(bs: Breakers, name: string)
    requires name in bs
    ensures ResetBreaker(bs, name)[name].failures == 0
  {
  }

  /** A breaker opened without failures survives a reset: it stays open. */
  lemma OpenedWithoutFailuresStaysOpen(bs: Breakers, name: string, until: nat)
    requires name !in bs || bs[name].failures == 0
    ensures ResetBreaker(OpenBreaker(bs, name, until), name)[name].state == Open
  {
  }

  /** A breaker opened by the circuit-breaker strategy at `now` stores `now + R` as its
      instant, so it blocks for a further `R` after that: until just before `now + 2R`. */
  lemma StrategyBreakerBlocksTwice(c: RecoveryConfig, bs: Breakers, name: string, now: nat, t: nat)
    requires now <= t < now + 2 * c.circuitBreakerRecoveryTime
    ensures IsCircuitOpen(c, OpenBreaker(bs, name, now + c.circuitBreakerRecoveryTime), name, t)
  {
  }

  /** Names whose breaker is not closed, in the map's iteration order `order`. */
  function ActiveBreakers(bs: Breakers, order: seq<string>): (r: seq<string>)
    ensures forall n :: n in r <==> n in order && n in bs && bs[n].state != Closed
  {
    Filter(order, n => n in bs && bs[n].state != Closed)
  }

  // ---------------------------------------------------------------------------
  // Classification and strategy
  // ---------------------------------------------------------------------------

  /** The message mentions a word in its capitalised or its lower-case spelling. */
  predicate Mentions(msg: string, capitalised: string, lower: string) {
    Contains(msg, capitalised) || Contains(msg, lower)
  }

  /** The permission a denial message names: accessibility first, then input, then
      screen, defaulting to accessibility. */
  function PermissionFor(msg: string): (p: PermissionType)
    ensures p == InputMonitoring <==>
              !Mentions(msg, "Accessibility", "accessibility") && Mentions(msg, "Input", "input")
    ensures p == ScreenRecording <==>
              && !Mentions(msg, "Accessibility", "accessibility") && !Mentions(msg, "Input", "input")
              && Mentions(msg, "Screen", "screen")
    ensures p == Accessibility <==>
              Mentions(msg, "Accessibility", "accessibility")
              || (!Mentions(msg, "Input", "input") && !Mentions(msg, "Screen", "screen"))
  {
    if Mentions(msg, "Accessibility", "accessibility") then Accessibility
    else if Mentions(msg, "Input", "input") then InputMonitoring
    else if Mentions(msg, "Screen", "screen") then ScreenRecording
    else Accessibility
  }

  /** `classify_error`. Configuration and validation errors are not recoverable; every
      other error maps to a recoverable kind. */
  function Classify(e: AnyError): (r: Option<RecoverableError>)
    ensures r.None? <==> e.Crate? && (e.error.ConfigurationError? || e.error.ValidationError?)
    ensures r.Some? && r.value.PermissionDenied? ==>
              (e.Crate? && e.error.PermissionDenied?) || (e.Other? && Contains(ToLower(e.message), "permission"))
    ensures r.Some? && r.value.WindowNotFound? <==> e.Crate? && e.error.WindowNotFound?
    ensures r.Some? && r.value.WorkspaceOperationFailed? <==> e.Crate? && e.error.WorkspaceNotFound?
    ensures r.Some? && r.value.SystemOverloaded? ==> e.Crate? && e.error.MacOSAPIError?
    ensures e.Crate? && e.error.PermissionDenied? ==> r == Some(RecoverableError.PermissionDenied(PermissionFor(e.error.message)))
    ensures e.Crate? && e.error.WindowNotFound? ==> r == Some(RecoverableError.WindowNotFound(e.error.windowId))
  {
    match e
    case Crate(err) =>
      (match err
       case PermissionDenied(msg) => Some(RecoverableError.PermissionDenied(PermissionFor(msg)))
       case WindowNotFound(id) => Some(RecoverableError.WindowNotFound(id))
       case MacOSAPIError(msg) =>
         if Contains(msg, "timeout") || Contains(msg, "unavailable") then Some(ApiUnavailable)
         else if Contains(msg, "overload") || Contains(msg, "busy") then Some(SystemOverloaded)
         else Some(CommunicationFailure)
       case WorkspaceNotFound(_) => Some(WorkspaceOperationFailed)
       case _ => None)
    case Other(msg) =>
      var lower := ToLower(msg);
      if Contains(lower, "permission") then Some(RecoverableError.PermissionDenied(Accessibility))
      else if Contains(lower, "timeout") then Some(ApiUnavailable)
      else Some(CommunicationFailure)
  }

  const WindowWait: nat := 200
  const OverloadWait: nat := 1000

  /** `determine_recovery_strategy` at time `now`. */
  function Strategy(c: RecoveryConfig, e: RecoverableError, attempt: nat, now: nat): (s: RecoveryStrategy)
    requires attempt < 32
    ensures s.CircuitBreaker? <==>
              (e.ApiUnavailable? || e.CommunicationFailure?) && attempt >= c.circuitBreakerThreshold
    ensures s.CircuitBreaker? ==> s.until == now + c.circuitBreakerRecoveryTime
    ensures s.RequestPermissions? <==> e.PermissionDenied?
    ensures e.PermissionDenied? ==> s.permissions == [e.permission]
    ensures s.WaitAndRetry? <==> e.WindowNotFound? || e.SystemOverloaded?
    ensures s.WaitAndRetry? ==> s.waitTime == (if e.WindowNotFound? then WindowWait else OverloadWait)
    ensures s.RetryWithBackoff? ==> s == RetryWithBackoff(attempt, Backoff(c, attempt))
    ensures !s.NoRecovery?
  {
    match e
    case PermissionDenied(p) => RequestPermissions([p])
    case ApiUnavailable | CommunicationFailure =>
      if attempt >= c.circuitBreakerThreshold then CircuitBreaker(now + c.circuitBreakerRecoveryTime)
      else RetryWithBackoff(attempt, Backoff(c, attempt))
    case WindowNotFound(_) => WaitAndRetry(WindowWait)
    case WorkspaceOperationFailed => RetryWithBackoff(attempt, Backoff(c, attempt))
    case SystemOverloaded => WaitAndRetry(OverloadWait)
  }

  // ---------------------------------------------------------------------------
  // The retry loop
  // ---------------------------------------------------------------------------

  /** What one invocation of the operation returned. */
  datatype Invocation<T> = Returned(value: T) | Failed(error: AnyError) | TimedOut

  /** The environment at one attempt: the invocation's result, and whether requesting
      permissions would succeed after it. */
  datatype Attempt<T> = Attempt(invocation: Invocation<T>, permissionsRecovered: bool)

  /** The retry loop's result: the breakers afterwards, the outcome, and how many times
      the operation was invoked. */
  datatype Retried<T> = Retried(breakers: Breakers, result: Result<T, AnyError>, invocations: nat)

  function BreakerOpenMessage(name: string): string { "Circuit breaker open for " + name }
  function BreakerActivatedMessage(name: string): string { "Circuit breaker activated for " + name }
  function TimedOutMessage(name: string): string { "Operation " + name + " timed out" }
  function ExhaustedMessage(name: string): string { "Operation " + name + " failed after all retries" }

  /** What the loop does after an invocation that did not return: go on to the next
      attempt with the breakers it leaves and the error it remembers, or stop with them. */
  datatype Step = Continue(breakers: Breakers, error: AnyError) | Stop(breakers: Breakers, error: AnyError)

  /** One failed pass of the loop. Recording the failure is skipped while backoff retries
      remain, after permissions were recovered, and before waiting; the circuit-breaker
      strategy opens the breaker and stops, and an error without recovery stops as it is. */
  function AfterFailure<T>(c: RecoveryConfig, bs: Breakers, name: string, now: nat, at: Attempt<T>,
                           attempt: nat): (s: Step)
    requires PowFits(c) && attempt <= c.maxRetries && !at.invocation.Returned?
    ensures forall n :: n != name ==> (n in s.breakers <==> n in bs)
    ensures forall n :: n in bs && n != name ==> s.breakers[n] == bs[n]
  {
    var failed := RecordFailure(c, bs, name, now);
    match at.invocation
    case TimedOut => Continue(failed, Crate(MacOSAPIError(TimedOutMessage(name))))
    case Failed(e) =>
      match Classify(e)
      case None => Continue(failed, e)
      case Some(rec) =>
        match Strategy(c, rec, attempt, now)
        case RetryWithBackoff(_, _) => Continue(if attempt < c.maxRetries then bs else failed, e)
        case RequestPermissions(_) =>
          Continue(if c.autoPermissionRecovery && at.permissionsRecovered then bs else failed, e)
        case WaitAndRetry(_) => Continue(bs, e)
        case CircuitBreaker(until) =>
          Stop(OpenBreaker(bs, name, until), Crate(MacOSAPIError(BreakerActivatedMessage(name))))
        case NoRecovery => Stop(bs, e)
  }

  /** The loop from `attempt` on, after the error `last` (if any). Every pass invokes the
      operation once and advances the attempt by one. */
  function Loop<T>(c: RecoveryConfig, bs: Breakers, name: string, now: nat, op: nat -> Attempt<T>,
                   attempt: nat, last: Option<AnyError>): (r: Retried<T>)
    requires PowFits(c) && attempt <= c.maxRetries + 1
    ensures attempt <= r.invocations <= c.maxRetries + 1
    ensures attempt <= c.maxRetries ==> attempt < r.invocations
    ensures forall k :: attempt <= k < r.invocations - 1 ==> !op(k).invocation.Returned?
    ensures r.result.Ok? <==> attempt < r.invocations && op(r.invocations - 1).invocation.Returned?
    ensures r.result.Ok? ==> r.result.value == op(r.invocations - 1).invocation.value
    ensures r.result.Ok? && name in r.breakers ==> r.breakers[name].failures == 0
    ensures forall n :: n != name ==> (n in r.breakers <==> n in bs)
    ensures forall n :: n in bs && n != name ==> r.breakers[n] == bs[n]
    decreases c.maxRetries + 1 - attempt
  {
    if attempt > c.maxRetries then
      Retried(bs, Err(last.GetOr(Crate(MacOSAPIError(ExhaustedMessage(name))))), attempt)
    else if op(attempt).invocation.Returned? then
      Retried(ResetBreaker(bs, name), Ok(op(attempt).invocation.value), attempt + 1)
    else
      match AfterFailure(c, bs, name, now, op(attempt), attempt)
      case Stop(after, e) => Retried(after, Err(e), attempt + 1)
      case Continue(after, e) => Loop(c, after, name, now, op, attempt + 1, Some(e))
  }

  /** `recover_and_retry`: refuses outright while the operation's breaker is open;
      otherwise invokes the operation until it succeeds, the retries run out or a
      breaker is tripped, and resets the breaker on success. */
  function RecoverAndRetry<T>(c: RecoveryConfig, bs: Breakers, name: string, now: nat, op: nat -> Attempt<T>)
    : (r: Retried<T>)
    requires PowFits(c)
    ensures IsCircuitOpen(c, bs, name, now) ==>
              r == Retried(bs, Err(Crate(MacOSAPIError(BreakerOpenMessage(name)))), 0)
    ensures !IsCircuitOpen(c, bs, name, now) ==> 1 <= r.invocations <= c.maxRetries + 1
    ensures forall k :: 0 <= k < r.invocations - 1 ==> !op(k).invocation.Returned?
    ensures r.result.Ok? <==> 0 < r.invocations && op(r.invocations - 1).invocation.Returned?
    ensures r.result.Ok? ==> r.result.value == op(r.invocations - 1).invocation.value
    ensures r.result.Ok? && name in r.breakers ==> r.breakers[name].failures == 0
    ensures forall n :: n != name ==> (n in r.breakers <==> n in bs)
    ensures forall n :: n in bs && n != name ==> r.breakers[n] == bs[n]
  {
    if IsCircuitOpen(c, bs, name, now) then Retried(bs, Err(Crate(MacOSAPIError(BreakerOpenMessage(name)))), 0)
    else Loop(c, bs, name, now, op, 0, None)
  }

  /** An operation that succeeds the first time is invoked once, and its result is
      passed through. */
  lemma FirstTimeSuccess<T>(c: RecoveryConfig, bs: Breakers, name: string, now: nat, op: nat -> Attempt<T>)
    requires PowFits(c) && !IsCircuitOpen(c, bs, name, now) && op(0).invocation.Returned?
    ensures RecoverAndRetry(c, bs, name, now, op) == Retried(ResetBreaker(bs, name), Ok(op(0).invocation.value), 1)
  {
  }

  /** With a threshold of zero, an unavailable API trips the breaker on the first
      failure, and the next call is refused without invoking the operation. */
  lemma TrippedBreakerRefusesNextCall<T>(c: RecoveryConfig, bs: Breakers, name: string, now: nat,
                                         op: nat -> Attempt<T>)
    requires PowFits(c) && c.circuitBreakerThreshold == 0 && c.circuitBreakerRecoveryTime > 0
    requires !IsCircuitOpen(c, bs, name, now)
    requires op(0).invocation == Failed(Crate(MacOSAPIError("unavailable")))
    ensures var r := RecoverAndRetry(c, bs, name, now, op);
            && r.invocations == 1
            && r.result == Err(Crate(MacOSAPIError(BreakerActivatedMessage(name))))
            && RecoverAndRetry(c, r.breakers, name, now, op).invocations == 0
  {
    assert StartsWith("unavailable", "unavailable");
    assert Classify(op(0).invocation.error) == Some(ApiUnavailable);
    StrategyBreakerBlocksTwice(c, bs, name, now, now);
  }

  /** An operation that never succeeds and whose errors are not recoverable is invoked
      `max_retries + 1` times, and the last error is returned. */
  lemma {:induction false} UnrecoverableExhausts<T>(c: RecoveryConfig, bs: Breakers, name: string, now: nat,
                                                     op: nat -> Attempt<T>, attempt: nat, last: Option<AnyError>)
    requires PowFits(c) && attempt <= c.maxRetries + 1
    requires forall k :: attempt <= k <= c.maxRetries ==> op(k).invocation == Failed(Crate(ValidationError("")))
    requires attempt == c.maxRetries + 1 ==> last.Some?
    ensures var r := Loop(c, bs, name, now, op, attempt, last);
            r.invocations == c.maxRetries + 1
            && r.result == Err(if attempt <= c.maxRetries then Crate(ValidationError("")) else last.value)
    decreases c.maxRetries + 1 - attempt
  {
    if attempt <= c.maxRetries {
      UnrecoverableExhausts(c, RecordFailure(c, bs, name, now), name, now, op, attempt + 1,
                            Some(Crate(ValidationError(""))));
    }
  }

  // ---------------------------------------------------------------------------
  // Health
  // ---------------------------------------------------------------------------

  datatype HealthStatus = HealthStatus(
    permissionsGranted: bool,
    activeCircuitBreakers: seq<string>,
    lastPermissionCheck: Option<nat>)

  /** `get_health_status`, given the result of the permission check and the breaker
      map's iteration order. */
  function Health(bs: Breakers, order: seq<string>, permissionsOk: bool, lastCheck: Option<nat>): (h: HealthStatus)
    ensures h.permissionsGranted == permissionsOk && h.lastPermissionCheck == lastCheck
    ensures forall n :: n in h.activeCircuitBreakers <==> n in order && n in bs && bs[n].state == Open
  {
    HealthStatus(permissionsOk, ActiveBreakers(bs, order), lastCheck)
  }

  /** `is_healthy`: permissions granted and no breaker listed as open. */
  function IsHealthy(h: HealthStatus): (r: bool)
    ensures r ==> h.permissionsGranted && forall n :: n !in h.activeCircuitBreakers
    ensures !r ==> !h.permissionsGranted || exists n :: n in h.activeCircuitBreakers
  {
    assert |h.activeCircuitBreakers| > 0 ==> h.activeCircuitBreakers[0] in h.activeCircuitBreakers;
    h.permissionsGranted && |h.activeCircuitBreakers| == 0
  }

  /** With an order that lists every breaker, the system is healthy exactly when
      permissions are granted and no breaker is open. */
  lemma HealthyIff(bs: Breakers, order: seq<string>, permissionsOk: bool, lastCheck: Option<nat>)
    requires forall n :: n in bs ==> n in order
    ensures IsHealthy(Health(bs, order, permissionsOk, lastCheck)) <==>
              permissionsOk && forall n :: n in bs ==> bs[n].state == Closed
  {
    var h := Health(bs, order, permissionsOk, lastCheck);
    if |h.activeCircuitBreakers| > 0 {
      assert h.activeCircuitBreakers[0] in h.activeCircuitBreakers;
    }
  }

  const HealthyText: string := "System healthy - all permissions granted, no circuit breakers active"
  const DegradedText: string := "System health degraded"
  const IssuesPrefix: string := "System issues: "
  const MissingPermissionsText: string := "Missing required permissions"

  /** The issues `description` lists for an unhealthy status. */
  function Issues(h: HealthStatus): (issues: seq<string>)
    ensures |issues| == 0 <==> IsHealthy(h)
    ensures !h.permissionsGranted <==> MissingPermissionsText in issues
  {
    var breakers := "Circuit breakers active: " + JoinWith(h.activeCircuitBreakers, ", ");
    assert breakers[0] != MissingPermissionsText[0];
    (if !h.permissionsGranted then [MissingPermissionsText] else [])
    + (if |h.activeCircuitBreakers| > 0 then [breakers] else [])
  }

  /** `HealthStatus::description`. */
  function Description(h: HealthStatus): (d: string)
    ensures IsHealthy(h) ==> d == HealthyText
    ensures !IsHealthy(h) ==> StartsWith(d, IssuesPrefix)
    ensures d != DegradedText
  {
    if IsHealthy(h) then HealthyText
    else
      var issues := Issues(h);
      if |issues| == 0 then DegradedText
      else IssuesPrefix + JoinWith(issues, ", ")
  }
}
