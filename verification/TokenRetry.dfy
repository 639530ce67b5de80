/**
 The retry loop of the token generator: at most three logins under a wall-clock budget, with a jittered
 pause between them. Its three defensive raises are modelled too, and proved unreachable.
 */
module TokenRetry {
  import opened Options
  import opened TokenSteps

  const MAX_ATTEMPTS: nat := 3
  const DELAY_MIN := 5.0
  const DELAY_MAX := 10.0

  datatype Result =
    | Token(value: string)
    | Raised(error: TokenError)
    | Exhausted(error: TokenError, attempts: nat)
    | Defensive

  /** The history of one call: when each attempt started, with which clock drift, and when it ended;
      what each failed attempt raised; the time slept in all, and the time of the result. */
  datatype Log = Log(starts: seq<real>, drifts: seq<real>, ends: seq<real>, failures: seq<TokenError>, slept: real, end: real)

  function Digit(n: nat): char
    requires n < 10
  {
    "0123456789"[n]
  }

  function Detail(error: TokenError, attempts: nat): string
    requires attempts < 10
  {
    error.message + (" [after " + [Digit(attempts)] + " attempts; maximum retries exhausted]")
  }

  /** _raise_after_max_attempts: the class of the last error, its message first. */
  function Exhaust(last: TokenError, attempts: nat): Result
    requires attempts < 10
  {
    Exhausted(if last.ConnectionError? then ConnectionError(Detail(last, attempts)) else AuthError(Detail(last, attempts)),
              attempts)
  }

  /** The login that attempt k makes. */
  ghost function Tried(scripts: seq<Script>, setup: Setup, log: Log, k: nat): Attempt
    requires k < |scripts| && k < |log.starts| && k < |log.drifts|
  {
    Login(scripts[k], setup, log.starts[k], log.drifts[k])
  }

  /** When the attempt after k starts: after the drawn pause, or when the time is up. */
  ghost function NextStart(scripts: seq<Script>, setup: Setup, log: Log, k: nat): real
    requires k < |scripts| && k < |log.ends|
  {
    log.ends[k] + Min(scripts[k].delay, setup.deadline - log.ends[k])
  }

  /** Attempt k failed with a connection error and left time for a pause. */
  ghost predicate FollowedUp(scripts: seq<Script>, setup: Setup, log: Log, k: nat)
    requires k < |scripts| && k < |log.starts| && k < |log.drifts| && k < |log.ends|
  {
    && k < |log.failures| && log.failures[k].ConnectionError?
    && Tried(scripts, setup, log, k).outcome == Err(log.failures[k])
    && setup.deadline - log.ends[k] >= DELAY_MIN
  }

  /** The attempts made are consecutive logins: the first starts at once, each later one after the
      pause that follows the one before, with the clock drift that one left. */
  ghost predicate Attempts(scripts: seq<Script>, setup: Setup, start: real, drift0: real, log: Log) {
    var n := |log.starts|;
    && n == |log.drifts| == |log.ends| <= |scripts|
    && (n > 0 ==> log.starts[0] == start && log.drifts[0] == drift0)
    && (forall k :: 0 <= k < n ==> log.ends[k] == Tried(scripts, setup, log, k).end)
    && (forall k :: 0 <= k < n - 1 ==>
          && FollowedUp(scripts, setup, log, k)
          && log.starts[k + 1] == NextStart(scripts, setup, log, k)
          && log.drifts[k + 1] == Tried(scripts, setup, log, k).drift)
  }

  /** What the loop keeps between attempts. */
  ghost predicate Kept(setup: Setup, start: real, log: Log, last: Option<TokenError>) {
    var n := |log.failures|;
    && n <= MAX_ATTEMPTS && |log.starts| == n
    && (forall k :: 0 < k < n ==> setup.deadline - log.starts[k] >= 0.5)
    && (last.None? <==> n == 0) && (n > 0 ==> last == Some(log.failures[n - 1]))
    && 0.0 <= log.slept <= log.end - start && log.slept <= setup.deadline - start
    && start <= log.end
  }

  /** The bounds of a finished call on attempts, sleep and time. */
  ghost predicate Bounds(setup: Setup, start: real, log: Log, hopLimit: real, sdkLimit: real) {
    var n := |log.starts|;
    && 1 <= n <= MAX_ATTEMPTS
    && (forall k :: 0 < k < n ==> setup.deadline - log.starts[k] >= 0.5)
    && 0.0 <= log.slept <= setup.deadline - start
    && log.end <= Max(setup.deadline, setup.deadline - 0.5 + 6.0 * hopLimit + sdkLimit)
    && (hopLimit >= 0.1 && sdkLimit >= 0.1 ==> log.end <= setup.deadline - 0.5 + 6.0 * hopLimit + sdkLimit)
  }

  /** The result is that of the last attempt; giving up after a connection error takes three attempts
      or too little time left. */
  ghost predicate Concluded(scripts: seq<Script>, setup: Setup, result: Result, log: Log)
    requires 0 < |log.starts| == |log.drifts| == |log.ends| <= |scripts|
  {
    var n := |log.starts|;
    var outcome := Tried(scripts, setup, log, n - 1).outcome;
    match result
    case Token(value) => outcome == Ok(value) && log.end == log.ends[n - 1]
    case Raised(error) =>
      outcome == Err(error) && !error.ConnectionError? && (error.AuthError? ==> IsPermanent(error.message))
      && log.end == log.ends[n - 1]
    case Exhausted(error, attempts) =>
      && |log.failures| == n == attempts && outcome == Err(log.failures[n - 1]) && log.failures[n - 1].ConnectionError?
      && error.ConnectionError? && log.failures[n - 1].message <= error.message
      && (n == MAX_ATTEMPTS || setup.deadline - log.end < DELAY_MIN)
      && (log.end == log.ends[n - 1] || (log.end == NextStart(scripts, setup, log, n - 1) && setup.deadline - log.end < 0.5))
    case Defensive => false
  }

  /** What a finished call guarantees. */
  ghost predicate Guaranteed(scripts: seq<Script>, setup: Setup, start: real, drift0: real, result: Result, log: Log,
                             hopLimit: real, sdkLimit: real) {
    && Bounds(setup, start, log, hopLimit, sdkLimit)
    && Attempts(scripts, setup, start, drift0, log)
    && Concluded(scripts, setup, result, log)
  }

  lemma ExhaustNames(last: TokenError, attempts: nat)
    requires attempts < 10
    ensures var r := Exhaust(last, attempts);
            && r.Exhausted? && r.attempts == attempts && last.message <= r.error.message
            && (last.ConnectionError? ==> r.error.ConnectionError?)
  {}

  lemma PauseFits(delay: real, now: real, deadline: real)
    requires delay >= DELAY_MIN && deadline - now >= DELAY_MIN
    ensures var left := SecondsLeft(now, deadline);
            && left == deadline - now
            && SleepCapped(Min(delay, left), now, deadline) == Min(delay, deadline - now) > 0.0
  {}

  /** The next attempt is due now, with this drift. */
  ghost predicate Due(scripts: seq<Script>, setup: Setup, start: real, drift0: real, log: Log, now: real, drift: real)
    requires |log.starts| == |log.drifts| == |log.ends| <= |scripts|
  {
    var n := |log.starts|;
    if n == 0 then now == start && drift == drift0
    else
      && FollowedUp(scripts, setup, log, n - 1)
      && now == NextStart(scripts, setup, log, n - 1) && drift == Tried(scripts, setup, log, n - 1).drift
  }

  lemma NoAttempts(scripts: seq<Script>, setup: Setup, start: real, drift0: real, log: Log)
    requires log == Log([], [], [], [], 0.0, start)
    ensures Attempts(scripts, setup, start, drift0, log) && Due(scripts, setup, start, drift0, log, start, drift0)
  {}

  /** The log with the attempt that is due. */
  lemma AddDue(scripts: seq<Script>, setup: Setup, start: real, drift0: real, log: Log, now: real, drift: real,
               a: Attempt, longer: Log)
    requires Attempts(scripts, setup, start, drift0, log) && |log.starts| < |scripts|
    requires Due(scripts, setup, start, drift0, log, now, drift)
    requires a == Login(scripts[|log.starts|], setup, now, drift) && longer.failures == log.failures
    requires longer.starts == log.starts + [now] && longer.drifts == log.drifts + [drift] && longer.ends == log.ends + [a.end]
    ensures Attempts(scripts, setup, start, drift0, longer) && Tried(scripts, setup, longer, |log.starts|) == a
  {
    hide Login;
    forall k | 0 <= k < |log.starts|
      ensures Tried(scripts, setup, longer, k) == Tried(scripts, setup, log, k)
      ensures NextStart(scripts, setup, longer, k) == NextStart(scripts, setup, log, k)
      ensures FollowedUp(scripts, setup, log, k) ==> FollowedUp(scripts, setup, longer, k)
    {}
  }

  /** What it means to give up at the head of the loop. */
  lemma DueMeans(scripts: seq<Script>, setup: Setup, start: real, drift0: real, log: Log, now: real, drift: real)
    requires 0 < |log.starts| == |log.drifts| == |log.ends| <= |scripts| && |log.failures| == |log.starts|
    requires Due(scripts, setup, start, drift0, log, now, drift)
    ensures var n := |log.starts|;
            && log.failures[n - 1].ConnectionError?
            && Tried(scripts, setup, log, n - 1).outcome == Err(log.failures[n - 1])
            && now == NextStart(scripts, setup, log, n - 1)
  {
    hide Login;
  }

  lemma BecomesDue(scripts: seq<Script>, setup: Setup, start: real, drift0: real, log: Log, now: real, drift: real)
    requires 0 < |log.starts| == |log.drifts| == |log.ends| <= |scripts| && |log.failures| == |log.starts|
    requires var n := |log.starts|;
             var a := Tried(scripts, setup, log, n - 1);
             && log.failures[n - 1].ConnectionError? && a.outcome == Err(log.failures[n - 1]) && drift == a.drift
             && setup.deadline - log.ends[n - 1] >= DELAY_MIN
             && now == log.ends[n - 1] + Min(scripts[n - 1].delay, setup.deadline - log.ends[n - 1])
    ensures Due(scripts, setup, start, drift0, log, now, drift)
  {
    hide Login;
  }

  /** Recording a failure, or the pause after it, changes nothing about the attempts. */
  lemma SameAttempts(scripts: seq<Script>, setup: Setup, start: real, drift0: real, log: Log, log': Log)
    requires Attempts(scripts, setup, start, drift0, log) && log.failures <= log'.failures
    requires log'.starts == log.starts && log'.drifts == log.drifts && log'.ends == log.ends
    ensures Attempts(scripts, setup, start, drift0, log')
    ensures |log.starts| == |log.drifts| == |log.ends| <= |scripts|
    ensures forall k :: 0 <= k < |log.starts| ==> Tried(scripts, setup, log', k) == Tried(scripts, setup, log, k)
  {
    hide Login;
    forall k | 0 <= k < |log.starts|
      ensures Tried(scripts, setup, log', k) == Tried(scripts, setup, log, k)
      ensures NextStart(scripts, setup, log', k) == NextStart(scripts, setup, log, k)
      ensures FollowedUp(scripts, setup, log, k) ==> FollowedUp(scripts, setup, log', k)
    {}
  }

  /** generate_fyers_access_token after its configuration is loaded. `scripts[k]` is what attempt
      k + 1 meets; the budget is at least one second, as its loader enforces. */
  method Generate(scripts: seq<Script>, setup: Setup, start: real, drift0: real, ghost hopLimit: real, ghost sdkLimit: real)
    returns (result: Result, log: Log)
    requires |scripts| == MAX_ATTEMPTS && setup.deadline >= start + 1.0
    requires forall k :: 0 <= k < |scripts| ==> Bounded(scripts[k], hopLimit, sdkLimit)
    requires forall k :: 0 <= k < |scripts| ==> DELAY_MIN <= scripts[k].delay <= DELAY_MAX
    ensures Guaranteed(scripts, setup, start, drift0, result, log, hopLimit, sdkLimit)
  {
    hide Login, IsPermanent, Bounded, Exhaust, SleepCapped, Attempts, Due, Tried, NextStart, FollowedUp;
    var last: Option<TokenError>, now, drift := None, start, drift0;
    log := Log([], [], [], [], 0.0, start);
    NoAttempts(scripts, setup, start, drift0, log);
    result := Defensive;
    var attempt := 1;
    var running := true;
    while running && attempt <= MAX_ATTEMPTS
      invariant 1 <= attempt <= MAX_ATTEMPTS + 1
      invariant running ==> attempt == |log.failures| + 1 && attempt <= MAX_ATTEMPTS
                            && Kept(setup, start, log, last) && now == log.end
                            && |log.starts| == |log.drifts| == |log.ends| == |log.failures|
                            && Attempts(scripts, setup, start, drift0, log)
                            && Due(scripts, setup, start, drift0, log, now, drift)
                            && (if attempt == 1 then now == start
                                else now <= Max(setup.deadline, setup.deadline - 0.5 + 6.0 * hopLimit + sdkLimit))
      invariant !running ==> Guaranteed(scripts, setup, start, drift0, result, log, hopLimit, sdkLimit)
      decreases running, MAX_ATTEMPTS + 1 - attempt
    {
      if attempt > 1 && SecondsLeft(now, setup.deadline) < 0.5 {
        ExhaustNames(log.failures[attempt - 2], attempt - 1);
        result := match last case Some(error) => Exhaust(error, attempt - 1) case None => Defensive;
        running := false;
        DueMeans(scripts, setup, start, drift0, log, now, drift);
      } else {
        var script := scripts[attempt - 1];
        var a := Login(script, setup, now, drift);
        LoginTime(script, setup, now, drift, hopLimit, sdkLimit);
        LoginClassified(script, setup, now, drift);
        ghost var before := log;
        log := log.(starts := log.starts + [now], drifts := log.drifts + [drift], ends := log.ends + [a.end],
                    slept := log.slept + a.slept, end := a.end);
        AddDue(scripts, setup, start, drift0, before, now, drift, a, log);
        now, drift := a.end, a.drift;
        if a.outcome.Ok? {
          result, running := Token(a.outcome.value), false;
        } else {
          var error := a.outcome.error;
          before := log;
          log := log.(failures := log.failures + [error]);
          SameAttempts(scripts, setup, start, drift0, before, log);
          if error.ConfigError? || error.OtherError? || (error.AuthError? && IsPermanent(error.message)) {
            result, running := Raised(error), false;
          } else {
            last := Some(error);
            ExhaustNames(error, attempt);
            if attempt >= MAX_ATTEMPTS {
              result, running := Exhaust(error, attempt), false;
            } else {
                      var left := SecondsLeft(now, setup.deadline);
              if left < DELAY_MIN {
                result, running := Exhaust(error, attempt), false;
              } else {
                PauseFits(script.delay, now, setup.deadline);
                var pause := SleepCapped(Min(script.delay, left), now, setup.deadline);
                now := now + pause;
                before := log;
                log := log.(slept := log.slept + pause, end := now);
                SameAttempts(scripts, setup, start, drift0, before, log);
                BecomesDue(scripts, setup, start, drift0, log, now, drift);
                attempt := attempt + 1;
              }
            }
          }
        }
      }
    }
  }
}
