/** `ToolInvoker.Invoke` used by one caller at a time (`internal/invoker/invoker.go`). */
module Invoker {
  import opened Strings
  import opened Errors
  import opened Backoff

  /** What the executor returned from one attempt. */
  datatype Outcome<R> = Success(result: R) | Failure(err: Error)

  /** What happens around one call: the outcome of each attempt, and whether the context is done
      during the wait after it. */
  datatype Env<R> = Env(outcome: nat -> Outcome<R>, cancelled: nat -> bool)

  datatype Return<R> =
    | Returned(result: R)
    | CircuitOpen
    | ContextDone
    | PermanentFailure(err: Error)
    | Exhausted(attempts: int, last: Option<Error>)
  {
    /** The `error` a caller sees. `%w` of a nil error wraps nothing. */
    function Err(): Option<Error> {
      match this
      case Returned(_) => None
      case CircuitOpen => Some(Leaf("invoker: circuit breaker open"))
      case ContextDone => Some(Leaf("context done"))
      case PermanentFailure(e) => Some(Wrapped("invoker: permanent error (no retry): ", e))
      case Exhausted(_, Some(e)) => Some(Wrapped("invoker: all attempts failed: ", e))
      case Exhausted(_, None) => Some(Leaf("invoker: all attempts failed: %!w(<nil>)"))
    }
  }

  predicate IsOpen(cfg: Config, failures: int) {
    cfg.circuitBreakerThreshold > 0 && failures >= cfg.circuitBreakerThreshold
  }

  predicate Transient<R>(o: Outcome<R>) { o.Failure? && !IsPermanent(o.err) }

  predicate PermanentOutcome<R>(o: Outcome<R>) { o.Failure? && IsPermanent(o.err) }

  /** Attempt `i` failed with an error worth retrying, and the wait after it ran out. */
  predicate WaitedOut<R>(env: Env<R>, i: nat) { Transient(env.outcome(i)) && !env.cancelled(i) }

  /** What a call may do: how often it executes, what it returns and what it makes of the counter.
      Every attempt but the last failed with an error worth retrying and its wait ran out. */
  ghost predicate Behaves<R>(cfg: Config, before: int, env: Env<R>, ret: Return<R>, calls: nat, after: int) {
    if IsOpen(cfg, before) then
      ret == CircuitOpen && calls == 0 && after == before
    else if cfg.maxRetries < 0 then
      ret == Exhausted(cfg.maxRetries + 1, None) && calls == 0 && after == before + 1
    else
      && 1 <= calls <= cfg.maxRetries + 1
      && (forall i :: 0 <= i < calls - 1 ==> WaitedOut(env, i))
      && var last := env.outcome(calls - 1);
      if last.Success? then ret == Returned(last.result) && after == 0
      else if IsPermanent(last.err) then ret == PermanentFailure(last.err) && after == before + 1
      else if calls <= cfg.maxRetries then env.cancelled(calls - 1) && ret == ContextDone && after == before
      else ret == Exhausted(calls, Some(last.err)) && after == before + 1
  }

  class ToolInvoker<R> {
    const cfg: Config
    var failures: int

    constructor (cfg: Config)
      ensures this.cfg == cfg && failures == 0
    {
      this.cfg := cfg;
      failures := 0;
    }

    /** The result's latency field is a clock reading and is left out. */
    method Invoke(env: Env<R>) returns (ret: Return<R>, ghost calls: nat)
      modifies this`failures
      ensures Behaves(cfg, old(failures), env, ret, calls, failures)
    {
      calls := 0;
      if cfg.circuitBreakerThreshold > 0 && failures >= cfg.circuitBreakerThreshold {
        return CircuitOpen, 0;
      }
      var attempts := cfg.maxRetries + 1;
      var err: Option<Error> := None;
      var attempt := 0;
      while attempt < attempts
        invariant calls == attempt && (attempt == 0 || attempt <= attempts)
        invariant forall i :: 0 <= i < attempt && i < cfg.maxRetries ==> WaitedOut(env, i)
        invariant attempt > 0 ==> Transient(env.outcome(attempt - 1))
        invariant err == if attempt == 0 then None else Some(env.outcome(attempt - 1).err)
        invariant failures == old(failures)
      {
        calls := calls + 1;
        match env.outcome(attempt) {
          case Success(result) =>
            failures := 0;
            return Returned(result), calls;
          case Failure(e) =>
            err := Some(e);
            if IsPermanent(e) {
              failures := failures + 1;
              return PermanentFailure(e), calls;
            }
        }
        if attempt < cfg.maxRetries {
          if env.cancelled(attempt) { return ContextDone, calls; }
        }
        attempt := attempt + 1;
      }
      failures := failures + 1;
      ret := Exhausted(attempts, err);
    }
  }

  /** The behaviour is determined: outcomes and cancellations fix what a call does. */
  lemma BehaviourIsDetermined<R>(cfg: Config, before: int, env: Env<R>, r1: Return<R>, c1: nat, a1: int,
      r2: Return<R>, c2: nat, a2: int)
    requires Behaves(cfg, before, env, r1, c1, a1) && Behaves(cfg, before, env, r2, c2, a2)
    ensures r1 == r2 && c1 == c2 && a1 == a2
  {
    if c1 > 0 { NotBeyond(cfg, before, env, r1, c1, a1); }
    if c2 > 0 { NotBeyond(cfg, before, env, r2, c2, a2); }
  }

  lemma NotBeyond<R>(cfg: Config, before: int, env: Env<R>, ret: Return<R>, calls: nat, after: int)
    requires Behaves(cfg, before, env, ret, calls, after) && calls > 0
    ensures calls == cfg.maxRetries + 1 || !WaitedOut(env, calls - 1)
  {
  }

  /** The call told from its outcomes: it executes until one is a success or permanent, the wait after one is
      cancelled, or the retries are used up, and that last outcome decides what it returns and counts. */
  lemma LastOutcomeDecides<R>(cfg: Config, before: int, env: Env<R>, ret: Return<R>, calls: nat, after: int, n: nat)
    requires Behaves(cfg, before, env, ret, calls, after)
    requires !(0 < cfg.circuitBreakerThreshold <= before) && n <= cfg.maxRetries
    requires forall i :: 0 <= i < n ==>
                           env.outcome(i).Failure? && !IsPermanent(env.outcome(i).err) && !env.cancelled(i)
    requires n == cfg.maxRetries || env.cancelled(n) || env.outcome(n).Success? || IsPermanent(env.outcome(n).err)
    ensures calls == n + 1
    ensures match env.outcome(n)
            case Success(result) => ret == Returned(result) && after == 0
            case Failure(e) =>
              if IsPermanent(e) then ret == PermanentFailure(e) && after == before + 1
              else if n < cfg.maxRetries then ret == ContextDone && after == before
              else ret == Exhausted(n + 1, Some(e)) && after == before + 1
  {
    NotBeyond(cfg, before, env, ret, calls, after);
    assert forall i :: 0 <= i < n ==> WaitedOut(env, i);
    assert n < cfg.maxRetries ==> !WaitedOut(env, n);
  }

  /** With a negative number of retries nothing is executed, and the call counts as a failure. */
  lemma NothingIsTried<R>(cfg: Config, before: int, env: Env<R>, ret: Return<R>, calls: nat, after: int)
    requires Behaves(cfg, before, env, ret, calls, after)
    requires !(0 < cfg.circuitBreakerThreshold <= before) && cfg.maxRetries < 0
    ensures calls == 0 && ret == Exhausted(cfg.maxRetries + 1, None) && after == before + 1
  {
  }

  /** A caller can tell from the error whether to retry: it is permanent exactly when the last
      attempt's error was. */
  lemma PermanenceIsReported<R>(cfg: Config, before: int, env: Env<R>, ret: Return<R>, calls: nat, after: int)
    requires Behaves(cfg, before, env, ret, calls, after)
    ensures (ret.Err().Some? && IsPermanent(ret.Err().value)) <==> calls > 0 && PermanentOutcome(env.outcome(calls - 1))
    ensures ret.Err().None? <==> calls > 0 && env.outcome(calls - 1).Success?
  {
  }

  // ---------------------------------------------------------------- histories

  datatype Call<!R> = Call(env: Env<R>, ret: Return<R>, calls: nat, after: int)

  /** The counter before call `i` of a history that starts with a new invoker. */
  ghost function Before<R>(h: seq<Call<R>>, i: nat): int
    requires i <= |h|
  {
    if i == 0 then 0 else h[i - 1].after
  }

  ghost predicate History<R>(cfg: Config, h: seq<Call<R>>) {
    forall i :: 0 <= i < |h| ==> Behaves(cfg, Before(h, i), h[i].env, h[i].ret, h[i].calls, h[i].after)
  }

  predicate Counted<R>(ret: Return<R>) { ret.PermanentFailure? || ret.Exhausted? }

  /** Failures a caller was told about since the last success; rejections and cancellations do not
      count. */
  ghost function FailuresSinceSuccess<R>(h: seq<Call<R>>): nat {
    if h == [] then 0
    else
      var last := h[|h| - 1].ret;
      if last.Returned? then 0
      else (if Counted(last) then 1 else 0) + FailuresSinceSuccess(h[..|h| - 1])
  }

  /** One call's effect on the counter. */
  lemma CountStep<R>(cfg: Config, before: int, env: Env<R>, ret: Return<R>, calls: nat, after: int)
    requires Behaves(cfg, before, env, ret, calls, after)
    ensures after == if ret.Returned? then 0 else before + (if Counted(ret) then 1 else 0)
    ensures ret.CircuitOpen? <==> 0 < cfg.circuitBreakerThreshold <= before
    ensures ret.CircuitOpen? ==> calls == 0
  {
  }

  lemma HistoryPrefix<R>(cfg: Config, h: seq<Call<R>>, n: nat)
    requires History(cfg, h) && n <= |h|
    ensures History(cfg, h[..n]) && Before(h[..n], |h[..n]|) == Before(h, n)
  {
    hide Behaves;
    assert forall i :: 0 <= i <= n ==> Before(h[..n], i) == Before(h, i);
    assert forall i :: 0 <= i < n ==> h[..n][i] == h[i];
  }

  lemma {:induction false} CounterIsFailures<R>(cfg: Config, h: seq<Call<R>>)
    requires History(cfg, h)
    ensures Before(h, |h|) == FailuresSinceSuccess(h)
  {
    hide Behaves;
    if h == [] {
    } else {
      var n := |h| - 1;
      HistoryPrefix(cfg, h, n);
      CounterIsFailures(cfg, h[..n]);
      assert Behaves(cfg, Before(h, n), h[n].env, h[n].ret, h[n].calls, h[n].after);
      hide History;
      CountStep(cfg, Before(h, n), h[n].env, h[n].ret, h[n].calls, h[n].after);
    }
  }

  /** Over any history the counter is the number of counted failures since the last success, and a
      call is rejected exactly when there is a threshold and that number has reached it. */
  lemma CounterCountsFailures<R>(cfg: Config, h: seq<Call<R>>)
    requires History(cfg, h)
    ensures Before(h, |h|) == FailuresSinceSuccess(h)
    ensures forall i :: 0 <= i < |h| ==>
                          (h[i].ret.CircuitOpen? <==>
                           0 < cfg.circuitBreakerThreshold <= FailuresSinceSuccess(h[..i]))
  {
    CounterIsFailures(cfg, h);
    forall i | 0 <= i < |h|
      ensures h[i].ret.CircuitOpen? <==> 0 < cfg.circuitBreakerThreshold <= FailuresSinceSuccess(h[..i])
    {
      RejectedIffOpen(cfg, h, i);
    }
  }

  lemma RejectedIffOpen<R>(cfg: Config, h: seq<Call<R>>, i: nat)
    requires History(cfg, h) && i < |h|
    ensures h[i].ret.CircuitOpen? <==> 0 < cfg.circuitBreakerThreshold <= FailuresSinceSuccess(h[..i])
  {
    hide Behaves, FailuresSinceSuccess;
    HistoryPrefix(cfg, h, i);
    CounterIsFailures(cfg, h[..i]);
    CountStep(cfg, Before(h, i), h[i].env, h[i].ret, h[i].calls, h[i].after);
  }

  /** With calls one at a time an open breaker never closes: every later call is rejected without
      executing. */
  lemma {:induction false} OpenForEver<R>(cfg: Config, h: seq<Call<R>>, i: nat, j: nat)
    requires History(cfg, h) && i <= j < |h| && 0 < cfg.circuitBreakerThreshold <= Before(h, i)
    ensures h[j].ret == CircuitOpen && h[j].calls == 0 && Before(h, j) == Before(h, i)
    decreases j
  {
    hide Behaves;
    if i < j {
      OpenForEver(cfg, h, i, j - 1);
      CountStep(cfg, Before(h, j - 1), h[j - 1].env, h[j - 1].ret, h[j - 1].calls, h[j - 1].after);
    }
    CountStep(cfg, Before(h, j), h[j].env, h[j].ret, h[j].calls, h[j].after);
  }

  // ---------------------------------------------------------------- how long a call takes

  /** Time of a call: its attempts, and the waits between them. */
  function Elapsed(attempt: nat -> int, wait: nat -> int, calls: nat, waits: nat): int {
    Sum(attempt, calls) + Sum(wait, waits)
  }

  function Sum(f: nat -> int, n: nat): int {
    if n == 0 then 0 else Sum(f, n - 1) + f(n - 1)
  }

  lemma {:induction false} SumBelow(f: nat -> int, n: nat, k: nat, c: int)
    requires n <= k && 0 <= c && forall i :: 0 <= i < n ==> f(i) <= c
    ensures Sum(f, n) <= k * c
  {
    if n > 0 {
      SumBelow(f, n - 1, k - 1, c);
      assert k * c == (k - 1) * c + c;
    } else {
      assert k * c >= 0;
    }
  }

  lemma {:induction false} WaitsBelow(cfg: Config, wait: nat -> int, n: nat, retries: nat, overflow: int)
    requires n <= retries && forall i :: 0 <= i < n ==> wait(i) <= Wait(cfg, i, overflow)
    ensures Sum(wait, n) <= TotalWait(cfg, retries, overflow)
    decreases retries
  {
    hide Wait;
    if retries == 0 {
    } else {
      WaitsBelow(cfg, wait, if n == retries then n - 1 else n, retries - 1, overflow);
    }
  }

  /** How often a call may execute, and how often it may wait. */
  function MaxAttempts(cfg: Config): nat { if cfg.maxRetries < 0 then 0 else cfg.maxRetries + 1 }

  function MaxWaits(cfg: Config): nat { if cfg.maxRetries < 0 then 0 else cfg.maxRetries }

  /** The waits a call began: one after every attempt but the one that ended it, and a cancelled one. */
  function Waits<R>(ret: Return<R>, calls: nat): nat {
    if ret.ContextDone? then calls else if calls == 0 then 0 else calls - 1
  }

  /** If every attempt keeps its deadline and no wait overruns, a call ends within
      `(MaxRetries + 1) * Timeout` plus all the backoff waits, whatever the multiplier, the base delay
      and the platform. */
  lemma CallDuration<R>(cfg: Config, before: int, env: Env<R>, ret: Return<R>, calls: nat, after: int,
                        attempt: nat -> int, wait: nat -> int, overflow: int)
    requires Behaves(cfg, before, env, ret, calls, after) && cfg.timeout > 0
    requires forall i :: 0 <= i < calls ==> attempt(i) <= cfg.timeout
    requires forall i :: 0 <= i < Waits(ret, calls) ==> wait(i) <= Wait(cfg, i, overflow)
    ensures Elapsed(attempt, wait, calls, Waits(ret, calls))
            <= MaxAttempts(cfg) * cfg.timeout + TotalWait(cfg, MaxWaits(cfg), overflow)
  {
    SumBelow(attempt, calls, MaxAttempts(cfg), cfg.timeout);
    WaitsBelow(cfg, wait, Waits(ret, calls), MaxWaits(cfg), overflow);
  }
}
