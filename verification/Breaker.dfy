/** `ToolInvoker.Invoke` called by many goroutines at once (`internal/invoker/invoker.go`): the
    failure counter is atomic, but the gate that reads it and the `Store(0)` or `Add(1)` that ends a
    call are separate steps, and everything between them interleaves. */
module Breaker {
  import opened Strings
  import opened Errors
  import opened Backoff
  import opened Invoker

  /** Where one caller is: outside, about to run attempt `attempt`, waiting after it, or about to
      reset or count up the counter. */
  datatype Pc = Idle | Trying(attempt: nat) | Waiting(attempt: nat) | Resetting | Counting

  datatype State = State(failures: int, pcs: seq<Pc>)

  datatype Verdict = Ok | Retryable | Fatal

  datatype Step =
    | Gate(i: nat)
    | Execute(i: nat, verdict: Verdict)
    | Timer(i: nat)
    | Cancel(i: nat)
    | Reset(i: nat)
    | Count(i: nat)

  predicate Enabled(s: State, step: Step) {
    step.i < |s.pcs| &&
    match step
    case Gate(i) => s.pcs[i].Idle?
    case Execute(i, _) => s.pcs[i].Trying?
    case Timer(i) => s.pcs[i].Waiting?
    case Cancel(i) => s.pcs[i].Waiting?
    case Reset(i) => s.pcs[i].Resetting?
    case Count(i) => s.pcs[i].Counting?
  }

  /** Where the caller is after the step. An open gate lets nobody in. */
  function NextPc(cfg: Config, s: State, step: Step): Pc
    requires Enabled(s, step)
  {
    match step
    case Gate(_) =>
      if IsOpen(cfg, s.failures) then Idle else if cfg.maxRetries < 0 then Counting else Trying(0)
    case Execute(i, Ok) => Resetting
    case Execute(i, Fatal) => Counting
    case Execute(i, Retryable) =>
      if s.pcs[i].attempt < cfg.maxRetries then Waiting(s.pcs[i].attempt) else Counting
    case Timer(i) => Trying(s.pcs[i].attempt + 1)
    case Cancel(_) => Idle
    case Reset(_) => Idle
    case Count(_) => Idle
  }

  function Apply(cfg: Config, s: State, step: Step): State
    requires Enabled(s, step)
  {
    State(
      match step case Reset(_) => 0 case Count(_) => s.failures + 1 case _ => s.failures,
      s.pcs[step.i := NextPc(cfg, s, step)])
  }

  ghost predicate Run(cfg: Config, s: State, steps: seq<Step>, t: State)
    decreases |steps|
  {
    if steps == [] then s == t
    else Enabled(s, steps[0]) && Run(cfg, Apply(cfg, s, steps[0]), steps[1..], t)
  }

  function Executions(steps: seq<Step>): nat {
    if steps == [] then 0 else (if steps[0].Execute? then 1 else 0) + Executions(steps[1..])
  }

  function InFlight(pcs: seq<Pc>): (n: nat)
    ensures n <= |pcs|
  {
    if pcs == [] then 0 else (if pcs[0].Idle? then 0 else 1) + InFlight(pcs[1..])
  }

  lemma {:induction false} InFlightUpdate(pcs: seq<Pc>, i: nat, pc: Pc)
    requires i < |pcs|
    ensures InFlight(pcs[i := pc]) == InFlight(pcs) - (if pcs[i].Idle? then 0 else 1) + (if pc.Idle? then 0 else 1)
  {
    if i == 0 {
      assert pcs[0 := pc][1..] == pcs[1..];
    } else {
      assert pcs[i := pc][1..] == pcs[1..][i - 1 := pc];
      InFlightUpdate(pcs[1..], i - 1, pc);
    }
  }

  function Start(n: nat): State {
    State(0, seq(n, _ => Idle))
  }

  lemma {:induction false} NobodyInFlight(pcs: seq<Pc>)
    ensures InFlight(pcs) == 0 <==> forall i :: 0 <= i < |pcs| ==> pcs[i].Idle?
  {
    if pcs == [] {
    } else {
      NobodyInFlight(pcs[1..]);
      assert forall i :: 0 < i < |pcs| ==> pcs[i] == pcs[1..][i - 1];
      assert forall i :: 0 <= i < |pcs[1..]| ==> pcs[1..][i] == pcs[i + 1];
    }
  }

  // ---------------------------------------------------------------- how far the counter can run

  ghost predicate Bounded(cfg: Config, s: State) {
    s.failures >= 0 && s.failures + InFlight(s.pcs) <= cfg.circuitBreakerThreshold - 1 + |s.pcs|
  }

  lemma BoundedStep(cfg: Config, s: State, step: Step)
    requires cfg.circuitBreakerThreshold >= 1 && Bounded(cfg, s) && Enabled(s, step)
    ensures Bounded(cfg, Apply(cfg, s, step)) && |Apply(cfg, s, step).pcs| == |s.pcs|
  {
    InFlightUpdate(s.pcs, step.i, NextPc(cfg, s, step));
  }

  lemma {:induction false} BoundedRun(cfg: Config, s: State, steps: seq<Step>, t: State)
    requires cfg.circuitBreakerThreshold >= 1 && Bounded(cfg, s) && Run(cfg, s, steps, t)
    ensures Bounded(cfg, t) && |t.pcs| == |s.pcs|
    decreases |steps|
  {
    if steps == [] {
    } else {
      BoundedStep(cfg, s, steps[0]);
      BoundedRun(cfg, Apply(cfg, s, steps[0]), steps[1..], t);
    }
  }

  /** In every interleaving of `n` callers, failures plus calls in flight stay at most `T - 1 + n`;
      the counter overshoots its threshold by less than the number of callers. */
  lemma CounterBound(cfg: Config, n: nat, steps: seq<Step>, t: State)
    requires cfg.circuitBreakerThreshold >= 1 && Run(cfg, Start(n), steps, t)
    ensures 0 <= t.failures && t.failures + InFlight(t.pcs) <= cfg.circuitBreakerThreshold - 1 + n
  {
    NobodyInFlight(Start(n).pcs);
    BoundedRun(cfg, Start(n), steps, t);
  }

  lemma {:induction false} RunConcat(cfg: Config, s: State, a: seq<Step>, t: State, b: seq<Step>, u: State)
    requires Run(cfg, s, a, t) && Run(cfg, t, b, u)
    ensures Run(cfg, s, a + b, u) && Executions(a + b) == Executions(a) + Executions(b)
    decreases |a|
  {
    if a == [] {
      assert a + b == b;
    } else {
      assert (a + b)[0] == a[0] && (a + b)[1..] == a[1..] + b;
      RunConcat(cfg, Apply(cfg, s, a[0]), a[1..], t, b, u);
    }
  }

  lemma RunOne(cfg: Config, s: State, step: Step)
    requires Enabled(s, step)
    ensures Run(cfg, s, [step], Apply(cfg, s, step))
  {
    assert [step][1..] == [];
  }

  /** Caller `i` enters a closed gate and fails for good, but has not counted yet. */
  lemma EnterAndFail(cfg: Config, s: State, i: nat) returns (steps: seq<Step>)
    requires i < |s.pcs| && s.pcs[i].Idle? && !IsOpen(cfg, s.failures)
    ensures Run(cfg, s, steps, State(s.failures, s.pcs[i := Counting]))
  {
    var a := Apply(cfg, s, Gate(i));
    RunOne(cfg, s, Gate(i));
    steps := [Gate(i)];
    if cfg.maxRetries >= 0 {
      RunOne(cfg, a, Execute(i, Fatal));
      RunConcat(cfg, s, steps, a, [Execute(i, Fatal)], Apply(cfg, a, Execute(i, Fatal)));
      steps := steps + [Execute(i, Fatal)];
      assert a.pcs[i := Counting] == s.pcs[i := Counting];
    }
  }

  lemma {:induction false} FailAlone(cfg: Config, pcs: seq<Pc>, k: nat) returns (steps: seq<Step>)
    requires pcs != [] && pcs[0].Idle? && k <= cfg.circuitBreakerThreshold
    ensures Run(cfg, State(0, pcs), steps, State(k, pcs))
    decreases k
  {
    steps := [];
    if k == 0 {
    } else {
      steps := FailAlone(cfg, pcs, k - 1);
      var s := State(k - 1, pcs);
      var more := EnterAndFail(cfg, s, 0);
      var t := State(k - 1, pcs[0 := Counting]);
      RunConcat(cfg, State(0, pcs), steps, s, more, t);
      RunOne(cfg, t, Count(0));
      assert t.pcs[0 := Idle] == pcs;
      RunConcat(cfg, State(0, pcs), steps + more, t, [Count(0)], State(k, pcs));
      steps := steps + more + [Count(0)];
    }
  }

  function Failed(n: nat, k: nat): seq<Pc>
    requires k <= n
  {
    seq(k, _ => Counting) + seq(n - k, _ => Idle)
  }

  lemma {:induction false} AllEnter(cfg: Config, f: int, n: nat, k: nat) returns (steps: seq<Step>)
    requires k <= n && !IsOpen(cfg, f)
    ensures Run(cfg, State(f, Failed(n, 0)), steps, State(f, Failed(n, k)))
    decreases k
  {
    steps := [];
    if k == 0 {
    } else {
      steps := AllEnter(cfg, f, n, k - 1);
      var more := EnterAndFail(cfg, State(f, Failed(n, k - 1)), k - 1);
      assert Failed(n, k - 1)[k - 1 := Counting] == Failed(n, k);
      RunConcat(cfg, State(f, Failed(n, 0)), steps, State(f, Failed(n, k - 1)), more, State(f, Failed(n, k)));
      steps := steps + more;
    }
  }

  lemma {:induction false} AllCount(cfg: Config, f: int, n: nat, k: nat) returns (steps: seq<Step>)
    requires k <= n
    ensures Run(cfg, State(f, Failed(n, k)), steps, State(f + k, Failed(n, 0)))
    decreases k
  {
    steps := [];
    if k == 0 {
    } else {
      var s := State(f, Failed(n, k));
      RunOne(cfg, s, Count(k - 1));
      assert Failed(n, k)[k - 1 := Idle] == Failed(n, k - 1);
      var rest := AllCount(cfg, f + 1, n, k - 1);
      RunConcat(cfg, s, [Count(k - 1)], State(f + 1, Failed(n, k - 1)), rest, State(f + k, Failed(n, 0)));
      steps := [Count(k - 1)] + rest;
    }
  }

  /** The bound is exact: some interleaving of `n` callers takes the counter to `T - 1 + n`. */
  lemma CounterBoundIsReached(cfg: Config, n: nat) returns (steps: seq<Step>, t: State)
    requires cfg.circuitBreakerThreshold >= 1 && n >= 1
    ensures Run(cfg, Start(n), steps, t) && t.failures == cfg.circuitBreakerThreshold - 1 + n
  {
    var f := cfg.circuitBreakerThreshold - 1;
    assert Start(n).pcs == Failed(n, 0);
    var a := FailAlone(cfg, Failed(n, 0), f);
    var b := AllEnter(cfg, f, n, n);
    var c := AllCount(cfg, f, n, n);
    t := State(f + n, Failed(n, 0));
    RunConcat(cfg, Start(n), a, State(f, Failed(n, 0)), b, State(f, Failed(n, n)));
    RunConcat(cfg, Start(n), a + b, State(f, Failed(n, n)), c, t);
    steps := a + b + c;
  }

  // ---------------------------------------------------------------- an open breaker

  /** The breaker is open before every step; the last step may close it. */
  ghost predicate OpenUntilEnd(cfg: Config, s: State, steps: seq<Step>)
    decreases |steps|
  {
    steps == [] ||
    (IsOpen(cfg, s.failures) && Enabled(s, steps[0]) && OpenUntilEnd(cfg, Apply(cfg, s, steps[0]), steps[1..]))
  }

  /** Executor calls a caller may still make without passing the gate again. */
  function Left(cfg: Config, pc: Pc): nat {
    match pc
    case Trying(a) => if a <= cfg.maxRetries then cfg.maxRetries + 1 - a else 0
    case Waiting(a) => if a < cfg.maxRetries then cfg.maxRetries - a else 0
    case _ => 0
  }

  function Budget(cfg: Config, pcs: seq<Pc>): nat {
    if pcs == [] then 0 else Left(cfg, pcs[0]) + Budget(cfg, pcs[1..])
  }

  lemma {:induction false} BudgetUpdate(cfg: Config, pcs: seq<Pc>, i: nat, pc: Pc)
    requires i < |pcs|
    ensures Budget(cfg, pcs[i := pc]) == Budget(cfg, pcs) - Left(cfg, pcs[i]) + Left(cfg, pc)
  {
    if i == 0 {
      assert pcs[0 := pc][1..] == pcs[1..];
    } else {
      assert pcs[i := pc][1..] == pcs[1..][i - 1 := pc];
      BudgetUpdate(cfg, pcs[1..], i - 1, pc);
    }
  }

  lemma {:induction false} BudgetBound(cfg: Config, pcs: seq<Pc>)
    ensures Budget(cfg, pcs) <= InFlight(pcs) * MaxAttempts(cfg)
  {
    if pcs == [] {
    } else {
      BudgetBound(cfg, pcs[1..]);
      OneMore(InFlight(pcs[1..]), MaxAttempts(cfg));
    }
  }

  lemma OneMore(k: nat, a: nat)
    ensures (k + 1) * a == k * a + a
  {
  }

  /** Attempt numbers of callers stay within the configured retries. */
  ghost predicate InRange(cfg: Config, s: State) {
    forall i :: 0 <= i < |s.pcs| ==>
                  (s.pcs[i].Trying? ==> s.pcs[i].attempt <= cfg.maxRetries)
                  && (s.pcs[i].Waiting? ==> s.pcs[i].attempt < cfg.maxRetries)
  }

  lemma {:induction false} RunStaysInRange(cfg: Config, s: State, steps: seq<Step>, t: State)
    requires InRange(cfg, s) && Run(cfg, s, steps, t)
    ensures InRange(cfg, t)
    decreases |steps|
  {
    if steps == [] {
    } else {
      RunStaysInRange(cfg, Apply(cfg, s, steps[0]), steps[1..], t);
    }
  }

  lemma {:induction false} OpenSpendsBudget(cfg: Config, s: State, steps: seq<Step>, t: State)
    requires InRange(cfg, s) && Run(cfg, s, steps, t) && OpenUntilEnd(cfg, s, steps)
    ensures Executions(steps) + Budget(cfg, t.pcs) <= Budget(cfg, s.pcs)
    decreases |steps|
  {
    if steps == [] {
    } else {
      BudgetUpdate(cfg, s.pcs, steps[0].i, NextPc(cfg, s, steps[0]));
      OpenSpendsBudget(cfg, Apply(cfg, s, steps[0]), steps[1..], t);
    }
  }

  /** Once the breaker is open with `k` calls in flight, at most `k * (MaxRetries + 1)` more executor
      calls happen before it closes. */
  lemma OpenBreakerBudget(cfg: Config, n: nat, before: seq<Step>, s: State, steps: seq<Step>, t: State)
    requires Run(cfg, Start(n), before, s) && Run(cfg, s, steps, t) && OpenUntilEnd(cfg, s, steps)
    ensures Executions(steps) <= InFlight(s.pcs) * MaxAttempts(cfg)
  {
    RunStaysInRange(cfg, Start(n), before, s);
    OpenSpendsBudget(cfg, s, steps, t);
    BudgetBound(cfg, s.pcs);
  }

  // ---------------------------------------------------------------- the budget is spent in some run

  lemma {:induction false} OpenConcat(cfg: Config, s: State, a: seq<Step>, t: State, b: seq<Step>)
    requires Run(cfg, s, a, t) && OpenUntilEnd(cfg, s, a) && OpenUntilEnd(cfg, t, b)
    ensures OpenUntilEnd(cfg, s, a + b)
    decreases |a|
  {
    hide Apply, Enabled, IsOpen;
    if a == [] {
      assert a + b == b;
    } else {
      assert (a + b)[0] == a[0] && (a + b)[1..] == a[1..] + b;
      OpenConcat(cfg, Apply(cfg, s, a[0]), a[1..], t, b);
    }
  }

  /** A run that goes on with one more step while the breaker is open. */
  lemma OpenThen(cfg: Config, start: State, steps: seq<Step>, s: State, step: Step, t: State)
    returns (longer: seq<Step>)
    requires Run(cfg, start, steps, s) && OpenUntilEnd(cfg, start, steps)
    requires IsOpen(cfg, s.failures) && Enabled(s, step) && Apply(cfg, s, step) == t
    ensures longer == steps + [step] && Run(cfg, start, longer, t) && OpenUntilEnd(cfg, start, longer)
    ensures Executions(longer) == Executions(steps) + if step.Execute? then 1 else 0
  {
    longer := steps + [step];
    RunOne(cfg, s, step);
    assert OpenUntilEnd(cfg, s, [step]) && Executions([step]) == if step.Execute? then 1 else 0;
    hide Apply, Enabled, IsOpen, Run, OpenUntilEnd, Executions;
    RunConcat(cfg, start, steps, s, [step], t);
    OpenConcat(cfg, start, steps, s, [step]);
  }

  /** Caller `i` uses up all its attempts from attempt `a` on. */
  lemma {:induction false} SpendOne(cfg: Config, start: State, steps: seq<Step>, s: State, i: nat, a: nat)
    returns (longer: seq<Step>)
    requires i < |s.pcs| && s.pcs[i] == Trying(a) && a <= cfg.maxRetries && IsOpen(cfg, s.failures)
    requires Run(cfg, start, steps, s) && OpenUntilEnd(cfg, start, steps)
    ensures Run(cfg, start, longer, State(s.failures, s.pcs[i := Counting])) && OpenUntilEnd(cfg, start, longer)
    ensures Executions(longer) == Executions(steps) + (cfg.maxRetries + 1 - a)
    decreases cfg.maxRetries - a
  {
    hide Run, OpenUntilEnd, Executions, IsOpen;
    var f := s.failures;
    if a < cfg.maxRetries {
      var w, r := State(f, s.pcs[i := Waiting(a)]), State(f, s.pcs[i := Trying(a + 1)]);
      longer := OpenThen(cfg, start, steps, s, Execute(i, Retryable), w);
      assert w.pcs[i := Trying(a + 1)] == r.pcs;
      longer := OpenThen(cfg, start, longer, w, Timer(i), r);
      longer := SpendOne(cfg, start, longer, r, i, a + 1);
      assert r.pcs[i := Counting] == s.pcs[i := Counting];
    } else {
      longer := OpenThen(cfg, start, steps, s, Execute(i, Retryable), State(f, s.pcs[i := Counting]));
    }
  }

  /** Caller 0 outside; of the `k` others the first `j` are at `here`, the rest at `there`. */
  function Others(k: nat, j: nat, here: Pc, there: Pc): seq<Pc>
    requires j <= k
  {
    [Idle] + seq(j, _ => here) + seq(k - j, _ => there)
  }

  lemma OthersStep(k: nat, j: nat, here: Pc, there: Pc)
    requires j < k
    ensures |Others(k, j, here, there)| == k + 1 && Others(k, j, here, there)[j + 1] == there
    ensures Others(k, j, here, there)[j + 1 := here] == Others(k, j + 1, here, there)
  {
  }

  lemma {:induction false} AllPass(cfg: Config, k: nat, j: nat) returns (steps: seq<Step>)
    requires j <= k && cfg.circuitBreakerThreshold >= 1 && cfg.maxRetries >= 0
    ensures Run(cfg, State(0, Others(k, 0, Trying(0), Idle)), steps, State(0, Others(k, j, Trying(0), Idle)))
    decreases j
  {
    var start := State(0, Others(k, 0, Trying(0), Idle));
    steps := [];
    if j == 0 {
    } else {
      steps := AllPass(cfg, k, j - 1);
      var s := State(0, Others(k, j - 1, Trying(0), Idle));
      OthersStep(k, j - 1, Trying(0), Idle);
      RunOne(cfg, s, Gate(j));
      RunConcat(cfg, start, steps, s, [Gate(j)], State(0, Others(k, j, Trying(0), Idle)));
      steps := steps + [Gate(j)];
    }
  }

  lemma {:induction false} SpendAll(cfg: Config, f: int, k: nat, j: nat) returns (steps: seq<Step>)
    requires j <= k && cfg.maxRetries >= 0 && IsOpen(cfg, f)
    ensures var start := State(f, Others(k, 0, Counting, Trying(0)));
            && Run(cfg, start, steps, State(f, Others(k, j, Counting, Trying(0))))
            && OpenUntilEnd(cfg, start, steps) && Executions(steps) == j * MaxAttempts(cfg)
    decreases j
  {
    hide IsOpen, Others;
    var start := State(f, Others(k, 0, Counting, Trying(0)));
    if j == 0 {
      steps := [];
    } else {
      steps := SpendAll(cfg, f, k, j - 1);
      OthersStep(k, j - 1, Counting, Trying(0));
      hide Run, OpenUntilEnd, Executions;
      steps := SpendOne(cfg, start, steps, State(f, Others(k, j - 1, Counting, Trying(0))), j, 0);
      OneMore(j - 1, MaxAttempts(cfg));
    }
  }

  lemma {:induction false} TryingInFlight(k: nat)
    ensures InFlight(seq(k, _ => Trying(0))) == k
  {
    if k == 0 {
    } else {
      assert seq(k, _ => Trying(0))[1..] == seq(k - 1, _ => Trying(0));
      TryingInFlight(k - 1);
    }
  }

  /** That bound is exact too: with `k + 1` callers some run opens the breaker with `k` calls in flight,
      which then make `k * (MaxRetries + 1)` executor calls. */
  lemma OpenBreakerBudgetIsReached(cfg: Config, k: nat)
    returns (before: seq<Step>, s: State, steps: seq<Step>, t: State)
    requires cfg.circuitBreakerThreshold >= 1 && cfg.maxRetries >= 0
    ensures Run(cfg, Start(k + 1), before, s) && InFlight(s.pcs) == k
    ensures Run(cfg, s, steps, t) && OpenUntilEnd(cfg, s, steps) && Executions(steps) == k * MaxAttempts(cfg)
  {
    var f := cfg.circuitBreakerThreshold;
    var pcs := Others(k, k, Trying(0), Idle);
    assert Start(k + 1).pcs == Others(k, 0, Trying(0), Idle);
    assert pcs == Others(k, 0, Counting, Trying(0)) && pcs[1..] == seq(k, _ => Trying(0));
    TryingInFlight(k);
    s, t := State(f, pcs), State(f, Others(k, k, Counting, Trying(0)));
    var a := AllPass(cfg, k, k);
    var b := FailAlone(cfg, pcs, f);
    RunConcat(cfg, Start(k + 1), a, State(0, pcs), b, s);
    before := a + b;
    steps := SpendAll(cfg, f, k, k);
  }

  /** Only a success of a call that was in flight when the breaker was open can close it. */
  lemma {:induction false} OnlyInFlightSuccessCloses(cfg: Config, s: State, steps: seq<Step>, t: State)
    requires steps != [] && Run(cfg, s, steps, t) && OpenUntilEnd(cfg, s, steps) && !IsOpen(cfg, t.failures)
    ensures var last := steps[|steps| - 1]; last.Reset? && last.i < |s.pcs| && !s.pcs[last.i].Idle?
    decreases |steps|
  {
    var u := Apply(cfg, s, steps[0]);
    if |steps| == 1 {
      assert t == u;
    } else {
      OnlyInFlightSuccessCloses(cfg, u, steps[1..], t);
      assert steps[1..][|steps| - 2] == steps[|steps| - 1];
    }
  }

  /** With nothing in flight an open breaker is absorbing: whatever the callers do, every call is
      turned away at the gate, nothing executes and the state never changes. */
  lemma {:induction false} OpenAndQuietIsAbsorbing(cfg: Config, s: State, steps: seq<Step>, t: State)
    requires IsOpen(cfg, s.failures) && InFlight(s.pcs) == 0 && Run(cfg, s, steps, t)
    ensures t == s && Executions(steps) == 0 && forall step :: step in steps ==> step.Gate?
    decreases |steps|
  {
    if steps == [] {
    } else {
      NobodyInFlight(s.pcs);
      assert s.pcs[steps[0].i := Idle] == s.pcs;
      OpenAndQuietIsAbsorbing(cfg, s, steps[1..], t);
    }
  }

  // ---------------------------------------------------------------- one caller

  lemma {:induction false} Retries(cfg: Config, f: int, k: nat) returns (steps: seq<Step>)
    requires k <= cfg.maxRetries
    ensures Run(cfg, State(f, [Trying(0)]), steps, State(f, [Trying(k)])) && Executions(steps) == k
    decreases k
  {
    steps := [];
    if k == 0 {
    } else {
      steps := Retries(cfg, f, k - 1);
      var s := State(f, [Trying(k - 1)]);
      var w := State(f, [Waiting(k - 1)]);
      RunOne(cfg, s, Execute(0, Retryable));
      RunOne(cfg, w, Timer(0));
      RunConcat(cfg, State(f, [Trying(0)]), steps, s, [Execute(0, Retryable)], w);
      RunConcat(cfg, State(f, [Trying(0)]), steps + [Execute(0, Retryable)], w, [Timer(0)], State(f, [Trying(k)]));
      assert Executions([Execute(0, Retryable)]) == 1 && Executions([Timer(0)]) == 0;
      steps := steps + [Execute(0, Retryable)] + [Timer(0)];
    }
  }

  function VerdictOf<R>(o: Outcome<R>): Verdict {
    if o.Success? then Ok else if IsPermanent(o.err) then Fatal else Retryable
  }

  lemma LastAttempt<R>(cfg: Config, before: int, env: Env<R>, ret: Return<R>, calls: nat, after: int)
    returns (steps: seq<Step>)
    requires !IsOpen(cfg, before) && cfg.maxRetries >= 0 && Behaves(cfg, before, env, ret, calls, after)
    ensures Run(cfg, State(before, [Trying(calls - 1)]), steps, State(after, [Idle])) && Executions(steps) == 1
  {
    var s := State(before, [Trying(calls - 1)]);
    var step := Execute(0, VerdictOf(env.outcome(calls - 1)));
    var mid := Apply(cfg, s, step);
    var end := if mid.pcs[0].Resetting? then Reset(0) else if mid.pcs[0].Counting? then Count(0) else Cancel(0);
    RunOne(cfg, s, step);
    RunOne(cfg, mid, end);
    RunConcat(cfg, s, [step], mid, [end], Apply(cfg, mid, end));
    assert Executions([step]) == 1 && Executions([end]) == 0;
    steps := [step] + [end];
  }

  /** The sequential behaviour is the one-caller case of the interleaved one: each call is a run that
      starts and ends outside, with the same counter and the same number of executions. */
  lemma SequentialIsARun<R>(cfg: Config, before: int, env: Env<R>, ret: Return<R>, calls: nat, after: int)
    returns (steps: seq<Step>)
    requires Behaves(cfg, before, env, ret, calls, after)
    ensures Run(cfg, State(before, [Idle]), steps, State(after, [Idle])) && Executions(steps) == calls
  {
    var s := State(before, [Idle]);
    var g := Apply(cfg, s, Gate(0));
    RunOne(cfg, s, Gate(0));
    steps := [Gate(0)];
    assert Executions([Gate(0)]) == 0;
    if IsOpen(cfg, before) {
    } else if cfg.maxRetries < 0 {
      RunOne(cfg, g, Count(0));
      RunConcat(cfg, s, steps, g, [Count(0)], State(after, [Idle]));
      assert Executions([Count(0)]) == 0;
      steps := steps + [Count(0)];
    } else {
      assert g == State(before, [Trying(0)]);
      var a := Retries(cfg, before, calls - 1);
      var b := LastAttempt(cfg, before, env, ret, calls, after);
      RunConcat(cfg, s, steps, g, a, State(before, [Trying(calls - 1)]));
      RunConcat(cfg, s, steps + a, State(before, [Trying(calls - 1)]), b, State(after, [Idle]));
      steps := steps + a + b;
    }
  }
}
