/**
  The benchmark runner: retries, the shared progress record, and the sequential mode.
  The concurrent mode is in module ParallelRunner.
 */
module Runner {
  import opened Subsequences
  import opened TrialStatuses

  /** One trial result; `aborted` marks the placeholder of a scenario that fail-fast kept from running. */
  datatype Result = Result(scenario: string, trialId: string, status: TrialStatus, aborted: bool)

  /**
    A run: its scenarios in order, its settings, the trial ids that are already complete, the
    digest that names a scenario's trial, and what the adapter returns on each attempt.
   */
  datatype Context = Context(
    scenarios: seq<string>,
    retryCount: nat,
    maxParallel: int,
    failFast: bool,
    completed: set<string>,
    digest: string -> string,
    adapter: (string, nat) -> TrialStatus)
  {
    predicate IsCompleted(scenario: string) {
      digest(scenario) in completed
    }

    /** The status of the attempt at which the retry loop stops, starting from `attempt`. */
    function RetryFrom(scenario: string, attempt: nat): TrialStatus
      requires attempt <= retryCount
      decreases retryCount - attempt
    {
      var s := adapter(scenario, attempt);
      if IsSuccess(s) || attempt == retryCount then s else RetryFrom(scenario, attempt + 1)
    }

    /** The result of a scenario whose run nobody aborts. */
    function ResultOf(scenario: string): Result {
      Result(scenario, digest(scenario), if IsCompleted(scenario) then Skipped else RetryFrom(scenario, 0), false)
    }

    /** What a scenario gets that fail-fast kept from running. */
    function Placeholder(scenario: string): Result {
      Result(scenario, digest(scenario), Skipped, true)
    }

    predicate Fails(scenario: string) {
      !IsCompleted(scenario) && CountsAsFailure(RetryFrom(scenario, 0))
    }

    /** A scenario passes exactly when one of its permitted attempts passes, else its last attempt counts. */
    lemma {:induction false} RetrySpec(scenario: string, attempt: nat)
      requires attempt <= retryCount
      ensures IsSuccess(RetryFrom(scenario, attempt)) <==>
                exists a :: attempt <= a <= retryCount && IsSuccess(adapter(scenario, a))
      ensures !IsSuccess(RetryFrom(scenario, attempt)) ==>
                RetryFrom(scenario, attempt) == adapter(scenario, retryCount)
      decreases retryCount - attempt
    {
      if !IsSuccess(adapter(scenario, attempt)) && attempt < retryCount {
        RetrySpec(scenario, attempt + 1);
      }
    }
  }

  method RunWithRetry(ctx: Context, scenario: string) returns (result: TrialStatus)
    ensures result == ctx.RetryFrom(scenario, 0)
  {
    var last: Option<TrialStatus> := None;
    for attempt := 0 to ctx.retryCount + 1
      invariant attempt <= ctx.retryCount ==> ctx.RetryFrom(scenario, 0) == ctx.RetryFrom(scenario, attempt)
      invariant attempt > ctx.retryCount ==> last == Some(ctx.RetryFrom(scenario, 0))
    {
      var status := ctx.adapter(scenario, attempt);
      last := Some(status);
      if IsSuccess(status) {
        return status;
      }
    }
    return last.value;
  }

  // ---------- Progress ----------

  datatype Counters = Counters(completed: nat, passed: nat, failed: nat, skipped: nat, aborted: bool)

  /** What one result adds to the progress record. */
  function Recorded(c: Counters, ctx: Context, r: Result): Counters {
    if r.aborted then c
    else if ctx.IsCompleted(r.scenario) then c.(skipped := c.skipped + 1, completed := c.completed + 1)
    else if IsSuccess(r.status) then c.(completed := c.completed + 1, passed := c.passed + 1)
    else if CountsAsFailure(r.status) then
      c.(completed := c.completed + 1, failed := c.failed + 1, aborted := c.aborted || ctx.failFast)
    else c.(completed := c.completed + 1)
  }

  function RecordedAll(ctx: Context, results: seq<Result>): Counters {
    if results == [] then Counters(0, 0, 0, 0, false)
    else Recorded(RecordedAll(ctx, Init(results)), ctx, Last(results))
  }

  /** The mutable progress tracker shared by the trials of a run. */
  class RunProgress {
    const total: nat
    var completed: nat
    var passed: nat
    var failed: nat
    var skipped: nat
    var aborted: bool
    ghost var executed: seq<string> // the scenarios the adapter was called for

    constructor (total: nat)
      ensures this.total == total && Value() == Counters(0, 0, 0, 0, false) && executed == []
    {
      this.total := total;
      completed, passed, failed, skipped, aborted := 0, 0, 0, 0, false;
      executed := [];
    }

    function Value(): Counters
      reads this
    {
      Counters(completed, passed, failed, skipped, aborted)
    }

    /** One scenario from resume check to recorded result; with nothing else running it holds the semaphore alone. */
    method RunOneScenario(ctx: Context, scenario: string) returns (result: Result)
      modifies this
      ensures result == if old(aborted) && !ctx.IsCompleted(scenario) then ctx.Placeholder(scenario) else ctx.ResultOf(scenario)
      ensures Value() == Recorded(old(Value()), ctx, result)
      ensures executed == old(executed) + if old(aborted) || ctx.IsCompleted(scenario) then [] else [scenario]
    {
      if ctx.IsCompleted(scenario) {
        skipped := skipped + 1;
        completed := completed + 1;
        return Result(scenario, ctx.digest(scenario), Skipped, false);
      }
      if aborted {
        return Result(scenario, ctx.digest(scenario), Skipped, true);
      }
      executed := executed + [scenario];
      var status := RunWithRetry(ctx, scenario);
      result := Result(scenario, ctx.digest(scenario), status, false);
      completed := completed + 1;
      if IsSuccess(status) {
        passed := passed + 1;
      } else if CountsAsFailure(status) {
        failed := failed + 1;
        if ctx.failFast {
          aborted := true;
        }
      }
    }
  }

  // ---------- Sequential mode ----------

  predicate StopsAt(ctx: Context, i: nat)
    requires i < |ctx.scenarios|
  {
    ctx.failFast && ctx.Fails(ctx.scenarios[i])
  }

  /** How many scenarios the sequential mode visits: all, or up to and including the first failure. */
  function VisitedFrom(ctx: Context, i: nat): (n: nat)
    requires i <= |ctx.scenarios|
    ensures i <= n <= |ctx.scenarios|
    decreases |ctx.scenarios| - i
  {
    if i == |ctx.scenarios| then i
    else if StopsAt(ctx, i) then i + 1
    else VisitedFrom(ctx, i + 1)
  }

  /** No visited scenario but the last stops the run, and a run that does not visit all ends with one that does. */
  lemma {:induction false} VisitedSpec(ctx: Context, i: nat)
    requires i <= |ctx.scenarios|
    ensures var n := VisitedFrom(ctx, i);
            && (forall k :: i <= k < n - 1 ==> !StopsAt(ctx, k))
            && (n < |ctx.scenarios| ==> i < n && StopsAt(ctx, n - 1))
    decreases |ctx.scenarios| - i
  {
    if i < |ctx.scenarios| && !StopsAt(ctx, i) { VisitedSpec(ctx, i + 1); }
  }

  function ResultsOf(ctx: Context, scenarios: seq<string>): (results: seq<Result>)
    ensures |results| == |scenarios|
  {
    seq(|scenarios|, k requires 0 <= k < |scenarios| => ctx.ResultOf(scenarios[k]))
  }

  /** The scenarios that are not complete yet. */
  function Incomplete(ctx: Context, scenarios: seq<string>): seq<string> {
    if scenarios == [] then []
    else Incomplete(ctx, Init(scenarios)) + if ctx.IsCompleted(Last(scenarios)) then [] else [Last(scenarios)]
  }

  lemma {:induction false} IncompleteMember(ctx: Context, scenarios: seq<string>, scenario: string)
    ensures scenario in Incomplete(ctx, scenarios) <==> scenario in scenarios && !ctx.IsCompleted(scenario)
  {
    if scenarios != [] {
      IncompleteMember(ctx, Init(scenarios), scenario);
      assert scenarios == Init(scenarios) + [Last(scenarios)];
    }
  }

  lemma OneMoreScenario(ctx: Context, i: nat)
    requires i < |ctx.scenarios|
    ensures var before, after := ctx.scenarios[..i], ctx.scenarios[..i + 1];
            && ResultsOf(ctx, after) == ResultsOf(ctx, before) + [ctx.ResultOf(ctx.scenarios[i])]
            && Incomplete(ctx, after)
               == Incomplete(ctx, before) + (if ctx.IsCompleted(ctx.scenarios[i]) then [] else [ctx.scenarios[i]])
            && RecordedAll(ctx, ResultsOf(ctx, after))
               == Recorded(RecordedAll(ctx, ResultsOf(ctx, before)), ctx, ctx.ResultOf(ctx.scenarios[i]))
  {
    var before, after := ctx.scenarios[..i], ctx.scenarios[..i + 1];
    assert Init(after) == before && Last(after) == ctx.scenarios[i];
    assert ResultsOf(ctx, after) == ResultsOf(ctx, before) + [ctx.ResultOf(ctx.scenarios[i])];
    assert Init(ResultsOf(ctx, after)) == ResultsOf(ctx, before);
  }

  /** The state of a sequential run before scenario `i`. */
  ghost predicate Before(ctx: Context, i: nat, results: seq<Result>, value: Counters, executed: seq<string>) {
    && i <= |ctx.scenarios| && VisitedFrom(ctx, 0) == VisitedFrom(ctx, i)
    && results == ResultsOf(ctx, ctx.scenarios[..i]) && executed == Incomplete(ctx, ctx.scenarios[..i])
    && value == RecordedAll(ctx, results) && value.completed == i && !value.aborted
    && (i > 0 ==> !StopsAt(ctx, i - 1))
  }

  lemma VisitOne(ctx: Context, i: nat, results: seq<Result>, value: Counters, executed: seq<string>)
    requires i < |ctx.scenarios| && Before(ctx, i, results, value, executed)
    ensures var r := ctx.ResultOf(ctx.scenarios[i]);
            var results', value' := results + [r], Recorded(value, ctx, r);
            var executed' := executed + if ctx.IsCompleted(ctx.scenarios[i]) then [] else [ctx.scenarios[i]];
            if value'.aborted then
              && VisitedFrom(ctx, 0) == i + 1 && StopsAt(ctx, i)
              && results' == ResultsOf(ctx, ctx.scenarios[..i + 1]) && executed' == Incomplete(ctx, ctx.scenarios[..i + 1])
              && value' == RecordedAll(ctx, results') && value'.completed == |results'|
            else Before(ctx, i + 1, results', value', executed')
  {
    OneMoreScenario(ctx, i);
  }

  /** The results are those of exactly the scenarios up to and including the first fail-fast failure. */
  method RunSequential(ctx: Context) returns (results: seq<Result>, final: Counters, ghost executed: seq<string>)
    ensures results == ResultsOf(ctx, ctx.scenarios[..VisitedFrom(ctx, 0)])
    ensures executed == Incomplete(ctx, ctx.scenarios[..VisitedFrom(ctx, 0)])
    ensures final == RecordedAll(ctx, results)
    ensures final.aborted <==> VisitedFrom(ctx, 0) > 0 && StopsAt(ctx, VisitedFrom(ctx, 0) - 1)
    ensures final.completed == |results|
  {
    var progress := new RunProgress(|ctx.scenarios|);
    results := [];
    for i := 0 to |ctx.scenarios|
      invariant fresh(progress) && Before(ctx, i, results, progress.Value(), progress.executed)
    {
      VisitOne(ctx, i, results, progress.Value(), progress.executed);
      var result := progress.RunOneScenario(ctx, ctx.scenarios[i]);
      results := results + [result];
      if progress.aborted {
        return results, progress.Value(), progress.executed;
      }
    }
    assert ctx.scenarios[..|ctx.scenarios|] == ctx.scenarios;
    return results, progress.Value(), progress.executed;
  }
}
