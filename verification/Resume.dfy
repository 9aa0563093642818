/**
  Resuming: a run whose finished trials are taken from the result file of another run. Either run
  may be sequential, the default, or concurrent.
 */
module Resume {
  import opened Subsequences
  import opened TrialStatuses
  import opened Runner
  import opened ParallelRunner

  datatype Run = Sequential(ctx: Context) | Concurrent(ctx: Context, steps: seq<Step>)

  ghost predicate Possible(r: Run) {
    r.Concurrent? ==> Play(r.ctx, r.steps).Some?
  }

  /** A sequential run ends by itself; a concurrent one when every task has a result. */
  ghost predicate Ended(r: Run)
    requires Possible(r)
  {
    r.Concurrent? ==> Finished(Play(r.ctx, r.steps).value)
  }

  /** Results in the order in which they became available. */
  function InOrderOfCompletion(s: State): seq<Result>
    requires forall k :: 0 <= k < |s.results| ==> s.results[k] < |s.tasks| && s.tasks[s.results[k]].Done?
  {
    seq(|s.results|, k requires 0 <= k < |s.results| => s.tasks[s.results[k]].result)
  }

  /** The result file: for an aborted sequential run only a prefix of the scenarios, without placeholders. */
  ghost function FileOf(r: Run): seq<Result>
    requires Possible(r) && Ended(r)
  {
    match r
    case Sequential(ctx) => ResultsOf(ctx, ctx.scenarios[..VisitedFrom(ctx, 0)])
    case Concurrent(ctx, steps) =>
      EveryRunKeepsInv(ctx, steps);
      InOrderOfCompletion(Play(ctx, steps).value)
  }

  /** The adapter was called for the scenario. */
  ghost predicate Executed(r: Run, i: nat)
    requires Possible(r) && i < |r.ctx.scenarios|
  {
    match r
    case Sequential(ctx) => ctx.scenarios[i] in Incomplete(ctx, ctx.scenarios[..VisitedFrom(ctx, 0)])
    case Concurrent(ctx, steps) => Called(Play(ctx, steps).value, i)
  }

  ghost predicate Aborted(r: Run)
    requires Possible(r)
  {
    match r
    case Sequential(ctx) => VisitedFrom(ctx, 0) > 0 && StopsAt(ctx, VisitedFrom(ctx, 0) - 1)
    case Concurrent(ctx, steps) => Play(ctx, steps).value.progress.aborted
  }

  /** The trial ids a result file contributes to the next run: those of its terminal trials. */
  ghost function SavedIds(file: seq<Result>): set<string> {
    set r | r in file && IsTerminal(r.status) :: r.trialId
  }

  ghost predicate HasTerminal(file: seq<Result>, scenario: string) {
    exists r :: r in file && r.scenario == scenario && IsTerminal(r.status)
  }

  ghost predicate Distinct(scenarios: seq<string>) {
    forall i, j :: 0 <= i < j < |scenarios| ==> scenarios[i] != scenarios[j]
  }

  ghost predicate InjectiveDigest(digest: string -> string) {
    forall a, b :: digest(a) == digest(b) ==> a == b
  }

  ghost predicate Resumes(second: Run, first: Run) {
    && Possible(first) && Ended(first) && Possible(second)
    && second.ctx.scenarios == first.ctx.scenarios && second.ctx.digest == first.ctx.digest
    && second.ctx.completed == SavedIds(FileOf(first))
    && Distinct(first.ctx.scenarios) && InjectiveDigest(first.ctx.digest)
  }

  // ---------- What a file holds ----------

  lemma TaskIsLabelled(ctx: Context, s: State, k: nat)
    requires TasksOk(ctx, s) && k < |s.tasks| && s.tasks[k].Done?
    ensures s.tasks[k].result.trialId == ctx.digest(s.tasks[k].result.scenario)
    ensures s.tasks[k].result.scenario == ctx.scenarios[k]
  {
    assert TaskOk(ctx, ctx.scenarios[k], s.tasks[k]);
  }

  lemma FileIsLabelled(r: Run, result: Result)
    requires Possible(r) && Ended(r) && result in FileOf(r)
    ensures result.trialId == r.ctx.digest(result.scenario)
  {
    if r.Concurrent? {
      EveryRunKeepsInv(r.ctx, r.steps);
      var s := Play(r.ctx, r.steps).value;
      var k :| 0 <= k < |FileOf(r)| && FileOf(r)[k] == result;
      TaskIsLabelled(r.ctx, s, s.results[k]);
    }
  }

  /** Of a sequential run, the file has a terminal trial for exactly the visited scenarios that ended so. */
  lemma TerminalInSequential(ctx: Context, i: nat)
    requires i < |ctx.scenarios| && Distinct(ctx.scenarios)
    ensures HasTerminal(FileOf(Sequential(ctx)), ctx.scenarios[i])
            <==> i < VisitedFrom(ctx, 0) && IsTerminal(ctx.ResultOf(ctx.scenarios[i]).status)
  {
    var file, n := FileOf(Sequential(ctx)), VisitedFrom(ctx, 0);
    if i < n { assert file[i] == ctx.ResultOf(ctx.scenarios[i]); }
    if HasTerminal(file, ctx.scenarios[i]) {
      var r :| r in file && r.scenario == ctx.scenarios[i] && IsTerminal(r.status);
      var k :| 0 <= k < |file| && file[k] == r;
      assert file[k].scenario == ctx.scenarios[k] && k == i;
    }
  }

  /** Of a concurrent run, for exactly the scenarios whose task ended so. */
  lemma TerminalInConcurrent(ctx: Context, steps: seq<Step>, i: nat)
    requires i < |ctx.scenarios| && Distinct(ctx.scenarios)
    requires Play(ctx, steps).Some? && Finished(Play(ctx, steps).value)
    ensures var s := Play(ctx, steps).value;
            |s.tasks| == |ctx.scenarios|
            && (HasTerminal(FileOf(Concurrent(ctx, steps)), ctx.scenarios[i]) <==> IsTerminal(s.tasks[i].result.status))
  {
    EveryRunKeepsInv(ctx, steps);
    var s, file := Play(ctx, steps).value, FileOf(Concurrent(ctx, steps));
    TaskIsLabelled(ctx, s, i);
    assert i in s.results;
    var at :| 0 <= at < |s.results| && s.results[at] == i;
    assert file[at] == s.tasks[i].result;
    if HasTerminal(file, ctx.scenarios[i]) {
      var r :| r in file && r.scenario == ctx.scenarios[i] && IsTerminal(r.status);
      var k :| 0 <= k < |file| && file[k] == r;
      TaskIsLabelled(ctx, s, s.results[k]);
    }
  }

  /** The resumed run takes a scenario as complete exactly when the file has a terminal trial for it. */
  lemma SavedExactlyTerminal(first: Run, second: Run, i: nat)
    requires Resumes(second, first) && i < |first.ctx.scenarios|
    ensures second.ctx.IsCompleted(first.ctx.scenarios[i]) <==> HasTerminal(FileOf(first), first.ctx.scenarios[i])
  {
    var scenario, file := first.ctx.scenarios[i], FileOf(first);
    if HasTerminal(file, scenario) {
      var r :| r in file && r.scenario == scenario && IsTerminal(r.status);
      FileIsLabelled(first, r);
    }
    if second.ctx.IsCompleted(scenario) {
      var r :| r in file && IsTerminal(r.status) && r.trialId == first.ctx.digest(scenario);
      FileIsLabelled(first, r);
    }
  }

  // ---------- Who is executed ----------

  lemma ExecutedInSequential(ctx: Context, i: nat)
    requires i < |ctx.scenarios| && Distinct(ctx.scenarios)
    ensures Executed(Sequential(ctx), i) <==> i < VisitedFrom(ctx, 0) && !ctx.IsCompleted(ctx.scenarios[i])
  {
    var visited := ctx.scenarios[..VisitedFrom(ctx, 0)];
    IncompleteMember(ctx, visited, ctx.scenarios[i]);
    if i < |visited| { assert visited[i] == ctx.scenarios[i]; }
    if ctx.scenarios[i] in visited {
      var k :| 0 <= k < |visited| && visited[k] == ctx.scenarios[i];
      assert k == i;
    }
  }

  /** Only incomplete scenarios are executed, and all of them are in a run that ends without an abort. */
  lemma ExecutesIncomplete(r: Run, i: nat)
    requires Possible(r) && i < |r.ctx.scenarios| && Distinct(r.ctx.scenarios)
    ensures Executed(r, i) ==> !r.ctx.IsCompleted(r.ctx.scenarios[i])
    ensures Ended(r) && !Aborted(r) && !r.ctx.IsCompleted(r.ctx.scenarios[i]) ==> Executed(r, i)
  {
    match r
    case Sequential(ctx) =>
      ExecutedInSequential(ctx, i);
      VisitedSpec(ctx, 0);
    case Concurrent(ctx, steps) =>
      var s := Play(ctx, steps).value;
      EveryRunKeepsInv(ctx, steps);
      assert TaskOk(ctx, ctx.scenarios[i], s.tasks[i]);
      CountPositive(ctx, s.tasks, i);
  }

  /** The file has a terminal trial for a scenario exactly if it was executed and the adapter did not report it skipped. */
  lemma TerminalIffExecuted(r: Run, i: nat)
    requires Possible(r) && Ended(r) && i < |r.ctx.scenarios| && Distinct(r.ctx.scenarios)
    ensures HasTerminal(FileOf(r), r.ctx.scenarios[i])
            <==> Executed(r, i) && r.ctx.RetryFrom(r.ctx.scenarios[i], 0) != Skipped
  {
    match r
    case Sequential(ctx) =>
      TerminalInSequential(ctx, i);
      ExecutedInSequential(ctx, i);
    case Concurrent(ctx, steps) =>
      EveryRunKeepsInv(ctx, steps);
      TerminalInConcurrent(ctx, steps, i);
      assert TaskOk(ctx, ctx.scenarios[i], Play(ctx, steps).value.tasks[i]);
  }

  /** A resumed run executes only scenarios without a terminal trial, and all of them unless it aborts. */
  lemma ResumeExecutesTheRest(first: Run, second: Run, i: nat)
    requires Resumes(second, first) && i < |first.ctx.scenarios|
    ensures Executed(second, i) ==> !HasTerminal(FileOf(first), first.ctx.scenarios[i])
    ensures Ended(second) && !Aborted(second) && !HasTerminal(FileOf(first), first.ctx.scenarios[i]) ==> Executed(second, i)
  {
    SavedExactlyTerminal(first, second, i);
    ExecutesIncomplete(second, i);
  }

  /**
    Whatever retries, resumed trials or aborts there were in either run: a scenario is executed in
    both only if the adapter itself reported it skipped in the first.
   */
  lemma NothingExecutedTwice(first: Run, second: Run, i: nat)
    requires Resumes(second, first) && i < |first.ctx.scenarios|
    ensures Executed(first, i) && Executed(second, i) ==> first.ctx.RetryFrom(first.ctx.scenarios[i], 0) == Skipped
  {
    ResumeExecutesTheRest(first, second, i);
    TerminalIffExecuted(first, i);
  }

  /** If the second run ends without an abort, each scenario is executed in one of the two, and in both exactly then. */
  lemma TogetherExecutedOnce(first: Run, second: Run, i: nat)
    requires Resumes(second, first) && i < |first.ctx.scenarios| && Ended(second) && !Aborted(second)
    ensures Executed(first, i) || Executed(second, i)
    ensures Executed(first, i) && Executed(second, i)
            <==> Executed(first, i) && first.ctx.RetryFrom(first.ctx.scenarios[i], 0) == Skipped
  {
    ResumeExecutesTheRest(first, second, i);
    TerminalIffExecuted(first, i);
  }

  /** `SKIPPED` is not terminal: a run resumed from a resumed run's own file executes again what that run skipped. */
  lemma ThirdRunForgets(second: Run, third: Run, i: nat)
    requires Resumes(third, second) && i < |second.ctx.scenarios| && second.ctx.IsCompleted(second.ctx.scenarios[i])
    requires Ended(third) && !Aborted(third)
    ensures !Executed(second, i) && Executed(third, i)
  {
    ExecutesIncomplete(second, i);
    TerminalIffExecuted(second, i);
    ResumeExecutesTheRest(second, third, i);
  }
}
