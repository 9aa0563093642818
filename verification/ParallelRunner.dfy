/**
  The concurrent mode of the benchmark runner as a state machine. One step is what a task does
  between two suspension points; a run is any interleaving of the tasks' steps.
 */
module ParallelRunner {
  import opened Subsequences
  import opened TrialStatuses
  import opened Runner

  datatype Task = Pending | Waiting | Running(attempt: nat) | Done(result: Result)

  /** One call of the adapter, and whether the run was already aborted when it was made. */
  datatype Call = Call(task: nat, attempt: nat, afterAbort: bool)

  datatype State = State(tasks: seq<Task>, progress: Counters, calls: seq<Call>, results: seq<nat>)

  datatype Step =
    | Begin(task: nat)    // first scheduling of a task that skips, or finds the semaphore free
    | Park(task: nat)     // first scheduling of a task that has to queue for the semaphore
    | Acquire(task: nat)  // a queued task is woken with a permit
    | Finish(task: nat)   // the adapter call of a running task returns

  function Width(ctx: Context): (w: nat)
    ensures w == if ctx.maxParallel >= 1 then ctx.maxParallel else 1
  {
    if 1 >= ctx.maxParallel then 1 else ctx.maxParallel
  }

  datatype Kind = IsPending | IsWaiting | IsRunning | IsPassed | IsFailed | IsOther | IsResumed | IsPlaceholder

  function KindOf(ctx: Context, t: Task): Kind {
    match t
    case Pending => IsPending
    case Waiting => IsWaiting
    case Running(_) => IsRunning
    case Done(r) =>
      if r.aborted then IsPlaceholder
      else if ctx.IsCompleted(r.scenario) then IsResumed
      else if IsSuccess(r.status) then IsPassed
      else if CountsAsFailure(r.status) then IsFailed
      else IsOther
  }

  function Count(ctx: Context, tasks: seq<Task>, kind: Kind): nat {
    if tasks == [] then 0
    else Count(ctx, Init(tasks), kind) + if KindOf(ctx, Last(tasks)) == kind then 1 else 0
  }

  lemma {:induction false} CountUpdate(ctx: Context, tasks: seq<Task>, i: nat, t: Task, kind: Kind)
    requires i < |tasks|
    ensures Count(ctx, tasks[i := t], kind) + (if KindOf(ctx, tasks[i]) == kind then 1 else 0)
         == Count(ctx, tasks, kind) + if KindOf(ctx, t) == kind then 1 else 0
  {
    if i == |tasks| - 1 {
      assert Init(tasks[i := t]) == Init(tasks);
    } else {
      assert Init(tasks[i := t]) == Init(tasks)[i := t];
      CountUpdate(ctx, Init(tasks), i, t, kind);
    }
  }

  lemma {:induction false} CountPositive(ctx: Context, tasks: seq<Task>, i: nat)
    requires i < |tasks|
    ensures Count(ctx, tasks, KindOf(ctx, tasks[i])) > 0
  {
    if i < |tasks| - 1 { CountPositive(ctx, Init(tasks), i); }
  }

  lemma {:induction false} CountTotal(ctx: Context, tasks: seq<Task>)
    ensures Count(ctx, tasks, IsPending) + Count(ctx, tasks, IsWaiting) + Count(ctx, tasks, IsRunning)
            + Count(ctx, tasks, IsPassed) + Count(ctx, tasks, IsFailed) + Count(ctx, tasks, IsOther)
            + Count(ctx, tasks, IsResumed) + Count(ctx, tasks, IsPlaceholder) == |tasks|
  {
    if tasks != [] { CountTotal(ctx, Init(tasks)); }
  }

  lemma {:induction false} CountZero(ctx: Context, tasks: seq<Task>, kind: Kind)
    requires forall i :: 0 <= i < |tasks| ==> KindOf(ctx, tasks[i]) != kind
    ensures Count(ctx, tasks, kind) == 0
  {
    if tasks != [] { CountZero(ctx, Init(tasks), kind); }
  }

  // ---------- Steps ----------

  function InitialTasks(n: nat): (tasks: seq<Task>)
    ensures |tasks| == n && forall i :: 0 <= i < n ==> tasks[i] == Pending
  {
    seq(n, _ => Pending)
  }

  function Initial(ctx: Context): State {
    State(InitialTasks(|ctx.scenarios|), Counters(0, 0, 0, 0, false), [], [])
  }

  function Held(ctx: Context, s: State): nat {
    Count(ctx, s.tasks, IsRunning)
  }

  predicate Enabled(ctx: Context, s: State, step: Step) {
    && step.task < |s.tasks| && |s.tasks| == |ctx.scenarios|
    && match step
       case Begin(i) => s.tasks[i].Pending? && (ctx.IsCompleted(ctx.scenarios[i]) || Held(ctx, s) < Width(ctx))
       case Park(i) =>
         && s.tasks[i].Pending? && !ctx.IsCompleted(ctx.scenarios[i])
         && (Held(ctx, s) >= Width(ctx) || Count(ctx, s.tasks, IsWaiting) > 0)
       case Acquire(i) => s.tasks[i].Waiting? && Held(ctx, s) < Width(ctx)
       case Finish(i) => s.tasks[i].Running?
  }

  function Complete(ctx: Context, s: State, i: nat, r: Result): State
    requires i < |s.tasks|
  {
    s.(tasks := s.tasks[i := Done(r)], progress := Recorded(s.progress, ctx, r), results := s.results + [i])
  }

  /** The adapter is called for the task. */
  function Calling(s: State, i: nat, attempt: nat): State
    requires i < |s.tasks|
  {
    s.(tasks := s.tasks[i := Running(attempt)], calls := s.calls + [Call(i, attempt, s.progress.aborted)])
  }

  /** Inside the semaphore: give up if the run is aborted, else make the first adapter call. */
  function Enter(ctx: Context, s: State, i: nat): State
    requires i < |s.tasks| == |ctx.scenarios|
  {
    if s.progress.aborted then Complete(ctx, s, i, ctx.Placeholder(ctx.scenarios[i]))
    else Calling(s, i, 0)
  }

  function Next(ctx: Context, s: State, step: Step): State
    requires Enabled(ctx, s, step)
  {
    var i := step.task;
    match step
    case Begin(_) =>
      if ctx.IsCompleted(ctx.scenarios[i]) then
        Complete(ctx, s, i, Result(ctx.scenarios[i], ctx.digest(ctx.scenarios[i]), Skipped, false))
      else Enter(ctx, s, i)
    case Park(_) => s.(tasks := s.tasks[i := Waiting])
    case Acquire(_) => Enter(ctx, s, i)
    case Finish(_) =>
      var attempt := s.tasks[i].attempt;
      var status := ctx.adapter(ctx.scenarios[i], attempt);
      if !IsSuccess(status) && attempt < ctx.retryCount then Calling(s, i, attempt + 1)
      else Complete(ctx, s, i, Result(ctx.scenarios[i], ctx.digest(ctx.scenarios[i]), status, false))
  }

  /** The state a schedule leads to, if the event loop can follow it from the initial state. */
  function Play(ctx: Context, steps: seq<Step>): Option<State> {
    if steps == [] then Some(Initial(ctx))
    else
      var before := Play(ctx, Init(steps));
      if before.Some? && Enabled(ctx, before.value, Last(steps)) then Some(Next(ctx, before.value, Last(steps))) else None
  }

  // ---------- What every interleaving keeps ----------

  ghost predicate TaskOk(ctx: Context, scenario: string, t: Task) {
    match t
    case Pending => true
    case Waiting => !ctx.IsCompleted(scenario)
    case Running(attempt) =>
      && !ctx.IsCompleted(scenario) && attempt <= ctx.retryCount
      && ctx.RetryFrom(scenario, attempt) == ctx.RetryFrom(scenario, 0)
    case Done(r) =>
      if r.aborted then !ctx.IsCompleted(scenario) && r == ctx.Placeholder(scenario) else r == ctx.ResultOf(scenario)
  }

  /** The adapter has been called for the task. */
  ghost predicate Executing(ctx: Context, t: Task) {
    KindOf(ctx, t) in {IsRunning, IsPassed, IsFailed, IsOther}
  }

  ghost predicate TasksOk(ctx: Context, s: State) {
    && |s.tasks| == |ctx.scenarios|
    && forall i :: 0 <= i < |s.tasks| ==> TaskOk(ctx, ctx.scenarios[i], s.tasks[i])
  }

  ghost predicate CountersOk(ctx: Context, s: State) {
    && s.progress.passed == Count(ctx, s.tasks, IsPassed)
    && s.progress.failed == Count(ctx, s.tasks, IsFailed)
    && s.progress.skipped == Count(ctx, s.tasks, IsResumed)
    && s.progress.completed == s.progress.passed + s.progress.failed + s.progress.skipped + Count(ctx, s.tasks, IsOther)
    && (s.progress.aborted <==> ctx.failFast && s.progress.failed > 0)
    && (Count(ctx, s.tasks, IsPlaceholder) > 0 ==> s.progress.aborted)
    && |s.results| == s.progress.completed + Count(ctx, s.tasks, IsPlaceholder)
  }

  ghost predicate ResultsOk(s: State) {
    && (forall j :: 0 <= j < |s.results| ==> s.results[j] < |s.tasks| && s.tasks[s.results[j]].Done?)
    && (forall j, k :: 0 <= j < k < |s.results| ==> s.results[j] != s.results[k])
    && (forall i :: 0 <= i < |s.tasks| && s.tasks[i].Done? ==> i in s.results)
  }

  ghost predicate Called(s: State, i: nat) {
    exists c :: c in s.calls && c.task == i
  }

  ghost predicate CallsOk(ctx: Context, s: State) {
    && (forall c :: c in s.calls ==> c.task < |s.tasks| && Executing(ctx, s.tasks[c.task]))
    && (forall i :: 0 <= i < |s.tasks| && Executing(ctx, s.tasks[i]) ==> Called(s, i))
    && (forall c :: c in s.calls && s.tasks[c.task].Running? ==> c.attempt <= s.tasks[c.task].attempt)
    && (forall j, k :: 0 <= j < k < |s.calls| ==> s.calls[j].task != s.calls[k].task || s.calls[j].attempt != s.calls[k].attempt)
    && (forall c :: c in s.calls && c.afterAbort ==> c.attempt > 0)
  }

  ghost predicate Inv(ctx: Context, s: State) {
    && TasksOk(ctx, s)
    && Held(ctx, s) <= Width(ctx)
    && CountersOk(ctx, s)
    && ResultsOk(s)
    && CallsOk(ctx, s)
  }

  lemma {:induction false} InitialCounts(ctx: Context, n: nat, kind: Kind)
    ensures Count(ctx, InitialTasks(n), kind) == if kind == IsPending then n else 0
  {
    if n > 0 {
      assert Init(InitialTasks(n)) == InitialTasks(n - 1);
      InitialCounts(ctx, n - 1, kind);
    }
  }

  lemma InitialInv(ctx: Context)
    ensures Inv(ctx, Initial(ctx))
  {
    var n := |ctx.scenarios|;
    InitialCounts(ctx, n, IsRunning);
    InitialCounts(ctx, n, IsPassed);
    InitialCounts(ctx, n, IsFailed);
    InitialCounts(ctx, n, IsOther);
    InitialCounts(ctx, n, IsResumed);
    InitialCounts(ctx, n, IsPlaceholder);
  }

  /** The effect on every count of moving one task. */
  lemma AllCountsUpdate(ctx: Context, tasks: seq<Task>, i: nat, t: Task)
    requires i < |tasks|
    ensures forall kind :: Count(ctx, tasks[i := t], kind) + (if KindOf(ctx, tasks[i]) == kind then 1 else 0)
                        == Count(ctx, tasks, kind) + if KindOf(ctx, t) == kind then 1 else 0
  {
    forall kind ensures Count(ctx, tasks[i := t], kind) + (if KindOf(ctx, tasks[i]) == kind then 1 else 0)
                     == Count(ctx, tasks, kind) + if KindOf(ctx, t) == kind then 1 else 0 {
      CountUpdate(ctx, tasks, i, t, kind);
    }
  }

  lemma CompleteKeepsCounters(ctx: Context, s: State, i: nat, r: Result)
    requires CountersOk(ctx, s) && i < |s.tasks|
    requires KindOf(ctx, s.tasks[i]) in {IsPending, IsWaiting, IsRunning}
    requires r.aborted ==> s.progress.aborted
    ensures CountersOk(ctx, Complete(ctx, s, i, r))
    ensures Held(ctx, Complete(ctx, s, i, r)) <= Held(ctx, s)
  {
    AllCountsUpdate(ctx, s.tasks, i, Done(r));
  }

  lemma CompleteKeepsResults(ctx: Context, s: State, i: nat, r: Result)
    requires ResultsOk(s) && i < |s.tasks| && !s.tasks[i].Done?
    ensures ResultsOk(Complete(ctx, s, i, r))
  {
    var s' := Complete(ctx, s, i, r);
    assert forall j :: 0 <= j < |s.results| ==> s'.results[j] == s.results[j] && s.results[j] != i;
    assert s'.results[|s.results|] == i;
    assert forall j :: j in s.results ==> j in s'.results;
  }

  /** Moving a task without a new adapter call: it must keep its being in execution. */
  lemma MoveKeepsCalls(ctx: Context, s: State, s': State, i: nat, t: Task)
    requires CallsOk(ctx, s) && i < |s.tasks| && s'.tasks == s.tasks[i := t] && s'.calls == s.calls
    requires (Executing(ctx, s.tasks[i]) <==> Executing(ctx, t)) && !t.Running?
    ensures CallsOk(ctx, s')
  {
    forall k | 0 <= k < |s'.tasks| && Executing(ctx, s'.tasks[k]) ensures Called(s', k) {
      assert Executing(ctx, s.tasks[k]) && Called(s, k);
    }
  }

  lemma CompleteKeepsInv(ctx: Context, s: State, i: nat, r: Result)
    requires Inv(ctx, s) && i < |s.tasks| && TaskOk(ctx, ctx.scenarios[i], Done(r))
    requires KindOf(ctx, s.tasks[i]) in {IsPending, IsWaiting, IsRunning}
    requires s.tasks[i].Running? <==> KindOf(ctx, Done(r)) in {IsPassed, IsFailed, IsOther}
    requires r.aborted ==> s.progress.aborted
    ensures Inv(ctx, Complete(ctx, s, i, r))
  {
    CompleteKeepsCounters(ctx, s, i, r);
    CompleteKeepsResults(ctx, s, i, r);
    MoveKeepsCalls(ctx, s, Complete(ctx, s, i, r), i, Done(r));
  }

  ghost predicate CanCall(ctx: Context, s: State, i: nat, attempt: nat)
    requires i < |s.tasks|
  {
    if attempt == 0 then s.tasks[i] in {Pending, Waiting} && !s.progress.aborted else s.tasks[i] == Running(attempt - 1)
  }

  lemma CallKeepsCalls(ctx: Context, s: State, i: nat, attempt: nat)
    requires CallsOk(ctx, s) && i < |s.tasks| && CanCall(ctx, s, i, attempt)
    ensures CallsOk(ctx, Calling(s, i, attempt))
  {
    var s' := Calling(s, i, attempt);
    var call := Last(s'.calls);
    assert forall c :: c in s'.calls <==> c in s.calls || c == call;
    forall k | 0 <= k < |s'.tasks| && Executing(ctx, s'.tasks[k]) ensures Called(s', k) {
      if k == i {
        assert call in s'.calls;
      } else {
        assert Called(s, k);
      }
    }
    assert forall j :: 0 <= j < |s.calls| ==> s.calls[j] in s.calls;
  }

  lemma CallKeepsInv(ctx: Context, s: State, i: nat, attempt: nat)
    requires Inv(ctx, s) && i < |s.tasks| && TaskOk(ctx, ctx.scenarios[i], Running(attempt))
    requires CanCall(ctx, s, i, attempt) && (attempt == 0 ==> Held(ctx, s) < Width(ctx))
    ensures Inv(ctx, Calling(s, i, attempt))
  {
    AllCountsUpdate(ctx, s.tasks, i, Running(attempt));
    CallKeepsCalls(ctx, s, i, attempt);
  }

  lemma EnterKeepsInv(ctx: Context, s: State, i: nat)
    requires Inv(ctx, s) && i < |s.tasks| && s.tasks[i] in {Pending, Waiting}
    requires !ctx.IsCompleted(ctx.scenarios[i]) && Held(ctx, s) < Width(ctx)
    ensures Inv(ctx, Enter(ctx, s, i))
  {
    if s.progress.aborted {
      CompleteKeepsInv(ctx, s, i, ctx.Placeholder(ctx.scenarios[i]));
    } else {
      CallKeepsInv(ctx, s, i, 0);
    }
  }

  lemma ParkKeepsInv(ctx: Context, s: State, i: nat)
    requires Inv(ctx, s) && i < |s.tasks| && s.tasks[i].Pending? && !ctx.IsCompleted(ctx.scenarios[i])
    ensures Inv(ctx, s.(tasks := s.tasks[i := Waiting]))
  {
    AllCountsUpdate(ctx, s.tasks, i, Waiting);
    MoveKeepsCalls(ctx, s, s.(tasks := s.tasks[i := Waiting]), i, Waiting);
  }

  /** What a task has become when an attempt ends. */
  lemma AttemptEnds(ctx: Context, scenario: string, attempt: nat)
    requires TaskOk(ctx, scenario, Running(attempt))
    ensures var status := ctx.adapter(scenario, attempt);
            var r := Result(scenario, ctx.digest(scenario), status, false);
            if !IsSuccess(status) && attempt < ctx.retryCount then TaskOk(ctx, scenario, Running(attempt + 1))
            else TaskOk(ctx, scenario, Done(r)) && KindOf(ctx, Done(r)) in {IsPassed, IsFailed, IsOther}
  {
  }

  lemma RetryKeepsInv(ctx: Context, s: State, i: nat, attempt: nat)
    requires Inv(ctx, s) && i < |s.tasks| && s.tasks[i] == Running(attempt)
    requires !IsSuccess(ctx.adapter(ctx.scenarios[i], attempt)) && attempt < ctx.retryCount
    ensures Inv(ctx, Calling(s, i, attempt + 1))
  {
    AttemptEnds(ctx, ctx.scenarios[i], attempt);
    CallKeepsInv(ctx, s, i, attempt + 1);
  }

  lemma EndKeepsInv(ctx: Context, s: State, i: nat, attempt: nat)
    requires Inv(ctx, s) && i < |s.tasks| && s.tasks[i] == Running(attempt)
    requires IsSuccess(ctx.adapter(ctx.scenarios[i], attempt)) || attempt >= ctx.retryCount
    ensures Inv(ctx, Complete(ctx, s, i, Result(ctx.scenarios[i], ctx.digest(ctx.scenarios[i]),
                                                ctx.adapter(ctx.scenarios[i], attempt), false)))
  {
    AttemptEnds(ctx, ctx.scenarios[i], attempt);
    CompleteKeepsInv(ctx, s, i, Result(ctx.scenarios[i], ctx.digest(ctx.scenarios[i]), ctx.adapter(ctx.scenarios[i], attempt), false));
  }

  lemma FinishKeepsInv(ctx: Context, s: State, i: nat)
    requires Inv(ctx, s) && Enabled(ctx, s, Finish(i))
    ensures Inv(ctx, Next(ctx, s, Finish(i)))
  {
    var attempt := s.tasks[i].attempt;
    if !IsSuccess(ctx.adapter(ctx.scenarios[i], attempt)) && attempt < ctx.retryCount {
      RetryKeepsInv(ctx, s, i, attempt);
    } else {
      EndKeepsInv(ctx, s, i, attempt);
    }
  }

  lemma StepKeepsInv(ctx: Context, s: State, step: Step)
    requires Inv(ctx, s) && Enabled(ctx, s, step)
    ensures Inv(ctx, Next(ctx, s, step))
  {
    match step
    case Begin(i) =>
      if ctx.IsCompleted(ctx.scenarios[i]) {
        CompleteKeepsInv(ctx, s, i, Result(ctx.scenarios[i], ctx.digest(ctx.scenarios[i]), Skipped, false));
      } else {
        EnterKeepsInv(ctx, s, i);
      }
    case Acquire(i) => EnterKeepsInv(ctx, s, i);
    case Park(i) => ParkKeepsInv(ctx, s, i);
    case Finish(i) => FinishKeepsInv(ctx, s, i);
  }

  /** Safety over every interleaving. */
  lemma {:induction false} EveryRunKeepsInv(ctx: Context, steps: seq<Step>)
    requires Play(ctx, steps).Some?
    ensures Inv(ctx, Play(ctx, steps).value)
  {
    if steps == [] {
      InitialInv(ctx);
    } else {
      EveryRunKeepsInv(ctx, Init(steps));
      StepKeepsInv(ctx, Play(ctx, Init(steps)).value, Last(steps));
    }
  }

  // ---------- Fail-fast ----------

  /** At most `max(1, maxParallel)` scenarios execute at once, and none begins to once the run is aborted. */
  lemma BoundedAndFailFast(ctx: Context, steps: seq<Step>)
    requires Play(ctx, steps).Some?
    ensures var s := Play(ctx, steps).value;
            && Held(ctx, s) <= Width(ctx)
            && (forall c :: c in s.calls && c.afterAbort ==> c.attempt > 0)
            && (forall j, k :: 0 <= j < k < |s.calls| ==>
                  s.calls[j].task != s.calls[k].task || s.calls[j].attempt != s.calls[k].attempt)
  {
    EveryRunKeepsInv(ctx, steps);
  }

  ghost predicate NoLateCall(s: State) {
    forall c :: c in s.calls ==> !c.afterAbort
  }

  /** A retry does not look at the abort flag, so a task in flight may still call the adapter. */
  predicate NeverCallsLate(retryCount: nat, maxParallel: int, failFast: bool) {
    !failFast || retryCount == 0 || maxParallel <= 1
  }

  /** Without a late call so far; alone on the semaphore, an aborted run has nobody executing. */
  ghost predicate Quiet(ctx: Context, s: State) {
    NoLateCall(s) && (s.progress.aborted && ctx.maxParallel <= 1 ==> Held(ctx, s) == 0)
  }

  lemma QuietFinish(ctx: Context, s: State, i: nat)
    requires Inv(ctx, s) && Enabled(ctx, s, Finish(i)) && Quiet(ctx, s)
    requires NeverCallsLate(ctx.retryCount, ctx.maxParallel, ctx.failFast)
    ensures NoLateCall(Next(ctx, s, Finish(i)))
  {
    CountPositive(ctx, s.tasks, i);
    assert s.progress.aborted ==> ctx.failFast && ctx.maxParallel > 1 && ctx.retryCount == 0;
  }

  lemma QuietStep(ctx: Context, s: State, step: Step)
    requires Inv(ctx, s) && Enabled(ctx, s, step) && Quiet(ctx, s)
    requires NeverCallsLate(ctx.retryCount, ctx.maxParallel, ctx.failFast)
    ensures Quiet(ctx, Next(ctx, s, step))
  {
    var s' := Next(ctx, s, step);
    if step.Finish? { QuietFinish(ctx, s, step.task); }
    HeldAfter(ctx, s, step);
  }

  /** Alone on the semaphore, the step that aborts the run also leaves it. */
  lemma HeldAfter(ctx: Context, s: State, step: Step)
    requires Inv(ctx, s) && Enabled(ctx, s, step) && Quiet(ctx, s)
    ensures var s' := Next(ctx, s, step); s'.progress.aborted && ctx.maxParallel <= 1 ==> Held(ctx, s') == 0
  {
    var s' := Next(ctx, s, step);
    AllCountsUpdate(ctx, s.tasks, step.task, s'.tasks[step.task]);
    CountPositive(ctx, s.tasks, step.task);
    assert s'.tasks == s.tasks[step.task := s'.tasks[step.task]];
  }

  lemma {:induction false} QuietRun(ctx: Context, steps: seq<Step>)
    requires Play(ctx, steps).Some? && NeverCallsLate(ctx.retryCount, ctx.maxParallel, ctx.failFast)
    ensures Quiet(ctx, Play(ctx, steps).value)
  {
    if steps != [] {
      QuietRun(ctx, Init(steps));
      EveryRunKeepsInv(ctx, Init(steps));
      QuietStep(ctx, Play(ctx, Init(steps)).value, Last(steps));
    }
  }

  /**
    Whether every adapter call of every run is made before the abort depends on the settings alone:
    it needs fail-fast off, no retries, or no parallelism.
   */
  lemma NoLateCallIff(retryCount: nat, maxParallel: int, failFast: bool)
    ensures NeverCallsLate(retryCount, maxParallel, failFast) <==>
              forall ctx: Context, steps ::
                (ctx.retryCount == retryCount && ctx.maxParallel == maxParallel && ctx.failFast == failFast
                 && Play(ctx, steps).Some?) ==> NoLateCall(Play(ctx, steps).value)
  {
    if NeverCallsLate(retryCount, maxParallel, failFast) {
      forall ctx: Context, steps | ctx.retryCount == retryCount && ctx.maxParallel == maxParallel
             && ctx.failFast == failFast && Play(ctx, steps).Some?
        ensures NoLateCall(Play(ctx, steps).value)
      {
        QuietRun(ctx, steps);
      }
    } else {
      var ctx := TwoFailing(retryCount, maxParallel);
      LateRetry(ctx);
      assert Play(ctx, LateSteps(retryCount)).Some?;
    }
  }

  function TwoFailing(retryCount: nat, maxParallel: int): Context {
    Context(["a", "b"], retryCount, maxParallel, true, {}, s => s, (_, _) => Failed)
  }

  /** Both scenarios start; the first uses up its retries and aborts the run; the second retries. */
  function FirstScenarioSteps(attempts: nat): seq<Step> {
    if attempts == 0 then [Begin(0), Begin(1)] else FirstScenarioSteps(attempts - 1) + [Finish(0)]
  }

  function LateSteps(retryCount: nat): seq<Step> {
    FirstScenarioSteps(retryCount + 1) + [Finish(1)]
  }

  lemma FirstStarts(ctx: Context)
    requires ctx == TwoFailing(ctx.retryCount, ctx.maxParallel)
    ensures Play(ctx, [Begin(0)]).Some?
    ensures var s := Play(ctx, [Begin(0)]).value;
            s.tasks == [Running(0), Pending] && !s.progress.aborted && Held(ctx, s) == 1
  {
    var s0 := Initial(ctx);
    InitialCounts(ctx, 2, IsRunning);
    AllCountsUpdate(ctx, s0.tasks, 0, Running(0));
    assert Init([Begin(0)]) == [] && Play(ctx, []) == Some(s0) && s0.tasks == [Pending, Pending];
    assert s0.tasks[0 := Running(0)] == [Running(0), Pending];
  }

  lemma BothStart(ctx: Context)
    requires ctx == TwoFailing(ctx.retryCount, ctx.maxParallel) && ctx.maxParallel >= 2
    ensures Play(ctx, [Begin(0), Begin(1)]).Some?
    ensures var s := Play(ctx, [Begin(0), Begin(1)]).value;
            s.tasks == [Running(0), Running(0)] && !s.progress.aborted
  {
    FirstStarts(ctx);
    assert Init([Begin(0), Begin(1)]) == [Begin(0)];
  }

  lemma OneRetry(ctx: Context, s: State, attempt: nat)
    requires ctx == TwoFailing(ctx.retryCount, ctx.maxParallel) && attempt < ctx.retryCount
    requires s.tasks == [Running(attempt), Running(0)] && !s.progress.aborted
    ensures Enabled(ctx, s, Finish(0))
    ensures var s' := Next(ctx, s, Finish(0)); s'.tasks == [Running(attempt + 1), Running(0)] && !s'.progress.aborted
  {
  }

  lemma PlayOneMore(ctx: Context, steps: seq<Step>, step: Step)
    requires Play(ctx, steps).Some? && Enabled(ctx, Play(ctx, steps).value, step)
    ensures Play(ctx, steps + [step]) == Some(Next(ctx, Play(ctx, steps).value, step))
  {
    assert Init(steps + [step]) == steps;
  }

  lemma {:induction false} FirstScenarioRetries(ctx: Context, attempts: nat)
    requires ctx == TwoFailing(ctx.retryCount, ctx.maxParallel) && ctx.maxParallel >= 2 && attempts <= ctx.retryCount
    ensures Play(ctx, FirstScenarioSteps(attempts)).Some?
    ensures var s := Play(ctx, FirstScenarioSteps(attempts)).value;
            s.tasks == [Running(attempts), Running(0)] && !s.progress.aborted
  {
    if attempts == 0 {
      BothStart(ctx);
    } else {
      FirstScenarioRetries(ctx, attempts - 1);
      OneRetry(ctx, Play(ctx, FirstScenarioSteps(attempts - 1)).value, attempts - 1);
      PlayOneMore(ctx, FirstScenarioSteps(attempts - 1), Finish(0));
    }
  }

  lemma LateRetry(ctx: Context)
    requires ctx == TwoFailing(ctx.retryCount, ctx.maxParallel) && ctx.maxParallel >= 2 && ctx.retryCount >= 1
    ensures Play(ctx, LateSteps(ctx.retryCount)).Some?
    ensures !NoLateCall(Play(ctx, LateSteps(ctx.retryCount)).value)
  {
    var n := ctx.retryCount;
    FirstScenarioRetries(ctx, n);
    var steps := FirstScenarioSteps(n + 1);
    assert Init(steps) == FirstScenarioSteps(n) && Last(steps) == Finish(0);
    var s := Play(ctx, steps).value;
    assert s.progress.aborted && s.tasks[1] == Running(0);
    assert Init(LateSteps(n)) == steps && Last(LateSteps(n)) == Finish(1);
    assert Call(1, 1, true) in Play(ctx, LateSteps(n)).value.calls;
  }

  // ---------- Termination and accounting ----------

  ghost predicate Finished(s: State) {
    forall i :: 0 <= i < |s.tasks| ==> s.tasks[i].Done?
  }

  /** No deadlock: a run that is not finished can go on. */
  lemma NeverStuck(ctx: Context, s: State)
    requires Inv(ctx, s) && !Finished(s)
    ensures exists step :: Enabled(ctx, s, step)
  {
    if i :| 0 <= i < |s.tasks| && s.tasks[i].Running? {
      assert Enabled(ctx, s, Finish(i));
    } else {
      CountZero(ctx, s.tasks, IsRunning);
      var i :| 0 <= i < |s.tasks| && !s.tasks[i].Done?;
      assert Enabled(ctx, s, if s.tasks[i].Pending? then Begin(i) else Acquire(i));
    }
  }

  function Weight(ctx: Context, t: Task): int {
    match t
    case Pending => ctx.retryCount + 3
    case Waiting => ctx.retryCount + 2
    case Running(attempt) => ctx.retryCount + 1 - attempt
    case Done(_) => 0
  }

  function TotalWeight(ctx: Context, tasks: seq<Task>): int {
    if tasks == [] then 0 else TotalWeight(ctx, Init(tasks)) + Weight(ctx, Last(tasks))
  }

  lemma {:induction false} WeightUpdate(ctx: Context, tasks: seq<Task>, i: nat, t: Task)
    requires i < |tasks|
    ensures TotalWeight(ctx, tasks[i := t]) == TotalWeight(ctx, tasks) - Weight(ctx, tasks[i]) + Weight(ctx, t)
  {
    if i == |tasks| - 1 {
      assert Init(tasks[i := t]) == Init(tasks);
    } else {
      assert Init(tasks[i := t]) == Init(tasks)[i := t];
      WeightUpdate(ctx, Init(tasks), i, t);
    }
  }

  /** The number of steps that no run exceeds. */
  function Budget(ctx: Context, n: nat): int {
    n * (ctx.retryCount + 3)
  }

  lemma {:induction false} WeightBounds(ctx: Context, tasks: seq<Task>)
    requires forall i :: 0 <= i < |tasks| && tasks[i].Running? ==> tasks[i].attempt <= ctx.retryCount
    ensures 0 <= TotalWeight(ctx, tasks) <= Budget(ctx, |tasks|)
  {
    if tasks != [] {
      WeightBounds(ctx, Init(tasks));
      var n, w := |tasks|, ctx.retryCount + 3;
      assert n * w == (n - 1) * w + w;
    }
  }

  lemma StepLosesWeight(ctx: Context, s: State, step: Step)
    requires TasksOk(ctx, s) && Enabled(ctx, s, step)
    ensures TotalWeight(ctx, Next(ctx, s, step).tasks) < TotalWeight(ctx, s.tasks)
  {
    var t := Next(ctx, s, step).tasks[step.task];
    WeightUpdate(ctx, s.tasks, step.task, t);
    assert Next(ctx, s, step).tasks == s.tasks[step.task := t];
  }

  lemma InitialWeight(ctx: Context)
    ensures TotalWeight(ctx, Initial(ctx).tasks) <= Budget(ctx, |ctx.scenarios|)
  {
    WeightBounds(ctx, Initial(ctx).tasks);
  }

  lemma WeightNotNegative(ctx: Context, s: State)
    requires TasksOk(ctx, s)
    ensures TotalWeight(ctx, s.tasks) >= 0
  {
    WeightBounds(ctx, s.tasks);
  }

  lemma TasksStayOk(ctx: Context, steps: seq<Step>)
    requires Play(ctx, steps).Some?
    ensures TasksOk(ctx, Play(ctx, steps).value)
  {
    EveryRunKeepsInv(ctx, steps);
  }

  lemma {:induction false} StepsUseUpWeight(ctx: Context, steps: seq<Step>)
    requires Play(ctx, steps).Some?
    ensures |steps| + TotalWeight(ctx, Play(ctx, steps).value.tasks) <= Budget(ctx, |ctx.scenarios|)
  {
    if steps == [] {
      InitialWeight(ctx);
    } else {
      StepsUseUpWeight(ctx, Init(steps));
      TasksStayOk(ctx, Init(steps));
      StepLosesWeight(ctx, Play(ctx, Init(steps)).value, Last(steps));
    }
  }

  /** Termination: no schedule is longer than the number of scenarios times their attempts plus two. */
  lemma RunsAreBounded(ctx: Context, steps: seq<Step>)
    requires Play(ctx, steps).Some?
    ensures |steps| <= |ctx.scenarios| * (ctx.retryCount + 3)
  {
    StepsUseUpWeight(ctx, steps);
    TasksStayOk(ctx, steps);
    WeightNotNegative(ctx, Play(ctx, steps).value);
  }

  lemma FinishedCounts(ctx: Context, s: State)
    requires CountersOk(ctx, s) && |s.tasks| == |ctx.scenarios| && Finished(s)
    ensures s.progress.completed + Count(ctx, s.tasks, IsPlaceholder) == |ctx.scenarios|
  {
    CountTotal(ctx, s.tasks);
    CountZero(ctx, s.tasks, IsPending);
    CountZero(ctx, s.tasks, IsWaiting);
    CountZero(ctx, s.tasks, IsRunning);
  }

  /** At the end every scenario has exactly one result, and the counters plus the placeholders account for all. */
  lemma FinishedAccounting(ctx: Context, steps: seq<Step>)
    requires Play(ctx, steps).Some? && Finished(Play(ctx, steps).value)
    ensures var s := Play(ctx, steps).value;
            && s.progress.completed + Count(ctx, s.tasks, IsPlaceholder) == |ctx.scenarios| == |s.results|
            && (forall i :: 0 <= i < |ctx.scenarios| ==> i in s.results)
            && (forall j, k :: 0 <= j < k < |s.results| ==> s.results[j] != s.results[k])
  {
    EveryRunKeepsInv(ctx, steps);
    FinishedCounts(ctx, Play(ctx, steps).value);
  }

  // ---------- Independence of the schedule ----------

  lemma {:induction false} CountersFromTasks(ctx: Context, tasks: seq<Task>, results: seq<Result>)
    requires |tasks| == |results| && forall i :: 0 <= i < |tasks| ==> tasks[i] == Done(results[i]) && !results[i].aborted
    ensures var c := RecordedAll(ctx, results);
            && c.passed == Count(ctx, tasks, IsPassed) && c.failed == Count(ctx, tasks, IsFailed)
            && c.skipped == Count(ctx, tasks, IsResumed)
            && c.completed == c.passed + c.failed + c.skipped + Count(ctx, tasks, IsOther)
            && (c.aborted <==> ctx.failFast && c.failed > 0)
  {
    if tasks != [] { CountersFromTasks(ctx, Init(tasks), Init(results)); }
  }

  /** Whether a run ends up aborted depends on the scenarios, not on the schedule. */
  lemma AbortIsScheduleIndependent(ctx: Context, steps: seq<Step>)
    requires Play(ctx, steps).Some? && Finished(Play(ctx, steps).value)
    ensures Play(ctx, steps).value.progress.aborted <==>
              ctx.failFast && exists i :: 0 <= i < |ctx.scenarios| && ctx.Fails(ctx.scenarios[i])
  {
    var s := Play(ctx, steps).value;
    EveryRunKeepsInv(ctx, steps);
    if i :| 0 <= i < |ctx.scenarios| && ctx.Fails(ctx.scenarios[i]) {
      CountPositive(ctx, s.tasks, i);
    } else {
      CountZero(ctx, s.tasks, IsFailed);
    }
  }

  /** A run that is not aborted gives every scenario the result, and the counters, of the sequential mode. */
  lemma SameAsSequential(ctx: Context, steps: seq<Step>)
    requires Play(ctx, steps).Some? && Finished(Play(ctx, steps).value) && !Play(ctx, steps).value.progress.aborted
    ensures var s, sequential := Play(ctx, steps).value, ResultsOf(ctx, ctx.scenarios[..VisitedFrom(ctx, 0)]);
            && |sequential| == |s.tasks|
            && (forall i :: 0 <= i < |s.tasks| ==> s.tasks[i] == Done(sequential[i]))
            && s.progress == RecordedAll(ctx, sequential)
  {
    var s := Play(ctx, steps).value;
    EveryRunKeepsInv(ctx, steps);
    AbortIsScheduleIndependent(ctx, steps);
    assert ctx.scenarios[..|ctx.scenarios|] == ctx.scenarios;
    VisitedSpec(ctx, 0);
    assert VisitedFrom(ctx, 0) == |ctx.scenarios|;
    var sequential := ResultsOf(ctx, ctx.scenarios);
    forall i | 0 <= i < |s.tasks| ensures s.tasks[i] == Done(sequential[i]) {
      CountPositive(ctx, s.tasks, i);
    }
    CountersFromTasks(ctx, s.tasks, sequential);
  }
}
