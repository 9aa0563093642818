/**
  The whole abstraction pipeline: raw steps become actions, and an ordered list of stages rewrites
  them. What every stage keeps is composed into what the pipeline keeps.
 */
module Abstraction {
  import opened Actions
  import ContiguousPasses
  import FilterRules
  import PairingRules
  import PatternLibrary
  import UndoCollapse

  // ---------- Raw steps ----------

  /** A recorded step; `raw` holds what the recorder noted, such as the key code of a shortcut. */
  datatype Step = Step(name: Name, target: Text, caption: Text, bundle: Text, raw: Params)

  function Given(key: Key, text: Text): Params {
    if text == Empty then map[] else map[key := One(text)]
  }

  /** The action of the step at `idx`. Of the raw parameters only a typed character is taken over. */
  function Lift(idx: int, step: Step): Action {
    var path := if step.name in {FILE_CREATE, FILE_MODIFY, FILE_DELETE, FILE_RENAME} then map[K_PATH := One(step.target)] else map[];
    var typed := if step.name == UI_TYPE && K_CHARACTER in step.raw && step.raw[K_CHARACTER].One? then step.raw[K_CHARACTER].text
                else Empty;
    Action(step.name,
           Given(K_TARGET, step.target) + Given(K_TARGET_LABEL, step.caption) + Given(K_APP_BUNDLE_ID, step.bundle) + path
           + Given(K_CHARACTER, typed),
           idx, idx + 1, 1.0)
  }

  function Lifted(steps: seq<Step>): (actions: seq<Action>) {
    seq(|steps|, k requires 0 <= k < |steps| => Lift(k, steps[k]))
  }

  lemma LiftedProvenance(steps: seq<Step>)
    ensures Provenance(|steps|, Lifted(steps)) && SortedDisjoint(Lifted(steps))
  {
  }

  /** What a lifted action says: its target, its label, its app, and, for file events, the path, and for typing the character. */
  lemma LiftSays(idx: int, step: Step)
    ensures var a := Lift(idx, step);
            && a.name == step.name && a.start == idx && a.end == idx + 1 && a.confidence == 1.0
            && GetText(a, K_TARGET) == step.target && GetText(a, K_TARGET_LABEL) == step.caption
            && GetText(a, K_APP_BUNDLE_ID) == step.bundle
            && GetText(a, K_PATH) == (if step.name in {FILE_CREATE, FILE_MODIFY, FILE_DELETE, FILE_RENAME} then step.target else Empty)
            && (step.name == UI_TYPE && K_CHARACTER in step.raw && step.raw[K_CHARACTER].One? ==>
                  GetText(a, K_CHARACTER) == step.raw[K_CHARACTER].text)
            && (step.name != UI_TYPE ==> K_CHARACTER !in a.params)
            && K_DESTINATION !in a.params && K_SOURCE !in a.params
  {
  }

  /** Lifting drops the key code and the modifiers, so no lifted action is an undo: the collapse never acts here. */
  lemma UndoNeverActsOnLiftedSteps(steps: seq<Step>)
    ensures UndoCollapse.Collapsed(Lifted(steps)) == Lifted(steps)
  {
    var actions := Lifted(steps);
    forall k | 0 <= k < |actions| ensures UndoCollapse.IsPlain(actions[k]) {
      assert K_KEY_CODE !in Lift(k, steps[k]).params;
    }
    UndoCollapse.FoldOfPlain([], actions);
  }

  // ---------- Stages ----------

  datatype Stage =
    | UndoFold
    | Contiguous(pass: ContiguousPasses.Pass)
    | Distractions
    | Focus
    | Pairs(rule: PairingRules.PairRule)
    | Permissions
    | Downloads
    | Gathers(isPaste: Action -> bool)
    | Patterns(matcher: PatternLibrary.Matcher, patterns: seq<PatternLibrary.Pattern>)

  ghost predicate Terminating(stage: Stage) {
    stage.Patterns? ==> PatternLibrary.NonEmptyPatterns(stage.patterns)
  }

  function Applied(stage: Stage, actions: seq<Action>): seq<Action>
    requires Terminating(stage)
  {
    match stage
    case UndoFold => UndoCollapse.Collapsed(actions)
    case Contiguous(pass) => ContiguousPasses.Scan(pass, actions, 0)
    case Distractions => FilterRules.DistractionsFiltered(actions)
    case Focus => FilterRules.FocusDeduplicated(actions)
    case Pairs(rule) => PairingRules.Paired(rule, actions, 0, {})
    case Permissions => FilterRules.PermissionsFiltered(actions)
    case Downloads => FilterRules.DownloadsSynthesized(actions)
    case Gathers(isPaste) => FilterRules.Gathered(isPaste, actions)
    case Patterns(matcher, patterns) => PatternLibrary.PatternsApplied(matcher, patterns, actions)
  }

  ghost predicate AllTerminating(stages: seq<Stage>) {
    forall s :: s in stages ==> Terminating(s)
  }

  /** Each stage works on what the stage before it returned. */
  function Run(stages: seq<Stage>, actions: seq<Action>): seq<Action>
    requires AllTerminating(stages)
    decreases |stages|
  {
    if stages == [] then actions
    else
      assert stages[0] in stages;
      Run(stages[1..], Applied(stages[0], actions))
  }

  method ApplyPass(pass: ContiguousPasses.Pass, actions: seq<Action>) returns (result: seq<Action>)
    ensures result == ContiguousPasses.Scan(pass, actions, 0)
  {
    match pass {
      case Idempotent => result := ContiguousPasses.IdempotentMerge(actions);
      case Windows(minRun) => result := ContiguousPasses.WindowManagement(actions, minRun);
      case BatchMoves(minBatch) => result := ContiguousPasses.BatchMoveLoop(actions, minBatch);
      case Groups => result := ContiguousPasses.Grouping(actions);
      case FsPatterns => result := ContiguousPasses.FileSystemPatterns(actions);
    }
  }

  method Apply(stage: Stage, actions: seq<Action>) returns (result: seq<Action>)
    requires Terminating(stage)
    ensures result == Applied(stage, actions)
  {
    match stage {
      case UndoFold => result := UndoCollapse.Collapse(actions);
      case Contiguous(pass) => result := ApplyPass(pass, actions);
      case Distractions => result := FilterRules.FilterDistractions(actions);
      case Focus => result := FilterRules.DuplicateFocus(actions);
      case Pairs(rule) => result := PairingRules.PairUp(rule, actions);
      case Permissions => result := FilterRules.FilterPermissions(actions);
      case Downloads => result := FilterRules.SynthesizeDownloads(actions);
      case Gathers(isPaste) => result := FilterRules.GatherCompose(isPaste, actions);
      case Patterns(matcher, patterns) =>
        var library := new PatternLibrary.Library(patterns);
        result := PatternLibrary.PatternPass(library, matcher, actions);
    }
  }

  method RunStages(stages: seq<Stage>, input: seq<Action>) returns (actions: seq<Action>)
    requires AllTerminating(stages)
    ensures actions == Run(stages, input)
  {
    actions := input;
    for k := 0 to |stages|
      invariant Run(stages, input) == Run(stages[k..], actions)
    {
      assert stages[k..][1..] == stages[k + 1..];
      actions := Apply(stages[k], actions);
    }
  }

  // ---------- The conservative pipeline ----------

  function DenoiseStages(): seq<Stage> {
    [UndoFold, Contiguous(ContiguousPasses.Idempotent), Distractions]
  }

  /** The cross-platform synthesis rules, first those for focus, windows and file events. */
  function EventStages(): seq<Stage> {
    [Focus, Contiguous(ContiguousPasses.Windows(2)), Pairs(PairingRules.RenamePairs(3)), Pairs(PairingRules.ModifyPairs(3))]
  }

  function CompositionStages(isPaste: Action -> bool): seq<Stage> {
    [Contiguous(ContiguousPasses.BatchMoves(2)), Permissions, Downloads, Gathers(isPaste)]
  }

  function RecognitionStages(matcher: PatternLibrary.Matcher, patterns: seq<PatternLibrary.Pattern>): seq<Stage> {
    [Contiguous(ContiguousPasses.Groups), Contiguous(ContiguousPasses.FsPatterns), Patterns(matcher, patterns)]
  }

  /** Denoise, the cross-platform synthesis rules, grouping, file-system patterns, pattern library. */
  function ConservativeStages(isPaste: Action -> bool, matcher: PatternLibrary.Matcher,
      patterns: seq<PatternLibrary.Pattern>): seq<Stage> {
    DenoiseStages() + (EventStages() + (CompositionStages(isPaste) + RecognitionStages(matcher, patterns)))
  }

  lemma ConservativeTerminates(isPaste: Action -> bool, matcher: PatternLibrary.Matcher, patterns: seq<PatternLibrary.Pattern>)
    requires PatternLibrary.NonEmptyPatterns(patterns)
    ensures AllTerminating(ConservativeStages(isPaste, matcher, patterns))
  {
  }

  lemma RunCons(stage: Stage, rest: seq<Stage>, actions: seq<Action>)
    requires Terminating(stage) && AllTerminating(rest)
    ensures AllTerminating([stage] + rest) && Run([stage] + rest, actions) == Run(rest, Applied(stage, actions))
  {
    assert ([stage] + rest)[1..] == rest;
  }

  lemma {:induction false} RunConcat(a: seq<Stage>, b: seq<Stage>, actions: seq<Action>)
    requires AllTerminating(a) && AllTerminating(b)
    ensures AllTerminating(a + b) && Run(a + b, actions) == Run(b, Run(a, actions))
    decreases |a|
  {
    if a == [] {
      assert a + b == b;
    } else {
      var rest := a[1..];
      assert a[0] in a && a == [a[0]] + rest && a + b == [a[0]] + (rest + b);
      RunConcat(rest, b, Applied(a[0], actions));
      RunCons(a[0], rest, actions);
      RunCons(a[0], rest + b, actions);
    }
  }

  lemma RunThree(a: Stage, b: Stage, c: Stage, actions: seq<Action>)
    requires Terminating(a) && Terminating(b) && Terminating(c)
    ensures AllTerminating([a, b, c]) && Run([a, b, c], actions) == Applied(c, Applied(b, Applied(a, actions)))
  {
    assert [a, b, c] == [a] + ([b] + ([c] + [])) && AllTerminating([]);
    RunCons(c, [], Applied(b, Applied(a, actions)));
    RunCons(b, [c] + [], Applied(a, actions));
    RunCons(a, [b] + ([c] + []), actions);
  }

  /** Undo collapse, then idempotent merge, then distractions. */
  lemma DenoiseOrder(actions: seq<Action>)
    ensures AllTerminating(DenoiseStages())
    ensures Run(DenoiseStages(), actions)
            == FilterRules.DistractionsFiltered(ContiguousPasses.Scan(ContiguousPasses.Idempotent, UndoCollapse.Collapsed(actions), 0))
  {
    RunThree(UndoFold, Contiguous(ContiguousPasses.Idempotent), Distractions, actions);
  }

  lemma RunFour(a: Stage, b: Stage, c: Stage, d: Stage, actions: seq<Action>)
    requires Terminating(a) && Terminating(b) && Terminating(c) && Terminating(d)
    ensures AllTerminating([a, b, c, d])
    ensures Run([a, b, c, d], actions) == Applied(d, Applied(c, Applied(b, Applied(a, actions))))
  {
    assert [a, b, c, d] == [a] + [b, c, d];
    RunThree(b, c, d, Applied(a, actions));
    RunCons(a, [b, c, d], actions);
  }

  /** Duplicate focus, then windows, then pairs of renames, then pairs of modifications. */
  lemma EventOrder(actions: seq<Action>)
    ensures AllTerminating(EventStages())
    ensures var windows := ContiguousPasses.Scan(ContiguousPasses.Windows(2), FilterRules.FocusDeduplicated(actions), 0);
            Run(EventStages(), actions)
            == PairingRules.Paired(PairingRules.ModifyPairs(3),
                                   PairingRules.Paired(PairingRules.RenamePairs(3), windows, 0, {}), 0, {})
  {
    RunFour(Focus, Contiguous(ContiguousPasses.Windows(2)), Pairs(PairingRules.RenamePairs(3)), Pairs(PairingRules.ModifyPairs(3)),
            actions);
  }

  /** Batches of moves, then permission dialogs, then downloads, then gathering. */
  lemma CompositionOrder(isPaste: Action -> bool, actions: seq<Action>)
    ensures AllTerminating(CompositionStages(isPaste))
    ensures var batched := ContiguousPasses.Scan(ContiguousPasses.BatchMoves(2), actions, 0);
            Run(CompositionStages(isPaste), actions)
            == FilterRules.Gathered(isPaste, FilterRules.DownloadsSynthesized(FilterRules.PermissionsFiltered(batched)))
  {
    RunFour(Contiguous(ContiguousPasses.BatchMoves(2)), Permissions, Downloads, Gathers(isPaste), actions);
  }

  /** Grouping, then file-system patterns, then the pattern library. */
  lemma RecognitionOrder(matcher: PatternLibrary.Matcher, patterns: seq<PatternLibrary.Pattern>, actions: seq<Action>)
    requires PatternLibrary.NonEmptyPatterns(patterns)
    ensures AllTerminating(RecognitionStages(matcher, patterns))
    ensures var grouped := ContiguousPasses.Scan(ContiguousPasses.Groups, actions, 0);
            Run(RecognitionStages(matcher, patterns), actions)
            == PatternLibrary.PatternsApplied(matcher, patterns, ContiguousPasses.Scan(ContiguousPasses.FsPatterns, grouped, 0))
  {
    RunThree(Contiguous(ContiguousPasses.Groups), Contiguous(ContiguousPasses.FsPatterns), Patterns(matcher, patterns), actions);
  }

  lemma RunParts(a: seq<Stage>, b: seq<Stage>, c: seq<Stage>, d: seq<Stage>, actions: seq<Action>)
    requires AllTerminating(a) && AllTerminating(b) && AllTerminating(c) && AllTerminating(d)
    ensures AllTerminating(a + (b + (c + d)))
    ensures Run(a + (b + (c + d)), actions) == Run(d, Run(c, Run(b, Run(a, actions))))
  {
    RunConcat(c, d, Run(b, Run(a, actions)));
    RunConcat(b, c + d, Run(a, actions));
    RunConcat(a, b + (c + d), actions);
  }

  /** The conservative pipeline: denoise, events, composition, recognition, each on what the one before returns. */
  lemma ConservativeOrder(isPaste: Action -> bool, matcher: PatternLibrary.Matcher, patterns: seq<PatternLibrary.Pattern>,
      actions: seq<Action>)
    requires PatternLibrary.NonEmptyPatterns(patterns)
    ensures AllTerminating(DenoiseStages()) && AllTerminating(EventStages()) && AllTerminating(CompositionStages(isPaste))
    ensures AllTerminating(RecognitionStages(matcher, patterns)) && AllTerminating(ConservativeStages(isPaste, matcher, patterns))
    ensures Run(ConservativeStages(isPaste, matcher, patterns), actions)
            == Run(RecognitionStages(matcher, patterns),
                   Run(CompositionStages(isPaste), Run(EventStages(), Run(DenoiseStages(), actions))))
  {
    DenoiseOrder(actions);
    EventOrder(actions);
    CompositionOrder(isPaste, actions);
    RecognitionOrder(matcher, patterns, actions);
    RunParts(DenoiseStages(), EventStages(), CompositionStages(isPaste), RecognitionStages(matcher, patterns), actions);
  }

  method Abstract(steps: seq<Step>, isPaste: Action -> bool, matcher: PatternLibrary.Matcher,
      patterns: seq<PatternLibrary.Pattern>) returns (actions: seq<Action>)
    requires PatternLibrary.NonEmptyPatterns(patterns)
    ensures AllTerminating(ConservativeStages(isPaste, matcher, patterns))
    ensures actions == Run(ConservativeStages(isPaste, matcher, patterns), Lifted(steps))
    ensures Provenance(|steps|, actions) && |actions| <= |steps|
  {
    var lifted := Lifted(steps);
    var stages := ConservativeStages(isPaste, matcher, patterns);
    ConservativeTerminates(isPaste, matcher, patterns);
    actions := RunStages(stages, lifted);
    LiftedProvenance(steps);
    PipelineProvenance(|steps|, stages, lifted);
  }

  // ---------- What every pipeline keeps ----------

  lemma StageIsDerived(stage: Stage, actions: seq<Action>)
    requires Terminating(stage)
    ensures Derived(actions, Applied(stage, actions))
  {
    match stage {
      case UndoFold => UndoCollapse.CollapseIsSubsequence(actions);
      case Contiguous(pass) => ContiguousPasses.ScanIsDerived(pass, actions);
      case Distractions => FilterRules.DistractionsAreDerived(actions);
      case Focus => FilterRules.FocusIsDerived(actions);
      case Pairs(rule) => PairingRules.PairedIsDerived(rule, actions);
      case Permissions => FilterRules.PermissionsAreDerived(actions);
      case Downloads => FilterRules.SynthesizedAreDerived(actions);
      case Gathers(isPaste) => FilterRules.GatheredIsDerived(isPaste, actions);
      case Patterns(matcher, patterns) => PatternLibrary.PatternsAreDerived(matcher, patterns, actions);
    }
  }

  /** Any chain of stages, in any order: each output spans input actions, in the order of their starts. */
  lemma {:induction false} PipelineIsDerived(stages: seq<Stage>, actions: seq<Action>)
    requires AllTerminating(stages)
    ensures Derived(actions, Run(stages, actions))
    decreases |stages|
  {
    if stages == [] {
      DerivedReflexive(actions);
    } else {
      assert stages[0] in stages;
      var next := Applied(stages[0], actions);
      StageIsDerived(stages[0], actions);
      PipelineIsDerived(stages[1..], next);
      DerivedTransitive(actions, next, Run(stages, actions));
    }
  }

  lemma PipelineProvenance(n: nat, stages: seq<Stage>, actions: seq<Action>)
    requires AllTerminating(stages) && Provenance(n, actions)
    ensures Provenance(n, Run(stages, actions)) && |Run(stages, actions)| <= |actions|
  {
    PipelineIsDerived(stages, actions);
    DerivedKeepsProvenance(n, actions, Run(stages, actions));
  }

  // ---------- What contiguous merges keep ----------

  /** Stages that replace neighbours only; faithful ones never touch a single action. */
  ghost predicate IsContiguous(faithful: bool, stage: Stage) {
    match stage
    case Contiguous(pass) => faithful ==> ContiguousPasses.MergesPairsAtLeast(pass)
    case Gathers(_) => true
    case Patterns(_, patterns) => faithful ==> PatternLibrary.LongPatterns(patterns)
    case _ => false
  }

  /** Contiguous merges compose in any order: the whole chain cuts its input into consecutive blocks. */
  lemma {:induction false} ContiguousChainIsBlocking(faithful: bool, stages: seq<Stage>, actions: seq<Action>)
    requires AllTerminating(stages) && forall s :: s in stages ==> IsContiguous(faithful, s)
    ensures Blocking(faithful, actions, Run(stages, actions))
    decreases |stages|
  {
    if stages == [] {
      BlockingReflexive(faithful, actions);
    } else {
      var stage := stages[0];
      assert stage in stages;
      var next := Applied(stage, actions);
      match stage {
        case Contiguous(pass) => ContiguousPasses.ScanIsBlocking(faithful, pass, actions, 0);
        case Gathers(isPaste) =>
          FilterRules.GatheredIsBlocking(isPaste, actions);
          BlockingUnfaithful(actions, next, faithful);
        case Patterns(matcher, patterns) => PatternLibrary.PatternsAreBlocking(faithful, matcher, patterns, actions);
      }
      ContiguousChainIsBlocking(faithful, stages[1..], next);
      BlockingTransitive(faithful, actions, next, Run(stages, actions));
    }
  }

  lemma BlockingUnfaithful(a: seq<Action>, b: seq<Action>, faithful: bool)
    requires Blocking(true, a, b)
    ensures Blocking(faithful, a, b)
  {
    var cuts: seq<nat> :| BlockingBy(true, a, 0, b, cuts);
    forall k | 0 <= k < |b| ensures SpansBlock(faithful, a, cuts[k], cuts[k + 1], b[k]) {
      assert SpansBlock(true, a, cuts[k], cuts[k + 1], b[k]);
    }
    assert BlockingBy(faithful, a, 0, b, cuts);
  }

  lemma ContiguousChainKeepsSortedDisjoint(stages: seq<Stage>, actions: seq<Action>)
    requires AllTerminating(stages) && forall s :: s in stages ==> IsContiguous(false, s)
    requires SortedDisjoint(actions)
    ensures SortedDisjoint(Run(stages, actions))
  {
    ContiguousChainIsBlocking(false, stages, actions);
    BlockingKeepsSortedDisjoint(false, actions, Run(stages, actions));
  }
}
