/**
  The passes that merge runs of neighbouring actions: idempotent merge, window management, batch
  moves, grouping and file-system patterns. Each scans with a run end and replaces runs in place.
 */
module ContiguousPasses {
  import opened Subsequences
  import opened Actions

  // ---------- Runs ----------

  datatype RunKind = SameOperation | SameWindow | SameDestination | SameGroup | IntoFolder | Deletions

  const IDEMPOTENT_TYPES := {UI_SCROLL, UI_SHORTCUT, FILE_MODIFY}
  const MAX_GAP := 2
  const WINDOW := Path(Empty, -1, NO_EXT, false) // the word "window"
  const WINDOW_ACTIONS := {UI_MOVE, UI_RESIZE}
  const MERGEABLE := {FILE_MODIFY, FILE_CREATE, FILE_RENAME, FILE_MOVE, CLIPBOARD_COPY}

  function WindowTarget(a: Action): Text {
    FirstText(a, K_TARGET, K_TARGET_LABEL)
  }

  function DestDir(a: Action): Text {
    Dirname(GetText(a, K_DESTINATION))
  }

  function PathOf(a: Action): Text {
    if FirstText(a, K_PATH, K_TARGET) != Empty then FirstText(a, K_PATH, K_TARGET) else GetText(a, K_DESTINATION)
  }

  function SourceOf(a: Action): Text {
    if GetText(a, K_SOURCE) != Empty then GetText(a, K_SOURCE) else PathOf(a)
  }

  /** The path of an action is its path parameter, else its target, else its destination. */
  lemma PathMeans(a: Action)
    ensures var path, target := GetText(a, K_PATH), GetText(a, K_TARGET);
            && (path != Empty ==> PathOf(a) == path) && (path == Empty && target != Empty ==> PathOf(a) == target)
            && (path == target == Empty ==> PathOf(a) == GetText(a, K_DESTINATION))
  {
  }

  function Distance(a: int, b: int): int {
    if a <= b then b - a else a - b
  }

  /** Whether `curr` continues the run that `base` opened and `prev` was the last of. */
  predicate Joins(kind: RunKind, base: Action, prev: Action, curr: Action) {
    match kind
    case SameOperation =>
      && curr.name == base.name
      && (GetText(base, K_TARGET) != Empty && GetText(curr, K_TARGET) != Empty ==> GetText(base, K_TARGET) == GetText(curr, K_TARGET))
      && Distance(prev.end, curr.start) <= MAX_GAP
    case SameWindow =>
      curr.name in WINDOW_ACTIONS && (WindowTarget(base) != Empty ==> WindowTarget(curr) == WindowTarget(base))
    case SameDestination =>
      DestDir(base) != Empty && curr.name == FILE_MOVE && DestDir(curr) == DestDir(base)
    case SameGroup =>
      if base.name == UI_TYPE
      then curr.name == UI_TYPE && GetText(curr, K_APP_BUNDLE_ID) == GetText(base, K_APP_BUNDLE_ID)
      else curr.name == base.name && base.name in MERGEABLE
    case IntoFolder =>
      curr.name == FILE_MOVE && IsBelow(PathOf(curr), PathOf(base))
    case Deletions =>
      curr.name == FILE_DELETE
  }

  predicate JoinsAt(kind: RunKind, actions: seq<Action>, start: nat, k: nat)
    requires start < k
  {
    k < |actions| && Joins(kind, actions[start], actions[k - 1], actions[k])
  }

  /** The end of the longest run that starts at `start`, given that it reaches `e`. */
  function RunEnd(kind: RunKind, actions: seq<Action>, start: nat, e: nat): (end: nat)
    requires start < e <= |actions|
    ensures e <= end <= |actions|
    decreases |actions| - e
  {
    if JoinsAt(kind, actions, start, e) then RunEnd(kind, actions, start, e + 1) else e
  }

  /** The run holds only actions that join it, and no action behind it does. */
  lemma {:induction false} RunEndSpec(kind: RunKind, actions: seq<Action>, start: nat, e: nat)
    requires start < e <= |actions|
    ensures forall k :: e <= k < RunEnd(kind, actions, start, e) ==> JoinsAt(kind, actions, start, k)
    ensures !JoinsAt(kind, actions, start, RunEnd(kind, actions, start, e))
    decreases |actions| - e
  {
    if JoinsAt(kind, actions, start, e) {
      RunEndSpec(kind, actions, start, e + 1);
    }
  }

  method FindRunEnd(kind: RunKind, actions: seq<Action>, start: nat) returns (end: nat)
    requires start < |actions|
    ensures end == RunEnd(kind, actions, start, start + 1)
  {
    end := start + 1;
    while end < |actions|
      invariant start < end <= |actions|
      invariant RunEnd(kind, actions, start, start + 1) == RunEnd(kind, actions, start, end)
    {
      if !JoinsAt(kind, actions, start, end) {
        break;
      }
      end := end + 1;
    }
  }

  /** What it takes to continue each kind of run. */
  lemma JoinsMeans(kind: RunKind, actions: seq<Action>, start: nat, k: nat)
    requires start < k < |actions|
    ensures var first, prev, a := actions[start], actions[k - 1], actions[k];
            JoinsAt(kind, actions, start, k) <==>
              match kind
              case SameOperation =>
                && a.name == first.name && -2 <= a.start - prev.end <= 2
                && (GetText(a, K_TARGET) == GetText(first, K_TARGET) || Empty in {GetText(a, K_TARGET), GetText(first, K_TARGET)})
              case SameWindow =>
                && (a.name == UI_MOVE || a.name == UI_RESIZE)
                && FirstText(first, K_TARGET, K_TARGET_LABEL) in {Empty, FirstText(a, K_TARGET, K_TARGET_LABEL)}
              case SameDestination =>
                && a.name == FILE_MOVE && Dirname(GetText(first, K_DESTINATION)) != Empty
                && Dirname(GetText(a, K_DESTINATION)) == Dirname(GetText(first, K_DESTINATION))
              case SameGroup =>
                && a.name == first.name && a.name in {UI_TYPE, FILE_MODIFY, FILE_CREATE, FILE_RENAME, FILE_MOVE, CLIPBOARD_COPY}
                && (a.name == UI_TYPE ==> GetText(a, K_APP_BUNDLE_ID) == GetText(first, K_APP_BUNDLE_ID))
              case IntoFolder => a.name == FILE_MOVE && IsBelow(PathOf(a), PathOf(first))
              case Deletions => a.name == FILE_DELETE
  {
  }

  // ---------- File-system patterns ----------

  datatype FsPattern = Organizing | Deleting | Renaming | Creating

  predicate LooksLikeDirectory(path: Text) {
    path != Empty && !path.dotted
  }

  predicate IsRename(a: Action, b: Action) {
    && a.name == FILE_DELETE && b.name == FILE_CREATE
    && PathOf(a) != Empty && PathOf(b) != Empty
    && Dirname(PathOf(a)) == Dirname(PathOf(b))
    && Extension(PathOf(a)) == Extension(PathOf(b))
    && Basename(PathOf(a)) != Basename(PathOf(b))
  }

  predicate IsCreateDocument(a: Action, b: Action) {
    && a.name == FILE_CREATE && b.name == FILE_MODIFY
    && PathOf(a) != Empty && PathOf(a) == PathOf(b) && !LooksLikeDirectory(PathOf(a))
  }

  predicate IsFolderCreation(a: Action) {
    a.name == FILE_CREATE && PathOf(a) != Empty && LooksLikeDirectory(PathOf(a))
  }

  /** The first matcher, in priority order, that accepts at `i`, with the end of what it consumes. */
  function FsMatch(actions: seq<Action>, i: nat): (found: Option<(FsPattern, nat)>)
    requires i < |actions|
    ensures found.Some? ==> i + 2 <= found.value.1 <= |actions|
  {
    if IsFolderCreation(actions[i]) && RunEnd(IntoFolder, actions, i, i + 1) - i >= 3 then
      Some((Organizing, RunEnd(IntoFolder, actions, i, i + 1)))
    else if actions[i].name == FILE_DELETE && RunEnd(Deletions, actions, i, i + 1) - i >= 2 then
      Some((Deleting, RunEnd(Deletions, actions, i, i + 1)))
    else if i + 1 < |actions| && IsRename(actions[i], actions[i + 1]) then Some((Renaming, i + 2))
    else if i + 1 < |actions| && IsCreateDocument(actions[i], actions[i + 1]) then Some((Creating, i + 2))
    else None
  }

  // ---------- Passes ----------

  datatype Pass = Idempotent | Windows(minRun: int) | BatchMoves(minBatch: int) | Groups | FsPatterns

  /** Where the block that the scan handles at `i` ends. */
  function BlockEnd(p: Pass, actions: seq<Action>, i: nat): (end: nat)
    requires i < |actions|
    ensures i < end <= |actions|
  {
    match p
    case Idempotent =>
      if actions[i].name in IDEMPOTENT_TYPES then RunEnd(SameOperation, actions, i, i + 1) else i + 1
    case Windows(_) =>
      if actions[i].name in WINDOW_ACTIONS then RunEnd(SameWindow, actions, i, i + 1) else i + 1
    case BatchMoves(minBatch) =>
      var end := RunEnd(SameDestination, actions, i, i + 1);
      if actions[i].name == FILE_MOVE && end - i >= minBatch then end else i + 1
    case Groups => RunEnd(SameGroup, actions, i, i + 1)
    case FsPatterns =>
      var found := FsMatch(actions, i);
      if found.Some? then found.value.1 else i + 1
  }

  /** Whether the block is replaced by one action; otherwise it is passed through. */
  predicate IsMerged(p: Pass, actions: seq<Action>, i: nat)
    requires i < |actions|
  {
    var length := BlockEnd(p, actions, i) - i;
    match p
    case Idempotent => length > 1
    case Windows(minRun) => actions[i].name in WINDOW_ACTIONS && length >= minRun
    case BatchMoves(minBatch) => actions[i].name == FILE_MOVE && length >= minBatch
    case Groups => length > 1
    case FsPatterns => FsMatch(actions, i).Some?
  }

  /** The characters typed by a block of key events. */
  function Typed(block: seq<Action>): seq<Text> {
    if block == [] then []
    else Typed(Init(block)) + if GetText(Last(block), K_CHARACTER) == Empty then [] else [GetText(Last(block), K_CHARACTER)]
  }

  function EachText(block: seq<Action>, key: Key): seq<Text> {
    seq(|block|, k requires 0 <= k < |block| => GetText(block[k], key))
  }

  /** `batch_` and the verb of a mergeable name. */
  function BatchName(name: Name): Name {
    if name == FILE_MODIFY then BATCH_MODIFY
    else if name == FILE_CREATE then BATCH_CREATE
    else if name == FILE_RENAME then BATCH_RENAME
    else if name == FILE_MOVE then BATCH_MOVE
    else BATCH_COPY
  }

  function FsParams(pattern: FsPattern, block: seq<Action>): Params
    requires |block| >= 2
  {
    match pattern
    case Organizing =>
      map[K_FOLDER := One(PathOf(block[0])), K_FOLDER_NAME := One(Basename(PathOf(block[0]))),
          K_FILES := Many(seq(|block| - 1, k requires 0 <= k < |block| - 1 => SourceOf(block[k + 1]))),
          K_FILE_COUNT := Number(|block| - 1)]
    case Deleting =>
      map[K_FILES := Many(seq(|block|, k requires 0 <= k < |block| => PathOf(block[k]))), K_FILE_COUNT := Number(|block|)]
    case Renaming =>
      map[K_SOURCE := One(PathOf(block[0])), K_DESTINATION := One(PathOf(block[1])),
          K_DIRECTORY := One(Dirname(PathOf(block[0]))), K_EXTENSION := Number(Extension(PathOf(block[0])))]
    case Creating =>
      map[K_PATH := One(PathOf(block[0])), K_FILENAME := One(Basename(PathOf(block[0]))),
          K_DIRECTORY := One(Dirname(PathOf(block[0]))), K_EXTENSION := Number(Extension(PathOf(block[0])))]
  }

  function FsName(pattern: FsPattern): Name {
    match pattern
    case Organizing => ORGANIZE_FILES
    case Deleting => BATCH_DELETE
    case Renaming => RENAME_FILE
    case Creating => CREATE_DOCUMENT
  }

  function TypeParams(block: seq<Action>): Params
    requires block != []
  {
    map[K_APP_BUNDLE_ID := One(GetText(block[0], K_APP_BUNDLE_ID)), K_KEYSTROKE_COUNT := Number(|block|)]
    + if Typed(block) != [] then map[K_TEXT_CONTENT := Many(Typed(block))] else map[]
  }

  /** The action that replaces the merged block at `i`. */
  function Merge(p: Pass, actions: seq<Action>, i: nat): (a: Action)
    requires i < |actions| && IsMerged(p, actions, i)
    ensures a.start == actions[i].start && a.end == actions[BlockEnd(p, actions, i) - 1].end
  {
    var block := actions[i..BlockEnd(p, actions, i)];
    match p
    case Idempotent =>
      Merging(block, Last(block).name, Last(block).params[K_MERGED_COUNT := Number(|block|)], Last(block).confidence)
    case Windows(_) =>
      var resized := exists k :: 0 <= k < |block| && block[k].name == UI_RESIZE;
      Merging(block, if resized then WINDOW_ARRANGE else WINDOW_MOVE,
              map[K_TARGET := One(if WindowTarget(block[0]) != Empty then WindowTarget(block[0]) else WINDOW),
                  K_EVENT_COUNT := Number(|block|), K_HAS_RESIZE := Flag(resized),
                  K_APP_BUNDLE_ID := One(GetText(block[0], K_APP_BUNDLE_ID))], 0.8)
    case BatchMoves(_) =>
      Merging(block, BATCH_MOVE,
              map[K_TARGET_DIR := One(DestDir(block[0])), K_SOURCES := Many(EachText(block, K_SOURCE)),
                  K_DESTINATIONS := Many(EachText(block, K_DESTINATION)), K_COUNT := Number(|block|),
                  K_FIRST_FILE := One(GetText(block[0], K_SOURCE)), K_PATH := One(DestDir(block[0]))],
              LeastConfidence(block))
    case Groups =>
      if block[0].name == UI_TYPE then Merging(block, TYPE_TEXT, TypeParams(block), 1.0)
      else Merging(block, BatchName(block[0].name), block[0].params[K_COUNT := Number(|block|)],
                   LeastConfidence(block))
    case FsPatterns =>
      var pattern := FsMatch(actions, i).value.0;
      Merging(block, FsName(pattern), AllParams(block) + FsParams(pattern, block), 0.85)
  }

  function Emit(p: Pass, actions: seq<Action>, i: nat): seq<Action>
    requires i < |actions|
  {
    if IsMerged(p, actions, i) then [Merge(p, actions, i)] else actions[i..BlockEnd(p, actions, i)]
  }

  /** What the scan returns from position `i` on. */
  function Scan(p: Pass, actions: seq<Action>, i: nat): seq<Action>
    requires i <= |actions|
    decreases |actions| - i
  {
    if i == |actions| then [] else Emit(p, actions, i) + Scan(p, actions, BlockEnd(p, actions, i))
  }

  predicate MergesPairsAtLeast(p: Pass) {
    (p.Windows? ==> p.minRun >= 2) && (p.BatchMoves? ==> p.minBatch >= 2)
  }

  /** What is emitted for one block extends a blocking of the rest of the input. */
  lemma EmitIsBlocking(faithful: bool, p: Pass, actions: seq<Action>, i: nat, rest: seq<Action>)
    requires i < |actions| && (faithful ==> MergesPairsAtLeast(p))
    requires BlockingFrom(faithful, actions, BlockEnd(p, actions, i), rest)
    ensures BlockingFrom(faithful, actions, i, Emit(p, actions, i) + rest)
  {
    if IsMerged(p, actions, i) {
      BlockingCons(faithful, actions, i, BlockEnd(p, actions, i), Merge(p, actions, i), rest);
    } else {
      BlockingKeep(faithful, actions, i, BlockEnd(p, actions, i), rest);
    }
  }

  /** Every pass cuts its input into consecutive blocks; with runs of two or more it leaves single actions unchanged. */
  lemma {:induction false} ScanIsBlocking(faithful: bool, p: Pass, actions: seq<Action>, i: nat)
    requires i <= |actions| && (faithful ==> MergesPairsAtLeast(p))
    ensures BlockingFrom(faithful, actions, i, Scan(p, actions, i))
    decreases |actions| - i
  {
    if i == |actions| {
      BlockingEmpty(faithful, actions);
    } else {
      var e := BlockEnd(p, actions, i);
      ScanIsBlocking(faithful, p, actions, e);
      EmitIsBlocking(faithful, p, actions, i, Scan(p, actions, e));
    }
  }

  lemma ScanIsDerived(p: Pass, actions: seq<Action>)
    ensures Derived(actions, Scan(p, actions, 0))
  {
    ScanIsBlocking(false, p, actions, 0);
    BlockingIsDerived(false, actions, Scan(p, actions, 0));
  }

  predicate TooShort(p: Pass, actions: seq<Action>) {
    match p
    case Windows(minRun) => |actions| < minRun
    case BatchMoves(minBatch) => |actions| < minBatch
    case _ => |actions| <= 1
  }

  lemma TooShortEmit(p: Pass, actions: seq<Action>, i: nat)
    requires i < |actions| && TooShort(p, actions)
    ensures Emit(p, actions, i) == actions[i..BlockEnd(p, actions, i)]
  {
    assert BlockEnd(p, actions, i) - i <= |actions|;
  }

  lemma SlicesJoin<T>(s: seq<T>, i: nat, e: nat)
    requires i <= e <= |s|
    ensures s[i..e] + s[e..] == s[i..]
  {
  }

  /** A list shorter than the least run is passed through. */
  lemma {:induction false} TooShortToMerge(p: Pass, actions: seq<Action>, i: nat)
    requires i <= |actions| && TooShort(p, actions)
    ensures Scan(p, actions, i) == actions[i..]
    decreases |actions| - i
  {
    if i < |actions| {
      var e := BlockEnd(p, actions, i);
      TooShortEmit(p, actions, i);
      TooShortToMerge(p, actions, e);
      SlicesJoin(actions, i, e);
    }
  }

  lemma ScanMerged(p: Pass, actions: seq<Action>, i: nat, result: seq<Action>)
    requires i < |actions| && IsMerged(p, actions, i)
    ensures result + Scan(p, actions, i) == result + [Merge(p, actions, i)] + Scan(p, actions, BlockEnd(p, actions, i))
  {
  }

  lemma ScanPassed(p: Pass, actions: seq<Action>, i: nat, result: seq<Action>)
    requires i < |actions| && !IsMerged(p, actions, i)
    ensures var e := BlockEnd(p, actions, i);
            result + Scan(p, actions, i) == result + actions[i..e] + Scan(p, actions, e)
  {
  }

  lemma ScanKept(p: Pass, actions: seq<Action>, i: nat, result: seq<Action>)
    requires i < |actions| && !IsMerged(p, actions, i) && BlockEnd(p, actions, i) == i + 1
    ensures result + Scan(p, actions, i) == result + [actions[i]] + Scan(p, actions, i + 1)
  {
    ScanPassed(p, actions, i, result);
    assert actions[i..i + 1] == [actions[i]];
  }

  // ---------- What merged actions say ----------

  /** The count, the name and the confidence of what replaces a block, pass by pass. */
  lemma MergedSays(p: Pass, actions: seq<Action>, i: nat)
    requires i < |actions| && IsMerged(p, actions, i)
    ensures var a, e := Merge(p, actions, i), BlockEnd(p, actions, i);
            var n, last := e - i, actions[e - 1];
            match p
            case Idempotent =>
              && a.name == last.name && a.confidence == last.confidence && a.params == last.params[K_MERGED_COUNT := Number(n)]
            case Windows(_) =>
              && K_EVENT_COUNT in a.params && a.params[K_EVENT_COUNT] == Number(n)
              && (a.name == WINDOW_ARRANGE <==> exists k :: i <= k < e && actions[k].name == UI_RESIZE)
              && (a.name == WINDOW_ARRANGE || a.name == WINDOW_MOVE)
            case BatchMoves(_) =>
              && K_COUNT in a.params && a.params[K_COUNT] == Number(n) && a.name == BATCH_MOVE
              && GetText(a, K_TARGET_DIR) == DestDir(actions[i]) && a.confidence == LeastConfidence(actions[i..e])
            case Groups =>
              if actions[i].name == UI_TYPE then
                a.name == TYPE_TEXT && K_KEYSTROKE_COUNT in a.params && a.params[K_KEYSTROKE_COUNT] == Number(n)
              else
                a.params == actions[i].params[K_COUNT := Number(n)] && a.confidence == LeastConfidence(actions[i..e])
            case FsPatterns => true
  {
    if p.Windows? {
      var e := BlockEnd(p, actions, i);
      var block := actions[i..e];
      assert forall k :: 0 <= k < |block| ==> block[k] == actions[i + k];
      assert (exists k :: i <= k < e && actions[k].name == UI_RESIZE)
             <==> exists k :: 0 <= k < |block| && block[k].name == UI_RESIZE by {
        if k :| i <= k < e && actions[k].name == UI_RESIZE { assert block[k - i].name == UI_RESIZE; }
        if k :| 0 <= k < |block| && block[k].name == UI_RESIZE { assert actions[i + k].name == UI_RESIZE; }
      }
    }
  }

  /** A run holds at least so many actions exactly if so many join. */
  lemma {:induction false} RunReaches(kind: RunKind, actions: seq<Action>, start: nat, e: nat, to: nat)
    requires start < e <= to <= |actions|
    ensures RunEnd(kind, actions, start, e) >= to <==> forall k :: e <= k < to ==> JoinsAt(kind, actions, start, k)
    decreases |actions| - e
  {
    if e < to {
      if JoinsAt(kind, actions, start, e) {
        RunReaches(kind, actions, start, e + 1, to);
      } else {
        assert RunEnd(kind, actions, start, e) == e;
      }
    }
  }

  /** When a pass merges at a position: how many actions have to follow that continue the run. */
  lemma MergedIff(p: Pass, actions: seq<Action>, i: nat)
    requires i < |actions| && MergesPairsAtLeast(p)
    ensures match p
            case Idempotent =>
              IsMerged(p, actions, i) <==> actions[i].name in {UI_SCROLL, UI_SHORTCUT, FILE_MODIFY} && JoinsAt(SameOperation, actions, i, i + 1)
            case Windows(minRun) =>
              IsMerged(p, actions, i) <==>
                actions[i].name in {UI_MOVE, UI_RESIZE} && forall k :: i < k < i + minRun ==> JoinsAt(SameWindow, actions, i, k)
            case BatchMoves(minBatch) =>
              IsMerged(p, actions, i) <==>
                actions[i].name == FILE_MOVE && forall k :: i < k < i + minBatch ==> JoinsAt(SameDestination, actions, i, k)
            case Groups => IsMerged(p, actions, i) <==> JoinsAt(SameGroup, actions, i, i + 1)
            case FsPatterns => true
  {
    match p
    case Idempotent => ReachesIff(SameOperation, actions, i, 2);
    case Windows(minRun) => ReachesIff(SameWindow, actions, i, minRun);
    case BatchMoves(minBatch) => ReachesIff(SameDestination, actions, i, minBatch);
    case Groups => ReachesIff(SameGroup, actions, i, 2);
    case FsPatterns =>
  }

  lemma ReachesIff(kind: RunKind, actions: seq<Action>, i: nat, n: nat)
    requires i < |actions| && n >= 2
    ensures RunEnd(kind, actions, i, i + 1) - i >= n <==> forall k :: i < k < i + n ==> JoinsAt(kind, actions, i, k)
  {
    if i + n <= |actions| {
      RunReaches(kind, actions, i, i + 1, i + n);
    } else {
      assert !JoinsAt(kind, actions, i, i + n - 1);
    }
  }

  /** A folder is organized if at least two moves below it follow its creation at once. */
  lemma OrganizingIff(actions: seq<Action>, i: nat)
    requires i < |actions|
    ensures FsMatch(actions, i).Some? && FsMatch(actions, i).value.0 == Organizing
            <==> i + 2 < |actions| && IsFolderCreation(actions[i])
                 && forall k :: i < k <= i + 2 ==> actions[k].name == FILE_MOVE && IsBelow(PathOf(actions[k]), PathOf(actions[i]))
  {
    if i + 2 < |actions| {
      RunReaches(IntoFolder, actions, i, i + 1, i + 3);
      assert forall k: nat :: i < k <= i + 2 ==>
               (JoinsAt(IntoFolder, actions, i, k)
                <==> actions[k].name == FILE_MOVE && IsBelow(PathOf(actions[k]), PathOf(actions[i])));
      assert (forall k: nat :: i + 1 <= k < i + 3 ==> JoinsAt(IntoFolder, actions, i, k))
             <==> forall k: nat :: i < k <= i + 2 ==>
                    actions[k].name == FILE_MOVE && IsBelow(PathOf(actions[k]), PathOf(actions[i]));
    }
  }

  /** An organized folder is named with the file each move took into it. */
  lemma OrganizedSays(actions: seq<Action>, i: nat)
    requires i < |actions| && FsMatch(actions, i).Some? && FsMatch(actions, i).value.0 == Organizing
    ensures var a, e := Merge(FsPatterns, actions, i), BlockEnd(FsPatterns, actions, i);
            && a.name == ORGANIZE_FILES && GetText(a, K_FOLDER) == PathOf(actions[i])
            && K_FILE_COUNT in a.params && a.params[K_FILE_COUNT] == Number(e - i - 1)
            && K_FILES in a.params && a.params[K_FILES].Many? && |a.params[K_FILES].texts| == e - i - 1
            && forall k :: i < k < e ==>
                 a.params[K_FILES].texts[k - i - 1]
                 == if GetText(actions[k], K_SOURCE) == Empty then PathOf(actions[k]) else GetText(actions[k], K_SOURCE)
  {
  }

  /** Deletions are merged from two on. */
  lemma DeletingIff(actions: seq<Action>, i: nat)
    requires i < |actions|
    ensures FsMatch(actions, i).Some? && FsMatch(actions, i).value.0 == Deleting
            <==> i + 1 < |actions| && actions[i].name == FILE_DELETE && actions[i + 1].name == FILE_DELETE
  {
    if i + 1 < |actions| {
      RunReaches(Deletions, actions, i, i + 1, i + 2);
      assert JoinsAt(Deletions, actions, i, i + 1) <==> actions[i + 1].name == FILE_DELETE;
      assert (forall k: nat :: i + 1 <= k < i + 2 ==> JoinsAt(Deletions, actions, i, k)) <==> JoinsAt(Deletions, actions, i, i + 1);
    }
  }

  /** A deletion and a creation are one rename if folder and extension stay and the name changes. */
  lemma RenamingIff(actions: seq<Action>, i: nat)
    requires i < |actions|
    ensures FsMatch(actions, i).Some? && FsMatch(actions, i).value.0 == Renaming
            <==> i + 1 < |actions| && actions[i].name == FILE_DELETE && actions[i + 1].name == FILE_CREATE
                 && var from, to := PathOf(actions[i]), PathOf(actions[i + 1]);
                    from != Empty && to != Empty && Dirname(from) == Dirname(to) && Extension(from) == Extension(to)
                    && Basename(from) != Basename(to)
  {
    OrganizingIff(actions, i);
    DeletingIff(actions, i);
  }

  /** A creation and a modification of one file, not a folder, are one new document. */
  lemma CreatingIff(actions: seq<Action>, i: nat)
    requires i < |actions|
    ensures FsMatch(actions, i).Some? && FsMatch(actions, i).value.0 == Creating
            <==> i + 1 < |actions| && actions[i].name == FILE_CREATE && actions[i + 1].name == FILE_MODIFY
                 && PathOf(actions[i]) == PathOf(actions[i + 1]) != Empty && PathOf(actions[i]).dotted
  {
    OrganizingIff(actions, i);
    DeletingIff(actions, i);
  }

  // ---------- Grouping keeps what was typed ----------

  function TypedBy(a: Action): seq<Text> {
    if a.name == UI_TYPE then (if GetText(a, K_CHARACTER) == Empty then [] else [GetText(a, K_CHARACTER)])
    else if a.name == TYPE_TEXT && K_TEXT_CONTENT in a.params && a.params[K_TEXT_CONTENT].Many? then a.params[K_TEXT_CONTENT].texts
    else []
  }

  function TypedByAll(actions: seq<Action>): seq<Text> {
    if actions == [] then [] else TypedBy(actions[0]) + TypedByAll(actions[1..])
  }

  lemma {:induction false} TypedConcat(a: seq<Action>, b: seq<Action>)
    ensures TypedByAll(a + b) == TypedByAll(a) + TypedByAll(b)
  {
    if a == [] {
      assert a + b == b;
    } else {
      TypedConcat(a[1..], b);
      assert (a + b)[1..] == a[1..] + b;
      Regroup(TypedBy(a[0]), TypedByAll(a[1..]), TypedByAll(b));
    }
  }

  lemma TypedByOne(a: Action)
    ensures TypedByAll([a]) == TypedBy(a)
  {
    assert [a][1..] == [] && TypedByAll([]) == [];
  }

  lemma {:induction false} TypedIsTypedByAll(block: seq<Action>)
    requires forall k :: 0 <= k < |block| ==> block[k].name == UI_TYPE
    ensures Typed(block) == TypedByAll(block)
  {
    if block != [] {
      assert forall k :: 0 <= k < |block| - 1 ==> Init(block)[k] == block[k];
      TypedIsTypedByAll(Init(block));
      assert block == Init(block) + [Last(block)];
      TypedConcat(Init(block), [Last(block)]);
      TypedByOne(Last(block));
    }
  }

  lemma {:induction false} NothingTyped(block: seq<Action>)
    requires forall k :: 0 <= k < |block| ==> block[k].name !in {UI_TYPE, TYPE_TEXT}
    ensures TypedByAll(block) == []
  {
    if block != [] { NothingTyped(block[1..]); }
  }

  lemma GroupHasOneName(actions: seq<Action>, i: nat, e: nat)
    requires i < |actions| && e == RunEnd(SameGroup, actions, i, i + 1)
    ensures forall k :: 0 <= k < e - i ==> actions[i..e][k].name == actions[i].name
  {
    RunEndSpec(SameGroup, actions, i, i + 1);
    forall k | 0 <= k < e - i ensures actions[i..e][k].name == actions[i].name {
      if k > 0 { assert JoinsAt(SameGroup, actions, i, i + k); }
    }
  }

  lemma GroupIsMergeable(actions: seq<Action>, i: nat)
    requires i < |actions| && IsMerged(Groups, actions, i)
    ensures actions[i].name in MERGEABLE + {UI_TYPE}
  {
    assert JoinsAt(SameGroup, actions, i, i + 1);
  }

  lemma TypeGroupSays(actions: seq<Action>, i: nat)
    requires i < |actions| && IsMerged(Groups, actions, i) && actions[i].name == UI_TYPE
    ensures TypedBy(Merge(Groups, actions, i)) == Typed(actions[i..BlockEnd(Groups, actions, i)])
  {
  }

  lemma OtherGroupSays(actions: seq<Action>, i: nat)
    requires i < |actions| && IsMerged(Groups, actions, i) && actions[i].name != UI_TYPE
    ensures TypedBy(Merge(Groups, actions, i)) == []
  {
    assert BatchName(actions[i].name) !in {UI_TYPE, TYPE_TEXT};
  }

  lemma GroupKeepsTyped(actions: seq<Action>, i: nat)
    requires i < |actions| && IsMerged(Groups, actions, i)
    ensures TypedBy(Merge(Groups, actions, i)) == TypedByAll(actions[i..BlockEnd(Groups, actions, i)])
  {
    var block := actions[i..BlockEnd(Groups, actions, i)];
    GroupHasOneName(actions, i, BlockEnd(Groups, actions, i));
    if actions[i].name == UI_TYPE {
      TypedIsTypedByAll(block);
      TypeGroupSays(actions, i);
    } else {
      GroupIsMergeable(actions, i);
      NothingTyped(block);
      OtherGroupSays(actions, i);
    }
  }

  /** Grouping loses no typed character and keeps their order. */
  lemma {:induction false} GroupingKeepsTyped(actions: seq<Action>, i: nat)
    requires i <= |actions|
    ensures TypedByAll(Scan(Groups, actions, i)) == TypedByAll(actions[i..])
    decreases |actions| - i
  {
    if i < |actions| {
      var e := BlockEnd(Groups, actions, i);
      var made, block := Emit(Groups, actions, i), actions[i..e];
      if IsMerged(Groups, actions, i) {
        GroupKeepsTyped(actions, i);
        TypedByOne(Merge(Groups, actions, i));
      }
      assert TypedByAll(made) == TypedByAll(block);
      SlicesJoin(actions, i, e);
      GroupingKeepsTyped(actions, e);
      TypedConcat(made, Scan(Groups, actions, e));
      TypedConcat(block, actions[e..]);
    }
  }

  // ---------- The loops ----------

  method IdempotentMerge(actions: seq<Action>) returns (result: seq<Action>)
    ensures result == Scan(Idempotent, actions, 0)
  {
    if |actions| <= 1 {
      TooShortToMerge(Idempotent, actions, 0);
      return actions;
    }
    result := [];
    var i := 0;
    while i < |actions|
      invariant 0 <= i <= |actions|
      invariant Scan(Idempotent, actions, 0) == result + Scan(Idempotent, actions, i)
    {
      var runEnd := i + 1;
      if actions[i].name in IDEMPOTENT_TYPES {
        runEnd := FindRunEnd(SameOperation, actions, i);
      }
      if runEnd > i + 1 {
        ScanMerged(Idempotent, actions, i, result);
        result := result + [Merge(Idempotent, actions, i)];
        i := runEnd;
      } else {
        ScanKept(Idempotent, actions, i, result);
        result := result + [actions[i]];
        i := i + 1;
      }
    }
  }

  method AppendAll(result: seq<Action>, actions: seq<Action>, i: nat, e: nat) returns (longer: seq<Action>)
    requires i <= e <= |actions|
    ensures longer == result + actions[i..e]
  {
    longer := result;
    for j := i to e
      invariant longer == result + actions[i..j]
    {
      longer := longer + [actions[j]];
    }
  }

  method WindowManagement(actions: seq<Action>, minRun: int) returns (result: seq<Action>)
    ensures result == Scan(Windows(minRun), actions, 0)
  {
    if |actions| < minRun {
      TooShortToMerge(Windows(minRun), actions, 0);
      return actions;
    }
    result := [];
    var i := 0;
    while i < |actions|
      invariant 0 <= i <= |actions|
      invariant Scan(Windows(minRun), actions, 0) == result + Scan(Windows(minRun), actions, i)
    {
      if actions[i].name !in WINDOW_ACTIONS {
        ScanKept(Windows(minRun), actions, i, result);
        result := result + [actions[i]];
        i := i + 1;
        continue;
      }
      var runEnd := FindRunEnd(SameWindow, actions, i);
      assert BlockEnd(Windows(minRun), actions, i) == runEnd;
      assert IsMerged(Windows(minRun), actions, i) <==> runEnd - i >= minRun;
      if runEnd - i >= minRun {
        ScanMerged(Windows(minRun), actions, i, result);
        result := result + [Merge(Windows(minRun), actions, i)];
      } else {
        ScanPassed(Windows(minRun), actions, i, result);
        result := AppendAll(result, actions, i, runEnd);
      }
      i := runEnd;
    }
  }

  method BatchMoveLoop(actions: seq<Action>, minBatch: int) returns (result: seq<Action>)
    ensures result == Scan(BatchMoves(minBatch), actions, 0)
  {
    if |actions| < minBatch {
      TooShortToMerge(BatchMoves(minBatch), actions, 0);
      return actions;
    }
    var p := BatchMoves(minBatch);
    result := [];
    var i := 0;
    while i < |actions|
      invariant 0 <= i <= |actions|
      invariant Scan(p, actions, 0) == result + Scan(p, actions, i)
    {
      if actions[i].name == FILE_MOVE {
        var batchEnd := FindRunEnd(SameDestination, actions, i);
        if batchEnd - i >= minBatch {
          assert IsMerged(p, actions, i) && BlockEnd(p, actions, i) == batchEnd;
          ScanMerged(p, actions, i, result);
          result := result + [Merge(p, actions, i)];
          i := batchEnd;
          continue;
        }
      }
      assert !IsMerged(p, actions, i) && BlockEnd(p, actions, i) == i + 1;
      ScanKept(p, actions, i, result);
      result := result + [actions[i]];
      i := i + 1;
    }
  }

  method Grouping(actions: seq<Action>) returns (result: seq<Action>)
    ensures result == Scan(Groups, actions, 0)
  {
    if |actions| <= 1 {
      TooShortToMerge(Groups, actions, 0);
      return actions;
    }
    result := [];
    var i := 0;
    while i < |actions|
      invariant 0 <= i <= |actions|
      invariant Scan(Groups, actions, 0) == result + Scan(Groups, actions, i)
    {
      var groupEnd := FindRunEnd(SameGroup, actions, i);
      if groupEnd > i + 1 {
        ScanMerged(Groups, actions, i, result);
        result := result + [Merge(Groups, actions, i)];
        i := groupEnd;
      } else {
        ScanKept(Groups, actions, i, result);
        result := result + [actions[i]];
        i := i + 1;
      }
    }
  }

  method FileSystemPatterns(actions: seq<Action>) returns (result: seq<Action>)
    ensures result == Scan(FsPatterns, actions, 0)
  {
    result := [];
    var i := 0;
    while i < |actions|
      invariant 0 <= i <= |actions|
      invariant Scan(FsPatterns, actions, 0) == result + Scan(FsPatterns, actions, i)
    {
      var found := FsMatch(actions, i);
      if found.None? {
        ScanKept(FsPatterns, actions, i, result);
        result := result + [actions[i]];
        i := i + 1;
        continue;
      }
      ScanMerged(FsPatterns, actions, i, result);
      result := result + [Merge(FsPatterns, actions, i)];
      i := found.value.1;
    }
  }
}
