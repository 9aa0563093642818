/**
  What actions do to a set of files, and the passes that keep it: what the pairing rules make of two
  events, merged moves, and the file-system patterns.
 */
module FileEffects {
  import opened Subsequences
  import opened Actions
  import opened PairPlans
  import PairingRules
  import ContiguousPasses
  import FilterRules

  function Add(files: set<Text>, path: Text): set<Text> {
    if path == Empty then files else files + {path}
  }

  function Move(files: set<Text>, source: Text, dest: Text): set<Text> {
    if dest == Empty then files else (files - {source}) + {dest}
  }

  function MoveAll(files: set<Text>, sources: seq<Text>, dests: seq<Text>): set<Text>
    requires |sources| == |dests|
    decreases |sources|
  {
    if sources == [] then files else MoveAll(Move(files, sources[0], dests[0]), sources[1..], dests[1..])
  }

  function DeleteAll(files: set<Text>, paths: seq<Text>): set<Text>
    decreases |paths|
  {
    if paths == [] then files else DeleteAll(files - {paths[0]}, paths[1..])
  }

  function Texts(a: Action, key: Key): seq<Text> {
    if key in a.params && a.params[key].Many? then a.params[key].texts else []
  }

  /** The files after the action. */
  function Replay(files: set<Text>, a: Action): set<Text> {
    if a.name == FILE_CREATE then Add(files, ContiguousPasses.PathOf(a))
    else if a.name == FILE_DELETE then files - {ContiguousPasses.PathOf(a)}
    else if a.name == FILE_RENAME || a.name == FILE_MOVE || a.name == RENAME_FILE then
      Move(files, GetText(a, K_SOURCE), GetText(a, K_DESTINATION))
    else if a.name == BATCH_MOVE && |Texts(a, K_SOURCES)| == |Texts(a, K_DESTINATIONS)| then
      MoveAll(files, Texts(a, K_SOURCES), Texts(a, K_DESTINATIONS))
    else if a.name == BATCH_DELETE then DeleteAll(files, Texts(a, K_FILES))
    else if a.name == CREATE_DOCUMENT || a.name == DOWNLOAD_FILE then Add(files, GetText(a, K_PATH))
    else files
  }

  function ReplayAll(files: set<Text>, actions: seq<Action>): set<Text>
    decreases |actions|
  {
    if actions == [] then files else ReplayAll(Replay(files, actions[0]), actions[1..])
  }

  lemma {:induction false} ReplayConcat(files: set<Text>, a: seq<Action>, b: seq<Action>)
    ensures ReplayAll(files, a + b) == ReplayAll(ReplayAll(files, a), b)
    decreases |a|
  {
    if a == [] {
      assert a + b == b;
    } else {
      assert (a + b)[1..] == a[1..] + b;
      ReplayConcat(Replay(files, a[0]), a[1..], b);
    }
  }

  lemma ReplayOne(files: set<Text>, a: Action)
    ensures ReplayAll(files, [a]) == Replay(files, a)
  {
    assert [a][1..] == [];
    assert ReplayAll(Replay(files, a), []) == Replay(files, a);
  }

  // ---------- Pairing ----------

  /** What is made of two events takes the file from the first event's path to the second's. */
  lemma PairMovesTheFile(rule: PairingRules.PairRule, a: Action, b: Action, files: set<Text>)
    requires PairingRules.EventPath(b) != Empty
    ensures var made := PairingRules.Synthesize(rule, a, b);
            && Replay(files, made) == (files - {PairingRules.EventPath(a)}) + {PairingRules.EventPath(b)}
            && PairingRules.EventPath(made) == PairingRules.EventPath(b)
            && made.name == if rule.RenamePairs? && Dirname(PairingRules.EventPath(a)) == Dirname(PairingRules.EventPath(b))
                            then FILE_RENAME else FILE_MOVE
  {
  }

  lemma {:induction false} RenderedAt(rule: PairingRules.PairRule, actions: seq<Action>, plan: seq<Slot>, k: nat)
    requires PairingRules.InBounds(actions, plan) && k < |plan|
    ensures plan[k].first < |actions| && (plan[k].Join? ==> plan[k].second < |actions|)
    ensures PairingRules.Rendered(rule, actions, plan)[k] == PairingRules.Render(rule, actions, plan[k])
  {
    assert plan[k] in plan;
    if k > 0 {
      assert forall s :: s in plan[1..] ==> s in plan;
      RenderedAt(rule, actions, plan[1..], k - 1);
    }
  }

  /**
    Every output of a pairing rule is an input it kept, or takes the file from the path of the pair's
    first event to that of its second, as a rename exactly if the rename rule finds the folder unchanged.
   */
  lemma PairedOutput(rule: PairingRules.PairRule, actions: seq<Action>, k: nat, files: set<Text>)
    requires k < |PairingRules.PlanOf(rule, actions)|
    ensures var plan, result := PairingRules.PlanOf(rule, actions), PairingRules.Paired(rule, actions, 0, {});
            && |result| == |plan| && plan[k].first < |actions|
            && match plan[k]
               case Keep(i) => result[k] == actions[i]
               case Join(i, j) =>
                 j < |actions| &&
                 var from, to := PairingRules.EventPath(actions[i]), PairingRules.EventPath(actions[j]);
                 && (to != Empty ==> Replay(files, result[k]) == (files - {from}) + {to})
                 && result[k].name == if rule.RenamePairs? && Dirname(from) == Dirname(to) then FILE_RENAME else FILE_MOVE
  {
    var plan := PairingRules.PlanOf(rule, actions);
    PairingRules.PairsUseEachEventOnce(rule, actions);
    RenderedAt(rule, actions, plan, k);
    if plan[k].Join? && PairingRules.EventPath(actions[plan[k].second]) != Empty {
      PairMovesTheFile(rule, actions[plan[k].first], actions[plan[k].second], files);
    }
  }

  // ---------- Merged moves ----------

  ghost predicate AllMoves(block: seq<Action>) {
    forall k :: 0 <= k < |block| ==> block[k].name == FILE_MOVE
  }

  lemma {:induction false} MovesReplay(files: set<Text>, block: seq<Action>)
    requires AllMoves(block)
    ensures ReplayAll(files, block)
            == MoveAll(files, ContiguousPasses.EachText(block, K_SOURCE), ContiguousPasses.EachText(block, K_DESTINATION))
    decreases |block|
  {
    if block != [] {
      assert ContiguousPasses.EachText(block, K_SOURCE)[1..] == ContiguousPasses.EachText(block[1..], K_SOURCE);
      assert ContiguousPasses.EachText(block, K_DESTINATION)[1..] == ContiguousPasses.EachText(block[1..], K_DESTINATION);
      MovesReplay(Replay(files, block[0]), block[1..]);
    }
  }

  lemma BatchBlockReplay(minBatch: int, actions: seq<Action>, i: nat, files: set<Text>)
    requires i < |actions| && ContiguousPasses.IsMerged(ContiguousPasses.BatchMoves(minBatch), actions, i)
    ensures var p := ContiguousPasses.BatchMoves(minBatch);
            Replay(files, ContiguousPasses.Merge(p, actions, i))
            == ReplayAll(files, actions[i..ContiguousPasses.BlockEnd(p, actions, i)])
  {
    var p := ContiguousPasses.BatchMoves(minBatch);
    var e := ContiguousPasses.BlockEnd(p, actions, i);
    var block := actions[i..e];
    ContiguousPasses.RunEndSpec(ContiguousPasses.SameDestination, actions, i, i + 1);
    forall k | 0 <= k < |block| ensures block[k].name == FILE_MOVE {
      if k > 0 { assert ContiguousPasses.JoinsAt(ContiguousPasses.SameDestination, actions, i, i + k); }
    }
    MovesReplay(files, block);
  }

  /** Merging moves into batches changes nothing about the files. */
  lemma {:induction false} BatchMovesKeepFiles(minBatch: int, actions: seq<Action>, i: nat, files: set<Text>)
    requires i <= |actions|
    ensures ReplayAll(files, ContiguousPasses.Scan(ContiguousPasses.BatchMoves(minBatch), actions, i))
            == ReplayAll(files, actions[i..])
    decreases |actions| - i
  {
    if i < |actions| {
      var p := ContiguousPasses.BatchMoves(minBatch);
      var e := ContiguousPasses.BlockEnd(p, actions, i);
      var made, block := ContiguousPasses.Emit(p, actions, i), actions[i..e];
      if ContiguousPasses.IsMerged(p, actions, i) {
        BatchBlockReplay(minBatch, actions, i, files);
        ReplayOne(files, ContiguousPasses.Merge(p, actions, i));
      }
      assert ReplayAll(files, made) == ReplayAll(files, block);
      ContiguousPasses.SlicesJoin(actions, i, e);
      ReplayConcat(files, made, ContiguousPasses.Scan(p, actions, e));
      ReplayConcat(files, block, actions[e..]);
      BatchMovesKeepFiles(minBatch, actions, e, ReplayAll(files, block));
    }
  }

  // ---------- File-system patterns ----------

  lemma {:induction false} DeletesReplay(files: set<Text>, block: seq<Action>)
    requires forall k :: 0 <= k < |block| ==> block[k].name == FILE_DELETE
    ensures ReplayAll(files, block)
            == DeleteAll(files, seq(|block|, k requires 0 <= k < |block| => ContiguousPasses.PathOf(block[k])))
    decreases |block|
  {
    if block != [] {
      var paths := seq(|block|, k requires 0 <= k < |block| => ContiguousPasses.PathOf(block[k]));
      var rest := seq(|block[1..]|, k requires 0 <= k < |block[1..]| => ContiguousPasses.PathOf(block[1..][k]));
      assert paths[1..] == rest;
      DeletesReplay(Replay(files, block[0]), block[1..]);
    }
  }

  lemma PairReplay(files: set<Text>, a: Action, b: Action)
    ensures ReplayAll(files, [a, b]) == Replay(Replay(files, a), b)
  {
    assert [a, b][1..] == [b];
    ReplayOne(Replay(files, a), b);
  }

  lemma DeletingReplay(actions: seq<Action>, i: nat, files: set<Text>)
    requires i < |actions| && ContiguousPasses.FsMatch(actions, i).Some?
    requires ContiguousPasses.FsMatch(actions, i).value.0 == ContiguousPasses.Deleting
    ensures Replay(files, ContiguousPasses.Merge(ContiguousPasses.FsPatterns, actions, i))
            == ReplayAll(files, actions[i..ContiguousPasses.FsMatch(actions, i).value.1])
  {
    var block := actions[i..ContiguousPasses.FsMatch(actions, i).value.1];
    ContiguousPasses.RunEndSpec(ContiguousPasses.Deletions, actions, i, i + 1);
    forall k | 0 <= k < |block| ensures block[k].name == FILE_DELETE {
      assert block[k] == actions[i + k];
      if k > 0 { assert ContiguousPasses.JoinsAt(ContiguousPasses.Deletions, actions, i, i + k); }
    }
    DeletesReplay(files, block);
  }

  lemma RenamingReplay(a: Action, b: Action, files: set<Text>)
    requires ContiguousPasses.IsRename(a, b)
    ensures Replay(Replay(files, a), b) == Move(files, ContiguousPasses.PathOf(a), ContiguousPasses.PathOf(b))
  {
  }

  lemma CreatingReplay(a: Action, b: Action, files: set<Text>)
    requires ContiguousPasses.IsCreateDocument(a, b)
    ensures Replay(Replay(files, a), b) == Add(files, ContiguousPasses.PathOf(a))
  {
  }

  lemma FsPairReplay(actions: seq<Action>, i: nat, files: set<Text>)
    requires i < |actions| && ContiguousPasses.FsMatch(actions, i).Some?
    requires ContiguousPasses.FsMatch(actions, i).value.0 in {ContiguousPasses.Renaming, ContiguousPasses.Creating}
    ensures Replay(files, ContiguousPasses.Merge(ContiguousPasses.FsPatterns, actions, i))
            == ReplayAll(files, actions[i..ContiguousPasses.FsMatch(actions, i).value.1])
  {
    var block := actions[i..ContiguousPasses.FsMatch(actions, i).value.1];
    assert block == [actions[i], actions[i + 1]];
    PairReplay(files, actions[i], actions[i + 1]);
    if ContiguousPasses.FsMatch(actions, i).value.0 == ContiguousPasses.Renaming {
      RenamingReplay(actions[i], actions[i + 1], files);
    } else {
      CreatingReplay(actions[i], actions[i + 1], files);
    }
  }

  lemma FsBlockReplay(actions: seq<Action>, i: nat, files: set<Text>)
    requires i < |actions| && ContiguousPasses.FsMatch(actions, i).Some?
    requires !ContiguousPasses.IsFolderCreation(actions[i])
    ensures Replay(files, ContiguousPasses.Merge(ContiguousPasses.FsPatterns, actions, i))
            == ReplayAll(files, actions[i..ContiguousPasses.FsMatch(actions, i).value.1])
  {
    if ContiguousPasses.FsMatch(actions, i).value.0 == ContiguousPasses.Deleting {
      DeletingReplay(actions, i, files);
    } else {
      FsPairReplay(actions, i, files);
    }
  }

  /** Recognizing deletions, renames and new documents changes nothing about the files, where no folder is created. */
  lemma {:induction false} FsPatternsKeepFiles(actions: seq<Action>, i: nat, files: set<Text>)
    requires i <= |actions| && forall k :: 0 <= k < |actions| ==> !ContiguousPasses.IsFolderCreation(actions[k])
    ensures ReplayAll(files, ContiguousPasses.Scan(ContiguousPasses.FsPatterns, actions, i)) == ReplayAll(files, actions[i..])
    decreases |actions| - i
  {
    if i < |actions| {
      var p := ContiguousPasses.FsPatterns;
      var e := ContiguousPasses.BlockEnd(p, actions, i);
      var made, block := ContiguousPasses.Emit(p, actions, i), actions[i..e];
      if ContiguousPasses.IsMerged(p, actions, i) {
        FsBlockReplay(actions, i, files);
        ReplayOne(files, ContiguousPasses.Merge(p, actions, i));
      }
      assert ReplayAll(files, made) == ReplayAll(files, block);
      ContiguousPasses.SlicesJoin(actions, i, e);
      ReplayConcat(files, made, ContiguousPasses.Scan(p, actions, e));
      ReplayConcat(files, block, actions[e..]);
      FsPatternsKeepFiles(actions, e, ReplayAll(files, block));
    }
  }

  // ---------- Downloads ----------

  /** A finished download adds the file where the last step left it: its destination, or else its path, or else its target. */
  lemma DownloadAddsFinalFile(create: Action, end: Action, files: set<Text>)
    ensures var made := Replay(files, FilterRules.Download(create, end));
            var dest, path, target := GetText(end, K_DESTINATION), GetText(end, K_PATH), GetText(end, K_TARGET);
            && (dest != Empty ==> made == files + {dest})
            && (dest == Empty && path != Empty ==> made == files + {path})
            && (dest == path == Empty && target != Empty ==> made == files + {target})
  {
  }
}
