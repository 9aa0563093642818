/**
  The rules that drop actions or replace a stretch of them: duplicate focus, distraction and
  permission filters, download synthesis, and gather-and-compose.
 */
module FilterRules {
  import opened Subsequences
  import opened Actions

  lemma SubseqIsDerived(actions: seq<Action>, kept: seq<Action>)
    requires IsSubseq(kept, actions)
    ensures Derived(actions, kept)
  {
    var f := SubseqHasEmbedding(kept, actions);
    assert DerivedBy(actions, 0, kept, f, f);
  }

  function SwitchTarget(a: Action): Text {
    FirstText(a, K_APP_BUNDLE_ID, K_TARGET)
  }

  // ---------- Duplicate focus ----------

  /** A switch to the app that the action before it already switched to. */
  predicate Repeats(a: Action, before: Action) {
    && a.name == APP_SWITCH && before.name == APP_SWITCH
    && FirstText(a, K_TARGET, K_APP_BUNDLE_ID) == FirstText(before, K_TARGET, K_APP_BUNDLE_ID) != Empty
  }

  function FocusDeduplicated(actions: seq<Action>): seq<Action> {
    if actions == [] then []
    else
      var kept := FocusDeduplicated(Init(actions));
      if kept != [] && Repeats(Last(actions), Last(kept)) then kept else kept + [Last(actions)]
  }

  method DuplicateFocus(actions: seq<Action>) returns (result: seq<Action>)
    ensures result == FocusDeduplicated(actions)
  {
    if actions == [] {
      return actions;
    }
    assert Init(actions[..1]) == [] && actions[..1] == [actions[0]];
    result := [actions[0]];
    for i := 1 to |actions|
      invariant result != [] && result == FocusDeduplicated(actions[..i])
    {
      assert Init(actions[..i + 1]) == actions[..i];
      if Repeats(actions[i], Last(result)) {
        continue;
      }
      result := result + [actions[i]];
    }
    assert actions[..|actions|] == actions;
  }

  ghost predicate RepeatFree(actions: seq<Action>) {
    forall k :: 0 < k < |actions| ==> !RepeatsAt(actions, k)
  }

  ghost predicate RepeatsAt(actions: seq<Action>, k: nat)
    requires 0 < k < |actions|
  {
    Repeats(actions[k], actions[k - 1])
  }

  lemma {:induction false} FocusIsSubsequence(actions: seq<Action>)
    ensures IsSubseq(FocusDeduplicated(actions), actions)
  {
    if actions != [] {
      var before, kept := FocusDeduplicated(Init(actions)), FocusDeduplicated(actions);
      FocusIsSubsequence(Init(actions));
      assert actions == Init(actions) + [Last(actions)];
      if kept == before {
        SubseqWeaken(before, Init(actions), Last(actions));
      } else {
        SubseqAppend(before, Init(actions), Last(actions));
      }
    }
  }

  lemma RepeatFreeAppend(actions: seq<Action>, a: Action)
    ensures RepeatFree(actions + [a]) <==> RepeatFree(actions) && (actions == [] || !Repeats(a, Last(actions)))
  {
    var longer := actions + [a];
    assert forall k :: 0 < k < |actions| ==> RepeatsAt(longer, k) == RepeatsAt(actions, k);
    if actions != [] { assert RepeatsAt(longer, |actions|) == Repeats(a, Last(actions)); }
  }

  lemma FocusIsDerived(actions: seq<Action>)
    ensures Derived(actions, FocusDeduplicated(actions))
  {
    FocusIsSubsequence(actions);
    SubseqIsDerived(actions, FocusDeduplicated(actions));
  }

  /** Targets are compared where both switches name one, bundle ids where neither does; an unnamed app repeats nothing. */
  lemma RepeatsMeans(a: Action, before: Action)
    requires a.name == before.name == APP_SWITCH
    ensures var t, u := GetText(a, K_TARGET), GetText(before, K_TARGET);
            var b, c := GetText(a, K_APP_BUNDLE_ID), GetText(before, K_APP_BUNDLE_ID);
            && (t != Empty && u != Empty ==> (Repeats(a, before) <==> t == u))
            && (t == u == Empty ==> (Repeats(a, before) <==> b == c && b != Empty))
            && (t != Empty && u == Empty ==> (Repeats(a, before) <==> t == c))
            && (t == Empty && u != Empty ==> (Repeats(a, before) <==> b == u))
  {
  }

  /** What is kept is repeat-free, and all of the input if that was repeat-free already. */
  lemma {:induction false} FocusIsRepeatFree(actions: seq<Action>)
    ensures RepeatFree(FocusDeduplicated(actions))
    ensures RepeatFree(actions) ==> FocusDeduplicated(actions) == actions
  {
    if actions != [] {
      FocusIsRepeatFree(Init(actions));
      assert actions == Init(actions) + [Last(actions)];
      RepeatFreeAppend(Init(actions), Last(actions));
      RepeatFreeAppend(FocusDeduplicated(Init(actions)), Last(actions));
    }
  }

  function NotSwitches(actions: seq<Action>): seq<Action> {
    if actions == [] then []
    else NotSwitches(Init(actions)) + if Last(actions).name == APP_SWITCH then [] else [Last(actions)]
  }

  /** Only switches are removed. */
  lemma {:induction false} FocusKeepsOthers(actions: seq<Action>)
    ensures NotSwitches(FocusDeduplicated(actions)) == NotSwitches(actions)
  {
    if actions != [] {
      var before, kept := FocusDeduplicated(Init(actions)), FocusDeduplicated(actions);
      FocusKeepsOthers(Init(actions));
      if kept != before { assert Init(kept) == before && Last(kept) == Last(actions); }
    }
  }

  // ---------- Searching and skipping positions ----------

  function Range(i: nat, e: nat): (r: set<nat>)
    ensures forall k: nat :: k in r <==> i <= k < e
    decreases e - i
  {
    if i >= e then {} else {i} + Range(i + 1, e)
  }

  /** The first position of the window `[from, limit)` where `p` holds. */
  function First(p: nat -> bool, from: nat, limit: nat): (found: Option<nat>)
    ensures found.Some? ==> from <= found.value < limit && p(found.value)
    decreases limit - from
  {
    if from >= limit then None else if p(from) then Some(from) else First(p, from + 1, limit)
  }

  lemma {:induction false} FirstIsFirst(p: nat -> bool, from: nat, limit: nat, k: nat)
    requires from <= k < limit && p(k)
    ensures First(p, from, limit).Some? && First(p, from, limit).value <= k
    decreases limit - from
  {
    if from < k { FirstIsFirst(p, from + 1, limit, k); }
  }

  /** The end of a window of positions from `i`, cut off at the end of the list. */
  function WindowEnd(i: nat, window: nat, n: nat): nat {
    if i + window < n then i + window else n
  }

  /** Where the span that opens at a position ends, if one does. */
  type Spans = nat -> Option<nat>

  ghost predicate Forward(spans: Spans, n: nat) {
    forall i: nat :: spans(i).Some? ==> i < spans(i).value <= n
  }

  ghost predicate InSpan(spans: Spans, k: nat, s: nat) {
    s <= k && spans(s).Some? && k < spans(s).value
  }

  /** The positions from `i` on that lie in a span, spans being taken from left to right. */
  function Skipped(spans: Spans, n: nat, i: nat): set<nat>
    decreases n - i
  {
    if i >= n then {}
    else
      var end := spans(i);
      if end.Some? && i < end.value then Range(i, end.value) + Skipped(spans, n, end.value)
      else Skipped(spans, n, i + 1)
  }

  lemma {:induction false} SkippedAbove(spans: Spans, n: nat, i: nat, k: nat)
    requires k in Skipped(spans, n, i)
    ensures i <= k
    decreases n - i
  {
    var end := spans(i);
    if end.Some? && i < end.value {
      if k !in Range(i, end.value) { SkippedAbove(spans, n, end.value, k); }
    } else {
      SkippedAbove(spans, n, i + 1, k);
    }
  }

  /** What is skipped lies in a span, and what is not skipped opens none. */
  lemma {:induction false} SkippedSpec(spans: Spans, n: nat, i: nat, k: nat)
    requires Forward(spans, n) && i <= k < n
    ensures k in Skipped(spans, n, i) ==> exists s: nat :: InSpan(spans, k, s)
    ensures k !in Skipped(spans, n, i) ==> spans(k).None?
    decreases n - i
  {
    var end := spans(i);
    if end.Some? {
      if k < end.value { assert InSpan(spans, k, i); } else { SkippedSpec(spans, n, end.value, k); }
    } else if i < k {
      SkippedSpec(spans, n, i + 1, k);
    } else if k in Skipped(spans, n, i + 1) {
      SkippedAbove(spans, n, i + 1, k);
    }
  }

  lemma SkippedStep(spans: Spans, n: nat, i: nat, skip: set<nat>)
    requires i < n && Forward(spans, n)
    ensures skip + Skipped(spans, n, i)
            == if spans(i).Some? then (skip + Range(i, spans(i).value)) + Skipped(spans, n, spans(i).value)
               else skip + Skipped(spans, n, i + 1)
  {
  }

  /** From `i` on, exactly the positions before `next` are in the set. */
  ghost predicate UpTo(consumed: set<nat>, i: nat, next: nat) {
    forall k: nat :: i <= k ==> (k in consumed <==> k < next)
  }

  lemma Extends(consumed: set<nat>, i: nat, next: nat)
    requires UpTo(consumed, i, i) && i < next
    ensures UpTo(consumed + Range(i, next), i + 1, next)
  {
  }

  /** The actions from position `i` on that are not skipped. */
  function Without(actions: seq<Action>, skip: set<nat>, i: nat): seq<Action>
    decreases |actions| - i
  {
    if i >= |actions| then []
    else (if i in skip then [] else [actions[i]]) + Without(actions, skip, i + 1)
  }

  method DropSkipped(actions: seq<Action>, skip: set<nat>) returns (result: seq<Action>)
    ensures result == Without(actions, skip, 0)
  {
    result := [];
    for i := 0 to |actions|
      invariant Without(actions, skip, 0) == result + Without(actions, skip, i)
    {
      if i !in skip {
        result := result + [actions[i]];
      }
    }
  }

  lemma {:induction false} WithoutIsDerived(actions: seq<Action>, skip: set<nat>, i: nat)
    ensures DerivedFrom(actions, i, Without(actions, skip, i))
    decreases |actions| - i
  {
    if i >= |actions| {
      DerivedEmpty(actions, i);
    } else {
      WithoutIsDerived(actions, skip, i + 1);
      if i in skip {
        assert Without(actions, skip, i) == Without(actions, skip, i + 1);
        DerivedSkip(actions, i, i + 1, Without(actions, skip, i));
      } else {
        DerivedCons(actions, i, i, actions[i], Without(actions, skip, i + 1));
      }
    }
  }

  /** Only positions that are skipped are left out, and all of them: with one element less, the result lacks just that one. */
  lemma {:induction false} WithoutCounts(actions: seq<Action>, skip: set<nat>, i: nat, k: nat)
    requires i <= k < |actions|
    ensures |Without(actions, skip, i)| == |Without(actions, skip + {k}, i)| + if k in skip then 0 else 1
    ensures k !in skip ==> actions[k] in Without(actions, skip, i)
    decreases k - i
  {
    if i < k {
      WithoutCounts(actions, skip, i + 1, k);
    } else {
      WithoutBehind(actions, skip, i + 1, k);
      if i !in skip { assert Without(actions, skip, i)[0] == actions[i]; }
    }
  }

  lemma {:induction false} WithoutBehind(actions: seq<Action>, skip: set<nat>, i: nat, k: nat)
    requires k < i
    ensures Without(actions, skip + {k}, i) == Without(actions, skip, i)
    decreases |actions| - i
  {
    if i < |actions| { WithoutBehind(actions, skip, i + 1, k); }
  }

  // ---------- Distraction filter ----------

  const SUBSTANTIVE := {
    FILE_CREATE, FILE_MODIFY, FILE_DELETE, FILE_RENAME, FILE_MOVE, BATCH_MOVE, CLIPBOARD_COPY, UI_TYPE
  }
  const DETOUR := 8

  /** The app that was in front before the switch at `i`. */
  function OriginalApp(actions: seq<Action>, i: nat): Text
    requires i < |actions|
  {
    if GetText(actions[i], K_PREVIOUS_APP) != Empty || i == 0 then GetText(actions[i], K_PREVIOUS_APP)
    else FirstText(actions[i - 1], K_TARGET, K_APP_BUNDLE_ID)
  }

  /** The switch at `j` returns from the detour that the switch at `i` opened, with nothing of substance between. */
  predicate SwitchesBack(actions: seq<Action>, i: nat, j: nat) {
    && i < j < |actions| && actions[j].name == APP_SWITCH
    && OriginalApp(actions, i) != Empty && GetText(actions[j], K_TARGET) == OriginalApp(actions, i)
    && forall k :: i < k < j ==> actions[k].name !in SUBSTANTIVE
  }

  predicate IsSwitch(actions: seq<Action>, i: nat) {
    i < |actions| && actions[i].name == APP_SWITCH
  }

  /** The app to return to is the recorded previous one, else that of the action before: its target, else its bundle id. */
  lemma OriginalAppMeans(actions: seq<Action>, i: nat)
    requires i < |actions|
    ensures var prev := GetText(actions[i], K_PREVIOUS_APP);
            && (prev != Empty ==> OriginalApp(actions, i) == prev)
            && (prev == Empty && i == 0 ==> OriginalApp(actions, i) == Empty)
            && (prev == Empty && i > 0 ==>
                  var t := GetText(actions[i - 1], K_TARGET);
                  OriginalApp(actions, i) == if t == Empty then GetText(actions[i - 1], K_APP_BUNDLE_ID) else t)
  {
  }

  function Return(actions: seq<Action>, i: nat): Option<nat> {
    First((j: nat) => SwitchesBack(actions, i, j), i + 1, WindowEnd(i, DETOUR, |actions|))
  }

  function Detours(actions: seq<Action>): Spans {
    (i: nat) =>
      if IsSwitch(actions, i) && Return(actions, i).Some? then Some(Return(actions, i).value + 1)
      else None
  }

  function DistractionsFiltered(actions: seq<Action>): seq<Action> {
    if |actions| < 3 then actions else Without(actions, Skipped(Detours(actions), |actions|, 0), 0)
  }

  method FilterDistractions(actions: seq<Action>) returns (result: seq<Action>)
    ensures result == DistractionsFiltered(actions)
  {
    if |actions| < 3 {
      return actions;
    }
    var detours := Detours(actions);
    var skip: set<nat> := {};
    var i: nat := 0;
    while i < |actions|
      invariant skip + Skipped(detours, |actions|, i) == Skipped(detours, |actions|, 0)
      decreases |actions| - i
    {
      SkippedStep(detours, |actions|, i, skip);
      var end := detours(i);
      if end.Some? {
        skip := skip + Range(i, end.value);
        i := end.value;
      } else {
        i := i + 1;
      }
    }
    result := DropSkipped(actions, skip);
  }

  /** A dropped action lies in a detour, from its first switch to the switch back; a switch that is kept has no return. */
  lemma DetoursAreDropped(actions: seq<Action>, k: nat)
    requires k < |actions|
    ensures k in Skipped(Detours(actions), |actions|, 0) ==>
              exists s: nat, e: nat :: s <= k <= e < s + DETOUR && IsSwitch(actions, s) && SwitchesBack(actions, s, e)
    ensures k !in Skipped(Detours(actions), |actions|, 0) && IsSwitch(actions, k) ==>
              forall e: nat :: k < e < k + DETOUR ==> !SwitchesBack(actions, k, e)
  {
    var detours, n := Detours(actions), |actions|;
    SkippedSpec(detours, n, 0, k);
    if k in Skipped(detours, n, 0) {
      var s: nat :| InSpan(detours, k, s);
      assert SwitchesBack(actions, s, Return(actions, s).value);
    } else if IsSwitch(actions, k) {
      forall e: nat | k < e < k + DETOUR ensures !SwitchesBack(actions, k, e) {
        if SwitchesBack(actions, k, e) { FirstIsFirst((j: nat) => SwitchesBack(actions, k, j), k + 1, WindowEnd(k, DETOUR, n), e); }
      }
    }
  }

  // The filter never drops an action of substance, and keeps them in order.

  function Substance(actions: seq<Action>): seq<Action> {
    if actions == [] then []
    else (if actions[0].name in SUBSTANTIVE then [actions[0]] else []) + Substance(actions[1..])
  }

  ghost predicate Insubstantial(actions: seq<Action>, skip: set<nat>) {
    forall k {:trigger k in skip} :: k in skip && k < |actions| ==> actions[k].name !in SUBSTANTIVE
  }

  lemma {:induction false} SubstanceKept(actions: seq<Action>, skip: set<nat>, i: nat)
    requires i <= |actions| && Insubstantial(actions, skip)
    ensures Substance(Without(actions, skip, i)) == Substance(actions[i..])
    decreases |actions| - i
  {
    if i < |actions| {
      SubstanceKept(actions, skip, i + 1);
      assert actions[i..][1..] == actions[i + 1..];
      if i in skip {
        assert Without(actions, skip, i) == Without(actions, skip, i + 1);
      } else {
        assert Without(actions, skip, i)[1..] == Without(actions, skip, i + 1);
      }
    }
  }

  lemma DistractionsAreDerived(actions: seq<Action>)
    ensures Derived(actions, DistractionsFiltered(actions))
  {
    WithoutIsDerived(actions, Skipped(Detours(actions), |actions|, 0), 0);
    DerivedReflexive(actions);
  }

  lemma DistractionsKeepSubstance(actions: seq<Action>)
    ensures Substance(DistractionsFiltered(actions)) == Substance(actions)
  {
    var skip := Skipped(Detours(actions), |actions|, 0);
    forall k | k in skip && k < |actions| ensures actions[k].name !in SUBSTANTIVE {
      DetoursAreDropped(actions, k);
      var s: nat, e: nat :| s <= k <= e < s + DETOUR && IsSwitch(actions, s) && SwitchesBack(actions, s, e);
    }
    SubstanceKept(actions, skip, 0);
    assert actions[0..] == actions;
  }

  // ---------- Permission noise ----------

  /** The five interned names of permission dialogs and settings apps. */
  predicate IsPermissionApp(t: Text) {
    t.Path? && t.dir == Empty && -6 <= t.stem <= -2
  }

  const DIALOG := 10

  predicate OpensDialog(actions: seq<Action>, i: nat) {
    i < |actions| && actions[i].name == APP_SWITCH && IsPermissionApp(SwitchTarget(actions[i]))
  }

  predicate LeavesDialog(actions: seq<Action>, j: nat) {
    j < |actions| && actions[j].name == APP_SWITCH && !IsPermissionApp(SwitchTarget(actions[j]))
  }

  function DialogEnd(actions: seq<Action>, i: nat): Option<nat> {
    First((j: nat) => LeavesDialog(actions, j), i + 1, WindowEnd(i, DIALOG, |actions|))
  }

  /** A dialog reaches to the first switch to another app, that switch included. */
  function Dialogs(actions: seq<Action>): Spans {
    (i: nat) => if OpensDialog(actions, i) && DialogEnd(actions, i).Some? then Some(DialogEnd(actions, i).value + 1) else None
  }

  function PermissionsFiltered(actions: seq<Action>): seq<Action> {
    if |actions| < 3 then actions else Without(actions, Skipped(Dialogs(actions), |actions|, 0), 0)
  }

  method FilterPermissions(actions: seq<Action>) returns (result: seq<Action>)
    ensures result == PermissionsFiltered(actions)
  {
    if |actions| < 3 {
      return actions;
    }
    var dialogs := Dialogs(actions);
    var noise: set<nat> := {};
    ghost var next: nat := 0; // the first position at or behind i that is not noise yet
    for i := 0 to |actions|
      invariant i <= next && UpTo(noise, i, next)
      invariant noise + Skipped(dialogs, |actions|, next) == Skipped(dialogs, |actions|, 0)
    {
      if i in noise {
        continue;
      }
      assert next == i;
      SkippedStep(dialogs, |actions|, i, noise);
      next := i + 1;
      var end := dialogs(i);
      if end.Some? {
        Extends(noise, i, end.value);
        noise := noise + Range(i, end.value);
        next := end.value;
      }
    }
    result := DropSkipped(actions, noise);
  }

  /** A dropped action lies between a dialog and the first switch out of it; a dialog that is kept is not left in time. */
  lemma DialogsAreDropped(actions: seq<Action>, k: nat)
    requires k < |actions|
    ensures k in Skipped(Dialogs(actions), |actions|, 0) ==>
              exists s: nat, e: nat :: s <= k <= e < s + DIALOG && OpensDialog(actions, s) && LeavesDialog(actions, e)
                             && forall m: nat :: s < m < e ==> !LeavesDialog(actions, m)
    ensures k !in Skipped(Dialogs(actions), |actions|, 0) && OpensDialog(actions, k) ==>
              forall e: nat :: k < e < k + DIALOG ==> !LeavesDialog(actions, e)
  {
    var dialogs, n := Dialogs(actions), |actions|;
    SkippedSpec(dialogs, n, 0, k);
    if k in Skipped(dialogs, n, 0) {
      var s: nat :| InSpan(dialogs, k, s);
      var e := DialogEnd(actions, s).value;
      forall m: nat | s < m < e ensures !LeavesDialog(actions, m) {
        if LeavesDialog(actions, m) { FirstIsFirst((j: nat) => LeavesDialog(actions, j), s + 1, WindowEnd(s, DIALOG, n), m); }
      }
      assert OpensDialog(actions, s) && LeavesDialog(actions, e);
    } else if OpensDialog(actions, k) {
      forall e: nat | k < e < k + DIALOG ensures !LeavesDialog(actions, e) {
        if LeavesDialog(actions, e) { FirstIsFirst((j: nat) => LeavesDialog(actions, j), k + 1, WindowEnd(k, DIALOG, n), e); }
      }
    }
  }

  lemma PermissionsAreDerived(actions: seq<Action>)
    ensures Derived(actions, PermissionsFiltered(actions))
  {
    WithoutIsDerived(actions, Skipped(Dialogs(actions), |actions|, 0), 0);
    DerivedReflexive(actions);
  }

  // ---------- Downloads ----------

  /** The seven interned suffixes of unfinished downloads. */
  predicate IsTempSuffix(ext: Word) {
    -13 <= ext <= -7
  }

  const DOWNLOAD_WINDOW := 20

  predicate IsTempDownload(a: Action) {
    FirstText(a, K_PATH, K_TARGET) != Empty && IsTempSuffix(Extension(FirstText(a, K_PATH, K_TARGET)))
  }

  predicate CompletesDownload(create: Action, a: Action) {
    var temp := FirstText(create, K_PATH, K_TARGET);
    var source, dest := FirstText(a, K_SOURCE, K_PATH), GetText(a, K_DESTINATION);
    && (a.name == FILE_RENAME || a.name == FILE_MOVE)
    && (source == temp || Stem(source) == Stem(temp) || (dest != Empty && Stem(dest) == Stem(temp)))
  }

  function DownloadEnd(actions: seq<Action>, i: nat): (found: Option<nat>)
    requires i < |actions|
    ensures found.Some? ==> i < found.value < |actions| && CompletesDownload(actions[i], actions[found.value])
  {
    First((j: nat) => j < |actions| && CompletesDownload(actions[i], actions[j]), i + 1, WindowEnd(i, DOWNLOAD_WINDOW, |actions|))
  }

  /** A rename or move completes it that takes the unfinished file away, or goes from or to its name without the suffix. */
  lemma CompletesMeans(create: Action, a: Action)
    ensures var temp := if GetText(create, K_PATH) == Empty then GetText(create, K_TARGET) else GetText(create, K_PATH);
            var from := if GetText(a, K_SOURCE) == Empty then GetText(a, K_PATH) else GetText(a, K_SOURCE);
            var to := GetText(a, K_DESTINATION);
            && (a.name !in {FILE_RENAME, FILE_MOVE} ==> !CompletesDownload(create, a))
            && (a.name in {FILE_RENAME, FILE_MOVE} && from == temp ==> CompletesDownload(create, a))
            && (a.name in {FILE_RENAME, FILE_MOVE} && from != temp ==>
                  (CompletesDownload(create, a) <==> Stem(from) == Stem(temp) || (to != Empty && Stem(to) == Stem(temp))))
  {
  }

  /** A creation is completed by the first action in its window that completes it. */
  lemma CompletionIsFirst(actions: seq<Action>, i: nat, m: nat)
    requires i < m < |actions| && m < i + DOWNLOAD_WINDOW && CompletesDownload(actions[i], actions[m])
    ensures DownloadEnd(actions, i).Some? && DownloadEnd(actions, i).value <= m
  {
    FirstIsFirst((j: nat) => j < |actions| && CompletesDownload(actions[i], actions[j]), i + 1,
                 WindowEnd(i, DOWNLOAD_WINDOW, |actions|), m);
  }

  function Download(create: Action, end: Action): Action {
    var path := if GetText(end, K_DESTINATION) != Empty then GetText(end, K_DESTINATION) else FirstText(end, K_PATH, K_TARGET);
    Action(DOWNLOAD_FILE, map[K_PATH := One(path), K_TARGET := One(path)], create.start, end.end, 0.9)
  }

  predicate OpensDownload(a: Action) {
    a.name == FILE_CREATE && IsTempDownload(a)
  }

  /** What the scan makes at `i`, and where it goes on: a finished download becomes one action, other traces vanish. */
  datatype Piece = Piece(made: seq<Action>, next: nat)

  function DownloadAt(actions: seq<Action>, i: nat): (p: Piece)
    requires i < |actions|
    ensures i < p.next <= |actions|
  {
    if OpensDownload(actions[i]) then
      var end := DownloadEnd(actions, i);
      if end.Some? then Piece([Download(actions[i], actions[end.value])], end.value + 1) else Piece([], i + 1)
    else if actions[i].name == FILE_MODIFY && IsTempDownload(actions[i]) then Piece([], i + 1)
    else Piece([actions[i]], i + 1)
  }

  function DownloadsFrom(actions: seq<Action>, i: nat): seq<Action>
    decreases |actions| - i
  {
    if i >= |actions| then [] else DownloadAt(actions, i).made + DownloadsFrom(actions, DownloadAt(actions, i).next)
  }

  function DownloadsSynthesized(actions: seq<Action>): seq<Action> {
    if |actions| < 2 then actions else DownloadsFrom(actions, 0)
  }

  lemma DownloadsStep(actions: seq<Action>, i: nat, before: seq<Action>)
    requires i < |actions|
    ensures before + DownloadsFrom(actions, i)
            == (before + DownloadAt(actions, i).made) + DownloadsFrom(actions, DownloadAt(actions, i).next)
  {
    var p := DownloadAt(actions, i);
    Regroup(before, p.made, DownloadsFrom(actions, p.next));
  }

  method SynthesizeDownloads(actions: seq<Action>) returns (result: seq<Action>)
    ensures result == DownloadsSynthesized(actions)
  {
    if |actions| < 2 {
      return actions;
    }
    result := [];
    var consumed: set<nat> := {};
    ghost var next: nat := 0; // the first position at or behind i that is not consumed yet
    for i := 0 to |actions|
      invariant i <= next && UpTo(consumed, i, next)
      invariant DownloadsFrom(actions, 0) == result + DownloadsFrom(actions, next)
    {
      if i in consumed {
        continue;
      }
      assert next == i;
      DownloadsStep(actions, i, result);
      var piece := DownloadAt(actions, i);
      Extends(consumed, i, piece.next);
      consumed := consumed + Range(i, piece.next);
      next := piece.next;
      result := result + piece.made;
    }
  }

  lemma {:induction false} DownloadsAreDerived(actions: seq<Action>, i: nat)
    ensures DerivedFrom(actions, i, DownloadsFrom(actions, i))
    decreases |actions| - i
  {
    if i >= |actions| {
      DerivedEmpty(actions, i);
    } else {
      var piece := DownloadAt(actions, i);
      var rest := DownloadsFrom(actions, piece.next);
      DownloadsAreDerived(actions, piece.next);
      if piece.made == [] {
        assert DownloadsFrom(actions, i) == rest;
        DerivedSkip(actions, i, piece.next, rest);
      } else {
        DerivedSkip(actions, i + 1, piece.next, rest);
        DerivedCons(actions, i, piece.next - 1, piece.made[0], rest);
      }
    }
  }

  /** The stretch from `s` to `e` becomes a download. */
  ghost predicate IsDownload(actions: seq<Action>, s: nat, e: nat) {
    s < |actions| && OpensDownload(actions[s]) && DownloadEnd(actions, s) == Some(e)
  }

  lemma DownloadAtKeeps(actions: seq<Action>, i: nat, k: nat)
    requires i < |actions| && i <= k < DownloadAt(actions, i).next
    ensures || actions[k] in DownloadAt(actions, i).made || IsTempTrace(actions[k])
            || (IsDownload(actions, i, DownloadAt(actions, i).next - 1) && k <= DownloadAt(actions, i).next - 1)
  {
  }

  /** Whatever is not in the stretch of a download, and no trace of an unfinished one, is kept. */
  lemma {:induction false} DownloadsKeepOthers(actions: seq<Action>, i: nat, k: nat)
    requires i <= k < |actions|
    ensures || actions[k] in DownloadsFrom(actions, i) || IsTempTrace(actions[k])
            || exists s: nat, e: nat :: IsDownload(actions, s, e) && s <= k <= e
    decreases |actions| - i
  {
    var next := DownloadAt(actions, i).next;
    if next <= k { DownloadsKeepOthers(actions, next, k); } else { DownloadAtKeeps(actions, i, k); }
  }

  /** And everything in the result is an action that was kept, or such a download. */
  lemma {:induction false} DownloadsComeFrom(actions: seq<Action>, i: nat, a: Action)
    requires a in DownloadsFrom(actions, i)
    ensures a in actions || exists s: nat, e: nat :: IsDownload(actions, s, e) && e < |actions| && a == Download(actions[s], actions[e])
    decreases |actions| - i
  {
    var piece := DownloadAt(actions, i);
    if a !in piece.made {
      DownloadsComeFrom(actions, piece.next, a);
    } else if OpensDownload(actions[i]) {
      assert IsDownload(actions, i, DownloadEnd(actions, i).value);
    }
  }

  lemma SynthesizedAreDerived(actions: seq<Action>)
    ensures Derived(actions, DownloadsSynthesized(actions))
  {
    DownloadsAreDerived(actions, 0);
    DerivedReflexive(actions);
  }

  predicate IsTempTrace(a: Action) {
    a.name in {FILE_CREATE, FILE_MODIFY} && IsTempDownload(a)
  }

  lemma {:induction false} NoTempTraceFrom(actions: seq<Action>, i: nat, a: Action)
    requires a in DownloadsFrom(actions, i)
    ensures !IsTempTrace(a)
    decreases |actions| - i
  {
    if a !in DownloadAt(actions, i).made { NoTempTraceFrom(actions, DownloadAt(actions, i).next, a); }
  }

  /** The rule leaves a trace of a temporary download exactly if that is all there was. */
  lemma TempTraceLeftIff(actions: seq<Action>)
    ensures (exists a :: a in DownloadsSynthesized(actions) && IsTempTrace(a)) <==> |actions| == 1 && IsTempTrace(actions[0])
  {
    if a :| a in DownloadsSynthesized(actions) && IsTempTrace(a) {
      if |actions| >= 2 { NoTempTraceFrom(actions, 0, a); }
    }
  }

  // ---------- Gather and compose ----------

  datatype Fragment = Fragment(copy: nat, paste: nat, targetApp: Text)

  const PASTE_WINDOW := 6
  const MIN_FRAGMENTS := 2

  function FindCopy(actions: seq<Action>, i: nat): (found: Option<nat>)
    ensures found.Some? ==> i <= found.value < |actions| && actions[found.value].name == CLIPBOARD_COPY
  {
    First((j: nat) => j < |actions| && actions[j].name == CLIPBOARD_COPY, i, |actions|)
  }

  /** `isPaste` recognises the paste shortcut by its label. */
  function FindPaste(isPaste: Action -> bool, actions: seq<Action>, copy: nat): (found: Option<nat>)
    ensures found.Some? ==> copy < found.value < |actions| && actions[found.value].name == UI_SHORTCUT && isPaste(actions[found.value])
  {
    First((j: nat) => j < |actions| && actions[j].name == UI_SHORTCUT && isPaste(actions[j]), copy + 1,
          WindowEnd(copy, PASTE_WINDOW, |actions|))
  }

  /** A copy is paired with the first paste in its window. */
  lemma PasteIsFirst(isPaste: Action -> bool, actions: seq<Action>, copy: nat, m: nat)
    requires copy < m < |actions| && m < copy + PASTE_WINDOW && actions[m].name == UI_SHORTCUT && isPaste(actions[m])
    ensures FindPaste(isPaste, actions, copy).Some? && FindPaste(isPaste, actions, copy).value <= m
  {
    FirstIsFirst((j: nat) => j < |actions| && actions[j].name == UI_SHORTCUT && isPaste(actions[j]), copy + 1,
                 WindowEnd(copy, PASTE_WINDOW, |actions|), m);
  }

  datatype Cycle = Cycle(found: seq<Fragment>, next: nat)

  /** The first copy at or behind `i`, with its paste if there is one, and where the search goes on. */
  function NextCycle(isPaste: Action -> bool, actions: seq<Action>, i: nat): (c: Cycle)
    requires i < |actions|
    ensures i < c.next <= |actions|
    ensures c.found == [] || (|c.found| == 1 && i <= c.found[0].copy < c.found[0].paste < c.next)
  {
    var copy := FindCopy(actions, i);
    if copy.None? then Cycle([], i + 1)
    else
      var paste := FindPaste(isPaste, actions, copy.value);
      if paste.None? then Cycle([], copy.value + 1)
      else
        Cycle([Fragment(copy.value, paste.value, GetText(actions[paste.value], K_APP_BUNDLE_ID))], paste.value + 1)
  }

  /** The copy-paste cycles from `i` on. */
  function Fragments(isPaste: Action -> bool, actions: seq<Action>, i: nat): seq<Fragment>
    decreases |actions| - i
  {
    if i >= |actions| then []
    else NextCycle(isPaste, actions, i).found + Fragments(isPaste, actions, NextCycle(isPaste, actions, i).next)
  }

  /** Cycles lie in bounds, one behind the other. */
  ghost predicate FragmentsInOrder(n: nat, from: nat, fragments: seq<Fragment>)
    decreases |fragments|
  {
    fragments == [] || (from <= fragments[0].copy < fragments[0].paste < n
                        && FragmentsInOrder(n, fragments[0].paste + 1, fragments[1..]))
  }

  lemma {:induction false} InOrderFromEarlier(n: nat, from: nat, later: nat, fragments: seq<Fragment>)
    requires from <= later && FragmentsInOrder(n, later, fragments)
    ensures FragmentsInOrder(n, from, fragments)
  {
  }

  lemma {:induction false} FragmentsAreInOrder(isPaste: Action -> bool, actions: seq<Action>, i: nat)
    ensures FragmentsInOrder(|actions|, i, Fragments(isPaste, actions, i))
    decreases |actions| - i
  {
    if i < |actions| {
      var c := NextCycle(isPaste, actions, i);
      var rest := Fragments(isPaste, actions, c.next);
      FragmentsAreInOrder(isPaste, actions, c.next);
      if c.found == [] {
        assert Fragments(isPaste, actions, i) == rest;
        InOrderFromEarlier(|actions|, i, c.next, rest);
      } else {
        InOrderFromEarlier(|actions|, c.found[0].paste + 1, c.next, rest);
        assert Fragments(isPaste, actions, i)[1..] == rest;
      }
    }
  }

  /** Each cycle is a copy and a paste behind it, and names the app pasted into. */
  lemma {:induction false} FragmentsAreCycles(isPaste: Action -> bool, actions: seq<Action>, i: nat, f: Fragment)
    requires f in Fragments(isPaste, actions, i)
    ensures f.copy < f.paste < |actions| && f.paste < f.copy + PASTE_WINDOW
    ensures actions[f.copy].name == CLIPBOARD_COPY && actions[f.paste].name == UI_SHORTCUT && isPaste(actions[f.paste])
    ensures f.targetApp == GetText(actions[f.paste], K_APP_BUNDLE_ID)
    decreases |actions| - i
  {
    var c := NextCycle(isPaste, actions, i);
    if f !in c.found { FragmentsAreCycles(isPaste, actions, c.next, f); }
  }

  /** Every copy from `i` on is part of a cycle, unless no paste follows it in its window. */
  lemma {:induction false} FragmentsAreComplete(isPaste: Action -> bool, actions: seq<Action>, i: nat, k: nat)
    requires i <= k < |actions| && actions[k].name == CLIPBOARD_COPY
    ensures FindPaste(isPaste, actions, k).None? || exists f :: f in Fragments(isPaste, actions, i) && f.copy <= k <= f.paste
    decreases |actions| - i
  {
    var c := NextCycle(isPaste, actions, i);
    FirstIsFirst((j: nat) => j < |actions| && actions[j].name == CLIPBOARD_COPY, i, |actions|, k);
    var copy := FindCopy(actions, i).value;
    if c.next <= k {
      FragmentsAreComplete(isPaste, actions, c.next, k);
      assert forall f :: f in Fragments(isPaste, actions, c.next) ==> f in Fragments(isPaste, actions, i);
    } else if c.found != [] {
      assert c.found[0] in Fragments(isPaste, actions, i) && c.found[0].copy == copy <= k;
    }
  }

  lemma {:induction false} LastBehindFirst(n: nat, from: nat, fragments: seq<Fragment>)
    requires fragments != [] && FragmentsInOrder(n, from, fragments)
    ensures fragments[0].copy < Last(fragments).paste < n
    decreases |fragments|
  {
    if |fragments| > 1 { LastBehindFirst(n, fragments[0].paste + 1, fragments[1..]); }
  }

  predicate SameTarget(fragments: seq<Fragment>)
    requires fragments != []
  {
    forall k :: 0 <= k < |fragments| ==> fragments[k].targetApp == fragments[0].targetApp
  }

  function Gather(fragments: seq<Fragment>, block: seq<Action>): Action
    requires fragments != [] && block != []
  {
    Merging(block, GATHER_AND_COMPOSE,
            map[K_TARGET_APP := One(fragments[0].targetApp), K_FRAGMENT_COUNT := Number(|fragments|)], 0.8)
  }

  datatype Stretch = Stretch(first: nat, last: nat, gather: Action)

  /** The stretch from the first copy to the last paste, if there are enough cycles, all pasting into the same app. */
  function FindStretch(isPaste: Action -> bool, actions: seq<Action>): (found: Option<Stretch>)
    ensures found.Some? ==>
              && found.value.first < found.value.last < |actions|
              && found.value.gather.start == actions[found.value.first].start
              && found.value.gather.end == actions[found.value.last].end
  {
    StretchOf(actions, Fragments(isPaste, actions, 0), isPaste)
  }

  function StretchOf(actions: seq<Action>, fragments: seq<Fragment>, isPaste: Action -> bool): (found: Option<Stretch>)
    requires fragments == Fragments(isPaste, actions, 0)
    ensures found.Some? ==>
              && found.value.first < found.value.last < |actions|
              && found.value.gather.start == actions[found.value.first].start
              && found.value.gather.end == actions[found.value.last].end
  {
    if |actions| < 4 || |fragments| < MIN_FRAGMENTS || !SameTarget(fragments) then None
    else
      FragmentsAreInOrder(isPaste, actions, 0);
      LastBehindFirst(|actions|, 0, fragments);
      var first, last := fragments[0].copy, Last(fragments).paste;
      Some(Stretch(first, last, Gather(fragments, actions[first..last + 1])))
  }

  /** The stretch becomes one action. */
  function Replaced(actions: seq<Action>, s: Stretch): seq<Action>
    requires s.first < s.last < |actions|
  {
    actions[..s.first] + [s.gather] + actions[s.last + 1..]
  }

  function Gathered(isPaste: Action -> bool, actions: seq<Action>): seq<Action> {
    var stretch := FindStretch(isPaste, actions);
    if stretch.None? then actions else Replaced(actions, stretch.value)
  }

  lemma FragmentsStep(isPaste: Action -> bool, actions: seq<Action>, i: nat, before: seq<Fragment>)
    requires i < |actions|
    ensures before + Fragments(isPaste, actions, i)
            == (before + NextCycle(isPaste, actions, i).found) + Fragments(isPaste, actions, NextCycle(isPaste, actions, i).next)
  {
    var c := NextCycle(isPaste, actions, i);
    Regroup(before, c.found, Fragments(isPaste, actions, c.next));
  }

  method FindFragments(isPaste: Action -> bool, actions: seq<Action>) returns (fragments: seq<Fragment>)
    ensures fragments == Fragments(isPaste, actions, 0)
  {
    fragments := [];
    var i: nat := 0;
    while i < |actions|
      invariant i <= |actions| && Fragments(isPaste, actions, 0) == fragments + Fragments(isPaste, actions, i)
      decreases |actions| - i
    {
      FragmentsStep(isPaste, actions, i, fragments);
      var cycle := NextCycle(isPaste, actions, i);
      fragments := fragments + cycle.found;
      i := cycle.next;
    }
  }

  method ReplaceStretch(actions: seq<Action>, s: Stretch) returns (result: seq<Action>)
    requires s.first < s.last < |actions|
    ensures result == Replaced(actions, s)
  {
    var inserted := false;
    result := [];
    for i := 0 to |actions|
      invariant inserted <==> i > s.first
      invariant result == if i <= s.first then actions[..i]
                          else if i <= s.last then actions[..s.first] + [s.gather]
                          else actions[..s.first] + [s.gather] + actions[s.last + 1..i]
    {
      if s.first <= i <= s.last {
        if !inserted {
          inserted := true;
          result := result + [s.gather];
        }
        continue;
      }
      result := result + [actions[i]];
    }
  }

  method GatherCompose(isPaste: Action -> bool, actions: seq<Action>) returns (result: seq<Action>)
    ensures result == Gathered(isPaste, actions)
  {
    var fragments := FindFragments(isPaste, actions);
    var stretch := StretchOf(actions, fragments, isPaste);
    if stretch.None? {
      return actions;
    }
    result := ReplaceStretch(actions, stretch.value);
  }

  lemma SuffixIsBlocking(actions: seq<Action>, i: nat)
    requires i <= |actions|
    ensures BlockingFrom(true, actions, i, actions[i..])
  {
    BlockingEmpty(true, actions);
    BlockingKeep(true, actions, i, |actions|, []);
    assert actions[i..|actions|] + [] == actions[i..];
  }

  lemma StretchIsBlocking(actions: seq<Action>, s: Stretch)
    requires s.first < s.last < |actions|
    requires s.gather.start == actions[s.first].start && s.gather.end == actions[s.last].end
    ensures BlockingFrom(true, actions, s.first, [s.gather] + actions[s.last + 1..])
  {
    SuffixIsBlocking(actions, s.last + 1);
    BlockingCons(true, actions, s.first, s.last + 1, s.gather, actions[s.last + 1..]);
  }

  lemma ReplacingIsBlocking(actions: seq<Action>, s: Stretch)
    requires s.first < s.last < |actions|
    requires s.gather.start == actions[s.first].start && s.gather.end == actions[s.last].end
    ensures Blocking(true, actions, Replaced(actions, s))
  {
    var rest := [s.gather] + actions[s.last + 1..];
    StretchIsBlocking(actions, s);
    BlockingKeep(true, actions, 0, s.first, rest);
    assert actions[0..s.first] + rest == Replaced(actions, s);
  }

  lemma GatheredIsBlocking(isPaste: Action -> bool, actions: seq<Action>)
    ensures Blocking(true, actions, Gathered(isPaste, actions))
  {
    var stretch := FindStretch(isPaste, actions);
    if stretch.Some? { ReplacingIsBlocking(actions, stretch.value); } else { BlockingReflexive(true, actions); }
  }

  lemma GatheredIsDerived(isPaste: Action -> bool, actions: seq<Action>)
    ensures Derived(actions, Gathered(isPaste, actions))
  {
    GatheredIsBlocking(isPaste, actions);
    BlockingIsDerived(true, actions, Gathered(isPaste, actions));
  }

  /** There is something to gather exactly if two or more cycles all paste into one app; the action names it and counts them. */
  lemma GatherSays(isPaste: Action -> bool, actions: seq<Action>)
    ensures var cycles, found := Fragments(isPaste, actions, 0), FindStretch(isPaste, actions);
            && (found.Some? <==> |actions| >= 4 && |cycles| >= 2
                                 && forall k :: 0 <= k < |cycles| ==> cycles[k].targetApp == cycles[0].targetApp)
            && (found.Some? ==>
                  && found.value.first == cycles[0].copy && found.value.last == cycles[|cycles| - 1].paste
                  && found.value.gather.name == GATHER_AND_COMPOSE
                  && GetText(found.value.gather, K_TARGET_APP) == cycles[0].targetApp
                  && K_FRAGMENT_COUNT in found.value.gather.params
                  && found.value.gather.params[K_FRAGMENT_COUNT] == Number(|cycles|))
  {
  }
}
