/**
  Semantic actions, the paths and parameters the abstraction rules look at, and the two ways in
  which the output of a rule can be related to its input.
 */
module Actions {
  import opened Subsequences

  /** Words are interned: equal numbers stand for equal words. */
  type Word = int

  const NO_EXT: Word := 0

  /**
    A text, seen the way `os.path` takes it apart: what precedes the last slash, the file name without
    its extension, the extension in lower case, and whether the file name contains a dot.
   */
  datatype Text = Empty | Path(dir: Text, stem: Word, ext: Word, dotted: bool)

  /** Parameter values; `Held` is a list of modifier keys, reduced to the two that are asked for. */
  datatype Param =
    | One(text: Text) | Many(texts: seq<Text>) | Number(number: int) | Flag(flag: bool)
    | Held(command: bool, shift: bool)

  /** Action names are interned: each constant stands for the name beside it, other numbers for other names. */
  type Name = int

  const FILE_CREATE: Name := 0 // file.create
  const FILE_MODIFY: Name := 1 // file.modify
  const FILE_DELETE: Name := 2 // file.delete
  const FILE_RENAME: Name := 3 // file.rename
  const FILE_MOVE: Name := 4 // file.move
  const CLIPBOARD_COPY: Name := 5 // clipboard.copy
  const APP_SWITCH: Name := 6 // app.switch
  const UI_TYPE: Name := 7 // ui.type
  const UI_SHORTCUT: Name := 8 // ui.shortcut
  const UI_SCROLL: Name := 9 // ui.scroll
  const UI_MOVE: Name := 10 // ui.move
  const UI_RESIZE: Name := 11 // ui.resize
  const TYPE_TEXT: Name := 12 // type_text
  const WINDOW_MOVE: Name := 13 // window.move
  const WINDOW_ARRANGE: Name := 14 // window.arrange
  const BATCH_MODIFY: Name := 15 // batch_modify
  const BATCH_CREATE: Name := 16 // batch_create
  const BATCH_RENAME: Name := 17 // batch_rename
  const BATCH_MOVE: Name := 18 // batch_move
  const BATCH_COPY: Name := 19 // batch_copy
  const BATCH_DELETE: Name := 20 // batch_delete
  const ORGANIZE_FILES: Name := 21 // organize_files_to_folder
  const RENAME_FILE: Name := 22 // rename_file
  const CREATE_DOCUMENT: Name := 23 // create_document
  const DOWNLOAD_FILE: Name := 24 // download_file
  const GATHER_AND_COMPOSE: Name := 25 // gather_and_compose

  /** Parameter keys are interned in the same way. */
  type Key = int

  const K_PATH: Key := 0 // path
  const K_TARGET: Key := 1 // target
  const K_TARGET_LABEL: Key := 2 // target_label
  const K_SOURCE: Key := 3 // source
  const K_DESTINATION: Key := 4 // destination
  const K_APP_BUNDLE_ID: Key := 5 // app_bundle_id
  const K_PREVIOUS_APP: Key := 6 // _prev_app
  const K_KEY_CODE: Key := 7 // key_code
  const K_MODIFIERS: Key := 8 // modifiers
  const K_CHARACTER: Key := 9 // char
  const K_INOTIFY_COOKIE: Key := 10 // inotify_cookie
  const K_MERGED_COUNT: Key := 11 // _merged_count
  const K_EVENT_COUNT: Key := 12 // event_count
  const K_HAS_RESIZE: Key := 13 // has_resize
  const K_KEYSTROKE_COUNT: Key := 14 // keystroke_count
  const K_TEXT_CONTENT: Key := 15 // text_content
  const K_COUNT: Key := 16 // count
  const K_TARGET_DIR: Key := 17 // target_dir
  const K_SOURCES: Key := 18 // sources
  const K_DESTINATIONS: Key := 19 // destinations
  const K_FIRST_FILE: Key := 20 // first_file
  const K_FOLDER: Key := 21 // folder
  const K_FOLDER_NAME: Key := 22 // folder_name
  const K_FILES: Key := 23 // files
  const K_FILE_COUNT: Key := 24 // file_count
  const K_DIRECTORY: Key := 25 // directory
  const K_EXTENSION: Key := 26 // extension
  const K_FILENAME: Key := 27 // filename
  const K_TARGET_APP: Key := 28 // target_app
  const K_FRAGMENT_COUNT: Key := 29 // fragment_count

  type Params = map<Key, Param>

  /** `[start, end)` is the range of raw steps the action was abstracted from. */
  datatype Action = Action(name: Name, params: Params, start: int, end: int, confidence: real)

  function GetText(a: Action, key: Key): Text {
    if key in a.params && a.params[key].One? then a.params[key].text else Empty
  }

  function FirstText(a: Action, key: Key, fallback: Key): Text {
    if GetText(a, key) != Empty then GetText(a, key) else GetText(a, fallback)
  }

  /** The single action that a block of input actions is merged into. */
  function Merging(block: seq<Action>, name: Name, params: Params, confidence: real): Action
    requires block != []
  {
    Action(name, params, block[0].start, Last(block).end, confidence)
  }

  function LeastConfidence(block: seq<Action>): real
    requires block != []
  {
    if |block| == 1 then block[0].confidence
    else
      var least := LeastConfidence(block[1..]);
      if block[0].confidence <= least then block[0].confidence else least
  }

  /** The parameters of all actions of the block, later ones overriding earlier ones. */
  function AllParams(block: seq<Action>): Params {
    if block == [] then map[] else AllParams(Init(block)) + Last(block).params
  }

  /** The confidence of a merged block is reached by one of its actions and exceeded by none of them. */
  lemma {:induction false} LeastConfidenceSpec(block: seq<Action>)
    requires block != []
    ensures forall k :: 0 <= k < |block| ==> LeastConfidence(block) <= block[k].confidence
    ensures exists k :: 0 <= k < |block| && block[k].confidence == LeastConfidence(block)
  {
    if |block| == 1 {
      assert block[0].confidence == LeastConfidence(block);
    } else {
      var rest := block[1..];
      LeastConfidenceSpec(rest);
      var k :| 0 <= k < |rest| && rest[k].confidence == LeastConfidence(rest);
      assert block[k + 1].confidence == LeastConfidence(rest);
      assert forall j :: 0 < j < |block| ==> block[j] == rest[j - 1];
      assert block[0].confidence == LeastConfidence(block) || block[k + 1].confidence == LeastConfidence(block);
    }
  }

  ghost predicate IsLastWith(block: seq<Action>, key: Key, k: nat)
    requires k < |block|
  {
    key in block[k].params && forall j :: k < j < |block| ==> key !in block[j].params
  }

  /** A parameter of a block is what the last action that has it says. */
  lemma {:induction false} AllParamsLast(block: seq<Action>, key: Key, k: nat)
    requires k < |block| && IsLastWith(block, key, k)
    ensures key in AllParams(block) && AllParams(block)[key] == block[k].params[key]
  {
    if k < |block| - 1 {
      assert key !in Last(block).params;
      assert IsLastWith(Init(block), key, k);
      AllParamsLast(Init(block), key, k);
    }
  }

  /** And no block has a parameter that none of its actions has. */
  lemma {:induction false} AllParamsFrom(block: seq<Action>, key: Key)
    requires key in AllParams(block)
    ensures exists k :: 0 <= k < |block| && key in block[k].params
  {
    if key in Last(block).params {
      assert key in block[|block| - 1].params;
    } else {
      AllParamsFrom(Init(block), key);
      var k :| 0 <= k < |block| - 1 && key in Init(block)[k].params;
      assert key in block[k].params;
    }
  }

  // ---------- Paths ----------

  function Dirname(t: Text): Text {
    if t == Empty then Empty else t.dir
  }

  function Basename(t: Text): Text {
    if t == Empty then Empty else t.(dir := Empty)
  }

  function Extension(t: Text): Word {
    if t == Empty then NO_EXT else t.ext
  }

  /** The path without its extension. */
  function Stem(t: Text): Text {
    if t == Empty then Empty else t.(ext := NO_EXT, dotted := false)
  }

  /** Whether the path lies below the folder, at any depth. */
  predicate IsBelow(t: Text, folder: Text) {
    t != Empty && (t.dir == folder || IsBelow(t.dir, folder))
  }

  /** A path is its folder and its file name. */
  lemma FolderAndName(a: Text, b: Text)
    ensures Dirname(a) == Dirname(b) && Basename(a) == Basename(b) ==> a == b
    ensures a != Empty ==> Dirname(Basename(a)) == Empty && Basename(Basename(a)) == Basename(a)
    ensures a != Empty ==> Dirname(Stem(a)) == Dirname(a) && Extension(Stem(a)) == NO_EXT
  {
  }

  /** The folder so many levels up. */
  function Ancestor(t: Text, levels: nat): Text {
    if levels == 0 || t == Empty then t else Ancestor(t.dir, levels - 1)
  }

  lemma {:induction false} AncestorIsBelow(t: Text, folder: Text, levels: nat)
    requires folder != Empty && levels > 0 && Ancestor(t, levels) == folder
    ensures IsBelow(t, folder)
    decreases levels
  {
    if levels > 1 { AncestorIsBelow(t.dir, folder, levels - 1); }
  }

  lemma {:induction false} BelowHasAncestor(t: Text, folder: Text) returns (levels: nat)
    requires IsBelow(t, folder)
    ensures levels > 0 && Ancestor(t, levels) == folder
  {
    if t.dir == folder {
      levels := 1;
    } else {
      levels := BelowHasAncestor(t.dir, folder);
      levels := levels + 1;
    }
  }

  /** Being below a folder is having it as an ancestor, at any depth. */
  lemma BelowIffAncestor(t: Text, folder: Text)
    requires folder != Empty
    ensures IsBelow(t, folder) <==> exists levels: nat :: levels > 0 && Ancestor(t, levels) == folder
  {
    if IsBelow(t, folder) {
      var levels := BelowHasAncestor(t, folder);
    } else if levels: nat :| levels > 0 && Ancestor(t, levels) == folder {
      AncestorIsBelow(t, folder, levels);
    }
  }

  // ---------- Derived: every output comes from an input span, in order of the span starts ----------

  ghost predicate DerivedBy(input: seq<Action>, from: nat, output: seq<Action>, first: seq<nat>, last: seq<nat>) {
    && |first| == |last| == |output|
    && StrictlyIncreasing(first)
    && forall k {:trigger first[k]} :: 0 <= k < |output| ==>
         && from <= first[k] <= last[k] < |input|
         && output[k].start == input[first[k]].start
         && output[k].end == input[last[k]].end
  }

  ghost predicate DerivedFrom(input: seq<Action>, from: nat, output: seq<Action>) {
    exists first, last :: DerivedBy(input, from, output, first, last)
  }

  ghost predicate Derived(input: seq<Action>, output: seq<Action>) {
    DerivedFrom(input, 0, output)
  }

  lemma DerivedEmpty(input: seq<Action>, from: nat)
    ensures DerivedFrom(input, from, [])
  {
    assert DerivedBy(input, from, [], [], []);
  }

  lemma DerivedSkip(input: seq<Action>, from: nat, later: nat, output: seq<Action>)
    requires DerivedFrom(input, later, output) && from <= later
    ensures DerivedFrom(input, from, output)
  {
    var first: seq<nat>, last: seq<nat> :| DerivedBy(input, later, output, first, last);
    forall k | 0 <= k < |output| ensures from <= first[k] <= last[k] < |input| {
      assert later <= first[k];
    }
    assert DerivedBy(input, from, output, first, last);
  }

  /** One more output, made from the input span `[a, b]`, in front of what is derived from behind `a`. */
  lemma DerivedCons(input: seq<Action>, a: nat, b: nat, head: Action, output: seq<Action>)
    requires a <= b < |input| && head.start == input[a].start && head.end == input[b].end
    requires DerivedFrom(input, a + 1, output)
    ensures DerivedFrom(input, a, [head] + output)
  {
    var first, last :| DerivedBy(input, a + 1, output, first, last);
    var f: seq<nat>, l: seq<nat>, longer := [a] + first, [b] + last, [head] + output;
    forall k | 0 <= k < |longer|
      ensures a <= f[k] <= l[k] < |input| && longer[k].start == input[f[k]].start && longer[k].end == input[l[k]].end
    {
      if k > 0 { assert f[k] == first[k - 1] && l[k] == last[k - 1] && longer[k] == output[k - 1]; }
    }
    assert DerivedBy(input, a, longer, f, l);
  }

  lemma DerivedReflexive(input: seq<Action>)
    ensures Derived(input, input)
  {
    var id := seq(|input|, k => k);
    assert DerivedBy(input, 0, input, id, id);
  }

  lemma DerivedTransitive(a: seq<Action>, b: seq<Action>, c: seq<Action>)
    requires Derived(a, b) && Derived(b, c)
    ensures Derived(a, c)
  {
    var f: seq<nat>, l: seq<nat> :| DerivedBy(a, 0, b, f, l);
    var g: seq<nat>, m: seq<nat> :| DerivedBy(b, 0, c, g, m);
    forall k | 0 <= k < |c| ensures g[k] <= m[k] < |b| && f[g[k]] <= f[m[k]] <= l[m[k]] < |a| {
      assert g[k] <= m[k];
    }
    var first: seq<nat> := seq(|c|, k requires 0 <= k < |c| => f[g[k]]);
    var last: seq<nat> := seq(|c|, k requires 0 <= k < |c| => l[m[k]]);
    forall i, j | 0 <= i < j < |c| ensures first[i] < first[j] {
      assert g[i] < g[j];
    }
    forall k | 0 <= k < |c| ensures c[k].start == a[first[k]].start && c[k].end == a[last[k]].end {
      assert g[k] <= m[k] && f[g[k]] <= l[g[k]] && f[m[k]] <= l[m[k]];
    }
    assert DerivedBy(a, 0, c, first, last);
  }

  /** Raw ranges of `n` steps: starts strictly increasing, every range non-empty and in bounds. */
  ghost predicate Provenance(n: nat, actions: seq<Action>) {
    && (forall i, j :: 0 <= i < j < |actions| ==> actions[i].start < actions[j].start)
    && (forall i :: 0 <= i < |actions| ==> 0 <= actions[i].start < actions[i].end <= n)
  }

  lemma DerivedKeepsProvenance(n: nat, input: seq<Action>, output: seq<Action>)
    requires Provenance(n, input) && Derived(input, output)
    ensures Provenance(n, output) && |output| <= |input|
  {
    var first, last :| DerivedBy(input, 0, output, first, last);
    forall k | 0 <= k < |output| ensures 0 <= output[k].start < output[k].end <= n {
      assert first[k] <= last[k];
      assert input[first[k]].start <= input[last[k]].start;
    }
    forall i, j | 0 <= i < j < |output| ensures output[i].start < output[j].start {
      assert first[i] < first[j];
    }
    IncreasingIsShort(first, |input|);
  }

  lemma {:induction false} IncreasingIsShort(f: seq<nat>, n: nat)
    requires StrictlyIncreasing(f) && forall k :: 0 <= k < |f| ==> f[k] < n
    ensures |f| <= n
  {
    if f != [] { IncreasingIsShort(Init(f), Last(f)); }
  }

  // ---------- Blocking: the input cut into consecutive blocks, one output per block ----------

  /** The output spans the input block `[i, e)`; a faithful one leaves a block of one unchanged. */
  ghost predicate SpansBlock(faithful: bool, input: seq<Action>, i: nat, e: nat, a: Action) {
    && i < e <= |input| && a.start == input[i].start && a.end == input[e - 1].end
    && (faithful && e == i + 1 ==> a == input[i])
  }

  ghost predicate BlockingBy(faithful: bool, input: seq<Action>, from: nat, output: seq<Action>, cuts: seq<nat>) {
    && |cuts| == |output| + 1
    && cuts[0] == from && Last(cuts) == |input|
    && StrictlyIncreasing(cuts)
    && forall k {:trigger output[k]} :: 0 <= k < |output| ==> SpansBlock(faithful, input, cuts[k], cuts[k + 1], output[k])
  }

  ghost predicate BlockingFrom(faithful: bool, input: seq<Action>, from: nat, output: seq<Action>) {
    exists cuts :: BlockingBy(faithful, input, from, output, cuts)
  }

  ghost predicate Blocking(faithful: bool, input: seq<Action>, output: seq<Action>) {
    BlockingFrom(faithful, input, 0, output)
  }

  lemma BlockingEmpty(faithful: bool, input: seq<Action>)
    ensures BlockingFrom(faithful, input, |input|, [])
  {
    assert BlockingBy(faithful, input, |input|, [], [|input|]);
  }

  lemma BlockingCons(faithful: bool, input: seq<Action>, a: nat, e: nat, head: Action, output: seq<Action>)
    requires SpansBlock(faithful, input, a, e, head)
    requires BlockingFrom(faithful, input, e, output)
    ensures BlockingFrom(faithful, input, a, [head] + output)
  {
    var cuts: seq<nat> :| BlockingBy(faithful, input, e, output, cuts);
    var c: seq<nat>, longer := [a] + cuts, [head] + output;
    assert Last(c) == Last(cuts);
    forall k | 0 <= k < |longer| ensures SpansBlock(faithful, input, c[k], c[k + 1], longer[k]) {
      if k > 0 { assert c[k] == cuts[k - 1] && c[k + 1] == cuts[k] && longer[k] == output[k - 1]; }
    }
    assert BlockingBy(faithful, input, a, longer, c);
  }

  /** A block passed through unchanged is as many blocks of one. */
  lemma {:induction false} BlockingKeep(faithful: bool, input: seq<Action>, a: nat, e: nat, output: seq<Action>)
    requires a <= e <= |input| && BlockingFrom(faithful, input, e, output)
    ensures BlockingFrom(faithful, input, a, input[a..e] + output)
    decreases e - a
  {
    if a == e {
      assert input[a..e] + output == output;
    } else {
      BlockingKeep(faithful, input, a + 1, e, output);
      assert input[a..e] + output == [input[a]] + (input[a + 1..e] + output);
      BlockingCons(faithful, input, a, a + 1, input[a], input[a + 1..e] + output);
    }
  }

  lemma BlockingIsDerived(faithful: bool, input: seq<Action>, output: seq<Action>)
    requires Blocking(faithful, input, output)
    ensures Derived(input, output)
  {
    var cuts: seq<nat> :| BlockingBy(faithful, input, 0, output, cuts);
    var first: seq<nat> := cuts[..|output|];
    var last: seq<nat> := seq(|output|, k requires 0 <= k < |output| => cuts[k + 1] - 1);
    forall k {:trigger first[k]} | 0 <= k < |output|
      ensures first[k] <= last[k] < |input| && output[k].start == input[first[k]].start && output[k].end == input[last[k]].end
    {
      assert SpansBlock(faithful, input, cuts[k], cuts[k + 1], output[k]);
    }
    assert DerivedBy(input, 0, output, first, last);
  }

  lemma IncreasingAtMostLast(f: seq<nat>, k: nat)
    requires StrictlyIncreasing(f) && k < |f|
    ensures f[k] <= Last(f)
  {
  }

  /** Blockings compose, so contiguous merges may be chained in any order. */
  lemma BlockingTransitive(faithful: bool, a: seq<Action>, b: seq<Action>, c: seq<Action>)
    requires Blocking(faithful, a, b) && Blocking(faithful, b, c)
    ensures Blocking(faithful, a, c)
  {
    var f: seq<nat> :| BlockingBy(faithful, a, 0, b, f);
    var g: seq<nat> :| BlockingBy(faithful, b, 0, c, g);
    forall k | 0 <= k < |g| ensures g[k] < |f| {
      IncreasingAtMostLast(g, k);
    }
    var cuts: seq<nat> := seq(|g|, k requires 0 <= k < |g| => f[g[k]]);
    forall k | 0 <= k < |c| ensures SpansBlock(faithful, a, cuts[k], cuts[k + 1], c[k]) {
      assert SpansBlock(faithful, b, g[k], g[k + 1], c[k]);
      assert SpansBlock(faithful, a, f[g[k]], f[g[k] + 1], b[g[k]]);
      assert SpansBlock(faithful, a, f[g[k + 1] - 1], f[g[k + 1]], b[g[k + 1] - 1]);
      assert cuts[k] < cuts[k + 1];
    }
    assert BlockingBy(faithful, a, 0, c, cuts);
  }

  lemma BlockingReflexive(faithful: bool, a: seq<Action>)
    ensures Blocking(faithful, a, a)
  {
    BlockingEmpty(faithful, a);
    BlockingKeep(faithful, a, 0, |a|, []);
    assert a[0..|a|] + [] == a;
  }

  /** Ranges in order and disjoint. */
  ghost predicate SortedDisjoint(actions: seq<Action>) {
    && (forall i :: 0 <= i < |actions| ==> actions[i].start < actions[i].end)
    && (forall i, j :: 0 <= i < j < |actions| ==> actions[i].end <= actions[j].start)
  }

  lemma BlockingKeepsSortedDisjoint(faithful: bool, input: seq<Action>, output: seq<Action>)
    requires SortedDisjoint(input) && Blocking(faithful, input, output)
    ensures SortedDisjoint(output)
  {
    var cuts: seq<nat> :| BlockingBy(faithful, input, 0, output, cuts);
    forall i | 0 <= i < |output| ensures output[i].start < output[i].end {
      assert SpansBlock(faithful, input, cuts[i], cuts[i + 1], output[i]);
      if cuts[i] < cuts[i + 1] - 1 { assert input[cuts[i]].end <= input[cuts[i + 1] - 1].start; }
    }
    forall i, j | 0 <= i < j < |output| ensures output[i].end <= output[j].start {
      assert SpansBlock(faithful, input, cuts[i], cuts[i + 1], output[i]) && SpansBlock(faithful, input, cuts[j], cuts[j + 1], output[j]);
      assert i + 1 == j || cuts[i + 1] < cuts[j];
      assert input[cuts[i + 1] - 1].end <= input[cuts[j]].start;
    }
  }
}
