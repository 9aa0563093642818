/** Undo folding: the stack loop computes the unique normal form of cancelling actions against undos. */
module UndoCollapse {
  import opened Subsequences
  import opened Actions

  const UNDO_KEY_CODE := 6

  predicate IsUndoKey(a: Action) {
    && a.name == UI_SHORTCUT
    && K_KEY_CODE in a.params && a.params[K_KEY_CODE] == Number(UNDO_KEY_CODE)
    && K_MODIFIERS in a.params && a.params[K_MODIFIERS].Held? && a.params[K_MODIFIERS].command
  }

  predicate IsUndo(a: Action) {
    IsUndoKey(a) && !a.params[K_MODIFIERS].shift
  }

  predicate IsRedo(a: Action) {
    IsUndoKey(a) && a.params[K_MODIFIERS].shift
  }

  /** Key 6 with the command key: undo without shift, redo with it. */
  lemma UndoMeans(a: Action)
    requires a.name == UI_SHORTCUT && K_KEY_CODE in a.params && K_MODIFIERS in a.params
    ensures IsUndo(a) <==> a.params[K_KEY_CODE] == Number(6) && a.params[K_MODIFIERS] == Held(true, false)
    ensures IsRedo(a) <==> a.params[K_KEY_CODE] == Number(6) && a.params[K_MODIFIERS] == Held(true, true)
  {
  }

  predicate IsPlain(a: Action) {
    !IsUndo(a) && !IsRedo(a)
  }

  function Push(stack: seq<Action>, a: Action): seq<Action> {
    if IsUndo(a) then (if stack == [] then [] else Init(stack))
    else if IsRedo(a) then stack
    else stack + [a]
  }

  function FoldFrom(stack: seq<Action>, actions: seq<Action>): seq<Action>
    decreases |actions|
  {
    if actions == [] then stack else FoldFrom(Push(stack, actions[0]), actions[1..])
  }

  function Fold(actions: seq<Action>): seq<Action> {
    FoldFrom([], actions)
  }

  /** What the strategy returns: it leaves lists of at most one action alone. */
  function Collapsed(s: seq<Action>): seq<Action> {
    if |s| <= 1 then s else Fold(s)
  }

  method Collapse(actions: seq<Action>) returns (stack: seq<Action>)
    ensures stack == Collapsed(actions)
  {
    if |actions| <= 1 {
      return actions;
    }
    stack := [];
    for i := 0 to |actions|
      invariant FoldFrom(stack, actions[i..]) == Fold(actions)
    {
      assert actions[i..][1..] == actions[i + 1..];
      if IsUndo(actions[i]) {
        if stack != [] {
          stack := Init(stack);
        }
      } else if IsRedo(actions[i]) {
        continue;
      } else {
        stack := stack + [actions[i]];
      }
    }
  }

  // ---------- The rewriting that the fold decides ----------

  /** Position `i` of `s` is a redo, a leading undo, or an action right before an undo; `t` is `s` without it. */
  ghost predicate RewritesAt(s: seq<Action>, i: nat, t: seq<Action>) {
    || (i < |s| && IsRedo(s[i]) && t == s[..i] + s[i + 1..])
    || (i == 0 < |s| && IsUndo(s[0]) && t == s[1..])
    || (i + 1 < |s| && IsPlain(s[i]) && IsUndo(s[i + 1]) && t == s[..i] + s[i + 2..])
  }

  ghost predicate Rewrites(s: seq<Action>, t: seq<Action>) {
    exists i :: RewritesAt(s, i, t)
  }

  ghost predicate IsRewriting(path: seq<seq<Action>>) {
    path != [] && forall k :: 0 <= k < |path| - 1 ==> Rewrites(path[k], path[k + 1])
  }

  ghost predicate IsNormal(s: seq<Action>) {
    forall t :: !Rewrites(s, t)
  }

  lemma {:induction false} FoldConcat(stack: seq<Action>, a: seq<Action>, b: seq<Action>)
    ensures FoldFrom(stack, a + b) == FoldFrom(FoldFrom(stack, a), b)
    decreases |a|
  {
    if a == [] {
      assert a + b == b;
    } else {
      assert (a + b)[1..] == a[1..] + b;
      FoldConcat(Push(stack, a[0]), a[1..], b);
    }
  }

  /** A rewrite makes the list shorter and does not change what the fold returns. */
  lemma RewriteKeepsFold(s: seq<Action>, t: seq<Action>)
    requires Rewrites(s, t)
    ensures |t| < |s| && Fold(t) == Fold(s)
  {
    var i: nat :| RewritesAt(s, i, t);
    if IsRedo(s[i]) && t == s[..i] + s[i + 1..] {
      assert s == s[..i] + s[i..];
      assert s[i..][1..] == s[i + 1..];
      FoldConcat([], s[..i], s[i..]);
      FoldConcat([], s[..i], s[i + 1..]);
    } else if i + 1 < |s| && IsPlain(s[i]) && IsUndo(s[i + 1]) && t == s[..i] + s[i + 2..] {
      assert s == s[..i] + s[i..];
      assert s[i..][1..] == s[i + 1..] && s[i + 1..][1..] == s[i + 2..];
      var stack := FoldFrom([], s[..i]);
      assert Init(stack + [s[i]]) == stack;
      FoldConcat([], s[..i], s[i..]);
      FoldConcat([], s[..i], s[i + 2..]);
    } else {
      assert Push([], s[0]) == [];
    }
  }

  lemma {:induction false} FoldOfPlain(stack: seq<Action>, actions: seq<Action>)
    requires forall k :: 0 <= k < |actions| ==> IsPlain(actions[k])
    ensures FoldFrom(stack, actions) == stack + actions
    decreases |actions|
  {
    if actions != [] { FoldOfPlain(stack + [actions[0]], actions[1..]); }
  }

  lemma {:induction false} FoldIsPlain(stack: seq<Action>, actions: seq<Action>)
    requires forall k :: 0 <= k < |stack| ==> IsPlain(stack[k])
    ensures forall k :: 0 <= k < |FoldFrom(stack, actions)| ==> IsPlain(FoldFrom(stack, actions)[k])
    decreases |actions|
  {
    if actions != [] { FoldIsPlain(Push(stack, actions[0]), actions[1..]); }
  }

  /** Nothing is left to rewrite exactly when no undo and no redo is left. */
  lemma NormalIffPlain(s: seq<Action>)
    ensures IsNormal(s) <==> forall k :: 0 <= k < |s| ==> IsPlain(s[k])
  {
    if k :| 0 <= k < |s| && !IsPlain(s[k]) {
      var t := RewriteSomewhere(s, k);
    } else {
      forall t, i: nat ensures !RewritesAt(s, i, t) {
      }
    }
  }

  lemma RewriteSomewhere(s: seq<Action>, k: nat) returns (t: seq<Action>)
    requires k < |s| && !IsPlain(s[k])
    ensures Rewrites(s, t)
  {
    var i: nat := k;
    if IsRedo(s[k]) {
      t := s[..k] + s[k + 1..];
    } else {
      var first := FirstUndo(s, k);
      if first == 0 {
        i, t := 0, s[1..];
      } else if IsRedo(s[first - 1]) {
        i, t := first - 1, s[..first - 1] + s[first..];
      } else {
        i, t := first - 1, s[..first - 1] + s[first + 1..];
      }
    }
    assert RewritesAt(s, i, t);
  }

  lemma {:induction false} FirstUndo(s: seq<Action>, k: nat) returns (first: nat)
    requires k < |s| && IsUndo(s[k])
    ensures first <= k && IsUndo(s[first]) && forall j :: 0 <= j < first ==> !IsUndo(s[j])
  {
    if j :| 0 <= j < k && IsUndo(s[j]) { first := FirstUndo(s, j); } else { first := k; }
  }

  lemma {:induction false} RewritingKeepsFold(path: seq<seq<Action>>)
    requires IsRewriting(path)
    ensures Fold(path[0]) == Fold(Last(path))
  {
    if |path| > 1 {
      RewriteKeepsFold(path[0], path[1]);
      RewritingKeepsFold(path[1..]);
    }
  }

  /** Taking one action off the input is at most one rewrite. */
  lemma PushIsOneRewrite(stack: seq<Action>, rest: seq<Action>)
    requires rest != [] && forall k :: 0 <= k < |stack| ==> IsPlain(stack[k])
    ensures var s, t := stack + rest, Push(stack, rest[0]) + rest[1..];
            if IsPlain(rest[0]) then s == t else Rewrites(s, t)
  {
    var s, t, i := stack + rest, Push(stack, rest[0]) + rest[1..], |stack|;
    if IsPlain(rest[0]) {
      assert s == t;
    } else if IsRedo(rest[0]) {
      assert t == s[..i] + s[i + 1..];
      assert RewritesAt(s, i, t);
    } else if stack == [] {
      assert t == s[1..];
      assert RewritesAt(s, 0, t);
    } else {
      assert t == s[..i - 1] + s[i + 1..];
      assert RewritesAt(s, i - 1, t);
    }
  }

  lemma PrependRewrite(s: seq<Action>, path: seq<seq<Action>>)
    requires IsRewriting(path) && Rewrites(s, path[0])
    ensures IsRewriting([s] + path)
  {
    var longer := [s] + path;
    forall k | 0 <= k < |longer| - 1 ensures Rewrites(longer[k], longer[k + 1]) {
      if k > 0 { assert Rewrites(path[k - 1], path[k - 1 + 1]); }
    }
  }

  /** Some order of rewriting leads from any list to its fold. */
  lemma {:induction false} FoldIsReached(stack: seq<Action>, rest: seq<Action>) returns (path: seq<seq<Action>>)
    requires forall k :: 0 <= k < |stack| ==> IsPlain(stack[k])
    ensures IsRewriting(path) && path[0] == stack + rest && Last(path) == FoldFrom(stack, rest)
    decreases |rest|
  {
    if rest == [] {
      path := [stack + rest];
    } else {
      PushIsOneRewrite(stack, rest);
      path := FoldIsReached(Push(stack, rest[0]), rest[1..]);
      if !IsPlain(rest[0]) {
        PrependRewrite(stack + rest, path);
        path := [stack + rest] + path;
      }
    }
  }

  /** The fold is the one normal form: it is reached, and every maximal rewriting ends in it. */
  lemma FoldIsTheNormalForm(s: seq<Action>)
    ensures IsNormal(Fold(s))
    ensures exists path :: IsRewriting(path) && path[0] == s && Last(path) == Fold(s)
    ensures forall path :: IsRewriting(path) && path[0] == s && IsNormal(Last(path)) ==> Last(path) == Fold(s)
  {
    FoldIsPlain([], s);
    NormalIffPlain(Fold(s));
    var path := FoldIsReached([], s);
    assert [] + s == s;
    forall p | IsRewriting(p) && p[0] == s && IsNormal(Last(p)) ensures Last(p) == Fold(s) {
      RewritingKeepsFold(p);
      NormalIffPlain(Last(p));
      FoldOfPlain([], Last(p));
    }
  }

  /** The strategy misses the normal form exactly on a lone undo or redo. */
  lemma ShortListsAreSkipped(s: seq<Action>)
    ensures Collapsed(s) == Fold(s) <==> !(|s| == 1 && !IsPlain(s[0]))
  {
    if |s| == 1 {
      FoldIsPlain([], s);
      if IsPlain(s[0]) { FoldOfPlain([], s); }
    }
  }

  lemma CollapseIdempotent(s: seq<Action>)
    ensures Collapsed(Collapsed(s)) == Collapsed(s)
  {
    FoldIsPlain([], s);
    FoldOfPlain([], Fold(s));
  }

  lemma PushSelects(s: seq<Action>, i: nat, stack: seq<Action>, kept: seq<nat>) returns (next: seq<nat>)
    requires i < |s| && Embeds(stack, s, kept) && forall k :: 0 <= k < |kept| ==> kept[k] < i
    ensures Embeds(Push(stack, s[i]), s, next) && forall k :: 0 <= k < |next| ==> next[k] <= i
  {
    next := kept;
    if IsPlain(s[i]) {
      next := kept + [i];
    } else if IsUndo(s[i]) && stack != [] {
      next := Init(kept);
    }
  }

  /** What survives is the input without some actions. */
  lemma {:induction false} FoldSelects(s: seq<Action>, i: nat, stack: seq<Action>, kept: seq<nat>)
    returns (indices: seq<nat>)
    requires i <= |s| && Embeds(stack, s, kept) && forall k :: 0 <= k < |kept| ==> kept[k] < i
    ensures Embeds(FoldFrom(stack, s[i..]), s, indices)
    decreases |s| - i
  {
    if i == |s| {
      indices := kept;
    } else {
      assert s[i..][1..] == s[i + 1..];
      var next := PushSelects(s, i, stack, kept);
      indices := FoldSelects(s, i + 1, Push(stack, s[i]), next);
    }
  }

  lemma CollapseIsSubsequence(s: seq<Action>)
    ensures IsSubseq(Collapsed(s), s)
    ensures Derived(s, Collapsed(s))
  {
    DerivedReflexive(s);
    SubseqReflexive(s);
    assert s[0..] == s;
    var indices := FoldSelects(s, 0, [], []);
    EmbeddingIsSubseq(Fold(s), s, indices);
    assert DerivedBy(s, 0, Fold(s), indices, indices);
  }
}
