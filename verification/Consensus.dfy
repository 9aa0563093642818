/**
  Consensus distillation: the longest-common-subsequence table and its walk back,
  folded over the demonstrations of one task.
 */
module Consensus {
  import opened Subsequences

  // ---------- Longest common subsequence ----------

  ghost predicate IsCommon<T>(c: seq<T>, a: seq<T>, b: seq<T>) {
    IsSubseq(c, a) && IsSubseq(c, b)
  }

  /** The value of the table cell for the prefixes `a[..i]` and `b[..j]`. */
  function LcsLen<T(==)>(a: seq<T>, b: seq<T>, i: nat, j: nat): nat
    requires i <= |a| && j <= |b|
  {
    if i == 0 || j == 0 then 0
    else if a[i - 1] == b[j - 1] then LcsLen(a, b, i - 1, j - 1) + 1
    else
      var up, left := LcsLen(a, b, i - 1, j), LcsLen(a, b, i, j - 1);
      if up >= left then up else left
  }

  /** The sequence that walking the table back from cell `(i, j)` spells; ties move up. */
  function WalkBack<T(==)>(a: seq<T>, b: seq<T>, i: nat, j: nat): seq<T>
    requires i <= |a| && j <= |b|
  {
    if i == 0 || j == 0 then []
    else if a[i - 1] == b[j - 1] then WalkBack(a, b, i - 1, j - 1) + [a[i - 1]]
    else if LcsLen(a, b, i - 1, j) >= LcsLen(a, b, i, j - 1) then WalkBack(a, b, i - 1, j)
    else WalkBack(a, b, i, j - 1)
  }

  function LcsOf<T(==)>(a: seq<T>, b: seq<T>): seq<T> {
    WalkBack(a, b, |a|, |b|)
  }

  lemma {:induction false} WalkBackIsCommon<T>(a: seq<T>, b: seq<T>, i: nat, j: nat)
    requires i <= |a| && j <= |b|
    ensures IsCommon(WalkBack(a, b, i, j), a[..i], b[..j])
    ensures |WalkBack(a, b, i, j)| == LcsLen(a, b, i, j)
  {
    if i > 0 && j > 0 {
      var c := WalkBack(a, b, i, j);
      assert a[..i] == a[..i - 1] + [a[i - 1]] && b[..j] == b[..j - 1] + [b[j - 1]];
      if a[i - 1] == b[j - 1] {
        WalkBackIsCommon(a, b, i - 1, j - 1);
        assert Init(c) == WalkBack(a, b, i - 1, j - 1);
        assert Init(a[..i]) == a[..i - 1] && Init(b[..j]) == b[..j - 1];
      } else if LcsLen(a, b, i - 1, j) >= LcsLen(a, b, i, j - 1) {
        WalkBackIsCommon(a, b, i - 1, j);
        SubseqWeaken(c, a[..i - 1], a[i - 1]);
      } else {
        WalkBackIsCommon(a, b, i, j - 1);
        SubseqWeaken(c, b[..j - 1], b[j - 1]);
      }
    }
  }

  lemma {:induction false} NoLongerCommon<T>(a: seq<T>, b: seq<T>, i: nat, j: nat, c: seq<T>)
    requires i <= |a| && j <= |b|
    requires IsCommon(c, a[..i], b[..j])
    ensures |c| <= LcsLen(a, b, i, j)
  {
    if c != [] {
      assert Init(a[..i]) == a[..i - 1] && Init(b[..j]) == b[..j - 1];
      if a[i - 1] == b[j - 1] {
        if Last(c) != a[i - 1] {
          SubseqWeaken(c, a[..i - 1], a[i - 1]);
          SubseqWeaken(c, b[..j - 1], b[j - 1]);
        }
        NoLongerCommon(a, b, i - 1, j - 1, Init(c));
      } else if Last(c) != a[i - 1] {
        NoLongerCommon(a, b, i - 1, j, c);
      } else {
        NoLongerCommon(a, b, i, j - 1, c);
      }
    }
  }

  /** Optimality: the walk spells a common subsequence, and none is longer. */
  lemma LcsOptimal<T>(a: seq<T>, b: seq<T>)
    ensures IsCommon(LcsOf(a, b), a, b)
    ensures forall c :: IsCommon(c, a, b) ==> |c| <= |LcsOf(a, b)|
  {
    assert a[..|a|] == a && b[..|b|] == b;
    WalkBackIsCommon(a, b, |a|, |b|);
    forall c | IsCommon(c, a, b) ensures |c| <= |LcsOf(a, b)| {
      NoLongerCommon(a, b, |a|, |b|, c);
    }
  }

  ghost predicate RowsFilled<T>(dp: array2<nat>, a: seq<T>, b: seq<T>, rows: nat)
    reads dp
  {
    && dp.Length0 == |a| + 1 && dp.Length1 == |b| + 1 && rows <= dp.Length0
    && (forall r, s {:trigger dp[r, s]} :: 0 <= r < rows && 0 <= s <= |b| ==> dp[r, s] == LcsLen(a, b, r, s))
    && (forall r {:trigger dp[r, 0]} :: rows <= r <= |a| ==> dp[r, 0] == 0)
  }

  /** One row of the table, from the row above it. */
  method FillRow<T(==)>(dp: array2<nat>, a: seq<T>, b: seq<T>, i: nat)
    requires 1 <= i <= |a| && RowsFilled(dp, a, b, i)
    modifies dp
    ensures RowsFilled(dp, a, b, i + 1)
  {
    for j := 1 to |b| + 1
      invariant RowsFilled(dp, a, b, i)
      invariant forall s {:trigger dp[i, s]} :: 0 <= s < j ==> dp[i, s] == LcsLen(a, b, i, s)
    {
      if a[i - 1] == b[j - 1] {
        dp[i, j] := dp[i - 1, j - 1] + 1;
      } else {
        dp[i, j] := if dp[i - 1, j] >= dp[i, j - 1] then dp[i - 1, j] else dp[i, j - 1];
      }
    }
  }

  /** Fills the table row by row, then walks it back and reverses what it met. */
  method Lcs<T(==)>(a: seq<T>, b: seq<T>) returns (result: seq<T>)
    ensures result == LcsOf(a, b)
  {
    var m, n := |a|, |b|;
    if m == 0 || n == 0 {
      return [];
    }
    var dp := new nat[m + 1, n + 1]((i, j) => 0);
    for i := 1 to m + 1
      invariant RowsFilled(dp, a, b, i)
    {
      FillRow(dp, a, b, i);
    }
    result := [];
    var i, j := m, n;
    while i > 0 && j > 0
      invariant 0 <= i <= m && 0 <= j <= n
      invariant RowsFilled(dp, a, b, m + 1)
      invariant LcsOf(a, b) == WalkBack(a, b, i, j) + Reverse(result)
      decreases i + j
    {
      assert dp[i - 1, j] == LcsLen(a, b, i - 1, j) && dp[i, j - 1] == LcsLen(a, b, i, j - 1);
      if a[i - 1] == b[j - 1] {
        ReverseAppend(result, a[i - 1]);
        result := result + [a[i - 1]];
        i, j := i - 1, j - 1;
      } else if dp[i - 1, j] >= dp[i, j - 1] {
        i := i - 1;
      } else {
        j := j - 1;
      }
    }
    result := Reverse(result);
  }

  // ---------- Folding over the demonstrations ----------

  type Steps = seq<string>

  function FoldLcs(first: Steps, rest: seq<Steps>): Steps
    decreases |rest|
  {
    if rest == [] then first else LcsOf(FoldLcs(first, Init(rest)), Last(rest))
  }

  ghost predicate CommonToAll(c: Steps, demos: seq<Steps>) {
    forall k :: 0 <= k < |demos| ==> IsSubseq(c, demos[k])
  }

  /** The fold is a common subsequence of every demonstration. */
  lemma {:induction false} FoldIsCommon(first: Steps, rest: seq<Steps>)
    ensures CommonToAll(FoldLcs(first, rest), [first] + rest)
    decreases |rest|
  {
    var demos, c := [first] + rest, FoldLcs(first, rest);
    if rest == [] {
      SubseqReflexive(first);
    } else {
      var before := FoldLcs(first, Init(rest));
      FoldIsCommon(first, Init(rest));
      LcsOptimal(before, Last(rest));
      forall k | 0 <= k < |demos| ensures IsSubseq(c, demos[k]) {
        if k < |rest| {
          assert demos[k] == ([first] + Init(rest))[k];
          SubseqTransitive(c, before, demos[k]);
        }
      }
    }
  }

  ghost predicate IsLongestCommon(c: Steps, a: Steps, b: Steps) {
    IsCommon(c, a, b) && forall d :: IsCommon(d, a, b) ==> |d| <= |c|
  }

  /** Each step of the fold takes a longest common subsequence of what is left and the next demonstration. */
  lemma FoldStepIsLongest(demos: seq<Steps>, k: nat)
    requires 0 < k < |demos|
    ensures FoldLcs(demos[0], demos[1..1]) == demos[0]
    ensures IsLongestCommon(FoldLcs(demos[0], demos[1..k + 1]), FoldLcs(demos[0], demos[1..k]), demos[k])
  {
    var rest := demos[1..k + 1];
    assert demos[1..1] == [] && Init(rest) == demos[1..k] && Last(rest) == demos[k];
    LcsOptimal(FoldLcs(demos[0], Init(rest)), Last(rest));
  }

  ghost predicate FoldIsLongest(demos: seq<Steps>)
    requires demos != []
  {
    forall c :: CommonToAll(c, demos) ==> |c| <= |FoldLcs(demos[0], demos[1..])|
  }

  /**
    The module promises the longest subsequence common to all demonstrations. The pairwise fold
    delivers it for every input exactly when there are at most two demonstrations.
   */
  lemma FoldLongestIffAtMostTwo(k: nat)
    requires k >= 1
    ensures (forall demos: seq<Steps> | |demos| == k :: FoldIsLongest(demos)) <==> k <= 2
  {
    if k <= 2 {
      forall demos: seq<Steps> | |demos| == k ensures FoldIsLongest(demos) {
        FoldOfTwoIsLongest(demos);
      }
    } else {
      FoldMissesCommonSteps(k - 2);
    }
  }

  lemma FoldOfTwoIsLongest(demos: seq<Steps>)
    requires 1 <= |demos| <= 2
    ensures FoldIsLongest(demos)
  {
    forall c | CommonToAll(c, demos) ensures |c| <= |FoldLcs(demos[0], demos[1..])| {
      assert IsSubseq(c, demos[0]);
      if |demos| == 1 {
        SubseqNotLonger(c, demos[0]);
      } else {
        assert FoldLcs(demos[0], Init(demos[1..])) == demos[0];
        LcsOptimal(demos[0], demos[1]);
        assert IsCommon(c, demos[0], demos[1]);
      }
    }
  }

  lemma {:induction false} SubseqNotLonger<T>(s: seq<T>, t: seq<T>)
    requires IsSubseq(s, t)
    ensures |s| <= |t|
    decreases |t|
  {
    if s != [] {
      if Last(s) == Last(t) { SubseqNotLonger(Init(s), Init(t)); } else { SubseqNotLonger(s, Init(t)); }
    }
  }

  /** `ABab`, `abAB` and any number of `ab` share `ab`, yet the fold keeps nothing. */
  lemma FoldMissesCommonSteps(copies: nat)
    requires copies >= 1
    ensures var demos := [["A", "B", "a", "b"], ["a", "b", "A", "B"]] + seq(copies, _ => ["a", "b"]);
            && FoldLcs(demos[0], demos[1..]) == []
            && CommonToAll(["a", "b"], demos)
            && !FoldIsLongest(demos)
  {
    var x, y, z := ["A", "B", "a", "b"], ["a", "b", "A", "B"], ["a", "b"];
    var demos := [x, y] + seq(copies, _ => z);
    FirstFoldPicksCapitals(x, y);
    assert demos[1..] == [y] + seq(copies, _ => z);
    RestOfFoldIsEmpty(x, y, z, copies);
    forall k | 0 <= k < |demos| ensures IsSubseq(z, demos[k]) {
      EmbeddingIsSubseq(z, demos[k], if k == 0 then [2, 3] else [0, 1]);
    }
  }

  lemma FirstFoldPicksCapitals(x: Steps, y: Steps)
    requires x == ["A", "B", "a", "b"] && y == ["a", "b", "A", "B"]
    ensures LcsOf(x, y) == ["A", "B"]
  {
    assert forall i :: 0 <= i < 4 ==> x[i][0] == ['A', 'B', 'a', 'b'][i] && y[i][0] == ['a', 'b', 'A', 'B'][i];
    assert LcsLen(x, y, 1, 1) == 0 && LcsLen(x, y, 1, 2) == 0 && LcsLen(x, y, 2, 1) == 0;
    assert LcsLen(x, y, 1, 3) == 1 && LcsLen(x, y, 2, 4) == 2;
    assert LcsLen(x, y, 3, 1) == 1 && LcsLen(x, y, 3, 2) == 1 && LcsLen(x, y, 4, 2) == 2;
    assert LcsLen(x, y, 2, 2) == 0 && LcsLen(x, y, 2, 3) == 1 && LcsLen(x, y, 3, 3) == 1;
    assert LcsLen(x, y, 3, 4) == 2 && LcsLen(x, y, 4, 3) == 2;
    assert WalkBack(x, y, 1, 3) == ["A"];
    assert WalkBack(x, y, 2, 4) == ["A", "B"];
    assert WalkBack(x, y, 3, 4) == WalkBack(x, y, 2, 4);
    assert WalkBack(x, y, 4, 4) == WalkBack(x, y, 3, 4);
  }

  lemma NothingShared(c: Steps, z: Steps)
    requires forall s :: s in c ==> s !in z
    ensures LcsOf(c, z) == []
  {
    LcsOptimal(c, z);
    var shared := LcsOf(c, z);
    if shared != [] {
      SubseqMember(shared, c, shared[0]);
      SubseqMember(shared, z, shared[0]);
    }
  }

  lemma {:induction false} RestOfFoldIsEmpty(x: Steps, y: Steps, z: Steps, copies: nat)
    requires LcsOf(x, y) == ["A", "B"] && z == ["a", "b"] && copies >= 1
    ensures FoldLcs(x, [y] + seq(copies, _ => z)) == []
  {
    var rest := [y] + seq(copies, _ => z);
    assert Init(rest) == [y] + seq(copies - 1, _ => z);
    if copies == 1 {
      assert Init(rest) == [y] && FoldLcs(x, [y]) == LcsOf(x, y);
      assert Last(rest) == z;
      NothingShared(["A", "B"], z);
    } else {
      RestOfFoldIsEmpty(x, y, z, copies - 1);
    }
  }

  // ---------- Distillation ----------

  datatype Candidate = Candidate(steps: Steps, confidence: real)

  /** `IndexError` is the failure of taking the first of no demonstrations. */
  datatype Outcome = NoCandidate | Distilled(candidate: Candidate) | IndexError

  /** Python's `max(episodes, key=len)`: the first of the longest. */
  function FirstLongest(episodes: seq<Steps>): (best: Steps)
    requires episodes != []
    ensures best in episodes
    ensures forall k :: 0 <= k < |episodes| ==> |episodes[k]| <= |best|
  {
    if |episodes| == 1 then episodes[0]
    else
      var before := FirstLongest(Init(episodes));
      if |Last(episodes)| > |before| then Last(episodes) else before
  }

  function Demonstrations(analyses: seq<seq<Steps>>): seq<Steps> {
    if analyses == [] then []
    else Demonstrations(Init(analyses)) + if Last(analyses) == [] then [] else [FirstLongest(Last(analyses))]
  }

  /** The longest episode, and of several the one that comes first. */
  ghost predicate IsFirstLongest(best: Steps, episodes: seq<Steps>) {
    exists at :: 0 <= at < |episodes| && episodes[at] == best
      && (forall k :: 0 <= k < |episodes| ==> |episodes[k]| <= |best|)
      && (forall k :: 0 <= k < at ==> |episodes[k]| < |best|)
  }

  lemma {:induction false} FirstLongestSpec(episodes: seq<Steps>)
    requires episodes != []
    ensures IsFirstLongest(FirstLongest(episodes), episodes)
  {
    var n := |episodes| - 1;
    if n == 0 {
      assert episodes[0] == FirstLongest(episodes);
    } else {
      var before := FirstLongest(Init(episodes));
      FirstLongestSpec(Init(episodes));
      var at :| 0 <= at < n && Init(episodes)[at] == before
                && (forall k :: 0 <= k < n ==> |Init(episodes)[k]| <= |before|)
                && (forall k :: 0 <= k < at ==> |Init(episodes)[k]| < |before|);
      assert forall k :: 0 <= k < n ==> episodes[k] == Init(episodes)[k];
      var place := if |Last(episodes)| > |before| then n else at;
      assert episodes[place] == FirstLongest(episodes);
    }
  }

  ghost predicate SelectedFrom(analyses: seq<seq<Steps>>, i: nat, demo: Steps) {
    i < |analyses| && analyses[i] != [] && IsFirstLongest(demo, analyses[i])
  }

  /** By position: one demonstration for each analysis with episodes, in their order, its first longest episode. */
  ghost predicate Selects(analyses: seq<seq<Steps>>, demos: seq<Steps>, from: seq<nat>) {
    && |from| == |demos| && StrictlyIncreasing(from)
    && (forall k {:trigger from[k]} :: 0 <= k < |from| ==> SelectedFrom(analyses, from[k], demos[k]))
    && (forall i :: 0 <= i < |analyses| && analyses[i] != [] ==> i in from)
  }

  /** One more analysis adds its first longest episode, if it has any. */
  lemma SelectOneMore(analyses: seq<seq<Steps>>, demos: seq<Steps>, from: seq<nat>)
    requires analyses != [] && Selects(Init(analyses), demos, from)
    ensures var n, last := |analyses| - 1, Last(analyses);
            if last == [] then Selects(analyses, demos, from)
            else Selects(analyses, demos + [FirstLongest(last)], from + [n])
  {
    var n := |analyses| - 1;
    forall k {:trigger from[k]} | 0 <= k < |from| ensures from[k] < n && SelectedFrom(analyses, from[k], demos[k]) {
      assert SelectedFrom(Init(analyses), from[k], demos[k]);
    }
    forall i | 0 <= i < n && analyses[i] != [] ensures i in from {
      assert Init(analyses)[i] != [];
    }
    if analyses[n] != [] {
      FirstLongestSpec(analyses[n]);
      var more := from + [n];
      assert more[|from|] == n;
      forall i | 0 <= i < |analyses| && analyses[i] != [] ensures i in more {
        if i < n { assert i in from; }
      }
    }
  }

  lemma {:induction false} DemonstrationsByPosition(analyses: seq<seq<Steps>>) returns (from: seq<nat>)
    ensures Selects(analyses, Demonstrations(analyses), from)
  {
    from := [];
    if analyses != [] {
      from := DemonstrationsByPosition(Init(analyses));
      SelectOneMore(analyses, Demonstrations(Init(analyses)), from);
      if Last(analyses) != [] { from := from + [|analyses| - 1]; }
    }
  }

  lemma FirstLongestIsUnique(a: Steps, b: Steps, episodes: seq<Steps>)
    requires IsFirstLongest(a, episodes) && IsFirstLongest(b, episodes)
    ensures a == b
  {
  }

  lemma LastIsGreatest(f: seq<nat>, i: nat)
    requires StrictlyIncreasing(f) && i in f
    ensures i <= Last(f) && (i in Init(f) <==> i != Last(f))
  {
    var k :| 0 <= k < |f| && f[k] == i;
    if k < |f| - 1 { assert Init(f)[k] == i; }
    if i in Init(f) { var j :| 0 <= j < |f| - 1 && Init(f)[j] == i; }
  }

  ghost predicate SameMembers(f: seq<nat>, g: seq<nat>) {
    forall i :: i in f <==> i in g
  }

  lemma SameLast(f: seq<nat>, g: seq<nat>)
    requires StrictlyIncreasing(f) && StrictlyIncreasing(g) && SameMembers(f, g) && f != []
    ensures g != [] && Last(f) == Last(g)
  {
    assert f[|f| - 1] in f && f[|f| - 1] in g;
    assert g[|g| - 1] in g && g[|g| - 1] in f;
    LastIsGreatest(f, g[|g| - 1]);
    LastIsGreatest(g, f[|f| - 1]);
  }

  lemma SameInit(f: seq<nat>, g: seq<nat>)
    requires StrictlyIncreasing(f) && StrictlyIncreasing(g) && SameMembers(f, g) && f != []
    ensures g != [] && SameMembers(Init(f), Init(g))
  {
    SameLast(f, g);
    forall i ensures i in Init(f) <==> i in Init(g) {
      if i in f {
        LastIsGreatest(f, i);
        LastIsGreatest(g, i);
      }
    }
  }

  lemma {:induction false} SameMembersSameOrder(f: seq<nat>, g: seq<nat>)
    requires StrictlyIncreasing(f) && StrictlyIncreasing(g) && SameMembers(f, g)
    ensures f == g
  {
    assert g != [] ==> g[0] in g;
    if f != [] {
      SameLast(f, g);
      SameInit(f, g);
      SameMembersSameOrder(Init(f), Init(g));
      assert f == Init(f) + [Last(f)] && g == Init(g) + [Last(g)];
    }
  }

  /** The demonstrations are determined by that. */
  lemma SelectionIsUnique(analyses: seq<seq<Steps>>, a: seq<Steps>, f: seq<nat>, b: seq<Steps>, g: seq<nat>)
    requires Selects(analyses, a, f) && Selects(analyses, b, g)
    ensures a == b
  {
    forall i ensures i in f <==> i in g {
      if i in f { var k :| 0 <= k < |f| && f[k] == i; }
      if i in g { var k :| 0 <= k < |g| && g[k] == i; }
    }
    SameMembersSameOrder(f, g);
    forall k | 0 <= k < |a| ensures a[k] == b[k] {
      assert SelectedFrom(analyses, f[k], a[k]) && SelectedFrom(analyses, g[k], b[k]);
      FirstLongestIsUnique(a[k], b[k], analyses[f[k]]);
    }
  }

  function ConsensusOf(demos: seq<Steps>): Steps
    requires demos != []
  {
    FoldLcs(demos[0], demos[1..])
  }

  /** How many demonstrations contain the step. */
  function Frequency(demos: seq<Steps>, step: string): nat {
    if demos == [] then 0 else Frequency(Init(demos), step) + if step in Last(demos) then 1 else 0
  }

  lemma {:induction false} FrequencyIsTotal(demos: seq<Steps>, step: string)
    ensures Frequency(demos, step) <= |demos|
    ensures Frequency(demos, step) == |demos| <==> forall k :: 0 <= k < |demos| ==> step in demos[k]
  {
    if demos != [] {
      FrequencyIsTotal(Init(demos), step);
      assert forall k :: 0 <= k < |demos| - 1 ==> demos[k] == Init(demos)[k];
    }
  }

  lemma ConsensusStepIsEverywhere(demos: seq<Steps>, step: string)
    requires demos != [] && step in ConsensusOf(demos)
    ensures Frequency(demos, step) == |demos|
  {
    FoldIsCommon(demos[0], demos[1..]);
    assert [demos[0]] + demos[1..] == demos;
    forall k | 0 <= k < |demos| ensures step in demos[k] {
      SubseqMember(ConsensusOf(demos), demos[k], step);
    }
    FrequencyIsTotal(demos, step);
  }

  ghost predicate Counts(frequency: map<string, nat>, demos: seq<Steps>) {
    forall s :: Get(frequency, s) == Frequency(demos, s)
  }

  function Get(frequency: map<string, nat>, s: string): nat {
    if s in frequency then frequency[s] else 0
  }

  /** Counts each step once per demonstration that contains it. */
  method CountSteps(demos: seq<Steps>) returns (frequency: map<string, nat>)
    ensures Counts(frequency, demos)
  {
    frequency := map[];
    for k := 0 to |demos|
      invariant Counts(frequency, demos[..k])
    {
      assert Init(demos[..k + 1]) == demos[..k];
      var todo := set s | s in demos[k];
      while todo != {}
        invariant forall s :: s in todo ==> s in demos[k]
        invariant forall s :: Get(frequency, s) ==
                    Frequency(demos[..k], s) + if s in demos[k] && s !in todo then 1 else 0
        decreases |todo|
      {
        var a :| a in todo;
        frequency := frequency[a := Get(frequency, a) + 1];
        todo := todo - {a};
      }
    }
    assert demos[..|demos|] == demos;
  }

  method SelectDemonstrations(analyses: seq<seq<Steps>>) returns (demos: seq<Steps>)
    ensures demos == Demonstrations(analyses) && |demos| <= |analyses|
    ensures exists from :: Selects(analyses, demos, from)
  {
    demos := [];
    for k := 0 to |analyses|
      invariant demos == Demonstrations(analyses[..k]) && |demos| <= k
    {
      assert Init(analyses[..k + 1]) == analyses[..k];
      if analyses[k] != [] {
        demos := demos + [FirstLongest(analyses[k])];
      }
    }
    assert analyses[..|analyses|] == analyses;
    var from := DemonstrationsByPosition(analyses);
  }

  method FoldDemonstrations(demos: seq<Steps>) returns (consensus: Steps)
    requires demos != []
    ensures consensus == ConsensusOf(demos)
  {
    consensus := demos[0];
    for k := 1 to |demos|
      invariant consensus == FoldLcs(demos[0], demos[1..k])
    {
      assert Init(demos[1..k + 1]) == demos[1..k];
      consensus := Lcs(consensus, demos[k]);
    }
    assert demos[1..|demos|] == demos[1..];
  }

  lemma DivSelf(x: real)
    requires x != 0.0
    ensures x / x == 1.0
  {
  }

  /** The mean relative frequency of the consensus steps, which is always one. */
  method MeanFrequency(demos: seq<Steps>, consensus: Steps) returns (confidence: real)
    requires demos != [] && consensus == ConsensusOf(demos) && consensus != []
    ensures confidence == 1.0
  {
    var total := |demos|;
    var frequency := CountSteps(demos);
    var sum := 0.0;
    for k := 0 to |consensus|
      invariant sum == k as real
    {
      ConsensusStepIsEverywhere(demos, consensus[k]);
      assert Get(frequency, consensus[k]) == total;
      DivSelf(total as real);
      sum := sum + Get(frequency, consensus[k]) as real / total as real;
    }
    confidence := sum / |consensus| as real;
    DivSelf(|consensus| as real);
  }

  /**
    The distiller, given what the analysis of each trajectory returned. A candidate is returned
    exactly when enough demonstrations exist and they share at least two steps, its steps are a
    subsequence of every demonstration, and its confidence is always the cap. A minimum of zero
    or less lets it index an empty list.
   */
  method DistillConsensus(analyses: seq<seq<Steps>>, minCount: int) returns (outcome: Outcome)
    ensures var demos := Demonstrations(analyses);
            if |demos| < minCount then outcome == NoCandidate
            else if demos == [] then outcome == IndexError
            else if |ConsensusOf(demos)| < 2 then outcome == NoCandidate
            else outcome == Distilled(Candidate(ConsensusOf(demos), 0.95))
    ensures outcome.Distilled? ==> CommonToAll(outcome.candidate.steps, Demonstrations(analyses))
    ensures forall demos, from :: Selects(analyses, demos, from) ==>
              (outcome.Distilled? <==> minCount <= |from| && demos != [] && |ConsensusOf(demos)| >= 2)
  {
    var demos := SelectDemonstrations(analyses);
    forall other, f | Selects(analyses, other, f) ensures other == demos && |f| == |demos| {
      var from := DemonstrationsByPosition(analyses);
      SelectionIsUnique(analyses, other, f, demos, from);
    }
    if |analyses| < minCount || |demos| < minCount {
      return NoCandidate;
    }
    if demos == [] {
      return IndexError;
    }
    var consensus := FoldDemonstrations(demos);
    if |consensus| < 2 {
      return NoCandidate;
    }
    var confidence := MeanFrequency(demos, consensus);
    FoldIsCommon(demos[0], demos[1..]);
    assert [demos[0]] + demos[1..] == demos;
    return Distilled(Candidate(consensus, if confidence < 0.95 then confidence else 0.95));
  }
}
