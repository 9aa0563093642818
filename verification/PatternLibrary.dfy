/**
  The pattern library: greedy matching of action sequences, longest pattern first, and the pass
  that replaces each match by one action.
 */
module PatternLibrary {
  import opened Subsequences
  import opened Actions

  datatype Pattern = Pattern(name: string, sequence: seq<string>, semanticName: Name, confidence: real)

  datatype Match = Match(pattern: Pattern, start: nat, end: nat)

  /** How a pattern element is compared with an action, and what a matched pattern extracts, are parameters. */
  datatype Matcher = Matcher(accepts: (string, Action) -> bool, extract: (Pattern, seq<Action>) -> Params)

  // ---------- Sorting by length ----------

  /** Stable insertion behind every pattern that is at least as long. */
  function InsertByLength(p: Pattern, sorted: seq<Pattern>): (r: seq<Pattern>)
    ensures forall q :: q in r <==> q == p || q in sorted
  {
    if sorted == [] || |sorted[0].sequence| < |p.sequence| then [p] + sorted
    else [sorted[0]] + InsertByLength(p, sorted[1..])
  }

  function SortByLength(patterns: seq<Pattern>): (r: seq<Pattern>)
    ensures forall q :: q in r <==> q in patterns
  {
    if patterns == [] then []
    else
      assert patterns == Init(patterns) + [Last(patterns)];
      InsertByLength(Last(patterns), SortByLength(Init(patterns)))
  }

  ghost predicate Descending(sorted: seq<Pattern>) {
    forall i, j :: 0 <= i < j < |sorted| ==> |sorted[i].sequence| >= |sorted[j].sequence|
  }

  lemma {:induction false} InsertKeepsDescending(p: Pattern, sorted: seq<Pattern>)
    requires Descending(sorted)
    ensures Descending(InsertByLength(p, sorted))
  {
    if sorted != [] && |sorted[0].sequence| >= |p.sequence| {
      InsertKeepsDescending(p, sorted[1..]);
      var r := InsertByLength(p, sorted[1..]);
      forall j | 0 <= j < |r| ensures |sorted[0].sequence| >= |r[j].sequence| {
        assert r[j] in r;
      }
    }
  }

  lemma {:induction false} SortIsDescending(patterns: seq<Pattern>)
    ensures Descending(SortByLength(patterns))
  {
    if patterns != [] {
      SortIsDescending(Init(patterns));
      InsertKeepsDescending(Last(patterns), SortByLength(Init(patterns)));
    }
  }

  // ---------- Matching ----------

  predicate MatchesAt(m: Matcher, p: Pattern, actions: seq<Action>, i: nat) {
    && i + |p.sequence| <= |actions|
    && forall k :: 0 <= k < |p.sequence| ==> m.accepts(p.sequence[k], actions[i + k])
  }

  /** The first pattern of the list that matches at `i`. */
  function FirstMatch(m: Matcher, sorted: seq<Pattern>, actions: seq<Action>, i: nat): (found: Option<Pattern>)
    ensures found.Some? ==> found.value in sorted
  {
    if sorted == [] then None
    else if MatchesAt(m, sorted[0], actions, i) then Some(sorted[0])
    else FirstMatch(m, sorted[1..], actions, i)
  }

  lemma {:induction false} FirstMatchMatches(m: Matcher, sorted: seq<Pattern>, actions: seq<Action>, i: nat)
    ensures var found := FirstMatch(m, sorted, actions, i);
            if found.Some? then MatchesAt(m, found.value, actions, i)
            else forall p :: p in sorted ==> !MatchesAt(m, p, actions, i)
  {
    if sorted != [] && !MatchesAt(m, sorted[0], actions, i) { FirstMatchMatches(m, sorted[1..], actions, i); }
  }

  lemma {:induction false} FirstMatchIsLongest(m: Matcher, sorted: seq<Pattern>, actions: seq<Action>, i: nat, p: Pattern)
    requires Descending(sorted) && p in sorted && MatchesAt(m, p, actions, i)
    ensures FirstMatch(m, sorted, actions, i).Some? && |FirstMatch(m, sorted, actions, i).value.sequence| >= |p.sequence|
  {
    if MatchesAt(m, sorted[0], actions, i) {
      var k :| 0 <= k < |sorted| && sorted[k] == p;
      assert k == 0 || |sorted[0].sequence| >= |sorted[k].sequence|;
    } else {
      FirstMatchIsLongest(m, sorted[1..], actions, i, p);
    }
  }

  /** The elements accept the actions one by one. */
  predicate AcceptsAll(m: Matcher, elements: seq<string>, actions: seq<Action>) {
    if elements == [] then actions == []
    else actions != [] && m.accepts(elements[0], actions[0]) && AcceptsAll(m, elements[1..], actions[1..])
  }

  lemma {:induction false} AcceptsAllFrom(m: Matcher, elements: seq<string>, actions: seq<Action>)
    ensures AcceptsAll(m, elements, actions)
            <==> |elements| == |actions| && forall k :: 0 <= k < |elements| ==> m.accepts(elements[k], actions[k])
  {
    if elements != [] && actions != [] {
      AcceptsAllFrom(m, elements[1..], actions[1..]);
      if |elements| == |actions| && forall k :: 0 <= k < |elements| ==> m.accepts(elements[k], actions[k]) {
        forall k | 0 <= k < |elements| - 1 ensures m.accepts(elements[1..][k], actions[1..][k]) {
          assert m.accepts(elements[k + 1], actions[k + 1]);
        }
      }
      if AcceptsAll(m, elements, actions) {
        forall k | 0 < k < |elements| ensures m.accepts(elements[k], actions[k]) {
          assert m.accepts(elements[1..][k - 1], actions[1..][k - 1]);
        }
      }
    }
  }

  /** A pattern matches where its elements accept the stretch of actions of the same length. */
  lemma MatchesStretch(m: Matcher, p: Pattern, actions: seq<Action>, i: nat)
    ensures MatchesAt(m, p, actions, i)
            <==> i + |p.sequence| <= |actions| && AcceptsAll(m, p.sequence, actions[i..i + |p.sequence|])
  {
    if i + |p.sequence| <= |actions| {
      var stretch := actions[i..i + |p.sequence|];
      AcceptsAllFrom(m, p.sequence, stretch);
      assert forall k :: 0 <= k < |stretch| ==> stretch[k] == actions[i + k];
    }
  }

  // ---------- Which pattern wins ----------

  ghost predicate WinsAt(m: Matcher, patterns: seq<Pattern>, actions: seq<Action>, i: nat, at: nat) {
    && at < |patterns| && MatchesAt(m, patterns[at], actions, i)
    && forall k {:trigger patterns[k]} :: 0 <= k < |patterns| ==> !Beats(m, patterns, actions, i, k, at)
  }

  /** The pattern at `k` matches too, and is longer, or as long and earlier. */
  ghost predicate Beats(m: Matcher, patterns: seq<Pattern>, actions: seq<Action>, i: nat, k: nat, at: nat)
    requires k < |patterns| && at < |patterns|
  {
    var mine, other := |patterns[at].sequence|, |patterns[k].sequence|;
    MatchesAt(m, patterns[k], actions, i) && (mine < other || (mine == other && k < at))
  }

  /** Of the patterns that match at `i`, the longest, and of several the one that comes first in the library. */
  ghost predicate IsEarliestLongest(m: Matcher, patterns: seq<Pattern>, actions: seq<Action>, i: nat, p: Pattern) {
    exists at: nat :: WinsAt(m, patterns, actions, i, at) && patterns[at] == p
  }

  /** One more pattern at the end of the library. */
  lemma OneMorePattern(m: Matcher, patterns: seq<Pattern>, actions: seq<Action>, i: nat, at: nat)
    requires patterns != [] && WinsAt(m, Init(patterns), actions, i, at)
    ensures var p, n := Last(patterns), |patterns| - 1;
            if MatchesAt(m, p, actions, i) && |patterns[at].sequence| < |p.sequence| then WinsAt(m, patterns, actions, i, n)
            else WinsAt(m, patterns, actions, i, at)
  {
    var n, before := |patterns| - 1, Init(patterns);
    assert before[at] == patterns[at];
    forall k: nat | k < n ensures Beats(m, patterns, actions, i, k, at) == Beats(m, before, actions, i, k, at) {
      assert before[k] == patterns[k];
    }
    forall k: nat | k < n ensures !Beats(m, before, actions, i, k, at) {
      assert before[k] == patterns[k];
    }
    if MatchesAt(m, patterns[n], actions, i) && |patterns[at].sequence| < |patterns[n].sequence| {
      forall k: nat | k <= n ensures !Beats(m, patterns, actions, i, k, n) {
        assert k == n || !Beats(m, patterns, actions, i, k, at);
      }
    }
  }

  /** Inserting a pattern changes the first match only if the new one matches and is longer than any other. */
  lemma {:induction false} FirstMatchInserted(m: Matcher, p: Pattern, sorted: seq<Pattern>, actions: seq<Action>, i: nat)
    requires Descending(sorted)
    ensures var before, after := FirstMatch(m, sorted, actions, i), FirstMatch(m, InsertByLength(p, sorted), actions, i);
            after == if MatchesAt(m, p, actions, i) && (before.None? || |before.value.sequence| < |p.sequence|) then Some(p) else before
  {
    if sorted != [] {
      var all := InsertByLength(p, sorted);
      if |sorted[0].sequence| < |p.sequence| {
        assert all[1..] == sorted;
        var prior := FirstMatch(m, sorted, actions, i);
        if prior.Some? {
          var k :| 0 <= k < |sorted| && sorted[k] == prior.value;
          assert k == 0 || |sorted[0].sequence| >= |sorted[k].sequence|;
        }
      } else {
        assert all[1..] == InsertByLength(p, sorted[1..]);
        FirstMatchInserted(m, p, sorted[1..], actions, i);
      }
    } else {
      assert InsertByLength(p, sorted) == [p] && [p][1..] == [];
    }
  }

  lemma {:induction false} EarliestLongestWins(m: Matcher, patterns: seq<Pattern>, actions: seq<Action>, i: nat)
    ensures var found := FirstMatch(m, SortByLength(patterns), actions, i);
            found.Some? ==> IsEarliestLongest(m, patterns, actions, i, found.value)
  {
    if patterns != [] {
      var n, p, before := |patterns| - 1, Last(patterns), Init(patterns);
      var sorted := SortByLength(before);
      EarliestLongestWins(m, before, actions, i);
      SortIsDescending(before);
      FirstMatchInserted(m, p, sorted, actions, i);
      var prior := FirstMatch(m, sorted, actions, i);
      if prior.Some? {
        var at: nat :| WinsAt(m, before, actions, i, at) && before[at] == prior.value;
        OneMorePattern(m, patterns, actions, i, at);
        assert patterns[at] == before[at];
      } else if MatchesAt(m, p, actions, i) {
        FirstMatchMatches(m, sorted, actions, i);
        forall k: nat | k < n ensures !MatchesAt(m, patterns[k], actions, i) {
          assert patterns[k] == before[k] && before[k] in sorted;
        }
        forall k: nat | k <= n ensures !Beats(m, patterns, actions, i, k, n) {}
        assert WinsAt(m, patterns, actions, i, n);
      }
    }
  }

  ghost predicate NonEmptyPatterns(patterns: seq<Pattern>) {
    forall p :: p in patterns ==> p.sequence != []
  }

  /** Where the scan goes from `i`, and what it records there. */
  function NextIndex(m: Matcher, sorted: seq<Pattern>, actions: seq<Action>, i: nat): nat {
    var found := FirstMatch(m, sorted, actions, i);
    if found.Some? then i + |found.value.sequence| else i + 1
  }

  function MatchesFrom(m: Matcher, sorted: seq<Pattern>, actions: seq<Action>, i: nat): seq<Match>
    requires NonEmptyPatterns(sorted)
    decreases |actions| - i
  {
    if i >= |actions| then []
    else
      var found := FirstMatch(m, sorted, actions, i);
      var next := NextIndex(m, sorted, actions, i);
      (if found.Some? then [Match(found.value, i, next)] else []) + MatchesFrom(m, sorted, actions, next)
  }

  lemma MatchesStep(m: Matcher, sorted: seq<Pattern>, actions: seq<Action>, i: nat, before: seq<Match>)
    requires NonEmptyPatterns(sorted) && i < |actions|
    ensures before + MatchesFrom(m, sorted, actions, i)
            == var found := FirstMatch(m, sorted, actions, i);
               if found.Some? then
                 var end := i + |found.value.sequence|;
                 (before + [Match(found.value, i, end)]) + MatchesFrom(m, sorted, actions, end)
               else before + MatchesFrom(m, sorted, actions, i + 1)
  {
    var next := NextIndex(m, sorted, actions, i);
    var found := FirstMatch(m, sorted, actions, i);
    Regroup(before, if found.Some? then [Match(found.value, i, next)] else [], MatchesFrom(m, sorted, actions, next));
  }

  function MatchAll(m: Matcher, patterns: seq<Pattern>, actions: seq<Action>): seq<Match>
    requires NonEmptyPatterns(patterns)
  {
    MatchesFrom(m, SortByLength(patterns), actions, 0)
  }

  // ---------- When the scan ends ----------

  /** Where the scan is after a number of steps from `i`. */
  function Walk(m: Matcher, sorted: seq<Pattern>, actions: seq<Action>, i: nat, steps: nat): nat
    decreases steps
  {
    if steps == 0 || i >= |actions| then i else Walk(m, sorted, actions, NextIndex(m, sorted, actions, i), steps - 1)
  }

  ghost predicate Ends(m: Matcher, patterns: seq<Pattern>, actions: seq<Action>) {
    exists steps :: Walk(m, SortByLength(patterns), actions, 0, steps) >= |actions|
  }

  /** The length of the longest pattern that matches at `i`; 0 if only an empty one does, or none. */
  function LongestAt(m: Matcher, patterns: seq<Pattern>, actions: seq<Action>, i: nat): nat {
    if patterns == [] then 0
    else
      var rest, p := LongestAt(m, patterns[1..], actions, i), patterns[0];
      if MatchesAt(m, p, actions, i) && |p.sequence| > rest then |p.sequence| else rest
  }

  /** From `i` on, the longest matches follow one another without a gap to the end. */
  predicate Tiled(m: Matcher, patterns: seq<Pattern>, actions: seq<Action>, i: nat)
    decreases |actions| - i
  {
    i >= |actions|
    || (LongestAt(m, patterns, actions, i) > 0 && Tiled(m, patterns, actions, i + LongestAt(m, patterns, actions, i)))
  }

  lemma {:induction false} LongestAtSpec(m: Matcher, patterns: seq<Pattern>, actions: seq<Action>, i: nat)
    ensures forall p :: p in patterns && MatchesAt(m, p, actions, i) ==> |p.sequence| <= LongestAt(m, patterns, actions, i)
    ensures LongestAt(m, patterns, actions, i) > 0 ==>
              exists p :: p in patterns && MatchesAt(m, p, actions, i) && |p.sequence| == LongestAt(m, patterns, actions, i)
  {
    if patterns != [] {
      LongestAtSpec(m, patterns[1..], actions, i);
      assert patterns[0] in patterns;
    }
  }

  /** A step goes behind the longest match, stays if there is an empty pattern and nothing longer, and else goes on by one. */
  lemma NextIndexIs(m: Matcher, patterns: seq<Pattern>, actions: seq<Action>, i: nat)
    requires i < |actions|
    ensures var longest, next := LongestAt(m, patterns, actions, i), NextIndex(m, SortByLength(patterns), actions, i);
            if longest > 0 then next == i + longest
            else next == if NonEmptyPatterns(patterns) then i + 1 else i
  {
    var sorted := SortByLength(patterns);
    SortIsDescending(patterns);
    LongestAtSpec(m, patterns, actions, i);
    FirstMatchMatches(m, sorted, actions, i);
    if p :| p in patterns && p.sequence == [] { assert MatchesAt(m, p, actions, i); }
    if LongestAt(m, patterns, actions, i) > 0 {
      var p :| p in patterns && MatchesAt(m, p, actions, i) && |p.sequence| == LongestAt(m, patterns, actions, i);
      FirstMatchIsLongest(m, sorted, actions, i, p);
    }
  }

  lemma {:induction false} ReachesEnd(m: Matcher, patterns: seq<Pattern>, actions: seq<Action>, i: nat) returns (steps: nat)
    requires NonEmptyPatterns(patterns) || Tiled(m, patterns, actions, i)
    ensures Walk(m, SortByLength(patterns), actions, i, steps) >= |actions|
    decreases |actions| - i
  {
    if i >= |actions| {
      steps := 0;
    } else {
      NextIndexIs(m, patterns, actions, i);
      steps := ReachesEnd(m, patterns, actions, NextIndex(m, SortByLength(patterns), actions, i));
      steps := steps + 1;
    }
  }

  lemma {:induction false} TiledIfEnded(m: Matcher, patterns: seq<Pattern>, actions: seq<Action>, i: nat, steps: nat)
    requires !NonEmptyPatterns(patterns) && Walk(m, SortByLength(patterns), actions, i, steps) >= |actions|
    ensures Tiled(m, patterns, actions, i)
    decreases steps
  {
    if i < |actions| {
      NextIndexIs(m, patterns, actions, i);
      TiledIfEnded(m, patterns, actions, NextIndex(m, SortByLength(patterns), actions, i), steps - 1);
    }
  }

  /** The scan of a list ends exactly if the library has no empty pattern, or longest matches tile the whole list. */
  lemma ScanEndsIff(m: Matcher, patterns: seq<Pattern>, actions: seq<Action>)
    ensures Ends(m, patterns, actions) <==> NonEmptyPatterns(patterns) || Tiled(m, patterns, actions, 0)
  {
    if NonEmptyPatterns(patterns) || Tiled(m, patterns, actions, 0) {
      var steps := ReachesEnd(m, patterns, actions, 0);
    } else if steps :| Walk(m, SortByLength(patterns), actions, 0, steps) >= |actions| {
      TiledIfEnded(m, patterns, actions, 0, steps);
    }
  }

  /** A library's scans all end exactly if none of its patterns is empty. */
  lemma AllScansEndIff(patterns: seq<Pattern>)
    ensures (forall m, actions :: Ends(m, patterns, actions)) <==> NonEmptyPatterns(patterns)
  {
    if NonEmptyPatterns(patterns) {
      forall m, actions ensures Ends(m, patterns, actions) { ScanEndsIff(m, patterns, actions); }
    } else {
      var m := Matcher((_, _) => false, (_, _) => map[]);
      var actions := [Action(FILE_CREATE, map[], 0, 1, 1.0)];
      ScanEndsIff(m, patterns, actions);
      LongestAtSpec(m, patterns, actions, 0);
      forall p: Pattern | p.sequence != [] ensures !MatchesAt(m, p, actions, 0) {
        assert !m.accepts(p.sequence[0], actions[0 + 0]);
      }
      assert !Ends(m, patterns, actions);
    }
  }

  class Library {
    var patterns: seq<Pattern>

    constructor (patterns: seq<Pattern>)
      ensures this.patterns == patterns
    {
      this.patterns := patterns;
    }

    method AddPattern(p: Pattern)
      modifies this
      ensures patterns == old(patterns) + [p]
    {
      patterns := patterns + [p];
    }

    /** Drops every pattern of that name, keeping the others in order. */
    method RemovePattern(name: string) returns (removed: bool)
      modifies this
      ensures patterns == Without(old(patterns), name)
      ensures removed <==> exists p :: p in old(patterns) && p.name == name
    {
      var kept := [];
      removed := false;
      for i := 0 to |patterns|
        invariant patterns == old(patterns) && kept == Without(patterns[..i], name)
        invariant removed <==> exists p :: p in patterns[..i] && p.name == name
      {
        assert Init(patterns[..i + 1]) == patterns[..i];
        assert patterns[..i + 1] == patterns[..i] + [patterns[i]];
        if patterns[i].name == name {
          removed := true;
        } else {
          kept := kept + [patterns[i]];
        }
      }
      assert patterns[..|patterns|] == patterns;
      patterns := kept;
    }

    /** Greedy scan; at each position the longest matching pattern wins, then the earliest in the library. */
    method FindMatches(m: Matcher, actions: seq<Action>) returns (matches: seq<Match>)
      requires NonEmptyPatterns(patterns)
      ensures matches == MatchAll(m, patterns, actions)
    {
      matches := ScanMatches(m, SortByLength(patterns), actions);
    }
  }

  method ScanMatches(m: Matcher, sorted: seq<Pattern>, actions: seq<Action>) returns (matches: seq<Match>)
    requires NonEmptyPatterns(sorted)
    ensures matches == MatchesFrom(m, sorted, actions, 0)
  {
    matches := [];
    var i := 0;
    while i < |actions|
      invariant MatchesFrom(m, sorted, actions, 0) == matches + MatchesFrom(m, sorted, actions, i)
      decreases |actions| - i
    {
      MatchesStep(m, sorted, actions, i, matches);
      var best := TryPatterns(m, sorted, actions, i);
      if best.Some? {
        var end := i + |best.value.sequence|;
        matches := matches + [Match(best.value, i, end)];
        i := end;
      } else {
        i := i + 1;
      }
    }
  }

  /** Patterns come longest first, so the first that matches is taken. */
  method TryPatterns(m: Matcher, sorted: seq<Pattern>, actions: seq<Action>, i: nat) returns (best: Option<Pattern>)
    ensures best == FirstMatch(m, sorted, actions, i)
  {
    for k := 0 to |sorted|
      invariant FirstMatch(m, sorted, actions, i) == FirstMatch(m, sorted[k..], actions, i)
    {
      assert sorted[k..][1..] == sorted[k + 1..];
      if MatchesAt(m, sorted[k], actions, i) {
        return Some(sorted[k]);
      }
    }
    return None;
  }

  function Without(patterns: seq<Pattern>, name: string): seq<Pattern> {
    if patterns == [] then []
    else Without(Init(patterns), name) + if Last(patterns).name == name then [] else [Last(patterns)]
  }

  // ---------- Leftmost-longest ----------

  /** A match of the library that no pattern matching at the same start exceeds. */
  ghost predicate IsLongestMatch(m: Matcher, patterns: seq<Pattern>, actions: seq<Action>, a: Match) {
    && a.start < a.end <= |actions| && a.pattern in patterns
    && a.end == a.start + |a.pattern.sequence| && MatchesAt(m, a.pattern, actions, a.start)
    && forall p :: p in patterns && MatchesAt(m, p, actions, a.start) ==> |p.sequence| <= |a.pattern.sequence|
  }

  ghost predicate NoMatchIn(m: Matcher, patterns: seq<Pattern>, actions: seq<Action>, from: nat, to: nat) {
    forall i, p :: from <= i < to && p in patterns ==> !MatchesAt(m, p, actions, i)
  }

  /**
    From `from` on: each match is a longest one, starts at or behind the end of the one before, and
    no pattern matches at any position that the matches leave uncovered.
   */
  ghost predicate LeftmostLongest(m: Matcher, patterns: seq<Pattern>, actions: seq<Action>, from: nat, ms: seq<Match>)
    decreases |ms|
  {
    if ms == [] then NoMatchIn(m, patterns, actions, from, |actions|)
    else
      && from <= ms[0].start && NoMatchIn(m, patterns, actions, from, ms[0].start)
      && IsLongestMatch(m, patterns, actions, ms[0])
      && LeftmostLongest(m, patterns, actions, ms[0].end, ms[1..])
  }

  lemma NothingMatchesHere(m: Matcher, patterns: seq<Pattern>, actions: seq<Action>, from: nat, ms: seq<Match>)
    requires LeftmostLongest(m, patterns, actions, from + 1, ms)
    requires forall p :: p in patterns ==> !MatchesAt(m, p, actions, from)
    ensures LeftmostLongest(m, patterns, actions, from, ms)
  {
  }

  lemma {:induction false} ScanIsLeftmostLongest(m: Matcher, sorted: seq<Pattern>, actions: seq<Action>, from: nat)
    requires NonEmptyPatterns(sorted) && Descending(sorted)
    ensures LeftmostLongest(m, sorted, actions, from, MatchesFrom(m, sorted, actions, from))
    decreases |actions| - from
  {
    if from < |actions| {
      var found, next := FirstMatch(m, sorted, actions, from), NextIndex(m, sorted, actions, from);
      var rest := MatchesFrom(m, sorted, actions, next);
      ScanIsLeftmostLongest(m, sorted, actions, next);
      FirstMatchMatches(m, sorted, actions, from);
      if found.Some? {
        var a := Match(found.value, from, next);
        forall p | p in sorted && MatchesAt(m, p, actions, from) ensures |p.sequence| <= |a.pattern.sequence| {
          FirstMatchIsLongest(m, sorted, actions, from, p);
        }
        assert IsLongestMatch(m, sorted, actions, a);
        assert MatchesFrom(m, sorted, actions, from) == [a] + rest;
        assert ([a] + rest)[1..] == rest;
      } else {
        assert MatchesFrom(m, sorted, actions, from) == rest;
        NothingMatchesHere(m, sorted, actions, from, rest);
      }
    }
  }

  lemma {:induction false} SameLibrarySamePromise(m: Matcher, p1: seq<Pattern>, p2: seq<Pattern>, actions: seq<Action>,
      from: nat, ms: seq<Match>)
    requires (forall p :: p in p1 <==> p in p2) && LeftmostLongest(m, p1, actions, from, ms)
    ensures LeftmostLongest(m, p2, actions, from, ms)
    decreases |ms|
  {
    if ms != [] { SameLibrarySamePromise(m, p1, p2, actions, ms[0].end, ms[1..]); }
  }

  /** The matcher keeps the promise, whatever the order in which the library lists its patterns. */
  lemma MatchAllIsLeftmostLongest(m: Matcher, patterns: seq<Pattern>, actions: seq<Action>)
    requires NonEmptyPatterns(patterns)
    ensures LeftmostLongest(m, patterns, actions, 0, MatchAll(m, patterns, actions))
  {
    SortIsDescending(patterns);
    ScanIsLeftmostLongest(m, SortByLength(patterns), actions, 0);
    SameLibrarySamePromise(m, SortByLength(patterns), patterns, actions, 0, MatchAll(m, patterns, actions));
  }

  lemma FirstMatchNotLater(m: Matcher, patterns: seq<Pattern>, actions: seq<Action>, from: nat, a: seq<Match>, b: seq<Match>)
    requires LeftmostLongest(m, patterns, actions, from, a) && LeftmostLongest(m, patterns, actions, from, b)
    requires a != []
    ensures b != [] && b[0].start <= a[0].start
  {
    assert a[0].pattern in patterns && MatchesAt(m, a[0].pattern, actions, a[0].start);
  }

  /** The promise leaves no freedom: any two match lists that keep it lie on the same spans. */
  lemma {:induction false} LeftmostLongestIsUnique(m: Matcher, patterns: seq<Pattern>, actions: seq<Action>, from: nat,
      a: seq<Match>, b: seq<Match>)
    requires LeftmostLongest(m, patterns, actions, from, a) && LeftmostLongest(m, patterns, actions, from, b)
    ensures |a| == |b| && forall k :: 0 <= k < |a| ==> a[k].start == b[k].start && a[k].end == b[k].end
    decreases |a|
  {
    if a != [] { FirstMatchNotLater(m, patterns, actions, from, a, b); }
    if b != [] { FirstMatchNotLater(m, patterns, actions, from, b, a); }
    if a != [] {
      LeftmostLongestIsUnique(m, patterns, actions, a[0].end, a[1..], b[1..]);
      forall k | 0 < k < |a| ensures a[k].start == b[k].start && a[k].end == b[k].end {
        assert a[k] == a[1..][k - 1] && b[k] == b[1..][k - 1];
      }
    }
  }

  /** Every match in the list is of the pattern that wins at its start. */
  lemma {:induction false} MatchesAreEarliest(m: Matcher, patterns: seq<Pattern>, actions: seq<Action>, from: nat, a: Match)
    requires NonEmptyPatterns(patterns) && a in MatchesFrom(m, SortByLength(patterns), actions, from)
    ensures IsEarliestLongest(m, patterns, actions, a.start, a.pattern) && a.end == a.start + |a.pattern.sequence|
    decreases |actions| - from
  {
    var sorted := SortByLength(patterns);
    EarliestLongestWins(m, patterns, actions, from);
    var found, next := FirstMatch(m, sorted, actions, from), NextIndex(m, sorted, actions, from);
    if !(found.Some? && a == Match(found.value, from, next)) { MatchesAreEarliest(m, patterns, actions, next, a); }
  }

  // ---------- The pass ----------

  function Abstracted(m: Matcher, actions: seq<Action>, a: Match): Action
    requires a.start < a.end <= |actions|
  {
    var block := actions[a.start..a.end];
    Merging(block, a.pattern.semanticName, AllParams(block) + m.extract(a.pattern, block), a.pattern.confidence)
  }

  /** A match becomes an action of its pattern's name and confidence, with what the pattern extracts over the actions' own parameters. */
  lemma AbstractedSays(m: Matcher, actions: seq<Action>, a: Match, key: Key)
    requires a.start < a.end <= |actions|
    ensures var made, block := Abstracted(m, actions, a), actions[a.start..a.end];
            var extracted := m.extract(a.pattern, block);
            && made.name == a.pattern.semanticName && made.confidence == a.pattern.confidence
            && (key in extracted ==> key in made.params && made.params[key] == extracted[key])
            && (key !in extracted ==> (key in made.params <==> exists k :: 0 <= k < |block| && key in block[k].params))
            && (key !in extracted ==> forall k :: 0 <= k < |block| && IsLastWith(block, key, k) ==>
                  key in made.params && made.params[key] == block[k].params[key])
  {
    var block := actions[a.start..a.end];
    if key in AllParams(block) { AllParamsFrom(block, key); }
    forall k | 0 <= k < |block| && IsLastWith(block, key, k) ensures key in AllParams(block) && AllParams(block)[key] == block[k].params[key] {
      AllParamsLast(block, key, k);
    }
    if k :| 0 <= k < |block| && key in block[k].params { LastWithExists(block, key, k); }
  }

  lemma {:induction false} LastWithExists(block: seq<Action>, key: Key, k: nat)
    requires k < |block| && key in block[k].params
    ensures key in AllParams(block)
    decreases |block| - k
  {
    if j :| k < j < |block| && key in block[j].params {
      LastWithExists(block, key, j);
    } else {
      AllParamsLast(block, key, k);
    }
  }

  /** In bounds and one behind the other, from `from` on. */
  ghost predicate InOrder(n: nat, from: nat, ms: seq<Match>)
    decreases |ms|
  {
    if ms == [] then from <= n else from <= ms[0].start < ms[0].end <= n && InOrder(n, ms[0].end, ms[1..])
  }

  /** The actions from `from` on with every match replaced. */
  function Splice(m: Matcher, actions: seq<Action>, ms: seq<Match>, from: nat): seq<Action>
    requires InOrder(|actions|, from, ms)
    decreases |ms|
  {
    if ms == [] then actions[from..]
    else actions[from..ms[0].start] + [Abstracted(m, actions, ms[0])] + Splice(m, actions, ms[1..], ms[0].end)
  }

  ghost predicate SpanPairs(ms: seq<Match>) {
    forall a :: a in ms ==> a.end - a.start >= 2
  }

  /** Replacing matches is a blocking; one that leaves single actions unchanged if every match spans two or more. */
  lemma {:induction false} SpliceIsBlocking(faithful: bool, m: Matcher, actions: seq<Action>, ms: seq<Match>, from: nat)
    requires InOrder(|actions|, from, ms) && (faithful ==> SpanPairs(ms))
    ensures BlockingFrom(faithful, actions, from, Splice(m, actions, ms, from))
    decreases |ms|
  {
    if ms == [] {
      BlockingEmpty(faithful, actions);
      BlockingKeep(faithful, actions, from, |actions|, []);
      assert actions[from..|actions|] + [] == actions[from..];
    } else {
      var a, rest := Abstracted(m, actions, ms[0]), Splice(m, actions, ms[1..], ms[0].end);
      SpliceIsBlocking(faithful, m, actions, ms[1..], ms[0].end);
      assert ms[0] in ms;
      BlockingCons(faithful, actions, ms[0].start, ms[0].end, a, rest);
      BlockingKeep(faithful, actions, from, ms[0].start, [a] + rest);
      assert actions[from..ms[0].start] + ([a] + rest) == Splice(m, actions, ms, from);
    }
  }

  lemma {:induction false} LeftmostLongestInOrder(m: Matcher, patterns: seq<Pattern>, actions: seq<Action>, from: nat,
      ms: seq<Match>)
    requires LeftmostLongest(m, patterns, actions, from, ms) && from <= |actions|
    ensures InOrder(|actions|, from, ms)
    decreases |ms|
  {
    if ms != [] { LeftmostLongestInOrder(m, patterns, actions, ms[0].end, ms[1..]); }
  }

  lemma MatchesInOrder(m: Matcher, patterns: seq<Pattern>, actions: seq<Action>)
    requires NonEmptyPatterns(patterns)
    ensures InOrder(|actions|, 0, MatchAll(m, patterns, actions))
  {
    MatchAllIsLeftmostLongest(m, patterns, actions);
    LeftmostLongestInOrder(m, patterns, actions, 0, MatchAll(m, patterns, actions));
  }

  function PatternsApplied(m: Matcher, patterns: seq<Pattern>, actions: seq<Action>): seq<Action>
    requires NonEmptyPatterns(patterns)
  {
    MatchesInOrder(m, patterns, actions);
    if |actions| < 2 then actions else Splice(m, actions, MatchAll(m, patterns, actions), 0)
  }

  ghost predicate LongPatterns(patterns: seq<Pattern>) {
    forall p :: p in patterns ==> |p.sequence| >= 2
  }

  lemma {:induction false} LongPatternsSpanPairs(m: Matcher, patterns: seq<Pattern>, actions: seq<Action>, from: nat,
      ms: seq<Match>)
    requires LongPatterns(patterns) && LeftmostLongest(m, patterns, actions, from, ms)
    ensures SpanPairs(ms)
    decreases |ms|
  {
    if ms != [] { LongPatternsSpanPairs(m, patterns, actions, ms[0].end, ms[1..]); }
  }

  lemma PatternsAreBlocking(faithful: bool, m: Matcher, patterns: seq<Pattern>, actions: seq<Action>)
    requires NonEmptyPatterns(patterns) && (faithful ==> LongPatterns(patterns))
    ensures Blocking(faithful, actions, PatternsApplied(m, patterns, actions))
  {
    MatchesInOrder(m, patterns, actions);
    MatchAllIsLeftmostLongest(m, patterns, actions);
    if |actions| < 2 {
      BlockingReflexive(faithful, actions);
    } else {
      if faithful { LongPatternsSpanPairs(m, patterns, actions, 0, MatchAll(m, patterns, actions)); }
      SpliceIsBlocking(faithful, m, actions, MatchAll(m, patterns, actions), 0);
    }
  }

  lemma PatternsAreDerived(m: Matcher, patterns: seq<Pattern>, actions: seq<Action>)
    requires NonEmptyPatterns(patterns)
    ensures Derived(actions, PatternsApplied(m, patterns, actions))
  {
    PatternsAreBlocking(false, m, patterns, actions);
    BlockingIsDerived(false, actions, PatternsApplied(m, patterns, actions));
  }

  lemma SpliceStep(m: Matcher, actions: seq<Action>, ms: seq<Match>, k: nat, from: nat, before: seq<Action>)
    requires k < |ms| && InOrder(|actions|, from, ms[k..])
    ensures from <= ms[k].start < ms[k].end <= |actions| && InOrder(|actions|, ms[k].end, ms[k + 1..])
    ensures before + Splice(m, actions, ms[k..], from)
            == (before + actions[from..ms[k].start] + [Abstracted(m, actions, ms[k])]) + Splice(m, actions, ms[k + 1..], ms[k].end)
  {
    assert ms[k..][1..] == ms[k + 1..];
    var kept, made := actions[from..ms[k].start], [Abstracted(m, actions, ms[k])];
    var rest := Splice(m, actions, ms[k + 1..], ms[k].end);
    Regroup(before, kept + made, rest);
    Regroup(before, kept, made);
  }

  method PatternPass(library: Library, m: Matcher, actions: seq<Action>) returns (result: seq<Action>)
    requires NonEmptyPatterns(library.patterns)
    ensures result == PatternsApplied(m, library.patterns, actions)
  {
    if |actions| < 2 {
      return actions;
    }
    var matches := library.FindMatches(m, actions);
    MatchesInOrder(m, library.patterns, actions);
    if matches == [] {
      return actions;
    }
    result := [];
    var consumed: nat := 0;
    for k := 0 to |matches|
      invariant InOrder(|actions|, consumed, matches[k..])
      invariant Splice(m, actions, matches, 0) == result + Splice(m, actions, matches[k..], consumed)
    {
      SpliceStep(m, actions, matches, k, consumed, result);
      result := result + actions[consumed..matches[k].start];
      result := result + [Abstracted(m, actions, matches[k])];
      consumed := matches[k].end;
    }
    result := result + actions[consumed..];
  }
}
