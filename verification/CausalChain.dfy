/**
  Causal chain extraction: the effects of an action list, each with the support action that led to it.
 */
module CausalChain {

  type Name = int // interned action names

  datatype Action = Action(name: Name, id: int)

  /** Which names are effects and which support them. */
  datatype Analyzer = Analyzer(effects: set<Name>, supports: set<Name>)

  predicate IsEffect(z: Analyzer, a: Action) {
    a.name in z.effects
  }

  predicate IsSupport(z: Analyzer, a: Action) {
    a.name in z.supports && a.name !in z.effects
  }

  predicate IsRelevant(z: Analyzer, a: Action) {
    a.name in z.effects || a.name in z.supports
  }

  // ---------- The closed form ----------

  /** Whether the next relevant action is an effect. */
  predicate EffectIsNext(z: Analyzer, actions: seq<Action>) {
    actions != [] && (IsEffect(z, actions[0]) || (!IsSupport(z, actions[0]) && EffectIsNext(z, actions[1..])))
  }

  /** All effects, and every support whose next relevant action is an effect. */
  function Chain(z: Analyzer, actions: seq<Action>): seq<Action> {
    if actions == [] then []
    else if IsEffect(z, actions[0]) || (IsSupport(z, actions[0]) && EffectIsNext(z, actions[1..]))
    then [actions[0]] + Chain(z, actions[1..])
    else Chain(z, actions[1..])
  }

  function Effects(z: Analyzer, actions: seq<Action>): seq<Action> {
    if actions == [] then []
    else (if IsEffect(z, actions[0]) then [actions[0]] else []) + Effects(z, actions[1..])
  }

  /** Only effects and supports, each support directly followed by an effect. */
  predicate IsCausal(z: Analyzer, actions: seq<Action>) {
    actions != [] ==>
      && (IsEffect(z, actions[0]) || (IsSupport(z, actions[0]) && |actions| > 1 && IsEffect(z, actions[1])))
      && IsCausal(z, actions[1..])
  }

  lemma {:induction false} ChainStart(z: Analyzer, actions: seq<Action>)
    ensures EffectIsNext(z, actions) <==> Chain(z, actions) != [] && IsEffect(z, Chain(z, actions)[0])
  {
    if actions != [] { ChainStart(z, actions[1..]); }
  }

  lemma {:induction false} ChainIsCausal(z: Analyzer, actions: seq<Action>)
    ensures IsCausal(z, Chain(z, actions))
  {
    if actions != [] {
      var rest := Chain(z, actions[1..]);
      ChainIsCausal(z, actions[1..]);
      ChainStart(z, actions[1..]);
      assert Chain(z, actions) == rest || Chain(z, actions)[1..] == rest;
    }
  }

  /** The lists the analysis leaves alone are exactly those of that shape. */
  lemma {:induction false} ChainKeepsCausal(z: Analyzer, actions: seq<Action>)
    ensures IsCausal(z, actions) <==> Chain(z, actions) == actions
  {
    if actions != [] {
      ChainKeepsCausal(z, actions[1..]);
      ChainLength(z, actions[1..]);
      if IsCausal(z, actions) {
        assert actions == [actions[0]] + actions[1..];
      } else if Chain(z, actions) == actions {
        ChainIsCausal(z, actions);
      }
    }
  }

  lemma {:induction false} ChainLength(z: Analyzer, actions: seq<Action>)
    ensures |Chain(z, actions)| <= |actions|
  {
    if actions != [] { ChainLength(z, actions[1..]); }
  }

  /** No effect is lost or reordered. */
  lemma {:induction false} ChainKeepsEffects(z: Analyzer, actions: seq<Action>)
    ensures Effects(z, Chain(z, actions)) == Effects(z, actions)
  {
    if actions != [] {
      ChainKeepsEffects(z, actions[1..]);
      var rest := Chain(z, actions[1..]);
      if Chain(z, actions) != rest { assert Chain(z, actions)[1..] == rest; }
    }
  }

  /** At most one support per effect. */
  lemma {:induction false} AtMostOneSupportEach(z: Analyzer, actions: seq<Action>)
    requires IsCausal(z, actions)
    ensures |actions| <= 2 * |Effects(z, actions)|
  {
    if actions != [] && IsEffect(z, actions[0]) {
      AtMostOneSupportEach(z, actions[1..]);
    } else if actions != [] {
      var rest := actions[1..];
      assert Effects(z, rest) == [rest[0]] + Effects(z, rest[1..]);
      AtMostOneSupportEach(z, rest[1..]);
    }
  }

  // ---------- The loops ----------

  predicate EffectAt(z: Analyzer, actions: seq<Action>, i: nat) {
    i < |actions| && IsEffect(z, actions[i])
  }

  predicate RelevantAt(z: Analyzer, actions: seq<Action>, i: nat) {
    i < |actions| && IsRelevant(z, actions[i])
  }

  /** The support at `j` has the effect at `e` as its next relevant action. */
  ghost predicate Supports(z: Analyzer, actions: seq<Action>, j: nat, e: nat) {
    && j < e && EffectAt(z, actions, e) && RelevantAt(z, actions, j) && !EffectAt(z, actions, j)
    && forall m: nat :: j < m < e ==> !RelevantAt(z, actions, m)
  }

  /** What the effects before `n` make causal. */
  ghost predicate CausalAt(z: Analyzer, actions: seq<Action>, n: nat, k: nat) {
    (k < n && EffectAt(z, actions, k)) || exists e: nat :: e < n && Supports(z, actions, k, e)
  }

  /** A new effect adds itself and what it supports. */
  lemma CausalStep(z: Analyzer, actions: seq<Action>, n: nat, k: nat)
    ensures CausalAt(z, actions, n + 1, k)
            <==> CausalAt(z, actions, n, k) || (k == n && EffectAt(z, actions, n)) || Supports(z, actions, k, n)
  {
    if e: nat :| e < n + 1 && Supports(z, actions, k, e) {
      assert e < n || e == n;
    }
  }

  /** Between a claimed action and the effect behind it there is an effect, or the claimed one is an effect itself. */
  lemma ClaimedIsEffect(z: Analyzer, actions: seq<Action>, effect: nat, j: nat)
    requires CausalAt(z, actions, effect, j) && j < effect
    requires forall m: nat :: j < m < effect ==> !RelevantAt(z, actions, m)
    ensures EffectAt(z, actions, j)
  {
    assert forall e: nat :: e < effect && Supports(z, actions, j, e) ==> RelevantAt(z, actions, e);
  }

  lemma OnlyNearestSupports(z: Analyzer, actions: seq<Action>, effect: nat, j: nat, k: nat)
    requires j < effect && RelevantAt(z, actions, j) && Supports(z, actions, k, effect)
    requires forall m: nat :: j < m < effect ==> !RelevantAt(z, actions, m)
    ensures k == j && !EffectAt(z, actions, j)
  {
    assert RelevantAt(z, actions, k);
  }

  /** Walks back from the effect; claims the nearest support, unless something claimed comes first. */
  method BacktraceSupport(z: Analyzer, actions: seq<Action>, effect: nat, claimed: set<nat>) returns (grown: set<nat>)
    requires EffectAt(z, actions, effect)
    requires forall k: nat :: k in claimed <==> CausalAt(z, actions, effect, k) || k == effect
    ensures forall k: nat :: k in grown <==> CausalAt(z, actions, effect + 1, k)
  {
    grown := claimed;
    var j := effect;
    while j > 0
      invariant 0 <= j <= effect && grown == claimed
      invariant forall m: nat :: j <= m < effect ==> !RelevantAt(z, actions, m)
    {
      j := j - 1;
      if j in claimed {
        ClaimedIsEffect(z, actions, effect, j);
        break;
      }
      assert !EffectAt(z, actions, j) by { assert !CausalAt(z, actions, effect, j); }
      if actions[j].name in z.supports {
        assert Supports(z, actions, j, effect);
        grown := claimed + {j};
        break;
      }
    }
    forall k: nat ensures k in grown <==> CausalAt(z, actions, effect + 1, k) {
      CausalStep(z, actions, effect, k);
      if Supports(z, actions, k, effect) && RelevantAt(z, actions, j) && j < effect { OnlyNearestSupports(z, actions, effect, j, k); }
    }
  }

  method FindCausal(z: Analyzer, actions: seq<Action>) returns (causal: set<nat>)
    ensures forall k: nat :: k in causal <==> CausalAt(z, actions, |actions|, k)
  {
    causal := {};
    for i := 0 to |actions|
      invariant forall k: nat :: k in causal <==> CausalAt(z, actions, i, k)
    {
      if IsEffect(z, actions[i]) {
        causal := BacktraceSupport(z, actions, i, causal + {i});
      } else {
        forall k: nat ensures CausalAt(z, actions, i + 1, k) <==> CausalAt(z, actions, i, k) { CausalStep(z, actions, i, k); }
      }
    }
  }

  function Selected(actions: seq<Action>, keep: set<nat>, i: nat): seq<Action>
    decreases |actions| - i
  {
    if i >= |actions| then [] else (if i in keep then [actions[i]] else []) + Selected(actions, keep, i + 1)
  }

  lemma {:induction false} NextIsEffect(z: Analyzer, actions: seq<Action>, i: nat, k: nat)
    requires k < i <= |actions| && forall m: nat :: k < m < i ==> !RelevantAt(z, actions, m)
    requires RelevantAt(z, actions, k) && !EffectAt(z, actions, k)
    ensures EffectIsNext(z, actions[i..]) <==> exists e: nat :: e < |actions| && Supports(z, actions, k, e)
    decreases |actions| - i
  {
    assert forall e: nat :: EffectAt(z, actions, e) ==> RelevantAt(z, actions, e);
    if i < |actions| {
      assert actions[i..][1..] == actions[i + 1..];
      if EffectAt(z, actions, i) {
        assert Supports(z, actions, k, i);
      } else if RelevantAt(z, actions, i) {
        assert forall e: nat :: e > i ==> !Supports(z, actions, k, e);
      } else {
        NextIsEffect(z, actions, i + 1, k);
      }
    }
  }

  /** Selecting the causal positions yields the closed form. */
  lemma {:induction false} SelectedIsChain(z: Analyzer, actions: seq<Action>, causal: set<nat>, i: nat)
    requires i <= |actions| && forall k: nat :: k in causal <==> CausalAt(z, actions, |actions|, k)
    ensures Selected(actions, causal, i) == Chain(z, actions[i..])
    decreases |actions| - i
  {
    if i < |actions| {
      assert actions[i..][1..] == actions[i + 1..];
      SelectedIsChain(z, actions, causal, i + 1);
      if IsSupport(z, actions[i]) {
        NextIsEffect(z, actions, i + 1, i);
      } else if !IsEffect(z, actions[i]) {
        assert !RelevantAt(z, actions, i);
      }
    }
  }

  function Extracted(z: Analyzer, actions: seq<Action>): seq<Action> {
    if |actions| <= 2 || Effects(z, actions) == [] then actions else Chain(z, actions)
  }

  lemma {:induction false} NoEffects(z: Analyzer, actions: seq<Action>)
    ensures Effects(z, actions) == [] <==> forall k: nat :: 0 <= k < |actions| ==> !EffectAt(z, actions, k)
  {
    if actions != [] {
      NoEffects(z, actions[1..]);
      if forall k: nat :: 0 <= k < |actions| ==> !EffectAt(z, actions, k) {
        assert !EffectAt(z, actions, 0);
        forall k: nat | k < |actions| - 1 ensures !EffectAt(z, actions[1..], k) {
          assert !EffectAt(z, actions, k + 1);
        }
      }
      if Effects(z, actions) == [] {
        forall k: nat | 0 < k < |actions| ensures !EffectAt(z, actions, k) {
          assert !EffectAt(z, actions[1..], k - 1);
        }
      }
    }
  }

  method ExtractCausalChain(z: Analyzer, actions: seq<Action>) returns (result: seq<Action>)
    ensures result == Extracted(z, actions)
  {
    if |actions| <= 2 {
      return actions;
    }
    var causal := FindCausal(z, actions);
    NoEffects(z, actions);
    if causal == {} {
      forall k: nat | 0 <= k < |actions| ensures !EffectAt(z, actions, k) {
        if EffectAt(z, actions, k) { assert CausalAt(z, actions, |actions|, k); }
      }
      return actions;
    }
    assert Effects(z, actions) != [] by {
      var k :| k in causal;
      assert CausalAt(z, actions, |actions|, k);
    }
    result := [];
    for i := 0 to |actions|
      invariant Selected(actions, causal, 0) == result + Selected(actions, causal, i)
    {
      if i in causal {
        result := result + [actions[i]];
      }
    }
    SelectedIsChain(z, actions, causal, 0);
    assert actions[0..] == actions;
  }

  /** Extraction changes nothing the second time. */
  lemma ExtractionIsIdempotent(z: Analyzer, actions: seq<Action>)
    ensures Extracted(z, Extracted(z, actions)) == Extracted(z, actions)
  {
    ChainIsCausal(z, actions);
    ChainKeepsCausal(z, Chain(z, actions));
  }

  /** Extraction yields the closed form exactly on lists that are long enough and have an effect, or are causal already. */
  lemma WhenExtracted(z: Analyzer, actions: seq<Action>)
    ensures Extracted(z, actions) == Chain(z, actions)
            <==> (|actions| > 2 && Effects(z, actions) != []) || IsCausal(z, actions)
  {
    ChainKeepsCausal(z, actions);
  }
}
