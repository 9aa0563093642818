/**
  Scans that walk over positions, skip those already consumed, and may join a position with a
  later one. The plan of such a scan says what happens to each position, whatever chooses the partners.
 */
module PairPlans {
  import opened Subsequences

  datatype Slot = Keep(first: nat) | Join(first: nat, second: nat)

  /** The partner of a position, given the positions consumed so far. */
  type Chooser = (nat, set<nat>) -> Option<nat>

  function Plan(choose: Chooser, n: nat, i: nat, consumed: set<nat>): seq<Slot>
    requires i <= n
    decreases n - i
  {
    if i == n then []
    else if i in consumed then Plan(choose, n, i + 1, consumed)
    else
      var j := choose(i, consumed);
      if j.Some? then [Join(i, j.value)] + Plan(choose, n, i + 1, consumed + {j.value})
      else [Keep(i)] + Plan(choose, n, i + 1, consumed)
  }

  /** What holds of the consumed positions during the scan, and makes every choice an unconsumed later position. */
  ghost predicate SoundAt(choose: Chooser, inv: (nat, set<nat>) -> bool, n: nat, i: nat, consumed: set<nat>) {
    i < n && inv(i, consumed) ==>
      var j := choose(i, consumed);
      && inv(i + 1, consumed)
      && (j.Some? ==> i < j.value < n && j.value !in consumed && inv(i + 1, consumed + {j.value}))
  }

  ghost predicate Sound(choose: Chooser, inv: (nat, set<nat>) -> bool, n: nat) {
    forall i: nat, consumed: set<nat> :: SoundAt(choose, inv, n, i, consumed)
  }

  predicate Mentions(s: Slot, m: nat) {
    s.first == m || (s.Join? && s.second == m)
  }

  /** How many slots mention the position. */
  function Uses(plan: seq<Slot>, m: nat): nat {
    if plan == [] then 0 else Uses(plan[1..], m) + if Mentions(plan[0], m) then 1 else 0
  }

  function Joins(plan: seq<Slot>): nat {
    if plan == [] then 0 else Joins(plan[1..]) + if plan[0].Join? then 1 else 0
  }

  lemma ConsCounts(s: Slot, rest: seq<Slot>, m: nat)
    ensures Uses([s] + rest, m) == Uses(rest, m) + if Mentions(s, m) then 1 else 0
    ensures Joins([s] + rest) == Joins(rest) + if s.Join? then 1 else 0
  {
    assert ([s] + rest)[1..] == rest;
  }

  /** Every position that is not consumed yet is mentioned by exactly one slot, every other by none. */
  lemma {:induction false} EachPositionOnce(choose: Chooser, inv: (nat, set<nat>) -> bool, n: nat, i: nat, consumed: set<nat>, m: nat)
    requires i <= n && Sound(choose, inv, n) && inv(i, consumed)
    ensures Uses(Plan(choose, n, i, consumed), m) == if i <= m < n && m !in consumed then 1 else 0
    decreases n - i
  {
    if i < n {
      var j := choose(i, consumed);
      assert SoundAt(choose, inv, n, i, consumed);
      if i in consumed {
        EachPositionOnce(choose, inv, n, i + 1, consumed, m);
      } else if j.Some? {
        EachPositionOnce(choose, inv, n, i + 1, consumed + {j.value}, m);
        ConsCounts(Join(i, j.value), Plan(choose, n, i + 1, consumed + {j.value}), m);
      } else {
        EachPositionOnce(choose, inv, n, i + 1, consumed, m);
        ConsCounts(Keep(i), Plan(choose, n, i + 1, consumed), m);
      }
    }
  }

  function Free(n: nat, i: nat, consumed: set<nat>): nat
    requires i <= n
    decreases n - i
  {
    if i == n then 0 else Free(n, i + 1, consumed) + if i in consumed then 0 else 1
  }

  lemma {:induction false} FreeAfterConsuming(n: nat, i: nat, consumed: set<nat>, j: nat)
    requires i <= n && j < n && j !in consumed
    ensures Free(n, i, consumed + {j}) == Free(n, i, consumed) - if i <= j then 1 else 0
    decreases n - i
  {
    if i < n { FreeAfterConsuming(n, i + 1, consumed, j); }
  }

  lemma {:induction false} NothingConsumed(n: nat, i: nat)
    requires i <= n
    ensures Free(n, i, {}) == n - i
    decreases n - i
  {
    if i < n { NothingConsumed(n, i + 1); }
  }

  /** One slot per position, less one for every join. */
  lemma {:induction false} PlanLength(choose: Chooser, inv: (nat, set<nat>) -> bool, n: nat, i: nat, consumed: set<nat>)
    requires i <= n && Sound(choose, inv, n) && inv(i, consumed)
    ensures |Plan(choose, n, i, consumed)| + Joins(Plan(choose, n, i, consumed)) == Free(n, i, consumed)
    decreases n - i
  {
    if i < n {
      var j := choose(i, consumed);
      assert SoundAt(choose, inv, n, i, consumed);
      if i in consumed {
        PlanLength(choose, inv, n, i + 1, consumed);
      } else if j.Some? {
        PlanLength(choose, inv, n, i + 1, consumed + {j.value});
        FreeAfterConsuming(n, i + 1, consumed, j.value);
        ConsCounts(Join(i, j.value), Plan(choose, n, i + 1, consumed + {j.value}), 0);
      } else {
        PlanLength(choose, inv, n, i + 1, consumed);
        ConsCounts(Keep(i), Plan(choose, n, i + 1, consumed), 0);
      }
    }
  }

  ghost predicate InOrder(plan: seq<Slot>, from: nat) {
    plan == [] || (from <= plan[0].first && InOrder(plan[1..], plan[0].first + 1))
  }

  lemma {:induction false} InOrderFromEarlier(plan: seq<Slot>, from: nat, later: nat)
    requires InOrder(plan, later) && from <= later
    ensures InOrder(plan, from)
  {
  }

  /** Slots come in the order of their first positions. */
  lemma {:induction false} PlanInOrder(choose: Chooser, n: nat, i: nat, consumed: set<nat>)
    requires i <= n
    ensures InOrder(Plan(choose, n, i, consumed), i)
    decreases n - i
  {
    if i < n {
      var j := choose(i, consumed);
      if i in consumed {
        PlanInOrder(choose, n, i + 1, consumed);
        InOrderFromEarlier(Plan(choose, n, i, consumed), i, i + 1);
      } else if j.Some? {
        PlanInOrder(choose, n, i + 1, consumed + {j.value});
        assert Plan(choose, n, i, consumed)[1..] == Plan(choose, n, i + 1, consumed + {j.value});
      } else {
        PlanInOrder(choose, n, i + 1, consumed);
        assert Plan(choose, n, i, consumed)[1..] == Plan(choose, n, i + 1, consumed);
      }
    }
  }

  ghost predicate JoinsSatisfy(plan: seq<Slot>, pair: (nat, nat) -> bool) {
    forall k {:trigger plan[k]} :: 0 <= k < |plan| && plan[k].Join? ==> pair(plan[k].first, plan[k].second)
  }

  /** Every join is a choice that was made. */
  lemma {:induction false} PlanJoins(choose: Chooser, n: nat, i: nat, consumed: set<nat>, pair: (nat, nat) -> bool)
    requires i <= n
    requires forall k: nat, c: set<nat> {:trigger choose(k, c)} :: k < n && choose(k, c).Some? ==> pair(k, choose(k, c).value)
    ensures JoinsSatisfy(Plan(choose, n, i, consumed), pair)
    decreases n - i
  {
    if i < n {
      var j := choose(i, consumed);
      if i in consumed {
        PlanJoins(choose, n, i + 1, consumed, pair);
      } else if j.Some? {
        PlanJoins(choose, n, i + 1, consumed + {j.value}, pair);
      } else {
        PlanJoins(choose, n, i + 1, consumed, pair);
      }
    }
  }
}
