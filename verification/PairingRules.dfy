/**
  The rules that pair two file events into one move: macOS renames, macOS modifies, and inotify
  renames that share a cookie.
 */
module PairingRules {
  import opened Subsequences
  import opened Actions
  import opened PairPlans

  datatype PairRule = RenamePairs(maxGap: int) | ModifyPairs(maxGap: int) | CookiePairs

  function EventPath(a: Action): Text {
    FirstText(a, K_PATH, K_TARGET)
  }

  /** The path of an event is its path parameter, else its target. */
  lemma EventPathMeans(a: Action)
    ensures EventPath(a) == if GetText(a, K_PATH) == Empty then GetText(a, K_TARGET) else GetText(a, K_PATH)
  {
  }

  function Kind(rule: PairRule): Name {
    if rule.ModifyPairs? then FILE_MODIFY else FILE_RENAME
  }

  function StepDistance(a: Action, b: Action): int {
    if a.end <= b.start then b.start - a.end else a.end - b.start
  }

  /** Whether the event `a` opens the search for a partner. */
  predicate IsSource(rule: PairRule, a: Action) {
    && a.name == Kind(rule) && EventPath(a) != Empty
    && (rule.ModifyPairs? ==> Basename(EventPath(a)) != Empty)
  }

  /** Whether `b`, within the window of `a`, is the other half of the same operation. */
  predicate ArePartners(rule: PairRule, a: Action, b: Action) {
    && b.name == Kind(rule) && EventPath(b) != Empty && EventPath(a) != EventPath(b)
    && if Basename(EventPath(a)) == Basename(EventPath(b)) then Dirname(EventPath(a)) != Dirname(EventPath(b))
       else rule.RenamePairs? && StepDistance(a, b) <= 2
  }

  /** A file that only changes its folder is a partner in both window rules; one that changes its name only as a rename, two steps away at most. */
  lemma PartnersIff(rule: PairRule, a: Action, b: Action)
    requires !rule.CookiePairs?
    ensures var p, q := EventPath(a), EventPath(b);
            ArePartners(rule, a, b) <==>
              && b.name == (if rule.RenamePairs? then FILE_RENAME else FILE_MODIFY) && q != Empty && p != q
              && ((Basename(p) == Basename(q) && Dirname(p) != Dirname(q))
                  || (Basename(p) != Basename(q) && rule.RenamePairs? && -2 <= b.start - a.end <= 2))
  {
  }

  function WindowEnd(rule: PairRule, n: nat, i: nat): int {
    if rule.CookiePairs? then n
    else if i + 1 + rule.maxGap < n then i + 1 + rule.maxGap else n
  }

  /** The first unconsumed partner at or behind `j`. */
  function FirstPartner(rule: PairRule, actions: seq<Action>, i: nat, consumed: set<nat>, j: nat): (found: Option<nat>)
    requires i < j && i < |actions|
    ensures found.Some? ==>
              && j <= found.value < WindowEnd(rule, |actions|, i) && found.value < |actions|
              && found.value !in consumed && ArePartners(rule, actions[i], actions[found.value])
    decreases |actions| - j
  {
    if j >= |actions| || j >= WindowEnd(rule, |actions|, i) then None
    else if j !in consumed && ArePartners(rule, actions[i], actions[j]) then Some(j)
    else FirstPartner(rule, actions, i, consumed, j + 1)
  }

  /** An unconsumed partner in the window is never passed over. */
  lemma {:induction false} NearestPartner(rule: PairRule, actions: seq<Action>, i: nat, consumed: set<nat>, j: nat, k: nat)
    requires i < j <= k < |actions| && k < WindowEnd(rule, |actions|, i)
    requires k !in consumed && ArePartners(rule, actions[i], actions[k])
    ensures FirstPartner(rule, actions, i, consumed, j).Some? && FirstPartner(rule, actions, i, consumed, j).value <= k
    decreases |actions| - j
  {
    if j < k { NearestPartner(rule, actions, i, consumed, j + 1, k); }
  }

  /** The cookie of an inotify rename, empty for everything else. */
  function Cookie(a: Action): Text {
    if a.name == FILE_RENAME then GetText(a, K_INOTIFY_COOKIE) else Empty
  }

  /** The first position from `from` on that carries the cookie. */
  function NextCookie(actions: seq<Action>, cookie: Text, from: nat): Option<nat>
    decreases |actions| - from
  {
    if from >= |actions| then None
    else if Cookie(actions[from]) == cookie then Some(from)
    else NextCookie(actions, cookie, from + 1)
  }

  lemma {:induction false} NextCookieSpec(actions: seq<Action>, cookie: Text, from: nat, k: nat)
    requires from <= k < |actions| && Cookie(actions[k]) == cookie
    ensures NextCookie(actions, cookie, from).Some? && from <= NextCookie(actions, cookie, from).value <= k
    decreases |actions| - from
  {
    if from < k { NextCookieSpec(actions, cookie, from + 1, k); }
  }

  lemma {:induction false} NextCookieCarries(actions: seq<Action>, cookie: Text, from: nat)
    requires NextCookie(actions, cookie, from).Some?
    ensures var k := NextCookie(actions, cookie, from).value;
            from <= k < |actions| && Cookie(actions[k]) == cookie
    decreases |actions| - from
  {
    if Cookie(actions[from]) != cookie { NextCookieCarries(actions, cookie, from + 1); }
  }

  /** The second of exactly two events with the cookie of the event at `i`, if that is the first. */
  function CookiePartner(actions: seq<Action>, i: nat): Option<nat>
    requires i < |actions|
  {
    var cookie := Cookie(actions[i]);
    var second := NextCookie(actions, cookie, i + 1);
    if cookie != Empty && NextCookie(actions, cookie, 0) == Some(i) && second.Some?
       && NextCookie(actions, cookie, second.value + 1).None?
    then second else None
  }

  /** The action that the event at `i` is paired with, given what earlier pairs have consumed. */
  function Partner(rule: PairRule, actions: seq<Action>, i: nat, consumed: set<nat>): (found: Option<nat>)
    requires i < |actions|
  {
    match rule
    case CookiePairs => CookiePartner(actions, i)
    case _ =>
      if IsSource(rule, actions[i]) then FirstPartner(rule, actions, i, consumed, i + 1) else None
  }

  /** Two inotify cookies pair exactly when no third rename carries the same one. */
  ghost predicate SameCookie(actions: seq<Action>, i: nat, j: nat) {
    && i < j < |actions| && Cookie(actions[i]) == Cookie(actions[j]) != Empty
    && forall k :: 0 <= k < |actions| && Cookie(actions[k]) == Cookie(actions[i]) ==> k == i || k == j
  }

  /** What makes `(i, j)` a pair of the rule. */
  ghost predicate IsPair(rule: PairRule, actions: seq<Action>, i: nat, j: nat) {
    && i < j < |actions|
    && if rule.CookiePairs? then SameCookie(actions, i, j)
       else j <= i + rule.maxGap && IsSource(rule, actions[i]) && ArePartners(rule, actions[i], actions[j])
  }

  lemma CookiePartnerIsPair(actions: seq<Action>, i: nat)
    requires i < |actions| && CookiePartner(actions, i).Some?
    ensures SameCookie(actions, i, CookiePartner(actions, i).value)
  {
    var cookie, j := Cookie(actions[i]), CookiePartner(actions, i).value;
    NextCookieCarries(actions, cookie, i + 1);
    forall k: nat | k < |actions| && Cookie(actions[k]) == cookie ensures k == i || k == j {
      if k < i { NextCookieSpec(actions, cookie, 0, k); }
      if i < k < j { NextCookieSpec(actions, cookie, i + 1, k); }
      if j < k { NextCookieSpec(actions, cookie, j + 1, k); }
    }
  }

  /** A rename is paired exactly when one later rename, and no third, carries its cookie. */
  lemma CookiePartnerIff(actions: seq<Action>, i: nat, j: nat)
    requires i < |actions|
    ensures CookiePartner(actions, i) == Some(j) <==> SameCookie(actions, i, j)
  {
    if CookiePartner(actions, i) == Some(j) {
      CookiePartnerIsPair(actions, i);
    } else if SameCookie(actions, i, j) {
      var cookie := Cookie(actions[i]);
      NextCookieSpec(actions, cookie, 0, i);
      NextCookieCarries(actions, cookie, 0);
      NextCookieSpec(actions, cookie, i + 1, j);
      NextCookieCarries(actions, cookie, i + 1);
      if NextCookie(actions, cookie, j + 1).Some? { NextCookieCarries(actions, cookie, j + 1); }
    }
  }

  lemma PartnerIsPair(rule: PairRule, actions: seq<Action>, i: nat, consumed: set<nat>)
    requires i < |actions| && Partner(rule, actions, i, consumed).Some?
    ensures IsPair(rule, actions, i, Partner(rule, actions, i, consumed).value)
    ensures i < Partner(rule, actions, i, consumed).value < |actions|
  {
    if rule.CookiePairs? { CookiePartnerIsPair(actions, i); }
  }

  function Synthesize(rule: PairRule, source: Action, dest: Action): Action {
    var inPlace := rule.RenamePairs? && Dirname(EventPath(source)) == Dirname(EventPath(dest));
    Action(if inPlace then FILE_RENAME else FILE_MOVE,
           map[K_SOURCE := One(EventPath(source)), K_DESTINATION := One(EventPath(dest)),
               K_PATH := One(EventPath(dest)), K_TARGET := One(EventPath(dest))],
           source.start, dest.end,
           match rule case RenamePairs(_) => 0.95 case ModifyPairs(_) => 0.9 case CookiePairs => 0.98)
  }

  // ---------- The scan ----------

  function Choose(rule: PairRule, actions: seq<Action>): Chooser {
    (i: nat, consumed: set<nat>) => if i < |actions| then Partner(rule, actions, i, consumed) else None
  }

  function Render(rule: PairRule, actions: seq<Action>, s: Slot): Action
    requires s.first < |actions| && (s.Join? ==> s.second < |actions|)
  {
    match s
    case Keep(i) => actions[i]
    case Join(i, j) => Synthesize(rule, actions[i], actions[j])
  }

  ghost predicate InBounds(actions: seq<Action>, plan: seq<Slot>) {
    forall s :: s in plan ==> s.first < |actions| && (s.Join? ==> s.first < s.second < |actions|)
  }

  function Rendered(rule: PairRule, actions: seq<Action>, plan: seq<Slot>): (result: seq<Action>)
    requires InBounds(actions, plan)
    ensures |result| == |plan|
  {
    if plan == [] then [] else [Render(rule, actions, plan[0])] + Rendered(rule, actions, plan[1..])
  }

  lemma {:induction false} PlanInBounds(rule: PairRule, actions: seq<Action>, i: nat, consumed: set<nat>)
    requires i <= |actions|
    ensures InBounds(actions, Plan(Choose(rule, actions), |actions|, i, consumed))
    decreases |actions| - i
  {
    if i < |actions| {
      var choose := Choose(rule, actions);
      var j := choose(i, consumed);
      if i !in consumed && j.Some? {
        PartnerIsPair(rule, actions, i, consumed);
        PlanInBounds(rule, actions, i + 1, consumed + {j.value});
      } else {
        PlanInBounds(rule, actions, i + 1, consumed);
      }
    }
  }

  /** What the rule returns from position `i` on. */
  function Paired(rule: PairRule, actions: seq<Action>, i: nat, consumed: set<nat>): seq<Action>
    requires i <= |actions|
  {
    PlanInBounds(rule, actions, i, consumed);
    Rendered(rule, actions, Plan(Choose(rule, actions), |actions|, i, consumed))
  }

  lemma RenderedCons(rule: PairRule, actions: seq<Action>, s: Slot, rest: seq<Slot>)
    requires InBounds(actions, [s] + rest)
    ensures InBounds(actions, rest) && s.first < |actions| && (s.Join? ==> s.first < s.second < |actions|)
    ensures Rendered(rule, actions, [s] + rest) == [Render(rule, actions, s)] + Rendered(rule, actions, rest)
  {
    assert s in [s] + rest;
    assert forall t :: t in rest ==> t in [s] + rest;
    assert ([s] + rest)[1..] == rest;
  }

  lemma PairedStep(rule: PairRule, actions: seq<Action>, i: nat, consumed: set<nat>)
    requires i < |actions|
    ensures var all, j := Paired(rule, actions, i, consumed), Partner(rule, actions, i, consumed);
            if i in consumed then all == Paired(rule, actions, i + 1, consumed)
            else if j.Some? then
              && i < j.value < |actions|
              && all == [Synthesize(rule, actions[i], actions[j.value])] + Paired(rule, actions, i + 1, consumed + {j.value})
            else all == [actions[i]] + Paired(rule, actions, i + 1, consumed)
  {
    var choose, n := Choose(rule, actions), |actions|;
    var j := choose(i, consumed);
    PlanInBounds(rule, actions, i, consumed);
    if i !in consumed {
      if j.Some? {
        RenderedCons(rule, actions, Join(i, j.value), Plan(choose, n, i + 1, consumed + {j.value}));
      } else {
        RenderedCons(rule, actions, Keep(i), Plan(choose, n, i + 1, consumed));
      }
    }
  }

  lemma PairedScan(rule: PairRule, actions: seq<Action>, i: nat, consumed: set<nat>, before: seq<Action>)
    requires i < |actions|
    ensures var all, j := before + Paired(rule, actions, i, consumed), Partner(rule, actions, i, consumed);
            if i in consumed then all == before + Paired(rule, actions, i + 1, consumed)
            else if j.Some? then
              && i < j.value < |actions|
              && all == (before + [Synthesize(rule, actions[i], actions[j.value])]) + Paired(rule, actions, i + 1, consumed + {j.value})
            else all == (before + [actions[i]]) + Paired(rule, actions, i + 1, consumed)
  {
    PairedStep(rule, actions, i, consumed);
    var j := Partner(rule, actions, i, consumed);
    if i !in consumed {
      if j.Some? {
        Regroup(before, [Synthesize(rule, actions[i], actions[j.value])], Paired(rule, actions, i + 1, consumed + {j.value}));
      } else {
        Regroup(before, [actions[i]], Paired(rule, actions, i + 1, consumed));
      }
    }
  }

  method PairUp(rule: PairRule, actions: seq<Action>) returns (result: seq<Action>)
    ensures result == Paired(rule, actions, 0, {})
  {
    result := [];
    var consumed: set<nat> := {};
    for i := 0 to |actions|
      invariant Paired(rule, actions, 0, {}) == result + Paired(rule, actions, i, consumed)
    {
      PairedScan(rule, actions, i, consumed, result);
      if i in consumed {
        continue;
      }
      var pair := Partner(rule, actions, i, consumed);
      if pair.Some? {
        consumed := consumed + {pair.value};
        result := result + [Synthesize(rule, actions[i], actions[pair.value])];
      } else {
        result := result + [actions[i]];
      }
    }
  }

  /** The inotify rule falls back to the rename heuristics when no event carries a cookie. */
  method InotifyPairs(actions: seq<Action>) returns (result: seq<Action>)
    ensures result == if exists k :: 0 <= k < |actions| && Cookie(actions[k]) != Empty
                      then Paired(CookiePairs, actions, 0, {}) else Paired(RenamePairs(3), actions, 0, {})
  {
    var anyCookie := false;
    for i := 0 to |actions|
      invariant anyCookie <==> exists k :: 0 <= k < i && Cookie(actions[k]) != Empty
    {
      if Cookie(actions[i]) != Empty {
        anyCookie := true;
      }
    }
    if anyCookie {
      result := PairUp(CookiePairs, actions);
    } else {
      result := PairUp(RenamePairs(3), actions);
    }
  }

  // ---------- Each event is used once ----------

  /** Cookie partners never compete; the window scans skip what is consumed. */
  ghost predicate ConsumedOk(rule: PairRule, actions: seq<Action>, i: nat, consumed: set<nat>) {
    rule.CookiePairs? ==> forall j :: j in consumed ==> exists f: nat :: f < i && SameCookie(actions, f, j)
  }

  lemma CookiesDoNotCompete(actions: seq<Action>, i: nat, f: nat, j: nat)
    requires SameCookie(actions, i, j) && SameCookie(actions, f, j)
    ensures f == i
  {
    assert Cookie(actions[f]) == Cookie(actions[i]);
  }

  lemma ChoiceIsSound(rule: PairRule, actions: seq<Action>, i: nat, consumed: set<nat>)
    requires i < |actions| && ConsumedOk(rule, actions, i, consumed) && Partner(rule, actions, i, consumed).Some?
    ensures var j := Partner(rule, actions, i, consumed).value;
            i < j < |actions| && j !in consumed && ConsumedOk(rule, actions, i + 1, consumed + {j})
  {
    PartnerIsPair(rule, actions, i, consumed);
    var j := Partner(rule, actions, i, consumed).value;
    if rule.CookiePairs? {
      forall f: nat | f < i && j in consumed && SameCookie(actions, f, j) ensures false {
        CookiesDoNotCompete(actions, i, f, j);
      }
    }
  }

  ghost function ConsumedInv(rule: PairRule, actions: seq<Action>): (nat, set<nat>) -> bool {
    (i: nat, consumed: set<nat>) => ConsumedOk(rule, actions, i, consumed)
  }

  lemma RuleIsSound(rule: PairRule, actions: seq<Action>)
    ensures Sound(Choose(rule, actions), ConsumedInv(rule, actions), |actions|)
  {
    var choose, inv := Choose(rule, actions), ConsumedInv(rule, actions);
    forall i: nat, consumed: set<nat> ensures SoundAt(choose, inv, |actions|, i, consumed) {
      if i < |actions| && inv(i, consumed) && choose(i, consumed).Some? {
        ChoiceIsSound(rule, actions, i, consumed);
      }
    }
  }

  ghost function PlanOf(rule: PairRule, actions: seq<Action>): seq<Slot> {
    Plan(Choose(rule, actions), |actions|, 0, {})
  }

  /**
    Pairing uses each event once. The output follows a plan in which every input position occurs
    exactly once, slots are ordered by their first position, a kept position is output unchanged,
    and every join is a pair of the rule.
   */
  lemma PairsUseEachEventOnce(rule: PairRule, actions: seq<Action>)
    ensures InBounds(actions, PlanOf(rule, actions))
    ensures Paired(rule, actions, 0, {}) == Rendered(rule, actions, PlanOf(rule, actions))
    ensures forall m :: 0 <= m < |actions| ==> Uses(PlanOf(rule, actions), m) == 1
    ensures InOrder(PlanOf(rule, actions), 0)
    ensures JoinsSatisfy(PlanOf(rule, actions), (i: nat, j: nat) => IsPair(rule, actions, i, j))
    ensures |Paired(rule, actions, 0, {})| + Joins(PlanOf(rule, actions)) == |actions|
  {
    var choose := Choose(rule, actions);
    var inv := ConsumedInv(rule, actions);
    PlanInBounds(rule, actions, 0, {});
    RuleIsSound(rule, actions);
    forall m | 0 <= m < |actions| ensures Uses(PlanOf(rule, actions), m) == 1 {
      EachPositionOnce(choose, inv, |actions|, 0, {}, m);
    }
    PlanInOrder(choose, |actions|, 0, {});
    forall k: nat, c: set<nat> | k < |actions| && choose(k, c).Some? ensures IsPair(rule, actions, k, choose(k, c).value) {
      PartnerIsPair(rule, actions, k, c);
    }
    PlanJoins(choose, |actions|, 0, {}, (i: nat, j: nat) => IsPair(rule, actions, i, j));
    PlanLength(choose, inv, |actions|, 0, {});
    NothingConsumed(|actions|, 0);
  }

  lemma {:induction false} RenderedIsDerived(rule: PairRule, actions: seq<Action>, plan: seq<Slot>, from: nat)
    requires InBounds(actions, plan) && InOrder(plan, from)
    ensures DerivedFrom(actions, from, Rendered(rule, actions, plan))
    decreases |plan|
  {
    if plan == [] {
      DerivedEmpty(actions, from);
    } else {
      var s := plan[0];
      RenderedIsDerived(rule, actions, plan[1..], s.first + 1);
      DerivedCons(actions, s.first, if s.Join? then s.second else s.first, Render(rule, actions, s),
                  Rendered(rule, actions, plan[1..]));
      DerivedSkip(actions, from, s.first, Rendered(rule, actions, plan));
    }
  }

  lemma PairedIsDerived(rule: PairRule, actions: seq<Action>)
    ensures Derived(actions, Paired(rule, actions, 0, {}))
  {
    PlanInBounds(rule, actions, 0, {});
    PlanInOrder(Choose(rule, actions), |actions|, 0, {});
    RenderedIsDerived(rule, actions, PlanOf(rule, actions), 0);
  }

  /** Pairing across an action in between makes ranges overlap: sorted input, output that is not disjoint. */
  lemma PairingCanOverlap(a: Action, between: Action, b: Action)
    requires IsSource(RenamePairs(3), a) && ArePartners(RenamePairs(3), a, b)
    requires between.name != FILE_RENAME && SortedDisjoint([a, between, b])
    ensures Paired(RenamePairs(3), [a, between, b], 0, {}) == [Synthesize(RenamePairs(3), a, b), between]
    ensures !SortedDisjoint(Paired(RenamePairs(3), [a, between, b], 0, {}))
  {
    var rule, actions := RenamePairs(3), [a, between, b];
    assert FirstPartner(rule, actions, 0, {}, 1) == FirstPartner(rule, actions, 0, {}, 2) == Some(2);
    PairedStep(rule, actions, 0, {});
    PairedStep(rule, actions, 1, {2});
    PairedStep(rule, actions, 2, {2});
    assert Paired(rule, actions, 3, {2}) == [];
    var result := Paired(rule, actions, 0, {});
    assert actions[0].start < actions[1].end && actions[1].end <= actions[2].start;
    assert result[0].end > result[1].start;
  }

  // ---------- When pairing keeps ranges disjoint ----------

  /** From left to right, every event with a partner has it next to it. */
  predicate NeighboursOnly(rule: PairRule, actions: seq<Action>, i: nat)
    decreases |actions| - i
  {
    if i >= |actions| then true
    else
      var j := Partner(rule, actions, i, {});
      if j.None? then NeighboursOnly(rule, actions, i + 1)
      else j.value == i + 1 && NeighboursOnly(rule, actions, i + 2)
  }

  ghost predicate Past(consumed: set<nat>, i: nat) {
    forall k :: k in consumed ==> k < i
  }

  lemma {:induction false} FirstPartnerIgnoresPast(rule: PairRule, actions: seq<Action>, i: nat, consumed: set<nat>, j: nat)
    requires i < j && i < |actions| && Past(consumed, i)
    ensures FirstPartner(rule, actions, i, consumed, j) == FirstPartner(rule, actions, i, {}, j)
    decreases |actions| - j
  {
    if j < |actions| { FirstPartnerIgnoresPast(rule, actions, i, consumed, j + 1); }
  }

  lemma PartnerIgnoresPast(rule: PairRule, actions: seq<Action>, i: nat, consumed: set<nat>)
    requires i < |actions| && Past(consumed, i)
    ensures Partner(rule, actions, i, consumed) == Partner(rule, actions, i, {})
  {
    FirstPartnerIgnoresPast(rule, actions, i, consumed, i + 1);
  }

  lemma PairedAlone(rule: PairRule, actions: seq<Action>, i: nat, consumed: set<nat>)
    requires i < |actions| && Past(consumed, i) && Partner(rule, actions, i, {}).None?
    ensures Paired(rule, actions, i, consumed) == [actions[i]] + Paired(rule, actions, i + 1, consumed)
  {
    PartnerIgnoresPast(rule, actions, i, consumed);
    PairedStep(rule, actions, i, consumed);
  }

  lemma PairedNeighbours(rule: PairRule, actions: seq<Action>, i: nat, consumed: set<nat>)
    requires i < |actions| && Past(consumed, i) && Partner(rule, actions, i, {}) == Some(i + 1)
    ensures i + 1 < |actions| && Past(consumed + {i + 1}, i + 2)
    ensures Paired(rule, actions, i, consumed)
            == [Synthesize(rule, actions[i], actions[i + 1])] + Paired(rule, actions, i + 2, consumed + {i + 1})
  {
    PartnerIgnoresPast(rule, actions, i, consumed);
    PairedStep(rule, actions, i, consumed);
    PairedStep(rule, actions, i + 1, consumed + {i + 1});
  }

  lemma KeptIsBlock(actions: seq<Action>, i: nat, rest: seq<Action>)
    requires i < |actions| && BlockingFrom(true, actions, i + 1, rest)
    ensures BlockingFrom(true, actions, i, [actions[i]] + rest)
  {
    BlockingCons(true, actions, i, i + 1, actions[i], rest);
  }

  lemma PairIsBlock(rule: PairRule, actions: seq<Action>, i: nat, rest: seq<Action>)
    requires i + 1 < |actions| && BlockingFrom(true, actions, i + 2, rest)
    ensures BlockingFrom(true, actions, i, [Synthesize(rule, actions[i], actions[i + 1])] + rest)
  {
    BlockingCons(true, actions, i, i + 2, Synthesize(rule, actions[i], actions[i + 1]), rest);
  }

  /** Pairs of neighbours are merged like blocks. */
  lemma {:induction false} NeighboursAreBlocks(rule: PairRule, actions: seq<Action>, i: nat, consumed: set<nat>)
    requires i <= |actions| && Past(consumed, i) && NeighboursOnly(rule, actions, i)
    ensures BlockingFrom(true, actions, i, Paired(rule, actions, i, consumed))
    decreases |actions| - i
  {
    if i == |actions| {
      assert Paired(rule, actions, i, consumed) == [];
      BlockingEmpty(true, actions);
    } else if Partner(rule, actions, i, {}).None? {
      PairedAlone(rule, actions, i, consumed);
      NeighboursAreBlocks(rule, actions, i + 1, consumed);
      KeptIsBlock(actions, i, Paired(rule, actions, i + 1, consumed));
    } else {
      var more := consumed + {i + 1};
      PairedNeighbours(rule, actions, i, consumed);
      NeighboursAreBlocks(rule, actions, i + 2, more);
      PairIsBlock(rule, actions, i, Paired(rule, actions, i + 2, more));
    }
  }

  lemma TailStaysDisjoint(a: Action, rest: seq<Action>)
    requires SortedDisjoint([a] + rest)
    ensures SortedDisjoint(rest) && (rest != [] ==> a.end <= rest[0].start)
  {
    var all := [a] + rest;
    assert all[0] == a;
    forall k | 0 <= k < |rest| ensures rest[k] == all[k + 1] && a.end <= rest[k].start && rest[k].start < rest[k].end {
      assert all[k + 1] == rest[k] && all[0].end <= all[k + 1].start;
    }
    forall j, k | 0 <= j < k < |rest| ensures rest[j].end <= rest[k].start {
      assert all[j + 1].end <= all[k + 1].start;
    }
  }

  lemma OverlapStays(a: Action, rest: seq<Action>)
    requires !SortedDisjoint(rest)
    ensures !SortedDisjoint([a] + rest)
  {
    if SortedDisjoint([a] + rest) { TailStaysDisjoint(a, rest); }
  }

  /** A pair across an action in between overlaps with what becomes of that action. */
  lemma FarPairOverlaps(rule: PairRule, actions: seq<Action>, i: nat, consumed: set<nat>, j: nat)
    requires SortedDisjoint(actions) && i < |actions| && Past(consumed, i)
    requires Partner(rule, actions, i, {}) == Some(j) && j != i + 1
    ensures !SortedDisjoint(Paired(rule, actions, i, consumed))
  {
    PartnerIgnoresPast(rule, actions, i, consumed);
    PartnerIsPair(rule, actions, i, consumed);
    PairedStep(rule, actions, i, consumed);
    PairedStep(rule, actions, i + 1, consumed + {j});
    var a, rest := Synthesize(rule, actions[i], actions[j]), Paired(rule, actions, i + 1, consumed + {j});
    assert rest[0].start == actions[i + 1].start < actions[i + 1].end <= actions[j].start < actions[j].end == a.end;
    if SortedDisjoint([a] + rest) { TailStaysDisjoint(a, rest); }
  }

  lemma AloneKeepsOverlap(rule: PairRule, actions: seq<Action>, i: nat, consumed: set<nat>)
    requires i < |actions| && Past(consumed, i) && Partner(rule, actions, i, {}).None?
    requires !SortedDisjoint(Paired(rule, actions, i + 1, consumed))
    ensures !SortedDisjoint(Paired(rule, actions, i, consumed))
  {
    PairedAlone(rule, actions, i, consumed);
    OverlapStays(actions[i], Paired(rule, actions, i + 1, consumed));
  }

  lemma NeighboursKeepOverlap(rule: PairRule, actions: seq<Action>, i: nat, consumed: set<nat>)
    requires i + 1 < |actions| && Past(consumed, i) && Partner(rule, actions, i, {}) == Some(i + 1)
    requires !SortedDisjoint(Paired(rule, actions, i + 2, consumed + {i + 1}))
    ensures !SortedDisjoint(Paired(rule, actions, i, consumed))
  {
    PairedNeighbours(rule, actions, i, consumed);
    OverlapStays(Synthesize(rule, actions[i], actions[i + 1]), Paired(rule, actions, i + 2, consumed + {i + 1}));
  }

  lemma {:induction false} OtherwiseOverlap(rule: PairRule, actions: seq<Action>, i: nat, consumed: set<nat>)
    requires SortedDisjoint(actions) && i <= |actions| && Past(consumed, i) && !NeighboursOnly(rule, actions, i)
    ensures !SortedDisjoint(Paired(rule, actions, i, consumed))
    decreases |actions| - i
  {
    var j := Partner(rule, actions, i, {});
    if j.None? {
      OtherwiseOverlap(rule, actions, i + 1, consumed);
      AloneKeepsOverlap(rule, actions, i, consumed);
    } else if j.value == i + 1 {
      PairedNeighbours(rule, actions, i, consumed);
      OtherwiseOverlap(rule, actions, i + 2, consumed + {i + 1});
      NeighboursKeepOverlap(rule, actions, i, consumed);
    } else {
      FarPairOverlaps(rule, actions, i, consumed, j.value);
    }
  }

  /** Of sorted, disjoint ranges a pairing rule makes sorted, disjoint ranges exactly if all partners are neighbours. */
  lemma DisjointIffNeighbours(rule: PairRule, actions: seq<Action>)
    requires SortedDisjoint(actions)
    ensures SortedDisjoint(Paired(rule, actions, 0, {})) <==> NeighboursOnly(rule, actions, 0)
  {
    if NeighboursOnly(rule, actions, 0) {
      NeighboursAreBlocks(rule, actions, 0, {});
      BlockingKeepsSortedDisjoint(true, actions, Paired(rule, actions, 0, {}));
    } else {
      OtherwiseOverlap(rule, actions, 0, {});
    }
  }

  ghost predicate AdjacentJoins(plan: seq<Slot>) {
    forall s :: s in plan && s.Join? ==> s.second == s.first + 1
  }

  /** In terms of the plan: every join is of adjacent positions. */
  lemma {:induction false} NeighboursIffAdjacent(rule: PairRule, actions: seq<Action>, i: nat, consumed: set<nat>)
    requires i <= |actions| && Past(consumed, i)
    ensures NeighboursOnly(rule, actions, i) <==> AdjacentJoins(Plan(Choose(rule, actions), |actions|, i, consumed))
    decreases |actions| - i
  {
    if i < |actions| {
      var choose, n := Choose(rule, actions), |actions|;
      var plan, j := Plan(choose, n, i, consumed), Partner(rule, actions, i, {});
      PartnerIgnoresPast(rule, actions, i, consumed);
      if j.None? {
        NeighboursIffAdjacent(rule, actions, i + 1, consumed);
        assert plan == [Keep(i)] + Plan(choose, n, i + 1, consumed);
      } else {
        PartnerIsPair(rule, actions, i, {});
        assert plan == [Join(i, j.value)] + Plan(choose, n, i + 1, consumed + {j.value});
        if j.value == i + 1 {
          NeighboursIffAdjacent(rule, actions, i + 2, consumed + {i + 1});
        } else {
          assert plan[0] in plan;
        }
      }
    }
  }
}
