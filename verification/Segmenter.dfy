/**
  Episode segmentation: boundary detectors over the steps of a trajectory, their merged boundaries,
  and the episodes these cut the trajectory into.
 */
module Segmenter {

  datatype Kind =
    | FileCreate | FileModify | FileDelete | FileRename | ClipboardCopy | AppSwitch
    | UiClick | UiType | UiShortcut | UiScroll | Unknown | Unmapped(id: int)

  /** Application ids are interned; 0 is the empty id. `noise` holds the confidences of the noise marks. */
  datatype Step = Step(kind: Kind, time: real, app: int, focused: int, noise: seq<real>)

  predicate IsSignal(s: Step) {
    s.kind != Unknown && forall k :: 0 <= k < |s.noise| ==> s.noise[k] < 0.9
  }

  predicate SignalAt(steps: seq<Step>, i: nat) {
    i < |steps| && IsSignal(steps[i])
  }

  // ---------- Increasing lists of positions ----------

  /** Each position is at least `gap` behind the one before it, the first one behind `prev`. */
  predicate SpacedFrom(prev: int, gap: int, bs: seq<nat>)
    decreases |bs|
  {
    bs == [] || (bs[0] - prev >= gap && SpacedFrom(bs[0], gap, bs[1..]))
  }

  /** Strictly increasing, above `low`. */
  predicate Ascending(low: int, bs: seq<nat>) {
    SpacedFrom(low, 1, bs)
  }

  lemma {:induction false} AscendingAbove(low: int, bs: seq<nat>, b: nat)
    requires Ascending(low, bs) && b in bs
    ensures low < b
    decreases |bs|
  {
    if b != bs[0] { AscendingAbove(bs[0], bs[1..], b); }
  }

  lemma AscendingFromLower(low: int, lower: int, bs: seq<nat>)
    requires Ascending(low, bs) && lower <= low
    ensures Ascending(lower, bs)
  {
  }

  predicate Within(bs: seq<nat>, n: nat) {
    forall b :: b in bs ==> b <= n
  }

  lemma WithinTail(bs: seq<nat>, k: nat)
    requires k <= |bs|
    ensures forall b :: b in bs[k..] ==> b in bs
  {
  }

  /** The positions in `[i, n)` where `p` holds. */
  function Positions(p: nat -> bool, i: nat, n: nat): seq<nat>
    decreases n - i
  {
    if i >= n then [] else (if p(i) then [i] else []) + Positions(p, i + 1, n)
  }

  lemma PositionsStep(p: nat -> bool, i: nat, n: nat, before: seq<nat>)
    requires i < n
    ensures before + Positions(p, i, n) == (if p(i) then before + [i] else before) + Positions(p, i + 1, n)
  {
  }

  lemma {:induction false} PositionsAscend(p: nat -> bool, i: nat, n: nat)
    ensures Ascending(i - 1, Positions(p, i, n))
    decreases n - i
  {
    if i < n {
      PositionsAscend(p, i + 1, n);
      var rest := Positions(p, i + 1, n);
      if p(i) {
        assert ([i] + rest)[1..] == rest;
      } else {
        assert Positions(p, i, n) == rest;
      }
    }
  }

  lemma {:induction false} PositionsMember(p: nat -> bool, i: nat, n: nat, b: nat)
    ensures b in Positions(p, i, n) <==> i <= b < n && p(b)
    decreases n - i
  {
    if i < n { PositionsMember(p, i + 1, n, b); }
  }

  /** Greedy thinning: a position is kept if it is at least `gap` behind the last one kept. */
  function Spaced(bs: seq<nat>, prev: int, gap: int): seq<nat> {
    if bs == [] then []
    else if bs[0] - prev >= gap then [bs[0]] + Spaced(bs[1..], bs[0], gap)
    else Spaced(bs[1..], prev, gap)
  }

  lemma {:induction false} SpacedIsSpaced(bs: seq<nat>, prev: int, gap: int)
    ensures SpacedFrom(prev, gap, Spaced(bs, prev, gap))
  {
    if bs != [] {
      if bs[0] - prev >= gap {
        SpacedIsSpaced(bs[1..], bs[0], gap);
        assert Spaced(bs, prev, gap)[1..] == Spaced(bs[1..], bs[0], gap);
      } else {
        SpacedIsSpaced(bs[1..], prev, gap);
      }
    }
  }

  lemma {:induction false} SpacedSelects(bs: seq<nat>, prev: int, gap: int, low: int)
    requires Ascending(low, bs)
    ensures Ascending(low, Spaced(bs, prev, gap)) && forall b :: b in Spaced(bs, prev, gap) ==> b in bs
  {
    if bs != [] {
      if bs[0] - prev >= gap {
        SpacedSelects(bs[1..], bs[0], gap, bs[0]);
        assert Spaced(bs, prev, gap)[1..] == Spaced(bs[1..], bs[0], gap);
      } else {
        SpacedSelects(bs[1..], prev, gap, bs[0]);
        AscendingFromLower(bs[0], low, Spaced(bs, prev, gap));
      }
    }
  }

  /** Only positions too close to one that is kept before them, or to the start, are left out. */
  lemma {:induction false} SpacedDropsOnlyClose(bs: seq<nat>, prev: int, gap: int, low: int, b: nat)
    requires Ascending(low, bs) && b in bs && b !in Spaced(bs, prev, gap)
    ensures b - prev < gap || exists c :: c in Spaced(bs, prev, gap) && c < b && b - c < gap
    decreases |bs|
  {
    if bs[0] - prev >= gap {
      var kept, rest := Spaced(bs, prev, gap), Spaced(bs[1..], bs[0], gap);
      assert kept == [bs[0]] + rest && kept[0] in kept;
      assert forall c :: c in rest ==> c in kept;
      AscendingAbove(bs[0], bs[1..], b);
      SpacedDropsOnlyClose(bs[1..], bs[0], gap, bs[0], b);
    } else if b != bs[0] {
      SpacedDropsOnlyClose(bs[1..], prev, gap, bs[0], b);
    }
  }

  /** No other choice of equally spaced positions keeps more of them. */
  lemma {:induction false} ThinningKeepsTheMost(bs: seq<nat>, prev: int, gap: int, low: int, other: seq<nat>, q: int, lowOther: int)
    requires Ascending(low, bs) && Ascending(lowOther, other) && forall b :: b in other ==> b in bs
    requires SpacedFrom(q, gap, other) && prev <= q
    ensures |other| <= |Spaced(bs, prev, gap)|
    decreases |bs|
  {
    if other != [] {
      assert other[0] in other;
      var rest, first := other[1..], bs[0];
      if other[0] != first { AscendingAbove(first, bs[1..], other[0]); }
      if first - prev >= gap {
        forall b | b in rest ensures b in bs[1..] {
          assert b in other;
          AscendingAbove(other[0], rest, b);
        }
        ThinningKeepsTheMost(bs[1..], first, gap, first, rest, other[0], other[0]);
      } else {
        forall b | b in other ensures b in bs[1..] {
          if b != other[0] { AscendingAbove(other[0], rest, b); }
        }
        ThinningKeepsTheMost(bs[1..], prev, gap, first, other, q, lowOther);
      }
    }
  }

  // ---------- Time gaps and app switches ----------

  function Gap(steps: seq<Step>, i: nat): real
    requires 0 < i < |steps|
  {
    steps[i].time - steps[i - 1].time
  }

  predicate LongGapAt(steps: seq<Step>, threshold: real, i: nat) {
    0 < i < |steps| && Gap(steps, i) >= threshold
  }

  function LongGapTest(steps: seq<Step>, threshold: real): nat -> bool {
    (i: nat) => LongGapAt(steps, threshold, i)
  }

  /** A switch to another app after a pause. */
  predicate SwitchAt(steps: seq<Step>, minGap: real, i: nat) {
    && 0 < i < |steps| && steps[i].kind == AppSwitch
    && steps[i].app != (if steps[i - 1].focused != 0 then steps[i - 1].focused else steps[i - 1].app)
    && Gap(steps, i) >= minGap
  }

  function SwitchTest(steps: seq<Step>, minGap: real): nat -> bool {
    (i: nat) => SwitchAt(steps, minGap, i)
  }

  // ---------- Semantic shifts ----------

  datatype Domain = FileOps | DataTransfer | Navigation | Interaction | Editing | Browsing | Other

  function DomainOf(kind: Kind): Domain {
    match kind
    case FileCreate | FileModify | FileDelete | FileRename => FileOps
    case ClipboardCopy => DataTransfer
    case AppSwitch => Navigation
    case UiClick | UiShortcut => Interaction
    case UiType => Editing
    case UiScroll => Browsing
    case Unknown | Unmapped(_) => Other
  }

  /** The domains of the signal steps, in order. */
  function Domains(steps: seq<Step>, signal: seq<nat>): (ds: seq<Domain>)
    requires forall k :: 0 <= k < |signal| ==> signal[k] < |steps|
  {
    seq(|signal|, k requires 0 <= k < |signal| => DomainOf(steps[signal[k]].kind))
  }

  /** The domain the steps before `pos` are in: that of the last one which is not mere navigation. */
  function Before(ds: seq<Domain>, pos: nat): Domain
    requires 0 < pos <= |ds|
  {
    if ds[pos - 1] != Navigation || pos == 1 then ds[pos - 1] else Before(ds, pos - 1)
  }

  /** How long the steps before `pos` have been in that domain. */
  function RunLength(ds: seq<Domain>, pos: nat): nat
    requires 0 < pos <= |ds|
  {
    if pos == 1 then 1
    else if ds[pos - 1] == Navigation || ds[pos - 1] == Before(ds, pos - 1) then RunLength(ds, pos - 1) + 1
    else 1
  }

  lemma RunStep(ds: seq<Domain>, pos: nat)
    requires 0 < pos < |ds|
    ensures Before(ds, pos + 1) == if ds[pos] == Navigation then Before(ds, pos) else ds[pos]
    ensures RunLength(ds, pos + 1) == if ds[pos] == Navigation || ds[pos] == Before(ds, pos) then RunLength(ds, pos) + 1 else 1
  {
  }

  /** The run is the longest stretch before `pos` that stays in the domain or merely navigates. */
  lemma {:induction false} RunIsMaximal(ds: seq<Domain>, pos: nat)
    requires 0 < pos <= |ds|
    ensures var d, from := Before(ds, pos), pos - RunLength(ds, pos);
            && 0 <= from < pos
            && (forall k :: from <= k < pos ==> ds[k] == d || ds[k] == Navigation)
            && (from > 0 ==> ds[from] == d && d != Navigation && Before(ds, from) != d)
  {
    if pos > 1 {
      RunIsMaximal(ds, pos - 1);
      RunStep(ds, pos - 1);
    }
  }

  /** The domain in effect is that of the last step that does not merely navigate, or of the first step. */
  lemma {:induction false} BeforeIsLast(ds: seq<Domain>, pos: nat) returns (k: nat)
    requires 0 < pos <= |ds|
    ensures k < pos && ds[k] == Before(ds, pos) && (k == 0 || ds[k] != Navigation)
    ensures forall j :: k < j < pos ==> ds[j] == Navigation
  {
    if ds[pos - 1] != Navigation || pos == 1 {
      k := pos - 1;
    } else {
      k := BeforeIsLast(ds, pos - 1);
    }
  }

  /** Which kinds of actions belong together. */
  lemma DomainClasses(a: Kind, b: Kind)
    ensures DomainOf(a) == DomainOf(b) <==>
              || a == b
              || {a, b} <= {FileCreate, FileModify, FileDelete, FileRename}
              || {a, b} <= {UiClick, UiShortcut}
              || ((a.Unknown? || a.Unmapped?) && (b.Unknown? || b.Unmapped?))
    ensures DomainOf(a) == Navigation <==> a == AppSwitch
    ensures DomainOf(a) == Interaction <==> a in {UiClick, UiShortcut}
    ensures DomainOf(a) == Editing <==> a == UiType
    ensures DomainOf(a) == Browsing <==> a == UiScroll
  {
  }

  predicate ClosePair(a: Domain, b: Domain) {
    {a, b} == {Interaction, Editing} || {a, b} == {Interaction, Browsing}
  }

  predicate Significant(a: Domain, b: Domain, run: nat, minLength: int) {
    b != Navigation && run >= minLength && (ClosePair(a, b) ==> run >= minLength + 2)
  }

  /** The step at `pos` leaves a domain that was long enough in effect. */
  predicate ShiftAt(ds: seq<Domain>, minLength: int, pos: nat) {
    && 0 < pos < |ds| && ds[pos] != Before(ds, pos)
    && Significant(Before(ds, pos), ds[pos], RunLength(ds, pos), minLength)
  }

  /** A shift leaves a domain that lasted for the minimum length, and for two steps more if the two domains are close. */
  lemma ShiftIff(ds: seq<Domain>, minLength: int, pos: nat)
    requires 0 < pos < |ds|
    ensures var d, lasted := Before(ds, pos), RunLength(ds, pos);
            ShiftAt(ds, minLength, pos) <==>
              && ds[pos] !in {d, Navigation} && lasted >= minLength
              && ((Interaction in {d, ds[pos]} && (Editing in {d, ds[pos]} || Browsing in {d, ds[pos]})) ==> lasted >= minLength + 2)
  {
    var d := Before(ds, pos);
    assert ClosePair(d, ds[pos]) <==> Interaction in {d, ds[pos]} && (Editing in {d, ds[pos]} || Browsing in {d, ds[pos]}) by {
      if d == Interaction && ds[pos] == Editing { assert {d, ds[pos]} == {Interaction, Editing}; }
      if d == Interaction && ds[pos] == Browsing { assert {d, ds[pos]} == {Interaction, Browsing}; }
      if ds[pos] == Interaction && d == Editing { assert {d, ds[pos]} == {Interaction, Editing}; }
      if ds[pos] == Interaction && d == Browsing { assert {d, ds[pos]} == {Interaction, Browsing}; }
      if {d, ds[pos]} == {Interaction, Editing} {
        assert Interaction in {d, ds[pos]} && Editing in {d, ds[pos]};
      }
      if {d, ds[pos]} == {Interaction, Browsing} {
        assert Interaction in {d, ds[pos]} && Browsing in {d, ds[pos]};
      }
    }
  }

  /** The positions of the shifts from `pos` on. */
  function Shifts(ds: seq<Domain>, signal: seq<nat>, minLength: int, pos: nat): seq<nat>
    requires |ds| == |signal|
    decreases |ds| - pos
  {
    if pos >= |ds| then []
    else (if ShiftAt(ds, minLength, pos) then [signal[pos]] else []) + Shifts(ds, signal, minLength, pos + 1)
  }

  function SignalTest(steps: seq<Step>): nat -> bool {
    (i: nat) => SignalAt(steps, i)
  }

  function Signal(steps: seq<Step>): seq<nat> {
    Positions(SignalTest(steps), 0, |steps|)
  }

  lemma SignalInBounds(steps: seq<Step>)
    ensures forall k :: 0 <= k < |Signal(steps)| ==> Signal(steps)[k] < |steps| && SignalAt(steps, Signal(steps)[k])
    ensures Ascending(-1, Signal(steps))
  {
    var signal := Signal(steps);
    PositionsAscend(SignalTest(steps), 0, |steps|);
    forall k | 0 <= k < |signal| ensures signal[k] < |steps| && SignalAt(steps, signal[k]) {
      PositionsMember(SignalTest(steps), 0, |steps|, signal[k]);
    }
  }

  function SemanticBoundaries(steps: seq<Step>, minLength: int): seq<nat>
    requires Signal(steps) != [] || minLength > 0
  {
    var signal := Signal(steps);
    SignalInBounds(steps);
    if |signal| < minLength * 2 then [] else Spaced(Shifts(Domains(steps, signal), signal, minLength, 1), signal[0], minLength)
  }

  // ---------- Maximum length ----------

  /** A boundary behind each signal step that brings the count to the maximum. */
  function ChunkEnds(steps: seq<Step>, maxSteps: int, count: nat, i: nat): seq<nat>
    decreases |steps| - i
  {
    if i >= |steps| then []
    else if !IsSignal(steps[i]) then ChunkEnds(steps, maxSteps, count, i + 1)
    else if count + 1 >= maxSteps then [i + 1] + ChunkEnds(steps, maxSteps, 0, i + 1)
    else ChunkEnds(steps, maxSteps, count + 1, i + 1)
  }

  /** The number of signal steps in `[a, b)`. */
  function Signals(steps: seq<Step>, a: nat, b: nat): nat
    requires a <= b <= |steps|
  {
    if a == b then 0 else Signals(steps, a, b - 1) + if IsSignal(steps[b - 1]) then 1 else 0
  }

  lemma {:induction false} SignalsAdd(steps: seq<Step>, a: nat, b: nat, c: nat)
    requires a <= b <= c <= |steps|
    ensures Signals(steps, a, c) == Signals(steps, a, b) + Signals(steps, b, c)
  {
    if b < c { SignalsAdd(steps, a, b, c - 1); }
  }

  /** The reference: from `from` on, every chunk ends with its `k`-th signal step, and the rest has fewer. */
  ghost predicate FullChunks(steps: seq<Step>, k: nat, from: nat, bs: seq<nat>)
    requires from <= |steps|
    decreases |bs|
  {
    if bs == [] then Signals(steps, from, |steps|) < k
    else
      && from < bs[0] <= |steps| && IsSignal(steps[bs[0] - 1]) && Signals(steps, from, bs[0]) == k
      && FullChunks(steps, k, bs[0], bs[1..])
  }

  function AtLeastOne(k: int): nat {
    if k < 1 then 1 else k
  }

  lemma {:induction false} ChunksAreFull(steps: seq<Step>, maxSteps: int, from: nat, i: nat)
    requires from <= i <= |steps| && Signals(steps, from, i) < AtLeastOne(maxSteps)
    ensures FullChunks(steps, AtLeastOne(maxSteps), from, ChunkEnds(steps, maxSteps, Signals(steps, from, i), i))
    decreases |steps| - i
  {
    if i < |steps| {
      var count := Signals(steps, from, i);
      assert Signals(steps, from, i + 1) == count + if IsSignal(steps[i]) then 1 else 0;
      if IsSignal(steps[i]) && count + 1 >= maxSteps {
        ChunksAreFull(steps, maxSteps, i + 1, i + 1);
        var rest := ChunkEnds(steps, maxSteps, 0, i + 1);
        assert ([i + 1] + rest)[1..] == rest;
      } else {
        ChunksAreFull(steps, maxSteps, from, i + 1);
      }
    }
  }

  lemma {:induction false} FullChunksAscend(steps: seq<Step>, k: nat, from: nat, bs: seq<nat>)
    requires from <= |steps| && FullChunks(steps, k, from, bs)
    ensures Ascending(from, bs) && forall b :: b in bs ==> b <= |steps|
    decreases |bs|
  {
    if bs != [] {
      FullChunksAscend(steps, k, bs[0], bs[1..]);
      forall b | b in bs ensures b <= |steps| { assert b == bs[0] || b in bs[1..]; }
    }
  }

  /** A stretch without a boundary strictly inside has at most `k` signal steps. */
  lemma {:induction false} UncutIsShort(steps: seq<Step>, k: nat, from: nat, bs: seq<nat>, a: nat, b: nat)
    requires from <= a <= b <= |steps| && FullChunks(steps, k, from, bs)
    requires forall c :: c in bs ==> !(a < c < b)
    ensures Signals(steps, a, b) <= k
    decreases |bs|
  {
    if bs == [] {
      SignalsAdd(steps, from, a, |steps|);
      SignalsAdd(steps, a, b, |steps|);
    } else if bs[0] <= a {
      WithinTail(bs, 1);
      UncutIsShort(steps, k, bs[0], bs[1..], a, b);
    } else {
      assert bs[0] in bs;
      SignalsAdd(steps, from, a, bs[0]);
      SignalsAdd(steps, a, b, bs[0]);
    }
  }

  // ---------- Detectors ----------

  datatype Detector =
    | TimeGap(threshold: real)
    | AppSwitches(minGap: real)
    | Semantic(minLength: int)
    | MaxLength(maxSteps: int)
    | AdaptiveMaxLength(baseMaxSteps: int, shortSession: real)
    | MinLengthFilter(inner: Detector, minSteps: int)

  /** The semantic detector looks at the first signal step, unless there are too few of them. */
  predicate Runs(d: Detector, steps: seq<Step>) {
    match d
    case Semantic(minLength) => Signal(steps) != [] || minLength > 0
    case MinLengthFilter(inner, _) => Runs(inner, steps)
    case _ => true
  }

  predicate IsShortSession(steps: seq<Step>, threshold: real) {
    steps == [] || steps[|steps| - 1].time - steps[0].time < threshold
  }

  function Detected(d: Detector, steps: seq<Step>): seq<nat>
    requires Runs(d, steps)
  {
    match d
    case TimeGap(threshold) => Positions(LongGapTest(steps, threshold), 1, |steps|)
    case AppSwitches(minGap) => Positions(SwitchTest(steps, minGap), 1, |steps|)
    case Semantic(minLength) => SemanticBoundaries(steps, minLength)
    case MaxLength(maxSteps) => ChunkEnds(steps, maxSteps, 0, 0)
    case AdaptiveMaxLength(base, threshold) => if IsShortSession(steps, threshold) then [] else ChunkEnds(steps, base, 0, 0)
    case MinLengthFilter(inner, minSteps) => Spaced(Detected(inner, steps), 0, minSteps)
  }

  method DetectAt(p: nat -> bool, n: nat) returns (boundaries: seq<nat>)
    ensures boundaries == Positions(p, 1, n)
  {
    boundaries := [];
    var i := 1;
    while i < n
      invariant 1 <= i && Positions(p, 1, n) == boundaries + Positions(p, i, n)
    {
      PositionsStep(p, i, n, boundaries);
      if p(i) {
        boundaries := boundaries + [i];
      }
      i := i + 1;
    }
  }

  method FindSignal(steps: seq<Step>) returns (signal: seq<nat>)
    ensures signal == Signal(steps)
  {
    signal := [];
    ghost var p := SignalTest(steps);
    for i := 0 to |steps|
      invariant Positions(p, 0, |steps|) == signal + Positions(p, i, |steps|)
    {
      PositionsStep(p, i, |steps|, signal);
      if IsSignal(steps[i]) {
        signal := signal + [i];
      }
    }
  }

  method DetectMaxLength(steps: seq<Step>, maxSteps: int) returns (boundaries: seq<nat>)
    ensures boundaries == ChunkEnds(steps, maxSteps, 0, 0)
  {
    boundaries := [];
    var count: nat := 0;
    for i := 0 to |steps|
      invariant ChunkEnds(steps, maxSteps, 0, 0) == boundaries + ChunkEnds(steps, maxSteps, count, i)
    {
      if IsSignal(steps[i]) {
        count := count + 1;
        if count >= maxSteps {
          boundaries := boundaries + [i + 1];
          count := 0;
        }
      }
    }
  }

  method Thin(raw: seq<nat>, minSteps: int) returns (filtered: seq<nat>)
    ensures filtered == Spaced(raw, 0, minSteps)
  {
    filtered := [];
    var prev := 0;
    for k := 0 to |raw|
      invariant Spaced(raw, 0, minSteps) == filtered + Spaced(raw[k..], prev, minSteps)
    {
      assert raw[k..][1..] == raw[k + 1..];
      if raw[k] - prev >= minSteps {
        filtered := filtered + [raw[k]];
        prev := raw[k];
      }
    }
  }

  lemma SpacedStep(ds: seq<Domain>, signal: seq<nat>, minLength: int, pos: nat, last: int, before: seq<nat>)
    requires |ds| == |signal| && pos < |ds|
    ensures before + Spaced(Shifts(ds, signal, minLength, pos), last, minLength)
            == if ShiftAt(ds, minLength, pos) && signal[pos] - last >= minLength
               then (before + [signal[pos]]) + Spaced(Shifts(ds, signal, minLength, pos + 1), signal[pos], minLength)
               else before + Spaced(Shifts(ds, signal, minLength, pos + 1), last, minLength)
  {
    var rest := Shifts(ds, signal, minLength, pos + 1);
    if ShiftAt(ds, minLength, pos) {
      assert ([signal[pos]] + rest)[1..] == rest;
    } else {
      assert Shifts(ds, signal, minLength, pos) == rest;
    }
  }

  /** Counts how long the domain has lasted and reports each significant shift that keeps the distance. */
  method FindShifts(ds: seq<Domain>, signal: seq<nat>, minLength: int) returns (boundaries: seq<nat>)
    requires |ds| == |signal| > 0
    ensures boundaries == Spaced(Shifts(ds, signal, minLength, 1), signal[0], minLength)
  {
    boundaries := [];
    var prevDomain := ds[0];
    var consecutive := 1;
    var lastBoundary := signal[0];
    for pos := 1 to |signal|
      invariant prevDomain == Before(ds, pos) && consecutive == RunLength(ds, pos)
      invariant Spaced(Shifts(ds, signal, minLength, 1), signal[0], minLength)
                == boundaries + Spaced(Shifts(ds, signal, minLength, pos), lastBoundary, minLength)
    {
      var idx: nat, currDomain := signal[pos], ds[pos];
      RunStep(ds, pos);
      SpacedStep(ds, signal, minLength, pos, lastBoundary, boundaries);
      if currDomain == prevDomain || currDomain == Navigation {
        consecutive := consecutive + 1;
        continue;
      }
      if Significant(prevDomain, currDomain, consecutive, minLength) {
        if idx - lastBoundary >= minLength {
          boundaries := boundaries + [idx];
          lastBoundary := idx;
        }
      }
      prevDomain := currDomain;
      consecutive := 1;
    }
  }

  method DetectSemantic(steps: seq<Step>, minLength: int) returns (boundaries: seq<nat>)
    requires Signal(steps) != [] || minLength > 0
    ensures boundaries == SemanticBoundaries(steps, minLength)
  {
    var signal := FindSignal(steps);
    SignalInBounds(steps);
    if |signal| < minLength * 2 {
      return [];
    }
    boundaries := FindShifts(Domains(steps, signal), signal, minLength);
  }

  method Detect(d: Detector, steps: seq<Step>) returns (boundaries: seq<nat>)
    requires Runs(d, steps)
    ensures boundaries == Detected(d, steps)
  {
    match d {
      case TimeGap(threshold) => boundaries := DetectAt(LongGapTest(steps, threshold), |steps|);
      case AppSwitches(minGap) => boundaries := DetectAt(SwitchTest(steps, minGap), |steps|);
      case Semantic(minLength) => boundaries := DetectSemantic(steps, minLength);
      case MaxLength(maxSteps) => boundaries := DetectMaxLength(steps, maxSteps);
      case AdaptiveMaxLength(base, threshold) =>
        if IsShortSession(steps, threshold) {
          return [];
        }
        boundaries := DetectMaxLength(steps, base);
      case MinLengthFilter(inner, minSteps) =>
        var raw := Detect(inner, steps);
        boundaries := Thin(raw, minSteps);
    }
  }

  lemma {:induction false} ShiftsAscend(ds: seq<Domain>, signal: seq<nat>, minLength: int, pos: nat, low: int)
    requires |ds| == |signal| && pos <= |signal| && Ascending(low, signal[pos..])
    ensures Ascending(low, Shifts(ds, signal, minLength, pos))
    ensures forall b :: b in Shifts(ds, signal, minLength, pos) ==> b in signal[pos..]
    decreases |ds| - pos
  {
    if pos < |ds| {
      var rest := Shifts(ds, signal, minLength, pos + 1);
      assert signal[pos..][1..] == signal[pos + 1..];
      ShiftsAscend(ds, signal, minLength, pos + 1, signal[pos]);
      if ShiftAt(ds, minLength, pos) {
        assert ([signal[pos]] + rest)[1..] == rest;
      } else {
        assert Shifts(ds, signal, minLength, pos) == rest;
        AscendingFromLower(signal[pos], low, rest);
      }
    }
  }

  lemma SemanticInBounds(steps: seq<Step>, minLength: int)
    requires Signal(steps) != [] || minLength > 0
    ensures Ascending(0, SemanticBoundaries(steps, minLength))
    ensures forall b :: b in SemanticBoundaries(steps, minLength) ==> b < |steps|
  {
    var signal := Signal(steps);
    SignalInBounds(steps);
    if |signal| >= minLength * 2 {
      var ds := Domains(steps, signal);
      assert signal[1..] == signal[0..][1..] && Ascending(signal[0], signal[1..]);
      ShiftsAscend(ds, signal, minLength, 1, signal[0]);
      SpacedSelects(Shifts(ds, signal, minLength, 1), signal[0], minLength, signal[0]);
      AscendingFromLower(signal[0], 0, SemanticBoundaries(steps, minLength));
    }
  }

  /** Every detector reports increasing positions, each with a step before it. */
  lemma {:induction false} DetectedInBounds(d: Detector, steps: seq<Step>)
    requires Runs(d, steps)
    ensures Ascending(0, Detected(d, steps)) && forall b :: b in Detected(d, steps) ==> 0 < b <= |steps|
  {
    match d {
      case TimeGap(threshold) => PositionsInBounds(LongGapTest(steps, threshold), |steps|);
      case AppSwitches(minGap) => PositionsInBounds(SwitchTest(steps, minGap), |steps|);
      case Semantic(minLength) => SemanticInBounds(steps, minLength);
      case MaxLength(maxSteps) =>
        ChunksAreFull(steps, maxSteps, 0, 0);
        FullChunksAscend(steps, AtLeastOne(maxSteps), 0, ChunkEnds(steps, maxSteps, 0, 0));
      case AdaptiveMaxLength(base, threshold) =>
        ChunksAreFull(steps, base, 0, 0);
        FullChunksAscend(steps, AtLeastOne(base), 0, ChunkEnds(steps, base, 0, 0));
      case MinLengthFilter(inner, minSteps) =>
        DetectedInBounds(inner, steps);
        SpacedSelects(Detected(inner, steps), 0, minSteps, 0);
    }
    forall b | b in Detected(d, steps) ensures 0 < b {
      AscendingAbove(0, Detected(d, steps), b);
    }
  }

  /** The time-gap detector reports exactly the steps that come so much later than the one before. */
  lemma TimeGapReports(steps: seq<Step>, threshold: real, b: nat)
    ensures b in Detected(TimeGap(threshold), steps)
            <==> 0 < b < |steps| && steps[b].time - steps[b - 1].time >= threshold
  {
    PositionsMember(LongGapTest(steps, threshold), 1, |steps|, b);
  }

  /** The app-switch detector reports exactly the switches, after a pause, to another app than was in front. */
  lemma AppSwitchesReports(steps: seq<Step>, minGap: real, b: nat)
    ensures b in Detected(AppSwitches(minGap), steps)
            <==> && 0 < b < |steps| && steps[b].kind == AppSwitch && steps[b].time - steps[b - 1].time >= minGap
                 && (if steps[b - 1].focused == 0 then steps[b].app != steps[b - 1].app else steps[b].app != steps[b - 1].focused)
  {
    PositionsMember(SwitchTest(steps, minGap), 1, |steps|, b);
  }

  /** A session shorter than the threshold is not cut by the adaptive detector; others are cut like by the plain one. */
  lemma AdaptiveReports(steps: seq<Step>, base: int, threshold: real)
    requires steps != []
    ensures Detected(AdaptiveMaxLength(base, threshold), steps)
            == if steps[|steps| - 1].time - steps[0].time < threshold then [] else Detected(MaxLength(base), steps)
  {
  }

  lemma PositionsInBounds(p: nat -> bool, n: nat)
    ensures Ascending(0, Positions(p, 1, n)) && forall b :: b in Positions(p, 1, n) ==> b < n
  {
    PositionsAscend(p, 1, n);
    forall b | b in Positions(p, 1, n) ensures b < n { PositionsMember(p, 1, n, b); }
  }

  /** Semantic boundaries keep their distance from each other and from the first signal step. */
  lemma SemanticBoundariesAreSpaced(steps: seq<Step>, minLength: int)
    requires Signal(steps) != [] || minLength > 0
    ensures SemanticBoundaries(steps, minLength) == []
         || SpacedFrom(Signal(steps)[0], minLength, SemanticBoundaries(steps, minLength))
  {
    var signal := Signal(steps);
    SignalInBounds(steps);
    if |signal| >= minLength * 2 {
      SpacedIsSpaced(Shifts(Domains(steps, signal), signal, minLength, 1), signal[0], minLength);
    }
  }

  /** No episode start the filter leaves is closer than the minimum to the one before, and it leaves as many as it can. */
  lemma MinLengthFilterIsBest(inner: Detector, minSteps: int, steps: seq<Step>, other: seq<nat>)
    requires Runs(inner, steps)
    ensures var kept := Detected(MinLengthFilter(inner, minSteps), steps);
            SpacedFrom(0, minSteps, kept)
            && (Ascending(0, other) && SpacedFrom(0, minSteps, other) && (forall b :: b in other ==> b in Detected(inner, steps))
                ==> |other| <= |kept|)
  {
    var raw := Detected(inner, steps);
    DetectedInBounds(inner, steps);
    SpacedIsSpaced(raw, 0, minSteps);
    if Ascending(0, other) && SpacedFrom(0, minSteps, other) && forall b :: b in other ==> b in raw {
      ThinningKeepsTheMost(raw, 0, minSteps, 0, other, 0, 0);
    }
  }

  // ---------- Episodes ----------

  datatype Episode = Episode(start: nat, end: nat, apps: seq<int>)

  /** The boundaries of all detectors. */
  function AllBoundaries(detectors: seq<Detector>, steps: seq<Step>): set<nat>
    requires forall d :: d in detectors ==> Runs(d, steps)
  {
    if detectors == [] then {}
    else (set b | b in Detected(detectors[0], steps)) + AllBoundaries(detectors[1..], steps)
  }

  lemma {:induction false} BoundaryFrom(detectors: seq<Detector>, steps: seq<Step>, b: nat)
    requires forall d :: d in detectors ==> Runs(d, steps)
    ensures b in AllBoundaries(detectors, steps) <==> exists d :: d in detectors && b in Detected(d, steps)
  {
    if detectors != [] {
      BoundaryFrom(detectors[1..], steps, b);
      if d :| d in detectors && b in Detected(d, steps) {
        assert d == detectors[0] || d in detectors[1..];
      }
    }
  }

  lemma BoundariesInBounds(detectors: seq<Detector>, steps: seq<Step>)
    requires forall d :: d in detectors ==> Runs(d, steps)
    ensures forall b :: b in AllBoundaries(detectors, steps) ==> 0 < b <= |steps|
  {
    forall b | b in AllBoundaries(detectors, steps) ensures 0 < b <= |steps| {
      BoundaryFrom(detectors, steps, b);
      var d :| d in detectors && b in Detected(d, steps);
      DetectedInBounds(d, steps);
    }
  }

  /** No boundary lies strictly between `a` and `b`. */
  ghost predicate Uncut(boundaries: set<nat>, a: nat, b: nat) {
    forall c :: c in boundaries ==> !(a < c < b)
  }

  /** From `from` on, the episodes end exactly at the boundaries and at the end of the steps. */
  ghost predicate CutAt(boundaries: set<nat>, n: nat, from: nat, episodes: seq<Episode>)
    decreases |episodes|
  {
    if episodes == [] then from == n
    else
      var e := episodes[0];
      && e.start == from < e.end <= n
      && (e.end == n || e.end in boundaries) && Uncut(boundaries, from, e.end)
      && CutAt(boundaries, n, e.end, episodes[1..])
  }

  /** The application ids of the steps in order of first appearance. */
  function Apps(steps: seq<Step>): (apps: seq<int>) {
    if steps == [] then []
    else
      var apps, app := Apps(steps[..|steps| - 1]), steps[|steps| - 1].app;
      if app == 0 || app in apps then apps else apps + [app]
  }

  method AppSequence(steps: seq<Step>) returns (apps: seq<int>)
    ensures apps == Apps(steps)
  {
    var seen: set<int> := {};
    apps := [];
    for k := 0 to |steps|
      invariant apps == Apps(steps[..k]) && forall a :: a in seen <==> a in apps
    {
      assert steps[..k + 1][..k] == steps[..k];
      var app := steps[k].app;
      if app != 0 && app !in seen {
        seen := seen + {app};
        apps := apps + [app];
      }
    }
    assert steps[..|steps|] == steps;
  }

  lemma {:induction false} AppsSpec(steps: seq<Step>)
    ensures forall i, j :: 0 <= i < j < |Apps(steps)| ==> Apps(steps)[i] != Apps(steps)[j]
    ensures forall a :: a in Apps(steps) <==> a != 0 && exists k :: 0 <= k < |steps| && steps[k].app == a
  {
    if steps != [] {
      var n, shorter := |steps| - 1, steps[..|steps| - 1];
      AppsSpec(shorter);
      forall a | a != 0 ensures a in Apps(steps) <==> exists k :: 0 <= k < |steps| && steps[k].app == a {
        if k :| 0 <= k < |steps| && steps[k].app == a {
          if k < n { assert shorter[k].app == a; }
        }
        if a in Apps(shorter) {
          var k :| 0 <= k < |shorter| && shorter[k].app == a;
          assert steps[k].app == a;
        }
      }
    }
  }

  /** Nothing between equal edges, else one episode. */
  function EpisodeBetween(steps: seq<Step>, start: nat, end: nat): seq<Episode>
    requires end <= |steps|
  {
    if start >= end then [] else [Episode(start, end, Apps(steps[start..end]))]
  }

  /** More steps only add ids at the end, so the order is that of first appearance. */
  lemma {:induction false} AppsGrow(steps: seq<Step>, k: nat)
    requires k <= |steps|
    ensures Apps(steps[..k]) <= Apps(steps)
  {
    if k == |steps| {
      assert steps[..k] == steps;
    } else {
      AppsGrow(steps[..|steps| - 1], k);
      assert steps[..|steps| - 1][..k] == steps[..k];
    }
  }

  function Built(steps: seq<Step>, edges: seq<nat>): seq<Episode>
    requires Within(edges, |steps|)
  {
    if |edges| < 2 then []
    else
      assert edges[1] in edges;
      WithinTail(edges, 1);
      EpisodeBetween(steps, edges[0], edges[1]) + Built(steps, edges[1..])
  }

  function BuiltAt(steps: seq<Step>, edges: seq<nat>, i: nat): seq<Episode>
    requires Within(edges, |steps|)
    decreases |edges| - i
  {
    if i + 1 >= |edges| then []
    else
      assert edges[i + 1] in edges;
      EpisodeBetween(steps, edges[i], edges[i + 1]) + BuiltAt(steps, edges, i + 1)
  }

  lemma {:induction false} BuiltAtIsBuilt(steps: seq<Step>, edges: seq<nat>, i: nat)
    requires i <= |edges| && Within(edges, |steps|)
    ensures Within(edges[i..], |steps|) && BuiltAt(steps, edges, i) == Built(steps, edges[i..])
    decreases |edges| - i
  {
    WithinTail(edges, i);
    if i + 1 < |edges| {
      BuiltAtIsBuilt(steps, edges, i + 1);
      assert edges[i..][1..] == edges[i + 1..];
    }
  }

  lemma BuiltStep(steps: seq<Step>, edges: seq<nat>, i: nat, before: seq<Episode>)
    requires Within(edges, |steps|) && i + 1 < |edges|
    ensures edges[i + 1] <= |steps|
    ensures before + BuiltAt(steps, edges, i)
            == (before + EpisodeBetween(steps, edges[i], edges[i + 1])) + BuiltAt(steps, edges, i + 1)
  {
    assert edges[i + 1] in edges;
  }

  method BuildOne(steps: seq<Step>, start: nat, end: nat) returns (episodes: seq<Episode>)
    requires end <= |steps|
    ensures episodes == EpisodeBetween(steps, start, end)
  {
    if start >= end {
      return [];
    }
    var apps := AppSequence(steps[start..end]);
    return [Episode(start, end, apps)];
  }

  method BuildBetween(steps: seq<Step>, edges: seq<nat>) returns (episodes: seq<Episode>)
    requires edges != [] && Within(edges, |steps|)
    ensures episodes == BuiltAt(steps, edges, 0)
  {
    episodes := [];
    for i := 0 to |edges| - 1
      invariant BuiltAt(steps, edges, 0) == episodes + BuiltAt(steps, edges, i)
    {
      BuiltStep(steps, edges, i, episodes);
      var episode := BuildOne(steps, edges[i], edges[i + 1]);
      episodes := episodes + episode;
    }
  }

  method BuildEpisodes(steps: seq<Step>, boundaries: seq<nat>) returns (episodes: seq<Episode>)
    requires Within(boundaries, |steps|)
    ensures episodes == Built(steps, [0] + boundaries + [|steps|])
  {
    var edges: seq<nat> := [0] + boundaries + [|steps|];
    episodes := BuildBetween(steps, edges);
    BuiltAtIsBuilt(steps, edges, 0);
    assert edges[0..] == edges;
  }

  lemma {:induction false} BuiltIsCut(steps: seq<Step>, all: set<nat>, from: nat, bs: seq<nat>)
    requires from <= |steps| && Ascending(from, bs) && Within(bs, |steps|)
    requires forall b :: b in bs <==> b in all && b > from
    ensures CutAt(all, |steps|, from, Built(steps, [from] + bs + [|steps|]))
    decreases |bs|
  {
    var n, edges := |steps|, [from] + bs + [|steps|];
    if bs == [] {
      assert edges[1..] == [n];
      assert Built(steps, [n]) == [];
      if from < n { assert Built(steps, edges)[1..] == []; }
    } else {
      var b, rest := bs[0], bs[1..];
      WithinTail(bs, 1);
      assert b in bs && edges[1..] == [b] + rest + [n];
      forall c | c in rest ensures c > b { AscendingAbove(b, rest, c); }
      forall c | c in all && c > b ensures c in rest { assert c in bs; }
      forall c | c in all ensures !(from < c < b) {
        if c in rest { AscendingAbove(b, rest, c); }
      }
      BuiltIsCut(steps, all, b, rest);
      assert Built(steps, edges)[1..] == Built(steps, edges[1..]);
    }
  }

  lemma {:induction false} LargestOf(s: set<nat>) returns (m: nat)
    requires s != {}
    ensures m in s && forall k :: k in s ==> k <= m
  {
    var x :| x in s;
    if s == {x} {
      m := x;
    } else {
      var m' := LargestOf(s - {x});
      m := if m' < x then x else m';
      forall k | k in s ensures k <= m {
        if k != x { assert k in s - {x}; }
      }
    }
  }

  method SortSet(s: set<nat>) returns (r: seq<nat>)
    ensures Ascending(-1, r) && forall k :: k in r <==> k in s
  {
    var rest := s;
    r := [];
    while rest != {}
      invariant Ascending(-1, r) && forall k :: k in s <==> k in rest || k in r
      invariant r == [] || forall k :: k in rest ==> k < r[0]
      decreases rest
    {
      ghost var largest := LargestOf(rest);
      var m :| m in rest && forall k :: k in rest ==> k <= m;
      assert ([m] + r)[1..] == r;
      rest := rest - {m};
      r := [m] + r;
    }
  }

  method MergeBoundaries(detectors: seq<Detector>, steps: seq<Step>) returns (r: seq<nat>)
    requires forall d :: d in detectors ==> Runs(d, steps)
    ensures Ascending(-1, r) && forall b :: b in r <==> b in AllBoundaries(detectors, steps)
  {
    var indices: set<nat> := {};
    for k := 0 to |detectors|
      invariant AllBoundaries(detectors, steps) == indices + AllBoundaries(detectors[k..], steps)
    {
      assert detectors[k..][1..] == detectors[k + 1..];
      var found := Detect(detectors[k], steps);
      indices := indices + (set b | b in found);
    }
    r := SortSet(indices);
  }

  const DEFAULT_DETECTORS := [TimeGap(300.0), AppSwitches(60.0), Semantic(3), AdaptiveMaxLength(30, 180.0)]

  /** The detectors in use: an empty list means the default ones. */
  function InUse(detectors: seq<Detector>): seq<Detector> {
    if detectors == [] then DEFAULT_DETECTORS else detectors
  }

  ghost predicate AllRun(detectors: seq<Detector>, steps: seq<Step>) {
    forall d :: d in InUse(detectors) ==> Runs(d, steps)
  }

  /** The episodes partition the steps, cut exactly where some detector in use reports a boundary. */
  ghost predicate Segmentation(detectors: seq<Detector>, steps: seq<Step>, episodes: seq<Episode>) {
    AllRun(detectors, steps) && CutAt(AllBoundaries(InUse(detectors), steps), |steps|, 0, episodes)
  }

  method Segment(detectors: seq<Detector>, steps: seq<Step>) returns (episodes: seq<Episode>)
    requires steps == [] || AllRun(detectors, steps)
    ensures if steps == [] then episodes == [] else Segmentation(detectors, steps, episodes)
    ensures forall e :: e in episodes ==> e.start <= e.end <= |steps| && e.apps == Apps(steps[e.start..e.end])
  {
    if steps == [] {
      return [];
    }
    var boundaries := MergeBoundaries(InUse(detectors), steps);
    var all := AllBoundaries(InUse(detectors), steps);
    BoundariesInBounds(InUse(detectors), steps);
    episodes := BuildEpisodes(steps, boundaries);
    if boundaries != [] { assert boundaries[0] in boundaries; }
    assert Ascending(0, boundaries);
    BuiltIsCut(steps, all, 0, boundaries);
    BuiltApps(steps, [0] + boundaries + [|steps|]);
  }

  lemma {:induction false} BuiltApps(steps: seq<Step>, edges: seq<nat>)
    requires Within(edges, |steps|)
    ensures forall e :: e in Built(steps, edges) ==> e.start <= e.end <= |steps| && e.apps == Apps(steps[e.start..e.end])
  {
    if |edges| >= 2 {
      assert edges[0] in edges && edges[1] in edges;
      WithinTail(edges, 1);
      BuiltApps(steps, edges[1..]);
    }
  }

  // ---------- What segmentation guarantees ----------

  /** The step at `i` lies in exactly one episode. */
  lemma {:induction false} EveryStepInOneEpisode(boundaries: set<nat>, n: nat, from: nat, episodes: seq<Episode>, i: nat)
    requires CutAt(boundaries, n, from, episodes) && from <= i < n
    ensures exists k :: 0 <= k < |episodes| && episodes[k].start <= i < episodes[k].end
    ensures forall j, k :: 0 <= j < k < |episodes| ==> episodes[j].end <= episodes[k].start
    decreases |episodes|
  {
    var e, rest := episodes[0], episodes[1..];
    EpisodesInOrder(boundaries, n, from, episodes);
    if i < e.end {
      assert episodes[0].start <= i < episodes[0].end;
    } else {
      EveryStepInOneEpisode(boundaries, n, e.end, rest, i);
      var k :| 0 <= k < |rest| && rest[k].start <= i < rest[k].end;
      assert episodes[k + 1] == rest[k];
    }
  }

  lemma {:induction false} EpisodesInOrder(boundaries: set<nat>, n: nat, from: nat, episodes: seq<Episode>)
    requires CutAt(boundaries, n, from, episodes)
    ensures forall k :: 0 <= k < |episodes| ==> from <= episodes[k].start < episodes[k].end <= n
    ensures forall j, k :: 0 <= j < k < |episodes| ==> episodes[j].end <= episodes[k].start
    decreases |episodes|
  {
    if episodes != [] {
      var rest := episodes[1..];
      EpisodesInOrder(boundaries, n, episodes[0].end, rest);
      forall k | 0 < k < |episodes| ensures episodes[k] == rest[k - 1] {}
    }
  }

  /** An episode has no boundary strictly inside. */
  lemma {:induction false} EpisodeIsUncut(boundaries: set<nat>, n: nat, from: nat, episodes: seq<Episode>, e: Episode)
    requires CutAt(boundaries, n, from, episodes) && e in episodes
    ensures from <= e.start < e.end <= n && (e.end == n || e.end in boundaries)
    ensures Uncut(boundaries, e.start, e.end)
    decreases |episodes|
  {
    if e != episodes[0] { EpisodeIsUncut(boundaries, n, episodes[0].end, episodes[1..], e); }
  }

  // ---------- Adding detectors ----------

  /** Every finer episode lies inside a coarser one. */
  ghost predicate Refines(coarse: seq<Episode>, fine: seq<Episode>) {
    forall e :: e in fine ==> LiesIn(coarse, e)
  }

  ghost predicate LiesIn(coarse: seq<Episode>, e: Episode) {
    exists c :: c in coarse && c.start <= e.start && e.end <= c.end
  }

  /** An episode that has none of the coarse boundaries strictly inside lies in a coarse episode. */
  lemma UncutLiesIn(few: set<nat>, n: nat, coarse: seq<Episode>, e: Episode)
    requires CutAt(few, n, 0, coarse) && e.start < e.end <= n && Uncut(few, e.start, e.end)
    ensures LiesIn(coarse, e)
  {
    EveryStepInOneEpisode(few, n, 0, coarse, e.start);
    var k :| 0 <= k < |coarse| && coarse[k].start <= e.start < coarse[k].end;
    EpisodeIsUncut(few, n, 0, coarse, coarse[k]);
    assert coarse[k] in coarse;
  }

  /** A boundary the finer segmentation lacks lies strictly inside one of its episodes. */
  lemma MissedBoundaryInside(few: set<nat>, many: set<nat>, n: nat, coarse: seq<Episode>, fine: seq<Episode>, b: nat)
    requires CutAt(few, n, 0, coarse) && CutAt(many, n, 0, fine) && b in few && b !in many && 0 < b < n
    ensures !Refines(coarse, fine)
  {
    EveryStepInOneEpisode(many, n, 0, fine, b - 1);
    var k :| 0 <= k < |fine| && fine[k].start <= b - 1 < fine[k].end;
    var e := fine[k];
    EpisodeIsUncut(many, n, 0, fine, e);
    forall c | c in coarse ensures !(c.start <= e.start && e.end <= c.end) { EpisodeIsUncut(few, n, 0, coarse, c); }
    assert e in fine && !LiesIn(coarse, e);
  }

  /** One segmentation refines another exactly if it has all its inner boundaries. */
  lemma RefinesIff(few: set<nat>, many: set<nat>, n: nat, coarse: seq<Episode>, fine: seq<Episode>)
    requires CutAt(few, n, 0, coarse) && CutAt(many, n, 0, fine)
    ensures Refines(coarse, fine) <==> forall b :: b in few && 0 < b < n ==> b in many
  {
    if b :| b in few && 0 < b < n && b !in many {
      MissedBoundaryInside(few, many, n, coarse, fine, b);
    } else {
      forall e | e in fine ensures LiesIn(coarse, e) {
        EpisodeIsUncut(many, n, 0, fine, e);
        UncutLiesIn(few, n, coarse, e);
      }
    }
  }

  lemma AddedDetectorsAddBoundaries(detectors: seq<Detector>, more: seq<Detector>, steps: seq<Step>)
    requires forall d :: d in more ==> Runs(d, steps)
    requires forall d :: d in detectors ==> d in more
    ensures AllBoundaries(detectors, steps) <= AllBoundaries(more, steps)
  {
    forall b | b in AllBoundaries(detectors, steps) ensures b in AllBoundaries(more, steps) {
      BoundaryFrom(detectors, steps, b);
      BoundaryFrom(more, steps, b);
    }
  }

  /**
    Adding detectors only refines, with one exception: the first detectors given replace the default
    ones, and then refine exactly if they report every inner boundary of those.
   */
  lemma AddingDetectorsRefinesIff(detectors: seq<Detector>, more: seq<Detector>, steps: seq<Step>,
      coarse: seq<Episode>, fine: seq<Episode>)
    requires forall d :: d in detectors ==> d in more
    requires Segmentation(detectors, steps, coarse) && Segmentation(more, steps, fine)
    ensures Refines(coarse, fine)
            <==> detectors != [] || more == []
                 || forall b :: b in AllBoundaries(InUse([]), steps) && b < |steps| ==> b in AllBoundaries(more, steps)
  {
    var few, many := AllBoundaries(InUse(detectors), steps), AllBoundaries(InUse(more), steps);
    RefinesIff(few, many, |steps|, coarse, fine);
    BoundariesInBounds(InUse(detectors), steps);
    if detectors != [] {
      assert detectors[0] in more;
      AddedDetectorsAddBoundaries(detectors, more, steps);
      assert few <= many;
    } else if more != [] {
      assert few == AllBoundaries(InUse([]), steps) && many == AllBoundaries(more, steps);
      assert forall b :: b in few ==> 0 < b;
    } else {
      assert few == many;
    }
  }

  /** The exception occurs: a maximum length alone gives up the cut at a five-minute gap. */
  lemma FirstDetectorCanCoarsen(steps: seq<Step>, coarse: seq<Episode>, fine: seq<Episode>)
    requires |steps| == 2 && Gap(steps, 1) >= 300.0
    requires Segmentation([], steps, coarse) && Segmentation([MaxLength(30)], steps, fine)
    ensures !Refines(coarse, fine)
  {
    var alone := [MaxLength(30)];
    AddingDetectorsRefinesIff([], alone, steps, coarse, fine);
    LongGapsAreBoundaries(InUse([]), steps, 300.0, 1);
    ShortHasNoChunk(steps);
    assert alone[1..] == [] && AllBoundaries(alone, steps) == {};
  }

  lemma ShortHasNoChunk(steps: seq<Step>)
    requires |steps| == 2
    ensures ChunkEnds(steps, 30, 0, 0) == []
  {
    assert forall c: nat :: c < 2 ==> ChunkEnds(steps, 30, c, 2) == [];
    assert forall c: nat :: c < 2 ==> ChunkEnds(steps, 30, c, 1) == [];
  }

  // ---------- What single detectors guarantee ----------

  /** With a maximum length in use, no episode has more signal steps than that. */
  lemma EpisodesAreShort(detectors: seq<Detector>, steps: seq<Step>, maxSteps: int, episodes: seq<Episode>, e: Episode)
    requires Segmentation(detectors, steps, episodes) && e in episodes
    requires MaxLength(maxSteps) in InUse(detectors)
          || exists t :: AdaptiveMaxLength(maxSteps, t) in InUse(detectors) && !IsShortSession(steps, t)
    ensures e.start <= e.end <= |steps| && Signals(steps, e.start, e.end) <= AtLeastOne(maxSteps)
  {
    var inUse := InUse(detectors);
    EpisodeIsUncut(AllBoundaries(inUse, steps), |steps|, 0, episodes, e);
    var ends := ChunkEnds(steps, maxSteps, 0, 0);
    forall b | b in ends ensures !(e.start < b < e.end) {
      BoundaryFrom(inUse, steps, b);
      if MaxLength(maxSteps) in inUse {
        assert b in Detected(MaxLength(maxSteps), steps);
      } else {
        var t :| AdaptiveMaxLength(maxSteps, t) in inUse && !IsShortSession(steps, t);
        assert b in Detected(AdaptiveMaxLength(maxSteps, t), steps);
      }
    }
    ChunksAreFull(steps, maxSteps, 0, 0);
    UncutIsShort(steps, AtLeastOne(maxSteps), 0, ends, e.start, e.end);
  }

  lemma LongGapsAreBoundaries(detectors: seq<Detector>, steps: seq<Step>, threshold: real, i: nat)
    requires forall d :: d in detectors ==> Runs(d, steps)
    requires TimeGap(threshold) in detectors && LongGapAt(steps, threshold, i)
    ensures i in AllBoundaries(detectors, steps)
  {
    PositionsMember(LongGapTest(steps, threshold), 1, |steps|, i);
    assert i in Detected(TimeGap(threshold), steps);
    BoundaryFrom(detectors, steps, i);
  }

  /** With a time-gap detector in use, no two neighbours in an episode are as far apart as the threshold. */
  lemma NoLongGapInside(detectors: seq<Detector>, steps: seq<Step>, threshold: real, episodes: seq<Episode>, e: Episode, i: nat)
    requires Segmentation(detectors, steps, episodes) && TimeGap(threshold) in InUse(detectors)
    requires e in episodes && e.start < i < e.end
    ensures i < |steps| && Gap(steps, i) < threshold
  {
    EpisodeIsUncut(AllBoundaries(InUse(detectors), steps), |steps|, 0, episodes, e);
    if LongGapAt(steps, threshold, i) { LongGapsAreBoundaries(InUse(detectors), steps, threshold, i); }
  }
}
