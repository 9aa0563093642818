/**
  Selecting the tests a change can break: the worklist closure over reverse imports, the coverage
  map, and the decision between a selection and a full run.
 */
module ImpactClosure {
  import opened Subsequences

  datatype Module = Module(name: int) // names are interned
  datatype Path = Path(name: int)

  type Reverse = map<Module, set<Module>>

  /** The modules that import `m`. */
  function Importers(reverse: Reverse, m: Module): set<Module> {
    if m in reverse then reverse[m] else {}
  }

  lemma Inhabited<T>(s: set<T>)
    requires s != {}
    ensures exists x :: x in s
  {
  }

  lemma Meet<T>(a: set<T>, b: set<T>)
    ensures a * b != {} <==> exists x :: x in a && x in b
  {
    if a * b != {} {
      Inhabited(a * b);
      var x :| x in a * b;
      assert x in a && x in b;
    }
    if x :| x in a && x in b { assert x in a * b; }
  }

  // ---------- The closure ----------

  /** A chain of imports from one of the modules. */
  ghost predicate IsChain(reverse: Reverse, modules: set<Module>, chain: seq<Module>) {
    && chain != [] && chain[0] in modules
    && forall k :: 0 < k < |chain| ==> LinkAt(reverse, chain, k)
  }

  ghost predicate LinkAt(reverse: Reverse, chain: seq<Module>, k: nat)
    requires 0 < k < |chain|
  {
    chain[k] in Importers(reverse, chain[k - 1])
  }

  ghost predicate Reaches(reverse: Reverse, modules: set<Module>, m: Module) {
    exists chain :: IsChain(reverse, modules, chain) && chain[|chain| - 1] == m
  }

  ghost predicate IsClosed(reverse: Reverse, s: set<Module>) {
    forall m :: m in s ==> Importers(reverse, m) <= s
  }

  lemma ReachesStart(reverse: Reverse, modules: set<Module>, m: Module)
    requires m in modules
    ensures Reaches(reverse, modules, m)
  {
    assert IsChain(reverse, modules, [m]);
  }

  lemma ReachesImporter(reverse: Reverse, modules: set<Module>, m: Module, importer: Module)
    requires Reaches(reverse, modules, m) && importer in Importers(reverse, m)
    ensures Reaches(reverse, modules, importer)
  {
    var chain :| IsChain(reverse, modules, chain) && chain[|chain| - 1] == m;
    var longer := chain + [importer];
    forall k | 0 < k < |longer| ensures LinkAt(reverse, longer, k) {
      if k < |chain| { assert LinkAt(reverse, chain, k); }
    }
    assert IsChain(reverse, modules, longer) && longer[|longer| - 1] == importer;
  }

  lemma {:induction false} ChainStaysInside(reverse: Reverse, modules: set<Module>, s: set<Module>, chain: seq<Module>, k: nat)
    requires modules <= s && IsClosed(reverse, s) && IsChain(reverse, modules, chain) && k < |chain|
    ensures chain[k] in s
  {
    if k > 0 {
      ChainStaysInside(reverse, modules, s, chain, k - 1);
      assert LinkAt(reverse, chain, k);
    }
  }

  /** What a chain reaches lies in every closed superset. */
  lemma ReachedIsLeast(reverse: Reverse, modules: set<Module>, s: set<Module>, m: Module)
    requires modules <= s && IsClosed(reverse, s) && Reaches(reverse, modules, m)
    ensures m in s
  {
    var chain :| IsChain(reverse, modules, chain) && chain[|chain| - 1] == m;
    ChainStaysInside(reverse, modules, s, chain, |chain| - 1);
  }

  function AllImporters(reverse: Reverse): set<Module> {
    set m, i | m in reverse && i in reverse[m] :: i
  }

  lemma LastAndInit<T>(s: seq<T>)
    requires s != []
    ensures forall x :: x in s <==> x in Init(s) || x == Last(s)
  {
    assert s == Init(s) + [Last(s)];
  }

  /** The least closed superset of the modules, whatever order the work list starts in. */
  method DependentsClosure(modules: set<Module>, order: seq<Module>, reverse: Reverse) returns (seen: set<Module>)
    requires forall m :: m in order <==> m in modules
    ensures modules <= seen && IsClosed(reverse, seen)
    ensures forall m :: m in seen <==> Reaches(reverse, modules, m)
  {
    seen := modules;
    var queue := order;
    ghost var universe := modules + AllImporters(reverse);
    forall m | m in modules ensures Reaches(reverse, modules, m) { ReachesStart(reverse, modules, m); }
    while queue != []
      invariant modules <= seen <= universe
      invariant forall m :: m in queue ==> m in seen
      invariant forall m :: m in seen ==> m in queue || Importers(reverse, m) <= seen
      invariant forall m :: m in seen ==> Reaches(reverse, modules, m)
      decreases |universe - seen|, |queue|
    {
      var current, rest := Last(queue), Init(queue);
      LastAndInit(queue);
      seen, queue := Enqueue(modules, reverse, current, seen, rest, universe);
    }
    forall m | Reaches(reverse, modules, m) ensures m in seen { ReachedIsLeast(reverse, modules, seen, m); }
  }

  /** Adds the importers of the module just taken off the list. */
  method Enqueue(ghost modules: set<Module>, reverse: Reverse, current: Module, seen: set<Module>, queue: seq<Module>,
      ghost universe: set<Module>) returns (seen': set<Module>, queue': seq<Module>)
    requires current in seen && seen <= universe && AllImporters(reverse) <= universe
    requires forall m :: m in queue ==> m in seen
    requires forall m :: m in seen && m != current ==> m in queue || Importers(reverse, m) <= seen
    requires forall m :: m in seen ==> Reaches(reverse, modules, m)
    ensures seen <= seen' <= universe
    ensures forall m :: m in queue' ==> m in seen'
    ensures forall m :: m in seen' ==> m in queue' || Importers(reverse, m) <= seen'
    ensures forall m :: m in seen' ==> Reaches(reverse, modules, m)
    ensures |universe - seen'| < |universe - seen| || (seen' == seen && queue' == queue)
  {
    seen', queue' := seen, queue;
    var rest := Importers(reverse, current);
    while rest != {}
      invariant rest <= Importers(reverse, current) <= rest + seen'
      invariant seen <= seen' <= universe
      invariant forall m :: m in queue' ==> m in seen'
      invariant forall m :: m in seen' && m != current ==> m in queue' || Importers(reverse, m) <= seen'
      invariant forall m :: m in seen' ==> Reaches(reverse, modules, m)
      invariant |universe - seen'| < |universe - seen| || (seen' == seen && queue' == queue)
      decreases rest
    {
      Inhabited(rest);
      var importer :| importer in rest;
      rest := rest - {importer};
      if importer !in seen' {
        ReachesImporter(reverse, modules, current, importer);
        assert importer in AllImporters(reverse);
        FewerUnseen(universe, seen', importer);
        seen' := seen' + {importer};
        queue' := queue' + [importer];
      }
    }
  }

  lemma FewerUnseen(universe: set<Module>, seen: set<Module>, m: Module)
    requires m in universe && m !in seen
    ensures |universe - (seen + {m})| < |universe - seen|
  {
    assert universe - seen == (universe - (seen + {m})) + {m};
  }

  // ---------- Tests ----------

  /** The coverage map: which sources each test touched. */
  type Coverage = map<Path, set<Path>>

  function Covered(coverage: Coverage): set<Path> {
    set t, s | t in coverage && s in coverage[t] :: s
  }

  method TestsTouching(paths: set<Path>, coverage: Coverage) returns (selected: set<Path>, unknown: set<Path>)
    ensures selected == (set t | t in coverage && coverage[t] * paths != {})
    ensures unknown == paths - Covered(coverage)
  {
    selected := {};
    var known: set<Path> := {};
    var rest := coverage.Keys;
    while rest != {}
      invariant rest <= coverage.Keys
      invariant selected == (set t | t in coverage && t !in rest && coverage[t] * paths != {})
      invariant forall s :: s in known <==> exists t :: t in coverage && t !in rest && s in coverage[t]
      decreases rest
    {
      Inhabited(rest);
      var t :| t in rest;
      rest := rest - {t};
      known := known + coverage[t];
      if coverage[t] * paths != {} {
        selected := selected + {t};
      }
    }
    assert rest == {};
    forall s ensures s in known <==> s in Covered(coverage) {}
    unknown := paths - known;
  }

  /** The repository: what paths are, the import graph, and what each test imports. */
  datatype Repo = Repo(
    escalates: Path -> bool,
    isSource: Path -> bool,
    isTest: Path -> bool,
    moduleOf: Path -> Option<Module>, // of an existing source file
    reverse: Reverse,
    imports: map<Path, set<Module>>) // per test file; an import counts for the module and its packages

  datatype Outcome = FullRun | Selection(tests: set<Path>)

  function Sources(repo: Repo, paths: set<Path>): set<Path> {
    set p | p in paths && repo.isSource(p)
  }

  function Touched(repo: Repo, paths: set<Path>): set<Path> {
    set p | p in paths && repo.isTest(p)
  }

  function Modules(repo: Repo, paths: set<Path>): set<Module> {
    set p | p in paths && repo.moduleOf(p).Some? :: repo.moduleOf(p).value
  }

  method TestsImporting(repo: Repo, modules: set<Module>) returns (selected: set<Path>)
    ensures selected == set t | t in repo.imports && repo.imports[t] * modules != {}
  {
    selected := {};
    var rest := repo.imports.Keys;
    while rest != {}
      invariant rest <= repo.imports.Keys
      invariant selected == set t | t in repo.imports && t !in rest && repo.imports[t] * modules != {}
      decreases rest
    {
      Inhabited(rest);
      var t :| t in rest;
      rest := rest - {t};
      if repo.imports[t] * modules != {} {
        selected := selected + {t};
      }
    }
  }

  method Listing(s: set<Module>) returns (order: seq<Module>)
    ensures forall m :: m in order <==> m in s
  {
    order := [];
    var rest := s;
    while rest != {}
      invariant rest <= s && forall m :: m in order <==> m in s && m !in rest
      decreases rest
    {
      Inhabited(rest);
      var m :| m in rest;
      rest := rest - {m};
      order := order + [m];
    }
  }

  ghost predicate ImportsReached(repo: Repo, modules: set<Module>, t: Path) {
    t in repo.imports && exists m :: m in repo.imports[t] && Reaches(repo.reverse, modules, m)
  }

  /** The reference: a test is linked to the change if it is in it, covers it, or imports what depends on it. */
  ghost predicate Linked(repo: Repo, coverage: Coverage, paths: set<Path>, t: Path) {
    var sources := Sources(repo, paths);
    || t in Touched(repo, paths)
    || (t in coverage && coverage[t] * sources != {})
    || ImportsReached(repo, Modules(repo, sources - Covered(coverage)), t)
  }

  ghost predicate MustRunAll(repo: Repo, paths: set<Path>) {
    || (exists p :: p in paths && repo.escalates(p))
    || (Sources(repo, paths) == {} && Touched(repo, paths) == {})
  }

  method TestsDepending(repo: Repo, modules: set<Module>) returns (selected: set<Path>)
    ensures forall t :: t in selected <==> ImportsReached(repo, modules, t)
  {
    var order := Listing(modules);
    var impacted := DependentsClosure(modules, order, repo.reverse);
    selected := TestsImporting(repo, impacted);
    forall t | t in repo.imports
      ensures repo.imports[t] * impacted != {} <==> exists m :: m in repo.imports[t] && m in impacted
    {
      Meet(repo.imports[t], impacted);
    }
  }

  /** A selection is made exactly of the linked tests; with none of them, or an escalating path, everything runs. */
  method SelectFromPaths(repo: Repo, coverage: Coverage, paths: set<Path>) returns (outcome: Outcome)
    ensures outcome.FullRun? <==> MustRunAll(repo, paths) || forall t :: !Linked(repo, coverage, paths, t)
    ensures outcome.Selection? ==> forall t :: t in outcome.tests <==> Linked(repo, coverage, paths, t)
  {
    if exists p :: p in paths && repo.escalates(p) {
      return FullRun;
    }
    var sources, touched := Sources(repo, paths), Touched(repo, paths);
    if sources == {} && touched == {} {
      return FullRun;
    }
    var fromCoverage, unknown := TestsTouching(sources, coverage);
    var fromStatic := {};
    var modules := Modules(repo, unknown);
    if modules != {} {
      fromStatic := TestsDepending(repo, modules);
    } else {
      NothingReached(repo.reverse);
    }
    var selected := fromCoverage + fromStatic + touched;
    LinkedIffSelected(repo, coverage, paths, fromCoverage, fromStatic);
    if selected == {} {
      return FullRun;
    }
    Inhabited(selected);
    var t :| t in selected;
    assert Linked(repo, coverage, paths, t);
    return Selection(selected);
  }

  lemma LinkedIffSelected(repo: Repo, coverage: Coverage, paths: set<Path>, fromCoverage: set<Path>, fromStatic: set<Path>)
    requires fromCoverage == set t | t in coverage && coverage[t] * Sources(repo, paths) != {}
    requires forall t :: t in fromStatic <==> ImportsReached(repo, Modules(repo, Sources(repo, paths) - Covered(coverage)), t)
    ensures forall t :: t in fromCoverage + fromStatic + Touched(repo, paths) <==> Linked(repo, coverage, paths, t)
  {
  }

  lemma NothingReached(reverse: Reverse)
    ensures forall m :: !Reaches(reverse, {}, m)
  {
  }

  // ---------- Path by path ----------

  /** What one changed path links: itself, the tests that cover it, or, unknown to the map, what imports its dependents. */
  ghost predicate LinkedBy(repo: Repo, coverage: Coverage, p: Path, t: Path) {
    || (t == p && repo.isTest(p))
    || (repo.isSource(p) && t in coverage && p in coverage[t])
    || (repo.isSource(p) && p !in Covered(coverage) && repo.moduleOf(p).Some?
        && ImportsReached(repo, {repo.moduleOf(p).value}, t))
  }

  lemma ReachesFromOne(reverse: Reverse, modules: set<Module>, m: Module)
    ensures Reaches(reverse, modules, m) <==> exists start :: start in modules && Reaches(reverse, {start}, m)
  {
    if Reaches(reverse, modules, m) {
      var chain :| IsChain(reverse, modules, chain) && chain[|chain| - 1] == m;
      assert IsChain(reverse, {chain[0]}, chain);
    }
    if start :| start in modules && Reaches(reverse, {start}, m) {
      var chain :| IsChain(reverse, {start}, chain) && chain[|chain| - 1] == m;
      assert IsChain(reverse, modules, chain);
    }
  }

  lemma ImportsFromOne(repo: Repo, modules: set<Module>, t: Path)
    ensures ImportsReached(repo, modules, t) <==> exists start :: start in modules && ImportsReached(repo, {start}, t)
  {
    if ImportsReached(repo, modules, t) {
      var m :| m in repo.imports[t] && Reaches(repo.reverse, modules, m);
      ReachesFromOne(repo.reverse, modules, m);
    }
    if start :| start in modules && ImportsReached(repo, {start}, t) {
      var m :| m in repo.imports[t] && Reaches(repo.reverse, {start}, m);
      ReachesFromOne(repo.reverse, modules, m);
    }
  }

  /** A change links what its paths link. */
  lemma LinkedPathByPath(repo: Repo, coverage: Coverage, paths: set<Path>, t: Path)
    ensures Linked(repo, coverage, paths, t) <==> exists p :: p in paths && LinkedBy(repo, coverage, p, t)
  {
    var sources := Sources(repo, paths);
    var modules := Modules(repo, sources - Covered(coverage));
    ImportsFromOne(repo, modules, t);
    if t in coverage { Meet(coverage[t], sources); }
    if ImportsReached(repo, modules, t) {
      var start :| start in modules && ImportsReached(repo, {start}, t);
      var p :| p in sources - Covered(coverage) && repo.moduleOf(p) == Some(start);
      assert LinkedBy(repo, coverage, p, t);
    }
    if p :| p in paths && LinkedBy(repo, coverage, p, t) && t != p && !(t in coverage && p in coverage[t]) {
      assert p in sources - Covered(coverage) && repo.moduleOf(p).value in modules;
    }
  }

  /** Whatever else changes and whatever the tests import, the path adds no linked test. */
  ghost predicate AddsNothing(repo: Repo, coverage: Coverage, p: Path) {
    forall imports, paths, t ::
      Linked(repo.(imports := imports), coverage, paths + {p}, t) ==> Linked(repo.(imports := imports), coverage, paths, t)
  }

  lemma CoveredSourceLinks(repo: Repo, coverage: Coverage, p: Path)
    requires repo.isSource(p) && p in Covered(coverage)
    ensures !AddsNothing(repo, coverage, p)
  {
    var t :| t in coverage && p in coverage[t];
    var same := repo.(imports := repo.imports);
    LinkedPathByPath(same, coverage, {} + {p}, t);
    LinkedPathByPath(same, coverage, {}, t);
    assert LinkedBy(same, coverage, p, t);
    assert Linked(same, coverage, {} + {p}, t) && !Linked(same, coverage, {}, t);
  }

  lemma ExistingSourceLinks(repo: Repo, coverage: Coverage, p: Path)
    requires repo.isSource(p) && p !in Covered(coverage) && repo.moduleOf(p).Some?
    ensures !AddsNothing(repo, coverage, p)
  {
    var m, imports := repo.moduleOf(p).value, map[p := {repo.moduleOf(p).value}];
    var importing := repo.(imports := imports);
    ReachesStart(repo.reverse, {m}, m);
    LinkedPathByPath(importing, coverage, {} + {p}, p);
    LinkedPathByPath(importing, coverage, {}, p);
    assert ImportsReached(importing, {m}, p);
    assert Linked(repo.(imports := imports), coverage, {} + {p}, p) && !Linked(repo.(imports := imports), coverage, {}, p);
  }

  /** A changed source adds nothing, whatever the tests import, exactly if it no longer exists and the map does not know it. */
  lemma SourceAddsNothingIff(repo: Repo, coverage: Coverage, p: Path)
    requires repo.isSource(p) && !repo.isTest(p)
    ensures AddsNothing(repo, coverage, p) <==> repo.moduleOf(p).None? && p !in Covered(coverage)
  {
    if p in Covered(coverage) {
      CoveredSourceLinks(repo, coverage, p);
    } else if repo.moduleOf(p).Some? {
      ExistingSourceLinks(repo, coverage, p);
    } else {
      forall imports, paths, t | Linked(repo.(imports := imports), coverage, paths + {p}, t)
        ensures Linked(repo.(imports := imports), coverage, paths, t)
      {
        LinkedPathByPath(repo.(imports := imports), coverage, paths + {p}, t);
        LinkedPathByPath(repo.(imports := imports), coverage, paths, t);
      }
    }
  }

  /** A larger change never links fewer tests. */
  lemma MoreChangesLinkMore(repo: Repo, coverage: Coverage, paths: set<Path>, more: set<Path>, t: Path)
    requires paths <= more && Linked(repo, coverage, paths, t)
    ensures Linked(repo, coverage, more, t)
  {
    LinkedPathByPath(repo, coverage, paths, t);
    LinkedPathByPath(repo, coverage, more, t);
  }
}
