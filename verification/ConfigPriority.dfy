/**
  Layer priority: process variables are merged last and are meant to win over every YAML layer.
  Because flattening is last-write-wins, they do so exactly when the YAML tree has no clash.
 */
module ConfigPriority {
  import opened Subsequences
  import opened EnvNames
  import opened LayeredConfig
  import opened Letters

  ghost predicate Live(f: Fields, path: Path) {
    LeafAt(f, path).Some? && Render(LeafAt(f, path).value).Some?
  }

  /** Where `path` and `other` part, `other` goes through a key inserted after `path`'s own. */
  ghost predicate Before(f: Fields, path: Path, other: Path)
    decreases |path|
  {
    if path[0] != other[0] then other[0] in Keys(After(f, path[0]))
    else
      && |path| > 1 && |other| > 1
      && Find(f, path[0]).Some? && Find(f, path[0]).value.Dict?
      && Before(Find(f, path[0]).value.fields, path[1..], other[1..])
  }

  /** The path under which a variable of the same name would be inserted. */
  ghost function Canonical(path: Path): Path {
    NameIsOverride(path);
    EnvPath(Name(ROOT, path))
  }

  /**
    A clash: a leaf of the tree sits behind a key through which a variable of the same name would
    be inserted, as in `{llm: {api_key: x, api: {key: y}}}` for LEAPFLOW_LLM_API_KEY.
   */
  ghost predicate NoClash(yaml: Fields) {
    forall p: Path :: Live(yaml, p) ==> !Before(yaml, Canonical(p), p)
  }

  function Flattened(yaml: Fields, environ: seq<Var>): Vars {
    WrittenFields(DeepMerge(yaml, EnvTrie(environ)), ROOT)
  }

  /** No other variable addresses a path comparable to that of the variable at `i`. */
  ghost predicate IndependentAt(environ: seq<Var>, i: nat) {
    && i < |environ| && IsOverride(environ[i].name)
    && forall j :: 0 <= j < |environ| && j != i && IsOverride(environ[j].name) ==>
         !Comparable(EnvPath(environ[i].name), EnvPath(environ[j].name))
  }

  /** The name of the variable at `i` ends up with the variable's own value. */
  ghost predicate HasOwnValue(vars: Vars, environ: seq<Var>, i: nat)
    requires i < |environ|
  {
    Upper(environ[i].name) in vars && vars[Upper(environ[i].name)] == environ[i].value
  }

  // ---------- No clash: every variable wins ----------

  /** What is written behind the first key of a path never carries the path's name. */
  lemma NothingWrittenAfter(yaml: Fields, env: Fields, path: Path, prefix: string)
    requires WellFormed(yaml) && WellFormed(env) && LeafAt(env, path).Some?
    requires forall p: Path :: Live(env, p) && Name(prefix, p) == Name(prefix, path) ==> p == path
    requires forall p: Path :: Live(yaml, p) && Name(prefix, p) == Name(prefix, path) ==> !Before(yaml, path, p)
    ensures Name(prefix, path) !in WrittenFields(After(DeepMerge(yaml, env), path[0]), prefix)
  {
    var merged, k, name := DeepMerge(yaml, env), path[0], Name(prefix, path);
    MergeSpec(yaml, env, k, k);
    FindSpec(merged, k);
    if name in WrittenFields(After(merged, k), prefix) {
      var leaf := WrittenComesFromLeaf(After(merged, k), prefix, name);
      FindAfter(merged, k, leaf[0]);
      MergeLeaves(yaml, env, leaf);
      MergeSpec(yaml, env, k, leaf[0]);
    }
  }

  /** Inside one tree a name carried by one leaf only is written with that leaf's text. */
  lemma OnlyLeafWritten(f: Fields, path: Path, prefix: string, value: string)
    requires WellFormed(f) && LeafAt(f, path) == Some(Text(value))
    requires forall p: Path :: Live(f, p) && Name(prefix, p) == Name(prefix, path) ==> p == path
    ensures Name(prefix, path) in WrittenFields(f, prefix)
    ensures WrittenFields(f, prefix)[Name(prefix, path)] == value
  {
    LeafIsWritten(f, prefix, path);
    var leaf := WrittenComesFromLeaf(f, prefix, Name(prefix, path));
    assert Live(f, leaf);
  }

  /** The conditions on the names below `path[0]`, in terms of the subtree under it. */
  lemma LiveBelow(f: Fields, k: string, p: Path, prefix: string)
    requires Find(f, k).Some? && Find(f, k).value.Dict?
    ensures Live(f, [k] + p) <==> Live(Find(f, k).value.fields, p)
    ensures Name(prefix, [k] + p) == Name(Child(prefix, k), p)
  {
    assert ([k] + p)[1..] == p;
  }

  lemma {:induction false} VariableWins(yaml: Fields, env: Fields, path: Path, prefix: string, value: string)
    requires WellFormed(yaml) && WellFormed(env) && LeafAt(env, path) == Some(Text(value))
    requires forall p: Path :: Live(env, p) && Name(prefix, p) == Name(prefix, path) ==> p == path
    requires forall p: Path :: Live(yaml, p) && Name(prefix, p) == Name(prefix, path) ==> !Before(yaml, path, p)
    ensures Name(prefix, path) in WrittenFields(DeepMerge(yaml, env), prefix)
    ensures WrittenFields(DeepMerge(yaml, env), prefix)[Name(prefix, path)] == value
    decreases |path|
  {
    var merged, k, child := DeepMerge(yaml, env), path[0], Child(prefix, path[0]);
    NothingWrittenAfter(yaml, env, path, prefix);
    MergeSpec(yaml, env, k, k);
    FindSpec(yaml, k);
    FindSpec(env, k);
    if |path| > 1 {
      var e := Find(env, k).value.fields;
      forall p: Path | Live(e, p) && Name(child, p) == Name(child, path[1..]) ensures p == path[1..] {
        LiveBelow(env, k, p, prefix);
        assert ([k] + p)[1..] == p;
      }
      if Find(yaml, k).Some? && Find(yaml, k).value.Dict? {
        var y := Find(yaml, k).value.fields;
        forall p: Path | Live(y, p) && Name(child, p) == Name(child, path[1..]) ensures !Before(y, path[1..], p) {
          LiveBelow(yaml, k, p, prefix);
          assert ([k] + p)[1..] == p;
        }
        VariableWins(y, e, path[1..], child, value);
      } else {
        OnlyLeafWritten(e, path[1..], child, value);
      }
    }
    LastFieldWins(merged, prefix, k, Name(prefix, path));
  }

  lemma {:induction false} IndependentTrie(environ: seq<Var>, i: nat)
    requires IndependentAt(environ, i)
    ensures LeafAt(EnvTrie(environ), EnvPath(environ[i].name)) == Some(Text(environ[i].value))
    decreases |environ|
  {
    var path, x := EnvPath(environ[i].name), Last(environ);
    assert forall j :: 0 <= j < |environ| - 1 ==> Init(environ)[j] == environ[j];
    TrieLeavesAreAddressed(Init(environ), path);
    if i < |environ| - 1 { IndependentTrie(Init(environ), i); }
    if IsOverride(x.name) {
      InsertLeaves(EnvTrie(Init(environ)), EnvPath(x.name), x.value, path);
    }
  }

  lemma NoClashVariableWins(yaml: Fields, environ: seq<Var>, i: nat)
    requires WellFormed(yaml) && NoClash(yaml) && IndependentAt(environ, i)
    ensures HasOwnValue(Flattened(yaml, environ), environ, i)
  {
    var env, name := EnvTrie(environ), environ[i].name;
    var path := EnvPath(name);
    TrieLeavesAreAddressed(environ, path);
    EnvPathName(name);
    EnvPathOfUpper(name);
    IndependentTrie(environ, i);
    forall p: Path | Live(env, p) && Name(ROOT, p) == Name(ROOT, path) ensures p == path {
      TrieLeavesAreAddressed(environ, p);
      assert Addresses(environ, path);
      SameNameSameAddress(environ, p, path);
    }
    forall p: Path | Live(yaml, p) && Name(ROOT, p) == Name(ROOT, path) ensures !Before(yaml, path, p) {
      assert Canonical(p) == path;
    }
    VariableWins(yaml, env, path, ROOT, environ[i].value);
  }

  // ---------- A condition on sibling keys ----------

  /** Keys are in lower case and, in no mapping at any depth, is one key with an underscore a prefix of another. */
  ghost predicate Separated(f: Fields)
    decreases f, 1
  {
    (forall k, k' :: k in Keys(f) && k' in Keys(f) ==> !(k + "_" <= k')) && SeparatedBelow(f)
  }

  ghost predicate SeparatedBelow(f: Fields)
    decreases f, 0
  {
    f.Field? ==> Lower(f.key) == f.key && (f.node.Dict? ==> Separated(f.node.fields)) && SeparatedBelow(f.rest)
  }

  lemma {:induction false} SeparatedChild(f: Fields, key: string)
    requires SeparatedBelow(f) && key in Keys(f)
    ensures Lower(key) == key && (Find(f, key).value.Dict? ==> Separated(Find(f, key).value.fields))
  {
    if key != f.key { SeparatedChild(f.rest, key); }
  }

  lemma ShorterHead(p: Path, q: Path)
    requires Join(p) == Join(q) && |p[0]| < |q[0]|
    ensures p[0] + "_" <= q[0]
  {
    var name, n := Join(p), |p[0]|;
    assert |p| > 1 && name == p[0] + "_" + Join(p[1..]);
    assert name[..n + 1] == p[0] + "_";
    assert q[0] <= name;
    assert q[0][..n + 1] == name[..n + 1];
  }

  /** Of two different first segments of one name, one continues the other behind an underscore. */
  lemma HeadsOfOneName(p: Path, q: Path)
    requires Join(p) == Join(q) && p[0] != q[0]
    ensures p[0] + "_" <= q[0] || q[0] + "_" <= p[0]
  {
    assert p[0] == Join(p)[..|p[0]|] && q[0] == Join(q)[..|q[0]|];
    if |p[0]| < |q[0]| { ShorterHead(p, q); }
    if |q[0]| < |p[0]| { ShorterHead(q, p); }
  }

  lemma {:induction false} SeparatedNotBefore(f: Fields, q: Path, p: Path)
    requires Separated(f) && LeafAt(f, p).Some? && Join(q) == Join(p)
    ensures !Before(f, q, p)
    decreases |q|
  {
    FindSpec(f, q[0]);
    if q[0] != p[0] {
      HeadsOfOneName(p, q);
    } else if |q| > 1 && |p| > 1 && Find(f, q[0]).value.Dict? {
      SeparatedChild(f, q[0]);
      assert Join(q)[|q[0]| + 1..] == Join(q[1..]) && Join(p)[|p[0]| + 1..] == Join(p[1..]);
      SeparatedNotBefore(Find(f, q[0]).value.fields, q[1..], p[1..]);
    }
  }

  lemma {:induction false} SeparatedIsLower(f: Fields, p: Path)
    requires Separated(f) && LeafAt(f, p).Some?
    ensures Lower(Join(p)) == Join(p)
    decreases |p|
  {
    SeparatedChild(f, p[0]);
    if |p| > 1 {
      SeparatedIsLower(Find(f, p[0]).value.fields, p[1..]);
      LowerConcat(p[0] + "_", Join(p[1..]));
      LowerConcat(p[0], "_");
    }
  }

  /** The siblings of the mappings can be checked without looking at any variable. */
  lemma SeparatedHasNoClash(yaml: Fields)
    requires Separated(yaml)
    ensures NoClash(yaml)
  {
    forall p: Path | Live(yaml, p) ensures !Before(yaml, Canonical(p), p) {
      SeparatedIsLower(yaml, p);
      JoinOfCanonical(p);
      SeparatedNotBefore(yaml, Canonical(p), p);
    }
  }

  lemma JoinOfCanonical(p: Path)
    ensures Join(Canonical(p)) == Lower(Join(p))
  {
    var name := Name(ROOT, p);
    NameIsOverride(p);
    NameIsJoin(ROOT, p);
    assert name[|ROOT| + 1..] == Upper(Join(p));
    JoinSplitEnvKey(Lower(name[|ROOT| + 1..]));
    CaseIdempotent(Join(p));
  }

  /** So over such layers every independent variable wins. */
  lemma EnvironmentWinsOverSeparated(yaml: Fields, environ: seq<Var>, i: nat)
    requires WellFormed(yaml) && Separated(yaml) && IndependentAt(environ, i)
    ensures HasOwnValue(Flattened(yaml, environ), environ, i)
  {
    SeparatedHasNoClash(yaml);
    EnvironmentWinsIffNoClash(yaml);
  }

  // ---------- A clash: some variable loses ----------

  lemma {:induction false} InsertIsMerge(f: Fields, path: Path, value: string)
    ensures InsertPath(f, path, value) == DeepMerge(f, InsertPath(Nil, path, value))
    decreases |path|
  {
    if |path| > 1 {
      var next := Find(f, path[0]);
      InsertIsMerge(if next.Some? && next.value.Dict? then next.value.fields else Nil, path[1..], value);
      InsertIsMerge(Nil, path[1..], value);
    }
  }

  /** Whatever is assigned to a shadowed path, its name ends up with the same other text. */
  lemma {:induction false} ShadowedPathLoses(yaml: Fields, path: Path, other: Path, prefix: string) returns (text: string)
    requires WellFormed(yaml) && Live(yaml, other) && Before(yaml, path, other)
    ensures forall v {:trigger InsertPath(yaml, path, v)} ::
              && Name(prefix, other) in WrittenFields(InsertPath(yaml, path, v), prefix)
              && WrittenFields(InsertPath(yaml, path, v), prefix)[Name(prefix, other)] == text
    decreases |path|
  {
    var k, name := path[0], Name(prefix, other);
    FindSpec(yaml, k);
    var behind := WrittenFields(After(yaml, k), prefix);
    if path[0] != other[0] {
      FindAfter(yaml, k, other[0]);
      LeafIsWritten(After(yaml, k), prefix, other);
      text := behind[name];
    } else {
      var below := Find(yaml, k).value.fields;
      text := ShadowedPathLoses(below, path[1..], other[1..], Child(prefix, k));
      if name in behind { text := behind[name]; }
    }
    forall v ensures name in WrittenFields(InsertPath(yaml, path, v), prefix)
             ensures WrittenFields(InsertPath(yaml, path, v), prefix)[name] == text {
      var after := InsertPath(yaml, path, v);
      InsertLeaves(yaml, path, v, path);
      KeyBefore(yaml, k, path, v);
      LastFieldWins(after, prefix, k, name);
    }
  }

  lemma KeyBefore(yaml: Fields, k: string, path: Path, v: string)
    requires WellFormed(yaml) && k == path[0] && k in Keys(yaml)
    ensures After(InsertPath(yaml, path, v), k) == After(yaml, k)
    ensures k in Keys(InsertPath(yaml, path, v))
    ensures |path| > 1 && Find(yaml, k).value.Dict? ==>
              Find(InsertPath(yaml, path, v), k) == Some(Dict(InsertPath(Find(yaml, k).value.fields, path[1..], v)))
  {
    FindSpec(yaml, k);
    if |path| == 1 {
      PutSpec(yaml, k, Leaf(Text(v)), k);
    } else {
      var next := Find(yaml, k);
      var below := if next.value.Dict? then next.value.fields else Nil;
      InsertLeaves(below, path[1..], v, path[1..]);
      PutSpec(yaml, k, Dict(InsertPath(below, path[1..], v)), k);
    }
  }

  lemma ClashDefeatsSomeVariable(yaml: Fields)
    requires WellFormed(yaml) && !NoClash(yaml)
    ensures exists environ :: IndependentAt(environ, 0) && !HasOwnValue(Flattened(yaml, environ), environ, 0)
  {
    var p: Path :| Live(yaml, p) && Before(yaml, Canonical(p), p);
    var path, name := Canonical(p), Name(ROOT, p);
    NameIsOverride(p);
    var text := ShadowedPathLoses(yaml, path, p, ROOT);
    var value := text + "x";
    var environ := [Var(name, value)];
    assert Init(environ) == [] && EnvTrie(environ) == InsertPath(Nil, path, value);
    InsertIsMerge(yaml, path, value);
    assert Flattened(yaml, environ)[name] == text != value;
    assert environ[0].name == name && IndependentAt(environ, 0);
  }

  /**
    Priority of the environment: for a tree of YAML values, each variable of each environment that is
    independent of the others in it keeps its own value after merging and flattening, if and only if
    the tree has no clash.
   */
  lemma EnvironmentWinsIffNoClash(yaml: Fields)
    requires WellFormed(yaml)
    ensures NoClash(yaml)
            <==> forall environ, i :: IndependentAt(environ, i) ==> HasOwnValue(Flattened(yaml, environ), environ, i)
  {
    if NoClash(yaml) {
      forall environ, i: nat | IndependentAt(environ, i) ensures HasOwnValue(Flattened(yaml, environ), environ, i) {
        NoClashVariableWins(yaml, environ, i);
      }
    } else {
      ClashDefeatsSomeVariable(yaml);
    }
  }

  const CLASH := Field("a", Dict(Nil), Field("a_b", Leaf(Text("y")), Nil))

  /** Whatever is inserted under a and b, the field a_b is flattened last. */
  lemma ClashIsWrittenLast(value: string)
    ensures var vars := WrittenFields(InsertPath(CLASH, ["a", "b"], value), ROOT);
            "LEAPFLOW_A_B" in vars && vars["LEAPFLOW_A_B"] == "y"
  {
    var path: Path := ["a", "b"];
    ABPath();
    var child, behind := Dict(InsertPath(Nil, ["b"], value)), CLASH.rest;
    assert path[1..] == ["b"];
    assert InsertPath(CLASH, path, value) == Field("a", child, behind);
    assert WrittenFields(behind, ROOT) == map["LEAPFLOW_A_B" := "y"];
  }

  /** The smallest clash: with `{a: {}, a_b: y}` on file, LEAPFLOW_A_B does not override anything. */
  lemma UnderscoreKeyDefeatsVariable(value: string)
    requires value != "y"
    ensures var environ := [Var("LEAPFLOW_A_B", value)];
            IndependentAt(environ, 0) && !HasOwnValue(Flattened(CLASH, environ), environ, 0)
  {
    var name, path: Path := "LEAPFLOW_A_B", ["a", "b"];
    var environ := [Var(name, value)];
    ABPath();
    assert Init(environ) == [] && EnvTrie(environ) == InsertPath(Nil, path, value);
    InsertIsMerge(CLASH, path, value);
    ClashIsWrittenLast(value);
    assert Upper(name) == name;
  }

  lemma ABPath()
    ensures IsOverride("LEAPFLOW_A_B") && EnvPath("LEAPFLOW_A_B") == ["a", "b"]
    ensures Name(ROOT, ["a_b"]) == "LEAPFLOW_A_B"
  {
    assert ROOT + "_" + "a_b" == "LEAPFLOW_a_b";
    var name := "LEAPFLOW_A_B";
    assert name[..|ROOT| + 1] == ROOT + "_";
    assert name[|ROOT| + 1..] == "A_B" && Lower("A_B") == "a_b";
    SplitAB();
  }

  lemma SplitAB()
    ensures SplitEnvKey("a_b") == ["a", "b"]
  {
    var b, ub, aub := "b", "_b", "a_b";
    assert [b[0]] + "" == "b" && [aub[0]] + "" == "a" && ["", "b"][1..] == ["b"];
    assert b[1..] == "" && Split(b) == [[b[0]] + ""] == ["b"];
    assert ub[1..] == b && Split(ub) == [""] + ["b"] == ["", "b"];
    assert aub[1..] == ub && Split(aub) == [[aub[0]] + ""] + ["", "b"][1..] == ["a", "b"];
    NoShortCompoundKey();
    assert Join(["a", "b"][1..]) == "b";
    assert !IsCompoundTail(["a", "b"], 1);
  }

  lemma NoShortCompoundKey()
    ensures "b" !in COMPOUND_KEYS
  {
    assert forall c :: c in COMPOUND_KEYS ==> |c| > 1;
  }

  // ---------- Loading ----------

  /** The YAML layers folded in order, user first. */
  function MergedLayers(layers: seq<Fields>): Fields {
    if layers == [] then Nil else DeepMerge(MergedLayers(Init(layers)), Last(layers))
  }

  lemma {:induction false} MergedLayersWellFormed(layers: seq<Fields>)
    requires forall i :: 0 <= i < |layers| ==> WellFormed(layers[i])
    ensures WellFormed(MergedLayers(layers))
  {
    if layers != [] {
      MergedLayersWellFormed(Init(layers));
      MergeSpec(MergedLayers(Init(layers)), Last(layers), "", "");
    }
  }

  /** A leaf of the last layer is the merged leaf at its path, and every merged leaf is some layer's. */
  lemma {:induction false} LaterLayerWins(layers: seq<Fields>, path: Path)
    requires layers != [] && forall i :: 0 <= i < |layers| ==> WellFormed(layers[i])
    ensures LeafAt(Last(layers), path).Some? ==> LeafAt(MergedLayers(layers), path) == LeafAt(Last(layers), path)
    ensures LeafAt(MergedLayers(layers), path).Some? ==>
              exists i :: 0 <= i < |layers| && LeafAt(layers[i], path) == LeafAt(MergedLayers(layers), path)
  {
    MergedLayersWellFormed(Init(layers));
    MergeLeaves(MergedLayers(Init(layers)), Last(layers), path);
    if LeafAt(MergedLayers(layers), path).Some? {
      if LeafAt(MergedLayers(layers), path) == LeafAt(Last(layers), path) {
        assert LeafAt(layers[|layers| - 1], path) == LeafAt(MergedLayers(layers), path);
      } else {
        assert Init(layers) != [];
        LaterLayerWins(Init(layers), path);
        var i :| 0 <= i < |Init(layers)| && LeafAt(Init(layers)[i], path) == LeafAt(MergedLayers(Init(layers)), path);
        assert layers[i] == Init(layers)[i];
      }
    }
  }

  /** The layer at `i` has the leaf, and no later layer touches the path. */
  ghost predicate Provides(layers: seq<Fields>, path: Path, i: nat, value: Scalar) {
    && i < |layers| && LeafAt(layers[i], path) == Some(value)
    && forall j :: i < j < |layers| ==> LeafAt(layers[j], path).None? && !Displaces(layers[j], path)
  }

  /** What the layers have at a path is what the last layer has that says anything about it. */
  lemma {:induction false} LayersLeafLaw(layers: seq<Fields>, path: Path, value: Scalar)
    requires forall i :: 0 <= i < |layers| ==> WellFormed(layers[i])
    ensures LeafAt(MergedLayers(layers), path) == Some(value) <==> exists i :: Provides(layers, path, i, value)
  {
    if layers != [] {
      var n, before := |layers| - 1, Init(layers);
      MergedLayersWellFormed(before);
      MergeLeafLaw(MergedLayers(before), Last(layers), path);
      LayersLeafLaw(before, path, value);
      forall i: nat | i < n
        ensures Provides(layers, path, i, value)
                <==> Provides(before, path, i, value) && LeafAt(layers[n], path).None? && !Displaces(layers[n], path)
      {
        assert before[i] == layers[i];
        assert forall j :: i < j < n ==> before[j] == layers[j];
      }
      if LeafAt(layers[n], path) == Some(value) { assert Provides(layers, path, n, value); }
      if i: nat :| Provides(before, path, i, value) && LeafAt(layers[n], path).None? && !Displaces(layers[n], path) {
        assert Provides(layers, path, i, value);
      }
      if i: nat :| Provides(layers, path, i, value) && i < n { assert Provides(before, path, i, value); }
    }
  }

  /** Secret resolution rewrites values through the vault and yields a mapping again. */
  ghost predicate KeepsWellFormed(resolve: Fields -> Fields) {
    forall f :: WellFormed(f) ==> WellFormed(resolve(f))
  }

  method Load(layers: seq<Fields>, resolve: Fields -> Fields, environ: seq<Var>) returns (env: Vars)
    requires forall i :: 0 <= i < |layers| ==> WellFormed(layers[i])
    requires KeepsWellFormed(resolve)
    ensures env == Flattened(resolve(MergedLayers(layers)), environ)
    ensures NoClash(resolve(MergedLayers(layers))) ==> forall i :: IndependentAt(environ, i) ==> HasOwnValue(env, environ, i)
  {
    var values := Nil;
    for i := 0 to |layers|
      invariant values == MergedLayers(layers[..i])
    {
      assert Init(layers[..i + 1]) == layers[..i];
      if layers[i] != Nil {
        values := DeepMerge(values, layers[i]);
      }
    }
    assert layers[..|layers|] == layers;
    MergedLayersWellFormed(layers);
    EnvironmentWinsIffNoClash(resolve(values));
    var overrides := EnvOverrides(environ);
    var vars := new EnvVars();
    vars.Flatten(Dict(DeepMerge(resolve(values), overrides)), ROOT);
    env := vars.vars;
    assert env == Flattened(resolve(MergedLayers(layers)), environ);
  }
}
