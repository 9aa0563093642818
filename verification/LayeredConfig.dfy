/**
  Layered configuration: YAML mappings and environment overrides merged as insertion-ordered
  nested dictionaries, then flattened to LEAPFLOW_* variables, the last write winning.
 */
module LayeredConfig {
  import opened Subsequences
  import opened EnvNames
  import opened Letters

  // ---------- Insertion-ordered dictionaries ----------

  datatype Scalar = Null | Flag(flag: bool) | Text(text: string) | Items(items: seq<string>)

  datatype Node = Leaf(value: Scalar) | Dict(fields: Fields)

  datatype Fields = Nil | Field(key: string, node: Node, rest: Fields)

  function Keys(f: Fields): set<string> {
    match f
    case Nil => {}
    case Field(key, _, rest) => {key} + Keys(rest)
  }

  /** No mapping holds a key twice. */
  ghost predicate WellFormed(f: Fields) {
    match f
    case Nil => true
    case Field(key, node, rest) => key !in Keys(rest) && WellFormedNode(node) && WellFormed(rest)
  }

  ghost predicate WellFormedNode(n: Node) {
    n.Dict? ==> WellFormed(n.fields)
  }

  function Find(f: Fields, key: string): (found: Option<Node>)
    ensures found.Some? <==> key in Keys(f)
  {
    match f
    case Nil => None
    case Field(k, node, rest) => if k == key then Some(node) else Find(rest, key)
  }

  /** What was inserted after `key`. */
  function After(f: Fields, key: string): Fields {
    match f
    case Nil => Nil
    case Field(k, _, rest) => if k == key then rest else After(rest, key)
  }

  /** Assignment: an existing key keeps its position, a new key goes last. */
  function Put(f: Fields, key: string, node: Node): Fields {
    match f
    case Nil => Field(key, node, Nil)
    case Field(k, n, rest) => if k == key then Field(k, node, rest) else Field(k, n, Put(rest, key, node))
  }

  lemma {:induction false} PutSpec(f: Fields, key: string, node: Node, k: string)
    requires WellFormed(f) && WellFormedNode(node)
    ensures WellFormed(Put(f, key, node)) && Keys(Put(f, key, node)) == Keys(f) + {key}
    ensures Find(Put(f, key, node), k) == if k == key then Some(node) else Find(f, k)
    ensures Keys(After(Put(f, key, node), k)) <= Keys(After(f, k)) + {key}
    ensures key in Keys(f) ==> Keys(After(Put(f, key, node), k)) == Keys(After(f, k))
    ensures key in Keys(f) ==> After(Put(f, key, node), key) == After(f, key)
    ensures k !in Keys(f) ==> After(Put(f, key, node), k) == Nil
  {
    if f.Field? {
      PutSpec(f.rest, key, node, k);
      FindSpec(f.rest, k);
    }
  }

  lemma {:induction false} FindSpec(f: Fields, key: string)
    ensures Keys(After(f, key)) <= Keys(f)
    ensures WellFormed(f) ==> WellFormed(After(f, key)) && key !in Keys(After(f, key))
    ensures WellFormed(f) && key in Keys(f) ==> WellFormedNode(Find(f, key).value)
    ensures key !in Keys(f) ==> After(f, key) == Nil
  {
    if f.Field? { FindSpec(f.rest, key); }
  }

  /** A key behind `key` is looked up behind it. */
  lemma {:induction false} FindAfter(f: Fields, key: string, k: string)
    requires WellFormed(f) && k in Keys(After(f, key))
    ensures Find(f, k) == Find(After(f, key), k) && k in Keys(f)
  {
    FindSpec(f.rest, key);
    if f.key != key { FindAfter(f.rest, key, k); }
  }

  // ---------- Deep merge ----------

  function Merged(existing: Option<Node>, value: Node): Node
    decreases value, 1
  {
    if existing.Some? && existing.value.Dict? && value.Dict?
    then Dict(DeepMerge(existing.value.fields, value.fields)) else value
  }

  function DeepMerge(base: Fields, overlay: Fields): Fields
    decreases overlay
  {
    match overlay
    case Nil => base
    case Field(key, value, rest) => DeepMerge(Put(base, key, Merged(Find(base, key), value)), rest)
  }

  /**
    Merging key by key: an overlay key wins unless both sides are mappings, which merge; other keys
    are kept. The base's keys keep their order in front of the new ones.
   */
  lemma {:induction false} MergeSpec(base: Fields, overlay: Fields, k: string, k': string)
    requires WellFormed(base) && WellFormed(overlay)
    ensures WellFormed(DeepMerge(base, overlay))
    ensures Find(DeepMerge(base, overlay), k) ==
              if k in Keys(overlay) then Some(Merged(Find(base, k), Find(overlay, k).value)) else Find(base, k)
    ensures k' in Keys(base) && k' in Keys(After(DeepMerge(base, overlay), k)) ==> k' in Keys(After(base, k))
    decreases overlay
  {
    FindSpec(overlay, k);
    if overlay.Field? {
      var Field(key, value, rest) := overlay;
      FindSpec(base, key);
      if Find(base, key).Some? && Find(base, key).value.Dict? && value.Dict? {
        MergeSpec(Find(base, key).value.fields, value.fields, k, k');
      }
      var node := Merged(Find(base, key), value);
      PutSpec(base, key, node, k);
      MergeSpec(Put(base, key, node), rest, k, k');
      FindSpec(rest, k);
    }
  }

  // ---------- Leaves and their paths ----------

  function LeafAt(f: Fields, path: Path): Option<Scalar>
    decreases |path|
  {
    var n := Find(f, path[0]);
    if n.None? then None
    else if |path| == 1 then (if n.value.Leaf? then Some(n.value.value) else None)
    else if n.value.Dict? then LeafAt(n.value.fields, path[1..]) else None
  }

  /** Every overlay leaf survives the merge, and nothing else appears in it but leaves of the base. */
  lemma {:induction false} MergeLeaves(base: Fields, overlay: Fields, path: Path)
    requires WellFormed(base) && WellFormed(overlay)
    ensures LeafAt(overlay, path).Some? ==> LeafAt(DeepMerge(base, overlay), path) == LeafAt(overlay, path)
    ensures LeafAt(DeepMerge(base, overlay), path) in {None, LeafAt(base, path), LeafAt(overlay, path)}
    decreases |path|
  {
    var k := path[0];
    MergeSpec(base, overlay, k, k);
    FindSpec(base, k);
    FindSpec(overlay, k);
    if |path| > 1 && Find(base, k).Some? && Find(overlay, k).Some? && Find(base, k).value.Dict? && Find(overlay, k).value.Dict? {
      MergeLeaves(Find(base, k).value.fields, Find(overlay, k).value.fields, path[1..]);
    }
  }

  /** A mapping at the path, whether empty or not. */
  predicate MappingAt(f: Fields, path: Path)
    decreases |path|
  {
    var n := Find(f, path[0]);
    n.Some? && n.value.Dict? && (|path| == 1 || MappingAt(n.value.fields, path[1..]))
  }

  ghost predicate LeafAbove(f: Fields, path: Path, k: nat)
    requires 0 < k < |path|
  {
    LeafAt(f, path[..k]).Some?
  }

  /** The tree says something else about the path than a leaf there: a leaf above it, or a mapping at it. */
  ghost predicate Displaces(f: Fields, path: Path) {
    MappingAt(f, path) || exists k :: 0 < k < |path| && LeafAbove(f, path, k)
  }

  /** Displacing, looked at from the first segment. */
  lemma DisplacesBelow(f: Fields, path: Path)
    ensures var n := Find(f, path[0]);
            Displaces(f, path) <==>
              n.Some? && if n.value.Dict? then |path| == 1 || Displaces(n.value.fields, path[1..]) else |path| > 1
  {
    var n := Find(f, path[0]);
    if n.Some? && |path| > 1 {
      if n.value.Leaf? {
        assert LeafAbove(f, path, 1);
      } else {
        forall k | 0 < k < |path| ensures LeafAbove(f, path, k) <==> k > 1 && LeafAbove(n.value.fields, path[1..], k - 1) {
          if k > 1 { assert path[..k][1..] == path[1..][..k - 1]; }
        }
        if k :| 0 < k < |path| - 1 && LeafAbove(n.value.fields, path[1..], k) { assert LeafAbove(f, path, k + 1); }
      }
    }
  }

  /** What a merge has at a path: the overlay's leaf; nothing, if the overlay displaces the path; else the base's leaf. */
  lemma {:induction false} MergeLeafLaw(base: Fields, overlay: Fields, path: Path)
    requires WellFormed(base) && WellFormed(overlay)
    ensures LeafAt(DeepMerge(base, overlay), path)
            == if LeafAt(overlay, path).Some? then LeafAt(overlay, path)
               else if Displaces(overlay, path) then None
               else LeafAt(base, path)
    decreases |path|
  {
    var k := path[0];
    var b, o := Find(base, k), Find(overlay, k);
    MergeSpec(base, overlay, k, k);
    FindSpec(base, k);
    FindSpec(overlay, k);
    DisplacesBelow(overlay, path);
    if |path| > 1 && o.Some? && o.value.Dict? {
      if b.Some? && b.value.Dict? {
        MergeLeafLaw(b.value.fields, o.value.fields, path[1..]);
      }
    }
  }

  // ---------- Flattening ----------

  /** The text a scalar is written as; a null is not written. */
  function Render(value: Scalar): Option<string> {
    match value
    case Null => None
    case Flag(flag) => Some(if flag then "true" else "false")
    case Text(text) => Some(text)
    case Items(items) => Some(if items == [] then "" else CommaJoin(items))
  }

  function CommaJoin(items: seq<string>): string
    requires items != []
  {
    if |items| == 1 then items[0] else items[0] + "," + CommaJoin(items[1..])
  }

  function CommaSplit(text: string): (items: seq<string>)
    ensures items != []
  {
    if text == "" then [""]
    else
      var rest := CommaSplit(text[1..]);
      if text[0] == ',' then [""] + rest else [[text[0]] + rest[0]] + rest[1..]
  }

  lemma {:induction false} CommaSplitItem(item: string, rest: string)
    requires ',' !in item
    ensures CommaSplit(item) == [item]
    ensures CommaSplit(item + "," + rest) == [item] + CommaSplit(rest)
  {
    if item == "" {
      assert item + "," + rest == "," + rest;
    } else {
      CommaSplitItem(item[1..], rest);
      assert (item + "," + rest)[1..] == item[1..] + "," + rest;
      assert [item[0]] + item[1..] == item;
    }
  }

  lemma {:induction false} CommaJoinReadsBack(items: seq<string>)
    requires items != [] && forall i :: i in items ==> ',' !in i
    ensures CommaSplit(CommaJoin(items)) == items
  {
    if |items| == 1 {
      CommaSplitItem(items[0], "");
    } else {
      CommaJoinReadsBack(items[1..]);
      CommaSplitItem(items[0], CommaJoin(items[1..]));
    }
  }

  /** What is written can be read back: flags, texts, and lists whose items have no comma; a null is not written. */
  lemma RenderReadsBack(value: Scalar)
    ensures Render(value).None? <==> value == Null
    ensures value.Flag? ==> Render(value).value in {"true", "false"} && (Render(value).value == "true" <==> value.flag)
    ensures value.Text? ==> Render(value).value == value.text
    ensures value.Items? && value.items != [] && (forall i :: i in value.items ==> ',' !in i) ==>
              CommaSplit(Render(value).value) == value.items
    ensures value == Items([]) ==> Render(value).value == ""
  {
    if value.Items? && value.items != [] && forall i :: i in value.items ==> ',' !in i {
      CommaJoinReadsBack(value.items);
    }
    assert "true"[0] != "false"[0];
  }

  type Vars = map<string, string>

  /** What flattening a node writes; later fields overwrite earlier ones. */
  function Written(node: Node, prefix: string): Vars {
    match node
    case Dict(fields) => WrittenFields(fields, prefix)
    case Leaf(value) => if Render(value).Some? then map[prefix := Render(value).value] else map[]
  }

  function WrittenFields(f: Fields, prefix: string): Vars {
    match f
    case Nil => map[]
    case Field(key, node, rest) => Written(node, Child(prefix, key)) + WrittenFields(rest, prefix)
  }

  function Size(f: Fields): nat {
    match f
    case Nil => 0
    case Field(_, node, rest) => 1 + (if node.Dict? then Size(node.fields) else 0) + Size(rest)
  }

  lemma UnionAssociative(a: Vars, b: Vars, c: Vars)
    ensures a + b + c == a + (b + c)
  {
  }

  /** The shared dictionary that flattening writes into. */
  class EnvVars {
    var vars: Vars

    constructor ()
      ensures vars == map[]
    {
      vars := map[];
    }

    method Flatten(node: Node, prefix: string)
      modifies this
      ensures vars == old(vars) + Written(node, prefix)
      decreases if node.Dict? then Size(node.fields) + 1 else 0
    {
      match node
      case Dict(fields) =>
        var rest := fields;
        while rest.Field?
          invariant vars + WrittenFields(rest, prefix) == old(vars) + WrittenFields(fields, prefix)
          invariant Size(rest) <= Size(fields)
          decreases Size(rest)
        {
          UnionAssociative(vars, Written(rest.node, Child(prefix, rest.key)), WrittenFields(rest.rest, prefix));
          Flatten(rest.node, Child(prefix, rest.key));
          rest := rest.rest;
        }
      case Leaf(value) =>
        var text := Render(value);
        if text.Some? {
          vars := vars[prefix := text.value];
        }
    }
  }

  ghost predicate WritesAt(f: Fields, path: Path, prefix: string, name: string, text: string) {
    LeafAt(f, path).Some? && Render(LeafAt(f, path).value) == Some(text) && Name(prefix, path) == name
  }

  /** Every variable written comes from a leaf whose path spells its name. */
  lemma {:induction false} WrittenComesFromLeaf(f: Fields, prefix: string, name: string) returns (path: Path)
    requires WellFormed(f) && name in WrittenFields(f, prefix)
    ensures WritesAt(f, path, prefix, name, WrittenFields(f, prefix)[name])
    decreases f
  {
    var Field(key, node, rest) := f;
    if name in WrittenFields(rest, prefix) {
      path := WrittenComesFromLeaf(rest, prefix, name);
      FindSpec(rest, path[0]);
    } else if node.Leaf? {
      path := [key];
    } else {
      var tail := WrittenComesFromLeaf(node.fields, Child(prefix, key), name);
      path := [key] + tail;
      assert path[1..] == tail;
    }
  }

  /** The value of a name is decided by the last field of the mapping that writes it. */
  lemma {:induction false} LastFieldWins(f: Fields, prefix: string, key: string, name: string)
    requires WellFormed(f) && key in Keys(f)
    requires name in Written(Find(f, key).value, Child(prefix, key)) || name in WrittenFields(After(f, key), prefix)
    ensures name in WrittenFields(f, prefix)
    ensures WrittenFields(f, prefix)[name] ==
              if name in WrittenFields(After(f, key), prefix) then WrittenFields(After(f, key), prefix)[name]
              else Written(Find(f, key).value, Child(prefix, key))[name]
  {
    if f.key != key { LastFieldWins(f.rest, prefix, key, name); }
  }

  lemma {:induction false} LeafIsWritten(f: Fields, prefix: string, path: Path)
    requires WellFormed(f) && LeafAt(f, path).Some? && Render(LeafAt(f, path).value).Some?
    ensures Name(prefix, path) in WrittenFields(f, prefix)
    decreases |path|
  {
    var key := path[0];
    FindSpec(f, key);
    if |path| > 1 {
      LeafIsWritten(Find(f, key).value.fields, Child(prefix, key), path[1..]);
    }
    LastFieldWins(f, prefix, key, Name(prefix, path));
  }

  // ---------- Environment overrides ----------

  /** Walks down the path, replacing what is not a mapping by an empty one, and assigns the last key. */
  function InsertPath(f: Fields, path: Path, value: string): Fields
    decreases |path|
  {
    if |path| == 1 then Put(f, path[0], Leaf(Text(value)))
    else
      var next := Find(f, path[0]);
      var below := if next.Some? && next.value.Dict? then next.value.fields else Nil;
      Put(f, path[0], Dict(InsertPath(below, path[1..], value)))
  }

  function EnvTrie(environ: seq<Var>): Fields {
    if environ == [] then Nil
    else if IsOverride(Last(environ).name)
    then InsertPath(EnvTrie(Init(environ)), EnvPath(Last(environ).name), Last(environ).value)
    else EnvTrie(Init(environ))
  }

  method EnvOverrides(environ: seq<Var>) returns (values: Fields)
    ensures values == EnvTrie(environ)
  {
    values := Nil;
    for i := 0 to |environ|
      invariant values == EnvTrie(environ[..i])
    {
      assert Init(environ[..i + 1]) == environ[..i];
      if IsOverride(environ[i].name) {
        var path := SplitEnvKeyLoop(Lower(environ[i].name[|ROOT| + 1..]));
        values := InsertPath(values, path, environ[i].value);
      }
    }
    assert environ[..|environ|] == environ;
  }

  /** An assignment deletes exactly the leaves whose path it extends or is extended by. */
  lemma {:induction false} InsertLeaves(f: Fields, p: Path, value: string, q: Path)
    requires WellFormed(f)
    ensures WellFormed(InsertPath(f, p, value))
    ensures LeafAt(InsertPath(f, p, value), q) ==
              if q == p then Some(Text(value)) else if Comparable(p, q) then None else LeafAt(f, q)
    decreases |p|
  {
    FindSpec(f, p[0]);
    if |p| == 1 {
      PutSpec(f, p[0], Leaf(Text(value)), q[0]);
    } else {
      var next := Find(f, p[0]);
      var below := if next.Some? && next.value.Dict? then next.value.fields else Nil;
      var deeper: Path := if |q| > 1 then q[1..] else p[1..];
      InsertLeaves(below, p[1..], value, deeper);
      PutSpec(f, p[0], Dict(InsertPath(below, p[1..], value)), q[0]);
      assert p == [p[0]] + p[1..];
      if |q| > 1 {
        assert q == [q[0]] + q[1..];
        assert p[0] == q[0] ==> (Comparable(p, q) <==> Comparable(p[1..], q[1..]));
      }
    }
  }

  ghost predicate Addresses(environ: seq<Var>, path: Path) {
    exists i :: 0 <= i < |environ| && IsOverride(environ[i].name) && EnvPath(environ[i].name) == path
  }

  lemma {:induction false} TrieLeavesAreAddressed(environ: seq<Var>, path: Path)
    ensures WellFormed(EnvTrie(environ))
    ensures LeafAt(EnvTrie(environ), path).Some? ==> Addresses(environ, path)
    ensures LeafAt(EnvTrie(environ), path).Some? ==> LeafAt(EnvTrie(environ), path).value.Text?
  {
    if environ != [] {
      TrieLeavesAreAddressed(Init(environ), path);
      var x := Last(environ);
      if IsOverride(x.name) {
        InsertLeaves(EnvTrie(Init(environ)), EnvPath(x.name), x.value, path);
      }
      assert forall i :: 0 <= i < |environ| - 1 ==> environ[i] == Init(environ)[i];
    }
  }

  // ---------- Round trip of the environment ----------

  /** No variable's path runs through another variable's path. */
  ghost predicate PrefixFree(environ: seq<Var>) {
    forall p: Path, q: Path :: Addresses(environ, p) && Addresses(environ, q) ==> !(p < q)
  }

  /** The value last assigned to a path, going through the environment in order. */
  function Addressed(environ: seq<Var>): map<Path, string> {
    if environ == [] then map[]
    else if IsOverride(Last(environ).name)
    then Addressed(Init(environ))[EnvPath(Last(environ).name) := Last(environ).value]
    else Addressed(Init(environ))
  }

  /** The LEAPFLOW_ variables of the environment under their upper-cased names. */
  function OverrideVars(environ: seq<Var>): Vars {
    if environ == [] then map[]
    else if IsOverride(Last(environ).name)
    then OverrideVars(Init(environ))[Upper(Last(environ).name) := Last(environ).value]
    else OverrideVars(Init(environ))
  }

  lemma AddressesInit(environ: seq<Var>, path: Path)
    requires environ != []
    ensures Addresses(Init(environ), path) ==> Addresses(environ, path)
    ensures IsOverride(Last(environ).name) ==> Addresses(environ, EnvPath(Last(environ).name))
    ensures Addresses(environ, path) ==>
              Addresses(Init(environ), path) || (IsOverride(Last(environ).name) && EnvPath(Last(environ).name) == path)
  {
    assert forall i :: 0 <= i < |environ| - 1 ==> environ[i] == Init(environ)[i];
    if IsOverride(Last(environ).name) {
      assert environ[|environ| - 1] == Last(environ);
    }
  }

  lemma {:induction false} AddressedSpec(environ: seq<Var>, path: Path)
    ensures path in Addressed(environ) <==> Addresses(environ, path)
    ensures path in Addressed(environ) ==>
              && Name(ROOT, path) in OverrideVars(environ)
              && OverrideVars(environ)[Name(ROOT, path)] == Addressed(environ)[path]
  {
    if environ != [] {
      AddressedSpec(Init(environ), path);
      AddressesInit(environ, path);
      var x := Last(environ);
      if IsOverride(x.name) {
        EnvPathName(x.name);
        if path in Addressed(Init(environ)) {
          var i :| 0 <= i < |Init(environ)| && IsOverride(Init(environ)[i].name) && EnvPath(Init(environ)[i].name) == path;
          if Name(ROOT, path) == Upper(x.name) { EnvPathInjective(Init(environ)[i].name, x.name); }
        }
      }
    }
  }

  lemma {:induction false} OverrideVarsAreAddressed(environ: seq<Var>, name: string)
    requires name in OverrideVars(environ)
    ensures IsOverride(name) && Addresses(environ, EnvPath(name)) && Name(ROOT, EnvPath(name)) == name
  {
    var x := Last(environ);
    if IsOverride(x.name) && Upper(x.name) == name {
      EnvPathOfUpper(x.name);
      EnvPathName(x.name);
      AddressesInit(environ, EnvPath(name));
    } else {
      OverrideVarsAreAddressed(Init(environ), name);
      AddressesInit(environ, EnvPath(name));
    }
  }

  lemma {:induction false} PrefixFreeTrie(environ: seq<Var>, path: Path)
    requires PrefixFree(environ)
    ensures LeafAt(EnvTrie(environ), path) ==
              if path in Addressed(environ) then Some(Text(Addressed(environ)[path])) else None
  {
    if environ != [] {
      var x := Last(environ);
      forall p: Path ensures Addresses(Init(environ), p) ==> Addresses(environ, p) {
        AddressesInit(environ, p);
      }
      PrefixFreeTrie(Init(environ), path);
      TrieLeavesAreAddressed(Init(environ), path);
      if IsOverride(x.name) {
        AddressesInit(environ, EnvPath(x.name));
        InsertLeaves(EnvTrie(Init(environ)), EnvPath(x.name), x.value, path);
        AddressedSpec(Init(environ), path);
      }
    }
  }

  /** An addressed path is spelled by exactly one name, so the trie never writes a name twice. */
  lemma SameNameSameAddress(environ: seq<Var>, p: Path, q: Path)
    requires Addresses(environ, p) && Addresses(environ, q) && Name(ROOT, p) == Name(ROOT, q)
    ensures p == q
  {
    var i :| 0 <= i < |environ| && IsOverride(environ[i].name) && EnvPath(environ[i].name) == p;
    var j :| 0 <= j < |environ| && IsOverride(environ[j].name) && EnvPath(environ[j].name) == q;
    EnvPathInjective(environ[i].name, environ[j].name);
  }

  /**
    The round trip: flattening the nested overrides gives back the environment's own variables,
    whatever its order, exactly when no variable's path is a proper prefix of another's.
   */
  lemma RoundTripIffPrefixFree(environ: seq<Var>)
    ensures WrittenFields(EnvTrie(environ), ROOT) == OverrideVars(environ) <==> PrefixFree(environ)
  {
    if PrefixFree(environ) {
      RoundTrip(environ);
    }
    if WrittenFields(EnvTrie(environ), ROOT) == OverrideVars(environ) {
      forall p: Path, q: Path | Addresses(environ, p) && Addresses(environ, q) ensures !(p < q) {
        AddressedSurvives(environ, p);
        AddressedSurvives(environ, q);
        if p < q { LeafBelowLeaf(EnvTrie(environ), p, q); }
      }
    }
  }

  lemma AddressedSurvives(environ: seq<Var>, p: Path)
    requires WrittenFields(EnvTrie(environ), ROOT) == OverrideVars(environ) && Addresses(environ, p)
    ensures LeafAt(EnvTrie(environ), p).Some?
  {
    AddressedSpec(environ, p);
    TrieLeavesAreAddressed(environ, p);
    var leaf := WrittenComesFromLeaf(EnvTrie(environ), ROOT, Name(ROOT, p));
    TrieLeavesAreAddressed(environ, leaf);
    SameNameSameAddress(environ, leaf, p);
  }

  lemma {:induction false} LeafBelowLeaf(f: Fields, p: Path, q: Path)
    requires p < q && LeafAt(f, p).Some?
    ensures LeafAt(f, q).None?
    decreases |p|
  {
    if |p| > 1 { LeafBelowLeaf(Find(f, p[0]).value.fields, p[1..], q[1..]); }
  }

  lemma RoundTrip(environ: seq<Var>)
    requires PrefixFree(environ)
    ensures WrittenFields(EnvTrie(environ), ROOT) == OverrideVars(environ)
  {
    var trie := EnvTrie(environ);
    var written := WrittenFields(trie, ROOT);
    TrieLeavesAreAddressed(environ, [""]);
    forall name | name in written
      ensures name in OverrideVars(environ) && OverrideVars(environ)[name] == written[name]
    {
      var leaf := WrittenComesFromLeaf(trie, ROOT, name);
      PrefixFreeTrie(environ, leaf);
      AddressedSpec(environ, leaf);
    }
    forall name | name in OverrideVars(environ) ensures name in written {
      OverrideVarsAreAddressed(environ, name);
      AddressedSpec(environ, EnvPath(name));
      PrefixFreeTrie(environ, EnvPath(name));
      LeafIsWritten(trie, ROOT, EnvPath(name));
    }
  }
}
