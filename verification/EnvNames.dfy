/** The string side of layered configuration: letter case, underscore splitting and compound keys. */
module EnvNames {

  import opened Letters

  // ---------- Splitting and joining on underscores ----------

  /** One character in front of what is split. */
  function Grown(c: char, parts: seq<string>): seq<string>
    requires parts != []
  {
    if c == '_' then [""] + parts else [[c] + parts[0]] + parts[1..]
  }

  function Split(s: string): (parts: seq<string>)
    ensures parts != []
  {
    if s == "" then [""] else Grown(s[0], Split(s[1..]))
  }

  function Join(parts: seq<string>): string
    requires parts != []
  {
    if |parts| == 1 then parts[0] else parts[0] + "_" + Join(parts[1..])
  }

  lemma {:induction false} JoinSplit(s: string)
    ensures Join(Split(s)) == s
  {
    if s != "" {
      JoinSplit(s[1..]);
      var rest, parts := Split(s[1..]), Split(s);
      assert s == [s[0]] + s[1..];
      assert parts[1..] == if s[0] == '_' then rest else rest[1..];
    }
  }

  lemma {:induction false} JoinConcat(a: seq<string>, b: seq<string>)
    requires a != [] && b != []
    ensures Join(a + b) == Join(a) + "_" + Join(b)
  {
    if |a| == 1 {
      assert (a + b)[1..] == b;
    } else {
      assert (a + b)[1..] == a[1..] + b;
      JoinConcat(a[1..], b);
    }
  }

  // ---------- Compound keys ----------

  const COMPOUND_KEYS: set<string> := {
    "api_key", "base_url", "max_retries", "context_length",
    "max_tokens", "timeout_s", "idle_ttl_s", "max_live_sessions",
    "track_enabled", "hard_limit_ratio", "warning_ratio",
    "result_budget", "tool_budget"
  }

  predicate IsCompoundTail(parts: seq<string>, k: nat) {
    1 <= k < |parts| && Join(parts[k..]) in COMPOUND_KEYS
  }

  /** Splits a lower-cased suffix into path segments, gluing the longest compound tail. */
  method SplitEnvKeyLoop(remainder: string) returns (path: seq<string>)
    ensures path == SplitEnvKey(remainder)
  {
    var parts := Split(remainder);
    if |parts| <= 1 {
      return parts;
    }
    for k := 1 to |parts|
      invariant FirstCompoundTail(parts, 1) == FirstCompoundTail(parts, k)
    {
      var candidate := Join(parts[k..]);
      if candidate in COMPOUND_KEYS {
        return parts[..k] + [candidate];
      }
    }
    return parts;
  }

  function FirstCompoundTail(parts: seq<string>, k: nat): (tail: nat)
    requires 1 <= k
    ensures tail < |parts| ==> IsCompoundTail(parts, tail)
    ensures forall j :: k <= j < tail ==> !IsCompoundTail(parts, j)
    decreases |parts| - k
  {
    if k >= |parts| || IsCompoundTail(parts, k) then k else FirstCompoundTail(parts, k + 1)
  }

  function SplitEnvKey(remainder: string): (path: seq<string>)
    ensures path != []
  {
    var parts := Split(remainder);
    var tail := FirstCompoundTail(parts, 1);
    if tail < |parts| then parts[..tail] + [Join(parts[tail..])] else parts
  }

  /** Splitting loses nothing: joining the path with underscores gives the suffix back. */
  lemma JoinSplitEnvKey(remainder: string)
    ensures Join(SplitEnvKey(remainder)) == remainder
  {
    var parts := Split(remainder);
    var tail := FirstCompoundTail(parts, 1);
    JoinSplit(remainder);
    if tail < |parts| {
      assert parts[..tail] + parts[tail..] == parts;
      JoinConcat(parts[..tail], parts[tail..]);
      JoinConcat(parts[..tail], [Join(parts[tail..])]);
    }
  }

  lemma {:induction false} SplitSegments(s: string)
    ensures forall part :: part in Split(s) ==> '_' !in part
  {
    if s != "" {
      var rest := Split(s[1..]);
      SplitSegments(s[1..]);
      assert rest[0] in rest;
      forall part | part in Split(s) ensures '_' !in part {
        assert part in rest[1..] || part in rest || part == [s[0]] + rest[0] || part == "";
        assert part in rest[1..] ==> part in rest;
      }
    }
  }

  lemma GrownConcat(c: char, a: seq<string>, b: seq<string>)
    requires a != []
    ensures Grown(c, a + b) == Grown(c, a) + b
  {
    assert (a + b)[1..] == a[1..] + b;
  }

  lemma {:induction false} SplitConcat(head: string, tail: string)
    ensures Split(head + "_" + tail) == Split(head) + Split(tail)
  {
    var s := head + "_" + tail;
    if head == "" {
      assert s == "_" + tail && s[1..] == tail;
    } else {
      assert s[0] == head[0] && s[1..] == head[1..] + "_" + tail;
      SplitConcat(head[1..], tail);
      GrownConcat(head[0], Split(head[1..]), Split(tail));
    }
  }

  lemma JoinTailShrinks(parts: seq<string>, i: nat, j: nat)
    requires i <= j < |parts|
    ensures |Join(parts[j..])| <= |Join(parts[i..])|
  {
    if i < j {
      assert parts[i..] == parts[i..j] + parts[j..];
      JoinConcat(parts[i..j], parts[j..]);
    }
  }

  /**
    Every segment but the last is free of underscores, the last is too unless it is a compound key,
    and if the suffix ends in compound keys behind an underscore, the last segment is the longest of them.
   */
  lemma SplitEnvKeySpec(remainder: string, segment: string, head: string, tail: string)
    ensures var path := SplitEnvKey(remainder);
            var last := path[|path| - 1];
            && (segment in path[..|path| - 1] ==> '_' !in segment)
            && ('_' in last ==> last in COMPOUND_KEYS)
            && (remainder == head + "_" + tail && tail in COMPOUND_KEYS ==> last in COMPOUND_KEYS && |tail| <= |last|)
  {
    var parts := Split(remainder);
    var first := FirstCompoundTail(parts, 1);
    SplitSegments(remainder);
    assert parts[|parts| - 1] in parts;
    assert forall p :: p in parts[..|parts| - 1] ==> p in parts;
    if first < |parts| { assert (parts[..first] + [Join(parts[first..])])[..first] == parts[..first]; }
    if remainder == head + "_" + tail && tail in COMPOUND_KEYS {
      var k := |Split(head)|;
      SplitConcat(head, tail);
      JoinSplit(tail);
      assert parts[k..] == Split(tail);
      assert IsCompoundTail(parts, k);
      JoinTailShrinks(parts, first, k);
    }
  }

  // ---------- Names of configuration paths ----------

  const ROOT := "LEAPFLOW"

  type Path = p: seq<string> | p != [] witness [""]

  function Child(prefix: string, key: string): string {
    Upper(prefix + "_" + key)
  }

  function Name(prefix: string, path: Path): string
    decreases |path|
  {
    if |path| == 1 then Child(prefix, path[0]) else Name(Child(prefix, path[0]), path[1..])
  }

  lemma ChildIsUpper(prefix: string, key: string)
    ensures Child(prefix, key) == Upper(prefix) + "_" + Upper(key)
    ensures Upper(Child(prefix, key)) == Child(prefix, key)
  {
    UpperConcat(prefix + "_", key);
    UpperConcat(prefix, "_");
    CaseIdempotent(prefix + "_" + key);
  }

  lemma UpperJoin(path: Path)
    requires |path| > 1
    ensures Upper(Join(path)) == Upper(path[0]) + "_" + Upper(Join(path[1..]))
  {
    var rest := Join(path[1..]);
    assert Join(path) == (path[0] + "_") + rest;
    UpperConcat(path[0] + "_", rest);
    UpperConcat(path[0], "_");
    assert Upper("_") == "_";
  }

  lemma {:induction false} NameIsJoin(prefix: string, path: Path)
    ensures Name(prefix, path) == Upper(prefix) + "_" + Upper(Join(path))
    decreases |path|
  {
    ChildIsUpper(prefix, path[0]);
    if |path| > 1 {
      NameIsJoin(Child(prefix, path[0]), path[1..]);
      UpperJoin(path);
      var head, rest := Upper(prefix) + "_", "_" + Upper(Join(path[1..]));
      assert Name(prefix, path) == head + Upper(path[0]) + rest;
    }
  }

  ghost predicate Comparable<T>(p: seq<T>, q: seq<T>) {
    p <= q || q <= p
  }

  // ---------- Environment variables ----------

  datatype Var = Var(name: string, value: string)

  predicate IsOverride(name: string) {
    ROOT + "_" <= name
  }

  /** The configuration path an override variable addresses. */
  function EnvPath(name: string): Path
    requires IsOverride(name)
  {
    SplitEnvKey(Lower(name[|ROOT| + 1..]))
  }

  /** Flattening the path of a variable restores its (upper-cased) name. */
  lemma EnvPathName(name: string)
    requires IsOverride(name)
    ensures Name(ROOT, EnvPath(name)) == Upper(name)
  {
    var r := name[|ROOT| + 1..];
    NameIsJoin(ROOT, EnvPath(name));
    JoinSplitEnvKey(Lower(r));
    CaseIdempotent(r);
    assert name == (ROOT + "_") + r;
    UpperConcat(ROOT + "_", r);
    UpperConcat(ROOT, "_");
  }

  /** The path depends on the name only up to letter case, so one name has one path. */
  lemma EnvPathOfUpper(name: string)
    requires IsOverride(name)
    ensures IsOverride(Upper(name)) && EnvPath(Upper(name)) == EnvPath(name)
  {
    var n := |ROOT| + 1;
    assert Upper(name)[..n] == ROOT + "_" by {
      assert name[..n] == ROOT + "_";
      assert forall i :: 0 <= i < n ==> Upper(name)[i] == UpperChar((ROOT + "_")[i]) == (ROOT + "_")[i];
    }
    assert Upper(name)[n..] == Upper(name[n..]);
    CaseIdempotent(name[n..]);
  }

  lemma EnvPathInjective(m: string, n: string)
    requires IsOverride(m) && IsOverride(n)
    requires Name(ROOT, EnvPath(m)) == Name(ROOT, EnvPath(n))
    ensures EnvPath(m) == EnvPath(n)
  {
    EnvPathName(m);
    EnvPathName(n);
    EnvPathOfUpper(m);
    EnvPathOfUpper(n);
  }

  lemma NameIsOverride(path: Path)
    ensures IsOverride(Name(ROOT, path))
    ensures Upper(Name(ROOT, path)) == Name(ROOT, path)
  {
    NameIsJoin(ROOT, path);
    assert Upper(ROOT) == ROOT;
    CaseIdempotent(Join(path));
    UpperConcat(ROOT + "_", Upper(Join(path)));
  }
}
