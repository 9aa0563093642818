/** Subsequences, in the order-preserving sense, and the helpers on sequences that several modules share. */
module Subsequences {

  datatype Option<+T> = None | Some(value: T)

  function Init<T>(s: seq<T>): seq<T>
    requires s != []
  {
    s[..|s| - 1]
  }

  function Last<T>(s: seq<T>): T
    requires s != []
  {
    s[|s| - 1]
  }

  function Reverse<T>(s: seq<T>): (r: seq<T>)
    ensures |r| == |s|
  {
    if s == [] then [] else Reverse(s[1..]) + [s[0]]
  }

  lemma Regroup<T>(a: seq<T>, b: seq<T>, c: seq<T>)
    ensures a + (b + c) == (a + b) + c
  {
  }

  lemma {:induction false} ReverseAppend<T>(s: seq<T>, x: T)
    ensures Reverse(s + [x]) == [x] + Reverse(s)
  {
    if s == [] {
      assert s + [x] == [x];
      assert Reverse([x]) == Reverse([]) + [x];
    } else {
      assert (s + [x])[1..] == s[1..] + [x];
      ReverseAppend(s[1..], x);
    }
  }

  /** `s` is obtained from `t` by deleting elements. Decided greedily from the back. */
  predicate IsSubseq<T(==)>(s: seq<T>, t: seq<T>)
    decreases |t|
  {
    if s == [] then true
    else if t == [] then false
    else if Last(s) == Last(t) then IsSubseq(Init(s), Init(t))
    else IsSubseq(s, Init(t))
  }

  ghost predicate StrictlyIncreasing(f: seq<nat>) {
    forall i, j :: 0 <= i < j < |f| ==> f[i] < f[j]
  }

  /** The reference meaning of a subsequence: increasing positions of `t` that spell `s`. */
  ghost predicate Embeds<T>(s: seq<T>, t: seq<T>, f: seq<nat>) {
    && |f| == |s|
    && StrictlyIncreasing(f)
    && forall k {:trigger f[k]} :: 0 <= k < |f| ==> f[k] < |t| && t[f[k]] == s[k]
  }

  lemma {:induction false} SubseqHasEmbedding<T>(s: seq<T>, t: seq<T>) returns (f: seq<nat>)
    requires IsSubseq(s, t)
    ensures Embeds(s, t, f)
    decreases |t|
  {
    if s == [] {
      f := [];
    } else if Last(s) == Last(t) {
      var g := SubseqHasEmbedding(Init(s), Init(t));
      f := g + [|t| - 1];
    } else {
      f := SubseqHasEmbedding(s, Init(t));
    }
  }

  lemma {:induction false} EmbeddingIsSubseq<T>(s: seq<T>, t: seq<T>, f: seq<nat>)
    requires Embeds(s, t, f)
    ensures IsSubseq(s, t)
    decreases |t|
  {
    if s != [] {
      assert f[|f| - 1] < |t|;
      if Last(s) == Last(t) {
        EmbeddingIsSubseq(Init(s), Init(t), Init(f));
      } else {
        EmbeddingIsSubseq(s, Init(t), f);
      }
    }
  }

  lemma {:induction false} SubseqTransitive<T>(r: seq<T>, s: seq<T>, t: seq<T>)
    requires IsSubseq(r, s) && IsSubseq(s, t)
    ensures IsSubseq(r, t)
  {
    var f := SubseqHasEmbedding(r, s);
    var g := SubseqHasEmbedding(s, t);
    EmbeddingIsSubseq(r, t, seq(|f|, k requires 0 <= k < |f| => g[f[k]]));
  }

  lemma {:induction false} SubseqMember<T>(s: seq<T>, t: seq<T>, x: T)
    requires IsSubseq(s, t) && x in s
    ensures x in t
  {
    var f := SubseqHasEmbedding(s, t);
    var k :| 0 <= k < |s| && s[k] == x;
    assert t[f[k]] == x;
  }

  lemma {:induction false} SubseqReflexive<T>(s: seq<T>)
    ensures IsSubseq(s, s)
  {
    if s != [] { SubseqReflexive(Init(s)); }
  }

  /** Dropping the last element of the shorter side, or adding one to the longer side, keeps the relation. */
  lemma {:induction false} SubseqWeaken<T>(s: seq<T>, t: seq<T>, x: T)
    requires IsSubseq(s, t)
    ensures IsSubseq(s, t + [x])
    ensures s != [] ==> IsSubseq(Init(s), t)
  {
    var f := SubseqHasEmbedding(s, t);
    EmbeddingIsSubseq(s, t + [x], f);
    if s != [] { EmbeddingIsSubseq(Init(s), t, Init(f)); }
  }

  lemma SubseqAppend<T>(s: seq<T>, t: seq<T>, x: T)
    requires IsSubseq(s, t)
    ensures IsSubseq(s + [x], t + [x])
  {
    assert Init(s + [x]) == s && Init(t + [x]) == t;
  }
}
