/**
  The cache index with its quota: registration, touching, expiry, and eviction of the least
  recently used entries of a scope.
 */
module CacheQuota {
  import opened Subsequences

  type Id = int
  type Path = seq<int> // path components, interned

  /** `size` is what the file had when it was registered. */
  datatype Entry = Entry(id: Id, profile: int, workspace: int, session: int, scope: int, category: int,
                         path: Path, size: nat, created: real, accessed: Option<real>, expires: Option<real>)

  /** Absent parts of the filter match everything. */
  datatype Filter = Filter(scope: int, category: Option<int>, workspace: Option<int>, session: Option<int>)

  predicate Allows(wanted: Option<int>, actual: int) {
    wanted.Some? ==> wanted.value == actual
  }

  predicate Matches(f: Filter, profile: int, e: Entry) {
    && e.profile == profile && e.scope == f.scope && Allows(f.category, e.category)
    && Allows(f.workspace, e.workspace) && Allows(f.session, e.session)
  }

  /** Last access, or creation for an entry never accessed; an access time of zero counts as none. */
  function Age(e: Entry): real {
    if e.accessed.Some? && e.accessed.value != 0.0 then e.accessed.value else e.created
  }

  predicate IsManaged(root: Path, path: Path) {
    |root| <= |path| && path[..|root|] == root
  }

  lemma ManagedIsBelow(root: Path, path: Path)
    ensures IsManaged(root, path) <==> exists below: seq<int> :: path == root + below
  {
    if IsManaged(root, path) { assert path == root + path[|root|..]; }
  }

  // ---------- Least recently used first ----------

  /** Stable insertion in front of every younger entry. */
  function InsertByAge(e: Entry, sorted: seq<Entry>): seq<Entry> {
    if sorted == [] || Age(e) <= Age(sorted[0]) then [e] + sorted else [sorted[0]] + InsertByAge(e, sorted[1..])
  }

  function SortByAge(rows: seq<Entry>): seq<Entry> {
    if rows == [] then [] else InsertByAge(rows[0], SortByAge(rows[1..]))
  }

  predicate AgeSorted(s: seq<Entry>) {
    |s| >= 2 ==> Age(s[0]) <= Age(s[1]) && AgeSorted(s[1..])
  }

  lemma {:induction false} AgeSortedAt(s: seq<Entry>, i: nat, j: nat)
    requires AgeSorted(s) && i <= j < |s|
    ensures Age(s[i]) <= Age(s[j])
  {
    if i > 0 {
      AgeSortedAt(s[1..], i - 1, j - 1);
    } else if j > 0 {
      AgeSortedAt(s[1..], 0, j - 1);
    }
  }

  lemma {:induction false} InsertByAgeSorts(e: Entry, sorted: seq<Entry>)
    requires AgeSorted(sorted)
    ensures AgeSorted(InsertByAge(e, sorted))
  {
    if sorted != [] && Age(e) > Age(sorted[0]) {
      InsertByAgeSorts(e, sorted[1..]);
      assert InsertByAge(e, sorted)[1..] == InsertByAge(e, sorted[1..]);
    } else {
      assert InsertByAge(e, sorted)[1..] == sorted;
    }
  }

  lemma {:induction false} InsertByAgeKeeps(e: Entry, sorted: seq<Entry>)
    ensures multiset(InsertByAge(e, sorted)) == multiset(sorted) + multiset{e}
  {
    if sorted != [] && Age(e) > Age(sorted[0]) {
      InsertByAgeKeeps(e, sorted[1..]);
      assert sorted == [sorted[0]] + sorted[1..];
    }
  }

  /** The order is a permutation of the rows, oldest first. */
  lemma {:induction false} SortByAgeSpec(rows: seq<Entry>)
    ensures AgeSorted(SortByAge(rows)) && multiset(SortByAge(rows)) == multiset(rows)
  {
    if rows != [] {
      SortByAgeSpec(rows[1..]);
      InsertByAgeSorts(rows[0], SortByAge(rows[1..]));
      InsertByAgeKeeps(rows[0], SortByAge(rows[1..]));
      assert rows == [rows[0]] + rows[1..];
    }
  }

  // ---------- How many are evicted ----------

  function Total(s: seq<Entry>): nat {
    if s == [] then 0 else s[0].size + Total(s[1..])
  }

  lemma {:induction false} TotalInserted(e: Entry, sorted: seq<Entry>)
    ensures Total(InsertByAge(e, sorted)) == e.size + Total(sorted)
  {
    if sorted != [] && Age(e) > Age(sorted[0]) { TotalInserted(e, sorted[1..]); }
  }

  lemma {:induction false} TotalSorted(rows: seq<Entry>)
    ensures Total(SortByAge(rows)) == Total(rows)
  {
    if rows != [] {
      TotalSorted(rows[1..]);
      TotalInserted(rows[0], SortByAge(rows[1..]));
    }
  }

  function Evicted(order: seq<Entry>, maxBytes: int): (k: nat)
    ensures k <= |order|
  {
    if order == [] || Total(order) <= maxBytes then 0 else 1 + Evicted(order[1..], maxBytes)
  }

  /** What is evicted is the shortest prefix whose removal meets the quota; everything, if nothing does. */
  lemma {:induction false} ShortestPrefix(order: seq<Entry>, maxBytes: int)
    ensures var k := Evicted(order, maxBytes);
            && (Total(order[k..]) <= maxBytes || (k == |order| && maxBytes < 0))
            && forall j :: 0 <= j < k ==> Total(order[j..]) > maxBytes
  {
    var k := Evicted(order, maxBytes);
    assert order[0..] == order;
    if k > 0 {
      ShortestPrefix(order[1..], maxBytes);
      assert order[k..] == order[1..][k - 1..];
      forall j | 0 < j < k ensures Total(order[j..]) > maxBytes {
        assert order[j..] == order[1..][j - 1..];
      }
    }
  }

  // ---------- The index ----------

  type Index = map<Id, Entry>

  ghost predicate WellFormed(index: Index) {
    forall id :: id in index ==> index[id].id == id
  }

  predicate DistinctIds(rows: seq<Entry>) {
    rows != [] ==> (forall e :: e in rows[1..] ==> e.id != rows[0].id) && DistinctIds(rows[1..])
  }

  lemma {:induction false} DistinctTail(s: seq<Entry>, k: nat)
    requires DistinctIds(s) && k <= |s|
    ensures DistinctIds(s[k..])
  {
    if k == 0 {
      assert s[0..] == s;
    } else {
      DistinctTail(s[1..], k - 1);
      assert s[k..] == s[1..][k - 1..];
    }
  }

  lemma {:induction false} DistinctAt(s: seq<Entry>, i: nat, j: nat)
    requires DistinctIds(s) && i < j < |s|
    ensures s[i].id != s[j].id
  {
    if i == 0 {
      assert s[j] in s[1..];
    } else {
      DistinctAt(s[1..], i - 1, j - 1);
    }
  }

  /** Of a listing cut in two, an id tells in which part its entry is. */
  lemma DistinctSplit(s: seq<Entry>, k: nat, e: Entry)
    requires DistinctIds(s) && k <= |s| && e in s
    ensures e in s[k..] <==> e.id !in Ids(s[..k])
  {
    var j :| 0 <= j < |s| && s[j] == e;
    if j < k {
      assert e in s[..k];
      if i :| k <= i < |s| && s[i] == e { DistinctAt(s, j, i); }
    } else {
      assert e == s[k..][j - k];
      if g :| g in s[..k] && g.id == e.id {
        var i :| 0 <= i < k && s[i] == g;
        DistinctAt(s, i, j);
      }
    }
  }

  /** The rows a query with the filter may return, in any order. */
  ghost predicate Lists(rows: seq<Entry>, index: Index, profile: int, f: Filter) {
    && DistinctIds(rows)
    && forall e :: e in rows <==> e.id in index && index[e.id] == e && Matches(f, profile, e)
  }

  function Ids(s: seq<Entry>): set<Id> {
    set e | e in s :: e.id
  }

  function ManagedPaths(root: Path, s: seq<Entry>): set<Path> {
    set e | e in s && IsManaged(root, e.path) :: e.path
  }

  lemma PrefixGrows(root: Path, s: seq<Entry>, k: nat)
    requires k < |s|
    ensures Ids(s[..k + 1]) == Ids(s[..k]) + {s[k].id}
    ensures ManagedPaths(root, s[..k + 1]) == ManagedPaths(root, s[..k]) + if IsManaged(root, s[k].path) then {s[k].path} else {}
  {
    assert s[..k + 1] == s[..k] + [s[k]];
  }

  /** One more entry has to go, or none. */
  lemma EvictStep(order: seq<Entry>, k: nat, maxBytes: int)
    requires k < |order|
    ensures Total(order[k..]) == order[k].size + Total(order[k + 1..])
    ensures Evicted(order[k..], maxBytes) == if Total(order[k..]) <= maxBytes then 0 else 1 + Evicted(order[k + 1..], maxBytes)
  {
    assert order[k..][1..] == order[k + 1..];
  }

  function WithoutIds(index: Index, ids: set<Id>): Index {
    map id | id in index && id !in ids :: index[id]
  }

  /** Writing the entries one after the other; a later one replaces an earlier one of the same id. */
  function Stored(index: Index, entries: seq<Entry>): Index
    decreases |entries|
  {
    if entries == [] then index else Stored(index[entries[0].id := entries[0]], entries[1..])
  }

  predicate IsExpired(e: Entry, cutoff: real) {
    e.expires.Some? && e.expires.value <= cutoff
  }

  function Unexpired(index: Index, cutoff: real): Index {
    map id | id in index && !IsExpired(index[id], cutoff) :: index[id]
  }

  /** Dropping the ids of all expired rows leaves the entries that are not expired. */
  lemma ExpiredAreDropped(index: Index, rows: seq<Entry>, cutoff: real)
    requires WellFormed(index)
    requires forall e :: e in rows <==> e.id in index && index[e.id] == e && IsExpired(e, cutoff)
    ensures WithoutIds(index, Ids(rows)) == Unexpired(index, cutoff)
  {
    forall id | id in index ensures id in Ids(rows) <==> IsExpired(index[id], cutoff) {
      assert IsExpired(index[id], cutoff) ==> index[id] in rows;
    }
  }

  class Cache {
    const root: Path
    const profile: int
    var index: Index
    var files: set<Path>

    constructor (root: Path, profile: int, files: set<Path>)
      ensures this.root == root && this.profile == profile && index == map[] && this.files == files
    {
      this.root := root;
      this.profile := profile;
      this.index := map[];
      this.files := files;
    }

    method RegisterMany(entries: seq<Entry>)
      requires WellFormed(index)
      modifies this`index
      ensures index == Stored(old(index), entries) && WellFormed(index)
    {
      if entries == [] {
        return;
      }
      for k := 0 to |entries|
        invariant Stored(old(index), entries) == Stored(index, entries[k..]) && WellFormed(index)
      {
        assert entries[k..][1..] == entries[k + 1..];
        index := index[entries[k].id := entries[k]];
      }
    }

    method Touch(id: Id, now: real)
      requires WellFormed(index)
      modifies this`index
      ensures index == if id in old(index) then old(index)[id := old(index)[id].(accessed := Some(now))] else old(index)
      ensures WellFormed(index)
    {
      if id in index {
        index := index[id := index[id].(accessed := Some(now))];
      }
    }

    /** Entries of every profile whose time has come are dropped, and their files below the root. */
    method CleanupExpired(rows: seq<Entry>, cutoff: real) returns (removed: nat)
      requires WellFormed(index) && DistinctIds(rows)
      requires forall e :: e in rows <==> e.id in index && index[e.id] == e && IsExpired(e, cutoff)
      modifies this`index, this`files
      ensures index == Unexpired(old(index), cutoff)
      ensures forall id :: id in old(index) ==>
                (id !in index <==> old(index)[id].expires.Some? && old(index)[id].expires.value <= cutoff)
      ensures files == old(files) - ManagedPaths(root, rows)
      ensures removed == |rows|
    {
      removed := 0;
      for k := 0 to |rows|
        invariant removed == k
        invariant index == WithoutIds(old(index), Ids(rows[..k]))
        invariant files == old(files) - ManagedPaths(root, rows[..k])
      {
        PrefixGrows(root, rows, k);
        if IsManaged(root, rows[k].path) {
          files := files - {rows[k].path};
        }
        index := WithoutIds(index, {rows[k].id});
        removed := removed + 1;
      }
      assert rows[..|rows|] == rows;
      ExpiredAreDropped(old(index), rows, cutoff);
    }

    /** Unlinks what has to go, oldest first, and collects the ids. */
    method UnlinkOldest(order: seq<Entry>, maxBytes: int) returns (removed: nat, deleted: set<Id>)
      modifies this`files
      ensures removed == Evicted(order, maxBytes) && deleted == Ids(order[..removed])
      ensures files == old(files) - ManagedPaths(root, order[..removed])
    {
      removed := 0;
      deleted := {};
      assert order[0..] == order;
      var total := Total(order);
      while removed < |order|
        invariant 0 <= removed <= |order| && total == Total(order[removed..])
        invariant Evicted(order, maxBytes) == removed + Evicted(order[removed..], maxBytes)
        invariant deleted == Ids(order[..removed])
        invariant files == old(files) - ManagedPaths(root, order[..removed])
      {
        var entry := order[removed];
        EvictStep(order, removed, maxBytes);
        PrefixGrows(root, order, removed);
        if total <= maxBytes {
          break;
        }
        if IsManaged(root, entry.path) {
          files := files - {entry.path};
        }
        total := total - entry.size;
        deleted := deleted + {entry.id};
        removed := removed + 1;
      }
    }

    /** `rows` is what the query returned. */
    method CleanupQuota(rows: seq<Entry>, f: Filter, maxBytes: int) returns (removed: nat)
      requires WellFormed(index) && Lists(rows, index, profile, f)
      modifies this`index, this`files
      ensures removed == Evicted(SortByAge(rows), maxBytes)
      ensures index == WithoutIds(old(index), Ids(SortByAge(rows)[..removed]))
      ensures files == old(files) - ManagedPaths(root, SortByAge(rows)[..removed])
      ensures forall p :: p in old(files) ==>
                (p !in files <==> (exists below: seq<int> :: p == root + below)
                                  && exists e :: e in SortByAge(rows)[..removed] && e.path == p)
    {
      var order := SortByAge(rows);
      forall p ensures IsManaged(root, p) <==> exists below: seq<int> :: p == root + below { ManagedIsBelow(root, p); }
      TotalSorted(rows);
      if Total(rows) <= maxBytes {
        assert order[..0] == [];
        return 0;
      }
      var deleted;
      removed, deleted := UnlinkOldest(order, maxBytes);
      index := WithoutIds(index, deleted);
    }
  }

  // ---------- What eviction guarantees ----------

  lemma EvictedAreListed(rows: seq<Entry>, k: nat, id: Id)
    requires k <= |SortByAge(rows)| && id in Ids(SortByAge(rows)[..k])
    ensures exists e :: e in rows && e.id == id
  {
    SortByAgeMembers(rows);
    var e :| e in SortByAge(rows)[..k] && e.id == id;
    assert e in SortByAge(rows);
  }

  lemma {:induction false} InsertByAgeMembers(e: Entry, sorted: seq<Entry>)
    ensures forall g :: g in InsertByAge(e, sorted) <==> g == e || g in sorted
    ensures DistinctIds(sorted) && (forall g :: g in sorted ==> g.id != e.id) ==> DistinctIds(InsertByAge(e, sorted))
  {
    var all := InsertByAge(e, sorted);
    if sorted != [] && Age(e) > Age(sorted[0]) {
      InsertByAgeMembers(e, sorted[1..]);
      assert all[1..] == InsertByAge(e, sorted[1..]);
    } else {
      assert all[1..] == sorted;
    }
  }

  lemma {:induction false} SortByAgeMembers(rows: seq<Entry>)
    ensures forall g :: g in SortByAge(rows) <==> g in rows
    ensures DistinctIds(rows) ==> DistinctIds(SortByAge(rows))
  {
    if rows != [] {
      SortByAgeMembers(rows[1..]);
      InsertByAgeMembers(rows[0], SortByAge(rows[1..]));
    }
  }

  /**
    After the cleanup the entries the filter selects are the rest of the order, within the quota
    unless that is negative; all other entries are as they were.
   */
  lemma QuotaIsMet(rows: seq<Entry>, index: Index, profile: int, f: Filter, maxBytes: int)
    requires WellFormed(index) && Lists(rows, index, profile, f)
    ensures var order, k := SortByAge(rows), Evicted(SortByAge(rows), maxBytes);
            var after := WithoutIds(index, Ids(order[..k]));
            && Lists(order[k..], after, profile, f)
            && (maxBytes >= 0 ==> Total(order[k..]) <= maxBytes)
            && (forall id :: id in index && !Matches(f, profile, index[id]) ==> id in after && after[id] == index[id])
  {
    var order, k := SortByAge(rows), Evicted(SortByAge(rows), maxBytes);
    var after := WithoutIds(index, Ids(order[..k]));
    SortByAgeMembers(rows);
    ShortestPrefix(order, maxBytes);
    DistinctTail(order, k);
    forall e ensures e in order[k..] <==> e.id in after && after[e.id] == e && Matches(f, profile, e) {
      if e in order { DistinctSplit(order, k, e); }
    }
    forall id | id in index && !Matches(f, profile, index[id]) ensures id in after {
      if id in Ids(order[..k]) { EvictedAreListed(rows, k, id); }
    }
  }

  /** Whatever is evicted was used no later than anything the filter selects that is kept. */
  lemma OldestGoFirst(rows: seq<Entry>, maxBytes: int, gone: Entry, kept: Entry)
    requires var order, k := SortByAge(rows), Evicted(SortByAge(rows), maxBytes); gone in order[..k] && kept in order[k..]
    ensures Age(gone) <= Age(kept)
  {
    var order, k := SortByAge(rows), Evicted(SortByAge(rows), maxBytes);
    SortByAgeSpec(rows);
    var i :| 0 <= i < k && order[i] == gone;
    var j :| k <= j < |order| && order[j] == kept;
    AgeSortedAt(order, i, j);
  }

  /** The most recently used entry goes only when every entry has to. */
  lemma LatestGoesLast(rows: seq<Entry>, maxBytes: int, latest: Entry)
    requires latest in rows && forall e :: e in rows && e != latest ==> Age(e) < Age(latest)
    requires DistinctIds(rows)
    ensures var order, k := SortByAge(rows), Evicted(SortByAge(rows), maxBytes);
            latest in order[..k] <==> k == |rows|
  {
    var order, k := SortByAge(rows), Evicted(SortByAge(rows), maxBytes);
    SortByAgeMembers(rows);
    SortByAgeSpec(rows);
    assert |order| == |multiset(order)| == |multiset(rows)| == |rows|;
    if k == |order| {
      assert order[..k] == order;
    } else if latest in order[..k] {
      var next := order[k];
      assert next in order[k..] && next in order;
      DistinctSplit(order, k, latest);
      OldestGoFirst(rows, maxBytes, latest, next);
    }
  }

  /** An entry just touched, later than any time on record, goes only if every listed entry does. */
  lemma TouchedGoesLast(index: Index, id: Id, now: real, rows: seq<Entry>, profile: int, f: Filter, maxBytes: int)
    requires WellFormed(index) && id in index && now > 0.0
    requires forall k :: k in index ==> index[k].created < now && (index[k].accessed.Some? ==> index[k].accessed.value < now)
    requires var touched := index[id].(accessed := Some(now));
             Lists(rows, index[id := touched], profile, f) && touched in rows
    ensures var order, k := SortByAge(rows), Evicted(SortByAge(rows), maxBytes);
            index[id].(accessed := Some(now)) in order[..k] <==> k == |rows|
  {
    var touched := index[id].(accessed := Some(now));
    forall e | e in rows && e != touched ensures Age(e) < Age(touched) {
      assert e.id != id && index[e.id] == e;
    }
    LatestGoesLast(rows, maxBytes, touched);
  }

  /** Not used since it was registered. */
  predicate Unused(e: Entry) {
    e.accessed == None || e.accessed == Some(e.created)
  }

  /** Of entries not used since they were registered, the one registered first goes first. */
  lemma FirstRegisteredGoesFirst(rows: seq<Entry>, maxBytes: int, older: Entry, younger: Entry)
    requires older in rows && younger in rows && Unused(older) && Unused(younger) && older.created < younger.created
    ensures var gone := SortByAge(rows)[..Evicted(SortByAge(rows), maxBytes)]; younger in gone ==> older in gone
  {
    var order, k := SortByAge(rows), Evicted(SortByAge(rows), maxBytes);
    SortByAgeMembers(rows);
    assert order == order[..k] + order[k..];
    if younger in order[..k] && older in order[k..] { OldestGoFirst(rows, maxBytes, younger, older); }
  }

  /** An entry of another profile or scope, or another category, workspace or session than asked for, stays as it is. */
  lemma OthersStay(rows: seq<Entry>, index: Index, profile: int, f: Filter, maxBytes: int, id: Id)
    requires WellFormed(index) && Lists(rows, index, profile, f) && id in index
    requires var e := index[id];
             || e.profile != profile || e.scope != f.scope
             || (f.category.Some? && e.category != f.category.value)
             || (f.workspace.Some? && e.workspace != f.workspace.value)
             || (f.session.Some? && e.session != f.session.value)
    ensures var after := WithoutIds(index, Ids(SortByAge(rows)[..Evicted(SortByAge(rows), maxBytes)]));
            id in after && after[id] == index[id]
  {
    QuotaIsMet(rows, index, profile, f, maxBytes);
  }

  /** Every other entry is listed, so it counts towards the quota. */
  lemma SelectedAreListed(rows: seq<Entry>, index: Index, profile: int, f: Filter, id: Id)
    requires WellFormed(index) && Lists(rows, index, profile, f) && id in index
    requires index[id].profile == profile && index[id].scope == f.scope
    requires f.category in {None, Some(index[id].category)} && f.workspace in {None, Some(index[id].workspace)}
    requires f.session in {None, Some(index[id].session)}
    ensures index[id] in SortByAge(rows)
  {
    SortByAgeMembers(rows);
  }

  // ---------- Files that entries share ----------

  lemma {:induction false} TotalSplit(s: seq<Entry>, i: nat, j: nat)
    requires i <= j <= |s|
    ensures Total(s[i..]) == Total(s[i..j]) + Total(s[j..])
    decreases j - i
  {
    if i < j {
      TotalSplit(s, i + 1, j);
      assert s[i..][1..] == s[i + 1..] && s[i..j][1..] == s[i + 1..j];
    } else {
      assert s[i..j] == [];
    }
  }

  /** The entry at `i` goes exactly if what is left from there on is over the quota. */
  lemma {:induction false} EvictedIff(order: seq<Entry>, maxBytes: int, i: nat)
    requires i < |order|
    ensures i < Evicted(order, maxBytes) <==> Total(order[i..]) > maxBytes
  {
    TotalSplit(order, 0, i);
    assert order[0..] == order;
    if Total(order) > maxBytes && i > 0 {
      EvictedIff(order[1..], maxBytes, i - 1);
      assert order[1..][i - 1..] == order[i..];
    }
  }

  ghost predicate Separates(order: seq<Entry>, maxBytes: int, i: nat, j: nat) {
    0 <= maxBytes && i < Evicted(order, maxBytes) <= j
  }

  /** Some quota evicts position `i` and nothing from `j` on exactly if the entries between have any size. */
  lemma QuotaSeparates(order: seq<Entry>, i: nat, j: nat)
    requires i < j <= |order|
    ensures (exists maxBytes :: Separates(order, maxBytes, i, j)) <==> Total(order[i..j]) > 0
  {
    TotalSplit(order, i, j);
    forall maxBytes ensures Separates(order, maxBytes, i, j) <==> Total(order[j..]) <= maxBytes < Total(order[i..]) {
      EvictedIff(order, maxBytes, i);
      if j < |order| {
        EvictedIff(order, maxBytes, j);
      } else {
        assert order[j..] == [];
      }
    }
    if Total(order[i..j]) > 0 { assert Separates(order, Total(order[j..]), i, j); }
  }

  /** Under this quota the entry at `j` is kept (or, at the end, any entry outside the filter), and the path is unlinked. */
  ghost predicate LosesFile(root: Path, order: seq<Entry>, maxBytes: int, j: nat, path: Path) {
    && 0 <= maxBytes && Evicted(order, maxBytes) <= j
    && path in ManagedPaths(root, order[..Evicted(order, maxBytes)])
  }

  /**
    An entry that is kept loses its file under some quota exactly if the path is below the root and
    an entry before it in the age order has the same path, with some size from there up to it.
   */
  lemma SharedPathLosesFile(root: Path, order: seq<Entry>, j: nat, path: Path)
    requires j <= |order|
    ensures (exists maxBytes :: LosesFile(root, order, maxBytes, j, path))
            <==> IsManaged(root, path) && exists i: nat :: i < j && order[i].path == path && Total(order[i..j]) > 0
  {
    if maxBytes :| LosesFile(root, order, maxBytes, j, path) {
      var k := Evicted(order, maxBytes);
      var e :| e in order[..k] && IsManaged(root, e.path) && e.path == path;
      var i: nat :| i < k && order[i] == e;
      assert Separates(order, maxBytes, i, j);
      QuotaSeparates(order, i, j);
    }
    if i: nat :| IsManaged(root, path) && i < j && order[i].path == path && Total(order[i..j]) > 0 {
      QuotaSeparates(order, i, j);
      var maxBytes :| Separates(order, maxBytes, i, j);
      assert order[i] in order[..Evicted(order, maxBytes)];
      assert LosesFile(root, order, maxBytes, j, path);
    }
  }

  /** The smallest case: two entries of one file, registered under different ids; the older goes, the younger loses it. */
  lemma TwoEntriesOneFile(root: Path, older: Entry, younger: Entry)
    requires older.path == younger.path && IsManaged(root, older.path)
    requires Age(older) < Age(younger) && older.size > 0
    ensures SortByAge([younger, older]) == [older, younger]
    ensures Evicted([older, younger], younger.size) == 1 && LosesFile(root, [older, younger], younger.size, 1, younger.path)
  {
    var order := [older, younger];
    assert order[1..] == [younger] && order[..1] == [older];
    assert [younger, older][1..] == [older] && [older][1..] == [];
    assert SortByAge([older]) == InsertByAge(older, []) == [older];
    assert InsertByAge(younger, [older]) == [older] + InsertByAge(younger, []) == order;
    assert Total([younger]) == younger.size && Total(order) == older.size + younger.size;
    assert older in order[..1];
  }

  lemma {:induction false} StoredElsewhere(index: Index, entries: seq<Entry>, id: Id)
    requires forall e :: e in entries ==> e.id != id
    ensures id in Stored(index, entries) <==> id in index
    ensures id in index ==> Stored(index, entries)[id] == index[id]
    decreases |entries|
  {
    if entries != [] { StoredElsewhere(index[entries[0].id := entries[0]], entries[1..], id); }
  }

  /** Registering: the last entry written for an id is the one that counts. */
  lemma {:induction false} LastRegisteredWins(index: Index, entries: seq<Entry>, k: nat)
    requires k < |entries| && forall e :: e in entries[k + 1..] ==> e.id != entries[k].id
    ensures entries[k].id in Stored(index, entries) && Stored(index, entries)[entries[k].id] == entries[k]
    decreases |entries|
  {
    var next := index[entries[0].id := entries[0]];
    if k == 0 {
      StoredElsewhere(next, entries[1..], entries[0].id);
    } else {
      assert entries[1..][k..] == entries[k + 1..];
      LastRegisteredWins(next, entries[1..], k - 1);
    }
  }
}
