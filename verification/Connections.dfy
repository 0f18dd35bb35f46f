/**
 Two readers of the connection records on a target: the Git adapter takes the
 highest revision of all, the dashboard the latest revision of each connection and
 then the active one.
 */
module Connections {
  import opened Options
  import opened Text

  datatype Connection = Connection(id: string, revision: nat, active: bool, effective: string)

  /** A file below the connections directory: where it lies, and the sound record it holds, if any. */
  datatype File = File(id: string, revision: nat, named: bool, record: Option<Connection>)

  /** A record is taken only from a file that carries its own id and revision in its path. */
  predicate Sound(f: File) {
    f.named && f.record.Some? && f.record.value.id == f.id && f.record.value.revision == f.revision
  }

  function PathKey(f: File): string {
    f.id + "/rev-" + Fixed(f.revision, 12)
  }

  datatype Reading = Invalid | Chosen(connection: Option<Connection>)

  ghost predicate AllSound(fs: seq<File>) {
    forall i :: 0 <= i < |fs| ==> Sound(fs[i])
  }

  // ----- The highest revision of all -----

  /** A file with the highest revision, and the first path of those with that revision. */
  ghost predicate IsHighest(fs: seq<File>, f: File) {
    && f in fs && f.record.Some?
    && forall g :: g in fs ==> g.revision < f.revision || (g.revision == f.revision && LessEq(PathKey(f), PathKey(g)))
  }

  ghost predicate GitChoice(fs: seq<File>, r: Reading) {
    match r
    case Invalid => !AllSound(fs)
    case Chosen(None) => fs == []
    case Chosen(Some(c)) => AllSound(fs) && exists f :: IsHighest(fs, f) && f.record == Some(c)
  }

  lemma HighestStep(fs: seq<File>, k: nat, f: File)
    requires k < |fs| && SortedBy(fs, PathKey) && IsHighest(fs[..k], f)
    ensures fs[k].revision <= f.revision ==> IsHighest(fs[..k + 1], f)
    ensures fs[k].revision > f.revision && fs[k].record.Some? ==> IsHighest(fs[..k + 1], fs[k])
  {
    hide PathKey;
    assert fs[..k + 1] == fs[..k] + [fs[k]];
    var j :| 0 <= j < k && fs[..k][j] == f;
    assert LessEq(PathKey(fs[j]), PathKey(fs[k]));
    LessEqReflexive(PathKey(fs[k]));
  }

  lemma SortedFiles(listing: seq<File>)
    ensures var fs := SortBy(listing, PathKey);
            && SortedBy(fs, PathKey) && |fs| == |listing| && (AllSound(fs) <==> AllSound(listing))
            && forall f :: IsHighest(fs, f) <==> IsHighest(listing, f)
  {
    hide LessEq, PathKey, SortBy, SortedBy;
    var fs := SortBy(listing, PathKey);
    SortByKeeps(listing, PathKey);
    assert |fs| == |multiset(fs)| == |multiset(listing)| == |listing|;
    forall f ensures f in fs <==> f in listing { assert f in fs <==> f in multiset(listing); }
    SoundMembers(fs);
    SoundMembers(listing);
  }

  lemma SoundMembers(fs: seq<File>)
    ensures AllSound(fs) <==> forall f :: f in fs ==> Sound(f)
  {
    if forall f :: f in fs ==> Sound(f) {
      forall i | 0 <= i < |fs| ensures Sound(fs[i]) { assert fs[i] in fs; }
    }
  }

  method ReadLatestConnection(listing: seq<File>) returns (r: Reading)
    ensures GitChoice(listing, r)
  {
    hide LessEq, PathKey, SortBy, SortedBy, IsHighest;
    var fs := SortBy(listing, PathKey);
    SortedFiles(listing);
    var latest: Option<Connection> := None;
    ghost var from := 0;
    var k := 0;
    while k < |fs|
      invariant 0 <= k <= |fs|
      invariant AllSound(fs[..k])
      invariant latest.None? <==> k == 0
      invariant k > 0 ==> 0 <= from < k && fs[from].record == latest && IsHighest(fs[..k], fs[from])
    {
      if !Sound(fs[k]) {
        return Invalid;
      }
      if k == 0 { FirstIsHighest(fs); } else { HighestStep(fs, k, fs[from]); }
      assert fs[..k + 1] == fs[..k] + [fs[k]];
      if latest.None? || fs[k].record.value.revision > latest.value.revision {
        latest, from := fs[k].record, k;
      }
      k := k + 1;
    }
    assert fs[..k] == fs;
    r := Chosen(latest);
  }

  lemma FirstIsHighest(fs: seq<File>)
    requires fs != [] && fs[0].record.Some?
    ensures IsHighest(fs[..1], fs[0])
  {
    LessEqReflexive(PathKey(fs[0]));
  }

  lemma LessEqReflexive(s: string)
    ensures LessEq(s, s)
  {
    LessIrreflexive(s);
  }

  // ----- The latest of each connection, then the active one -----

  /** The later of two by effective time, ties by id. */
  predicate Later(a: Connection, b: Connection, cmp: Collation) {
    cmp(a.effective, b.effective) > 0 || (cmp(a.effective, b.effective) == 0 && cmp(a.id, b.id) > 0)
  }

  lemma StrictlyAbove(a: string, b: string, c: string, cmp: Collation)
    requires Orders(cmp) && cmp(a, b) >= 0 && cmp(b, c) >= 0
    ensures cmp(a, c) >= 0 && (cmp(a, b) > 0 || cmp(b, c) > 0 ==> cmp(a, c) > 0)
  {
    assert cmp(c, a) >= 0 ==> cmp(b, a) >= 0 && cmp(c, b) >= 0;
  }

  lemma LaterTransitive(a: Connection, b: Connection, c: Connection, cmp: Collation)
    requires Orders(cmp) && Later(a, b, cmp) && Later(b, c, cmp)
    ensures Later(a, c, cmp)
  {
    StrictlyAbove(a.effective, b.effective, c.effective, cmp);
    if cmp(a.effective, b.effective) == 0 && cmp(b.effective, c.effective) == 0 {
      StrictlyAbove(c.effective, b.effective, a.effective, cmp);
      StrictlyAbove(a.id, b.id, c.id, cmp);
    }
  }

  lemma LaterAsymmetric(a: Connection, b: Connection, cmp: Collation)
    requires Orders(cmp) && Later(a, b, cmp)
    ensures !Later(b, a, cmp)
  {
  }

  ghost predicate IsRecord(fs: seq<File>, c: Connection) {
    exists f :: f in fs && f.record == Some(c)
  }

  /** The latest revision of its connection. */
  ghost predicate IsCandidate(fs: seq<File>, c: Connection) {
    IsRecord(fs, c) && forall f :: f in fs && f.id == c.id ==> f.revision <= c.revision
  }

  ghost predicate AnyActive(fs: seq<File>) {
    exists c :: IsCandidate(fs, c) && c.active
  }

  /** Among the active candidates, or among all when none is active. */
  ghost predicate InPool(fs: seq<File>, c: Connection) {
    IsCandidate(fs, c) && (AnyActive(fs) ==> c.active)
  }

  ghost predicate LocalChoice(fs: seq<File>, r: Reading, cmp: Collation) {
    match r
    case Invalid => !AllSound(fs)
    case Chosen(None) => fs == []
    case Chosen(Some(c)) => AllSound(fs) && InPool(fs, c) && forall d :: InPool(fs, d) ==> !Later(d, c, cmp)
  }

  /** No connection has two record files of one revision. */
  ghost predicate DistinctFiles(fs: seq<File>) {
    forall i, j ::
      0 <= i < j < |fs| && fs[i].named && fs[j].named ==> !(fs[i].id == fs[j].id && fs[i].revision == fs[j].revision)
  }

  /** The map of latest records: each key holds the candidate of that connection. */
  ghost predicate Tracks(fs: seq<File>, latest: map<string, Connection>) {
    && (forall f :: f in fs ==> f.id in latest)
    && (forall id :: id in latest ==> latest[id].id == id && IsCandidate(fs, latest[id]))
  }

  lemma CandidateStays(fs: seq<File>, f: File, d: Connection)
    requires IsCandidate(fs, d) && (f.id == d.id ==> f.revision <= d.revision)
    ensures IsCandidate(fs + [f], d)
  {
    var g :| g in fs && g.record == Some(d);
    assert g in fs + [f];
  }

  lemma CandidateEnters(fs: seq<File>, f: File)
    requires Sound(f) && forall g :: g in fs && g.id == f.id ==> g.revision <= f.revision
    ensures IsCandidate(fs + [f], f.record.value)
  {
    assert f in fs + [f];
  }

  function Noted(latest: map<string, Connection>, f: File): map<string, Connection>
    requires Sound(f)
  {
    if f.id !in latest || f.record.value.revision > latest[f.id].revision then latest[f.id := f.record.value]
    else latest
  }

  lemma HighestOfItsId(fs: seq<File>, latest: map<string, Connection>, f: File, g: File)
    requires Tracks(fs, latest) && g in fs && g.id == f.id
    ensures f.id in latest && g.revision <= latest[f.id].revision
  {
    assert IsCandidate(fs, latest[g.id]);
  }

  lemma NotedIsCandidate(fs: seq<File>, latest: map<string, Connection>, f: File, id: string)
    requires Tracks(fs, latest) && Sound(f) && id in Noted(latest, f)
    ensures Noted(latest, f)[id].id == id && IsCandidate(fs + [f], Noted(latest, f)[id])
  {
    hide IsCandidate;
    var updates := f.id !in latest || f.record.value.revision > latest[f.id].revision;
    assert id in latest ==> latest[id].id == id && IsCandidate(fs, latest[id]);
    if updates && id == f.id {
      forall g | g in fs && g.id == f.id ensures g.revision <= f.revision { HighestOfItsId(fs, latest, f, g); }
      CandidateEnters(fs, f);
    } else {
      hide Tracks;
      CandidateStays(fs, f, latest[id]);
    }
  }

  lemma TracksStep(fs: seq<File>, latest: map<string, Connection>, f: File)
    requires Tracks(fs, latest) && Sound(f)
    ensures Tracks(fs + [f], Noted(latest, f))
  {
    hide IsCandidate;
    forall g | g in fs + [f] ensures g.id in Noted(latest, f) { if g in fs { assert g.id in latest; } }
    forall id | id in Noted(latest, f)
      ensures Noted(latest, f)[id].id == id && IsCandidate(fs + [f], Noted(latest, f)[id])
    {
      NotedIsCandidate(fs, latest, f, id);
    }
  }

  /** With one file for each id and revision, the candidates are exactly the values of the map. */
  lemma CandidatesAreValues(fs: seq<File>, latest: map<string, Connection>, c: Connection)
    requires Tracks(fs, latest) && AllSound(fs) && DistinctFiles(fs)
    ensures IsCandidate(fs, c) <==> c.id in latest && latest[c.id] == c
  {
    if IsCandidate(fs, c) {
      var f :| f in fs && f.record == Some(c);
      assert Sound(f);
      var d := latest[c.id];
      var g :| g in fs && g.record == Some(d);
      assert Sound(g);
      assert g.revision == f.revision && g.id == f.id;
      var i :| 0 <= i < |fs| && fs[i] == f;
      var j :| 0 <= j < |fs| && fs[j] == g;
      assert i == j;
    }
  }

  /** The first of the pool in descending order; of equals the one that stands first. */
  method Latest(pool: seq<Connection>, cmp: Collation) returns (c: Connection)
    requires pool != [] && Orders(cmp)
    ensures c in pool && forall d :: d in pool ==> !Later(d, c, cmp)
  {
    c := pool[0];
    ghost var at := 0;
    var k := 1;
    while k < |pool|
      invariant 1 <= k <= |pool| && 0 <= at < k && pool[at] == c
      invariant forall i :: 0 <= i < k ==> !Later(pool[i], c, cmp)
    {
      if Later(pool[k], c, cmp) {
        forall i | 0 <= i <= k ensures !Later(pool[i], pool[k], cmp) {
          if Later(pool[i], pool[k], cmp) {
            LaterTransitive(pool[i], pool[k], c, cmp);
            LaterAsymmetric(pool[i], pool[k], cmp);
          }
        }
        c, at := pool[k], k;
      }
      k := k + 1;
    }
  }

  /** The one active candidate, or the latest of the pool. */
  lemma ChosenIsLocal(fs: seq<File>, cs: seq<Connection>, best: Connection, cmp: Collation)
    requires AllSound(fs) && (forall c :: c in cs <==> IsCandidate(fs, c))
    requires var active := Filter(cs, IsActive);
             var pool := if |active| > 0 then active else cs;
             best in pool && forall d :: d in pool ==> !Later(d, best, cmp)
    ensures LocalChoice(fs, Chosen(Some(best)), cmp)
  {
    hide IsCandidate, Later, Sound;
    var active := Filter(cs, IsActive);
    forall c ensures c in active <==> IsCandidate(fs, c) && c.active { FilterCounts(cs, IsActive, c); }
    assert AnyActive(fs) <==> |active| > 0 by {
      if |active| > 0 { assert active[0] in active; }
    }
  }

  method ReadLocalConnection(listing: seq<File>, cmp: Collation) returns (r: Reading)
    requires Orders(cmp) && DistinctFiles(listing)
    ensures LocalChoice(listing, r, cmp)
  {
    TracksNothing();
    hide Tracks, Later, Orders, DistinctFiles, IsCandidate, DistinctBy, InPool, Filter;
    var latest: map<string, Connection> := map[];
    var keys: seq<string> := [];
    var k := 0;
    assert listing[..0] == [];
    while k < |listing|
      invariant 0 <= k <= |listing|
      invariant AllSound(listing[..k]) && Tracks(listing[..k], latest)
      invariant DistinctBy(keys, Same) && forall id :: id in keys <==> id in latest
    {
      var f := listing[k];
      if !Sound(f) {
        return Invalid;
      }
      assert listing[..k + 1] == listing[..k] + [f];
      TracksStep(listing[..k], latest, f);
      var previous := f.id in latest;
      if !previous {
        NewKey(keys, f.id);
        keys := keys + [f.id];
      }
      if !previous || f.record.value.revision > latest[f.id].revision {
        latest := latest[f.id := f.record.value];
      }
      k := k + 1;
    }
    assert listing[..k] == listing;
    var candidates := ValuesOf(keys, latest);
    PoolFacts(listing, latest, keys);
    var chosen := Choose(candidates, cmp);
    if chosen.Some? { ChosenIsLocal(listing, candidates, chosen.value, cmp); }
    r := Chosen(chosen);
  }

  /** The one active candidate, or the latest active one, or the latest of all. */
  method Choose(candidates: seq<Connection>, cmp: Collation) returns (r: Option<Connection>)
    requires Orders(cmp)
    ensures r.None? <==> candidates == []
    ensures r.Some? ==>
              var active := Filter(candidates, IsActive);
              var pool := if |active| > 0 then active else candidates;
              r.value in pool && forall d :: d in pool ==> !Later(d, r.value, cmp)
  {
    hide Later, Orders;
    var active := Filter(candidates, IsActive);
    if |active| > 0 { FilterCounts(candidates, IsActive, active[0]); }
    hide Filter;
    if |active| == 1 {
      NeverAfterItself(active[0], cmp);
      return Some(active[0]);
    }
    var pool := if |active| > 1 then active else candidates;
    if |pool| == 0 {
      return None;
    }
    var best := Latest(pool, cmp);
    r := Some(best);
  }

  lemma NeverAfterItself(c: Connection, cmp: Collation)
    requires Orders(cmp)
    ensures !Later(c, c, cmp)
  {
  }

  lemma TracksNothing()
    ensures Tracks([], map[]) && DistinctBy([], Same)
  {
  }

  lemma NewKey(keys: seq<string>, id: string)
    requires DistinctBy(keys, Same) && id !in keys
    ensures DistinctBy(keys + [id], Same)
  {
  }

  function ValuesOf(keys: seq<string>, latest: map<string, Connection>): seq<Connection>
    requires forall id :: id in keys ==> id in latest
  {
    if keys == [] then [] else ValuesOf(keys[..|keys| - 1], latest) + [latest[keys[|keys| - 1]]]
  }

  function ConnectionId(c: Connection): string {
    c.id
  }

  predicate IsActive(c: Connection) {
    c.active
  }

  lemma {:induction false} ValuesAt(keys: seq<string>, latest: map<string, Connection>)
    requires forall id :: id in keys ==> id in latest
    ensures |ValuesOf(keys, latest)| == |keys| && forall i ::
                                                    0 <= i < |keys| ==> ValuesOf(keys, latest)[i] == latest[keys[i]]
  {
    if keys != [] { ValuesAt(keys[..|keys| - 1], latest); }
  }

  /** The listed values are the candidates, once each, and filtering keeps the active ones. */
  lemma PoolFacts(fs: seq<File>, latest: map<string, Connection>, keys: seq<string>)
    requires Tracks(fs, latest) && AllSound(fs) && DistinctFiles(fs)
    requires DistinctBy(keys, Same) && forall id :: id in keys <==> id in latest
    ensures var cs := ValuesOf(keys, latest);
            && DistinctBy(cs, ConnectionId) && DistinctBy(Filter(cs, IsActive), ConnectionId)
            && (forall c :: c in cs <==> IsCandidate(fs, c))
            && (forall c :: c in Filter(cs, IsActive) <==> IsCandidate(fs, c) && c.active)
            && (cs == [] <==> fs == [])
  {
    hide IsCandidate, Sound, Filter, DistinctFiles;
    var cs := ValuesOf(keys, latest);
    ValuesAt(keys, latest);
    hide ValuesOf;
    forall i, j | 0 <= i < j < |cs|
      ensures ConnectionId(cs[i]) != ConnectionId(cs[j])
    {
      assert Same(keys[i]) != Same(keys[j]);
    }
    FilterKeepsDistinct(cs, IsActive, ConnectionId);
    forall c ensures c in cs <==> IsCandidate(fs, c) {
      CandidatesAreValues(fs, latest, c);
      if c.id in latest && latest[c.id] == c { var i :| 0 <= i < |keys| && keys[i] == c.id; assert cs[i] == c; }
    }
    forall c ensures c in Filter(cs, IsActive) <==> IsCandidate(fs, c) && c.active { FilterCounts(cs, IsActive, c); }
    if fs != [] { assert fs[0] in fs && fs[0].id in keys; }
    if cs != [] { assert IsCandidate(fs, cs[0]); HasRecord(fs, cs[0]); }
  }

  lemma HasRecord(fs: seq<File>, c: Connection)
    requires IsCandidate(fs, c)
    ensures fs != []
  {
  }

  /**
   A listing is read exactly when every file is named as one, holds a record, and names that
   record's id and revision.
   */
  lemma ReadIff(fs: seq<File>, r: Reading, r': Reading, cmp: Collation)
    requires GitChoice(fs, r) && LocalChoice(fs, r', cmp)
    ensures var bad := exists i ::
              0 <= i < |fs| && (!fs[i].named || fs[i].record.None? || fs[i].record.value.id != fs[i].id
                                || fs[i].record.value.revision != fs[i].revision);
            (r == Invalid <==> bad) && (r' == Invalid <==> bad)
  {
    hide IsHighest, InPool, Later;
    if exists i :: 0 <= i < |fs| && !Sound(fs[i]) {
      var i :| 0 <= i < |fs| && !Sound(fs[i]);
      assert !AllSound(fs);
    }
  }

  /** The adapter's choice has the highest revision of all records. */
  lemma GitChoiceIsHighest(fs: seq<File>, c: Connection, i: nat)
    requires GitChoice(fs, Chosen(Some(c))) && i < |fs|
    ensures fs[i].record.Some? && fs[i].record.value.revision <= c.revision
  {
    hide PathKey;
    var f :| IsHighest(fs, f) && f.record == Some(c);
    assert fs[i] in fs && Sound(fs[i]);
    SoundMembers(fs);
  }

  lemma SlashEnds(a: string)
    requires |a| > 0 && '/' !in a[..|a| - 1]
    ensures a[0] == '/' ==> |a| == 1
  {
    assert |a| > 1 ==> a[..|a| - 1][0] == a[0];
  }

  lemma {:induction false} LessWithEqualTails(a: string, b: string, s: string)
    requires |a| > 0 && |b| > 0 && a[|a| - 1] == '/' && b[|b| - 1] == '/'
    requires '/' !in a[..|a| - 1] && '/' !in b[..|b| - 1]
    ensures Less(a + s, b + s) <==> Less(a, b)
    decreases |a|
  {
    assert (a + s)[1..] == a[1..] + s && (b + s)[1..] == b[1..] + s;
    if a[0] == b[0] {
      if a[0] == '/' {
        SlashEnds(a);
        SlashEnds(b);
        LessIrreflexive(s);
      } else {
        assert a[1..][..|a[1..]| - 1] == a[..|a| - 1][1..] && b[1..][..|b[1..]| - 1] == b[..|b| - 1][1..];
        LessWithEqualTails(a[1..], b[1..], s);
      }
    }
  }

  /** Files of one revision are ordered by the names of their directories. */
  lemma TiesGoByDirectory(f: File, g: File)
    requires f.revision == g.revision && '/' !in f.id && '/' !in g.id
    ensures Less(PathKey(f), PathKey(g)) <==> Less(f.id + "/", g.id + "/")
  {
    hide Less, Fixed;
    var tail := "rev-" + Fixed(f.revision, 12);
    assert (f.id + "/")[..|f.id|] == f.id && (g.id + "/")[..|g.id|] == g.id;
    LessWithEqualTails(f.id + "/", g.id + "/", tail);
    assert PathKey(f) == (f.id + "/") + tail && PathKey(g) == (g.id + "/") + tail;
  }

  /** The dashboard's choice is the latest revision of its connection. */
  lemma LocalChoiceIsLatest(fs: seq<File>, c: Connection, cmp: Collation, i: nat)
    requires LocalChoice(fs, Chosen(Some(c)), cmp) && i < |fs|
    ensures fs[i].record.Some? && (fs[i].record.value.id == c.id ==> fs[i].record.value.revision <= c.revision)
  {
    hide Later;
    assert fs[i] in fs && Sound(fs[i]);
  }

  /**
   It is active when any latest revision is, and no such candidate took effect later, or at
   the same time under a later id.
   */
  lemma LocalChoiceIsCurrent(fs: seq<File>, c: Connection, cmp: Collation, d: Connection)
    requires Orders(cmp) && LocalChoice(fs, Chosen(Some(c)), cmp) && IsCandidate(fs, d)
    ensures d.active ==> c.active
    ensures d.active || !c.active ==>
              cmp(c.effective, d.effective) > 0 || (cmp(c.effective, d.effective) == 0 && cmp(c.id, d.id) >= 0)
  {
    hide IsCandidate;
    if d.active || !c.active {
      assert InPool(fs, d);
      assert cmp(c.effective, d.effective) > 0 <==> cmp(d.effective, c.effective) < 0;
      assert cmp(d.effective, c.effective) > 0 <==> cmp(c.effective, d.effective) < 0;
      assert cmp(d.id, c.id) > 0 <==> cmp(c.id, d.id) < 0;
    }
  }

  // ----- What the choices have in common -----

  /** No two record files share a path. */
  ghost predicate DistinctPaths(fs: seq<File>) {
    forall i, j :: 0 <= i < j < |fs| && fs[i].named && fs[j].named ==> PathKey(fs[i]) != PathKey(fs[j])
  }

  lemma SameFiles(a: seq<File>, b: seq<File>)
    requires multiset(a) == multiset(b)
    ensures (forall f :: f in a <==> f in b) && (AllSound(a) <==> AllSound(b)) && (a == [] <==> b == [])
  {
    forall f ensures f in a <==> f in b { assert f in a <==> f in multiset(b); }
    SoundMembers(a);
    SoundMembers(b);
    if a != [] { assert a[0] in b; }
    if b != [] { assert b[0] in a; }
  }

  lemma HighestIsUnique(fs: seq<File>, f: File, g: File)
    requires DistinctPaths(fs) && AllSound(fs) && IsHighest(fs, f) && IsHighest(fs, g)
    ensures f == g
  {
    hide LessEq, PathKey;
    assert LessEq(PathKey(f), PathKey(g)) && LessEq(PathKey(g), PathKey(f));
    OrderIsStrict(PathKey(f), PathKey(g));
    var i :| 0 <= i < |fs| && fs[i] == f;
    var j :| 0 <= j < |fs| && fs[j] == g;
    assert Sound(fs[i]) && Sound(fs[j]);
    assert i == j;
  }

  lemma OrderIsStrict(a: string, b: string)
    requires LessEq(a, b) && LessEq(b, a)
    ensures a == b
  {
    LessTotal(a, b);
  }

  /** The Git adapter chooses the same whatever the order of the listing. */
  lemma GitChoiceForgetsOrder(a: seq<File>, b: seq<File>, r: Reading, r': Reading)
    requires multiset(a) == multiset(b) && DistinctPaths(a) && GitChoice(a, r) && GitChoice(b, r')
    ensures r == r'
  {
    hide DistinctPaths;
    SameFiles(a, b);
    if r.Chosen? && r.connection.Some? && r'.Chosen? && r'.connection.Some? {
      var f :| IsHighest(a, f) && f.record == r.connection;
      var g :| IsHighest(b, g) && g.record == r'.connection;
      assert IsHighest(a, g);
      HighestIsUnique(a, f, g);
    }
  }

  lemma SamePool(a: seq<File>, b: seq<File>, c: Connection)
    requires forall f :: f in a <==> f in b
    ensures InPool(a, c) <==> InPool(b, c)
  {
    forall d ensures IsCandidate(a, d) <==> IsCandidate(b, d) {
      assert IsRecord(a, d) <==> IsRecord(b, d);
    }
  }

  /** No two candidates of the pool compare equal in time and id. */
  ghost predicate Untied(fs: seq<File>, cmp: Collation) {
    forall c, d :: InPool(fs, c) && InPool(fs, d) && c != d ==> Later(c, d, cmp) || Later(d, c, cmp)
  }

  /** And so does the dashboard, unless the locale ties two candidates. */
  lemma LocalChoiceForgetsOrder(a: seq<File>, b: seq<File>, cmp: Collation, r: Reading, r': Reading)
    requires multiset(a) == multiset(b) && LocalChoice(a, r, cmp) && LocalChoice(b, r', cmp) && Untied(a, cmp)
    ensures r == r'
  {
    forall fs, c | InPool(fs, c) ensures fs != [] { HasRecord(fs, c); }
    hide InPool, Later;
    SameFiles(a, b);
    if r.Chosen? && r.connection.Some? && r'.Chosen? && r'.connection.Some? {
      SamePool(a, b, r.connection.value);
      SamePool(a, b, r'.connection.value);
    }
  }

  /** A locale that tells all strings apart ties nothing. */
  lemma SeparatingLocaleTiesNothing(fs: seq<File>, cmp: Collation)
    requires Orders(cmp) && (forall a, b :: cmp(a, b) == 0 ==> a == b) && AllSound(fs) && DistinctFiles(fs)
    ensures Untied(fs, cmp)
  {
    hide Sound, DistinctFiles;
    forall c, d | InPool(fs, c) && InPool(fs, d) && c != d ensures Later(c, d, cmp) || Later(d, c, cmp) {
      if c.id == d.id { SameIdSameCandidate(fs, c, d); }
    }
  }

  lemma SameIdSameCandidate(fs: seq<File>, c: Connection, d: Connection)
    requires AllSound(fs) && DistinctFiles(fs) && IsCandidate(fs, c) && IsCandidate(fs, d) && c.id == d.id
    ensures c == d
  {
    SoundMembers(fs);
    var f :| f in fs && f.record == Some(c);
    var g :| g in fs && g.record == Some(d);
    assert f.id == g.id && f.revision == g.revision;
    var i :| 0 <= i < |fs| && fs[i] == f;
    var j :| 0 <= j < |fs| && fs[j] == g;
    assert i == j;
  }

  ghost predicate OneConnection(fs: seq<File>) {
    forall f, g :: f in fs && g in fs ==> f.id == g.id
  }

  lemma HighestIsCandidate(fs: seq<File>, f: File)
    requires AllSound(fs) && IsHighest(fs, f)
    ensures IsCandidate(fs, f.record.value)
  {
    SoundMembers(fs);
  }

  /** The highest revision is in the dashboard's pool, and nothing in the pool is later. */
  ghost predicate LeadsPool(fs: seq<File>, c: Connection, cmp: Collation) {
    (c.active || !AnyActive(fs)) && !exists d :: InPool(fs, d) && Later(d, c, cmp)
  }

  /** The readers agree exactly when the highest revision leads the dashboard's pool, up to a tie of the locale. */
  lemma ReadersAgreeIff(fs: seq<File>, cmp: Collation, r: Reading, r': Reading, f: File)
    requires DistinctPaths(fs) && GitChoice(fs, r) && LocalChoice(fs, r', cmp) && AllSound(fs) && IsHighest(fs, f)
    ensures r == r' ==> LeadsPool(fs, f.record.value, cmp)
    ensures LeadsPool(fs, f.record.value, cmp) && Untied(fs, cmp) ==> r == r'
  {
    hide LessEq, PathKey, Later, AnyActive, DistinctPaths;
    assert f in fs;
    var g :| IsHighest(fs, g) && g.record == r.connection;
    HighestIsUnique(fs, f, g);
    HighestIsCandidate(fs, f);
    hide IsHighest, IsCandidate;
  }

  /** With a single connection id both readers choose its highest revision. */
  lemma OneConnectionAgrees(fs: seq<File>, cmp: Collation, r: Reading, r': Reading)
    requires DistinctPaths(fs) && OneConnection(fs) && DistinctFiles(fs)
    requires GitChoice(fs, r) && LocalChoice(fs, r', cmp)
    ensures r == r'
  {
    hide LessEq, PathKey, Later;
    if AllSound(fs) && fs != [] {
      var g :| IsHighest(fs, g) && g.record == r.connection;
      HighestIsCandidate(fs, g);
      SoundMembers(fs);
      SameIdSameCandidate(fs, g.record.value, r'.connection.value);
    }
  }

  /** A closed connection at revision two, and an active one with another id at revision one. */
  const CLOSED := Connection("a", 2, false, "t")
  const OPEN := Connection("b", 1, true, "t")
  const CLOSED_FILE := File("a", 2, true, Some(CLOSED))
  const OPEN_FILE := File("b", 1, true, Some(OPEN))

  /** With two ids they can differ: the closed connection outranks the active one. */
  lemma TwoConnectionsDisagree(cmp: Collation, r: Reading, r': Reading)
    ensures DistinctFiles([CLOSED_FILE, OPEN_FILE]) && DistinctPaths([CLOSED_FILE, OPEN_FILE])
            && AllSound([CLOSED_FILE, OPEN_FILE])
    ensures GitChoice([CLOSED_FILE, OPEN_FILE], r) ==> r == Chosen(Some(CLOSED))
    ensures LocalChoice([CLOSED_FILE, OPEN_FILE], r', cmp) ==> r' == Chosen(Some(OPEN))
  {
    hide LessEq, Fixed, Later;
    var fs := [CLOSED_FILE, OPEN_FILE];
    assert PathKey(CLOSED_FILE)[0] == 'a' && PathKey(OPEN_FILE)[0] == 'b';
    assert CLOSED_FILE in fs && OPEN_FILE in fs;
    assert AllSound(fs);
    OpenIsCandidate();
    if GitChoice(fs, r) {
      var f :| IsHighest(fs, f) && f.record == r.connection;
      assert f == CLOSED_FILE;
    }
    if LocalChoice(fs, r', cmp) {
      var c := r'.connection.value;
      assert c.active && IsRecord(fs, c);
    }
  }

  lemma OpenIsCandidate()
    ensures IsCandidate([CLOSED_FILE, OPEN_FILE], OPEN) && AnyActive([CLOSED_FILE, OPEN_FILE])
  {
    assert OPEN_FILE in [CLOSED_FILE, OPEN_FILE];
    assert IsRecord([CLOSED_FILE, OPEN_FILE], OPEN);
  }
}
