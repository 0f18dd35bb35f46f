/**
 The task list as a view of the graph: current nodes, active edges, and the
 document assembled from them.
 */
module Projection {
  import opened Options
  import opened Text
  import opened ProjectionRecords
  import opened TaskOrder

  // ----- Maps that remember insertion order -----

  datatype Ordered<V> = Ordered(keys: seq<string>, at: map<string, V>)

  ghost predicate Proper<V>(m: Ordered<V>) {
    Distinct(m.keys) && Ids(m.keys) == m.at.Keys
  }

  function Put<V>(m: Ordered<V>, key: string, value: V): Ordered<V> {
    Ordered(if key in m.at then m.keys else m.keys + [key], m.at[key := value])
  }

  lemma PutKeeps<V>(m: Ordered<V>, key: string, value: V)
    requires Proper(m)
    ensures Proper(Put(m, key, value))
  {
    if key !in m.at {
      assert key !in Ids(m.keys);
      assert forall x :: x in m.keys + [key] <==> x in m.keys || x == key;
      forall i | 0 <= i < |m.keys| ensures m.keys[i] in Ids(m.keys) { }
    }
  }

  function Map<T>(s: seq<string>, f: string -> T): seq<T> {
    if s == [] then [] else Map(s[..|s| - 1], f) + [f(s[|s| - 1])]
  }

  lemma {:induction false} MapAt<T>(s: seq<string>, f: string -> T)
    ensures |Map(s, f)| == |s| && forall i :: 0 <= i < |s| ==> Map(s, f)[i] == f(s[i])
  {
    if s != [] { MapAt(s[..|s| - 1], f); }
  }

  lemma {:induction false} InsertMaps<T>(x: string, s: seq<string>, f: string -> T, key: T -> string)
    requires forall k :: key(f(k)) == k
    ensures Insert(f(x), Map(s, f), key) == Map(Insert(x, s, Same), f)
    decreases |s|
  {
    MapAt(s, f);
    MapAt(Insert(x, s, Same), f);
    if s != [] && !Less(x, s[0]) {
      MapAt(s[1..], f);
      InsertMaps(x, s[1..], f, key);
      MapAt(Insert(x, s[1..], Same), f);
      assert Map(s, f)[1..] == Map(s[1..], f);
    }
  }

  /** Sorting entries by the key they were made from is sorting the keys. */
  lemma {:induction false} SortMaps<T>(s: seq<string>, f: string -> T, key: T -> string)
    requires forall k :: key(f(k)) == k
    ensures SortBy(Map(s, f), key) == Map(SortStrings(s), f)
  {
    if s != [] {
      var before := s[..|s| - 1];
      SortMaps(before, f, key);
      InsertMaps(s[|s| - 1], SortStrings(before), f, key);
      MapAt(before, f);
      assert Map(s, f)[..|Map(s, f)| - 1] == Map(before, f);
    }
  }

  lemma DistinctSort(s: seq<string>)
    requires Distinct(s)
    ensures SortStrings(s) == Sorted(Ids(s))
  {
    hide SortedBy, Sorted;
    var t := SortStrings(s);
    SortByKeeps(s, Same);
    DistinctPermutes(s, t, Same);
    forall x ensures x in s <==> x in t { assert x in s <==> x in multiset(t); }
    assert Ids(s) == Ids(t);
    SortedIsSorted(t);
  }

  // ----- Current nodes -----

  /** The highest revision seen for each id, the first of equals. */
  function Latest(nodes: seq<Node>): Ordered<Node> {
    if nodes == [] then Ordered([], map[])
    else
      var m, n := Latest(nodes[..|nodes| - 1]), nodes[|nodes| - 1];
      if n.id !in m.at || n.revision > m.at[n.id].revision then Put(m, n.id, n) else m
  }

  ghost predicate IsLatest(nodes: seq<Node>, n: Node) {
    n in nodes && forall m :: m in nodes && m.id == n.id ==> m.revision <= n.revision
  }

  ghost predicate DistinctRevisions(nodes: seq<Node>) {
    forall i, j :: 0 <= i < j < |nodes| ==> !(nodes[i].id == nodes[j].id && nodes[i].revision == nodes[j].revision)
  }

  /** The map holds, under each listed id, a highest revision of that id. */
  ghost predicate HoldsHighest(nodes: seq<Node>, at: map<string, Node>) {
    && (forall n :: n in nodes ==> n.id in at)
    && (forall id :: id in at ==> at[id].id == id && IsLatest(nodes, at[id]))
  }

  function Noted(at: map<string, Node>, n: Node): map<string, Node> {
    if n.id !in at || n.revision > at[n.id].revision then at[n.id := n] else at
  }

  lemma LatestStays(nodes: seq<Node>, m: Node, n: Node)
    requires IsLatest(nodes, m) && (n.id == m.id ==> n.revision <= m.revision)
    ensures IsLatest(nodes + [n], m)
  {
  }

  lemma LatestEnters(nodes: seq<Node>, n: Node)
    requires forall m :: m in nodes && m.id == n.id ==> m.revision <= n.revision
    ensures IsLatest(nodes + [n], n)
  {
  }

  lemma NotedHoldsHighest(nodes: seq<Node>, at: map<string, Node>, n: Node)
    requires HoldsHighest(nodes, at)
    ensures HoldsHighest(nodes + [n], Noted(at, n))
  {
    forall m | m in nodes && m.id == n.id
      ensures n.id in at && m.revision <= at[n.id].revision
    {
      assert IsLatest(nodes, at[m.id]);
    }
    hide IsLatest;
    forall m | m in nodes + [n] ensures m.id in Noted(at, n) { if m in nodes { assert m.id in at; } }
    forall id | id in Noted(at, n) ensures Noted(at, n)[id].id == id && IsLatest(nodes + [n], Noted(at, n)[id]) {
      if id == n.id && Noted(at, n)[id] == n {
        LatestEnters(nodes, n);
      } else {
        LatestStays(nodes, at[id], n);
      }
    }
  }

  lemma {:induction false} LatestIsHighest(nodes: seq<Node>)
    ensures Proper(Latest(nodes)) && HoldsHighest(nodes, Latest(nodes).at)
  {
    if nodes == [] {
      EmptyIsProper<Node>();
    } else {
      var before, n := nodes[..|nodes| - 1], nodes[|nodes| - 1];
      hide Proper, HoldsHighest;
      LatestIsHighest(before);
      PutKeeps(Latest(before), n.id, n);
      NotedHoldsHighest(before, Latest(before).at, n);
      assert nodes == before + [n];
    }
  }

  lemma EmptyIsProper<V>()
    ensures Proper<V>(Ordered([], map[]))
  {
  }

  lemma OneLatest(nodes: seq<Node>, x: Node, y: Node)
    requires DistinctRevisions(nodes) && IsLatest(nodes, x) && IsLatest(nodes, y) && x.id == y.id
    ensures x == y
  {
    assert x.revision == y.revision;
    var i :| 0 <= i < |nodes| && nodes[i] == x;
    var j :| 0 <= j < |nodes| && nodes[j] == y;
    assert i == j;
  }

  lemma SameLatest(a: seq<Node>, b: seq<Node>, n: Node)
    requires forall m :: m in a <==> m in b
    ensures IsLatest(a, n) <==> IsLatest(b, n)
  {
  }

  /** The same records in another order have the same highest revisions. */
  lemma LatestForgetsOrder(a: seq<Node>, b: seq<Node>)
    requires multiset(a) == multiset(b) && DistinctRevisions(a)
    ensures Latest(a).at == Latest(b).at
  {
    hide DistinctRevisions, Latest, Proper;
    LatestIsHighest(a);
    LatestIsHighest(b);
    var x, y := Latest(a).at, Latest(b).at;
    forall n ensures n in a <==> n in b { assert n in a <==> n in multiset(b); }
    forall id ensures id in x <==> id in y {
      if id in x { assert x[id] in b; }
      if id in y { assert y[id] in a; }
    }
    hide IsLatest;
    forall id | id in x ensures x[id] == y[id] {
      SameLatest(a, b, y[id]);
      OneLatest(a, x[id], y[id]);
    }
  }

  function Alive(m: Ordered<Node>): Ordered<Node> {
    Ordered(Filter(m.keys, id => id in m.at && !m.at[id].tombstoned), map id | id in m.at && !m.at[id].tombstoned ::
                                                                        m.at[id])
  }

  lemma FilterDistinct(s: seq<string>, keep: string -> bool)
    requires Distinct(s)
    ensures Distinct(Filter(s, keep)) && Ids(Filter(s, keep)) == set x | x in s && keep(x)
  {
    forall x ensures multiset(Filter(s, keep))[x] <= 1 && (x in Filter(s, keep) <==> x in s && keep(x)) {
      FilterCounts(s, keep, x);
      DistinctIsAtMostOnce(s, x);
    }
    AtMostOnceIsDistinct(Filter(s, keep));
  }

  /** The record at this place is the first with the highest revision of its id. */
  ghost predicate FirstHighest(nodes: seq<Node>, i: nat) {
    && i < |nodes|
    && (forall j :: 0 <= j < |nodes| && nodes[j].id == nodes[i].id ==> nodes[j].revision <= nodes[i].revision)
    && (forall j :: 0 <= j < i && nodes[j].id == nodes[i].id ==> nodes[j].revision < nodes[i].revision)
  }

  lemma FirstHighestStep(before: seq<Node>, n: Node, i: nat)
    requires FirstHighest(before, i)
    ensures n.id == before[i].id && n.revision > before[i].revision ==> FirstHighest(before + [n], |before|)
    ensures n.id != before[i].id || n.revision <= before[i].revision ==> FirstHighest(before + [n], i)
  {
    var nodes := before + [n];
    assert forall j :: 0 <= j < |before| ==> nodes[j] == before[j];
  }

  lemma NewIsFirst(before: seq<Node>, n: Node)
    requires forall i :: 0 <= i < |before| ==> before[i].id != n.id
    ensures FirstHighest(before + [n], |before|)
  {
    var nodes := before + [n];
    assert forall j :: 0 <= j < |before| ==> nodes[j] == before[j];
  }

  /** The map holds the first highest record of this id, if there is any. */
  ghost predicate HoldsFirst(nodes: seq<Node>, at: map<string, Node>, id: string) {
    if id in at then exists i: nat :: FirstHighest(nodes, i) && nodes[i] == at[id] && at[id].id == id
    else forall i :: 0 <= i < |nodes| ==> nodes[i].id != id
  }

  lemma HoldsFirstStep(before: seq<Node>, at: map<string, Node>, n: Node, id: string)
    requires HoldsFirst(before, at, id) && (n.id in at ==> id == n.id ==> at[n.id].id == id)
    ensures HoldsFirst(before + [n], Noted(at, n), id)
  {
    var nodes := before + [n];
    assert forall j :: 0 <= j < |before| ==> nodes[j] == before[j];
    if id in at {
      var i: nat :| FirstHighest(before, i) && before[i] == at[id] && at[id].id == id;
      FirstHighestStep(before, n, i);
      hide FirstHighest;
      assert nodes[i] == before[i] && nodes[|before|] == n;
    } else if id == n.id {
      NewIsFirst(before, n);
      assert nodes[|before|] == n;
    }
  }

  lemma LatestStep(nodes: seq<Node>)
    requires nodes != []
    ensures var before, n := nodes[..|nodes| - 1], nodes[|nodes| - 1];
            Latest(nodes).at == Noted(Latest(before).at, n)
  {
  }

  lemma KeyIsId(nodes: seq<Node>, id: string)
    ensures id in Latest(nodes).at ==> Latest(nodes).at[id].id == id
  {
    LatestIsHighest(nodes);
  }

  lemma {:induction false} LatestIsFirst(nodes: seq<Node>, id: string)
    ensures HoldsFirst(nodes, Latest(nodes).at, id)
  {
    if nodes != [] {
      hide HoldsFirst, Latest, HoldsHighest, Noted;
      var before, n := nodes[..|nodes| - 1], nodes[|nodes| - 1];
      LatestStep(nodes);
      LatestIsFirst(before, id);
      KeyIsId(before, n.id);
      HoldsFirstStep(before, Latest(before).at, n, id);
      assert nodes == before + [n];
    }
  }

  lemma OneFirstHighest(nodes: seq<Node>, i: nat, j: nat)
    requires FirstHighest(nodes, i) && FirstHighest(nodes, j) && nodes[i].id == nodes[j].id
    ensures i == j
  {
  }

  /** Current is exactly the first record with its id's highest revision, unless it is tombstoned. */
  lemma CurrentIff(nodes: seq<Node>, i: nat)
    requires FirstHighest(nodes, i)
    ensures !nodes[i].tombstoned ==>
              nodes[i].id in CurrentNodes(nodes).at && CurrentNodes(nodes).at[nodes[i].id] == nodes[i]
    ensures nodes[i].tombstoned ==> nodes[i].id !in CurrentNodes(nodes).at
  {
    LatestIsFirst(nodes, nodes[i].id);
    var j: nat :| FirstHighest(nodes, j) && nodes[j] == Latest(nodes).at[nodes[i].id] && nodes[j].id == nodes[i].id;
    OneFirstHighest(nodes, i, j);
  }

  function CurrentNodes(nodes: seq<Node>): Ordered<Node> {
    Alive(Latest(nodes))
  }

  lemma CurrentIsProper(nodes: seq<Node>)
    ensures Proper(CurrentNodes(nodes))
    ensures forall id :: id in CurrentNodes(nodes).at ==>
              CurrentNodes(nodes).at[id].id == id && !CurrentNodes(nodes).at[id].tombstoned
              && IsLatest(nodes, CurrentNodes(nodes).at[id])
  {
    var m := Latest(nodes);
    LatestIsHighest(nodes);
    FilterDistinct(m.keys, id => id in m.at && !m.at[id].tombstoned);
    assert forall id :: id in m.keys <==> id in m.at by { assert forall id :: id in m.keys <==> id in Ids(m.keys); }
  }

  /** Current nodes are the untombstoned highest revisions. */
  method CurrentNodeMap(nodes: seq<Node>) returns (current: Ordered<Node>)
    ensures current == CurrentNodes(nodes)
    ensures Proper(current)
    ensures forall id ::
              id in current.at ==>
                current.at[id].id == id && !current.at[id].tombstoned && IsLatest(nodes, current.at[id])
  {
    var latest: Ordered<Node> := Ordered([], map[]);
    var k := 0;
    assert nodes[..0] == [];
    while k < |nodes|
      invariant 0 <= k <= |nodes|
      invariant latest == Latest(nodes[..k])
    {
      var node := nodes[k];
      assert nodes[..k + 1][..k] == nodes[..k];
      if node.id !in latest.at || node.revision > latest.at[node.id].revision {
        latest := Put(latest, node.id, node);
      }
      k := k + 1;
    }
    assert nodes[..k] == nodes;
    current := Alive(latest);
    CurrentIsProper(nodes);
  }

  // ----- Active edges -----

  function EdgeId(e: Edge): string {
    e.id
  }

  predicate IsActive(e: Edge) {
    e.status == Proposed || e.status == Accepted
  }

  function ActiveEdges(edges: seq<Edge>): seq<Edge> {
    SortBy(Filter(edges, IsActive), EdgeId)
  }

  lemma ActiveEdgesForgetOrder(a: seq<Edge>, b: seq<Edge>)
    requires multiset(a) == multiset(b) && DistinctBy(a, EdgeId)
    ensures ActiveEdges(a) == ActiveEdges(b)
  {
    var x, y := Filter(a, IsActive), Filter(b, IsActive);
    forall e ensures multiset(x)[e] == multiset(y)[e] { FilterCounts(a, IsActive, e); FilterCounts(b, IsActive, e); }
    assert multiset(x) == multiset(y);
    FilterKeepsDistinct(a, IsActive, EdgeId);
    SortByForgetsOrder(x, y, EdgeId);
  }

  /** Active are exactly the proposed and the accepted edges, by id, and edges of one id in their order. */
  lemma ActiveEdgesAre(edges: seq<Edge>, e: Edge, id: string)
    ensures multiset(ActiveEdges(edges))[e]
            == if e.status == Proposed || e.status == Accepted then multiset(edges)[e] else 0
    ensures SortedBy(ActiveEdges(edges), EdgeId)
    ensures Filter(ActiveEdges(edges), WithKey(EdgeId, id)) == Filter(Filter(edges, IsActive), WithKey(EdgeId, id))
  {
    hide SortBy, SortedBy, Filter;
    FilterCounts(edges, IsActive, e);
    SortByKeeps(Filter(edges, IsActive), EdgeId);
    SortByIsStable(Filter(edges, IsActive), EdgeId, id);
  }

  function EdgesFrom(edges: seq<Edge>, source: string, kind: EdgeKind): seq<Edge> {
    Filter(edges, (e: Edge) => e.source == source && e.kind == kind)
  }

  // ----- Nodes of one type -----

  function NodeId(n: Node): string {
    n.id
  }

  function NodeAt(m: map<string, Node>, id: string): Node {
    if id in m then m[id] else Node(id, Task, 0, true, None, "")
  }

  function NodesOfType(m: Ordered<Node>, kind: NodeKind): seq<Node> {
    SortBy(Filter(Map(m.keys, id => NodeAt(m.at, id)), (n: Node) => n.kind == kind), NodeId)
  }

  /** The nodes of one type by id, from the contents of the map alone. */
  ghost function NodesByType(at: map<string, Node>, kind: NodeKind): seq<Node> {
    Map(Sorted(set id | id in at && at[id].kind == kind), id => NodeAt(at, id))
  }

  lemma MapSnoc<T>(s: seq<string>, x: string, f: string -> T)
    ensures Map(s + [x], f) == Map(s, f) + [f(x)]
  {
    assert (s + [x])[..|s|] == s;
  }

  lemma FilterSnoc<T>(s: seq<T>, x: T, keep: T -> bool)
    ensures Filter(s + [x], keep) == Filter(s, keep) + if keep(x) then [x] else []
  {
    assert (s + [x])[..|s|] == s;
  }

  lemma {:induction false} FilterMaps<T>(s: seq<string>, f: string -> T, keep: T -> bool, keep': string -> bool)
    requires forall k :: k in s ==> keep(f(k)) == keep'(k)
    ensures Filter(Map(s, f), keep) == Map(Filter(s, keep'), f)
  {
    if s != [] {
      var before, x := s[..|s| - 1], s[|s| - 1];
      FilterMaps(before, f, keep, keep');
      FilterSnoc(Map(before, f), f(x), keep);
      assert x in s && keep(f(x)) == keep'(x);
      var kept := Filter(before, keep');
      if keep'(x) {
        MapSnoc(kept, x, f);
        assert Filter(s, keep') == kept + [x];
      } else {
        assert Filter(s, keep') == kept && Filter(Map(s, f), keep) == Filter(Map(before, f), keep);
      }
    }
  }

  /** Sorting by id forgets the order in which the map was filled. */
  lemma NodesOfTypeIsByType(m: Ordered<Node>, kind: NodeKind)
    requires Proper(m) && forall id :: id in m.at ==> m.at[id].id == id
    ensures NodesOfType(m, kind) == NodesByType(m.at, kind)
  {
    hide SortBy, Sorted, Filter, Map, Distinct;
    var f := (id: string) => NodeAt(m.at, id);
    var keep' := (id: string) => id in m.at && m.at[id].kind == kind;
    KeysAreHeld(m);
    FilterMaps(m.keys, f, (n: Node) => n.kind == kind, keep');
    FilterDistinct(m.keys, keep');
    var ids := Filter(m.keys, keep');
    assert Ids(ids) == set id | id in m.at && m.at[id].kind == kind;
    SortMaps(ids, f, NodeId);
    DistinctSort(ids);
  }

  lemma KeysAreHeld<V>(m: Ordered<V>)
    requires Proper(m)
    ensures forall id :: id in m.keys <==> id in m.at
  {
    forall id ensures id in m.keys <==> id in m.at { assert id in m.keys <==> id in Ids(m.keys); }
  }

  // ----- Assembling a document -----

  datatype Source = Source(id: string, revision: int)

  /** The digest is an opaque function of the view, the sources and the body. */
  type Digest = (string, seq<Source>, string) -> string

  datatype Document = Document(view: string, sources: seq<Source>, digest: string, markdown: string)

  function SourceId(s: Source): string {
    s.id
  }

  function Join(lines: seq<string>, separator: string): string {
    if lines == [] then ""
    else if |lines| == 1 then lines[0]
    else Join(lines[..|lines| - 1], separator) + separator + lines[|lines| - 1]
  }

  function Deduped(sources: seq<Source>): Ordered<int> {
    if sources == [] then Ordered([], map[])
    else
      var m, s := Deduped(sources[..|sources| - 1]), sources[|sources| - 1];
      if s.id !in m.at || s.revision > m.at[s.id] then Put(m, s.id, s.revision) else m
  }

  function SourceAt(m: map<string, int>, id: string): Source {
    Source(id, if id in m then m[id] else 0)
  }

  function OrderedSources(m: Ordered<int>): seq<Source> {
    SortBy(Map(m.keys, id => SourceAt(m.at, id)), SourceId)
  }

  /** Every source once, by id, with the highest revision listed for it. */
  lemma {:induction false} DedupedIsHighest(sources: seq<Source>)
    ensures Proper(Deduped(sources))
    ensures forall s :: s in sources ==> s.id in Deduped(sources).at && s.revision <= Deduped(sources).at[s.id]
    ensures forall id :: id in Deduped(sources).at ==> Source(id, Deduped(sources).at[id]) in sources
  {
    hide Proper;
    if sources == [] {
      EmptyIsProper<int>();
    } else {
      var before, s := sources[..|sources| - 1], sources[|sources| - 1];
      DedupedIsHighest(before);
      PutKeeps(Deduped(before), s.id, s.revision);
      assert sources == before + [s];
      assert forall t :: t in sources <==> t in before || t == s;
    }
  }

  ghost predicate IsHighest(sources: seq<Source>, s: Source) {
    s in sources && forall t :: t in sources && t.id == s.id ==> t.revision <= s.revision
  }

  lemma OrderedSourcesAreHighest(sources: seq<Source>)
    ensures var r := OrderedSources(Deduped(sources));
            SortedBy(r, SourceId) && DistinctBy(r, SourceId) && forall s :: s in r <==> IsHighest(sources, s)
  {
    hide SortedBy, SortBy, SortStrings, Deduped;
    var m := Deduped(sources);
    var r := OrderedSources(m);
    DedupedIsHighest(sources);
    var f := (id: string) => SourceAt(m.at, id);
    SortByKeeps(Map(m.keys, f), SourceId);
    MapAt(m.keys, f);
    DistinctPermutes(Map(m.keys, f), r, SourceId);
    forall s ensures s in r <==> IsHighest(sources, s) {
      assert s in r <==> s in multiset(Map(m.keys, f));
      if s in r {
        var i :| 0 <= i < |m.keys| && Map(m.keys, f)[i] == s;
        assert m.keys[i] in Ids(m.keys);
      }
      if IsHighest(sources, s) {
        assert s.id in Ids(m.keys);
        var i :| 0 <= i < |m.keys| && m.keys[i] == s.id;
        assert Source(s.id, m.at[s.id]) in sources;
        assert Map(m.keys, f)[i] == s;
      }
    }
  }

  function SourceLines(sources: seq<Source>): seq<string> {
    if sources == [] then []
    else
      var s := sources[|sources| - 1];
      SourceLines(sources[..|sources| - 1]) + ["- " + s.id + " r" + Integer(s.revision)]
  }

  function Integer(n: int): string {
    if n < 0 then "-" + Decimal(-n) else Decimal(n)
  }

  function DocumentOf(view: string, sources: seq<Source>, lines: seq<string>, digest: Digest): Document {
    var ordered := OrderedSources(Deduped(sources));
    var body := Join(lines, "\n");
    var stamp := digest(view, ordered, body);
    var header := ["<!-- harness:projection", "view: " + view, "generation_digest: " + stamp, "sources:"]
                  + SourceLines(ordered) + ["-->"];
    Document(view, ordered, stamp, Join(header + ["", body], "\n") + "\n")
  }

  method BuildDocument(view: string, sources: seq<Source>, lines: seq<string>, digest: Digest) returns (doc: Document)
    ensures doc == DocumentOf(view, sources, lines, digest)
    ensures SortedBy(doc.sources, SourceId) && DistinctBy(doc.sources, SourceId)
    ensures forall s :: s in doc.sources <==> IsHighest(sources, s)
    ensures doc.digest == digest(view, doc.sources, Join(lines, "\n"))
  {
    var deduped: Ordered<int> := Ordered([], map[]);
    var k := 0;
    assert sources[..0] == [];
    while k < |sources|
      invariant 0 <= k <= |sources|
      invariant deduped == Deduped(sources[..k])
    {
      var source := sources[k];
      assert sources[..k + 1][..k] == sources[..k];
      if source.id !in deduped.at || source.revision > deduped.at[source.id] {
        deduped := Put(deduped, source.id, source.revision);
      }
      k := k + 1;
    }
    assert sources[..k] == sources;
    var ordered := OrderedSources(deduped);
    OrderedSourcesAreHighest(sources);
    hide SortedBy, Deduped, OrderedSources;
    var body := Join(lines, "\n");
    var stamp := digest(view, ordered, body);
    var header := ["<!-- harness:projection", "view: " + view, "generation_digest: " + stamp, "sources:"]
                  + SourceLines(ordered) + ["-->"];
    doc := Document(view, ordered, stamp, Join(header + ["", body], "\n") + "\n");
  }
}
