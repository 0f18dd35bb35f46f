/**
 The ordering as the program computes it: in-degrees and lists of dependents, a
 sorted list of ready tasks, and a fallback for whatever a cycle holds back.
 */
module TaskOrdering {
  import opened Text
  import opened ProjectionRecords
  import opened TaskOrder

  // ----- Dependencies as a list -----

  predicate BetweenMembers(e: Edge, ids: seq<string>) {
    e.kind == DependsOn && e.source in ids && e.target in ids
  }

  /** The dependencies between members, in edge order and with duplicates. */
  function Pairs(edges: seq<Edge>, ids: seq<string>): seq<Pair> {
    if edges == [] then []
    else
      var e := edges[|edges| - 1];
      Pairs(edges[..|edges| - 1], ids) + if BetweenMembers(e, ids) then [(e.source, e.target)] else []
  }

  ghost function Dependencies(edges: seq<Edge>, ids: seq<string>): set<Pair> {
    set e | e in edges && BetweenMembers(e, ids) :: (e.source, e.target)
  }

  /** How many listed dependencies of a task are still to place. */
  function Open(ps: seq<Pair>, id: string, todo: set<string>): nat {
    if ps == [] then 0
    else
      var p := ps[|ps| - 1];
      Open(ps[..|ps| - 1], id, todo) + if p.0 == id && p.1 in todo then 1 else 0
  }

  function Sources(ps: seq<Pair>, target: string): seq<string> {
    if ps == [] then []
    else
      var p := ps[|ps| - 1];
      Sources(ps[..|ps| - 1], target) + if p.1 == target then [p.0] else []
  }

  lemma PairsSnoc(edges: seq<Edge>, e: Edge, ids: seq<string>)
    ensures Pairs(edges + [e], ids) == Pairs(edges, ids) + if BetweenMembers(e, ids) then [(e.source, e.target)] else []
  {
    assert (edges + [e])[..|edges|] == edges;
  }

  lemma OpenSnoc(ps: seq<Pair>, p: Pair, id: string, todo: set<string>)
    ensures Open(ps + [p], id, todo) == Open(ps, id, todo) + if p.0 == id && p.1 in todo then 1 else 0
  {
    assert (ps + [p])[..|ps|] == ps;
  }

  lemma SourcesSnoc(ps: seq<Pair>, p: Pair, target: string)
    ensures Sources(ps + [p], target) == Sources(ps, target) + if p.1 == target then [p.0] else []
  {
    assert (ps + [p])[..|ps|] == ps;
  }

  lemma {:induction false} PairsAreDependencies(edges: seq<Edge>, ids: seq<string>)
    ensures forall p :: p in Pairs(edges, ids) <==> p in Dependencies(edges, ids)
  {
    if edges != [] {
      var before, e := edges[..|edges| - 1], edges[|edges| - 1];
      PairsAreDependencies(before, ids);
      assert edges == before + [e];
      assert forall x :: x in edges <==> x in before || x == e;
    }
  }

  lemma {:induction false} OpenIsZero(ps: seq<Pair>, id: string, todo: set<string>)
    ensures Open(ps, id, todo) == 0 <==> forall p :: p in ps && p.0 == id ==> p.1 !in todo
  {
    if ps != [] {
      var before, last := ps[..|ps| - 1], ps[|ps| - 1];
      OpenIsZero(before, id, todo);
      assert ps == before + [last];
      assert forall p :: p in ps <==> p in before || p == last;
    }
  }

  /** Placing a task lowers each count by the task's listings among the dependents. */
  lemma {:induction false} OpenFalls(ps: seq<Pair>, id: string, todo: set<string>, x: string)
    requires x in todo
    ensures Open(ps, id, todo - {x}) == Open(ps, id, todo) - multiset(Sources(ps, x))[id]
  {
    if ps != [] { OpenFalls(ps[..|ps| - 1], id, todo, x); }
  }

  lemma {:induction false} SourcesDepend(ps: seq<Pair>, target: string)
    ensures forall id :: id in Sources(ps, target) <==> (id, target) in ps
  {
    if ps != [] {
      var before, last := ps[..|ps| - 1], ps[|ps| - 1];
      SourcesDepend(before, target);
      assert ps == before + [last];
      assert forall p :: p in ps <==> p in before || p == last;
    }
  }

  // ----- Building the maps -----

  function Listed(dependents: map<string, seq<string>>, id: string): seq<string> {
    if id in dependents then dependents[id] else []
  }

  method CountDegrees(ids: seq<string>, edges: seq<Edge>)
    returns (indegree: map<string, int>, dependents: map<string, seq<string>>)
    ensures indegree.Keys == Ids(ids)
    ensures forall id :: id in ids ==> indegree[id] == Open(Pairs(edges, ids), id, Ids(ids))
    ensures forall id :: Listed(dependents, id) == Sources(Pairs(edges, ids), id)
  {
    hide Open, Sources, Pairs;
    indegree := map id | id in ids :: 0;
    dependents := map[];
    var k := 0;
    assert edges[..0] == [];
    EmptyCounts(ids);
    while k < |edges|
      invariant 0 <= k <= |edges|
      invariant indegree.Keys == Ids(ids)
      invariant forall id :: id in ids ==> indegree[id] == Open(Pairs(edges[..k], ids), id, Ids(ids))
      invariant forall id :: Listed(dependents, id) == Sources(Pairs(edges[..k], ids), id)
    {
      var edge := edges[k];
      ghost var ps := Pairs(edges[..k], ids);
      assert edges[..k + 1] == edges[..k] + [edge];
      PairsSnoc(edges[..k], edge, ids);
      if BetweenMembers(edge, ids) {
        ghost var p := (edge.source, edge.target);
        CountOne(ps, p, ids);
        indegree := indegree[edge.source := indegree[edge.source] + 1];
        dependents := dependents[edge.target := Listed(dependents, edge.target) + [edge.source]];
      } else {
        assert Pairs(edges[..k + 1], ids) == ps;
      }
      k := k + 1;
    }
    assert edges[..k] == edges;
  }

  /** One more dependency is one more for its source and one more dependent of its target. */
  lemma CountOne(ps: seq<Pair>, p: Pair, ids: seq<string>)
    requires p.1 in ids
    ensures forall id :: Open(ps + [p], id, Ids(ids)) == Open(ps, id, Ids(ids)) + if p.0 == id then 1 else 0
    ensures forall id :: Sources(ps + [p], id) == Sources(ps, id) + if p.1 == id then [p.0] else []
  {
    hide Open, Sources;
    forall id ensures Open(ps + [p], id, Ids(ids)) == Open(ps, id, Ids(ids)) + if p.0 == id then 1 else 0 {
      OpenSnoc(ps, p, id, Ids(ids));
    }
    forall id ensures Sources(ps + [p], id) == Sources(ps, id) + if p.1 == id then [p.0] else [] {
      SourcesSnoc(ps, p, id);
    }
  }

  lemma EmptyCounts(ids: seq<string>)
    ensures forall id :: Open(Pairs([], ids), id, Ids(ids)) == 0 && Sources(Pairs([], ids), id) == []
  {
  }

  // ----- Releasing dependents -----

  /** The listed tasks whose count runs out. */
  ghost function Released(ds: seq<string>, indegree: map<string, int>): set<string> {
    set id | id in ds && id in indegree && 0 < indegree[id] <= multiset(ds)[id]
  }

  ghost function Blocked(indegree: map<string, int>): set<string> {
    set id | id in indegree && indegree[id] > 0
  }

  method Release(ds: seq<string>, indegree: map<string, int>, ready: seq<string>)
    returns (indegree': map<string, int>, ready': seq<string>)
    requires forall id :: id in ds ==> id in indegree
    ensures indegree'.Keys == indegree.Keys
    ensures forall id :: id in indegree ==> indegree'[id] == indegree[id] - multiset(ds)[id]
    ensures multiset(ready') == multiset(ready) + multiset(Released(ds, indegree))
    ensures SortedBy(ready, Same) ==> SortedBy(ready', Same)
  {
    hide SortedBy, Insert;
    indegree', ready' := indegree, ready;
    var k := 0;
    assert multiset(ds[..0]) == multiset{} && Released(ds[..0], indegree) == {};
    while k < |ds|
      invariant 0 <= k <= |ds|
      invariant indegree'.Keys == indegree.Keys
      invariant forall id :: id in indegree ==> indegree'[id] == indegree[id] - multiset(ds[..k])[id]
      invariant multiset(ready') == multiset(ready) + multiset(Released(ds[..k], indegree))
      invariant SortedBy(ready, Same) ==> SortedBy(ready', Same)
    {
      var dependent := ds[k];
      ReleasedStep(ds, indegree, k);
      var remaining := indegree'[dependent] - 1;
      assert ds[..k + 1] == ds[..k] + [dependent];
      indegree' := indegree'[dependent := remaining];
      if remaining == 0 {
        InsertKeeps(dependent, ready', Same);
        ready' := Insert(dependent, ready', Same);
      }
      k := k + 1;
    }
    assert ds[..k] == ds;
  }

  lemma ReleasedStep(ds: seq<string>, indegree: map<string, int>, k: nat)
    requires k < |ds| && ds[k] in indegree
    ensures multiset(Released(ds[..k + 1], indegree))
            == if indegree[ds[k]] - multiset(ds[..k])[ds[k]] == 1
               then multiset(Released(ds[..k], indegree)) + multiset{ds[k]}
               else multiset(Released(ds[..k], indegree))
  {
    var d, before, now := ds[k], Released(ds[..k], indegree), Released(ds[..k + 1], indegree);
    assert ds[..k + 1] == ds[..k] + [d];
    assert forall id :: id in ds[..k + 1] <==> id in ds[..k] || id == d;
    assert multiset(ds[..k + 1]) == multiset(ds[..k])[d := multiset(ds[..k])[d] + 1];
    if indegree[d] - multiset(ds[..k])[d] == 1 {
      assert d !in before && now == before + {d};
    } else {
      assert now == before;
    }
  }

  /** A released task is no longer blocked: the loop has one less to wait for. */
  lemma ReleasedAreUnblocked(ds: seq<string>, indegree: map<string, int>, indegree': map<string, int>)
    requires indegree'.Keys == indegree.Keys
    requires forall id :: id in indegree ==> indegree'[id] == indegree[id] - multiset(ds)[id]
    ensures Blocked(indegree') == Blocked(indegree) - Released(ds, indegree)
            && Released(ds, indegree) <= Blocked(indegree)
    ensures |Blocked(indegree')| + |Released(ds, indegree)| == |Blocked(indegree)|
  {
    var r := Released(ds, indegree);
    forall id | id in indegree && id !in ds ensures multiset(ds)[id] == 0 { }
    assert Blocked(indegree') == Blocked(indegree) - r;
    assert Blocked(indegree) == Blocked(indegree') + r;
  }

  // ----- The loop -----

  function Roots(ids: seq<string>, indegree: map<string, int>): seq<string> {
    Filter(ids, id => id in indegree && indegree[id] == 0)
  }

  function Unplaced(ids: seq<string>, ordered: seq<string>): seq<string> {
    Filter(ids, id => id !in ordered)
  }

  lemma RootsCount(ids: seq<string>, indegree: map<string, int>, id: string)
    ensures multiset(Roots(ids, indegree))[id] == if id in indegree && indegree[id] == 0 then multiset(ids)[id] else 0
  {
    FilterCounts(ids, id => id in indegree && indegree[id] == 0, id);
  }

  lemma UnplacedCount(ids: seq<string>, ordered: seq<string>, id: string)
    ensures multiset(Unplaced(ids, ordered))[id] == if id !in ordered then multiset(ids)[id] else 0
  {
    FilterCounts(ids, id => id !in ordered, id);
  }

  /** Where the loop stands when the ids are distinct. */
  ghost predicate Tracks(ids: seq<string>, ps: seq<Pair>, ordered: seq<string>, ready: seq<string>,
                         indegree: map<string, int>) {
    var todo := Ids(ids) - Ids(ordered);
    && indegree.Keys == Ids(ids) && Ids(ordered) <= Ids(ids)
    && Distinct(ready) && SortedBy(ready, Same) && Ids(ready) == ReadySet(todo, PairSet(ps))
    && (forall id :: id in ids ==> indegree[id] == Open(ps, id, todo))
    && (forall id :: id in ordered ==> Open(ps, id, todo) == 0)
    && OrderSpec(Ids(ids), PairSet(ps)) == ordered + OrderSpec(todo, PairSet(ps))
  }

  ghost function PairSet(ps: seq<Pair>): set<Pair> {
    set p | p in ps
  }

  lemma ReadyMeansNoneOpen(ps: seq<Pair>, todo: set<string>, id: string)
    ensures id in ReadySet(todo, PairSet(ps)) <==> id in todo && Open(ps, id, todo) == 0
  {
    OpenIsZero(ps, id, todo);
  }

  lemma FirstIsSmallest(ready: seq<string>)
    requires SortedBy(ready, Same) && ready != []
    ensures ready[0] in Ids(ready) && ready[0] == Smallest(Ids(ready))
  {
    hide Less;
    assert ready[0] in Ids(ready);
    var x := Smallest(Ids(ready));
    var i :| 0 <= i < |ready| && ready[i] == x;
    LessTotal(x, ready[0]);
  }

  lemma TracksFirst(ids: seq<string>, ps: seq<Pair>, ordered: seq<string>, ready: seq<string>,
                    indegree: map<string, int>)
    requires Tracks(ids, ps, ordered, ready, indegree) && ready != []
    ensures var todo := Ids(ids) - Ids(ordered);
            && ready[0] in todo && Open(ps, ready[0], todo) == 0
            && OrderSpec(Ids(ids), PairSet(ps)) == (ordered + [ready[0]]) + OrderSpec(todo - {ready[0]}, PairSet(ps))
  {
    hide SortedBy, Distinct, Open;
    var todo, next := Ids(ids) - Ids(ordered), ready[0];
    assert next in Ids(ready);
    ReadyMeansNoneOpen(ps, todo, next);
    FirstIsSmallest(ready);
    var tail := OrderSpec(todo - {next}, PairSet(ps));
    assert OrderSpec(todo, PairSet(ps)) == [next] + tail;
    hide OrderSpec, ReadySet;
    JoinedTail(ordered, next, tail);
  }

  lemma JoinedTail(s: seq<string>, x: string, t: seq<string>)
    ensures s + ([x] + t) == (s + [x]) + t
  {
  }

  /** The ready list after one task was placed holds exactly what is ready then, once each. */
  lemma ReadyAfter(ps: seq<Pair>, todo: set<string>, ready: seq<string>, ds: seq<string>, indegree: map<string, int>,
                   ready': seq<string>)
    requires Distinct(ready) && ready != [] && Ids(ready) == ReadySet(todo, PairSet(ps))
    requires todo <= indegree.Keys && (forall id :: id in indegree ==> indegree[id] == Open(ps, id, todo))
    requires forall id :: id in indegree && id !in todo ==> Open(ps, id, todo) == 0
    requires multiset(ds) == multiset(Sources(ps, ready[0]))
    requires multiset(ready') == multiset(ready[1..]) + multiset(Released(ds, indegree))
    ensures Distinct(ready') && Ids(ready') == ReadySet(todo - {ready[0]}, PairSet(ps))
  {
    hide Open, Sources, SortedBy;
    var next, rest, released := ready[0], ready[1..], Released(ds, indegree);
    assert next in Ids(ready);
    DistinctTail(ready);
    forall id ensures multiset(ready')[id] == (if id in ReadySet(todo - {next}, PairSet(ps)) then 1 else 0) {
      ReadyMeansNoneOpen(ps, todo, id);
      ReadyMeansNoneOpen(ps, todo, next);
      ReadyMeansNoneOpen(ps, todo - {next}, id);
      OpenFalls(ps, id, todo, next);
      hide ReadySet;
      DistinctIsAtMostOnce(rest, id);
      assert id in rest <==> id in Ids(rest);
      assert id in ds <==> multiset(ds)[id] > 0;
    }
    AtMostOnceIsDistinct(ready');
    forall id
      ensures id in ready' <==> id in ReadySet(todo - {next}, PairSet(ps))
    {
      assert id in ready' <==> multiset(ready')[id] > 0;
    }
  }

  lemma TracksStep(ids: seq<string>, ps: seq<Pair>, ordered: seq<string>, ready: seq<string>,
                   indegree: map<string, int>, ds: seq<string>, ready': seq<string>, indegree': map<string, int>)
    requires Tracks(ids, ps, ordered, ready, indegree) && ready != []
    requires multiset(ds) == multiset(Sources(ps, ready[0]))
    requires indegree'.Keys == indegree.Keys
    requires forall id :: id in indegree ==> indegree'[id] == indegree[id] - multiset(ds)[id]
    requires multiset(ready') == multiset(ready[1..]) + multiset(Released(ds, indegree)) && SortedBy(ready', Same)
    requires forall p :: p in ps ==> p.0 in ids
    ensures Tracks(ids, ps, ordered + [ready[0]], ready', indegree')
  {
    hide Open, Sources, SortedBy, OrderSpec, ReadySet, Distinct;
    var todo, next := Ids(ids) - Ids(ordered), ready[0];
    TracksFirst(ids, ps, ordered, ready, indegree);
    assert Ids(ordered + [next]) == Ids(ordered) + {next};
    assert Ids(ids) - Ids(ordered + [next]) == todo - {next};
    ReadyAfter(ps, todo, ready, ds, indegree, ready');
    forall id
      ensures Open(ps, id, todo - {next}) == Open(ps, id, todo) - multiset(ds)[id]
    {
      OpenFalls(ps, id, todo, next);
    }
  }

  lemma RootsAreReady(ids: seq<string>, ps: seq<Pair>, ready: seq<string>, indegree: map<string, int>)
    requires Distinct(ids) && indegree.Keys == Ids(ids)
    requires forall id :: id in ids ==> indegree[id] == Open(ps, id, Ids(ids))
    requires multiset(ready) == multiset(Roots(ids, indegree))
    ensures Distinct(ready) && Ids(ready) == ReadySet(Ids(ids), PairSet(ps))
  {
    hide Open, Roots;
    forall id ensures multiset(ready)[id] == (if id in ReadySet(Ids(ids), PairSet(ps)) then 1 else 0) {
      RootsCount(ids, indegree, id);
      DistinctIsAtMostOnce(ids, id);
      ReadyMeansNoneOpen(ps, Ids(ids), id);
    }
    AtMostOnceIsDistinct(ready);
    forall id
      ensures id in ready <==> id in ReadySet(Ids(ids), PairSet(ps))
    {
      assert id in ready <==> multiset(ready)[id] > 0;
    }
  }

  lemma TracksStart(ids: seq<string>, ps: seq<Pair>, ready: seq<string>, indegree: map<string, int>)
    requires Distinct(ids) && indegree.Keys == Ids(ids)
    requires forall id :: id in ids ==> indegree[id] == Open(ps, id, Ids(ids))
    requires ready == SortStrings(Roots(ids, indegree))
    ensures Tracks(ids, ps, [], ready, indegree)
  {
    hide Open, SortedBy, OrderSpec, Roots, ReadySet, Distinct;
    SortByKeeps(Roots(ids, indegree), Same);
    RootsAreReady(ids, ps, ready, indegree);
    NothingOrdered(Ids(ids), OrderSpec(Ids(ids), PairSet(ps)));
  }

  lemma NothingOrdered(todo: set<string>, order: seq<string>)
    ensures Ids([]) == {} && todo - Ids([]) == todo && [] + order == order
  {
  }

  /** What is left over, by id. */
  lemma LeftoverIsSorted(ids: seq<string>, ordered: seq<string>)
    requires Distinct(ids)
    ensures SortStrings(Unplaced(ids, ordered)) == Sorted(Ids(ids) - Ids(ordered))
  {
    hide SortedBy, Sorted;
    var rest := SortStrings(Unplaced(ids, ordered));
    SortByKeeps(Unplaced(ids, ordered), Same);
    forall id ensures multiset(rest)[id] == (if id in Ids(ids) - Ids(ordered) then 1 else 0) {
      UnplacedCount(ids, ordered, id);
      DistinctIsAtMostOnce(ids, id);
    }
    AtMostOnceIsDistinct(rest);
    forall id ensures id in rest <==> id in Ids(ids) - Ids(ordered) { assert id in rest <==> multiset(rest)[id] > 0; }
    assert Ids(rest) == Ids(ids) - Ids(ordered);
    SortedIsSorted(rest);
  }

  lemma PairsStayInside(edges: seq<Edge>, ids: seq<string>)
    ensures PairSet(Pairs(edges, ids)) == Dependencies(edges, ids)
    ensures forall p :: p in Pairs(edges, ids) ==> p.0 in ids && p.1 in ids
  {
    PairsAreDependencies(edges, ids);
  }

  lemma RootsAreMembers(ids: seq<string>, indegree: map<string, int>)
    ensures var ready := SortStrings(Roots(ids, indegree));
            SortedBy(ready, Same) && forall id :: id in ready ==> id in ids
  {
    hide SortedBy;
    var ready := SortStrings(Roots(ids, indegree));
    SortByKeeps(Roots(ids, indegree), Same);
    forall id | id in ready ensures id in ids {
      assert multiset(ready)[id] > 0;
      RootsCount(ids, indegree, id);
    }
  }

  lemma DependentsAreMembers(ps: seq<Pair>, ids: seq<string>, next: string, ds: seq<string>)
    requires multiset(ds) == multiset(Sources(ps, next)) && forall p :: p in ps ==> p.0 in ids
    ensures forall id :: id in ds ==> id in Ids(ids)
  {
    forall id | id in ds ensures id in ids {
      assert id in multiset(Sources(ps, next));
      SourcesDepend(ps, next);
      assert (id, next) in ps;
    }
  }

  lemma SortedTail(ready: seq<string>)
    requires SortedBy(ready, Same) && ready != []
    ensures SortedBy(ready[1..], Same)
  {
  }

  /** Released tasks are members, and each takes the place of a blocked one. */
  lemma ReadyStayMembers(ids: seq<string>, ds: seq<string>, indegree: map<string, int>, rest: seq<string>,
                         ready': seq<string>)
    requires multiset(ready') == multiset(rest) + multiset(Released(ds, indegree)) && indegree.Keys == Ids(ids)
    requires forall id :: id in rest ==> id in ids
    ensures (forall id :: id in ready' ==> id in ids) && |ready'| == |rest| + |Released(ds, indegree)|
  {
    assert |ready'| == |multiset(ready')| && |rest| == |multiset(rest)|;
    forall id | id in ready' ensures id in ids {
      assert multiset(ready')[id] > 0;
      assert multiset(rest)[id] > 0 || id in Released(ds, indegree);
    }
  }

  lemma AllMembers(ids: seq<string>, ordered: seq<string>)
    requires forall id :: id in ordered ==> id in ids
    ensures Ids(ordered + SortStrings(Unplaced(ids, ordered))) == Ids(ids)
  {
    hide SortedBy;
    var rest := SortStrings(Unplaced(ids, ordered));
    SortByKeeps(Unplaced(ids, ordered), Same);
    forall id ensures id in ordered + rest <==> id in ids {
      assert id in rest <==> multiset(rest)[id] > 0;
      assert id in ids <==> multiset(ids)[id] > 0;
      UnplacedCount(ids, ordered, id);
    }
  }

  lemma TracksEnd(ids: seq<string>, ps: seq<Pair>, ordered: seq<string>, indegree: map<string, int>)
    requires Distinct(ids) && Tracks(ids, ps, ordered, [], indegree)
    ensures OrderSpec(Ids(ids), PairSet(ps)) == ordered + SortStrings(Unplaced(ids, ordered))
  {
    hide SortedBy, Distinct, Open;
    LeftoverIsSorted(ids, ordered);
    assert Ids([]) == {};
  }

  // ----- The order for every input -----

  ghost function Lowered(indegree: map<string, int>, ds: seq<string>): map<string, int> {
    map id | id in indegree :: indegree[id] - multiset(ds)[id]
  }

  ghost function ReadyNext(rest: seq<string>, ds: seq<string>, indegree: map<string, int>): seq<string> {
    SortStrings(rest + Sorted(Released(ds, indegree)))
  }

  lemma SortedHoldsEachOnce(ids: set<string>)
    ensures multiset(Sorted(ids)) == multiset(ids) && |Sorted(ids)| == |ids|
  {
    hide Sorted, SortedBy;
    var s := Sorted(ids);
    SortedLists(ids);
    forall id ensures multiset(s)[id] == multiset(ids)[id] {
      DistinctIsAtMostOnce(s, id);
      assert id in s <==> id in Ids(s);
    }
    assert multiset(s) == multiset(ids);
    assert |s| == |multiset(s)| == |multiset(ids)| == |ids|;
  }

  lemma ReadyNextHolds(rest: seq<string>, ds: seq<string>, indegree: map<string, int>)
    ensures var next := ReadyNext(rest, ds, indegree);
            && SortedBy(next, Same) && multiset(next) == multiset(rest) + multiset(Released(ds, indegree))
            && |next| == |rest| + |Released(ds, indegree)|
  {
    hide SortedBy, SortBy, Sorted, Released;
    var all := rest + Sorted(Released(ds, indegree));
    SortByKeeps(all, Same);
    SortedHoldsEachOnce(Released(ds, indegree));
    assert |SortStrings(all)| == |multiset(SortStrings(all))| == |multiset(all)| == |all|;
  }

  lemma KahnEnds(rest: seq<string>, ds: seq<string>, indegree: map<string, int>)
    ensures |Blocked(Lowered(indegree, ds))| + |ReadyNext(rest, ds, indegree)| == |Blocked(indegree)| + |rest|
  {
    hide ReadyNext, SortedBy;
    ReadyNextHolds(rest, ds, indegree);
    ReleasedAreUnblocked(ds, indegree, Lowered(indegree, ds));
  }

  /** What the loop places from here on, repeated ids included. */
  ghost function Kahn(ps: seq<Pair>, indegree: map<string, int>, ready: seq<string>): seq<string>
    decreases |Blocked(indegree)| + |ready|
  {
    if ready == [] then []
    else
      var ds := Sources(ps, ready[0]);
      KahnEnds(ready[1..], ds, indegree);
      [ready[0]] + Kahn(ps, Lowered(indegree, ds), ReadyNext(ready[1..], ds, indegree))
  }

  lemma KahnStep(ps: seq<Pair>, indegree: map<string, int>, ready: seq<string>)
    requires ready != []
    ensures var ds := Sources(ps, ready[0]);
            Kahn(ps, indegree, ready)
            == [ready[0]] + Kahn(ps, Lowered(indegree, ds), ReadyNext(ready[1..], ds, indegree))
  {
    hide Sources, ReadyNext;
  }

  ghost function Degrees(ps: seq<Pair>, ids: seq<string>): map<string, int> {
    map id | id in ids :: Open(ps, id, Ids(ids))
  }

  ghost function KahnPlaced(ids: seq<string>, edges: seq<Edge>): seq<string> {
    var ps := Pairs(edges, ids);
    Kahn(ps, Degrees(ps, ids), SortStrings(Roots(ids, Degrees(ps, ids))))
  }

  /** The order of any list of ids. */
  ghost function OrderOf(ids: seq<string>, edges: seq<Edge>): seq<string> {
    KahnPlaced(ids, edges) + SortStrings(Unplaced(ids, KahnPlaced(ids, edges)))
  }

  /** Sorted strings with the same elements are the same list. */
  lemma {:induction false} SortedOnce(a: seq<string>, b: seq<string>)
    requires multiset(a) == multiset(b) && SortedBy(a, Same) && SortedBy(b, Same)
    ensures a == b
    decreases |a|
  {
    assert |multiset(a)| == |a| && |multiset(b)| == |b|;
    if a != [] {
      FirstsMatch(a, b);
      hide SortedBy;
      TailKeeps(a, Same);
      TailKeeps(b, Same);
      SortedOnce(a[1..], b[1..]);
      assert a == [a[0]] + a[1..] && b == [b[0]] + b[1..];
    }
  }

  lemma FirstsMatch(a: seq<string>, b: seq<string>)
    requires multiset(a) == multiset(b) && SortedBy(a, Same) && SortedBy(b, Same) && a != [] && b != []
    ensures a[0] == b[0]
  {
    hide Less;
    assert a[0] in multiset(b) && b[0] in multiset(a);
    var i :| 0 <= i < |a| && a[i] == b[0];
    var j :| 0 <= j < |b| && b[j] == a[0];
    LessTotal(a[0], b[0]);
    LessIrreflexive(a[0]);
  }

  lemma SameReleased(ds: seq<string>, ds': seq<string>, indegree: map<string, int>)
    requires multiset(ds) == multiset(ds')
    ensures Released(ds, indegree) == Released(ds', indegree)
  {
    forall id ensures id in ds <==> id in ds' { assert id in ds <==> multiset(ds)[id] > 0; }
  }

  lemma SameLowered(ds: seq<string>, ds': seq<string>, indegree: map<string, int>, indegree': map<string, int>)
    requires multiset(ds) == multiset(ds') && indegree'.Keys == indegree.Keys
    requires forall id :: id in indegree ==> indegree'[id] == indegree[id] - multiset(ds)[id]
    ensures indegree' == Lowered(indegree, ds')
  {
  }

  /** One turn of the loop is one step of the order. */
  lemma KahnTurn(ps: seq<Pair>, indegree: map<string, int>, ready: seq<string>,
                 ds: seq<string>, indegree': map<string, int>, ready': seq<string>)
    requires ready != [] && multiset(ds) == multiset(Sources(ps, ready[0]))
    requires indegree'.Keys == indegree.Keys
    requires forall id :: id in indegree ==> indegree'[id] == indegree[id] - multiset(ds)[id]
    requires multiset(ready') == multiset(ready[1..]) + multiset(Released(ds, indegree)) && SortedBy(ready', Same)
    ensures Kahn(ps, indegree, ready) == [ready[0]] + Kahn(ps, indegree', ready')
  {
    hide Sources, SortedBy, ReadyNext, Kahn;
    var sources := Sources(ps, ready[0]);
    SameReleased(ds, sources, indegree);
    hide Released;
    KahnStep(ps, indegree, ready);
    ReadyNextHolds(ready[1..], sources, indegree);
    SortedOnce(ready', ReadyNext(ready[1..], sources, indegree));
    SameLowered(ds, sources, indegree, indegree');
  }

  // ----- Distinct ids -----

  lemma {:induction false} KahnFollowsSpec(
      ids: seq<string>, ps: seq<Pair>, ordered: seq<string>, ready: seq<string>, indegree: map<string, int>)
    requires Distinct(ids) && Tracks(ids, ps, ordered, ready, indegree) && forall p :: p in ps ==> p.0 in ids
    ensures var placed := ordered + Kahn(ps, indegree, ready);
            OrderSpec(Ids(ids), PairSet(ps)) == placed + SortStrings(Unplaced(ids, placed))
    decreases |Blocked(indegree)| + |ready|
  {
    if ready == [] {
      assert ordered + [] == ordered;
      TracksEnd(ids, ps, ordered, indegree);
    } else {
      var ds := Sources(ps, ready[0]);
      var degrees, next := Lowered(indegree, ds), ReadyNext(ready[1..], ds, indegree);
      hide Kahn, Tracks, Sources, ReadyNext, SortedBy, OrderSpec, Distinct;
      KahnStep(ps, indegree, ready);
      KahnEnds(ready[1..], ds, indegree);
      ReadyNextHolds(ready[1..], ds, indegree);
      TracksStep(ids, ps, ordered, ready, indegree, ds, next, degrees);
      KahnFollowsSpec(ids, ps, ordered + [ready[0]], next, degrees);
      JoinedTail(ordered, ready[0], Kahn(ps, degrees, next));
    }
  }

  /** On distinct ids the order is the specified one. */
  lemma DistinctOrder(ids: seq<string>, edges: seq<Edge>)
    requires Distinct(ids)
    ensures OrderOf(ids, edges) == OrderSpec(Ids(ids), Dependencies(edges, ids))
  {
    hide Kahn, Tracks, Pairs, SortedBy, OrderSpec, Distinct, Roots, Open, SortStrings, Unplaced;
    var ps := Pairs(edges, ids);
    PairsStayInside(edges, ids);
    var ready := SortStrings(Roots(ids, Degrees(ps, ids)));
    assert Degrees(ps, ids).Keys == Ids(ids);
    TracksStart(ids, ps, ready, Degrees(ps, ids));
    KahnFollowsSpec(ids, ps, [], ready, Degrees(ps, ids));
    assert [] + KahnPlaced(ids, edges) == KahnPlaced(ids, edges);
  }

  // ----- The method -----

  /** The method terminates on every input with the order of that input; on distinct ids it is the specified one. */
  method OrderTasks(ids: seq<string>, edges: seq<Edge>) returns (r: seq<string>)
    ensures r == OrderOf(ids, edges)
    ensures Ids(r) == Ids(ids)
    ensures Distinct(ids) ==> r == OrderSpec(Ids(ids), Dependencies(edges, ids))
  {
    hide Open, Sources, Pairs, SortedBy, Released, Sorted, Roots, Unplaced, Distinct, Kahn, OrderSpec;
    var indegree, dependents := CountDegrees(ids, edges);
    ghost var ps := Pairs(edges, ids);
    PairsStayInside(edges, ids);
    assert indegree == Degrees(ps, ids);
    var ready := SortStrings(Roots(ids, indegree));
    RootsAreMembers(ids, indegree);
    var ordered: seq<string> := [];
    assert KahnPlaced(ids, edges) == [] + Kahn(ps, indegree, ready);
    while |ready| > 0
      invariant indegree.Keys == Ids(ids) && SortedBy(ready, Same)
      invariant forall id :: id in ready ==> id in ids
      invariant forall id :: id in ordered ==> id in ids
      invariant KahnPlaced(ids, edges) == ordered + Kahn(ps, indegree, ready)
      decreases |Blocked(indegree)| + |ready|
    {
      var next := ready[0];
      var ds := SortStrings(Listed(dependents, next));
      SortByKeeps(Listed(dependents, next), Same);
      DependentsAreMembers(ps, ids, next, ds);
      SortedTail(ready);
      var indegree', ready' := Release(ds, indegree, ready[1..]);
      KahnTurn(ps, indegree, ready, ds, indegree', ready');
      JoinedTail(ordered, next, Kahn(ps, indegree', ready'));
      ReleasedAreUnblocked(ds, indegree, indegree');
      ReadyStayMembers(ids, ds, indegree, ready[1..], ready');
      ordered := ordered + [next];
      indegree, ready := indegree', ready';
    }
    KahnDone(ps, indegree);
    assert ordered + [] == ordered;
    var leftover := SortStrings(Unplaced(ids, ordered));
    AllMembers(ids, ordered);
    if Distinct(ids) { DistinctOrder(ids, edges); }
    r := ordered + leftover;
  }

  lemma KahnDone(ps: seq<Pair>, indegree: map<string, int>)
    ensures Kahn(ps, indegree, []) == []
  {
  }

  /** The order does not depend on how the ids are listed, nor on the order or repetition of edges. */
  lemma OrderIgnoresListing(ids: seq<string>, ids': seq<string>, edges: seq<Edge>, edges': seq<Edge>)
    requires forall id :: id in ids <==> id in ids'
    requires forall e :: e in edges && e.kind == DependsOn ==> Depends(edges', e.source, e.target)
    requires forall e :: e in edges' && e.kind == DependsOn ==> Depends(edges, e.source, e.target)
    ensures OrderSpec(Ids(ids), Dependencies(edges, ids)) == OrderSpec(Ids(ids'), Dependencies(edges', ids'))
  {
    assert Ids(ids) == Ids(ids');
    forall p | p in Dependencies(edges, ids) ensures p in Dependencies(edges', ids') {
      var e :| e in edges && BetweenMembers(e, ids) && (e.source, e.target) == p;
      assert Depends(edges', e.source, e.target);
      var e' :| e' in edges' && e'.kind == DependsOn && e'.source == e.source && e'.target == e.target;
      assert BetweenMembers(e', ids');
    }
    forall p | p in Dependencies(edges', ids') ensures p in Dependencies(edges, ids) {
      var e :| e in edges' && BetweenMembers(e, ids') && (e.source, e.target) == p;
      assert Depends(edges, e.source, e.target);
      var e' :| e' in edges && e'.kind == DependsOn && e'.source == e.source && e'.target == e.target;
      assert BetweenMembers(e', ids);
    }
    assert Dependencies(edges, ids) == Dependencies(edges', ids');
  }

  ghost predicate Depends(edges: seq<Edge>, source: string, target: string) {
    exists e :: e in edges && e.kind == DependsOn && e.source == source && e.target == target
  }
}
