/**
 The task order when ids are repeated.  A repeated task without member dependencies is
 placed as often as it is listed, and each time it counts for its dependents.
 */
module TaskRepeats {
  import opened Text
  import opened ProjectionRecords
  import opened TaskOrder
  import opened TaskOrdering

  ghost predicate HasDependency(ids: seq<string>, edges: seq<Edge>, id: string) {
    exists p :: p in Dependencies(edges, ids) && p.0 == id
  }

  lemma OpenMeansDependency(ids: seq<string>, edges: seq<Edge>, id: string)
    ensures Open(Pairs(edges, ids), id, Ids(ids)) > 0 <==> HasDependency(ids, edges, id)
  {
    hide Open, Pairs, Dependencies;
    PairsAreDependencies(edges, ids);
    PairsStayInside(edges, ids);
    OpenIsZero(Pairs(edges, ids), id, Ids(ids));
  }

  // ----- How often a task is placed -----

  /** A task is placed as often as it is ready, and once more when its count runs out. */
  lemma {:induction false} KahnCounts(ps: seq<Pair>, indegree: map<string, int>, ready: seq<string>, id: string)
    ensures var n := multiset(Kahn(ps, indegree, ready))[id];
            && multiset(ready)[id] <= n <= multiset(ready)[id] + 1
            && (id !in indegree || indegree[id] <= 0 ==> n == multiset(ready)[id])
    decreases |Blocked(indegree)| + |ready|
  {
    if ready != [] {
      var ds := Sources(ps, ready[0]);
      var degrees, next := Lowered(indegree, ds), ReadyNext(ready[1..], ds, indegree);
      hide Kahn, Sources, ReadyNext, SortedBy;
      var rest := Kahn(ps, degrees, next);
      KahnStep(ps, indegree, ready);
      KahnEnds(ready[1..], ds, indegree);
      ReadyNextHolds(ready[1..], ds, indegree);
      KahnCounts(ps, degrees, next, id);
      CountCons(ready[0], rest, id);
      CountCons(ready[0], ready[1..], id);
      assert ready == [ready[0]] + ready[1..];
      assert multiset(Released(ds, indegree))[id] == if id in Released(ds, indegree) then 1 else 0;
    }
  }

  lemma CountCons(x: string, s: seq<string>, id: string)
    ensures multiset([x] + s)[id] == multiset(s)[id] + if x == id then 1 else 0
  {
  }

  lemma SortedRoots(ids: seq<string>, degrees: map<string, int>)
    ensures multiset(SortStrings(Roots(ids, degrees))) == multiset(Roots(ids, degrees))
  {
    SortByKeeps(Roots(ids, degrees), Same);
  }

  lemma SortedUnplaced(ids: seq<string>, placed: seq<string>)
    ensures multiset(SortStrings(Unplaced(ids, placed))) == multiset(Unplaced(ids, placed))
  {
    SortByKeeps(Unplaced(ids, placed), Same);
  }

  /** How often a task counts for its dependents once it is placed. */
  ghost function Weight(ids: seq<string>, ps: seq<Pair>, id: string): nat {
    if Open(ps, id, Ids(ids)) == 0 then multiset(ids)[id] else 1
  }

  /** A task is placed with its full weight or not at all. */
  lemma PlacedCount(ids: seq<string>, edges: seq<Edge>, id: string)
    ensures var ps, placed := Pairs(edges, ids), KahnPlaced(ids, edges);
            && multiset(placed)[id] == (if id in placed then Weight(ids, ps, id) else 0)
            && (id in placed ==> id in ids) && (id in ids && Open(ps, id, Ids(ids)) == 0 ==> id in placed)
  {
    hide Kahn, Pairs, SortedBy, Open;
    var ps := Pairs(edges, ids);
    var degrees, placed := Degrees(ps, ids), KahnPlaced(ids, edges);
    var ready := SortStrings(Roots(ids, degrees));
    hide Roots, SortStrings;
    SortedRoots(ids, degrees);
    RootsCount(ids, degrees, id);
    KahnCounts(ps, degrees, ready, id);
    assert id in placed <==> multiset(placed)[id] > 0;
    assert id in ids <==> multiset(ids)[id] > 0;
  }

  // ----- What placed tasks count for a dependent -----

  /** How many decrements of a task's count the placed tasks account for. */
  function Credit(qs: seq<Pair>, placed: seq<string>, x: string): nat {
    if qs == [] then 0
    else
      var q := qs[|qs| - 1];
      Credit(qs[..|qs| - 1], placed, x) + if q.0 == x then multiset(placed)[q.1] else 0
  }

  lemma {:induction false} CreditCons(qs: seq<Pair>, y: string, s: seq<string>, x: string)
    ensures Credit(qs, [y] + s, x) == Credit(qs, s, x) + multiset(Sources(qs, y))[x]
  {
    if qs != [] {
      CreditCons(qs[..|qs| - 1], y, s, x);
      CountCons(y, s, qs[|qs| - 1].1);
    }
  }

  lemma {:induction false} CreditSnoc(qs: seq<Pair>, s: seq<string>, y: string, x: string)
    ensures Credit(qs, s + [y], x) == Credit(qs, s, x) + multiset(Sources(qs, y))[x]
  {
    if qs != [] {
      CreditSnoc(qs[..|qs| - 1], s, y, x);
      CountSnoc(s, y, qs[|qs| - 1].1);
    }
  }

  lemma {:induction false} NoCredit(qs: seq<Pair>, x: string)
    ensures Credit(qs, [], x) == 0
  {
    if qs != [] { NoCredit(qs[..|qs| - 1], x); }
  }

  /** A task that is never placed has more open dependencies than the placed tasks account for. */
  lemma {:induction false} KahnDrains(ps: seq<Pair>, indegree: map<string, int>, ready: seq<string>, x: string)
    requires x in indegree && indegree[x] > 0 && x !in Kahn(ps, indegree, ready)
    ensures indegree[x] > Credit(ps, Kahn(ps, indegree, ready), x)
    decreases |Blocked(indegree)| + |ready|
  {
    if ready == [] {
      KahnDone(ps, indegree);
      NoCredit(ps, x);
    } else {
      var ds := Sources(ps, ready[0]);
      var degrees, next := Lowered(indegree, ds), ReadyNext(ready[1..], ds, indegree);
      hide Kahn, Sources, ReadyNext, SortedBy, Credit;
      var rest := Kahn(ps, degrees, next);
      KahnStep(ps, indegree, ready);
      KahnEnds(ready[1..], ds, indegree);
      ReadyNextHolds(ready[1..], ds, indegree);
      KahnCounts(ps, degrees, next, x);
      CreditCons(ps, ready[0], rest, x);
      assert x !in rest && multiset(rest)[x] == 0;
      assert x !in Released(ds, indegree);
      if multiset(ds)[x] > 0 { assert x in ds; }
      KahnDrains(ps, degrees, next, x);
    }
  }

  lemma UnplacedFallsShort(ids: seq<string>, edges: seq<Edge>, x: string)
    requires x in ids && x !in KahnPlaced(ids, edges)
    ensures Open(Pairs(edges, ids), x, Ids(ids)) > Credit(Pairs(edges, ids), KahnPlaced(ids, edges), x)
  {
    hide Kahn, Pairs, Open, Credit, Roots, SortStrings;
    PlacedCount(ids, edges, x);
    var ps := Pairs(edges, ids);
    KahnDrains(ps, Degrees(ps, ids), SortStrings(Roots(ids, Degrees(ps, ids))), x);
  }

  /** A dependency that no placed task accounts for. */
  lemma {:induction false} MissingDependency(qs: seq<Pair>, placed: seq<string>, x: string,
                                             todo: set<string>) returns (t: string)
    requires Open(qs, x, todo) > Credit(qs, placed, x)
    ensures (x, t) in qs && t in todo && t !in placed
  {
    var before, q := qs[..|qs| - 1], qs[|qs| - 1];
    if q.0 == x && q.1 in todo && q.1 !in placed {
      t := q.1;
      assert q == (x, t);
    } else {
      assert q.0 == x && q.1 in todo ==> multiset(placed)[q.1] > 0;
      t := MissingDependency(before, placed, x, todo);
    }
  }

  /** Repeated or not, a task that is never placed reaches a dependency cycle. */
  lemma UnplacedReachesCycle(ids: seq<string>, edges: seq<Edge>, id: string)
    requires id in ids && id !in KahnPlaced(ids, edges)
    ensures ReachesCycle(Dependencies(edges, ids), id)
  {
    hide Pairs, Open, Credit, KahnPlaced, ReachesCycle, Dependencies;
    var ps, placed, deps := Pairs(edges, ids), KahnPlaced(ids, edges), Dependencies(edges, ids);
    PairsAreDependencies(edges, ids);
    var stuck := Ids(ids) - Ids(placed);
    forall x | x in stuck ensures exists y :: y in stuck && (x, y) in deps {
      UnplacedFallsShort(ids, edges, x);
      var t := MissingDependency(ps, placed, x, Ids(ids));
      assert t in stuck && (x, t) in deps;
    }
    StuckReachesCycle(stuck, deps, id);
  }

  // ----- Which tasks are placed, from the input alone -----

  /** What the tasks of a set would count for a dependent. */
  ghost function Granted(qs: seq<Pair>, ids: seq<string>, ps: seq<Pair>, members: set<string>, x: string): nat {
    if qs == [] then 0
    else
      var q := qs[|qs| - 1];
      Granted(qs[..|qs| - 1], ids, ps, members, x)
      + if q.0 == x && q.1 in members then Weight(ids, ps, q.1) else 0
  }

  /**
   Every task that the set counts enough for, those without member dependencies included, is
   in the set, tasks that are held back excepted.
   */
  ghost predicate Closed(ids: seq<string>, edges: seq<Edge>, members: set<string>, held: set<string>) {
    var ps := Pairs(edges, ids);
    forall x :: x in ids && x !in held && Granted(ps, ids, ps, members, x) >= Open(ps, x, Ids(ids)) ==> x in members
  }

  /** The task is in every closed set. */
  ghost predicate Forced(ids: seq<string>, edges: seq<Edge>, id: string, held: set<string>) {
    id in ids && forall members: set<string> :: Closed(ids, edges, members, held) ==> id in members
  }

  lemma {:induction false} CreditIsGranted(
      qs: seq<Pair>, placed: seq<string>, ids: seq<string>, ps: seq<Pair>, members: set<string>, x: string)
    requires forall t :: multiset(placed)[t] == if t in members then Weight(ids, ps, t) else 0
    ensures Credit(qs, placed, x) == Granted(qs, ids, ps, members, x)
  {
    hide Weight;
    if qs != [] { CreditIsGranted(qs[..|qs| - 1], placed, ids, ps, members, x); }
  }

  lemma {:induction false} CreditWithinGranted(
      qs: seq<Pair>, placed: seq<string>, ids: seq<string>, ps: seq<Pair>, members: set<string>, x: string)
    requires forall t :: multiset(placed)[t] <= if t in members then Weight(ids, ps, t) else 0
    ensures Credit(qs, placed, x) <= Granted(qs, ids, ps, members, x)
  {
    hide Weight;
    if qs != [] { CreditWithinGranted(qs[..|qs| - 1], placed, ids, ps, members, x); }
  }

  lemma PlacedIsClosed(ids: seq<string>, edges: seq<Edge>)
    ensures Closed(ids, edges, Ids(KahnPlaced(ids, edges)), {})
  {
    hide Pairs, Open, Credit, Granted, KahnPlaced, Weight;
    var ps, placed := Pairs(edges, ids), KahnPlaced(ids, edges);
    forall t ensures multiset(placed)[t] == if t in Ids(placed) then Weight(ids, ps, t) else 0 {
      PlacedCount(ids, edges, t);
    }
    forall x | x in ids && Granted(ps, ids, ps, Ids(placed), x) >= Open(ps, x, Ids(ids)) ensures x in Ids(placed) {
      CreditIsGranted(ps, placed, ids, ps, Ids(placed), x);
      if x !in placed { UnplacedFallsShort(ids, edges, x); }
    }
  }

  /** The counts after some tasks were placed: what is open less what they account for. */
  ghost predicate Spent(ids: seq<string>, ps: seq<Pair>, done: seq<string>, indegree: map<string, int>) {
    indegree.Keys == Ids(ids) && forall x ::
                                   x in indegree ==> indegree[x] == Open(ps, x, Ids(ids)) - Credit(ps, done, x)
  }

  lemma SpentStep(ids: seq<string>, ps: seq<Pair>, done: seq<string>, indegree: map<string, int>, y: string)
    requires Spent(ids, ps, done, indegree)
    ensures Spent(ids, ps, done + [y], Lowered(indegree, Sources(ps, y)))
  {
    hide Open, Credit, Sources;
    forall x | x in indegree ensures Credit(ps, done + [y], x) == Credit(ps, done, x) + multiset(Sources(ps, y))[x] {
      CreditSnoc(ps, done, y, x);
    }
  }

  /** A released task is covered by what is placed by then. */
  lemma ReleasedIsCovered(ids: seq<string>, ps: seq<Pair>, done: seq<string>, indegree: map<string, int>, y: string,
                          x: string)
    requires Spent(ids, ps, done, indegree) && x in Released(Sources(ps, y), indegree)
    ensures x in ids && Credit(ps, done, x) < Open(ps, x, Ids(ids)) <= Credit(ps, done + [y], x)
    ensures (x, y) in ps
  {
    hide Open, Credit, Sources;
    CreditSnoc(ps, done, y, x);
    SourcesDepend(ps, y);
    assert x in Ids(ids);
  }

  lemma ReadyNextMembers(rest: seq<string>, ds: seq<string>, indegree: map<string, int>, x: string)
    ensures x in ReadyNext(rest, ds, indegree) <==> x in rest || x in Released(ds, indegree)
  {
    hide ReadyNext, Released, SortedBy;
    ReadyNextHolds(rest, ds, indegree);
    var next := ReadyNext(rest, ds, indegree);
    assert x in next <==> multiset(next)[x] > 0;
    assert x in rest <==> multiset(rest)[x] > 0;
  }

  /** The list the loop ends with, seen from a point of the run. */
  ghost predicate OnTheWay(ids: seq<string>, ps: seq<Pair>, total: seq<string>, done: seq<string>,
                           indegree: map<string, int>, ready: seq<string>)
  {
    && Spent(ids, ps, done, indegree)
    && total == done + Kahn(ps, indegree, ready)
    && (forall t :: multiset(total)[t] <= Weight(ids, ps, t))
  }

  lemma OnTheWayStep(ids: seq<string>, ps: seq<Pair>, total: seq<string>, done: seq<string>,
                     indegree: map<string, int>, ready: seq<string>)
    requires OnTheWay(ids, ps, total, done, indegree, ready) && ready != []
    ensures var ds := Sources(ps, ready[0]);
            OnTheWay(ids, ps, total, done + [ready[0]], Lowered(indegree, ds), ReadyNext(ready[1..], ds, indegree))
    ensures forall t :: multiset(done + [ready[0]])[t] <= Weight(ids, ps, t)
  {
    hide Spent, Kahn, Sources, ReadyNext, Weight, Lowered;
    var y, ds := ready[0], Sources(ps, ready[0]);
    SpentStep(ids, ps, done, indegree, y);
    KahnStep(ps, indegree, ready);
    var rest := Kahn(ps, Lowered(indegree, ds), ReadyNext(ready[1..], ds, indegree));
    JoinedTail(done, y, rest);
    forall t ensures multiset(done + [y])[t] <= multiset(total)[t] { CountJoin(done + [y], rest, t); }
  }

  lemma CountJoin(a: seq<string>, b: seq<string>, t: string)
    ensures multiset(a + b)[t] == multiset(a)[t] + multiset(b)[t]
  {
  }

  /** Up to the first task that is held back, the loop places nothing outside a closed set. */
  lemma {:induction false} KahnStaysIn(
      ids: seq<string>, edges: seq<Edge>, members: set<string>, held: set<string>, total: seq<string>, i: nat,
      done: seq<string>, indegree: map<string, int>, ready: seq<string>)
    requires Closed(ids, edges, members, held) && OnTheWay(ids, Pairs(edges, ids), total, done, indegree, ready)
    requires (forall y :: y in done ==> y in members) && (forall y :: y in ready && y !in held ==> y in members)
    requires i < |total| && forall k :: 0 <= k <= i ==> total[k] !in held
    ensures total[i] in members
    decreases |Blocked(indegree)| + |ready|
  {
    var ps := Pairs(edges, ids);
    if ready == [] { KahnDone(ps, indegree); }
    if i < |done| {
      assert total[i] == done[i];
    } else {
      var y, ds := ready[0], Sources(ps, ready[0]);
      var now, next := done + [y], ReadyNext(ready[1..], ds, indegree);
      KahnStep(ps, indegree, ready);
      assert total[|done|] == y;
      if i > |done| {
        OnTheWayStep(ids, ps, total, done, indegree, ready);
        KahnEnds(ready[1..], ds, indegree);
        assert Spent(ids, ps, done, indegree);
        hide OnTheWay, Pairs, Sources, ReadyNext, Weight, Granted, Open, Credit, Spent, Kahn, Released;
        forall x | x in next && x !in held ensures x in members {
          ReadyNextMembers(ready[1..], ds, indegree, x);
          if x in ready[1..] {
            assert x in ready;
          } else {
            ReleasedIsCovered(ids, ps, done, indegree, y, x);
            forall t ensures multiset(now)[t] <= if t in members then Weight(ids, ps, t) else 0 {
              assert t in now <==> multiset(now)[t] > 0;
            }
            CreditWithinGranted(ps, now, ids, ps, members, x);
          }
        }
        KahnStaysIn(ids, edges, members, held, total, i, now, Lowered(indegree, ds), next);
      }
    }
  }

  lemma StartIsOnTheWay(ids: seq<string>, edges: seq<Edge>)
    ensures var ps := Pairs(edges, ids);
            OnTheWay(ids, ps, KahnPlaced(ids, edges), [], Degrees(ps, ids), SortStrings(Roots(ids, Degrees(ps, ids))))
  {
    hide Pairs, Open, Kahn, Weight, Roots, SortStrings, Credit;
    var ps := Pairs(edges, ids);
    forall x ensures Credit(ps, [], x) == 0 { NoCredit(ps, x); }
    forall t ensures multiset(KahnPlaced(ids, edges))[t] <= Weight(ids, ps, t) { PlacedCount(ids, edges, t); }
    assert [] + KahnPlaced(ids, edges) == KahnPlaced(ids, edges);
  }

  /** The roots are in every closed set. */
  lemma RootsAreForced(ids: seq<string>, edges: seq<Edge>, members: set<string>, held: set<string>, y: string)
    requires Closed(ids, edges, members, held) && y !in held
    requires var ps := Pairs(edges, ids); y in SortStrings(Roots(ids, Degrees(ps, ids)))
    ensures y in members
  {
    hide Pairs, Open, Granted, Roots, SortStrings;
    var ps := Pairs(edges, ids);
    var degrees := Degrees(ps, ids);
    SortedRoots(ids, degrees);
    RootsCount(ids, degrees, y);
    assert multiset(SortStrings(Roots(ids, degrees)))[y] > 0;
    assert multiset(ids)[y] > 0;
  }

  /** What is placed before any held-back task is forced while those are held back. */
  lemma PlacedIsForced(ids: seq<string>, edges: seq<Edge>, held: set<string>, i: nat)
    requires i < |KahnPlaced(ids, edges)| && forall k :: 0 <= k <= i ==> KahnPlaced(ids, edges)[k] !in held
    ensures Forced(ids, edges, KahnPlaced(ids, edges)[i], held)
  {
    hide Pairs, Open, KahnPlaced, Closed, OnTheWay, Roots, SortStrings;
    var ps, placed := Pairs(edges, ids), KahnPlaced(ids, edges);
    var degrees := Degrees(ps, ids);
    var ready := SortStrings(Roots(ids, degrees));
    PlacedCount(ids, edges, placed[i]);
    StartIsOnTheWay(ids, edges);
    forall members: set<string> | Closed(ids, edges, members, held) ensures placed[i] in members {
      forall y | y in ready && y !in held ensures y in members { RootsAreForced(ids, edges, members, held, y); }
      KahnStaysIn(ids, edges, members, held, placed, i, [], degrees, ready);
    }
  }

  /** A task is placed exactly when every closed set of the input holds it. */
  lemma PlacedIffForced(ids: seq<string>, edges: seq<Edge>, id: string)
    ensures id in KahnPlaced(ids, edges) <==> Forced(ids, edges, id, {})
  {
    hide KahnPlaced, Closed;
    PlacedIsClosed(ids, edges);
    var placed := KahnPlaced(ids, edges);
    if id in placed {
      var i: nat :| i < |placed| && placed[i] == id;
      PlacedIsForced(ids, edges, {}, i);
    }
  }

  // ----- What comes out -----

  /**
   How often a task comes out when ids are repeated: once when it has a member dependency and
   every closed set holds it, and otherwise as often as it was listed.
   */
  lemma RepeatedIds(ids: seq<string>, edges: seq<Edge>, id: string)
    ensures multiset(OrderOf(ids, edges))[id]
            == if HasDependency(ids, edges, id) && Forced(ids, edges, id, {}) then 1 else multiset(ids)[id]
  {
    hide Pairs, Open, KahnPlaced, HasDependency, Forced, Unplaced, SortStrings;
    var placed := KahnPlaced(ids, edges);
    OpenMeansDependency(ids, edges, id);
    PlacedIffForced(ids, edges, id);
    PlacedCount(ids, edges, id);
    UnplacedCount(ids, placed, id);
    SortedUnplaced(ids, placed);
    CountJoin(placed, SortStrings(Unplaced(ids, placed)), id);
    assert id in placed <==> multiset(placed)[id] > 0;
    assert id in ids <==> multiset(ids)[id] > 0;
  }

  /** The result has the tasks of the input and no others. */
  lemma OrderMembers(ids: seq<string>, edges: seq<Edge>, id: string)
    ensures id in OrderOf(ids, edges) <==> id in ids
  {
    hide OrderOf, HasDependency, Closed;
    RepeatedIds(ids, edges, id);
    assert id in OrderOf(ids, edges) <==> multiset(OrderOf(ids, edges))[id] > 0;
    assert id in ids <==> multiset(ids)[id] > 0;
  }

  /** The result is a permutation of the input exactly when no repeated task with a member dependency is forced. */
  lemma PermutationIff(ids: seq<string>, edges: seq<Edge>)
    ensures multiset(OrderOf(ids, edges)) == multiset(ids)
            <==> forall id :: multiset(ids)[id] > 1 && HasDependency(ids, edges, id) ==> !Forced(ids, edges, id, {})
  {
    hide OrderOf, HasDependency;
    forall id
      ensures multiset(OrderOf(ids, edges))[id]
              == if HasDependency(ids, edges, id) && Forced(ids, edges, id, {}) then 1 else multiset(ids)[id]
      ensures Forced(ids, edges, id, {}) ==> multiset(ids)[id] > 0
    {
      RepeatedIds(ids, edges, id);
      assert id in ids <==> multiset(ids)[id] > 0;
    }
  }

  /** A repeated task that keeps all its listings and has a member dependency reaches a cycle. */
  lemma KeptRepeatReachesCycle(ids: seq<string>, edges: seq<Edge>, id: string)
    requires multiset(OrderOf(ids, edges))[id] > 1 && HasDependency(ids, edges, id)
    ensures ReachesCycle(Dependencies(edges, ids), id)
  {
    hide OrderOf, KahnPlaced, Forced, ReachesCycle, HasDependency;
    RepeatedIds(ids, edges, id);
    PlacedIffForced(ids, edges, id);
    assert multiset(ids)[id] > 0;
    UnplacedReachesCycle(ids, edges, id);
  }

  /**
   Without cycles every task is forced, so the result is a permutation exactly when no task
   that depends on a member is repeated.
   */
  lemma AcyclicPermutationIff(ids: seq<string>, edges: seq<Edge>)
    requires Acyclic(Ids(ids), Dependencies(edges, ids))
    ensures multiset(OrderOf(ids, edges)) == multiset(ids)
            <==> forall p :: p in Dependencies(edges, ids) ==> multiset(ids)[p.0] == 1
  {
    hide OrderOf, KahnPlaced, Forced, ReachesCycle;
    forall id | id in ids ensures Forced(ids, edges, id, {}) {
      PlacedIffForced(ids, edges, id);
      assert id in Ids(ids);
      if id !in KahnPlaced(ids, edges) { UnplacedReachesCycle(ids, edges, id); }
    }
    PermutationIff(ids, edges);
    forall p | p in Dependencies(edges, ids)
      ensures multiset(ids)[p.0] >= 1 && p.0 in ids && HasDependency(ids, edges, p.0)
    {
      assert multiset(ids)[p.0] > 0;
    }
  }

  /** A task listed twice that depends on another one. */
  function Dropped(a: string, b: string): seq<string> {
    [a, b, b]
  }

  function Dropping(a: string, b: string): seq<Edge> {
    [Edge("1", DependsOn, b, a, Accepted)]
  }

  /** It comes out once: the result is no permutation of the input. */
  lemma RepeatedDependentIsDropped(a: string, b: string)
    requires a != b
    ensures multiset(OrderOf(Dropped(a, b), Dropping(a, b))) != multiset(Dropped(a, b))
  {
    hide OrderOf, ReachesCycle;
    var ids, edges := Dropped(a, b), Dropping(a, b);
    var deps := Dependencies(edges, ids);
    var e := edges[0];
    assert e in edges && BetweenMembers(e, ids) && (b, a) in deps;
    assert forall p :: p in deps ==> p == (b, a);
    var order := [a, b];
    assert order[..1] == [a];
    assert Distinct(order) && DependenciesFirst(order, deps, Ids(ids));
    forall id | id in Ids(ids) ensures !ReachesCycle(deps, id) { PlacedHasNoCycle(order, deps, Ids(ids), id); }
    AcyclicPermutationIff(ids, edges);
    assert multiset(ids)[b] == 2;
  }
}
