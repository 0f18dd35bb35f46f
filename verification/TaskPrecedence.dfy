/**
 When tasks come after their dependencies although ids are repeated.  A repeated task without
 member dependencies counts several times for its dependents, which can release one of them
 before another of its dependencies is placed; whether it does depends on how the ids sort.
 */
module TaskPrecedence {
  import opened Text
  import opened ProjectionRecords
  import opened TaskOrder
  import opened TaskOrdering
  import opened TaskRepeats

  ghost predicate Keeps(ids: seq<string>, edges: seq<Edge>) {
    DependenciesFirst(KahnPlaced(ids, edges), Dependencies(edges, ids), Ids(ids))
  }

  /** The first task is placed while the second is not. */
  ghost predicate Jumps(s: seq<string>, x: string, t: string) {
    exists i :: 0 <= i < |s| && s[i] == x && t !in s[..i]
  }

  lemma KeepsIffNoneJumps(ids: seq<string>, edges: seq<Edge>)
    ensures Keeps(ids, edges)
            <==> forall p :: p in Dependencies(edges, ids) ==> !Jumps(KahnPlaced(ids, edges), p.0, p.1)
  {
    hide KahnPlaced;
    var placed := KahnPlaced(ids, edges);
    if Keeps(ids, edges) {
      forall p | p in Dependencies(edges, ids) ensures !Jumps(placed, p.0, p.1) {
        assert p.1 in Ids(ids);
      }
    } else {
      var i, p :| 0 <= i < |placed| && p in Dependencies(edges, ids) && p.0 == placed[i] && p.1 !in placed[..i];
      assert Jumps(placed, p.0, p.1);
    }
  }

  /** A task is forced even while another one is held back. */
  ghost predicate Early(ids: seq<string>, edges: seq<Edge>, x: string, t: string) {
    Forced(ids, edges, x, {t} - {x})
  }

  // ----- However the ids sort -----

  lemma JumpIsEarly(ids: seq<string>, edges: seq<Edge>, x: string, t: string)
    requires Jumps(KahnPlaced(ids, edges), x, t)
    ensures Early(ids, edges, x, t)
  {
    hide KahnPlaced, Forced;
    var placed := KahnPlaced(ids, edges);
    var i :| 0 <= i < |placed| && placed[i] == x && t !in placed[..i];
    forall k | 0 <= k <= i ensures placed[k] !in {t} - {x} {
      if k < i { assert placed[k] == placed[..i][k]; }
    }
    PlacedIsForced(ids, edges, {t} - {x}, i);
  }

  /** If no dependent is early, dependencies come first. */
  lemma NoneEarlyKeeps(ids: seq<string>, edges: seq<Edge>)
    requires forall p :: p in Dependencies(edges, ids) ==> !Early(ids, edges, p.0, p.1)
    ensures Keeps(ids, edges)
  {
    hide Keeps, Early, Dependencies, KahnPlaced, Jumps;
    KeepsIffNoneJumps(ids, edges);
    forall p | p in Dependencies(edges, ids) ensures !Jumps(KahnPlaced(ids, edges), p.0, p.1) {
      if Jumps(KahnPlaced(ids, edges), p.0, p.1) { JumpIsEarly(ids, edges, p.0, p.1); }
    }
  }

  /** A repeated task that counts more than once is the only dependency of each of its dependents. */
  ghost predicate Harmless(ids: seq<string>, edges: seq<Edge>) {
    forall p, q :: p in Dependencies(edges, ids) && q in Dependencies(edges, ids) && p.0 == q.0 && p.1 != q.1 ==>
      multiset(ids)[p.1] == 1 || HasDependency(ids, edges, p.1)
  }

  /** Tasks that count once each cannot make up for one that is missing. */
  lemma {:induction false} MissingFallsShort(qs: seq<Pair>, ids: seq<string>, ps: seq<Pair>, members: set<string>,
                                             x: string, t: string)
    requires forall q :: q in qs && q.0 == x ==> q.1 in Ids(ids) && (q.1 in members ==> Weight(ids, ps, q.1) <= 1)
    requires t !in members
    ensures Granted(qs, ids, ps, members, x) <= Open(qs, x, Ids(ids))
    ensures (x, t) in qs ==> Granted(qs, ids, ps, members, x) < Open(qs, x, Ids(ids))
    decreases |qs|
  {
    hide Weight;
    if qs != [] {
      var before, q := qs[..|qs| - 1], qs[|qs| - 1];
      assert qs == before + [q] && q in qs;
      assert forall p :: p in before ==> p in qs;
      MissingFallsShort(before, ids, ps, members, x, t);
    }
  }

  lemma HarmlessIsNotEarly(ids: seq<string>, edges: seq<Edge>, x: string, t: string)
    requires Harmless(ids, edges) && (x, t) in Dependencies(edges, ids)
    ensures !Early(ids, edges, x, t)
  {
    hide Pairs, Open, Granted, Dependencies, HasDependency;
    var ps, members := Pairs(edges, ids), Ids(ids) - {x, t};
    PairsStayInside(edges, ids);
    PairsAreDependencies(edges, ids);
    forall q | q in ps && q.0 == x && q.1 in members ensures Weight(ids, ps, q.1) <= 1 {
      assert q.1 != (x, t).1 && multiset(ids)[q.1] > 0;
      OpenMeansDependency(ids, edges, q.1);
    }
    MissingFallsShort(ps, ids, ps, members, x, t);
    assert Closed(ids, edges, members, {t} - {x});
  }

  /**
   With repeated ids dependencies still come first, as long as no task that counts more than
   once is one of several dependencies of another.
   */
  lemma HarmlessRepeatsKeepOrder(ids: seq<string>, edges: seq<Edge>)
    requires Harmless(ids, edges)
    ensures Keeps(ids, edges)
  {
    hide Harmless, Early, Keeps;
    forall p | p in Dependencies(edges, ids) ensures !Early(ids, edges, p.0, p.1) {
      HarmlessIsNotEarly(ids, edges, p.0, p.1);
    }
    NoneEarlyKeeps(ids, edges);
  }

  // ----- A dependency that sorts last -----

  ghost predicate Last(ids: seq<string>, t: string) {
    forall y :: y in ids && y != t ==> Less(y, t)
  }

  /** Tasks are placed or ready exactly when their count has run out. */
  ghost predicate Settled(ids: seq<string>, done: seq<string>, ready: seq<string>, indegree: map<string, int>) {
    && indegree.Keys == Ids(ids)
    && (forall x :: x in ids ==> (indegree[x] <= 0 <==> x in done || x in ready))
    && (forall x :: x in done || x in ready ==> x in ids)
  }

  lemma SettledStep(ids: seq<string>, done: seq<string>, ready: seq<string>, indegree: map<string, int>,
                    ds: seq<string>)
    requires Settled(ids, done, ready, indegree) && ready != []
    ensures Settled(ids, done + [ready[0]], ReadyNext(ready[1..], ds, indegree), Lowered(indegree, ds))
  {
    hide ReadyNext;
    var now, next, lowered := done + [ready[0]], ReadyNext(ready[1..], ds, indegree), Lowered(indegree, ds);
    assert ready == [ready[0]] + ready[1..];
    assert forall x :: x in ids <==> x in Ids(ids);
    forall x ensures x in next <==> x in ready[1..] || x in Released(ds, indegree) {
      ReadyNextMembers(ready[1..], ds, indegree, x);
    }
    assert forall x :: multiset(ds)[x] > 0 <==> x in ds;
  }

  /** A sorted ready list that starts with the last id holds nothing else. */
  lemma OnlyTheLast(ids: seq<string>, ready: seq<string>, t: string)
    requires Last(ids, t) && SortedBy(ready, Same) && (ready != [] ==> ready[0] == t)
    ensures forall y :: y in ready && y in ids ==> y == t
  {
    hide Less;
    forall y | y in ready && y in ids ensures y == t {
      var k :| 0 <= k < |ready| && ready[k] == y;
      assert k > 0 ==> LessEq(Same(ready[0]), Same(ready[k]));
    }
  }

  /** When nothing but the held-back task is left to place, every placed task has its full weight. */
  lemma FullWeight(ids: seq<string>, edges: seq<Edge>, done: seq<string>, indegree: map<string, int>,
                   ready: seq<string>, u: string)
    requires KahnPlaced(ids, edges) == done + Kahn(Pairs(edges, ids), indegree, ready)
    requires Settled(ids, done, ready, indegree) && (u in done ==> u !in ready)
    ensures multiset(done)[u] == if u in done then Weight(ids, Pairs(edges, ids), u) else 0
  {
    hide Pairs, Kahn, KahnPlaced, Weight;
    if u in done {
      var ps := Pairs(edges, ids);
      assert u in ids && u in Ids(ids);
      PlacedCount(ids, edges, u);
      CountJoin(done, Kahn(ps, indegree, ready), u);
      KahnCounts(ps, indegree, ready, u);
      assert multiset(ready)[u] == 0;
    }
  }

  /** At the first turn of the last id everything else that is forced without it is placed. */
  lemma HeldBackIsClosed(ids: seq<string>, edges: seq<Edge>, t: string, done: seq<string>,
                         indegree: map<string, int>, ready: seq<string>)
    requires OnTheWay(ids, Pairs(edges, ids), KahnPlaced(ids, edges), done, indegree, ready)
    requires Settled(ids, done, ready, indegree) && t !in done && forall y :: y in ready && y in ids ==> y == t
    ensures Closed(ids, edges, Ids(done), {t})
  {
    hide Pairs, Kahn, KahnPlaced, Weight, Granted, Open, Credit;
    var ps := Pairs(edges, ids);
    forall u ensures multiset(done)[u] == if u in Ids(done) then Weight(ids, ps, u) else 0 {
      FullWeight(ids, edges, done, indegree, ready, u);
    }
    forall x | x in ids && x != t && Granted(ps, ids, ps, Ids(done), x) >= Open(ps, x, Ids(ids))
      ensures x in Ids(done)
    {
      CreditIsGranted(ps, done, ids, ps, Ids(done), x);
      assert x in Ids(ids) && x in indegree && indegree[x] <= 0;
    }
  }

  lemma {:induction false} KahnHoldsBack(ids: seq<string>, edges: seq<Edge>, t: string, done: seq<string>,
                                         indegree: map<string, int>, ready: seq<string>) returns (n: nat)
    requires OnTheWay(ids, Pairs(edges, ids), KahnPlaced(ids, edges), done, indegree, ready)
    requires Settled(ids, done, ready, indegree) && SortedBy(ready, Same) && Last(ids, t) && t !in done
    ensures var placed := KahnPlaced(ids, edges);
            n <= |placed| && t !in placed[..n] && Closed(ids, edges, Ids(placed[..n]), {t})
    decreases |Blocked(indegree)| + |ready|
  {
    var ps, placed := Pairs(edges, ids), KahnPlaced(ids, edges);
    if ready == [] || ready[0] == t {
      hide Pairs, Kahn, KahnPlaced, Settled, SortedBy, Closed;
      n := |done|;
      assert placed[..n] == done;
      OnlyTheLast(ids, ready, t);
      HeldBackIsClosed(ids, edges, t, done, indegree, ready);
    } else {
      var ds := Sources(ps, ready[0]);
      OnTheWayStep(ids, ps, placed, done, indegree, ready);
      KahnEnds(ready[1..], ds, indegree);
      SettledStep(ids, done, ready, indegree, ds);
      ReadyNextHolds(ready[1..], ds, indegree);
      hide OnTheWay, Pairs, Sources, ReadyNext, Settled, SortedBy, Closed, KahnPlaced, Lowered, Last;
      n := KahnHoldsBack(ids, edges, t, done + [ready[0]], Lowered(indegree, ds), ReadyNext(ready[1..], ds, indegree));
    }
  }

  lemma StartIsSettled(ids: seq<string>, edges: seq<Edge>)
    ensures var degrees := Degrees(Pairs(edges, ids), ids);
            var ready := SortStrings(Roots(ids, degrees));
            Settled(ids, [], ready, degrees) && SortedBy(ready, Same)
  {
    hide Pairs, Open, Roots, SortStrings, SortedBy;
    var degrees := Degrees(Pairs(edges, ids), ids);
    var ready := SortStrings(Roots(ids, degrees));
    SortedRoots(ids, degrees);
    RootsAreMembers(ids, degrees);
    forall x | x in ids ensures degrees[x] <= 0 <==> x in ready {
      RootsCount(ids, degrees, x);
      assert x in ready <==> multiset(ready)[x] > 0;
      assert multiset(ids)[x] > 0;
    }
  }

  /** A dependent that is early is placed while a dependency that sorts last is not. */
  lemma EarlyJumps(ids: seq<string>, edges: seq<Edge>, x: string, t: string)
    requires Last(ids, t) && Early(ids, edges, x, t)
    ensures Jumps(KahnPlaced(ids, edges), x, t)
  {
    hide KahnPlaced, Last, Settled, Closed, OnTheWay, SortedBy, SortStrings, Roots, Pairs;
    var ps, placed := Pairs(edges, ids), KahnPlaced(ids, edges);
    var i: nat;
    if x == t {
      assert {t} - {x} == {};
      PlacedIffForced(ids, edges, x);
      i := FirstOf(placed, x);
    } else {
      StartIsOnTheWay(ids, edges);
      StartIsSettled(ids, edges);
      var n := KahnHoldsBack(ids, edges, t, [], Degrees(ps, ids), SortStrings(Roots(ids, Degrees(ps, ids))));
      assert {t} - {x} == {t} && x in placed[..n];
      i :| i < n && placed[..n][i] == x;
      assert placed[..i] == placed[..n][..i];
    }
    assert placed[i] == x && t !in placed[..i];
  }

  /** For a dependency that sorts behind all other ids the condition is exact. */
  lemma JumpsLastIff(ids: seq<string>, edges: seq<Edge>, x: string, t: string)
    requires Last(ids, t)
    ensures Jumps(KahnPlaced(ids, edges), x, t) <==> Early(ids, edges, x, t)
  {
    hide KahnPlaced, Last, Jumps, Early;
    if Jumps(KahnPlaced(ids, edges), x, t) { JumpIsEarly(ids, edges, x, t); }
    if Early(ids, edges, x, t) { EarlyJumps(ids, edges, x, t); }
  }

  lemma {:induction false} FirstOf(s: seq<string>, x: string) returns (i: nat)
    requires x in s
    ensures i < |s| && s[i] == x && x !in s[..i]
  {
    if s[0] == x {
      i := 0;
    } else {
      assert s == [s[0]] + s[1..];
      var k := FirstOf(s[1..], x);
      i := k + 1;
      assert s[..i] == [s[0]] + s[1..][..k];
    }
  }

  // ----- Other names for the same tasks -----

  ghost predicate Injective(f: string -> string) {
    forall a, b :: f(a) == f(b) ==> a == b
  }

  function Rename(f: string -> string, ids: seq<string>): seq<string> {
    seq(|ids|, i requires 0 <= i < |ids| => f(ids[i]))
  }

  function RenameEdge(f: string -> string, e: Edge): Edge {
    e.(source := f(e.source), target := f(e.target))
  }

  function RenameEdges(f: string -> string, edges: seq<Edge>): seq<Edge> {
    seq(|edges|, i requires 0 <= i < |edges| => RenameEdge(f, edges[i]))
  }

  function RenamePairs(f: string -> string, ps: seq<Pair>): seq<Pair> {
    seq(|ps|, i requires 0 <= i < |ps| => (f(ps[i].0), f(ps[i].1)))
  }

  lemma RenamePairsSnoc(f: string -> string, ps: seq<Pair>)
    requires ps != []
    ensures var p := ps[|ps| - 1];
            RenamePairs(f, ps) == RenamePairs(f, ps[..|ps| - 1]) + [(f(p.0), f(p.1))]
  {
  }

  lemma GrantedSnoc(qs: seq<Pair>, q: Pair, ids: seq<string>, ps: seq<Pair>, members: set<string>, x: string)
    ensures Granted(qs + [q], ids, ps, members, x)
            == Granted(qs, ids, ps, members, x) + if q.0 == x && q.1 in members then Weight(ids, ps, q.1) else 0
  {
    hide Weight;
    assert (qs + [q])[..|qs|] == qs;
  }

  lemma RenamedMember(f: string -> string, ids: seq<string>, x: string)
    requires Injective(f)
    ensures f(x) in Rename(f, ids) <==> x in ids
  {
    var names := Rename(f, ids);
    if x in ids {
      var i :| 0 <= i < |ids| && ids[i] == x;
      assert names[i] == f(x);
    }
    if f(x) in names {
      var i :| 0 <= i < |names| && names[i] == f(x);
      assert ids[i] == x;
    }
  }

  lemma RenameSnoc(f: string -> string, ids: seq<string>, x: string)
    ensures Rename(f, ids + [x]) == Rename(f, ids) + [f(x)]
  {
  }

  lemma {:induction false} RenamedCount(f: string -> string, ids: seq<string>, x: string)
    requires Injective(f)
    ensures multiset(Rename(f, ids))[f(x)] == multiset(ids)[x]
  {
    if ids != [] {
      hide Rename;
      var before, last := ids[..|ids| - 1], ids[|ids| - 1];
      assert ids == before + [last];
      RenamedCount(f, before, x);
      RenameSnoc(f, before, last);
      CountSnoc(before, last, x);
      CountSnoc(Rename(f, before), f(last), f(x));
    }
  }

  lemma {:induction false} RenamedPairs(f: string -> string, edges: seq<Edge>, ids: seq<string>)
    requires Injective(f)
    ensures Pairs(RenameEdges(f, edges), Rename(f, ids)) == RenamePairs(f, Pairs(edges, ids))
  {
    hide Rename;
    if edges != [] {
      var before, e := edges[..|edges| - 1], edges[|edges| - 1];
      RenamedPairs(f, before, ids);
      assert RenameEdges(f, edges) == RenameEdges(f, before) + [RenameEdge(f, e)];
      PairsSnoc(RenameEdges(f, before), RenameEdge(f, e), Rename(f, ids));
      RenamedMember(f, ids, e.source);
      RenamedMember(f, ids, e.target);
    }
  }

  lemma {:induction false} RenamedOpen(f: string -> string, ps: seq<Pair>, ids: seq<string>, x: string)
    requires Injective(f)
    ensures Open(RenamePairs(f, ps), f(x), Ids(Rename(f, ids))) == Open(ps, x, Ids(ids))
  {
    hide Rename;
    if ps != [] {
      var before, p := ps[..|ps| - 1], ps[|ps| - 1];
      RenamedOpen(f, before, ids, x);
      RenamePairsSnoc(f, ps);
      OpenSnoc(RenamePairs(f, before), (f(p.0), f(p.1)), f(x), Ids(Rename(f, ids)));
      RenamedMember(f, ids, p.1);
    }
  }

  lemma RenamedWeight(f: string -> string, ps: seq<Pair>, ids: seq<string>, x: string)
    requires Injective(f)
    ensures Weight(Rename(f, ids), RenamePairs(f, ps), f(x)) == Weight(ids, ps, x)
  {
    hide Open;
    RenamedOpen(f, ps, ids, x);
    RenamedCount(f, ids, x);
  }

  /** Two sets hold the same tasks under their names. */
  ghost predicate Corresponds(f: string -> string, ids: seq<string>, a: set<string>, b: set<string>) {
    forall x :: x in ids ==> (x in a <==> f(x) in b)
  }

  lemma {:induction false} RenamedGranted(f: string -> string, qs: seq<Pair>, ids: seq<string>, ps: seq<Pair>,
                                          a: set<string>, b: set<string>, x: string)
    requires Injective(f) && Corresponds(f, ids, a, b) && forall q :: q in qs ==> q.1 in ids
    ensures Granted(RenamePairs(f, qs), Rename(f, ids), RenamePairs(f, ps), b, f(x)) == Granted(qs, ids, ps, a, x)
    decreases |qs|
  {
    hide Rename, Weight;
    if qs != [] {
      var before, q := qs[..|qs| - 1], qs[|qs| - 1];
      assert q in qs && forall p :: p in before ==> p in qs;
      RenamedGranted(f, before, ids, ps, a, b, x);
      RenamedWeight(f, ps, ids, q.1);
      RenamePairsSnoc(f, qs);
      GrantedSnoc(RenamePairs(f, before), (f(q.0), f(q.1)), Rename(f, ids), RenamePairs(f, ps), b, f(x));
      assert f(q.0) == f(x) <==> q.0 == x;
      hide RenamePairs, Injective;
    }
  }

  lemma RenamedClosed(f: string -> string, ids: seq<string>, edges: seq<Edge>, a: set<string>, b: set<string>,
                      held: set<string>, kept: set<string>)
    requires Injective(f) && Corresponds(f, ids, a, b) && Corresponds(f, ids, held, kept)
    ensures Closed(Rename(f, ids), RenameEdges(f, edges), b, kept) <==> Closed(ids, edges, a, held)
  {
    var ps, names := Pairs(edges, ids), Rename(f, ids);
    PairsStayInside(edges, ids);
    RenamedPairs(f, edges, ids);
    assert forall y :: y in names ==> exists x :: x in ids && f(x) == y;
    hide Granted, Open, Pairs, RenamePairs, RenameEdges, Rename, Injective;
    forall x | x in ids
      ensures Granted(RenamePairs(f, ps), names, RenamePairs(f, ps), b, f(x)) == Granted(ps, ids, ps, a, x)
      ensures Open(RenamePairs(f, ps), f(x), Ids(names)) == Open(ps, x, Ids(ids)) && f(x) in names
    {
      RenamedGranted(f, ps, ids, ps, a, b, x);
      RenamedOpen(f, ps, ids, x);
      RenamedMember(f, ids, x);
    }
  }

  lemma RenamedForced(f: string -> string, ids: seq<string>, edges: seq<Edge>, x: string,
                      held: set<string>, kept: set<string>)
    requires Injective(f) && Corresponds(f, ids, held, kept)
    ensures Forced(Rename(f, ids), RenameEdges(f, edges), f(x), kept) <==> Forced(ids, edges, x, held)
  {
    hide Closed, Rename, RenameEdges;
    var names, links := Rename(f, ids), RenameEdges(f, edges);
    RenamedMember(f, ids, x);
    if Forced(ids, edges, x, held) {
      forall b: set<string> | Closed(names, links, b, kept) ensures f(x) in b {
        var a := set y | y in ids && f(y) in b;
        RenamedClosed(f, ids, edges, a, b, held, kept);
      }
    }
    if Forced(names, links, f(x), kept) {
      forall a: set<string> | Closed(ids, edges, a, held) ensures x in a {
        var b := set y | y in a :: f(y);
        RenamedClosed(f, ids, edges, a, b, held, kept);
      }
    }
  }

  lemma RenamedEarly(f: string -> string, ids: seq<string>, edges: seq<Edge>, x: string, t: string)
    requires Injective(f)
    ensures Early(Rename(f, ids), RenameEdges(f, edges), f(x), f(t)) <==> Early(ids, edges, x, t)
  {
    hide Forced, Rename, RenameEdges;
    RenamedForced(f, ids, edges, x, {t} - {x}, {f(t)} - {f(x)});
  }

  lemma RenamedDependencies(f: string -> string, ids: seq<string>, edges: seq<Edge>)
    requires Injective(f)
    ensures forall p :: p in Dependencies(edges, ids) ==>
              (f(p.0), f(p.1)) in Dependencies(RenameEdges(f, edges), Rename(f, ids))
    ensures forall q :: q in Dependencies(RenameEdges(f, edges), Rename(f, ids)) ==>
              exists p :: p in Dependencies(edges, ids) && q == (f(p.0), f(p.1))
  {
    var ps := Pairs(edges, ids);
    hide Pairs, Dependencies;
    PairsAreDependencies(edges, ids);
    PairsAreDependencies(RenameEdges(f, edges), Rename(f, ids));
    RenamedPairs(f, edges, ids);
    forall p | p in ps ensures (f(p.0), f(p.1)) in RenamePairs(f, ps) {
      var i :| 0 <= i < |ps| && ps[i] == p;
      assert RenamePairs(f, ps)[i] == (f(p.0), f(p.1));
    }
  }

  /** Names under which one task sorts last. */
  function SortingLast(t: string): string -> string {
    x => if x == t then "b" + x else "a" + x
  }

  lemma SortsLast(ids: seq<string>, t: string)
    ensures Injective(SortingLast(t)) && Last(Rename(SortingLast(t), ids), SortingLast(t)(t))
  {
    var f := SortingLast(t);
    forall a, b | f(a) == f(b) ensures a == b {
      assert f(a)[1..] == a && f(b)[1..] == b;
    }
    forall y | y in Rename(f, ids) && y != f(t) ensures Less(y, f(t)) {
      var i :| 0 <= i < |ids| && y == f(ids[i]);
    }
  }

  /**
   When the order respects the dependencies: it does however the ids sort exactly when no
   dependent is forced while one of its dependencies is held back.
   */
  lemma KeepsIffNoneEarly(ids: seq<string>, edges: seq<Edge>)
    ensures (forall f: string -> string :: Injective(f) ==> Keeps(Rename(f, ids), RenameEdges(f, edges)))
            <==> forall p :: p in Dependencies(edges, ids) ==> !Early(ids, edges, p.0, p.1)
  {
    hide Keeps, Early, Rename, RenameEdges, Injective, Dependencies;
    if forall p :: p in Dependencies(edges, ids) ==> !Early(ids, edges, p.0, p.1) {
      forall f: string -> string | Injective(f) ensures Keeps(Rename(f, ids), RenameEdges(f, edges)) {
        RenamedKeeps(f, ids, edges);
      }
    } else {
      var p :| p in Dependencies(edges, ids) && Early(ids, edges, p.0, p.1);
      EarlyBreaks(ids, edges, p.0, p.1);
      SortsLast(ids, p.1);
    }
  }

  lemma RenamedKeeps(f: string -> string, ids: seq<string>, edges: seq<Edge>)
    requires Injective(f) && forall p :: p in Dependencies(edges, ids) ==> !Early(ids, edges, p.0, p.1)
    ensures Keeps(Rename(f, ids), RenameEdges(f, edges))
  {
    hide Keeps, Early, Rename, RenameEdges, Injective, Dependencies;
    var names, links := Rename(f, ids), RenameEdges(f, edges);
    RenamedDependencies(f, ids, edges);
    forall q | q in Dependencies(links, names) ensures !Early(names, links, q.0, q.1) {
      var p :| p in Dependencies(edges, ids) && q == (f(p.0), f(p.1));
      RenamedEarly(f, ids, edges, p.0, p.1);
    }
    NoneEarlyKeeps(names, links);
  }

  lemma EarlyBreaks(ids: seq<string>, edges: seq<Edge>, x: string, t: string)
    requires (x, t) in Dependencies(edges, ids) && Early(ids, edges, x, t)
    ensures !Keeps(Rename(SortingLast(t), ids), RenameEdges(SortingLast(t), edges))
  {
    hide Keeps, Early, Rename, RenameEdges, Injective, Dependencies, KahnPlaced, Jumps, Last, SortingLast;
    var f := SortingLast(t);
    var names, links := Rename(f, ids), RenameEdges(f, edges);
    SortsLast(ids, t);
    RenamedDependencies(f, ids, edges);
    RenamedEarly(f, ids, edges, x, t);
    EarlyJumps(names, links, f(x), f(t));
    KeepsIffNoneJumps(names, links);
    assert (f((x, t).0), f((x, t).1)) in Dependencies(links, names);
  }

  // ----- A list that breaks it -----

  /** Three ids in order, the first of them listed twice. */
  function Repeated(a: string, b: string, c: string): seq<string> {
    [a, a, b, c]
  }

  /** The middle task depends on the other two. */
  function Waiting(a: string, b: string, c: string): seq<Edge> {
    [Edge("1", DependsOn, b, a, Accepted)] + [Edge("2", DependsOn, b, c, Accepted)]
  }

  lemma WaitingPairs(a: string, b: string, c: string)
    ensures Pairs(Waiting(a, b, c), Repeated(a, b, c)) == [(b, a)] + [(b, c)]
  {
    hide Pairs;
    var e, f := Edge("1", DependsOn, b, a, Accepted), Edge("2", DependsOn, b, c, Accepted);
    EmptyPairs(Repeated(a, b, c));
    PairsSnoc([], e, Repeated(a, b, c));
    PairsSnoc([e], f, Repeated(a, b, c));
    assert [] + [e] == [e] && [] + [(b, a)] == [(b, a)];
  }

  lemma EmptyPairs(ids: seq<string>)
    ensures Pairs([], ids) == [] && forall x :: Sources([], x) == []
    ensures forall id, todo :: Open([], id, todo) == 0
  {
  }

  lemma WaitingCounts(a: string, b: string, c: string)
    requires a != b && b != c && a != c
    ensures Sources([(b, a)] + [(b, c)], a) == [b]
    ensures Degrees([(b, a)] + [(b, c)], Repeated(a, b, c)) == map[a := 0, b := 2, c := 0]
  {
    var ids := Repeated(a, b, c);
    assert forall id :: id in ids <==> id == a || id == b || id == c;
    assert forall id :: id in ids <==> id in Ids(ids);
    hide Sources, Open, Ids, Repeated;
    EmptyPairs(ids);
    SourcesSnoc([], (b, a), a);
    SourcesSnoc([(b, a)], (b, c), a);
    assert [] + [(b, a)] == [(b, a)] && [] + [b] == [b];
    forall id ensures Open([(b, a)] + [(b, c)], id, Ids(ids)) == if id == b then 2 else 0 {
      OpenSnoc([], (b, a), id, Ids(ids));
      OpenSnoc([(b, a)], (b, c), id, Ids(ids));
    }
  }

  lemma RootsSnoc(ids: seq<string>, x: string, degrees: map<string, int>)
    ensures Roots(ids + [x], degrees) == Roots(ids, degrees) + if x in degrees && degrees[x] == 0 then [x] else []
  {
    assert (ids + [x])[..|ids|] == ids;
  }

  lemma PairSorted(x: string, y: string)
    requires LessEq(x, y)
    ensures SortedBy([x, y], Same)
  {
    hide LessEq;
  }

  lemma TripleSorted(x: string, y: string)
    requires LessEq(x, x) && LessEq(x, y)
    ensures SortedBy([x, x, y], Same)
  {
    hide LessEq;
  }

  lemma RootsOfOne(x: string, degrees: map<string, int>)
    requires x in degrees && degrees[x] == 0
    ensures Roots([x], degrees) == [x]
  {
    RootsSnoc([], x, degrees);
    assert [] + [x] == [x];
  }

  lemma AsLists(a: string, b: string, c: string)
    ensures Repeated(a, b, c) == ([a] + [a]) + [b] + [c] && ([a] + [a]) + [] + [c] == [a, a, c]
  {
  }

  lemma WaitingRoots(a: string, b: string, c: string)
    requires a != b && b != c && a != c
    ensures Roots(Repeated(a, b, c), map[a := 0, b := 2, c := 0]) == [a, a, c]
  {
    hide Roots, Repeated;
    var degrees: map<string, int> := map[a := 0, b := 2, c := 0];
    AsLists(a, b, c);
    RootsOfOne(a, degrees);
    RootsSnoc([a], a, degrees);
    RootsSnoc([a] + [a], b, degrees);
    RootsSnoc([a] + [a] + [b], c, degrees);
  }

  lemma RepeatedRoots(a: string, b: string, c: string)
    requires Less(a, b) && Less(b, c) && a != b && b != c && a != c
    ensures SortStrings(Roots(Repeated(a, b, c), map[a := 0, b := 2, c := 0])) == [a, a, c]
    ensures SortedBy([a, c], Same) && SortedBy([b, c], Same)
  {
    hide Roots, Less, SortedBy, SortBy;
    LessIrreflexive(a);
    LessTransitive(a, b, c);
    LessAsymmetric(a, c);
    LessAsymmetric(b, c);
    PairSorted(a, c);
    PairSorted(b, c);
    TripleSorted(a, c);
    WaitingRoots(a, b, c);
    SortByKeeps([a, a, c], Same);
    SortedOnce(SortStrings([a, a, c]), [a, a, c]);
  }

  lemma FirstTurn(a: string, b: string, c: string)
    requires a != b && b != c && a != c && SortedBy([a, c], Same)
    ensures var ps := [(b, a)] + [(b, c)];
            Kahn(ps, map[a := 0, b := 2, c := 0], [a, a, c]) == [a] + Kahn(ps, map[a := 0, b := 1, c := 0], [a, c])
  {
    var ps := [(b, a)] + [(b, c)];
    WaitingCounts(a, b, c);
    hide Sources, SortedBy, Kahn;
    var d: map<string, int> := map[a := 0, b := 2, c := 0];
    assert multiset([b])[b] == 1 && Released([b], d) == {};
    assert [a, a, c][1..] == [a, c];
    KahnTurn(ps, d, [a, a, c], [b], map[a := 0, b := 1, c := 0], [a, c]);
  }

  lemma SecondTurn(a: string, b: string, c: string)
    requires a != b && b != c && a != c && SortedBy([b, c], Same)
    ensures var ps := [(b, a)] + [(b, c)];
            Kahn(ps, map[a := 0, b := 1, c := 0], [a, c]) == [a] + Kahn(ps, map[a := 0, b := 0, c := 0], [b, c])
  {
    var ps := [(b, a)] + [(b, c)];
    WaitingCounts(a, b, c);
    hide Sources, SortedBy, Kahn;
    var d: map<string, int> := map[a := 0, b := 1, c := 0];
    assert multiset([b])[b] == 1 && Released([b], d) == {b};
    assert [a, c][1..] == [c];
    KahnTurn(ps, d, [a, c], [b], map[a := 0, b := 0, c := 0], [b, c]);
  }

  /** A repeated id counts twice for its dependents: the middle task is placed before the last, on which it depends. */
  lemma RepeatedIdBreaksOrder(a: string, b: string, c: string)
    requires Less(a, b) && Less(b, c) && a != b && b != c && a != c
    ensures exists rest :: KahnPlaced(Repeated(a, b, c), Waiting(a, b, c)) == [a] + ([a] + ([b] + rest))
    ensures (b, c) in Dependencies(Waiting(a, b, c), Repeated(a, b, c))
  {
    hide Less, Kahn, Roots, SortedBy, Pairs, Sources, Open;
    WaitingPairs(a, b, c);
    WaitingCounts(a, b, c);
    RepeatedRoots(a, b, c);
    FirstTurn(a, b, c);
    SecondTurn(a, b, c);
    KahnStep([(b, a)] + [(b, c)], map[a := 0, b := 0, c := 0], [b, c]);
    var f := Edge("2", DependsOn, b, c, Accepted);
    assert f in Waiting(a, b, c) && BetweenMembers(f, Repeated(a, b, c));
  }
}
