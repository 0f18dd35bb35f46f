/**
 The order of a plan's tasks: repeatedly the smallest task whose dependencies are
 all placed, and, when a cycle leaves none, the remaining tasks by id.
 */
module TaskOrder {
  import opened Text

  /** A dependency of the first task on the second. */
  type Pair = (string, string)

  // ----- Sets of ids in order -----

  ghost function Smallest(ids: set<string>): (r: string)
    requires ids != {}
    ensures r in ids && forall id :: id in ids ==> LessEq(r, id)
    decreases ids
  {
    var x :| x in ids;
    var rest := ids - {x};
    LessIrreflexive(x);
    assert forall id :: id in ids ==> id == x || id in rest;
    if rest == {} then x
    else
      var y := Smallest(rest);
      if Less(x, y) then
        assert forall id :: id in rest ==> LessEq(x, id) by {
          forall id | id in rest ensures LessEq(x, id) { LessAsymmetric(x, y); LessEqTransitive(x, y, id); }
        }
        x
      else y
  }

  ghost function Sorted(ids: set<string>): (r: seq<string>)
    decreases ids
  {
    if ids == {} then [] else [Smallest(ids)] + Sorted(ids - {Smallest(ids)})
  }

  ghost predicate Distinct(s: seq<string>) {
    DistinctBy(s, Same)
  }

  ghost function Ids(s: seq<string>): set<string> {
    set x | x in s
  }

  lemma Cons(x: string, s: seq<string>)
    ensures Ids([x] + s) == {x} + Ids(s)
    ensures Distinct(s) && x !in s ==> Distinct([x] + s)
    ensures SortedBy(s, Same) && (forall y :: y in s ==> LessEq(x, y)) ==> SortedBy([x] + s, Same)
  {
    hide LessEq;
    assert forall y :: y in [x] + s <==> y == x || y in s;
  }

  lemma {:induction false} SortedLists(ids: set<string>)
    ensures Distinct(Sorted(ids)) && Ids(Sorted(ids)) == ids && SortedBy(Sorted(ids), Same)
    decreases ids
  {
    assert Distinct([]) && SortedBy([], Same);
    hide LessEq, Distinct, SortedBy;
    if ids != {} {
      var x := Smallest(ids);
      SortedLists(ids - {x});
      Cons(x, Sorted(ids - {x}));
      assert forall y :: y in Sorted(ids - {x}) <==> y in ids - {x};
    }
  }

  /** A sorted list without repeats is the sorted list of its elements. */
  lemma SortedIsSorted(s: seq<string>)
    requires Distinct(s) && SortedBy(s, Same)
    ensures s == Sorted(Ids(s))
  {
    hide LessEq, Sorted;
    var t := Sorted(Ids(s));
    SortedLists(Ids(s));
    assert forall x :: x in s <==> x in Ids(s);
    assert forall x :: x in t <==> x in Ids(t);
    SameMembers(s, t);
    SortedIsUnique(s, t, Same);
  }

  // ----- The order -----

  /** The tasks still to place that depend on none of the tasks still to place. */
  ghost function ReadySet(todo: set<string>, deps: set<Pair>): set<string> {
    set id | id in todo && forall p :: p in deps && p.0 == id ==> p.1 !in todo
  }

  ghost function OrderSpec(todo: set<string>, deps: set<Pair>): seq<string>
    decreases todo
  {
    var ready := ReadySet(todo, deps);
    if ready == {} then Sorted(todo)
    else [Smallest(ready)] + OrderSpec(todo - {Smallest(ready)}, deps)
  }

  /** The tasks that get placed before the order falls back to ids. */
  ghost function Placed(todo: set<string>, deps: set<Pair>): seq<string>
    decreases todo
  {
    var ready := ReadySet(todo, deps);
    if ready == {} then []
    else [Smallest(ready)] + Placed(todo - {Smallest(ready)}, deps)
  }

  ghost function Leftover(todo: set<string>, deps: set<Pair>): set<string> {
    todo - Ids(Placed(todo, deps))
  }

  lemma {:induction false} PlacedIsDistinct(todo: set<string>, deps: set<Pair>)
    ensures Distinct(Placed(todo, deps)) && Ids(Placed(todo, deps)) <= todo
    decreases todo
  {
    var ready := ReadySet(todo, deps);
    assert Distinct([]) && ready <= todo;
    hide Distinct, ReadySet;
    if ready != {} {
      var x := Smallest(ready);
      var rest := Placed(todo - {x}, deps);
      PlacedIsDistinct(todo - {x}, deps);
      assert x !in Ids(rest);
      Cons(x, rest);
    }
  }

  lemma LeftoverStays(todo: set<string>, deps: set<Pair>)
    requires ReadySet(todo, deps) != {}
    ensures Leftover(todo, deps) == Leftover(todo - {Smallest(ReadySet(todo, deps))}, deps)
  {
    var x := Smallest(ReadySet(todo, deps));
    hide ReadySet;
    Cons(x, Placed(todo - {x}, deps));
    PlacedIsDistinct(todo, deps);
  }

  lemma NothingPlaced(todo: set<string>, deps: set<Pair>)
    requires ReadySet(todo, deps) == {}
    ensures Placed(todo, deps) == [] && Leftover(todo, deps) == todo && OrderSpec(todo, deps) == [] + Sorted(todo)
  {
    hide ReadySet, Sorted;
    assert Ids([]) == {};
  }

  /** The order is the placed tasks, then the leftover by id; nothing in the leftover is ready. */
  lemma {:induction false} OrderSplits(todo: set<string>, deps: set<Pair>)
    ensures OrderSpec(todo, deps) == Placed(todo, deps) + Sorted(Leftover(todo, deps))
    ensures ReadySet(Leftover(todo, deps), deps) == {}
    decreases todo
  {
    var ready := ReadySet(todo, deps);
    assert ready <= todo;
    hide Sorted, ReadySet, Leftover;
    if ready == {} {
      NothingPlaced(todo, deps);
    } else {
      var x := Smallest(ready);
      OrderSplits(todo - {x}, deps);
      LeftoverStays(todo, deps);
      var rest, tail := Placed(todo - {x}, deps), Sorted(Leftover(todo, deps));
      Joined(x, rest, tail);
      assert OrderSpec(todo - {x}, deps) == rest + tail;
    }
  }

  lemma Joined(x: string, s: seq<string>, t: seq<string>)
    ensures [x] + (s + t) == ([x] + s) + t
  {
  }

  /** Nothing is dropped or repeated, cycles or not. */
  lemma OrderIsPermutation(members: set<string>, deps: set<Pair>)
    ensures Distinct(OrderSpec(members, deps)) && Ids(OrderSpec(members, deps)) == members
  {
    hide Sorted, OrderSpec, Placed;
    OrderSplits(members, deps);
    PlacedIsDistinct(members, deps);
    var placed := Placed(members, deps);
    var rest := Sorted(Leftover(members, deps));
    SortedLists(Leftover(members, deps));
    assert forall x :: x in placed + rest <==> x in Ids(placed) || x in Ids(rest);
    forall i | 0 <= i < |placed| ensures placed[i] in Ids(placed) { }
    forall i | 0 <= i < |rest| ensures rest[i] in Ids(rest) { }
  }

  // ----- Dependencies come first -----

  /** Every dependency of a listed task on one of these tasks stands before it. */
  ghost predicate DependenciesFirst(s: seq<string>, deps: set<Pair>, todo: set<string>) {
    forall i, p :: 0 <= i < |s| && p in deps && p.0 == s[i] && p.1 in todo ==> p.1 in s[..i]
  }

  /** Every placed task follows all its member dependencies. */
  lemma {:induction false} PlacedAfterDependencies(todo: set<string>, deps: set<Pair>)
    ensures DependenciesFirst(Placed(todo, deps), deps, todo)
    decreases todo
  {
    var ready := ReadySet(todo, deps);
    if ready != {} {
      var x := Smallest(ready);
      hide Smallest;
      var rest, placed := Placed(todo - {x}, deps), Placed(todo, deps);
      PlacedAfterDependencies(todo - {x}, deps);
      forall i, p | 0 <= i < |placed| && p in deps && p.0 == placed[i] && p.1 in todo ensures p.1 in placed[..i] {
        if i > 0 {
          assert placed[i] == rest[i - 1];
          assert placed[..i] == [x] + rest[..i - 1];
        }
      }
    }
  }

  // ----- The leftover is what reaches a cycle -----

  ghost predicate Path(deps: set<Pair>, path: seq<string>) {
    forall i :: 0 <= i < |path| - 1 ==> (path[i], path[i + 1]) in deps
  }

  ghost predicate CyclicFrom(deps: set<Pair>, id: string, path: seq<string>) {
    |path| > 0 && path[0] == id && Path(deps, path) && !Distinct(path)
  }

  /** Following dependencies from the task leads round a cycle. */
  ghost predicate ReachesCycle(deps: set<Pair>, id: string) {
    exists path :: CyclicFrom(deps, id, path)
  }

  ghost predicate Falls(s: seq<string>, path: seq<string>, at: seq<nat>) {
    && |at| == |path| > 0
    && (forall k :: 0 <= k < |at| ==> at[k] < |s| && s[at[k]] == path[k])
    && (forall k, m :: 0 <= k < m < |at| ==> at[m] < at[k])
  }

  /** Along a path from a placed task the positions only fall. */
  lemma {:induction false} PathFalls(s: seq<string>, deps: set<Pair>, todo: set<string>, path: seq<string>,
                                     i: nat) returns (at: seq<nat>)
    requires DependenciesFirst(s, deps, todo) && (forall p :: p in deps ==> p.1 in todo)
    requires Path(deps, path) && |path| > 0 && i < |s| && path[0] == s[i]
    ensures Falls(s, path, at) && at[0] == i
    decreases |path|
  {
    at := [i];
    if |path| > 1 {
      assert (path[0], path[1]) in deps;
      var j :| 0 <= j < i && s[j] == path[1];
      var rest := path[1..];
      forall k | 0 <= k < |rest| - 1
        ensures (rest[k], rest[k + 1]) in deps
      {
        assert rest[k] == path[k + 1] && rest[k + 1] == path[k + 2];
      }
      var later := PathFalls(s, deps, todo, rest, j);
      at := [i] + later;
      forall k | 0 <= k < |later| ensures later[k] < i { }
    }
  }

  lemma PlacedHasNoCycle(placed: seq<string>, deps: set<Pair>, todo: set<string>, id: string)
    requires DependenciesFirst(placed, deps, todo) && (forall p :: p in deps ==> p.1 in todo) && Distinct(placed)
             && id in placed
    ensures !ReachesCycle(deps, id)
  {
    hide DependenciesFirst;
    forall path | |path| > 0 && path[0] == id && Path(deps, path) ensures Distinct(path) {
      var i :| 0 <= i < |placed| && placed[i] == id;
      var at := PathFalls(placed, deps, todo, path, i);
      forall k, m | 0 <= k < m < |path| ensures path[k] != path[m] {
        assert at[m] < at[k] && Same(placed[at[m]]) != Same(placed[at[k]]);
      }
    }
  }

  ghost predicate Stuck(ids: set<string>, deps: set<Pair>) {
    forall x :: x in ids ==> exists y :: y in ids && (x, y) in deps
  }

  /** Where every task depends on another one, paths of any length start anywhere. */
  lemma {:induction false} LongPath(stuck: set<string>, deps: set<Pair>, id: string, n: nat) returns (path: seq<string>)
    requires id in stuck && Stuck(stuck, deps)
    ensures |path| == n + 1 && path[0] == id && Path(deps, path) && forall i :: 0 <= i < |path| ==> path[i] in stuck
    decreases n
  {
    path := [id];
    if n > 0 {
      var y :| y in stuck && (id, y) in deps;
      hide Stuck;
      var rest := LongPath(stuck, deps, y, n - 1);
      path := [id] + rest;
      forall i | 0 <= i < |path| - 1 ensures (path[i], path[i + 1]) in deps {
        if i > 0 { assert path[i] == rest[i - 1] && path[i + 1] == rest[i]; }
      }
    }
  }

  lemma {:induction false} DistinctCounts(s: seq<string>)
    requires Distinct(s)
    ensures |Ids(s)| == |s|
  {
    if s != [] {
      var before, x := s[..|s| - 1], s[|s| - 1];
      DistinctCounts(before);
      assert s == before + [x];
      assert x !in before;
      assert Ids(s) == Ids(before) + {x};
    }
  }

  lemma {:induction false} SubsetCounts<T>(a: set<T>, b: set<T>)
    requires a <= b
    ensures |a| <= |b|
    decreases a
  {
    if a != {} {
      var x :| x in a;
      SubsetCounts(a - {x}, b - {x});
    }
  }

  /** A list longer than the set it draws from repeats something. */
  lemma Pigeonhole(s: seq<string>, ids: set<string>)
    requires |s| > |ids| && forall i :: 0 <= i < |s| ==> s[i] in ids
    ensures !Distinct(s)
  {
    if Distinct(s) {
      DistinctCounts(s);
      SubsetCounts(Ids(s), ids);
    }
  }

  lemma NothingReadyIsStuck(ids: set<string>, deps: set<Pair>)
    requires ReadySet(ids, deps) == {}
    ensures Stuck(ids, deps)
  {
    forall x | x in ids ensures exists y :: y in ids && (x, y) in deps {
      assert x !in ReadySet(ids, deps);
      var p :| p in deps && p.0 == x && p.1 in ids;
      assert (x, p.1) == p;
    }
  }

  lemma StuckReachesCycle(stuck: set<string>, deps: set<Pair>, id: string)
    requires id in stuck && Stuck(stuck, deps)
    ensures ReachesCycle(deps, id)
  {
    hide Stuck, Distinct, Path;
    var path := LongPath(stuck, deps, id, |stuck|);
    Pigeonhole(path, stuck);
    assert CyclicFrom(deps, id, path);
  }

  /** A task is left to the fallback exactly when a dependency cycle can be reached from it. */
  lemma LeftoverReachesCycle(members: set<string>, deps: set<Pair>, id: string)
    requires id in members && forall p :: p in deps ==> p.1 in members
    ensures id in Leftover(members, deps) <==> ReachesCycle(deps, id)
  {
    hide Placed, OrderSpec, Sorted, ReadySet, Distinct, DependenciesFirst, ReachesCycle, Stuck;
    OrderSplits(members, deps);
    PlacedIsDistinct(members, deps);
    PlacedAfterDependencies(members, deps);
    var stuck := Leftover(members, deps);
    if id in stuck {
      NothingReadyIsStuck(stuck, deps);
      StuckReachesCycle(stuck, deps, id);
    } else {
      PlacedHasNoCycle(Placed(members, deps), deps, members, id);
    }
  }

  // ----- Without cycles: the least topological order -----

  ghost predicate Acyclic(members: set<string>, deps: set<Pair>) {
    forall id :: id in members ==> !ReachesCycle(deps, id)
  }

  ghost predicate Topological(s: seq<string>, members: set<string>, deps: set<Pair>) {
    Distinct(s) && Ids(s) == members && DependenciesFirst(s, deps, members)
  }

  /** Lexicographic order of lists. */
  ghost predicate ListLeq(a: seq<string>, b: seq<string>) {
    a == [] || (b != [] && (Less(a[0], b[0]) || (a[0] == b[0] && ListLeq(a[1..], b[1..]))))
  }

  lemma AcyclicIsPlaced(members: set<string>, deps: set<Pair>)
    requires Acyclic(members, deps) && forall p :: p in deps ==> p.1 in members
    ensures OrderSpec(members, deps) == Placed(members, deps) && Topological(OrderSpec(members, deps), members, deps)
  {
    hide Placed, OrderSpec, ReadySet, Path, DependenciesFirst, CyclicFrom, Distinct;
    OrderSplits(members, deps);
    PlacedIsDistinct(members, deps);
    PlacedAfterDependencies(members, deps);
    forall id | id in members ensures id !in Leftover(members, deps) { LeftoverReachesCycle(members, deps, id); }
    assert Leftover(members, deps) == {};
  }

  lemma DistinctTail(s: seq<string>)
    requires Distinct(s) && s != []
    ensures Distinct(s[1..]) && Ids(s[1..]) == Ids(s) - {s[0]} && s[0] in Ids(s)
  {
    var rest := s[1..];
    assert s == [s[0]] + rest;
    Cons(s[0], rest);
    forall i | 0 <= i < |rest| ensures rest[i] != s[0] { assert Same(s[0]) != Same(s[i + 1]); }
  }

  /** The head of a topological order is ready, and its tail orders the rest. */
  lemma TopologicalTail(s: seq<string>, todo: set<string>, deps: set<Pair>)
    requires Topological(s, todo, deps) && s != []
    ensures s[0] in ReadySet(todo, deps) && Topological(s[1..], todo - {s[0]}, deps)
  {
    hide Distinct;
    DistinctTail(s);
    var rest := s[1..];
    forall i, p | 0 <= i < |rest| && p in deps && p.0 == rest[i] && p.1 in todo - {s[0]} ensures p.1 in rest[..i] {
      assert p.0 == s[i + 1];
      assert s[..i + 1] == [s[0]] + rest[..i];
    }
    forall p | p in deps && p.0 == s[0] ensures p.1 !in todo { assert s[..0] == []; }
  }

  lemma {:induction false} LeastTopological(s: seq<string>, todo: set<string>, deps: set<Pair>)
    requires Topological(s, todo, deps)
    ensures ListLeq(OrderSpec(todo, deps), s)
    decreases todo
  {
    if s == [] {
      assert todo == {} && ReadySet({}, deps) == {};
    } else {
      TopologicalTail(s, todo, deps);
      hide Topological, Distinct, Less;
      var x := Smallest(ReadySet(todo, deps));
      var rest := OrderSpec(todo - {x}, deps);
      assert OrderSpec(todo, deps) == [x] + rest && ([x] + rest)[1..] == rest;
      LessTotal(x, s[0]);
      if x == s[0] { LeastTopological(s[1..], todo - {x}, deps); }
    }
  }

  /** For acyclic dependencies the result is the lexicographically least topological order. */
  lemma OrderIsLeastTopological(members: set<string>, deps: set<Pair>)
    requires Acyclic(members, deps) && forall p :: p in deps ==> p.1 in members
    ensures Topological(OrderSpec(members, deps), members, deps)
    ensures forall s :: Topological(s, members, deps) ==> ListLeq(OrderSpec(members, deps), s)
  {
    hide Topological, OrderSpec, ListLeq, Acyclic;
    AcyclicIsPlaced(members, deps);
    forall s | Topological(s, members, deps)
      ensures ListLeq(OrderSpec(members, deps), s)
    {
      LeastTopological(s, members, deps);
    }
  }
}
