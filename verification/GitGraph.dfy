/**
 Git commits as immutable values.  A commit contains its parents, so history is
 acyclic by construction, and two commits with the same content are the same
 commit, as content addressing has it.
 */
module GitGraph {

  /** A commit over trees of type T; `stamp` stands for author, date and message. */
  datatype Commit<T> = Commit(parents: seq<Commit<T>>, tree: T, stamp: nat)

  /** What `merge-base --is-ancestor` answers. */
  ghost predicate Ancestor<T>(a: Commit<T>, c: Commit<T>)
    decreases c
  {
    a == c || exists i :: 0 <= i < |c.parents| && Ancestor(a, c.parents[i])
  }

  ghost function Weight<T>(c: Commit<T>): nat
    decreases c, 0
  {
    1 + TotalWeight(c.parents)
  }

  ghost function TotalWeight<T>(cs: seq<Commit<T>>): nat
    decreases cs
  {
    if cs == [] then 0 else Weight(cs[0]) + TotalWeight(cs[1..])
  }

  lemma {:induction false} MemberWeighsLess<T>(cs: seq<Commit<T>>, i: nat)
    requires i < |cs|
    ensures Weight(cs[i]) <= TotalWeight(cs)
  {
    if i > 0 { MemberWeighsLess(cs[1..], i - 1); }
  }

  lemma {:induction false} AncestorWeighsLess<T>(a: Commit<T>, c: Commit<T>)
    requires Ancestor(a, c)
    ensures a == c || Weight(a) < Weight(c)
    decreases c
  {
    if a != c {
      var i :| 0 <= i < |c.parents| && Ancestor(a, c.parents[i]);
      AncestorWeighsLess(a, c.parents[i]);
      MemberWeighsLess(c.parents, i);
    }
  }

  lemma {:induction false} AncestorTransitive<T>(a: Commit<T>, b: Commit<T>, c: Commit<T>)
    requires Ancestor(a, b) && Ancestor(b, c)
    ensures Ancestor(a, c)
    decreases c
  {
    if b != c {
      var i :| 0 <= i < |c.parents| && Ancestor(b, c.parents[i]);
      AncestorTransitive(a, b, c.parents[i]);
    }
  }

  /** History has no cycles: two commits that descend from each other are one commit. */
  lemma AncestorAntisymmetric<T>(a: Commit<T>, b: Commit<T>)
    requires Ancestor(a, b) && Ancestor(b, a)
    ensures a == b
  {
    AncestorWeighsLess(a, b);
    AncestorWeighsLess(b, a);
  }
}
