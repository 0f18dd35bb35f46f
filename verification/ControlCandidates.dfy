/**
 Integration candidates.  A candidate is a merge commit prepared on a frozen
 Target head; the Target swap only asks that the new commit descends from the
 head it replaces.
 */
module ControlCandidates {
  import opened Options
  import opened GitGraph
  import opened ControlRecords
  import opened ControlStore
  import opened ControlInvariant
  import opened ControlSafety
  import opened ControlTheorems

  datatype Preparation =
    | Candidate(commit: C)
    | BaselineDrift
    | OperationDrift
    | NoMergeBase
    | NothingToIntegrate
    | NotMerged

  /**
   The target head is fetched first and the operation head later; `merged` is the clean merge
   with the plan applied, if there is one.
   */
  ghost function PrepareCandidate(s: Store, later: Store, target: C, operation: string, commit: C,
                                  merged: Option<Tree>, stamp: nat): Preparation {
    if Lookup(s, TargetRef) != Some(target) then BaselineDrift
    else if Lookup(later, OperationRef(operation)) != Some(commit) then OperationDrift
    else if forall base :: !(Ancestor(base, target) && Ancestor(base, commit)) then NoMergeBase
    else if Ancestor(commit, target) then NothingToIntegrate
    else if merged.None? then NotMerged
    else Candidate(Commit([target, commit], merged.value, stamp))
  }

  ghost predicate HistoriesMeet(a: C, b: C) {
    exists base :: Ancestor(base, a) && Ancestor(base, b)
  }

  /**
   A candidate comes out exactly when the target and later the operation are where the command
   froze them, their histories meet, the operation brings something new and the merge is clean;
   each refusal names the first of these that fails.
   */
  lemma PreparationDecides(s: Store, later: Store, target: C, operation: string, commit: C, merged: Option<Tree>,
                           stamp: nat)
    ensures var r := PrepareCandidate(s, later, target, operation, commit, merged, stamp);
            var atTarget := TargetRef in s.refs && s.refs[TargetRef] == target;
            var atCommit := OperationRef(operation) in later.refs && later.refs[OperationRef(operation)] == commit;
            var meet := HistoriesMeet(target, commit);
            && (r == BaselineDrift <==> !atTarget)
            && (r == OperationDrift <==> atTarget && !atCommit)
            && (r == NoMergeBase <==> atTarget && atCommit && !meet)
            && (r == NothingToIntegrate <==> atTarget && atCommit && meet && Ancestor(commit, target))
            && (r == NotMerged <==> atTarget && atCommit && meet && !Ancestor(commit, target) && merged.None?)
            && (r.Candidate? <==> atTarget && atCommit && meet && !Ancestor(commit, target) && merged.Some?)
            && (r.Candidate? ==>
                  r.commit.parents == [target, commit] && r.commit.tree == merged.value && r.commit.stamp == stamp)
  {
  }

  lemma {:induction false} RunJoins(s: Store, before: seq<Step>, after: seq<Step>)
    ensures Run(s, before + after) == Run(Run(s, before), after)
    decreases |before|
  {
    hide Do;
    if before == [] {
      assert before + after == after;
    } else {
      assert (before + after)[1..] == before[1..] + after;
      RunJoins(Do(s, before[0]), before[1..], after);
    }
  }

  /**
   Over a run, with any steps between the two fetches: the candidate's parents are heads that
   target and operation then had, so they stay in the past of every later head.
   */
  lemma CandidateParentsStay(start: C, before: seq<Step>, between: seq<Step>, after: seq<Step>, target: C,
                             operation: string, commit: C, merged: Option<Tree>, stamp: nat)
    requires PrepareCandidate(Run(Start(start), before), Run(Run(Start(start), before), between),
                              target, operation, commit, merged, stamp).Candidate?
    ensures var s := Run(Start(start), before);
            var later := Run(s, between);
            var end := Run(later, after);
            var c := PrepareCandidate(s, later, target, operation, commit, merged, stamp).commit;
            && |c.parents| == 2
            && TargetRef in s.refs && s.refs[TargetRef] == c.parents[0]
            && OperationRef(operation) in later.refs && later.refs[OperationRef(operation)] == c.parents[1]
            && TargetRef in end.refs && Ancestor(c.parents[0], end.refs[TargetRef])
            && OperationRef(operation) in end.refs && Ancestor(c.parents[1], end.refs[OperationRef(operation)])
  {
    hide Run, Ancestor;
    var s := Run(Start(start), before);
    PreparationDecides(s, Run(s, between), target, operation, commit, merged, stamp);
    RunJoins(Start(start), before, between);
    RunJoins(s, between, after);
    HeadsOnlyMoveForward(start, before, between + after, TargetRef);
    HeadsOnlyMoveForward(start, before + between, after, OperationRef(operation));
  }

  ghost predicate PreparedOn(candidate: C, target: C, commit: C) {
    candidate.parents == [target, commit] && !Ancestor(commit, target)
  }

  /**
   A candidate strictly descends from the target and brings in exactly one commit that the
   target does not contain.
   */
  lemma CandidatesArePrepared(s: Store, later: Store, target: C, operation: string, commit: C, merged: Option<Tree>,
                              stamp: nat)
    requires PrepareCandidate(s, later, target, operation, commit, merged, stamp).Candidate?
    ensures var c := PrepareCandidate(s, later, target, operation, commit, merged, stamp).commit;
            && PreparedOn(c, target, commit)
            && Ancestor(target, c) && c != target && !Ancestor(c, target) && !Ancestor(c, commit)
            && (forall a :: Ancestor(a, c) <==> a == c || Ancestor(a, target) || Ancestor(a, commit))
  {
    var c := PrepareCandidate(s, later, target, operation, commit, merged, stamp).commit;
    CandidateHistory(c, target, commit);
  }

  lemma CandidateHistory(c: C, target: C, commit: C)
    requires c.parents == [target, commit]
    ensures Ancestor(target, c) && Ancestor(commit, c) && !Ancestor(c, target) && !Ancestor(c, commit)
    ensures forall a :: Ancestor(a, c) <==> a == c || Ancestor(a, target) || Ancestor(a, commit)
  {
    assert c.parents[0] == target && c.parents[1] == commit;
    assert Ancestor(target, c.parents[0]) && Ancestor(commit, c.parents[1]);
    forall a ensures Ancestor(a, c) <==> a == c || Ancestor(a, target) || Ancestor(a, commit) {
      if Ancestor(a, c.parents[0]) || Ancestor(a, c.parents[1]) { assert Ancestor(a, c); }
    }
    MemberWeighsLess(c.parents, 0);
    MemberWeighsLess(c.parents, 1);
    if Ancestor(c, target) { AncestorWeighsLess(c, target); }
    if Ancestor(c, commit) { AncestorWeighsLess(c, commit); }
  }

  /** Two pushes pinned to the same head of a ref never both land. */
  lemma OneLandsPerHead(target: C, steps: seq<Step>, i: nat, j: nat)
    requires var landed := Run(Start(target), steps).landed;
             i < |landed| && j < |landed| && landed[i].ref == landed[j].ref && landed[i].expected == landed[j].expected
    ensures i == j
  {
    hide Ancestor, Run, Carries, Fenced, Pending, HeadHeld;
    StartIsSafe(target);
    RunIsSafe(Start(target), steps);
    var landed := Run(Start(target), steps).landed;
    forall a, b | 0 <= a < b < |landed| && landed[a].ref == landed[b].ref
      ensures landed[a].expected != landed[b].expected
    {
      if landed[a].expected == landed[b].expected {
        assert Descends(landed[a].expected, landed[a].candidate);
        AncestorAntisymmetric(landed[a].candidate, landed[b].expected.value);
      }
    }
  }

  /**
   Of the candidates prepared on one Target commit, a second one lands only if its operation
   already contains the first.
   */
  lemma SecondCandidateContainsFirst(target: C, steps: seq<Step>, i: nat, j: nat, base: C, commit: C, commit': C)
    requires var landed := Run(Start(target), steps).landed;
             && i < j < |landed| && landed[i].ref == landed[j].ref == TargetRef
             && PreparedOn(landed[i].candidate, base, commit) && PreparedOn(landed[j].candidate, base, commit')
    ensures Ancestor(Run(Start(target), steps).landed[i].candidate, commit')
  {
    hide Ancestor, Run, Carries, Fenced, Pending, HeadHeld;
    StartIsSafe(target);
    RunIsSafe(Start(target), steps);
    var landed := Run(Start(target), steps).landed;
    var first, head, second := landed[i].candidate, landed[j].expected.value, landed[j].candidate;
    assert Descends(landed[j].expected, second);
    AncestorTransitive(first, head, second);
    CandidateHistory(first, base, commit);
    CandidateHistory(second, base, commit');
    if first == second { AncestorAntisymmetric(head, second); }
  }

  /** And then it does land: swapping the first candidate in, and the second for the first. */
  lemma BothCandidatesLand(base: C, first: C, second: C, commit: C, commit': C)
    requires PreparedOn(first, base, commit) && PreparedOn(second, base, commit') && Ancestor(first, commit')
    ensures LandsAt(base, Swapping(base, first, second), 0, 1, first, second)
  {
    hide Ancestor, Run;
    CandidateHistory(first, base, commit);
    CandidateHistory(second, base, commit');
    SwapTwice(Start(base), first, second);
  }

  /** One adapter swaps the target without interference. */
  ghost function SwapLands(s: Store, candidate: C): (r: Store)
    requires AdapterOf(s, 0).call.Idle? && TargetRef in s.refs && Ancestor(s.refs[TargetRef], candidate)
             && s.refs[TargetRef] != candidate
    ensures r == Do(Do(s, StartTargetSwap(0, s.refs[TargetRef], candidate)), PushLands(0))
    ensures r.landed == s.landed + [Push(s.calls, TargetRef, Some(s.refs[TargetRef]), candidate, SwapTarget)]
    ensures r.refs == s.refs[TargetRef := candidate] && AdapterOf(r, 0).call.Idle?
  {
    var p := Push(s.calls, TargetRef, Some(s.refs[TargetRef]), candidate, SwapTarget);
    var s1 := Do(s, StartTargetSwap(0, s.refs[TargetRef], candidate));
    assert s1.adapters[0].call == Ready(p) && s1.refs == s.refs;
    Do(s1, PushLands(0))
  }

  /** Some run from the base lands the first candidate and later the second. */
  ghost predicate LandsBoth(base: C, first: C, second: C) {
    exists steps, i, j :: LandsAt(base, steps, i, j, first, second)
  }

  ghost predicate LandsAt(base: C, steps: seq<Step>, i: nat, j: nat, first: C, second: C) {
    var landed := Run(Start(base), steps).landed;
    i < j < |landed| && landed[i].ref == landed[j].ref == TargetRef && landed[i].candidate == first
    && landed[j].candidate == second
  }

  /** Two candidates of one base can both land exactly when the second one's operation contains the first. */
  lemma BothLandIff(base: C, first: C, second: C, commit: C, commit': C)
    requires PreparedOn(first, base, commit) && PreparedOn(second, base, commit')
    ensures LandsBoth(base, first, second) <==> Ancestor(first, commit')
  {
    hide Ancestor, Run, PreparedOn;
    if LandsBoth(base, first, second) {
      var steps, i, j :| LandsAt(base, steps, i, j, first, second);
      SecondCandidateContainsFirst(base, steps, i, j, base, commit, commit');
    }
    if Ancestor(first, commit') { BothCandidatesLand(base, first, second, commit, commit'); }
  }

  // ----- Both candidates come out of prepareCandidate -----

  lemma RunFour(s: Store, a: Step, b: Step, c: Step, d: Step)
    ensures Run(s, [a, b, c, d]) == Do(Do(Do(Do(s, a), b), c), d)
  {
    hide Do;
    var s1, s2, s3 := Do(s, a), Do(Do(s, a), b), Do(Do(Do(s, a), b), c);
    assert [a, b, c, d][1..] == [b, c, d] && [b, c, d][1..] == [c, d] && [c, d][1..] == [d] && [d][1..] == [];
    assert Run(s3, [d]) == Run(Do(s3, d), []);
    assert Run(s2, [c, d]) == Run(s3, [d]);
    assert Run(s1, [b, c, d]) == Run(s2, [c, d]);
  }

  function Publishing(operation: string, candidate: C): seq<Step> {
    [StartPublish(0, operation, None, candidate, 0, true), CheckBaseline(0), CheckFence(0), PushLands(0)]
  }

  function Swapping(base: C, first: C, second: C): seq<Step> {
    [StartTargetSwap(0, base, first), PushLands(0), StartTargetSwap(0, first, second), PushLands(0)]
  }

  /** One adapter publishes an operation for the first time, without a control chain and without interference. */
  lemma PublishLands(s: Store, operation: string, candidate: C)
    requires AdapterOf(s, 0).call.Idle? && ControlRef !in s.refs && OperationRef(operation) !in s.refs
    requires TargetRef in s.refs && Ancestor(s.refs[TargetRef], candidate)
    ensures var r := Run(s, Publishing(operation, candidate));
            && r.refs == s.refs[OperationRef(operation) := candidate] && AdapterOf(r, 0).call.Idle?
            && |r.landed| == |s.landed| + 1
  {
    hide Ancestor, Carried;
    var steps := Publishing(operation, candidate);
    var s1 := Do(s, steps[0]);
    assert s1.refs == s.refs && s1.landed == s.landed;
    assert s1.adapters[0].call == HeadRead(s.calls, operation, None, candidate, 0, false);
    var s2 := Do(s1, steps[1]);
    assert s2.refs == s.refs && s2.landed == s.landed;
    assert s2.adapters[0].call == HeadRead(s.calls, operation, None, candidate, 0, true);
    var s3 := Do(s2, steps[2]);
    assert ChainRead(s2) == Some([]) && LeaseTip([], operation) == None;
    assert s3.refs == s.refs && s3.landed == s.landed;
    assert s3.adapters[0].call.push == Push(s.calls, OperationRef(operation), None, candidate, Publish(0, []));
    RunFour(s, steps[0], steps[1], steps[2], steps[3]);
    PushedLands(s3);
  }

  lemma PushedLands(s: Store)
    requires 0 in s.adapters && s.adapters[0].call.Ready? && Moves(s, s.adapters[0].call.push)
    ensures var r := Do(s, PushLands(0)); var p := s.adapters[0].call.push;
            r.refs == s.refs[p.ref := p.candidate] && AdapterOf(r, 0).call.Idle? && r.landed == s.landed + [p]
  {
  }

  /** The commits of the example: work on one operation, and work on another that builds on the first candidate. */
  const BASE: C := Commit([], map[], 0)
  const WORK: C := Commit([BASE], map[], 1)
  const FIRST: C := Commit([BASE, WORK], map[], 2)
  const MORE: C := Commit([FIRST], map[], 3)
  const SECOND: C := Commit([BASE, MORE], map[], 4)

  lemma ChildDescends(parent: C, child: C)
    requires child.parents == [parent]
    ensures Ancestor(parent, child) && !Ancestor(child, parent)
    ensures forall a :: Ancestor(a, parent) ==> Ancestor(a, child)
  {
    assert Ancestor(parent, child.parents[0]);
    MemberWeighsLess(child.parents, 0);
    if Ancestor(child, parent) { AncestorWeighsLess(child, parent); }
    forall a | Ancestor(a, parent) ensures Ancestor(a, child) { assert Ancestor(a, child.parents[0]); }
  }

  lemma ExampleHistory()
    ensures PreparedOn(FIRST, BASE, WORK) && PreparedOn(SECOND, BASE, MORE) && Ancestor(FIRST, MORE)
    ensures Ancestor(BASE, WORK) && Ancestor(BASE, MORE) && Ancestor(BASE, BASE)
  {
    ChildDescends(BASE, WORK);
    CandidateHistory(FIRST, BASE, WORK);
    ChildDescends(FIRST, MORE);
    hide Ancestor;
    if Ancestor(MORE, BASE) { AncestorTransitive(FIRST, MORE, BASE); }
  }

  /**
   Two candidates that prepareCandidate returns in one reachable store, both on the head the
   target still has, and that then both land: only the caller's pin keeps this from happening.
   */
  lemma TwoCandidatesCanLand()
    ensures var s := Run(Run(Start(BASE), Publishing("one", WORK)), Publishing("two", MORE));
            && PrepareCandidate(s, s, BASE, "one", WORK, Some(map[]), 2) == Candidate(FIRST)
            && PrepareCandidate(s, s, BASE, "two", MORE, Some(map[]), 4) == Candidate(SECOND)
            && FIRST != SECOND
            && Lookup(Run(s, Swapping(BASE, FIRST, SECOND)), TargetRef) == Some(SECOND)
            && |Run(s, Swapping(BASE, FIRST, SECOND)).landed| == 4
  {
    hide Run, Ancestor;
    ExampleHistory();
    CandidateHistory(SECOND, BASE, MORE);
    CandidateHistory(FIRST, BASE, WORK);
    var s0 := Start(BASE);
    PublishLands(s0, "one", WORK);
    var s1 := Run(s0, Publishing("one", WORK));
    assert OperationRef("two") !in s1.refs;
    PublishLands(s1, "two", MORE);
    var s := Run(s1, Publishing("two", MORE));
    assert s.refs == map[TargetRef := BASE, OperationRef("one") := WORK, OperationRef("two") := MORE];
    SwapTwice(s, FIRST, SECOND);
  }

  lemma SwapTwice(s: Store, first: C, second: C)
    requires AdapterOf(s, 0).call.Idle? && TargetRef in s.refs
    requires Ancestor(s.refs[TargetRef], first) && s.refs[TargetRef] != first && Ancestor(first, second)
             && first != second
    ensures var r := Run(s, Swapping(s.refs[TargetRef], first, second));
            && Lookup(r, TargetRef) == Some(second) && |r.landed| == |s.landed| + 2
            && r.landed[|s.landed|].candidate == first && r.landed[|s.landed| + 1].candidate == second
            && r.landed[|s.landed|].ref == r.landed[|s.landed| + 1].ref == TargetRef
  {
    hide Ancestor, Run;
    var base := s.refs[TargetRef];
    var s2 := SwapLands(s, first);
    var s4 := SwapLands(s2, second);
    hide Do;
    RunFour(s, StartTargetSwap(0, base, first), PushLands(0), StartTargetSwap(0, first, second), PushLands(0));
  }
}
