/**
 What each call of the control store is answered, in every reachable state: when it may push,
 what it pushes, and which refusal it gets otherwise.
 */
module ControlAdmission {
  import opened Options
  import opened Text
  import opened GitGraph
  import opened ControlRecords
  import opened ControlStore
  import opened ControlInvariant
  import opened ControlSafety
  import opened ControlTheorems

  ghost function HeadOf(s: Store, ref: Ref): Option<C> {
    if ref in s.refs then Some(s.refs[ref]) else None
  }

  ghost predicate IsIdle(s: Store, a: nat) {
    a in s.adapters ==> s.adapters[a].call.Idle?
  }

  /** The call of adapter a waits to push exactly this, and nothing else has changed but what was read. */
  ghost predicate Waits(s: Store, s': Store, a: nat, p: Push) {
    && s'.refs == s.refs && s'.landed == s.landed && s'.lost == s.lost && s'.answers == s.answers
    && a in s'.adapters && s'.adapters[a].call == Ready(p)
    && (forall b :: b != a ==> (b in s'.adapters <==> b in s.adapters))
    && (forall b :: b != a && b in s.adapters ==> s'.adapters[b] == s.adapters[b])
  }

  /** The call of adapter a is over with this answer, and nothing else has changed but what was read. */
  ghost predicate Ends(s: Store, s': Store, a: nat, call: nat, x: Answer) {
    && s'.refs == s.refs && s'.landed == s.landed && s'.lost == s.lost && s'.answers == s.answers[call := x]
    && a in s'.adapters && s'.adapters[a].call.Idle?
    && (forall b :: b != a ==> (b in s'.adapters <==> b in s.adapters))
    && (forall b :: b != a && b in s.adapters ==> s'.adapters[b] == s.adapters[b])
  }

  lemma OneStep(s: Store, step: Step)
    ensures Run(s, [step]) == Do(s, step)
  {
    hide Do;
    assert Run(Do(s, step), [step][1..]) == Do(s, step);
  }

  // ----- Appending -----

  /** The record carries on where the chain ends: the next number and a link, or no link when there is no chain. */
  ghost predicate CarriesOn(rs: seq<Record>, record: Record) {
    if rs == [] then record.previous.None?
    else
      var last := rs[|rs| - 1];
      record.previous.Some? && record.previous.value == last && record.sequence == last.sequence + 1
  }

  lemma ChainSnoc(rs: seq<Record>, record: Record)
    requires rs != [] ==> Chain(rs)
    ensures Chain(rs + [record]) <==> CarriesOn(rs, record)
  {
    var all := rs + [record];
    assert forall i :: 0 <= i < |rs| ==> all[i] == rs[i];
    if Chain(all) && rs != [] { assert Continues(all[|rs| - 1], all[|rs|]); }
  }

  /** What a call reads at the Control Ref: the landed chain, exactly when it is readable. */
  lemma ReadsTheChain(target: C, steps: seq<Step>)
    ensures var s := Run(Start(target), steps); var rs := Records(s.landed);
            && (ControlRef in s.refs <==> rs != []) && (rs != [] ==> Chain(rs))
            && (ControlRef in s.refs ==> s.refs[ControlRef].tree == TreeOf(rs))
            && (ChainRead(s) == if Numbered(rs) then Some(rs) else None)
  {
    hide Run, Records, Chain, TreeOf, Numbered, ChainRead;
    ControlCarriesTheChain(target, steps);
  }

  /** What an append pushes: the record's file on top of the head. */
  ghost predicate Appends(s: Store, p: Push, record: Record, stamp: nat) {
    && p.call == s.calls && p.ref == ControlRef && p.expected == HeadOf(s, ControlRef)
    && p.purpose == AppendRecord(record)
    && p.candidate.parents == (if ControlRef in s.refs then [s.refs[ControlRef]] else [])
    && p.candidate.stamp == stamp && p.candidate.tree == TreeOf(Records(s.landed) + [record])
  }

  /** When an append may push. */
  ghost predicate Appendable(s: Store, expected: Option<C>, record: Record) {
    && expected == HeadOf(s, ControlRef) && Numbered(Records(s.landed))
    && record.sound && CarriesOn(Records(s.landed), record)
  }

  /**
   An append comes to wait for its push exactly when the caller expects the Control Ref where
   it is, the landed chain is readable, and the record is sound and carries it on; otherwise it
   has lost the swap when the head is another, and is refused when anything else is wrong.
   */
  lemma AppendDecides(target: C, steps: seq<Step>, a: nat, expected: Option<C>, record: Record, stamp: nat)
    requires IsIdle(Run(Start(target), steps), a)
    ensures var s := Run(Start(target), steps);
            var s' := Run(s, [StartAppend(a, expected, record, stamp)]);
            && s'.calls == s.calls + 1
            && (Appendable(s, expected, record) ==> exists p :: Appends(s, p, record, stamp) && Waits(s, s', a, p))
            && (!Appendable(s, expected, record) ==>
                  Ends(s, s', a, s.calls, if expected != HeadOf(s, ControlRef) then CasLost else Refused))
  {
    hide Run, Records, Chain, TreeOf, Numbered, ChainRead, Carried, FastForward, Appends, Waits, Ends, CarriesOn;
    var s := Run(Start(target), steps);
    ReadsTheChain(target, steps);
    FetchesAreFastForward(target, steps, a);
    ChainSnoc(Records(s.landed), record);
    OneStep(s, StartAppend(a, expected, record, stamp));
    AppendInState(s, a, expected, record, stamp);
  }

  lemma AppendInState(s: Store, a: nat, expected: Option<C>, record: Record, stamp: nat)
    requires IsIdle(s, a) && FastForward(s, a)
    requires var rs := Records(s.landed);
             && (ControlRef in s.refs <==> rs != []) && (ControlRef in s.refs ==> s.refs[ControlRef].tree == TreeOf(rs))
             && (ChainRead(s) == if Numbered(rs) then Some(rs) else None)
             && (Chain(rs + [record]) <==> CarriesOn(rs, record))
    ensures var s' := Do(s, StartAppend(a, expected, record, stamp));
            && s'.calls == s.calls + 1
            && (Appendable(s, expected, record) ==> exists p :: Appends(s, p, record, stamp) && Waits(s, s', a, p))
            && (!Appendable(s, expected, record) ==>
                  Ends(s, s', a, s.calls, if expected != HeadOf(s, ControlRef) then CasLost else Refused))
  {
    hide Records, Chain, TreeOf, Numbered, ChainRead, FastForward, CarriesOn, FileName;
    if Appendable(s, expected, record) {
      AppendedTree(Records(s.landed), expected, record, stamp);
      var p := Push(s.calls, ControlRef, expected, Appended(expected, record, stamp), AppendRecord(record));
      assert Appends(s, p, record, stamp);
      assert Waits(s, Do(s, StartAppend(a, expected, record, stamp)), a, p);
    }
  }

  /**
   Without interference its push lands: the chain is longer by the record, the ref is at a
   commit with its files, and the call is answered with that commit.
   */
  lemma AppendLands(target: C, steps: seq<Step>, a: nat, expected: Option<C>, record: Record, stamp: nat)
    requires IsIdle(Run(Start(target), steps), a) && Appendable(Run(Start(target), steps), expected, record)
    ensures var s := Run(Start(target), steps);
            var s' := Run(s, [StartAppend(a, expected, record, stamp), PushLands(a)]);
            && Records(s'.landed) == Records(s.landed) + [record]
            && ControlRef in s'.refs && s'.refs[ControlRef].tree == TreeOf(Records(s'.landed))
            && s'.refs[ControlRef].parents == (if ControlRef in s.refs then [s.refs[ControlRef]] else [])
            && s'.answers == s.answers[s.calls := Done(ControlRef, s'.refs[ControlRef])]
  {
    hide Run, Records, TreeOf, Numbered, CarriesOn;
    var s := Run(Start(target), steps);
    var start := StartAppend(a, expected, record, stamp);
    AppendDecides(target, steps, a, expected, record, stamp);
    var s1 := Run(s, [start]);
    var p :| Appends(s, p, record, stamp) && Waits(s, s1, a, p);
    TwoSteps(s, start, PushLands(a));
    OneStep(s, start);
    NotItsOwnParent(p.candidate, HeadOf(s, ControlRef));
    RecordsSnoc(s1.landed, p);
  }

  lemma TwoSteps(s: Store, first: Step, second: Step)
    ensures Run(s, [first, second]) == Do(Do(s, first), second)
  {
    hide Do;
    assert [first, second][1..] == [second];
    OneStep(Do(s, first), second);
  }

  lemma NotItsOwnParent(c: C, head: Option<C>)
    requires head.Some? ==> c.parents == [head.value]
    ensures head != Some(c)
  {
    if head.Some? { MemberWeighsLess(c.parents, 0); }
  }

  // ----- Publishing -----

  /**
   Publishing begins when the commit is staged and the operation is still at the head the
   caller expects, which the commit descends from; else the swap is lost.
   */
  lemma PublishDecides(target: C, steps: seq<Step>, a: nat, operation: string, expected: Option<C>, candidate: C,
                       token: nat, staged: bool)
    requires IsIdle(Run(Start(target), steps), a)
    ensures var s := Run(Start(target), steps);
            var s' := Run(s, [StartPublish(a, operation, expected, candidate, token, staged)]);
            if staged && expected == HeadOf(s, OperationRef(operation))
               && (forall head :: expected == Some(head) ==> Ancestor(head, candidate))
            then a in s'.adapters && s'.answers == s.answers && s'.refs == s.refs && s'.landed == s.landed
                 && s'.adapters[a].call == HeadRead(s.calls, operation, expected, candidate, token, expected.Some?)
            else Ends(s, s', a, s.calls, CasLost)
  {
    hide Run, Ancestor;
    var s := Run(Start(target), steps);
    OneStep(s, StartPublish(a, operation, expected, candidate, token, staged));
    if expected.Some? { assert expected == Some(expected.value); }
  }

  /** The target is always there, and always descends from where it was connected. */
  lemma TargetStays(target: C, steps: seq<Step>)
    ensures var s := Run(Start(target), steps); TargetRef in s.refs && Ancestor(target, s.refs[TargetRef])
  {
    hide Safe, Ancestor;
    StartIsSafe(target);
    StartIsBased(target);
    RunKeepsPast(Start(target), steps, TargetRef, target);
  }

  lemma AncestorSelf(c: C)
    ensures Ancestor(c, c)
  {
  }

  /** A first publish goes on exactly when its commit descends from the target as it is now. */
  lemma BaselineDecides(target: C, steps: seq<Step>, a: nat)
    requires var s := Run(Start(target), steps);
             a in s.adapters && s.adapters[a].call.HeadRead? && !s.adapters[a].call.based
    ensures var s := Run(Start(target), steps);
            var s' := Run(s, [CheckBaseline(a)]);
            var call := s.adapters[a].call;
            && TargetRef in s.refs
            && if Ancestor(s.refs[TargetRef], call.candidate)
               then s' == s.(adapters := s.adapters[a := Adapter(s.adapters[a].mirror, call.(based := true))])
               else Ends(s, s', a, call.call, CasLost)
  {
    hide Run, Ancestor;
    TargetStays(target, steps);
    OneStep(Run(Start(target), steps), CheckBaseline(a));
  }

  /** Place k holds the last lease record of the operation. */
  ghost predicate LastLease(rs: seq<Record>, operation: string, k: nat) {
    && k < |rs| && IsLeaseOf(rs[k], operation)
    && forall j :: k < j < |rs| ==> !IsLeaseOf(rs[j], operation)
  }

  /** The last lease record of the operation, if there is one, is live and has this token. */
  ghost predicate HoldsLease(rs: seq<Record>, operation: string, token: nat) {
    forall k: nat :: LastLease(rs, operation, k) ==>
      rs[k].lease.token == token && rs[k].lease.state in {Granted, Renewed}
  }

  lemma AdmitsIff(rs: seq<Record>, operation: string, token: nat)
    ensures Admits(rs, operation, token) <==> HoldsLease(rs, operation, token)
  {
    hide LeaseTip, IsLeaseOf;
    TipIsLast(rs, operation);
    if LeaseTip(rs, operation).Some? {
      var i :| 0 <= i < |rs| && rs[i] == LeaseTip(rs, operation).value && IsLeaseOf(rs[i], operation)
               && forall j :: i < j < |rs| ==> !IsLeaseOf(rs[j], operation);
      assert LastLease(rs, operation, i);
      assert forall k: nat :: LastLease(rs, operation, k) ==> k == i;
    }
  }

  /**
   Every publish that landed had read a chain in which the last lease of its operation, if
   there is one, is granted or renewed and has the token it presented.
   */
  lemma LandedPublishHeldTheLease(target: C, steps: seq<Step>, i: nat)
    requires var landed := Run(Start(target), steps).landed; i < |landed| && landed[i].ref.OperationRef?
    ensures var landed := Run(Start(target), steps).landed;
            && landed[i].purpose.Publish?
            && var fence, operation, token := landed[i].purpose.fence, landed[i].ref.operation, landed[i].purpose.token;
            && fence <= Records(landed)
            && forall k: nat :: LastLease(fence, operation, k) ==>
                 fence[k].lease.token == token && (fence[k].lease.state == Granted || fence[k].lease.state == Renewed)
  {
    hide Forward, Extends, GoodRecords, TreeOf, Pending, Admits, LastLease;
    StartIsSafe(target);
    RunIsSafe(Start(target), steps);
    var landed := Run(Start(target), steps).landed;
    assert Kinds(landed[i]);
    AdmitsIff(landed[i].purpose.fence, landed[i].ref.operation, landed[i].purpose.token);
  }

  /**
   A publish that passed its other checks comes to wait for its push exactly when the chain is
   readable and the last lease of its operation, if any, is live and holds its token; it is
   refused when the chain cannot be read and fenced off otherwise.
   */
  lemma FenceDecides(target: C, steps: seq<Step>, a: nat)
    requires var s := Run(Start(target), steps);
             a in s.adapters && s.adapters[a].call.HeadRead? && s.adapters[a].call.based
    ensures var s := Run(Start(target), steps);
            var s' := Run(s, [CheckFence(a)]);
            var call, rs := s.adapters[a].call, Records(s.landed);
            if !Numbered(rs) then Ends(s, s', a, call.call, Refused)
            else if HoldsLease(rs, call.operation, call.token)
            then Waits(s, s', a, Push(call.call, OperationRef(call.operation), call.expected, call.candidate,
                                      Publish(call.token, rs)))
            else Ends(s, s', a, call.call, LeaseFenced)
  {
    hide Run, Records, TreeOf, Numbered, ChainRead, FastForward, Chain, Admits, HoldsLease;
    var s := Run(Start(target), steps);
    ReadsTheChain(target, steps);
    FetchesAreFastForward(target, steps, a);
    AdmitsIff(Records(s.landed), s.adapters[a].call.operation, s.adapters[a].call.token);
    OneStep(s, CheckFence(a));
  }

  // ----- What is published descends from the target -----

  /** Whatever is or will be published descends from the connected target. */
  ghost predicate Based(s: Store, target: C) {
    && (forall a :: a in s.adapters && s.adapters[a].call.HeadRead? && s.adapters[a].call.based ==>
          Ancestor(target, s.adapters[a].call.candidate))
    && (forall p :: Pending(s, p) && p.purpose.Publish? ==> Ancestor(target, p.candidate))
    && (forall i :: 0 <= i < |s.landed| && s.landed[i].purpose.Publish? ==> Ancestor(target, s.landed[i].candidate))
    && (forall ref :: ref in s.refs && ref.OperationRef? ==> Ancestor(target, s.refs[ref]))
  }

  /** One adapter goes on with a call that is based. */
  lemma ContinueKeepsBased(s: Store, t: Store, target: C, a: nat, mirror: Option<C>, call: Call)
    requires Based(s, target) && t.adapters == s.adapters && t.refs == s.refs && t.landed == s.landed
    requires forall p :: p in t.lost ==> Pending(s, p)
    requires call.HeadRead? && call.based ==> Ancestor(target, call.candidate)
    requires call.Ready? && call.push.purpose.Publish? ==> Ancestor(target, call.push.candidate)
    ensures Based(Continue(t, a, mirror, call), target)
  {
    hide Ancestor;
    var t' := Continue(t, a, mirror, call);
    forall p | Pending(t', p) && p.purpose.Publish? ensures Ancestor(target, p.candidate) {
      if p !in t.lost {
        var b :| b in t'.adapters && t'.adapters[b].call == Ready(p);
        if b != a { assert s.adapters[b].call == Ready(p) && Pending(s, p); }
      }
    }
  }

  lemma FinishKeepsBased(s: Store, t: Store, target: C, a: nat, mirror: Option<C>, call: nat, x: Answer)
    requires Based(s, target) && t.adapters == s.adapters && t.refs == s.refs && t.landed == s.landed
    requires forall p :: p in t.lost ==> Pending(s, p)
    ensures Based(Finish(t, a, mirror, call, x), target)
  {
    hide Ancestor, Based;
    var u := t.(answers := t.answers[call := x]);
    ContinueKeepsBased(s, u, target, a, mirror, Idle);
    assert Finish(t, a, mirror, call, x) == Continue(u, a, mirror, Idle);
  }

  lemma LandKeepsBased(s: Store, p: Push, target: C)
    requires Based(s, target) && (p.purpose.Publish? <==> p.ref.OperationRef?)
    requires p.purpose.Publish? ==> Ancestor(target, p.candidate)
    ensures Based(Land(s, p), target)
  {
    hide Ancestor;
    forall q | Pending(Land(s, p), q) ensures Pending(s, q) { }
  }

  lemma WaitingPush(s: Store, target: C, a: nat)
    requires Based(s, target) && Safe(s) && a in s.adapters && s.adapters[a].call.Ready?
    ensures var p := s.adapters[a].call.push;
            (p.purpose.Publish? <==> p.ref.OperationRef?) && (p.purpose.Publish? ==> Ancestor(target, p.candidate))
            && Pending(s, p)
  {
    hide Ancestor, Forward, Fenced, Extends, GoodRecords, TreeOf, Admits;
    assert Pending(s, s.adapters[a].call.push);
    assert Kinds(s.adapters[a].call.push);
  }

  lemma PushKeepsBased(s: Store, target: C, step: Step)
    requires Based(s, target) && Safe(s) && Possible(s, step)
    requires step.PushLands? || step.PushUpToDate? || step.PushRejected? || step.PushLost?
    ensures Based(Next(s, step), target)
  {
    hide Ancestor, Based, Safe, Pending;
    var a := step.a;
    var p, mirror := s.adapters[a].call.push, s.adapters[a].mirror;
    WaitingPush(s, target, a);
    LostIsPending(s);
    match step
    case PushLands(_) =>
      LandKeepsBased(s, p, target);
      var t := Finish(s, a, MirrorPushed(s, a, p), p.call, Done(p.ref, p.candidate));
      FinishKeepsBased(s, s, target, a, MirrorPushed(s, a, p), p.call, Done(p.ref, p.candidate));
      LandKeepsBased(t, p, target);
      assert Next(s, step) == Land(t, p);
    case PushUpToDate(_) => FinishKeepsBased(s, s, target, a, MirrorPushed(s, a, p), p.call, Done(p.ref, p.candidate));
    case PushRejected(_) => FinishKeepsBased(s, s, target, a, mirror, p.call, CasLost);
    case PushLost(_) => FinishKeepsBased(s, s.(lost := s.lost + [p]), target, a, mirror, p.call, Unavailable);
  }

  lemma LostIsPending(s: Store)
    ensures forall p :: p in s.lost ==> Pending(s, p)
  {
  }

  lemma LateKeepsBased(s: Store, target: C, i: nat)
    requires Based(s, target) && Safe(s) && Possible(s, LateLanding(i))
    ensures Based(Next(s, LateLanding(i)), target)
  {
    hide Ancestor, Forward, Fenced, Extends, GoodRecords, TreeOf, Admits;
    var p, t := s.lost[i], s.(lost := s.lost[..i] + s.lost[i + 1..]);
    assert Pending(s, p) && Kinds(p);
    forall q | Pending(t, q) ensures Pending(s, q) { }
    LandKeepsBased(t, p, target);
  }

  lemma BeginKeepsBased(s: Store, target: C, step: Step)
    requires Based(s, target) && Possible(s, step)
    requires step.StartAppend? || step.StartProjectRecord? || step.StartTargetSwap? || step.ReadControl? || step.Fails?
    ensures Based(Next(s, step), target)
  {
    hide Ancestor, Based, Pending, FastForward, ChainRead, Chain, Appended;
    LostIsPending(s);
    var s1 := s.(calls := s.calls + 1);
    var seen := if ChainRead(s).Some? then s.seen + [ChainRead(s).value] else s.seen;
    forall t, m, k, x | t == s || t == s1 || t == s1.(seen := seen)
      ensures Based(Finish(t, step.a, m, k, x), target)
    {
      FinishKeepsBased(s, t, target, step.a, m, k, x);
    }
    forall t, m, c: Call | (t == s || t == s1 || t == s.(seen := seen) || t == s1.(seen := seen))
                           && !c.HeadRead? && (c.Ready? ==> !c.push.purpose.Publish?)
      ensures Based(Continue(t, step.a, m, c), target)
    {
      ContinueKeepsBased(s, t, target, step.a, m, c);
    }
  }

  lemma PublishKeepsBased(s: Store, target: C, step: Step)
    requires Based(s, target) && Possible(s, step) && TargetRef in s.refs && Ancestor(target, s.refs[TargetRef])
    requires step.StartPublish? || step.CheckBaseline? || step.CheckFence?
    ensures Based(Next(s, step), target)
  {
    hide Ancestor, Based, Pending, FastForward, ChainRead, Admits;
    LostIsPending(s);
    var a, s1 := step.a, s.(calls := s.calls + 1);
    var seen := if ChainRead(s).Some? then s.seen + [ChainRead(s).value] else s.seen;
    forall t, m, k, x | t == s || t == s1 || t == s.(seen := seen) ensures Based(Finish(t, a, m, k, x), target) {
      FinishKeepsBased(s, t, target, a, m, k, x);
    }
    HeldIsBased(s, target, a);
    forall t, m, c: Call | (t == s || t == s1 || t == s.(seen := seen))
                           && (c.HeadRead? && c.based ==> Ancestor(target, c.candidate))
                           && (c.Ready? && c.push.purpose.Publish? ==> Ancestor(target, c.push.candidate))
      ensures Based(Continue(t, a, m, c), target)
    {
      ContinueKeepsBased(s, t, target, a, m, c);
    }
    match step
    case StartPublish(_, operation, expected, candidate, _, _) =>
      if expected == Lookup(s, OperationRef(operation)) && expected.Some? && Ancestor(expected.value, candidate) {
        HeadIsBased(s, target, OperationRef(operation));
        AncestorTransitive(target, expected.value, candidate);
      }
    case CheckBaseline(_) =>
      var candidate := s.adapters[a].call.candidate;
      if Ancestor(s.refs[TargetRef], candidate) { AncestorTransitive(target, s.refs[TargetRef], candidate); }
    case CheckFence(_) =>
  }

  lemma HeldIsBased(s: Store, target: C, a: nat)
    requires Based(s, target)
    ensures a in s.adapters && s.adapters[a].call.HeadRead? && s.adapters[a].call.based ==>
              Ancestor(target, s.adapters[a].call.candidate)
  {
  }

  lemma HeadIsBased(s: Store, target: C, ref: Ref)
    requires Based(s, target) && ref.OperationRef?
    ensures ref in s.refs ==> Ancestor(target, s.refs[ref])
  {
  }

  lemma StepKeepsBased(s: Store, target: C, step: Step)
    requires Based(s, target) && Safe(s) && TargetRef in s.refs && Ancestor(target, s.refs[TargetRef])
    ensures Based(Do(s, step), target)
  {
    hide Based, Safe, Ancestor, Possible, Next;
    if Possible(s, step) {
      match step
      case PushLands(_) => PushKeepsBased(s, target, step);
      case PushUpToDate(_) => PushKeepsBased(s, target, step);
      case PushRejected(_) => PushKeepsBased(s, target, step);
      case PushLost(_) => PushKeepsBased(s, target, step);
      case LateLanding(i) => LateKeepsBased(s, target, i);
      case StartPublish(_, _, _, _, _, _) => PublishKeepsBased(s, target, step);
      case CheckBaseline(_) => PublishKeepsBased(s, target, step);
      case CheckFence(_) => PublishKeepsBased(s, target, step);
      case _ => BeginKeepsBased(s, target, step);
    }
  }

  lemma {:induction false} RunKeepsBased(s: Store, target: C, steps: seq<Step>)
    requires Based(s, target) && Safe(s) && Anchored(s, TargetRef, Some(target))
    ensures Based(Run(s, steps), target)
    decreases |steps|
  {
    hide Based, Safe, Ancestor, Do;
    if steps != [] {
      StepKeepsBased(s, target, steps[0]);
      StepIsSafe(s, steps[0]);
      StepKeepsPast(s, steps[0], TargetRef, target);
      RunKeepsBased(Do(s, steps[0]), target, steps[1..]);
    }
  }

  lemma StartIsBased(target: C)
    ensures Based(Start(target), target) && Anchored(Start(target), TargetRef, Some(target))
  {
    hide Ancestor;
    AncestorSelf(target);
  }

  /**
   In every reachable state every operation head, and every publish that landed, descends
   from the connected target.
   */
  lemma OperationsDescendFromTarget(target: C, steps: seq<Step>)
    ensures var s := Run(Start(target), steps);
            && (forall operation :: OperationRef(operation) in s.refs ==>
                  Ancestor(target, s.refs[OperationRef(operation)]))
            && (forall i :: 0 <= i < |s.landed| && s.landed[i].ref.OperationRef? ==>
                  Ancestor(target, s.landed[i].candidate))
  {
    hide Ancestor, Run, Forward, Fenced, Extends, GoodRecords, TreeOf, Admits, Pending, Anchored;
    StartIsSafe(target);
    StartIsBased(target);
    RunIsSafe(Start(target), steps);
    RunKeepsBased(Start(target), target, steps);
    var s := Run(Start(target), steps);
    forall i | 0 <= i < |s.landed| && s.landed[i].ref.OperationRef? ensures Ancestor(target, s.landed[i].candidate) {
      assert Kinds(s.landed[i]);
    }
  }

  // ----- Target and reads -----

  /**
   A swap of the target waits for its push exactly when the target is at the commit and the
   candidate descends from it.
   */
  lemma SwapDecides(target: C, steps: seq<Step>, a: nat, commit: C, candidate: C)
    requires IsIdle(Run(Start(target), steps), a)
    ensures var s := Run(Start(target), steps);
            var s' := Run(s, [StartTargetSwap(a, commit, candidate)]);
            && TargetRef in s.refs
            && if s.refs[TargetRef] == commit && Ancestor(commit, candidate)
               then Waits(s, s', a, Push(s.calls, TargetRef, Some(commit), candidate, SwapTarget))
               else Ends(s, s', a, s.calls, CasLost)
  {
    hide Run, Ancestor;
    TargetStays(target, steps);
    OneStep(Run(Start(target), steps), StartTargetSwap(a, commit, candidate));
  }

  /** A project record is always prepared as one commit on the target as it is. */
  lemma ProjectRecordDecides(target: C, steps: seq<Step>, a: nat, tree: Tree, stamp: nat)
    requires IsIdle(Run(Start(target), steps), a)
    ensures var s := Run(Start(target), steps);
            var s' := Run(s, [StartProjectRecord(a, tree, stamp)]);
            && TargetRef in s.refs
            && Waits(s, s', a, Push(s.calls, TargetRef, Some(s.refs[TargetRef]),
                                    Commit([s.refs[TargetRef]], tree, stamp), ProjectRecord))
  {
    hide Run, Ancestor;
    TargetStays(target, steps);
    OneStep(Run(Start(target), steps), StartProjectRecord(a, tree, stamp));
  }

  /** A read of the Control Ref sees the whole landed chain, when that is readable, and remembers the head it saw. */
  lemma ReadSeesTheChain(target: C, steps: seq<Step>, a: nat)
    requires IsIdle(Run(Start(target), steps), a)
    ensures var s := Run(Start(target), steps);
            var s' := Run(s, [ReadControl(a)]);
            && s'.refs == s.refs && s'.landed == s.landed && s'.answers == s.answers
            && s'.seen == s.seen + (if Numbered(Records(s.landed)) then [Records(s.landed)] else [])
            && a in s'.adapters && s'.adapters[a].call.Idle?
            && (ControlRef in s.refs ==> s'.adapters[a].mirror == Some(s.refs[ControlRef]))
  {
    hide Run, Records, TreeOf, Numbered, ChainRead, FastForward, Chain;
    ReadsTheChain(target, steps);
    FetchesAreFastForward(target, steps, a);
    OneStep(Run(Start(target), steps), ReadControl(a));
  }

  /** A call that has not come to its push can fail at any time, with any answer but success; nothing else changes. */
  lemma FailureDecides(s: Store, a: nat, x: Answer, fetched: bool)
    ensures var waiting := a in s.adapters && s.adapters[a].call.Ready?;
            && (Possible(s, Fails(a, x, fetched)) <==> !waiting && !x.Done?)
            && (!waiting && !x.Done? ==>
                  Ends(s, Run(s, [Fails(a, x, fetched)]), a,
                       if a in s.adapters && s.adapters[a].call.HeadRead? then s.adapters[a].call.call else s.calls, x))
  {
    hide Run, MirrorFetched;
    OneStep(s, Fails(a, x, fetched));
  }

  // ----- Pushing -----

  /**
   A waiting push lands exactly when its ref is still where it is expected and not at the
   candidate already; then the ref is at the candidate and the call is answered with it.
   */
  lemma PushLandsIff(s: Store, a: nat)
    requires a in s.adapters && s.adapters[a].call.Ready?
    ensures var p := s.adapters[a].call.push;
            && (Possible(s, PushLands(a)) <==> HeadOf(s, p.ref) == p.expected && p.expected != Some(p.candidate))
            && (Possible(s, PushLands(a)) ==>
                  var s' := Run(s, [PushLands(a)]);
                  && s'.refs == s.refs[p.ref := p.candidate] && s'.landed == s.landed + [p] && s'.lost == s.lost
                  && s'.answers == s.answers[p.call := Done(p.ref, p.candidate)]
                  && a in s'.adapters && s'.adapters[a].call.Idle?
                  && s'.adapters[a].mirror == if p.ref == ControlRef then Some(p.candidate) else s.adapters[a].mirror)
  {
    hide Run;
    OneStep(s, PushLands(a));
  }

  /** It is there already exactly when the ref is at the candidate; the call is answered the same and nothing moves. */
  lemma PushUpToDateIff(s: Store, a: nat)
    requires a in s.adapters && s.adapters[a].call.Ready?
    ensures var p := s.adapters[a].call.push;
            && (Possible(s, PushUpToDate(a)) <==> HeadOf(s, p.ref) == Some(p.candidate))
            && (Possible(s, PushUpToDate(a)) ==>
                  Ends(s, Run(s, [PushUpToDate(a)]), a, p.call, Done(p.ref, p.candidate)))
  {
    hide Run;
    OneStep(s, PushUpToDate(a));
  }

  /** A rejected push has lost the swap for good; one without an answer is still on its way. */
  lemma PushFails(s: Store, a: nat)
    requires a in s.adapters && s.adapters[a].call.Ready?
    ensures var p := s.adapters[a].call.push;
            && Ends(s, Run(s, [PushRejected(a)]), a, p.call, CasLost)
            && (var s' := Run(s, [PushLost(a)]);
                s'.lost == s.lost + [p] && Ends(s, s'.(lost := s.lost), a, p.call, Unavailable))
  {
    hide Run;
    OneStep(s, PushRejected(a));
    OneStep(s, PushLost(a));
  }

  /** A push whose answer was lost can land later, as long as its ref is still where it is expected. */
  lemma LostPushCanLand(s: Store, i: nat)
    requires i < |s.lost|
    ensures var p := s.lost[i];
            && (Possible(s, LateLanding(i)) <==> HeadOf(s, p.ref) == p.expected && p.expected != Some(p.candidate))
            && (Possible(s, LateLanding(i)) ==>
                  var s' := Run(s, [LateLanding(i)]);
                  && s'.refs == s.refs[p.ref := p.candidate] && s'.landed == s.landed + [p]
                  && s'.lost == s.lost[..i] + s.lost[i + 1..]
                  && s'.adapters == s.adapters && s'.answers == s.answers)
  {
    hide Run;
    OneStep(s, LateLanding(i));
  }
}
