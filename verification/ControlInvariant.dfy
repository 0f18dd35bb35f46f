/**
 What every step of the control store keeps.  A step either lands one pending
 push or leaves the remote alone; each invariant is shown once for either kind.
 */
module ControlInvariant {
  import opened Options
  import opened GitGraph
  import opened ControlRecords
  import opened ControlStore

  // ----- The two kinds of step -----

  /** A push that has not landed and still can. */
  ghost predicate Pending(s: Store, p: Push) {
    p in s.lost || exists a :: a in s.adapters && s.adapters[a].call == Ready(p)
  }

  /** A publish that has read the operation head and not yet the lease chain. */
  ghost predicate HeadHeld(s: Store, ref: Ref, expected: Option<C>, candidate: C) {
    exists a :: a in s.adapters && s.adapters[a].call.HeadRead?
                && ref == OperationRef(s.adapters[a].call.operation)
                && expected == s.adapters[a].call.expected && candidate == s.adapters[a].call.candidate
  }

  ghost predicate CallHeld(s: Store, call: nat) {
    exists a :: a in s.adapters && s.adapters[a].call.HeadRead? && s.adapters[a].call.call == call
  }

  ghost predicate NewOrHeld(s: Store, call: nat) {
    call >= s.calls || CallHeld(s, call)
  }

  ghost predicate Descends(expected: Option<C>, candidate: C) {
    expected.Some? ==> Ancestor(expected.value, candidate)
  }

  /** What a call has established when it is ready to push. */
  ghost predicate Prepared(s: Store, p: Push) {
    match p.purpose
    case AppendRecord(record) =>
      && p.ref == ControlRef && p.expected == Lookup(s, ControlRef)
      && ChainRead(s).Some? && record.sound && Chain(ChainRead(s).value + [record])
      && p.candidate == Appended(p.expected, record, p.candidate.stamp)
    case Publish(token, fence) =>
      && p.ref.OperationRef? && HeadHeld(s, p.ref, p.expected, p.candidate)
      && ChainRead(s) == Some(fence) && Admits(fence, p.ref.operation, token)
    case ProjectRecord =>
      p.ref == TargetRef && p.expected == Lookup(s, TargetRef) && p.expected.Some?
      && p.candidate.parents == [p.expected.value]
    case SwapTarget =>
      p.ref == TargetRef && p.expected == Lookup(s, TargetRef) && p.expected.Some? && Descends(p.expected, p.candidate)
  }

  ghost predicate Local(s: Store, s': Store) {
    && s'.refs == s.refs && s'.landed == s.landed
    && (forall p :: Pending(s', p) ==> Pending(s, p) || (Prepared(s, p) && NewOrHeld(s, p.call)))
    && (forall ref, e, c ::
          HeadHeld(s', ref, e, c) ==> HeadHeld(s, ref, e, c) || (e == Lookup(s, ref) && Descends(e, c)))
    && (forall k :: CallHeld(s', k) ==> NewOrHeld(s, k))
    && (forall a ::
          a in s'.adapters ==>
            s'.adapters[a].mirror == AdapterOf(s, a).mirror || s'.adapters[a].mirror == Lookup(s, ControlRef))
    && (forall rs :: rs in s'.seen ==> rs in s.seen || ChainRead(s) == Some(rs))
  }

  ghost predicate Landing(s: Store, s': Store, p: Push) {
    && Pending(s, p) && Moves(s, p)
    && s'.refs == s.refs[p.ref := p.candidate] && s'.landed == s.landed + [p]
    && (forall q :: Pending(s', q) ==> Pending(s, q))
    && (forall ref, e, c :: HeadHeld(s', ref, e, c) ==> HeadHeld(s, ref, e, c))
    && (forall k :: CallHeld(s', k) ==> CallHeld(s, k))
    && (forall a ::
          a in s'.adapters ==>
            s'.adapters[a].mirror == AdapterOf(s, a).mirror || s'.adapters[a].mirror == Lookup(s', ControlRef))
    && s'.seen == s.seen
  }

  /** The same remote and adapters; what was lost was pending, what was read is the chain. */
  ghost predicate Beside(s: Store, s': Store) {
    && s'.refs == s.refs && s'.landed == s.landed && s'.adapters == s.adapters
    && (forall p :: p in s'.lost ==> Pending(s, p))
    && (forall rs :: rs in s'.seen ==> rs in s.seen || ChainRead(s) == Some(rs))
  }

  ghost predicate CallFits(s: Store, call: Call) {
    && (call.Ready? ==> Prepared(s, call.push) && NewOrHeld(s, call.push.call))
    && (call.HeadRead? ==> NewOrHeld(s, call.call))
    && (call.HeadRead? ==> HeadHeld(s, OperationRef(call.operation), call.expected, call.candidate)
                           || (call.expected == Lookup(s, OperationRef(call.operation))
                               && Descends(call.expected, call.candidate)))
  }

  /** One adapter moves on with a call that fits. */
  lemma ContinueIsLocal(s: Store, s': Store, a: nat, mirror: Option<C>, call: Call)
    requires Beside(s, s') && CallFits(s, call)
    requires mirror == AdapterOf(s, a).mirror || mirror == Lookup(s, ControlRef)
    ensures Local(s, Continue(s', a, mirror, call))
  {
    hide Prepared, Descends, ChainRead;
    var t := Continue(s', a, mirror, call);
    forall p | Pending(t, p) ensures Pending(s, p) || (Prepared(s, p) && NewOrHeld(s, p.call)) {
      if p !in t.lost {
        var b :| b in t.adapters && t.adapters[b].call == Ready(p);
        if b != a { assert s.adapters[b].call == Ready(p); }
      }
    }
    forall ref, e, c | HeadHeld(t, ref, e, c)
      ensures HeadHeld(s, ref, e, c) || (e == Lookup(s, ref) && Descends(e, c))
    {
      var b :| b in t.adapters && t.adapters[b].call.HeadRead?
               && ref == OperationRef(t.adapters[b].call.operation)
               && e == t.adapters[b].call.expected && c == t.adapters[b].call.candidate;
      if b != a { assert s.adapters[b] == t.adapters[b]; }
    }
    forall k | CallHeld(t, k) ensures NewOrHeld(s, k) {
      var b :| b in t.adapters && t.adapters[b].call.HeadRead? && t.adapters[b].call.call == k;
      if b != a { assert s.adapters[b] == t.adapters[b]; }
    }
  }

  lemma FinishIsLocal(s: Store, s': Store, a: nat, mirror: Option<C>, call: nat, answer: Answer)
    requires Beside(s, s')
    requires mirror == AdapterOf(s, a).mirror || mirror == Lookup(s, ControlRef)
    ensures Local(s, Finish(s', a, mirror, call, answer))
  {
    var t := s'.(answers := s'.answers[call := answer]);
    ContinueIsLocal(s, t, a, mirror, Idle);
    assert Finish(s', a, mirror, call, answer) == Continue(t, a, mirror, Idle);
  }

  lemma LandedPush(s: Store, s': Store, p: Push)
    requires Pending(s, p) && Moves(s, p)
    requires s'.refs == s.refs[p.ref := p.candidate] && s'.landed == s.landed + [p] && s'.seen == s.seen
    requires forall q :: q in s'.lost ==> q in s.lost
    requires forall b :: b in s'.adapters ==>
               && (s'.adapters[b].mirror == AdapterOf(s, b).mirror || s'.adapters[b].mirror == Lookup(s', ControlRef))
               && (s'.adapters[b].call.Idle? || (b in s.adapters && s'.adapters[b].call == s.adapters[b].call))
    ensures Landing(s, s', p)
  {
    forall q | Pending(s', q) ensures Pending(s, q) {
      if q !in s'.lost {
        var b :| b in s'.adapters && s'.adapters[b].call == Ready(q);
        assert s.adapters[b].call == Ready(q);
      }
    }
    forall ref, e, c | HeadHeld(s', ref, e, c) ensures HeadHeld(s, ref, e, c) {
      var b :| b in s'.adapters && s'.adapters[b].call.HeadRead?
               && ref == OperationRef(s'.adapters[b].call.operation)
               && e == s'.adapters[b].call.expected && c == s'.adapters[b].call.candidate;
      assert s.adapters[b].call == s'.adapters[b].call;
    }
    forall k | CallHeld(s', k) ensures CallHeld(s, k) {
      var b :| b in s'.adapters && s'.adapters[b].call.HeadRead? && s'.adapters[b].call.call == k;
      assert s.adapters[b].call == s'.adapters[b].call;
    }
  }

  /** Every step leaves the remote alone or lands one pending push. */
  lemma StepShape(s: Store, step: Step)
    requires Possible(s, step)
    ensures Local(s, Next(s, step)) || exists p :: Landing(s, Next(s, step), p)
  {
    match step
    case PushLands(a) => LandsShape(s, a);
    case LateLanding(i) => LateShape(s, i);
    case ReadControl(a) => ReadShape(s, a);
    case StartAppend(a, expected, record, stamp) => AppendShape(s, a, expected, record, stamp);
    case StartPublish(a, operation, expected, candidate, token, staged) => PublishShape(s, a, operation, expected,
        candidate, token, staged);
    case CheckBaseline(a) => CheckShape(s, a);
    case CheckFence(a) => CheckShape(s, a);
    case StartProjectRecord(_, _, _) => TargetShape(s, step);
    case StartTargetSwap(_, _, _) => TargetShape(s, step);
    case Fails(a, answer, fetched) => FailShape(s, a, answer, fetched);
    case PushUpToDate(a) =>
      var p := s.adapters[a].call.push;
      FinishIsLocal(s, s, a, MirrorPushed(s, a, p), p.call, Done(p.ref, p.candidate));
    case PushRejected(a) => FinishIsLocal(s, s, a, AdapterOf(s, a).mirror, s.adapters[a].call.push.call, CasLost);
    case PushLost(a) =>
      var p := s.adapters[a].call.push;
      FinishIsLocal(s, s.(lost := s.lost + [p]), a, AdapterOf(s, a).mirror, p.call, Unavailable);
  }

  lemma LandsShape(s: Store, a: nat)
    requires Possible(s, PushLands(a))
    ensures Landing(s, Next(s, PushLands(a)), s.adapters[a].call.push)
  {
    LandedPush(s, Next(s, PushLands(a)), s.adapters[a].call.push);
  }

  lemma LateShape(s: Store, i: nat)
    requires Possible(s, LateLanding(i))
    ensures Landing(s, Next(s, LateLanding(i)), s.lost[i])
  {
    LandedPush(s, Next(s, LateLanding(i)), s.lost[i]);
  }

  lemma FailShape(s: Store, a: nat, answer: Answer, fetched: bool)
    requires Possible(s, Fails(a, answer, fetched))
    ensures Local(s, Next(s, Fails(a, answer, fetched)))
  {
    hide FastForward, ChainRead, Prepared;
    var call, mirror := AdapterOf(s, a).call, MirrorFetched(s, a, fetched);
    FinishIsLocal(s, s, a, mirror, if call.HeadRead? then call.call else 0, answer);
    FinishIsLocal(s, s.(calls := s.calls + 1), a, mirror, s.calls, answer);
  }

  lemma ReadShape(s: Store, a: nat)
    requires Possible(s, ReadControl(a))
    ensures Local(s, Next(s, ReadControl(a)))
  {
    hide Carried, FastForward, ChainRead, Prepared;
    if FastForward(s, a) {
      var s1 := if ChainRead(s).Some? then s.(seen := s.seen + [ChainRead(s).value]) else s;
      ContinueIsLocal(s, s1, a, MirrorAfter(s, a), Idle);
    }
  }

  lemma AppendShape(s: Store, a: nat, expected: Option<C>, record: Record, stamp: nat)
    requires Possible(s, StartAppend(a, expected, record, stamp))
    ensures Local(s, Next(s, StartAppend(a, expected, record, stamp)))
  {
    hide Carried, FastForward, ChainRead, Chain, Local, HeadHeld;
    var s1, mirror := s.(calls := s.calls + 1), MirrorAfter(s, a);
    FinishIsLocal(s, s1, a, AdapterOf(s, a).mirror, s.calls, Refused);
    FinishIsLocal(s, s1, a, mirror, s.calls, Refused);
    FinishIsLocal(s, s1, a, mirror, s.calls, CasLost);
    if ChainRead(s).Some? && expected == Lookup(s, ControlRef) {
      var rs := ChainRead(s).value;
      var s2 := s1.(seen := s.seen + [rs]);
      FinishIsLocal(s, s2, a, mirror, s.calls, Refused);
      if record.sound && Chain(rs + [record]) {
        ContinueIsLocal(s, s2, a, mirror,
                        Ready(Push(s.calls, ControlRef, expected, Appended(expected, record, stamp),
                                   AppendRecord(record))));
      }
    }
  }

  lemma PublishShape(s: Store, a: nat, operation: string, expected: Option<C>, candidate: C, token: nat, staged: bool)
    requires Possible(s, StartPublish(a, operation, expected, candidate, token, staged))
    ensures Local(s, Next(s, StartPublish(a, operation, expected, candidate, token, staged)))
  {
    hide Ancestor, ChainRead, Local;
    var s1, mirror := s.(calls := s.calls + 1), AdapterOf(s, a).mirror;
    FinishIsLocal(s, s1, a, mirror, s.calls, CasLost);
    if expected == Lookup(s, OperationRef(operation)) && Descends(expected, candidate) {
      ContinueIsLocal(s, s1, a, mirror, HeadRead(s.calls, operation, expected, candidate, token, expected.Some?));
    }
  }

  lemma CheckShape(s: Store, a: nat)
    requires AdapterOf(s, a).call.HeadRead?
    ensures Local(s, BaselineNext(s, a)) && Local(s, FenceNext(s, a))
  {
    hide Ancestor, ChainRead, Local, Admits, FastForward;
    var call, mirror := s.adapters[a].call, s.adapters[a].mirror;
    assert HeadHeld(s, OperationRef(call.operation), call.expected, call.candidate) && CallHeld(s, call.call);
    FinishIsLocal(s, s, a, mirror, call.call, Refused);
    FinishIsLocal(s, s, a, mirror, call.call, CasLost);
    FinishIsLocal(s, s, a, MirrorAfter(s, a), call.call, Refused);
    ContinueIsLocal(s, s, a, mirror, call.(based := true));
    if ChainRead(s).Some? {
      var rs := ChainRead(s).value;
      var s1 := s.(seen := s.seen + [rs]);
      FinishIsLocal(s, s1, a, MirrorAfter(s, a), call.call, LeaseFenced);
      if Admits(rs, call.operation, call.token) {
        ContinueIsLocal(s, s1, a, MirrorAfter(s, a),
                        Ready(Push(call.call, OperationRef(call.operation), call.expected, call.candidate,
                                   Publish(call.token, rs))));
      }
    }
  }

  lemma TargetShape(s: Store, step: Step)
    requires Possible(s, step) && (step.StartProjectRecord? || step.StartTargetSwap?)
    ensures Local(s, Next(s, step))
  {
    hide Ancestor, ChainRead, Local;
    var s1, mirror := s.(calls := s.calls + 1), AdapterOf(s, step.a).mirror;
    FinishIsLocal(s, s1, step.a, mirror, s.calls, Unavailable);
    FinishIsLocal(s, s1, step.a, mirror, s.calls, CasLost);
    if TargetRef in s.refs {
      var base := s.refs[TargetRef];
      if step.StartProjectRecord? {
        ContinueIsLocal(s, s1, step.a, mirror,
                        Ready(Push(s.calls, TargetRef, Some(base), Commit([base], step.tree, step.stamp),
                                   ProjectRecord)));
      } else if base == step.commit && Ancestor(base, step.candidate) {
        ContinueIsLocal(s, s1, step.a, mirror, Ready(Push(s.calls, TargetRef, Some(base), step.candidate, SwapTarget)));
      }
    }
  }
}
