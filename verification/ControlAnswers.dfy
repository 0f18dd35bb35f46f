/**
 What a caller may conclude from the answer to an append, and why retrying a
 record is harmless.
 */
module ControlAnswers {
  import opened Options
  import opened GitGraph
  import opened ControlRecords
  import opened ControlStore
  import opened ControlInvariant
  import opened ControlSafety
  import opened ControlCalls

  // ----- Answers are final -----

  /** A step answers nobody, or one call that began in it and failed, or one working call. */
  ghost predicate AnswersOne(s: Store, s': Store, step: Step) {
    || s'.answers == s.answers
    || (exists x :: FailsNew(s, s', x))
    || (exists a, x :: EndsWorking(s, s', step, a, x))
  }

  ghost predicate FailsNew(s: Store, s': Store, x: Answer) {
    s'.answers == s.answers[s.calls := x] && !x.Done?
  }

  ghost predicate EndsWorking(s: Store, s': Store, step: Step, a: nat, x: Answer) {
    && Working(s, a) && s'.answers == s.answers[CallId(s.adapters[a].call) := x]
    && (x.Done? ==> step == PushLands(a) || step == PushUpToDate(a))
  }

  lemma BeginAnswersOne(s: Store, step: Step)
    requires Possible(s, step) && (step.StartPublish? || step.StartProjectRecord? || step.StartTargetSwap?)
    ensures AnswersOne(s, Next(s, step), step)
  {
    hide AnswersOne, Ancestor;
    var s' := Next(s, step);
    if s'.answers == s.answers {
      AnswersNone(s, s', step);
    } else {
      AnswersNew(s, s', step, if step.StartPublish? || TargetRef in s.refs then CasLost else Unavailable);
    }
  }

  lemma CheckAnswersOne(s: Store, step: Step)
    requires Possible(s, step) && (step.CheckBaseline? || step.CheckFence?)
    ensures AnswersOne(s, Next(s, step), step)
  {
    hide AnswersOne, Ancestor, Admits, ChainRead, FastForward;
    var s' := Next(s, step);
    if s'.answers == s.answers {
      AnswersNone(s, s', step);
    } else {
      AnswersWorking(s, s', step, step.a, s'.answers[s.adapters[step.a].call.call]);
    }
  }

  lemma PushAnswersOne(s: Store, step: Step)
    requires Possible(s, step) && (step.PushLands? || step.PushUpToDate? || step.PushRejected? || step.PushLost?)
    ensures AnswersOne(s, Next(s, step), step)
  {
    hide AnswersOne;
    var p := s.adapters[step.a].call.push;
    AnswersWorking(s, Next(s, step), step, step.a,
                   match step
                   case PushRejected(_) => CasLost
                   case PushLost(_) => Unavailable
                   case _ => Done(p.ref, p.candidate));
  }

  lemma FailAnswersOne(s: Store, step: Step)
    requires Possible(s, step) && step.Fails?
    ensures AnswersOne(s, Next(s, step), step)
  {
    hide AnswersOne, FastForward;
    var s' := Next(s, step);
    if AdapterOf(s, step.a).call.HeadRead? {
      AnswersWorking(s, s', step, step.a, step.answer);
    } else {
      AnswersNew(s, s', step, step.answer);
    }
  }

  lemma StepAnswersOne(s: Store, step: Step)
    requires Possible(s, step)
    ensures AnswersOne(s, Next(s, step), step)
  {
    match step
    case StartAppend(a, expected, record, stamp) =>
      hide AppendNext, AnswersOne, FastForward;
      AppendAnswers(s, a, expected, record, stamp);
      var s' := Next(s, step);
      if s'.answers == s.answers {
        AnswersNone(s, s', step);
      } else {
        AnswersNew(s, s', step, if FastForward(s, a) && expected != Lookup(s, ControlRef) then CasLost else Refused);
      }
    case StartPublish(_, _, _, _, _, _) => BeginAnswersOne(s, step);
    case StartProjectRecord(_, _, _) => BeginAnswersOne(s, step);
    case StartTargetSwap(_, _, _) => BeginAnswersOne(s, step);
    case CheckBaseline(_) => CheckAnswersOne(s, step);
    case CheckFence(_) => CheckAnswersOne(s, step);
    case Fails(_, _, _) => FailAnswersOne(s, step);
    case PushLands(_) => PushAnswersOne(s, step);
    case PushUpToDate(_) => PushAnswersOne(s, step);
    case PushRejected(_) => PushAnswersOne(s, step);
    case PushLost(_) => PushAnswersOne(s, step);
    case ReadControl(_) => hide AnswersOne, ChainRead, FastForward; AnswersNone(s, Next(s, step), step);
    case LateLanding(_) => hide AnswersOne; AnswersNone(s, Next(s, step), step);
  }

  lemma AppendAnswers(s: Store, a: nat, expected: Option<C>, record: Record, stamp: nat)
    ensures AppendNext(s, a, expected, record, stamp).answers == s.answers
            || AppendNext(s, a, expected, record, stamp).answers
               == s.answers[s.calls := if FastForward(s, a) && expected != Lookup(s, ControlRef) then CasLost
                                       else Refused]
  {
    hide ChainRead, FastForward, Chain, Appended;
  }

  lemma AnswersNone(s: Store, s': Store, step: Step)
    requires s'.answers == s.answers
    ensures AnswersOne(s, s', step)
  {
  }

  lemma AnswersNew(s: Store, s': Store, step: Step, x: Answer)
    requires s'.answers == s.answers[s.calls := x] && !x.Done?
    ensures AnswersOne(s, s', step)
  {
    assert FailsNew(s, s', x);
  }

  lemma AnswersWorking(s: Store, s': Store, step: Step, a: nat, x: Answer)
    requires Working(s, a) && s'.answers == s.answers[CallId(s.adapters[a].call) := x]
    requires x.Done? ==> step == PushLands(a) || step == PushUpToDate(a)
    ensures AnswersOne(s, s', step)
  {
    assert EndsWorking(s, s', step, a, x);
  }

  lemma StepKeepsAnswers(s: Store, step: Step, k: nat)
    requires Calls(s) && k in s.answers
    ensures k in Do(s, step).answers && Do(s, step).answers[k] == s.answers[k]
  {
    hide Possible, Next;
    if Possible(s, step) { StepAnswersOne(s, step); }
  }

  lemma {:induction false} RunKeepsAnswers(s: Store, steps: seq<Step>, k: nat)
    requires Calls(s) && k in s.answers
    ensures k in Run(s, steps).answers && Run(s, steps).answers[k] == s.answers[k]
    decreases |steps|
  {
    hide Do, Calls;
    if steps != [] {
      StepKeepsCalls(s, steps[0]);
      StepKeepsAnswers(s, steps[0], k);
      RunKeepsAnswers(Do(s, steps[0]), steps[1..], k);
    }
  }

  /**
   A call that was told it lost the swap, was fenced off or was refused has not landed and never will; any
   other call lands at most once.
   */
  lemma FailedCallsNeverLand(target: C, before: seq<Step>, after: seq<Step>, k: nat)
    ensures var s := Run(Start(target), before);
            var landed := Run(s, after).landed;
            && (k in s.answers
                && (s.answers[k] == CasLost || s.answers[k] == Refused || s.answers[k] == LeaseFenced) ==>
                  forall i :: 0 <= i < |landed| ==> landed[i].call != k)
            && (forall i, j :: 0 <= i < j < |landed| ==> landed[i].call != landed[j].call)
  {
    hide Do, WorkingCalls, Start;
    var s := Run(Start(target), before);
    StartHasNoCalls(target);
    RunKeepsCalls(Start(target), before);
    RunKeepsCalls(s, after);
    if k in s.answers { RunKeepsAnswers(s, after, k); }
  }

  lemma StartHasNoCalls(target: C)
    ensures Calls(Start(target))
  {
  }

  // ----- One call, one record -----

  /** Whatever a call pushes or pushed is its own record. */
  ghost predicate Owns(s: Store, k: nat, record: Record) {
    && k < s.calls && !CallHeld(s, k)
    && (forall p :: Pending(s, p) && p.call == k ==> p.purpose == AppendRecord(record))
    && (forall i :: 0 <= i < |s.landed| && s.landed[i].call == k ==> s.landed[i].purpose == AppendRecord(record))
  }

  lemma CallsGrow(s: Store, step: Step)
    ensures Do(s, step).calls >= s.calls
  {
    hide Possible, AppendNext;
    if step.StartAppend? { AppendStarts(s, step.a, step.expected, step.record, step.stamp); }
  }

  lemma StepKeepsOwner(s: Store, step: Step, k: nat, record: Record)
    requires Owns(s, k, record)
    ensures Owns(Do(s, step), k, record)
  {
    hide Possible, Next, Prepared, Pending, CallHeld, HeadHeld, ChainRead, Descends;
    CallsGrow(s, step);
    if Possible(s, step) {
      StepShape(s, step);
      var s' := Next(s, step);
      if !Local(s, s') { var p :| Landing(s, s', p); }
    }
  }

  lemma {:induction false} RunKeepsOwner(s: Store, steps: seq<Step>, k: nat, record: Record)
    requires Owns(s, k, record)
    ensures Owns(Run(s, steps), k, record)
    decreases |steps|
  {
    hide Do, Owns;
    if steps != [] {
      StepKeepsOwner(s, steps[0], k, record);
      RunKeepsOwner(Do(s, steps[0]), steps[1..], k, record);
    }
  }

  lemma PendingCallsAreOld(s: Store, p: Push)
    requires Calls(s) && Pending(s, p)
    ensures p.call < s.calls
  {
    if p in s.lost {
      var i :| 0 <= i < |s.lost| && s.lost[i] == p;
      assert Answered(s, s.lost[i].call, Unavailable);
    } else {
      var a :| a in s.adapters && s.adapters[a].call == Ready(p);
      assert Working(s, a);
    }
  }

  lemma AppendStarts(s: Store, a: nat, expected: Option<C>, record: Record, stamp: nat)
    ensures Started(s, AppendNext(s, a, expected, record, stamp), a, record)
  {
    hide Started, FastForward, ChainRead, Chain, Appended;
    var s1 := s.(calls := s.calls + 1);
    var s2 := if ChainRead(s).Some? then s1.(seen := s.seen + [ChainRead(s).value]) else s1;
    forall t, m, x | t == s1 || t == s2
      ensures Started(s, Finish(t, a, m, s.calls, x), a, record)
    {
      FinishStarted(s, t, a, m, x, record);
    }
    forall t, m, p: Push | (t == s1 || t == s2) && p.purpose == AppendRecord(record)
      ensures Started(s, Continue(t, a, m, Ready(p)), a, record)
    {
      ContinueStarted(s, t, a, m, p);
    }
  }

  /** Adapter a has ended its append or waits to push the record; nobody else moved. */
  ghost predicate Started(s: Store, s': Store, a: nat, record: Record) {
    && s'.lost == s.lost && s'.landed == s.landed && s'.calls == s.calls + 1 && a in s'.adapters
    && (s'.adapters[a].call.Idle?
        || (s'.adapters[a].call.Ready? && s'.adapters[a].call.push.purpose == AppendRecord(record)))
    && (forall b :: b in s'.adapters && b != a ==> b in s.adapters && s'.adapters[b] == s.adapters[b])
  }

  lemma FinishStarted(s: Store, t: Store, a: nat, m: Option<C>, x: Answer, record: Record)
    requires t.adapters == s.adapters && t.lost == s.lost && t.landed == s.landed && t.calls == s.calls + 1
    ensures Started(s, Finish(t, a, m, s.calls, x), a, record)
  {
  }

  lemma ContinueStarted(s: Store, t: Store, a: nat, m: Option<C>, p: Push)
    requires t.adapters == s.adapters && t.lost == s.lost && t.landed == s.landed && t.calls == s.calls + 1
             && p.purpose.AppendRecord?
    ensures Started(s, Continue(t, a, m, Ready(p)), a, p.purpose.record)
  {
  }

  lemma StartedAppendOwns(s: Store, a: nat, expected: Option<C>, record: Record, stamp: nat)
    requires Calls(s) && AdapterOf(s, a).call.Idle?
    ensures Owns(Do(s, StartAppend(a, expected, record, stamp)), s.calls, record)
  {
    hide PushedCalls, AppendNext;
    var s' := Do(s, StartAppend(a, expected, record, stamp));
    AppendStarts(s, a, expected, record, stamp);
    forall b | b in s.adapters && !s.adapters[b].call.Idle?
      ensures CallId(s.adapters[b].call) < s.calls
    {
      assert Working(s, b);
    }
    forall p | Pending(s', p) && p.call == s.calls ensures p.purpose == AppendRecord(record) {
      if Pending(s, p) { PendingCallsAreOld(s, p); }
    }
    LandedCallsAreOld(s);
  }

  lemma LandedCallsAreOld(s: Store)
    requires Calls(s)
    ensures forall i :: 0 <= i < |s.landed| ==> s.landed[i].call < s.calls
  {
  }

  /** One append call puts nothing in the chain but its record, and that at most once, however late its push lands. */
  lemma AppendLandsOnlyItsRecord(target: C, before: seq<Step>, a: nat, expected: Option<C>, record: Record,
                                 stamp: nat, after: seq<Step>)
    requires AdapterOf(Run(Start(target), before), a).call.Idle?
    ensures var s := Run(Start(target), before);
            var landed := Run(Do(s, StartAppend(a, expected, record, stamp)), after).landed;
            && (forall i ::
                  0 <= i < |landed| && landed[i].call == s.calls ==> landed[i].purpose == AppendRecord(record))
            && (forall i, j :: 0 <= i < j < |landed| && landed[i].call == s.calls ==> landed[j].call != s.calls)
  {
    hide Do, WorkingCalls, Start;
    var s := Run(Start(target), before);
    var s' := Do(s, StartAppend(a, expected, record, stamp));
    StartHasNoCalls(target);
    RunKeepsCalls(Start(target), before);
    StepKeepsCalls(s, StartAppend(a, expected, record, stamp));
    RunKeepsCalls(s', after);
    StartedAppendOwns(s, a, expected, record, stamp);
    RunKeepsOwner(s', after, s.calls, record);
  }

  /** However often a record is retried, by whichever adapters, it stands in the chain at most once. */
  lemma RetriesLandOnce(target: C, steps: seq<Step>, i: nat, j: nat)
    requires var rs := Records(Run(Start(target), steps).landed);
             i < |rs| && j < |rs| && rs[i] == rs[j]
    ensures i == j
  {
    hide Forward, Fenced, Kinds, Extends, Pending, Readable, Chain, Records;
    StartIsSafe(target);
    RunIsSafe(Start(target), steps);
    ChainHasNoRepeats(Records(Run(Start(target), steps).landed), i, j);
  }

  // ----- A successful answer -----

  /** The commit of an append is the files of a chain that ends in its record. */
  ghost predicate Built(p: Push) {
    p.purpose.AppendRecord? ==>
      exists rs :: Chain(rs + [p.purpose.record]) && p.candidate.tree == TreeOf(rs + [p.purpose.record])
  }

  ghost predicate AllBuilt(s: Store) {
    forall p :: Pending(s, p) ==> Built(p)
  }

  lemma PreparedIsBuilt(s: Store, p: Push)
    requires Carries(s) && Prepared(s, p)
    ensures Built(p)
  {
    hide GoodRecords, TreeOf, Readable, Pending, HeadHeld, Admits, Descends, Chain;
    PreparedExtends(s, p);
    if p.purpose.AppendRecord? { ReadIsTheRecords(s, ChainRead(s).value); }
  }

  lemma StepKeepsBuilt(s: Store, step: Step)
    requires Safe(s) && AllBuilt(s)
    ensures AllBuilt(Do(s, step))
  {
    hide Possible, Next, Prepared, Pending, Forward, Carries, Fenced, HeadHeld, CallHeld, Descends, Built, ChainRead;
    if Possible(s, step) {
      var s' := Next(s, step);
      StepShape(s, step);
      forall p | Pending(s', p) ensures Built(p) {
        if !Pending(s, p) { PreparedIsBuilt(s, p); }
      }
    }
  }

  lemma {:induction false} RunKeepsBuilt(s: Store, steps: seq<Step>)
    requires Safe(s) && AllBuilt(s)
    ensures AllBuilt(Run(s, steps))
    decreases |steps|
  {
    hide Do, Safe, AllBuilt;
    if steps != [] {
      StepIsSafe(s, steps[0]);
      StepKeepsBuilt(s, steps[0]);
      RunKeepsBuilt(Do(s, steps[0]), steps[1..]);
    }
  }

  /** Two chains with the same files are one chain. */
  lemma SameFilesSameChain(rs: seq<Record>, ts: seq<Record>)
    requires Chain(rs) && Chain(ts) && TreeOf(rs) == TreeOf(ts)
    ensures rs == ts
  {
    hide Chain, TreeOf, SequencesDiffer;
    ChainDiffers(rs);
    ChainDiffers(ts);
    SameFilesWithin(rs, ts);
    SameFilesWithin(ts, rs);
    SameChains(rs, ts);
  }

  /**
   An append that is answered with success has its record in the chain, also when the remote
   only said "up to date".
   */
  lemma SuccessMeansAppended(target: C, steps: seq<Step>, step: Step, a: nat)
    requires var s := Run(Start(target), steps);
             && a in s.adapters && s.adapters[a].call.Ready? && s.adapters[a].call.push.purpose.AppendRecord?
             && s.adapters[a].call.push.call in Do(s, step).answers
                && Do(s, step).answers[s.adapters[a].call.push.call].Done?
    ensures var s := Run(Start(target), steps);
            s.adapters[a].call.push.purpose.record in Records(Do(s, step).landed)
  {
    hide Run, Forward, Fenced, HeadHeld, Admits, Readable, Chain, TreeOf, Safe, AllBuilt, Records, Start;
    var s := Run(Start(target), steps);
    StartIsSafe(target);
    RunIsSafe(Start(target), steps);
    StartHasNoCalls(target);
    RunKeepsCalls(Start(target), steps);
    assert AllBuilt(Start(target)) by { NothingPending(target); }
    RunKeepsBuilt(Start(target), steps);
    SuccessInState(s, step, a);
  }

  lemma NothingPending(target: C)
    ensures AllBuilt(Start(target))
  {
    hide Built;
  }

  /** The only steps that answer a waiting push with success are its landing and its being there already. */
  lemma SuccessSteps(s: Store, step: Step, a: nat)
    requires Calls(s) && a in s.adapters && s.adapters[a].call.Ready?
    requires s.adapters[a].call.push.call in Do(s, step).answers
             && Do(s, step).answers[s.adapters[a].call.push.call].Done?
    ensures Possible(s, step) && (step == PushLands(a) || step == PushUpToDate(a))
  {
    hide Possible, Next, PushedCalls;
    assert Working(s, a) && CallId(s.adapters[a].call) == s.adapters[a].call.push.call;
    if Possible(s, step) { StepAnswersOne(s, step); }
  }

  lemma SuccessInState(s: Store, step: Step, a: nat)
    requires Safe(s) && Calls(s) && AllBuilt(s)
    requires a in s.adapters && s.adapters[a].call.Ready? && s.adapters[a].call.push.purpose.AppendRecord?
    requires s.adapters[a].call.push.call in Do(s, step).answers
             && Do(s, step).answers[s.adapters[a].call.push.call].Done?
    ensures s.adapters[a].call.push.purpose.record in Records(Do(s, step).landed)
  {
    hide Forward, Fenced, HeadHeld, Admits, Readable, Chain, TreeOf, Records, Calls, Extends;
    var p := s.adapters[a].call.push;
    assert Pending(s, p) && Kinds(p) && Built(p);
    SuccessSteps(s, step, a);
    if step == PushLands(a) {
      RecordsSnoc(s.landed, p);
    } else {
      var rs :| Chain(rs + [p.purpose.record]) && p.candidate.tree == TreeOf(rs + [p.purpose.record]);
      SameFilesSameChain(Records(s.landed), rs + [p.purpose.record]);
    }
  }
}
