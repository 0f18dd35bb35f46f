/**
 What the answer of a call tells its caller.  Pushes may lose their answer and
 land late, so the promise is about every later state, not the one answered in.
 */
module ControlCalls {
  import opened Options
  import opened GitGraph
  import opened ControlRecords
  import opened ControlStore

  function CallId(call: Call): nat {
    match call
    case Idle => 0
    case HeadRead(k, _, _, _, _, _) => k
    case Ready(p) => p.call
  }

  ghost predicate Working(s: Store, a: nat) {
    a in s.adapters && !s.adapters[a].call.Idle?
  }

  /** Calls in progress have no answer yet, and each call is at one place. */
  ghost predicate WorkingCalls(s: Store) {
    && (forall a :: Working(s, a) ==> CallId(s.adapters[a].call) < s.calls && CallId(s.adapters[a].call) !in s.answers)
    && (forall a, b ::
          Working(s, a) && Working(s, b) && a != b ==> CallId(s.adapters[a].call) != CallId(s.adapters[b].call))
  }

  ghost predicate Answered(s: Store, call: nat, answer: Answer) {
    call < s.calls && call in s.answers && s.answers[call] == answer
  }

  /** A push belongs to one call; it is lost only with that answer, and landed only with success or that answer. */
  ghost predicate PushedCalls(s: Store) {
    && (forall k :: k in s.answers ==> k < s.calls)
    && (forall i :: 0 <= i < |s.lost| ==> Answered(s, s.lost[i].call, Unavailable))
    && (forall i :: 0 <= i < |s.landed| ==> s.landed[i].call in s.answers)
    && (forall i :: 0 <= i < |s.landed| ==>
          Answered(s, s.landed[i].call, Unavailable)
          || Answered(s, s.landed[i].call, Done(s.landed[i].ref, s.landed[i].candidate)))
    && (forall i, j :: 0 <= i < j < |s.lost| ==> s.lost[i].call != s.lost[j].call)
    && (forall i, j :: 0 <= i < j < |s.landed| ==> s.landed[i].call != s.landed[j].call)
    && (forall i, j :: 0 <= i < |s.lost| && 0 <= j < |s.landed| ==> s.lost[i].call != s.landed[j].call)
  }

  ghost predicate Calls(s: Store) {
    WorkingCalls(s) && PushedCalls(s)
  }

  /** One adapter goes on with a call that is new or was its own, or rests. */
  lemma ContinueKeepsCalls(s: Store, s': Store, a: nat, mirror: Option<C>, call: Call)
    requires Calls(s) && s'.adapters == s.adapters && s'.answers == s.answers && s'.lost == s.lost
             && s'.landed == s.landed && s'.calls >= s.calls
    requires !call.Idle? ==>
               CallId(call) < s'.calls
               && (CallId(call) >= s.calls || (Working(s, a) && CallId(call) == CallId(s.adapters[a].call)))
    ensures Calls(Continue(s', a, mirror, call))
  {
    hide CallId;
    var t := Continue(s', a, mirror, call);
    forall b | Working(t, b) && b != a ensures Working(s, b) && s.adapters[b] == t.adapters[b] { }
    assert WorkingCalls(t);
    forall k, x | Answered(s, k, x) ensures Answered(t, k, x) { }
  }

  /** One adapter's call, new or its own, gets its only answer. */
  lemma FinishKeepsCalls(s: Store, s': Store, a: nat, mirror: Option<C>, call: nat, answer: Answer)
    requires Calls(s) && s'.adapters == s.adapters && s'.answers == s.answers && s'.lost == s.lost
             && s'.landed == s.landed && s'.calls >= s.calls
    requires call < s'.calls && (call >= s.calls || (Working(s, a) && call == CallId(s.adapters[a].call)))
    ensures Calls(Finish(s', a, mirror, call, answer))
    ensures call !in s.answers
  {
    hide CallId;
    var t := Finish(s', a, mirror, call, answer);
    forall b | Working(t, b) ensures b != a && Working(s, b) && s.adapters[b] == t.adapters[b] { }
    forall k, x | Answered(s, k, x) ensures Answered(t, k, x) { }
  }

  lemma LandKeepsCalls(s: Store, p: Push)
    requires Calls(s)
    requires Answered(s, p.call, Unavailable) || Answered(s, p.call, Done(p.ref, p.candidate))
    requires forall i :: 0 <= i < |s.lost| ==> s.lost[i].call != p.call
    requires forall i :: 0 <= i < |s.landed| ==> s.landed[i].call != p.call
    ensures Calls(Land(s, p))
  {
    hide CallId;
    var t := Land(s, p);
    forall k, x | Answered(s, k, x) ensures Answered(t, k, x) { }
    forall b | Working(t, b) ensures Working(s, b) { }
  }

  lemma LoseKeepsCalls(s: Store, p: Push)
    requires Calls(s) && Answered(s, p.call, Unavailable)
    requires forall i :: 0 <= i < |s.lost| ==> s.lost[i].call != p.call
    requires forall i :: 0 <= i < |s.landed| ==> s.landed[i].call != p.call
    ensures Calls(s.(lost := s.lost + [p]))
  {
    hide CallId;
    var t := s.(lost := s.lost + [p]);
    forall k, x | Answered(s, k, x) ensures Answered(t, k, x) { }
    forall b | Working(t, b) ensures Working(s, b) { }
  }

  lemma UnloseKeepsCalls(s: Store, i: nat)
    requires Calls(s) && i < |s.lost|
    ensures var t := s.(lost := s.lost[..i] + s.lost[i + 1..]);
            Calls(t) && (forall j :: 0 <= j < |t.lost| ==> t.lost[j].call != s.lost[i].call)
  {
    hide CallId;
    var t := s.(lost := s.lost[..i] + s.lost[i + 1..]);
    forall j | 0 <= j < |t.lost| ensures t.lost[j] == s.lost[if j < i then j else j + 1] { }
    forall k, x | Answered(s, k, x) ensures Answered(t, k, x) { }
    forall b | Working(t, b) ensures Working(s, b) { }
  }

  lemma PushKeepsCalls(s: Store, step: Step)
    requires Calls(s) && Possible(s, step)
             && (step.PushLands? || step.PushUpToDate? || step.PushRejected? || step.PushLost?)
    ensures Calls(Next(s, step))
  {
    hide WorkingCalls, PushedCalls;
    var a := step.a;
    var p := s.adapters[a].call.push;
    assert Working(s, a) && p.call == CallId(s.adapters[a].call);
    FreeCall(s, a);
    match step
    case PushLands(_) =>
      var t := Finish(s, a, MirrorPushed(s, a, p), p.call, Done(p.ref, p.candidate));
      FinishKeepsCalls(s, s, a, MirrorPushed(s, a, p), p.call, Done(p.ref, p.candidate));
      LandKeepsCalls(t, p);
      assert Next(s, step) == Land(t, p);
    case PushUpToDate(_) => FinishKeepsCalls(s, s, a, MirrorPushed(s, a, p), p.call, Done(p.ref, p.candidate));
    case PushRejected(_) => FinishKeepsCalls(s, s, a, s.adapters[a].mirror, p.call, CasLost);
    case PushLost(_) =>
      var t := Finish(s, a, s.adapters[a].mirror, p.call, Unavailable);
      FinishKeepsCalls(s, s, a, s.adapters[a].mirror, p.call, Unavailable);
      LoseKeepsCalls(t, p);
      assert Next(s, step) == t.(lost := t.lost + [p]);
  }

  /** A call in progress has neither lost nor landed a push. */
  lemma FreeCall(s: Store, a: nat)
    requires Calls(s) && Working(s, a)
    ensures CallId(s.adapters[a].call) < s.calls
    ensures forall i :: 0 <= i < |s.lost| ==> s.lost[i].call != CallId(s.adapters[a].call)
    ensures forall i :: 0 <= i < |s.landed| ==> s.landed[i].call != CallId(s.adapters[a].call)
  {
    hide CallId;
    forall i | 0 <= i < |s.lost|
      ensures s.lost[i].call in s.answers
    {
      assert Answered(s, s.lost[i].call, Unavailable);
    }
  }

  lemma LateKeepsCalls(s: Store, i: nat)
    requires Calls(s) && Possible(s, LateLanding(i))
    ensures Calls(Next(s, LateLanding(i)))
  {
    hide WorkingCalls;
    var t := s.(lost := s.lost[..i] + s.lost[i + 1..]);
    UnloseKeepsCalls(s, i);
    assert Answered(s, s.lost[i].call, Unavailable);
    LandKeepsCalls(t, s.lost[i]);
  }

  lemma StepKeepsCalls(s: Store, step: Step)
    requires Calls(s)
    ensures Calls(Do(s, step))
  {
    hide Calls, Carried, FastForward, ChainRead, Admits, Ancestor, Chain, Appended;
    if Possible(s, step) {
      match step
      case PushLands(_) => PushKeepsCalls(s, step);
      case PushUpToDate(_) => PushKeepsCalls(s, step);
      case PushRejected(_) => PushKeepsCalls(s, step);
      case PushLost(_) => PushKeepsCalls(s, step);
      case LateLanding(i) => LateKeepsCalls(s, i);
      case CheckBaseline(a) => CheckKeepsCalls(s, step);
      case CheckFence(a) => CheckKeepsCalls(s, step);
      case ReadControl(a) =>
        var s1 := if ChainRead(s).Some? then s.(seen := s.seen + [ChainRead(s).value]) else s;
        ContinueKeepsCalls(s, s1, a, MirrorAfter(s, a), Idle);
      case Fails(a, answer, fetched) =>
        if AdapterOf(s, a).call.HeadRead? {
          FreeCall(s, a);
          FinishKeepsCalls(s, s, a, MirrorFetched(s, a, fetched), s.adapters[a].call.call, answer);
        }
        FinishKeepsCalls(s, s.(calls := s.calls + 1), a, MirrorFetched(s, a, fetched), s.calls, answer);
      case _ => BeginKeepsCalls(s, step);
    }
  }

  lemma CheckKeepsCalls(s: Store, step: Step)
    requires Calls(s) && Possible(s, step) && (step.CheckBaseline? || step.CheckFence?)
    ensures Calls(Next(s, step))
  {
    hide WorkingCalls, PushedCalls, FastForward, Admits, Ancestor, ChainRead;
    var a := step.a;
    var call := s.adapters[a].call;
    assert Working(s, a) && call.call == CallId(call);
    FreeCall(s, a);
    var s1 := if ChainRead(s).Some? then s.(seen := s.seen + [ChainRead(s).value]) else s;
    forall t, m, x | t == s || t == s1
      ensures Calls(Finish(t, a, m, call.call, x))
    {
      FinishKeepsCalls(s, t, a, m, call.call, x);
    }
    forall t, m, c: Call | (t == s || t == s1) && !c.Idle? && CallId(c) == call.call
      ensures Calls(Continue(t, a, m, c))
    {
      ContinueKeepsCalls(s, t, a, m, c);
    }
  }

  lemma BeginKeepsCalls(s: Store, step: Step)
    requires Calls(s) && Possible(s, step)
             && (step.StartAppend? || step.StartPublish? || step.StartProjectRecord? || step.StartTargetSwap?)
    ensures Calls(Next(s, step))
  {
    hide WorkingCalls, PushedCalls, FastForward, Ancestor, ChainRead, Chain, Appended;
    var a := step.a;
    var s1 := s.(calls := s.calls + 1);
    var s2 := if ChainRead(s).Some? then s1.(seen := s.seen + [ChainRead(s).value]) else s1;
    forall t, m, x | t == s1 || t == s2
      ensures Calls(Finish(t, a, m, s.calls, x))
    {
      FinishKeepsCalls(s, t, a, m, s.calls, x);
    }
    forall t, m, c: Call | (t == s1 || t == s2) && !c.Idle? && CallId(c) == s.calls
      ensures Calls(Continue(t, a, m, c))
    {
      ContinueKeepsCalls(s, t, a, m, c);
    }
  }

  lemma {:induction false} RunKeepsCalls(s: Store, steps: seq<Step>)
    requires Calls(s)
    ensures Calls(Run(s, steps))
    decreases |steps|
  {
    hide Do, Calls;
    if steps != [] {
      StepKeepsCalls(s, steps[0]);
      RunKeepsCalls(Do(s, steps[0]), steps[1..]);
    }
  }
}
