/**
 The Git control store as a protocol: any number of adapters, each with its own
 mirror, race on the Control, Target and Operation refs of one remote.  A call
 reads the remote in one or more fetches and writes it with one push that is
 pinned to the head it expects.  A push lands, is rejected, finds the ref already
 at its commit, or loses its answer; a push whose answer was lost may still land at
 any later time.
 */
module ControlStore {
  import opened Options
  import opened GitGraph
  import opened ControlRecords

  type C = Commit<Tree>

  datatype Ref = ControlRef | TargetRef | OperationRef(operation: string)

  datatype Purpose =
    | AppendRecord(record: Record)
    | Publish(token: nat, fence: seq<Record>)
    | ProjectRecord
    | SwapTarget

  datatype Push = Push(call: nat, ref: Ref, expected: Option<C>, candidate: C, purpose: Purpose)

  datatype Call =
    | Idle
    | HeadRead(call: nat, operation: string, expected: Option<C>, candidate: C, token: nat, based: bool)
    | Ready(push: Push)

  datatype Adapter = Adapter(mirror: Option<C>, call: Call)

  /**
   How a call ends: with a commit on a ref, compare-and-swap lost, fenced off by a lease,
   refused for another reason, or remote unavailable.
   */
  datatype Answer = Done(ref: Ref, commit: C) | CasLost | LeaseFenced | Refused | Unavailable

  datatype Store = Store(
    refs: map<Ref, C>,
    adapters: map<nat, Adapter>,
    lost: seq<Push>,
    landed: seq<Push>,
    seen: seq<seq<Record>>,
    answers: map<nat, Answer>,
    calls: nat)

  datatype Step =
    | ReadControl(a: nat)
    | StartAppend(a: nat, expected: Option<C>, record: Record, stamp: nat)
    | StartPublish(a: nat, operation: string, expected: Option<C>, candidate: C, token: nat, staged: bool)
    | CheckBaseline(a: nat)
    | CheckFence(a: nat)
    | StartProjectRecord(a: nat, tree: Tree, stamp: nat)
    | StartTargetSwap(a: nat, commit: C, candidate: C)
    | Fails(a: nat, answer: Answer, fetched: bool)
    | PushLands(a: nat)
    | PushUpToDate(a: nat)
    | PushRejected(a: nat)
    | PushLost(a: nat)
    | LateLanding(i: nat)

  /** A remote with a target branch, and no control ref or operation ref yet. */
  function Start(target: C): Store {
    Store(map[TargetRef := target], map[], [], [], [], map[], 0)
  }

  function Lookup(s: Store, ref: Ref): Option<C> {
    if ref in s.refs then Some(s.refs[ref]) else None
  }

  function AdapterOf(s: Store, a: nat): Adapter {
    if a in s.adapters then s.adapters[a] else Adapter(None, Idle)
  }

  // ----- The reads of a call -----

  /** The chain a tree carries, when it can be read at all. */
  ghost function Carried(tree: Tree): (r: Option<seq<Record>>)
    ensures r.Some? ==> Readable(tree, r.value)
    ensures r.None? ==> forall rs :: !Readable(tree, rs)
  {
    if exists rs :: Readable(tree, rs) then
      var rs :| Readable(tree, rs); Some(rs)
    else None
  }

  /** The Control Ref is fetched without force: a rewritten history is refused. */
  ghost predicate FastForward(s: Store, a: nat) {
    var mirror := AdapterOf(s, a).mirror;
    ControlRef in s.refs && mirror.Some? ==> Ancestor(mirror.value, s.refs[ControlRef])
  }

  function MirrorAfter(s: Store, a: nat): Option<C> {
    if ControlRef in s.refs then Some(s.refs[ControlRef]) else AdapterOf(s, a).mirror
  }

  /** A call that fails may have fetched the Control Ref before. */
  ghost function MirrorFetched(s: Store, a: nat, fetched: bool): Option<C> {
    if fetched && FastForward(s, a) then MirrorAfter(s, a) else AdapterOf(s, a).mirror
  }

  /** The chain at the fetched Control Ref; a missing ref is an empty chain. */
  ghost function ChainRead(s: Store): Option<seq<Record>> {
    if ControlRef in s.refs then Carried(s.refs[ControlRef].tree) else Some([])
  }

  /** The last lease record of an operation in a chain. */
  function LeaseTip(rs: seq<Record>, operation: string): Option<Record> {
    if rs == [] then None
    else
      var last := rs[|rs| - 1];
      if last.kind == Lease && last.lease.onOperation && last.lease.resource == operation then Some(last)
      else LeaseTip(rs[..|rs| - 1], operation)
  }

  /** The fencing backstop: the lease tip, if any, is live and holds the presented token. */
  predicate Admits(rs: seq<Record>, operation: string, token: nat) {
    var tip := LeaseTip(rs, operation);
    tip.Some? ==> tip.value.lease.token == token
                  && (tip.value.lease.state == Granted || tip.value.lease.state == Renewed)
  }

  // ----- Steps -----

  function Finish(s: Store, a: nat, mirror: Option<C>, call: nat, answer: Answer): Store {
    s.(adapters := s.adapters[a := Adapter(mirror, Idle)], answers := s.answers[call := answer])
  }

  function Continue(s: Store, a: nat, mirror: Option<C>, call: Call): Store {
    s.(adapters := s.adapters[a := Adapter(mirror, call)])
  }

  function Land(s: Store, p: Push): Store {
    s.(refs := s.refs[p.ref := p.candidate], landed := s.landed + [p])
  }

  /** The remote accepts the push: the ref is where the push expects it and is not there already. */
  predicate Moves(s: Store, p: Push) {
    Lookup(s, p.ref) == p.expected && p.expected != Some(p.candidate)
  }

  function MirrorPushed(s: Store, a: nat, p: Push): Option<C> {
    if p.ref == ControlRef then Some(p.candidate) else AdapterOf(s, a).mirror
  }

  function Appended(head: Option<C>, record: Record, stamp: nat): C {
    match head
    case None => Commit([], map[FileName(record) := RecordFile(record)], stamp)
    case Some(h) => Commit([h], h.tree[FileName(record) := RecordFile(record)], stamp)
  }

  /** A step is possible; `Fails` stands for every fetch, validation or local Git failure before the push. */
  ghost predicate Possible(s: Store, step: Step) {
    match step
    case ReadControl(a) => AdapterOf(s, a).call.Idle?
    case StartAppend(a, _, _, _) => AdapterOf(s, a).call.Idle?
    case StartPublish(a, _, _, _, _, _) => AdapterOf(s, a).call.Idle?
    case StartProjectRecord(a, _, _) => AdapterOf(s, a).call.Idle?
    case StartTargetSwap(a, _, _) => AdapterOf(s, a).call.Idle?
    case CheckBaseline(a) => AdapterOf(s, a).call.HeadRead? && !AdapterOf(s, a).call.based
    case CheckFence(a) => AdapterOf(s, a).call.HeadRead? && AdapterOf(s, a).call.based
    case Fails(a, answer, _) => !AdapterOf(s, a).call.Ready? && !answer.Done?
    case PushLands(a) => AdapterOf(s, a).call.Ready? && Moves(s, AdapterOf(s, a).call.push)
    case PushUpToDate(a) => AdapterOf(s, a).call.Ready?
                            && Lookup(s, AdapterOf(s, a).call.push.ref) == Some(AdapterOf(s, a).call.push.candidate)
    case PushRejected(a) => AdapterOf(s, a).call.Ready?
    case PushLost(a) => AdapterOf(s, a).call.Ready?
    case LateLanding(i) => i < |s.lost| && Moves(s, s.lost[i])
  }

  ghost function AppendNext(s: Store, a: nat, expected: Option<C>, record: Record, stamp: nat): Store {
    var s1, mirror := s.(calls := s.calls + 1), MirrorAfter(s, a);
    if !FastForward(s, a) then Finish(s1, a, AdapterOf(s, a).mirror, s.calls, Refused)
    else if expected != Lookup(s, ControlRef) then Finish(s1, a, mirror, s.calls, CasLost)
    else if ChainRead(s).None? then Finish(s1, a, mirror, s.calls, Refused)
    else
      var rs := ChainRead(s).value;
      var s2 := s1.(seen := s.seen + [rs]);
      if !record.sound || !Chain(rs + [record]) then Finish(s2, a, mirror, s.calls, Refused)
      else
        Continue(s2, a, mirror,
                 Ready(Push(s.calls, ControlRef, expected, Appended(expected, record, stamp), AppendRecord(record))))
  }

  ghost function PublishNext(s: Store, a: nat, operation: string, expected: Option<C>, candidate: C, token: nat,
                             staged: bool): Store {
    var s1, mirror := s.(calls := s.calls + 1), AdapterOf(s, a).mirror;
    if !staged || expected != Lookup(s, OperationRef(operation))
       || (expected.Some? && !Ancestor(expected.value, candidate))
    then Finish(s1, a, mirror, s.calls, CasLost)
    else Continue(s1, a, mirror, HeadRead(s.calls, operation, expected, candidate, token, expected.Some?))
  }

  /** A first publish has no head to descend from; its baseline is the connected target. */
  ghost function BaselineNext(s: Store, a: nat): Store
    requires AdapterOf(s, a).call.HeadRead?
  {
    var call, mirror := AdapterOf(s, a).call, AdapterOf(s, a).mirror;
    if TargetRef !in s.refs then Finish(s, a, mirror, call.call, Refused)
    else if !Ancestor(s.refs[TargetRef], call.candidate) then Finish(s, a, mirror, call.call, CasLost)
    else Continue(s, a, mirror, call.(based := true))
  }

  ghost function FenceNext(s: Store, a: nat): Store
    requires AdapterOf(s, a).call.HeadRead?
  {
    var call, mirror := AdapterOf(s, a).call, MirrorAfter(s, a);
    if !FastForward(s, a) then Finish(s, a, AdapterOf(s, a).mirror, call.call, Refused)
    else if ChainRead(s).None? then Finish(s, a, mirror, call.call, Refused)
    else
      var rs := ChainRead(s).value;
      var s1 := s.(seen := s.seen + [rs]);
      if !Admits(rs, call.operation, call.token) then Finish(s1, a, mirror, call.call, LeaseFenced)
      else Continue(s1, a, mirror,
                    Ready(Push(call.call, OperationRef(call.operation), call.expected, call.candidate,
                               Publish(call.token, rs))))
  }

  ghost function Next(s: Store, step: Step): Store
    requires Possible(s, step)
  {
    match step
    case ReadControl(a) =>
      if !FastForward(s, a) then s
      else
        Continue(if ChainRead(s).Some? then s.(seen := s.seen + [ChainRead(s).value])
                 else s, a, MirrorAfter(s, a), Idle)
    case StartAppend(a, expected, record, stamp) => AppendNext(s, a, expected, record, stamp)
    case StartPublish(a, operation, expected, candidate, token, staged) => PublishNext(s, a, operation, expected,
        candidate, token, staged)
    case CheckBaseline(a) => BaselineNext(s, a)
    case CheckFence(a) => FenceNext(s, a)
    case StartProjectRecord(a, tree, stamp) =>
      var s1, mirror := s.(calls := s.calls + 1), AdapterOf(s, a).mirror;
      if TargetRef !in s.refs then Finish(s1, a, mirror, s.calls, Unavailable)
      else
        var base := s.refs[TargetRef];
        Continue(s1, a, mirror, Ready(Push(s.calls, TargetRef, Some(base), Commit([base], tree, stamp), ProjectRecord)))
    case StartTargetSwap(a, commit, candidate) =>
      var s1, mirror := s.(calls := s.calls + 1), AdapterOf(s, a).mirror;
      if TargetRef !in s.refs then Finish(s1, a, mirror, s.calls, Unavailable)
      else if s.refs[TargetRef] != commit || !Ancestor(commit, candidate) then Finish(s1, a, mirror, s.calls, CasLost)
      else Continue(s1, a, mirror, Ready(Push(s.calls, TargetRef, Some(commit), candidate, SwapTarget)))
    case Fails(a, answer, fetched) =>
      var call, mirror := AdapterOf(s, a).call, MirrorFetched(s, a, fetched);
      if call.HeadRead? then Finish(s, a, mirror, call.call, answer)
      else Finish(s.(calls := s.calls + 1), a, mirror, s.calls, answer)
    case PushLands(a) =>
      var p := AdapterOf(s, a).call.push;
      Finish(Land(s, p), a, MirrorPushed(s, a, p), p.call, Done(p.ref, p.candidate))
    case PushUpToDate(a) =>
      var p := AdapterOf(s, a).call.push;
      Finish(s, a, MirrorPushed(s, a, p), p.call, Done(p.ref, p.candidate))
    case PushRejected(a) => Finish(s, a, AdapterOf(s, a).mirror, AdapterOf(s, a).call.push.call, CasLost)
    case PushLost(a) =>
      var p := AdapterOf(s, a).call.push;
      Finish(s.(lost := s.lost + [p]), a, AdapterOf(s, a).mirror, p.call, Unavailable)
    case LateLanding(i) => Land(s.(lost := s.lost[..i] + s.lost[i + 1..]), s.lost[i])
  }

  ghost function Do(s: Store, step: Step): Store {
    if Possible(s, step) then Next(s, step) else s
  }

  ghost function Run(s: Store, steps: seq<Step>): Store
    decreases |steps|
  {
    if steps == [] then s else Run(Do(s, steps[0]), steps[1..])
  }
}
