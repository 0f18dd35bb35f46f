/**
 The event hub as a transition system: subscriptions, pulls, aborts, the source
 growing underneath, and the poll loop with its refresh, tick, sleep and exit.
 Any list of steps is a schedule; a step that is not possible does nothing.
 */
module HubRuns {
  import opened Options
  import opened EventSource
  import opened HubClientSpec
  import opened HubStream

  /**
   Where the poll loop stands.  `Exited` is the window in which the loop has returned
   but the flag that it is running has not been reset yet.
   */
  datatype Loop = Idle | Refreshing | Refreshed(head: Cursor) | Sleeping | Exited

  datatype Hub = Hub(
    cfg: Config,
    source: Source,
    clients: map<nat, Client>,
    order: seq<nat>,
    closed: bool,
    loop: Loop,
    head: Cursor)

  datatype Step =
    | Append(item: Item)
    | Retract(position: nat)
    | Rotate
    | Subscribe(id: nat, filter: Filter, cursor: Option<Cursor>, aborted: bool)
    | PullNext(id: nat)
    | Abort(id: nat)
    | Close
    | Refresh
    | RefreshFails
    | RunTick(clock: nat -> Reading)
    | Wake
    | LoopSettles

  function Start(cfg: Config): Hub {
    Hub(cfg, [Log([], {})], map[], [], false, Idle, At(0, 0))
  }

  ghost predicate Anyone(clients: map<nat, Client>) {
    exists id :: id in clients && !clients[id].terminated
  }

  ghost predicate Possible(h: Hub, step: Step) {
    match step
    case Append(_) => true
    case Retract(position) => position < |Current(h.source).items|
    case Rotate => true
    case Subscribe(id, _, _, _) => id !in h.clients
    case PullNext(id) => id in h.clients
    case Abort(id) => id in h.clients
    case Close => true
    case Refresh => h.loop.Refreshing?
    case RefreshFails => h.loop.Refreshing?
    case RunTick(_) => h.loop.Refreshed?
    case Wake => h.loop.Sleeping?
    case LoopSettles => h.loop.Exited?
  }

  function GrowSource(source: Source, step: Step): Source {
    var log := Current(source);
    match step
    case Append(item) => source[..|source| - 1] + [log.(items := log.items + [item])]
    case Retract(position) => source[..|source| - 1] + [log.(retracted := log.retracted + {position})]
    case Rotate => source + [Log([], {})]
    case _ => source
  }

  function TerminateAll(cfg: Config, clients: map<nat, Client>, final: Option<Delivery>): map<nat, Client> {
    map id | id in clients :: Terminate(cfg, clients[id], final)
  }

  /** A tick over the registered clients in order; a thrown read ends it half way. */
  datatype Swept = Swept(clients: map<nat, Client>, threw: bool)

  function TickAll(cfg: Config, source: Source, head: Cursor, clock: nat -> Reading, clients: map<nat, Client>,
                   ids: seq<nat>): Swept
    requires forall i :: 0 <= i < |ids| ==> ids[i] in clients
  {
    if ids == [] then Swept(clients, false)
    else
      var ticked := Tick(cfg, clients[ids[0]], source, head, clock(ids[0]));
      var clients' := clients[ids[0] := ticked.client];
      if ticked.Failed? then Swept(clients', true)
      else TickAll(cfg, source, head, clock, clients', ids[1..])
  }

  ghost function EnsureLoop(h: Hub): Hub {
    if !h.loop.Idle? || h.closed then h
    else h.(loop := if Anyone(h.clients) then Refreshing else Exited)
  }

  ghost predicate Ordered(h: Hub) {
    && (forall i :: 0 <= i < |h.order| ==> h.order[i] in h.clients)
    && (forall id :: id in h.clients ==> id in h.order)
    && (forall i, j :: 0 <= i < j < |h.order| ==> h.order[i] != h.order[j])
  }

  ghost function Sweep(h: Hub, clock: nat -> Reading): Swept
    requires Ordered(h)
  {
    TickAll(h.cfg, h.source, h.head, clock, h.clients, h.order)
  }

  ghost function Next(h: Hub, step: Step): Hub
    requires Ordered(h) && Possible(h, step)
  {
    match step
    case Append(_) => h.(source := GrowSource(h.source, step))
    case Retract(_) => h.(source := GrowSource(h.source, step))
    case Rotate => h.(source := GrowSource(h.source, step))
    case Subscribe(id, filter, cursor, aborted) =>
      if h.closed then h
      else
        var joined := Fresh(filter, cursor);
        var client := if aborted then Terminate(h.cfg, joined, None) else joined;
        EnsureLoop(h.(clients := h.clients[id := client], order := h.order + [id]))
    case PullNext(id) => h.(clients := h.clients[id := Pull(h.cfg, h.clients[id])])
    case Abort(id) => h.(clients := h.clients[id := Terminate(h.cfg, h.clients[id], None)])
    case Close => if h.closed then h else h.(closed := true, clients := TerminateAll(h.cfg, h.clients, None))
    case Refresh => h.(head := Head(h.source), loop := Refreshed(Head(h.source)))
    case RefreshFails => h.(clients := TerminateAll(h.cfg, h.clients, Some(ErrorNotice)), loop := Exited)
    case RunTick(clock) =>
      var swept := Sweep(h, clock);
      h.(clients := swept.clients, loop := if swept.threw then Exited else Sleeping)
    case Wake => h.(loop := if !h.closed && Anyone(h.clients) then Refreshing else Exited)
    case LoopSettles => h.(loop := Idle)
  }

  /** The order of registration stays a list of exactly the known clients. */
  lemma NextOrdered(h: Hub, step: Step)
    requires Ordered(h) && Possible(h, step)
    ensures Ordered(Next(h, step))
  {
    hide Terminate, Pull, TickAll, Anyone;
    if step.RunTick? {
      TickAllKeys(h.cfg, h.source, h.head, step.clock, h.clients, h.order);
    }
  }

  lemma {:induction false} TickAllKeys(cfg: Config, source: Source, head: Cursor, clock: nat -> Reading,
                                       clients: map<nat, Client>, ids: seq<nat>)
    requires forall i :: 0 <= i < |ids| ==> ids[i] in clients
    ensures TickAll(cfg, source, head, clock, clients, ids).clients.Keys == clients.Keys
    decreases |ids|
  {
    if ids != [] {
      var ticked := Tick(cfg, clients[ids[0]], source, head, clock(ids[0]));
      if !ticked.Failed? {
        TickAllKeys(cfg, source, head, clock, clients[ids[0] := ticked.client], ids[1..]);
      }
    }
  }

  ghost function Do(h: Hub, step: Step): (h': Hub)
    requires Ordered(h)
    ensures Ordered(h')
  {
    if Possible(h, step) then NextOrdered(h, step); Next(h, step) else h
  }

  ghost function Run(h: Hub, steps: seq<Step>): (h': Hub)
    requires Ordered(h)
    ensures Ordered(h')
    decreases |steps|
  {
    if steps == [] then h else Run(Do(h, steps[0]), steps[1..])
  }

  // ----- Gap-freedom and accounting over every schedule -----

  /** A sweep treats every listed client by itself: it is ticked once, or not at all after a throw. */
  lemma {:induction false} TickAllEach(cfg: Config, source: Source, head: Cursor, clock: nat -> Reading,
                                       clients: map<nat, Client>, ids: seq<nat>, id: nat)
    requires forall i :: 0 <= i < |ids| ==> ids[i] in clients
    requires forall i, j :: 0 <= i < j < |ids| ==> ids[i] != ids[j]
    requires id in clients
    ensures var swept := TickAll(cfg, source, head, clock, clients, ids);
            && id in swept.clients
            && (id !in ids ==> swept.clients[id] == clients[id])
            && (id in ids ==> swept.clients[id] == Tick(cfg, clients[id], source, head, clock(id)).client
                              || (swept.threw && swept.clients[id] == clients[id]))
            && (!swept.threw && id in ids ==> Tick(cfg, clients[id], source, head, clock(id)).Pumped?)
    decreases |ids|
  {
    hide Tick;
    if ids != [] {
      var ticked := Tick(cfg, clients[ids[0]], source, head, clock(ids[0]));
      if !ticked.Failed? {
        TickAllEach(cfg, source, head, clock, clients[ids[0] := ticked.client], ids[1..], id);
      }
    }
  }

  /** A cursor this source issued, and no newer than the view a waiting tick has captured. */
  ghost predicate Honest(h: Hub, cursor: Option<Cursor>) {
    cursor.Some? && cursor.value.At? ==>
      && cursor.value.generation < |h.source|
      && (cursor.value.generation == Generation(h.source) ==> cursor.value.position <= |Current(h.source).items|)
      && (h.loop.Refreshed? ==> NotAhead(h.head, cursor))
  }

  ghost predicate HonestRun(h: Hub, steps: seq<Step>)
    requires Ordered(h)
    decreases |steps|
  {
    steps == []
    || (&& (steps[0].Subscribe? ==> Honest(h, steps[0].cursor))
        && HonestRun(Do(h, steps[0]), steps[1..]))
  }

  ghost predicate Invariant(h: Hub) {
    && Ordered(h)
    && Captured(h.source, h.head)
    && (h.loop.Refreshed? ==> h.loop.head == h.head)
    && (forall id :: id in h.clients ==> Sound(h.cfg, h.source, h.head, h.clients[id]))
    && (forall id :: id in h.clients && h.clients[id].phase.Pending? ==> Honest(h, h.clients[id].cursor))
  }

  lemma SourceGrows(h: Hub, step: Step)
    requires Possible(h, step)
    ensures Grows(h.source, GrowSource(h.source, step))
    ensures CursorLeq(Head(h.source), Head(GrowSource(h.source, step)))
  {
  }

  lemma SourceStepKeeps(h: Hub, step: Step)
    requires Invariant(h) && Possible(h, step) && (step.Append? || step.Retract? || step.Rotate?)
    ensures Invariant(Next(h, step))
  {
    hide Exact, Matches, WellFormed, GapFree;
    var h' := Next(h, step);
    SourceGrows(h, step);
    forall id | id in h'.clients ensures Sound(h'.cfg, h'.source, h'.head, h'.clients[id]) {
      assert Sound(h.cfg, h.source, h.head, h.clients[id]);
      GapFreeGrows(h.source, h'.source, h.clients[id]);
    }
    forall id | id in h'.clients && h'.clients[id].phase.Pending? ensures Honest(h', h'.clients[id].cursor) {
      assert Honest(h, h.clients[id].cursor);
    }
  }

  /** Steps that touch clients only: each touched client stays sound and leaves the waiting room, if anything. */
  lemma ClientsStepKeeps(h: Hub, clients: map<nat, Client>, loop: Loop)
    requires Invariant(h) && clients.Keys == h.clients.Keys && (loop.Refreshed? ==> loop == h.loop)
    requires forall id :: id in clients ==> Sound(h.cfg, h.source, h.head, clients[id])
    requires forall id ::
               id in clients && clients[id].phase.Pending? ==>
                 h.clients[id].phase.Pending? && clients[id].cursor == h.clients[id].cursor
    ensures Invariant(h.(clients := clients, loop := loop))
  {
    hide Exact, Matches, Sound;
    forall id | id in clients && clients[id].phase.Pending?
      ensures Honest(h.(clients := clients, loop := loop), clients[id].cursor)
    {
      assert Honest(h, h.clients[id].cursor);
    }
  }

  lemma TerminateSound(cfg: Config, source: Source, head: Cursor, c: Client, final: Option<Delivery>)
    requires Sound(cfg, source, head, c) && (final.Some? ==> !final.value.Event?)
    ensures Sound(cfg, source, head, Terminate(cfg, c, final)) && Terminate(cfg, c, final).phase.Done?
  {
    TerminateKeeps(cfg, c, final);
    TerminateKeepsGapFree(cfg, source, c, final);
  }

  lemma PullSound(cfg: Config, source: Source, head: Cursor, c: Client)
    requires Sound(cfg, source, head, c)
    ensures Sound(cfg, source, head, Pull(cfg, c)) && Pull(cfg, c).phase == c.phase && Pull(cfg, c).cursor == c.cursor
  {
    PullKeeps(cfg, c);
    PullKeepsGapFree(cfg, source, c);
  }

  lemma FreshSound(cfg: Config, source: Source, head: Cursor, filter: Filter, cursor: Option<Cursor>)
    ensures Sound(cfg, source, head, Fresh(filter, cursor))
  {
  }

  lemma SubscribeKeeps(h: Hub, step: Step)
    requires Invariant(h) && Possible(h, step) && step.Subscribe? && Honest(h, step.cursor)
    ensures Invariant(Next(h, step))
  {
    hide Exact, Matches, Sound, Terminate, Anyone;
    if !h.closed {
      var joined := Fresh(step.filter, step.cursor);
      FreshSound(h.cfg, h.source, h.head, step.filter, step.cursor);
      TerminateSound(h.cfg, h.source, h.head, joined, None);
      var h' := Next(h, step);
      NextOrdered(h, step);
      forall id | id in h'.clients && h'.clients[id].phase.Pending? ensures Honest(h', h'.clients[id].cursor) {
        if id != step.id { assert Honest(h, h.clients[id].cursor); }
      }
    }
  }

  lemma RunTickKeeps(h: Hub, step: Step)
    requires Invariant(h) && Possible(h, step) && step.RunTick?
    ensures Invariant(Next(h, step))
  {
    hide Exact, Matches, Sound, Tick;
    var swept := Sweep(h, step.clock);
    TickAllKeys(h.cfg, h.source, h.head, step.clock, h.clients, h.order);
    forall id | id in swept.clients
      ensures Sound(h.cfg, h.source, h.head, swept.clients[id])
      ensures swept.clients[id].phase.Pending? ==> swept.clients[id] == h.clients[id]
    {
      TickAllEach(h.cfg, h.source, h.head, step.clock, h.clients, h.order, id);
      assert h.clients[id].phase.Pending? ==> Honest(h, h.clients[id].cursor);
      TickKeeps(h.cfg, h.source, h.head, h.head, h.clients[id], step.clock(id));
    }
    ClientsStepKeeps(h, swept.clients, if swept.threw then Exited else Sleeping);
  }

  lemma LoopStepKeeps(h: Hub, step: Step)
    requires Invariant(h) && Possible(h, step) && (step.Refresh? || step.Wake? || step.LoopSettles?)
    ensures Invariant(Next(h, step))
  {
    hide Exact, Matches, WellFormed, GapFree;
    var h' := Next(h, step);
    forall id | id in h'.clients ensures Sound(h'.cfg, h'.source, h'.head, h'.clients[id]) {
      assert Sound(h.cfg, h.source, h.head, h.clients[id]);
      if step.Refresh? { FollowsLaterHead(h.clients[id], h.head, h'.head); }
    }
    forall id | id in h'.clients && h'.clients[id].phase.Pending? ensures Honest(h', h'.clients[id].cursor) {
      assert Honest(h, h.clients[id].cursor);
    }
  }

  lemma StepKeeps(h: Hub, step: Step)
    requires Invariant(h) && (step.Subscribe? ==> Honest(h, step.cursor))
    ensures Invariant(Do(h, step))
  {
    hide Exact, Matches, Sound, TickAll;
    if Possible(h, step) {
      match step
      case Append(_) => SourceStepKeeps(h, step);
      case Retract(_) => SourceStepKeeps(h, step);
      case Rotate => SourceStepKeeps(h, step);
      case Subscribe(_, _, _, _) => SubscribeKeeps(h, step);
      case PullNext(id) =>
        PullSound(h.cfg, h.source, h.head, h.clients[id]);
        ClientsStepKeeps(h, h.clients[id := Pull(h.cfg, h.clients[id])], h.loop);
      case Abort(id) =>
        TerminateSound(h.cfg, h.source, h.head, h.clients[id], None);
        ClientsStepKeeps(h, h.clients[id := Terminate(h.cfg, h.clients[id], None)], h.loop);
      case Close =>
        forall id | id in h.clients { TerminateSound(h.cfg, h.source, h.head, h.clients[id], None); }
        ClientsStepKeeps(h, TerminateAll(h.cfg, h.clients, None), h.loop);
        ClosedIsFree(h.(clients := TerminateAll(h.cfg, h.clients, None)));
      case RefreshFails =>
        forall id | id in h.clients { TerminateSound(h.cfg, h.source, h.head, h.clients[id], Some(ErrorNotice)); }
        ClientsStepKeeps(h, TerminateAll(h.cfg, h.clients, Some(ErrorNotice)), Exited);
      case RunTick(_) => RunTickKeeps(h, step);
      case Refresh => LoopStepKeeps(h, step);
      case Wake => LoopStepKeeps(h, step);
      case LoopSettles => LoopStepKeeps(h, step);
    }
  }

  lemma ClosedIsFree(h: Hub)
    requires Invariant(h)
    ensures Invariant(h.(closed := true))
  {
    hide Exact, Matches, Sound;
    forall id | id in h.clients && h.clients[id].phase.Pending?
      ensures Honest(h.(closed := true), h.clients[id].cursor)
    {
      assert Honest(h, h.clients[id].cursor);
    }
  }

  lemma {:induction false} RunKeeps(h: Hub, steps: seq<Step>)
    requires Invariant(h) && HonestRun(h, steps)
    ensures Invariant(Run(h, steps))
    decreases |steps|
  {
    hide Exact, Matches, Sound, Do;
    if steps != [] {
      StepKeeps(h, steps[0]);
      RunKeeps(Do(h, steps[0]), steps[1..]);
    }
  }
}
