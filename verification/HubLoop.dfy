/**
 The poll loop and the independence of subscribers: when a registered client is
 still being served, and why what one client does cannot change what another
 one receives.
 */
module HubLoop {
  import opened Options
  import opened EventSource
  import opened HubClientSpec
  import opened HubStream
  import opened HubRuns
  import opened HubTheorems
  import opened HubIsolation

  // ----- Liveness of the loop -----

  /** While the hub is open and someone is registered, the loop has a turn ahead of it. */
  ghost predicate Served(h: Hub) {
    !h.closed && Anyone(h.clients) ==> h.loop.Refreshing? || h.loop.Refreshed? || h.loop.Sleeping?
  }

  /** The two ways to strand a client: joining in the exit window, or a read that throws. */
  ghost predicate Strands(h: Hub, step: Step)
    requires Ordered(h)
  {
    || (step.Subscribe? && Possible(h, step) && !step.aborted && !h.closed && h.loop.Exited?)
    || (step.RunTick? && Possible(h, step) && !h.closed && Sweep(h, step.clock).threw)
  }

  lemma {:induction false} SweepLeavesThrower(cfg: Config, source: Source, head: Cursor, clock: nat -> Reading,
                                              clients: map<nat, Client>, ids: seq<nat>)
    requires forall id :: id in clients ==> WellFormed(cfg, clients[id])
    requires forall i :: 0 <= i < |ids| ==> ids[i] in clients
    requires TickAll(cfg, source, head, clock, clients, ids).threw
    ensures Anyone(TickAll(cfg, source, head, clock, clients, ids).clients)
    decreases |ids|
  {
    hide Tick, WellFormed;
    var ticked := Tick(cfg, clients[ids[0]], source, head, clock(ids[0]));
    var clients' := clients[ids[0] := ticked.client];
    TickWellFormed(cfg, clients[ids[0]], source, head, clock(ids[0]));
    if ticked.Failed? {
      TickFailsOpen(cfg, clients[ids[0]], source, head, clock(ids[0]));
      assert ids[0] in clients' && !clients'[ids[0]].terminated;
    } else {
      SweepLeavesThrower(cfg, source, head, clock, clients', ids[1..]);
    }
  }

  /** Catch-up ends live only at the head it captured. */
  lemma CaughtUp(cfg: Config, c: Client, source: Source)
    requires WellFormed(cfg, c) && !c.terminated && c.phase.CatchingUp?
    ensures var caught := PumpCatchUp(cfg, c, source).client;
            && (caught.terminated <==> caught.phase.Done?)
            && (caught.phase.Live? ==> caught.cursor == Some(c.phase.head))
  {
    hide Read, Deliver, Terminate;
    PumpWellFormed(cfg, c, source, c.phase.head);
    var page := Read(source, c.phase.head, c.filter, c.cursor, c.phase.head, Capacity(cfg, c));
    TerminateKeeps(cfg, c, Some(ResetNotice));
    if page.Page? { DeliverKeeps(cfg, c, page, 0); }
  }

  lemma TickFailsOpen(cfg: Config, c: Client, source: Source, head: Cursor, reading: Reading)
    requires WellFormed(cfg, c) && Tick(cfg, c, source, head, reading).Failed?
    ensures !Tick(cfg, c, source, head, reading).client.terminated
  {
    var c1 := if c.phase.Pending? then c.(phase := CatchingUp(head)) else c;
    hide Read, Deliver, Terminate, CheckStall;
    if c1.phase.CatchingUp? { CaughtUp(cfg, c1, source); }
  }

  lemma SubscribeServes(h: Hub, step: Step)
    requires Ordered(h) && Served(h) && Possible(h, step) && step.Subscribe?
    ensures Served(Do(h, step)) <==> !Strands(h, step)
  {
    hide Terminate;
    if !h.closed {
      TerminateEnds(h.cfg, Fresh(step.filter, step.cursor), None);
      var h' := Do(h, step);
      assert step.id in h'.clients;
      if !step.aborted { assert !h'.clients[step.id].terminated; }
      else { NobodyJoins(h.clients, h'.clients, step.id); }
    }
  }

  lemma OwnStepServes(h: Hub, step: Step)
    requires Ordered(h) && Served(h) && Possible(h, step) && (step.PullNext? || step.Abort?)
    ensures Served(Do(h, step))
  {
    hide Terminate, Pull;
    PullKeepsRegistration(h.cfg, h.clients[step.id]);
    TerminateEnds(h.cfg, h.clients[step.id], None);
    hide Anyone;
    NobodyJoins(h.clients, Do(h, step).clients, step.id);
  }

  lemma FailedRefreshServes(h: Hub)
    requires Ordered(h) && Possible(h, RefreshFails)
    ensures Served(Do(h, RefreshFails))
  {
    hide Terminate;
    forall k | k in h.clients ensures TerminateAll(h.cfg, h.clients, Some(ErrorNotice))[k].terminated {
      TerminateEnds(h.cfg, h.clients[k], Some(ErrorNotice));
    }
  }

  lemma TickServes(h: Hub, clock: nat -> Reading)
    requires AllWellFormed(h) && Possible(h, RunTick(clock))
    ensures Served(Do(h, RunTick(clock))) <==> !Strands(h, RunTick(clock))
  {
    hide WellFormed, TickAll, Anyone;
    if Sweep(h, clock).threw { SweepLeavesThrower(h.cfg, h.source, h.head, clock, h.clients, h.order); }
  }

  lemma QuietStepServes(h: Hub, step: Step)
    requires Ordered(h) && Served(h) && Possible(h, step)
    requires step.Append? || step.Retract? || step.Rotate? || step.Close? || step.Refresh? || step.Wake?
             || step.LoopSettles?
    ensures Served(Do(h, step))
  {
    hide Anyone, Terminate, Head;
  }

  /**
   From a served state, every step leads to a served state except exactly the two that
   strand a client.
   */
  lemma ServedUnlessStranded(h: Hub, step: Step)
    requires AllWellFormed(h) && Served(h)
    ensures Served(Do(h, step)) <==> !Strands(h, step)
  {
    hide Served, WellFormed, Next, Sweep;
    if Possible(h, step) {
      match step
      case Subscribe(_, _, _, _) => SubscribeServes(h, step);
      case PullNext(_) => OwnStepServes(h, step);
      case Abort(_) => OwnStepServes(h, step);
      case RefreshFails => FailedRefreshServes(h);
      case RunTick(clock) => TickServes(h, clock);
      case _ => QuietStepServes(h, step);
    }
  }

  lemma PullKeepsRegistration(cfg: Config, c: Client)
    ensures Pull(cfg, c).terminated == c.terminated
  {
  }

  /** Changing one client without reviving it registers nobody. */
  lemma NobodyJoins(clients: map<nat, Client>, clients': map<nat, Client>, id: nat)
    requires clients'.Keys <= clients.Keys + {id}
    requires forall k :: k in clients' && k != id ==> clients'[k] == clients[k]
    requires id in clients' && !clients'[id].terminated ==> id in clients && !clients[id].terminated
    ensures Anyone(clients') ==> Anyone(clients)
  {
    if Anyone(clients') {
      var k :| k in clients' && !clients'[k].terminated;
      assert k in clients && !clients[k].terminated;
    }
  }

  ghost predicate StrandsNobody(h: Hub, steps: seq<Step>)
    requires Ordered(h)
    decreases |steps|
  {
    steps == [] || (!Strands(h, steps[0]) && StrandsNobody(Do(h, steps[0]), steps[1..]))
  }

  lemma {:induction false} EveryoneIsServed(h: Hub, steps: seq<Step>)
    requires AllWellFormed(h) && Served(h) && StrandsNobody(h, steps)
    ensures Served(Run(h, steps))
    decreases |steps|
  {
    hide Do, Strands, WellFormed;
    if steps != [] {
      StepWellFormed(h, steps[0]);
      ServedUnlessStranded(h, steps[0]);
      EveryoneIsServed(Do(h, steps[0]), steps[1..]);
    }
  }

  /** A read throws for a client exactly when its cursor cannot be decoded and it has room. */
  lemma TickFailsIff(cfg: Config, c: Client, source: Source, head: Cursor, reading: Reading)
    requires WellFormed(cfg, c) && !c.terminated && head.At?
    requires c.phase.CatchingUp? ==> c.phase.head.At?
    requires c.phase.Live? ==> c.cursor.Some? && c.cursor.value.At?
    ensures Tick(cfg, c, source, head, reading).Failed? <==> c.cursor == Some(Malformed) && Capacity(cfg, c) > 0
  {
    var c1 := if c.phase.Pending? then c.(phase := CatchingUp(head)) else c;
    hide Deliver, Terminate, CheckStall;
    if c1.phase.CatchingUp? { CaughtUp(cfg, c1, source); }
  }

  lemma {:induction false} ThrowHasCause(cfg: Config, source: Source, head: Cursor, clock: nat -> Reading,
                                         clients: map<nat, Client>, ids: seq<nat>)
    requires forall i :: 0 <= i < |ids| ==> ids[i] in clients
    requires forall i, j :: 0 <= i < j < |ids| ==> ids[i] != ids[j]
    requires TickAll(cfg, source, head, clock, clients, ids).threw
    ensures exists i :: 0 <= i < |ids| && Tick(cfg, clients[ids[i]], source, head, clock(ids[i])).Failed?
    decreases |ids|
  {
    hide Tick;
    var ticked := Tick(cfg, clients[ids[0]], source, head, clock(ids[0]));
    if !ticked.Failed? {
      var clients' := clients[ids[0] := ticked.client];
      ThrowHasCause(cfg, source, head, clock, clients', ids[1..]);
      var i :| 0 <= i < |ids| - 1 && Tick(cfg, clients'[ids[1..][i]], source, head, clock(ids[1..][i])).Failed?;
      assert ids[1..][i] == ids[i + 1] && clients'[ids[i + 1]] == clients[ids[i + 1]];
    }
  }

  /** A tick is cut short exactly when a registered client still holds a cursor that cannot be decoded. */
  lemma SweepThrowsIff(h: Hub, clock: nat -> Reading)
    requires Invariant(h) && h.cfg.maxItems >= 1
    ensures Sweep(h, clock).threw <==> exists id ::
                                         id in h.clients && !h.clients[id].terminated
                                         && h.clients[id].cursor == Some(Malformed)
  {
    hide Tick, TickAll, Exact;
    forall id | id in h.clients && !h.clients[id].terminated
      ensures Tick(h.cfg, h.clients[id], h.source, h.head, clock(id)).Failed?
              <==> h.clients[id].cursor == Some(Malformed)
    {
      var c := h.clients[id];
      assert Sound(h.cfg, h.source, h.head, c);
      TickFailsIff(h.cfg, c, h.source, h.head, clock(id));
      if c.cursor == Some(Malformed) { assert c.queue == []; }
    }
    if Sweep(h, clock).threw {
      ThrowHasCause(h.cfg, h.source, h.head, clock, h.clients, h.order);
      var i :| 0 <= i < |h.order| && Tick(h.cfg, h.clients[h.order[i]], h.source, h.head, clock(h.order[i])).Failed?;
      assert !h.clients[h.order[i]].terminated
        by { TerminatedDoesNotFail(h.cfg, h.clients[h.order[i]], h.source, h.head, clock(h.order[i])); }
    }
    if id :| id in h.clients && !h.clients[id].terminated && h.clients[id].cursor == Some(Malformed) {
      TickAllEach(h.cfg, h.source, h.head, clock, h.clients, h.order, id);
    }
  }

  lemma TerminatedDoesNotFail(cfg: Config, c: Client, source: Source, head: Cursor, reading: Reading)
    ensures c.terminated ==> !Tick(cfg, c, source, head, reading).Failed?
  {
  }

  // ----- Serving everyone, in terms a caller can check -----

  predicate Decodable(cursor: Option<Cursor>) {
    cursor != Some(Malformed)
  }

  /** Nothing a registered client would read with is undecodable. */
  ghost predicate Readable(cfg: Config, c: Client) {
    && WellFormed(cfg, c)
    && (!c.terminated ==>
          && Decodable(c.cursor)
          && (c.phase.CatchingUp? ==> c.phase.head.At?)
          && (c.phase.Live? ==> c.cursor.Some? && c.cursor.value.At?))
  }

  lemma PageCursorsAreReadable(cfg: Config, c: Client, source: Source, head: Cursor, page: Page)
    requires Readable(cfg, c) && !c.terminated && Capacity(cfg, c) > 0
    requires page == Read(source, head, c.filter, c.cursor, head, Capacity(cfg, c)) && page.Page?
    ensures var c' := Deliver(cfg, c, page, 0);
            && WellFormed(cfg, c')
            && (!c'.terminated ==>
                  c'.phase == c.phase && (c'.cursor == c.cursor || (c'.cursor.Some? && c'.cursor.value.At?)))
  {
    hide WellFormed, Deliver, Matches, Positions;
    DeliverKeeps(cfg, c, page, 0);
  }

  lemma CatchUpIsReadable(cfg: Config, c: Client, source: Source)
    requires Readable(cfg, c) && !c.terminated && c.phase.CatchingUp?
    ensures Readable(cfg, PumpCatchUp(cfg, c, source).client)
  {
    PumpWellFormed(cfg, c, source, c.phase.head);
    TerminateEnds(cfg, c, Some(ResetNotice));
    hide WellFormed, Deliver, Terminate, Read;
    var page := Read(source, c.phase.head, c.filter, c.cursor, c.phase.head, Capacity(cfg, c));
    if Capacity(cfg, c) > 0 && page.Page? { PageCursorsAreReadable(cfg, c, source, c.phase.head, page); }
  }

  lemma LiveIsReadable(cfg: Config, c: Client, source: Source, head: Cursor)
    requires Readable(cfg, c) && !c.terminated && c.phase.Live? && head.At?
    ensures Readable(cfg, PumpLive(cfg, c, source, head).client)
  {
    PumpWellFormed(cfg, c, source, head);
    TerminateEnds(cfg, c, Some(ResetNotice));
    hide WellFormed, Deliver, Terminate, Read;
    var page := Read(source, head, c.filter, c.cursor, head, Capacity(cfg, c));
    if Capacity(cfg, c) > 0 && page.Page? { PageCursorsAreReadable(cfg, c, source, head, page); }
  }

  lemma TickIsReadable(cfg: Config, c: Client, source: Source, head: Cursor, reading: Reading)
    requires Readable(cfg, c) && head.At?
    ensures Readable(cfg, Tick(cfg, c, source, head, reading).client) && !Tick(cfg, c, source, head, reading).Failed?
  {
    TickWellFormed(cfg, c, source, head, reading);
    if !c.terminated {
      TickFailsIff(cfg, c, source, head, reading);
      var c1 := if c.phase.Pending? then c.(phase := CatchingUp(head)) else c;
      assert Readable(cfg, c1);
      var caught := if c1.phase.CatchingUp? then PumpCatchUp(cfg, c1, source) else Pumped(c1);
      if c1.phase.CatchingUp? {
        CatchUpIsReadable(cfg, c1, source);
        CaughtUp(cfg, c1, source);
      }
      var fed := Feed(cfg, c, source, head).client;
      assert caught.client.phase.Live? ==> !caught.client.terminated;
      hide WellFormed, PumpCatchUp, PumpLive, Terminate;
      if caught.client.phase.Live? { LiveIsReadable(cfg, caught.client, source, head); }
      assert Readable(cfg, fed);
      StallIsReadable(cfg, fed, reading);
    }
  }

  lemma StallIsReadable(cfg: Config, c: Client, reading: Reading)
    requires Readable(cfg, c)
    ensures Readable(cfg, CheckStall(cfg, c, reading))
  {
    StallWellFormed(cfg, c, reading);
    hide WellFormed, Terminate;
    if !c.terminated && c.queue != [] {
      var since := if c.blockedSince.Some? then c.blockedSince.value else reading.first;
      TerminateEnds(cfg, c.(blockedSince := Some(since)), None);
    }
  }

  ghost predicate AllReadable(h: Hub) {
    Ordered(h) && h.head.At? && forall id :: id in h.clients ==> Readable(h.cfg, h.clients[id])
  }

  lemma {:induction false} ReadableSweep(cfg: Config, source: Source, head: Cursor, clock: nat -> Reading,
                                         clients: map<nat, Client>, ids: seq<nat>)
    requires head.At? && forall id :: id in clients ==> Readable(cfg, clients[id])
    requires forall i :: 0 <= i < |ids| ==> ids[i] in clients
    ensures var swept := TickAll(cfg, source, head, clock, clients, ids);
            !swept.threw && forall id :: id in swept.clients ==> Readable(cfg, swept.clients[id])
    decreases |ids|
  {
    hide Readable, Tick;
    if ids != [] {
      TickIsReadable(cfg, clients[ids[0]], source, head, clock(ids[0]));
      var next := Tick(cfg, clients[ids[0]], source, head, clock(ids[0])).client;
      ReadableSweep(cfg, source, head, clock, clients[ids[0] := next], ids[1..]);
    }
  }

  lemma FreshIsReadable(cfg: Config, filter: Filter, cursor: Option<Cursor>)
    requires Decodable(cursor)
    ensures Readable(cfg, Fresh(filter, cursor))
  {
    FreshWellFormed(cfg, filter, cursor);
  }

  lemma EndedIsReadable(cfg: Config, c: Client, final: Option<Delivery>)
    requires Readable(cfg, c) && (final.Some? ==> !final.value.Event?)
    ensures Readable(cfg, Terminate(cfg, c, final))
  {
    hide WellFormed, Terminate;
    TerminateKeeps(cfg, c, final);
  }

  lemma PulledIsReadable(cfg: Config, c: Client)
    requires Readable(cfg, c)
    ensures Readable(cfg, Pull(cfg, c))
  {
    hide WellFormed;
    PullKeeps(cfg, c);
  }

  lemma StepIsReadable(h: Hub, step: Step)
    requires AllReadable(h) && (step.Subscribe? ==> Decodable(step.cursor))
    ensures AllReadable(Do(h, step))
  {
    hide Readable, TickAll, Terminate, Pull;
    if Possible(h, step) {
      match step
      case Subscribe(_, filter, cursor, _) =>
        FreshIsReadable(h.cfg, filter, cursor);
        EndedIsReadable(h.cfg, Fresh(filter, cursor), None);
      case PullNext(id) => PulledIsReadable(h.cfg, h.clients[id]);
      case Abort(id) => EndedIsReadable(h.cfg, h.clients[id], None);
      case Close => forall id | id in h.clients { EndedIsReadable(h.cfg, h.clients[id], None); }
      case RefreshFails => forall id | id in h.clients { EndedIsReadable(h.cfg, h.clients[id], Some(ErrorNotice)); }
      case RunTick(clock) => ReadableSweep(h.cfg, h.source, h.head, clock, h.clients, h.order);
      case _ =>
    }
  }

  /** Every presented cursor can be decoded, and nobody joins in the exit window. */
  ghost predicate Considerate(h: Hub, steps: seq<Step>)
    requires Ordered(h)
    decreases |steps|
  {
    steps == []
    || (&& (steps[0].Subscribe? ==> Decodable(steps[0].cursor) && (h.loop.Exited? ==> steps[0].aborted || h.closed))
        && Considerate(Do(h, steps[0]), steps[1..]))
  }

  lemma {:induction false} ConsiderateStrandsNobody(h: Hub, steps: seq<Step>)
    requires AllReadable(h) && Considerate(h, steps)
    ensures StrandsNobody(h, steps)
    decreases |steps|
  {
    if steps != [] {
      StepIsReadable(h, steps[0]);
      hide Do, Readable, TickAll;
      if steps[0].RunTick? { ReadableSweep(h.cfg, h.source, h.head, steps[0].clock, h.clients, h.order); }
      ConsiderateStrandsNobody(Do(h, steps[0]), steps[1..]);
    }
  }

  /** From the start, such schedules keep a loop turn ahead of every registered client. */
  lemma ConsiderateSchedulesServe(cfg: Config, steps: seq<Step>)
    requires Considerate(Start(cfg), steps)
    ensures Served(Run(Start(cfg), steps))
  {
    hide Run, Considerate, StrandsNobody;
    ConsiderateStrandsNobody(Start(cfg), steps);
    EveryoneIsServed(Start(cfg), steps);
  }

  lemma RunThree(h: Hub, a: Step, b: Step, c: Step)
    requires Ordered(h)
    ensures Run(h, [a, b, c]) == Do(Do(Do(h, a), b), c)
  {
    hide Do;
    var h1, h2 := Do(h, a), Do(Do(h, a), b);
    assert [a, b, c][1..] == [b, c] && [b, c][1..] == [c] && [c][1..] == [];
    assert Run(h2, [c]) == Run(Do(h2, c), []);
    assert Run(h1, [b, c]) == Run(h2, [c]);
  }

  /** A client that was aborted before it joined starts a loop that ends at once. */
  lemma AbortedJoinExits(cfg: Config, filter: Filter)
    ensures var h := Do(Start(cfg), Subscribe(0, filter, None, true));
            h.loop == Exited && !h.closed && h.clients.Keys == {0} && h.cfg == cfg
  {
    hide Terminate;
    TerminateEnds(cfg, Fresh(filter, None), None);
  }

  /** A client that joins in the exit window starts no loop. */
  lemma LateJoinStartsNothing(h: Hub, id: nat, filter: Filter)
    requires Ordered(h) && h.loop == Exited && !h.closed && id !in h.clients
    ensures var h' := Do(h, Subscribe(id, filter, None, false));
            h'.loop == Exited && !h'.closed && id in h'.clients && !h'.clients[id].terminated
  {
    hide Terminate, Anyone;
  }

  /**
   Joining between the loop's exit and its reset strands the new client: no loop runs,
   and none will until somebody else subscribes.
   */
  lemma ExitWindowStrands(cfg: Config, filter: Filter)
    ensures var h := Run(Start(cfg),
                         [Subscribe(0, filter, None, true), Subscribe(1, filter, None, false), LoopSettles]);
            !h.closed && h.loop.Idle? && Anyone(h.clients) && !Served(h)
  {
    hide Run, Terminate, Anyone;
    AbortedJoinExits(cfg, filter);
    var s1 := Do(Start(cfg), Subscribe(0, filter, None, true));
    LateJoinStartsNothing(s1, 1, filter);
    var s2 := Do(s1, Subscribe(1, filter, None, false));
    SomebodyWaits(s2.clients, 1);
    RunThree(Start(cfg), Subscribe(0, filter, None, true), Subscribe(1, filter, None, false), LoopSettles);
    LoopResets(s2);
  }

  lemma LoopResets(h: Hub)
    requires Ordered(h) && h.loop == Exited
    ensures Do(h, LoopSettles) == h.(loop := Idle)
  {
  }

  // ----- A cursor that cannot be decoded -----

  lemma RunFour(h: Hub, a: Step, b: Step, c: Step, d: Step)
    requires Ordered(h)
    ensures Run(h, [a, b, c, d]) == Do(Do(Do(Do(h, a), b), c), d)
  {
    hide Do;
    assert [a, b, c, d][1..] == [b, c, d];
    RunThree(Do(h, a), b, c, d);
  }

  /** An open hub with these clients, registered in this order. */
  ghost predicate Hosts(h: Hub, cfg: Config, loop: Loop, clients: map<nat, Client>, order: seq<nat>) {
    Ordered(h) && h.cfg == cfg && !h.closed && h.loop == loop && h.clients == clients && h.order == order
  }

  lemma FirstJoins(cfg: Config, filter: Filter, cursor: Option<Cursor>)
    ensures Hosts(Do(Start(cfg), Subscribe(0, filter, cursor, false)), cfg, Refreshing,
                  map[0 := Fresh(filter, cursor)], [0])
  {
    hide Terminate, Anyone, Pull, TickAll, Sweep, TerminateAll, GrowSource;
    OneIsAnyone(Fresh(filter, cursor));
    var clients: map<nat, Client> := map[];
    assert clients[0 := Fresh(filter, cursor)] == map[0 := Fresh(filter, cursor)];
  }

  lemma OneIsAnyone(c: Client)
    requires !c.terminated
    ensures Anyone(map[0 := c])
  {
    var clients: map<nat, Client> := map[0 := c];
    assert 0 in clients && !clients[0].terminated;
  }

  lemma SecondJoins(h: Hub, cfg: Config, first: Client, filter: Filter)
    requires Hosts(h, cfg, Refreshing, map[0 := first], [0])
    ensures Hosts(Do(h, Subscribe(1, filter, None, false)), cfg, Refreshing,
                  map[0 := first, 1 := Fresh(filter, None)], [0, 1])
  {
    hide Terminate, Anyone;
    assert [0] + [1] == [0, 1];
  }

  lemma ViewIsCaptured(h: Hub, cfg: Config, clients: map<nat, Client>, order: seq<nat>)
    requires Hosts(h, cfg, Refreshing, clients, order)
    ensures var h' := Do(h, Refresh);
            h'.head.At? && Hosts(h', cfg, Refreshed(h'.head), clients, order)
  {
  }

  lemma TickIsCutShort(h: Hub, cfg: Config, filter: Filter, clock: nat -> Reading)
    requires cfg.maxItems >= 1 && h.head.At?
    requires Hosts(h, cfg, Refreshed(h.head), map[0 := Fresh(filter, Some(Malformed)), 1 := Fresh(filter, None)],
                   [0, 1])
    ensures var h' := Do(h, RunTick(clock));
            && h'.loop == Exited && !h'.closed && 0 in h'.clients && 1 in h'.clients
            && !h'.clients[0].terminated && h'.clients[1] == Fresh(filter, None)
  {
    var c := Fresh(filter, Some(Malformed));
    FreshWellFormed(cfg, filter, Some(Malformed));
    hide Tick, WellFormed;
    TickFailsIff(cfg, c, h.source, h.head, clock(0));
    TickFailsOpen(cfg, c, h.source, h.head, clock(0));
  }

  /**
   A client that presents an undecodable cursor ends the loop for everyone: the client behind
   it has not had its first tick, and no loop is left to give it one.
   */
  lemma MalformedCursorStrands(cfg: Config, filter: Filter, clock: nat -> Reading)
    requires cfg.maxItems >= 1
    ensures var h := Run(Start(cfg), [Subscribe(0, filter, Some(Malformed), false), Subscribe(1, filter, None, false),
                                      Refresh, RunTick(clock)]);
            && h.loop == Exited && !h.closed && 1 in h.clients && h.clients[1] == Fresh(filter, None) && !Served(h)
  {
    hide Run, Do, Hosts, Anyone;
    var a, b := Subscribe(0, filter, Some(Malformed), false), Subscribe(1, filter, None, false);
    FirstJoins(cfg, filter, Some(Malformed));
    var h1 := Do(Start(cfg), a);
    SecondJoins(h1, cfg, Fresh(filter, Some(Malformed)), filter);
    var h2 := Do(h1, b);
    ViewIsCaptured(h2, cfg, map[0 := Fresh(filter, Some(Malformed)), 1 := Fresh(filter, None)], [0, 1]);
    var h3 := Do(h2, Refresh);
    TickIsCutShort(h3, cfg, filter, clock);
    SomebodyWaits(Do(h3, RunTick(clock)).clients, 1);
    RunFour(Start(cfg), a, b, Refresh, RunTick(clock));
  }

  lemma SomebodyWaits(clients: map<nat, Client>, id: nat)
    requires id in clients && !clients[id].terminated
    ensures Anyone(clients)
  {
  }

  /** Without a further subscription a hub whose loop is gone never polls again. */
  lemma {:induction false} StrandedStays(h: Hub, steps: seq<Step>)
    requires Ordered(h) && (h.loop.Idle? || h.loop.Exited?)
    requires forall i :: 0 <= i < |steps| ==> !steps[i].Subscribe?
    ensures Run(h, steps).loop.Idle? || Run(h, steps).loop.Exited?
    decreases |steps|
  {
    hide TickAll, Terminate, Pull;
    if steps != [] {
      StrandedStays(Do(h, steps[0]), steps[1..]);
    }
  }

  // ----- Isolation -----

  /** What a client sees of the hub besides itself. */
  datatype World = World(source: Source, head: Cursor, closed: bool)

  function WorldOf(h: Hub): World {
    World(h.source, h.head, h.closed)
  }

  function WorldNext(w: World, step: Step): World {
    match step
    case Refresh => w.(head := Head(w.source))
    case Close => w.(closed := true)
    case _ => w.(source := GrowSource(w.source, step))
  }

  function Lookup(h: Hub, id: nat): Option<Client> {
    if id in h.clients then Some(h.clients[id]) else None
  }

  /** The effect of a step on one client, computed without looking at any other client. */
  function LocalNext(cfg: Config, w: World, c: Option<Client>, id: nat, step: Step): Option<Client> {
    match step
    case Subscribe(id', filter, cursor, aborted) =>
      if id' != id || w.closed then c
      else Some(if aborted then Terminate(cfg, Fresh(filter, cursor), None) else Fresh(filter, cursor))
    case PullNext(id') => if id' == id && c.Some? then Some(Pull(cfg, c.value)) else c
    case Abort(id') => if id' == id && c.Some? then Some(Terminate(cfg, c.value, None)) else c
    case Close => if c.Some? && !w.closed then Some(Terminate(cfg, c.value, None)) else c
    case RefreshFails => if c.Some? then Some(Terminate(cfg, c.value, Some(ErrorNotice))) else c
    case RunTick(clock) => if c.Some? then Some(Tick(cfg, c.value, w.source, w.head, clock(id)).client) else c
    case _ => c
  }

  lemma StepIsLocal(h: Hub, step: Step, id: nat)
    requires Ordered(h) && Possible(h, step) && (step.RunTick? ==> !Sweep(h, step.clock).threw)
    ensures WorldOf(Next(h, step)) == WorldNext(WorldOf(h), step)
    ensures Lookup(Next(h, step), id) == LocalNext(h.cfg, WorldOf(h), Lookup(h, id), id, step)
  {
    hide Tick, Terminate, Pull, TickAll, Anyone, Head;
    if step.RunTick? {
      TickAllKeys(h.cfg, h.source, h.head, step.clock, h.clients, h.order);
      if id in h.clients {
        TickAllEach(h.cfg, h.source, h.head, step.clock, h.clients, h.order, id);
      }
    }
  }

  /** A run in which every step is possible and no tick is cut short by a thrown read. */
  ghost predicate Undisturbed(h: Hub, steps: seq<Step>)
    requires Ordered(h)
    decreases |steps|
  {
    steps == []
    || (&& Possible(h, steps[0])
        && (steps[0].RunTick? ==> !Sweep(h, steps[0].clock).threw)
        && Undisturbed(Do(h, steps[0]), steps[1..]))
  }

  /** Every step is possible and every presented cursor can be decoded. */
  ghost predicate PresentsDecodable(h: Hub, steps: seq<Step>)
    requires Ordered(h)
    decreases |steps|
  {
    steps == []
    || (&& Possible(h, steps[0])
        && (steps[0].Subscribe? ==> Decodable(steps[0].cursor))
        && PresentsDecodable(Do(h, steps[0]), steps[1..]))
  }

  /** Such a schedule is not disturbed by any client. */
  lemma {:induction false} DecodableIsUndisturbed(h: Hub, steps: seq<Step>)
    requires AllReadable(h) && PresentsDecodable(h, steps)
    ensures Undisturbed(h, steps)
    decreases |steps|
  {
    if steps != [] {
      StepIsReadable(h, steps[0]);
      hide Do, Readable, TickAll;
      if steps[0].RunTick? { ReadableSweep(h.cfg, h.source, h.head, steps[0].clock, h.clients, h.order); }
      DecodableIsUndisturbed(Do(h, steps[0]), steps[1..]);
    }
  }

  function LocalRun(cfg: Config, w: World, c: Option<Client>, id: nat, steps: seq<Step>): Option<Client>
    decreases |steps|
  {
    if steps == [] then c
    else LocalRun(cfg, WorldNext(w, steps[0]), LocalNext(cfg, w, c, id, steps[0]), id, steps[1..])
  }

  lemma {:induction false} RunIsLocal(h: Hub, steps: seq<Step>, id: nat)
    requires Ordered(h) && Undisturbed(h, steps)
    ensures Lookup(Run(h, steps), id) == LocalRun(h.cfg, WorldOf(h), Lookup(h, id), id, steps)
    decreases |steps|
  {
    hide LocalNext, WorldNext, Next, WorldOf, Lookup;
    if steps != [] {
      StepIsLocal(h, steps[0], id);
      ConfigIsFixed(h, [steps[0]]);
      assert Run(h, [steps[0]]) == Do(h, steps[0]);
      RunIsLocal(Do(h, steps[0]), steps[1..], id);
    }
  }

  /** What a client sees of a step that concerns it: of a tick, only its own clock reading. */
  datatype Seen = SeenStep(step: Step) | SeenTick(reading: Reading)

  /** Steps that can matter to a client: its own, the source's and the hub's. */
  predicate Concerns(step: Step, id: nat) {
    match step
    case Subscribe(id', _, _, _) => id' == id
    case PullNext(id') => id' == id
    case Abort(id') => id' == id
    case Wake => false
    case LoopSettles => false
    case _ => true
  }

  function View(step: Step, id: nat): Seen {
    if step.RunTick? then SeenTick(step.clock(id)) else SeenStep(step)
  }

  function Relevant(steps: seq<Step>, id: nat): seq<Seen> {
    if steps == [] then []
    else (if Concerns(steps[0], id) then [View(steps[0], id)] else []) + Relevant(steps[1..], id)
  }

  function SeenWorld(w: World, seen: Seen): World {
    if seen.SeenTick? then w else WorldNext(w, seen.step)
  }

  function SeenNext(cfg: Config, w: World, c: Option<Client>, id: nat, seen: Seen): Option<Client> {
    match seen
    case SeenTick(reading) => if c.Some? then Some(Tick(cfg, c.value, w.source, w.head, reading).client) else c
    case SeenStep(step) => LocalNext(cfg, w, c, id, step)
  }

  function SeenRun(cfg: Config, w: World, c: Option<Client>, id: nat, seen: seq<Seen>): Option<Client>
    decreases |seen|
  {
    if seen == [] then c
    else SeenRun(cfg, SeenWorld(w, seen[0]), SeenNext(cfg, w, c, id, seen[0]), id, seen[1..])
  }

  /** A step acts on a client as what the client sees of it, and not at all when it does not concern it. */
  lemma StepAsSeen(cfg: Config, w: World, c: Option<Client>, id: nat, step: Step)
    ensures Concerns(step, id) ==>
              && WorldNext(w, step) == SeenWorld(w, View(step, id))
              && LocalNext(cfg, w, c, id, step) == SeenNext(cfg, w, c, id, View(step, id))
    ensures !Concerns(step, id) ==> WorldNext(w, step) == w && LocalNext(cfg, w, c, id, step) == c
  {
    hide Terminate, Pull, Tick, Head;
  }

  lemma {:induction false} RunAsSeen(cfg: Config, w: World, c: Option<Client>, id: nat, steps: seq<Step>)
    ensures LocalRun(cfg, w, c, id, steps) == SeenRun(cfg, w, c, id, Relevant(steps, id))
    decreases |steps|
  {
    hide LocalNext, WorldNext, SeenNext, SeenWorld, View;
    if steps != [] {
      StepAsSeen(cfg, w, c, id, steps[0]);
      RunAsSeen(cfg, WorldNext(w, steps[0]), LocalNext(cfg, w, c, id, steps[0]), id, steps[1..]);
      var seen, rest := Relevant(steps, id), Relevant(steps[1..], id);
      if Concerns(steps[0], id) {
        assert seen[0] == View(steps[0], id) && seen[1..] == rest;
      } else {
        assert seen == rest;
      }
    }
  }

  /**
   Whatever the other clients do - join, stall, overflow, reset or leave - a client that
   sees the same source, the same ticks at the same readings of its own and its own same
   pulls receives the same.
   */
  lemma OthersDoNotMatter(h: Hub, h': Hub, steps: seq<Step>, steps': seq<Step>, id: nat)
    requires Ordered(h) && Ordered(h') && h'.cfg == h.cfg
    requires WorldOf(h) == WorldOf(h') && Lookup(h, id) == Lookup(h', id)
    requires Undisturbed(h, steps) && Undisturbed(h', steps')
    requires Relevant(steps, id) == Relevant(steps', id)
    ensures Lookup(Run(h, steps), id) == Lookup(Run(h', steps'), id)
  {
    hide Run, LocalRun, SeenRun, Relevant, Undisturbed, Lookup;
    RunIsLocal(h, steps, id);
    RunIsLocal(h', steps', id);
    RunAsSeen(h.cfg, WorldOf(h), Lookup(h, id), id, steps);
    RunAsSeen(h.cfg, WorldOf(h), Lookup(h, id), id, steps');
  }
}
