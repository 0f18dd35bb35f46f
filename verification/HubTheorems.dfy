/**
 What the event hub promises its subscribers, over every schedule of the
 transition system in HubRuns.
 */
module HubTheorems {
  import opened Options
  import opened EventSource
  import opened HubClientSpec
  import opened HubStream
  import opened HubRuns

  lemma StartInvariant(cfg: Config)
    ensures Invariant(Start(cfg))
  {
  }

  /**
   Received followed by queued is gap-free and duplicate-free for every client of every
   schedule in which subscribers present cursors the source issued.
   */
  lemma EveryScheduleIsGapFree(cfg: Config, steps: seq<Step>, id: nat)
    requires HonestRun(Start(cfg), steps) && id in Run(Start(cfg), steps).clients
    ensures var h := Run(Start(cfg), steps);
            GapFree(h.source, h.clients[id])
  {
    StartInvariant(cfg);
    RunKeeps(Start(cfg), steps);
    assert Sound(cfg, Run(Start(cfg), steps).source, Run(Start(cfg), steps).head,
                 Run(Start(cfg), steps).clients[id]) by {
      ConfigIsFixed(Start(cfg), steps);
    }
  }

  // ----- A source that only the hub refreshes -----

  /** A cursor this source has issued. */
  ghost predicate Issued(source: Source, cursor: Option<Cursor>) {
    cursor.Some? && cursor.value.At? ==>
      && cursor.value.generation < |source|
      && (cursor.value.generation == Generation(source) ==> cursor.value.position <= |Current(source).items|)
  }

  /** The source moves only while the hub refreshes it, and subscribers present issued cursors. */
  ghost predicate HubRefreshesOnly(h: Hub, steps: seq<Step>)
    requires Ordered(h)
    decreases |steps|
  {
    steps == []
    || (&& (steps[0].Append? || steps[0].Retract? || steps[0].Rotate? ==> h.loop.Refreshing?)
        && (steps[0].Subscribe? ==> Issued(h.source, steps[0].cursor))
        && HubRefreshesOnly(Do(h, steps[0]), steps[1..]))
  }

  /** Then a captured head is still the source's head, so no issued cursor lies beyond it. */
  lemma {:induction false} OwnRefreshIsHonest(h: Hub, steps: seq<Step>)
    requires Ordered(h) && HubRefreshesOnly(h, steps) && (h.loop.Refreshed? ==> h.head == Head(h.source))
    ensures HonestRun(h, steps)
    decreases |steps|
  {
    if steps != [] {
      CapturedHeadStays(h, steps[0]);
      hide Do;
      OwnRefreshIsHonest(Do(h, steps[0]), steps[1..]);
    }
  }

  lemma CapturedHeadStays(h: Hub, step: Step)
    requires Ordered(h) && (h.loop.Refreshed? ==> h.head == Head(h.source))
    requires step.Append? || step.Retract? || step.Rotate? ==> h.loop.Refreshing?
    ensures Do(h, step).loop.Refreshed? ==> Do(h, step).head == Head(Do(h, step).source)
  {
    hide Terminate, Pull, TickAll, Anyone;
  }

  /** When only the hub refreshes the source, every issued cursor gets a gap-free stream. */
  lemma OwnRefreshIsGapFree(cfg: Config, steps: seq<Step>, id: nat)
    requires HubRefreshesOnly(Start(cfg), steps) && id in Run(Start(cfg), steps).clients
    ensures var h := Run(Start(cfg), steps);
            GapFree(h.source, h.clients[id])
  {
    hide Run, HonestRun, HubRefreshesOnly, GapFree;
    OwnRefreshIsHonest(Start(cfg), steps);
    EveryScheduleIsGapFree(cfg, steps, id);
  }

  lemma {:induction false} ConfigIsFixed(h: Hub, steps: seq<Step>)
    requires Ordered(h)
    ensures Run(h, steps).cfg == h.cfg
    decreases |steps|
  {
    if steps != [] {
      ConfigIsFixed(Do(h, steps[0]), steps[1..]);
    }
  }

  /**
   The first catch-up of a client keeps its stream gap-free exactly when its cursor does
   not lie beyond the head the view captured, which is what an honest schedule excludes.
   */
  lemma CatchUpIsGapFreeIff(cfg: Config, source: Source, c: Client, head: Cursor)
    requires WellFormed(cfg, c) && c.phase.Pending? && c.cursor == c.start && History(c) == [] && Capacity(cfg, c) > 0
    requires ValidCursor(source, head) && (c.cursor.Some? ==> ValidCursor(source, c.cursor.value))
    ensures GapFree(source, PumpCatchUp(cfg, c.(phase := CatchingUp(head)), source).client)
            <==> NotAhead(head, c.cursor)
  {
    var c1 := c.(phase := CatchingUp(head));
    assert WellFormed(cfg, c1) && History(c1) == History(c) && GapFree(source, c1);
    hide Matches, WellFormed, Exact;
    if NotAhead(head, c.cursor) {
      CatchUpKeeps(cfg, source, c1, head);
    } else {
      NewerCursorFallsBack(cfg, source, c1, head);
      AheadIsNotExact(source, c1.(phase := Live, cursor := Some(head)));
    }
  }

  /** Beyond the captured head there is nothing to read, and catch-up moves the cursor back to the head. */
  lemma NewerCursorFallsBack(cfg: Config, source: Source, c: Client, head: Cursor)
    requires c.phase == CatchingUp(head) && !c.terminated && Capacity(cfg, c) > 0
    requires ValidCursor(source, head) && c.cursor.Some? && ValidCursor(source, c.cursor.value)
             && !NotAhead(head, c.cursor)
    ensures PumpCatchUp(cfg, c, source) == Pumped(c.(cursor := Some(head), phase := Live))
  {
    hide Matches;
    var page := Read(source, head, c.filter, c.cursor, head, Capacity(cfg, c));
    assert page.Page? && page.items == [];
  }

  lemma AheadIsNotExact(source: Source, c: Client)
    requires !c.terminated && c.start.Some? && c.cursor.Some? && c.start.value.At? && c.cursor.value.At?
    requires c.cursor.value.position < c.start.value.position
    ensures !GapFree(source, c)
  {
    hide Genuine, Matches;
  }

  /** Such a client is then handed an entry from before its own start cursor. */
  lemma NewerCursorIsReplayed(cfg: Config, item: Item, f: Filter)
    requires cfg.maxItems == 2 && cfg.maxBytes == 100 && cfg.drainTimeout == 1 && (forall d :: cfg.bytes(d) == 1)
    requires f == Filter(None, None, None)
    ensures var source: Source := [Log([item, item], {})];
            var c0 := Fresh(f, Some(At(0, 2)));
            var c1 := Tick(cfg, c0, source, At(0, 1), Reading(0, 0)).client;
            var c2 := Tick(cfg, c1, source, At(0, 2), Reading(0, 0)).client;
            !NotAhead(At(0, 1), c0.cursor) && c2.queue == [Event(item, At(0, 2))] && !GapFree(source, c2)
  {
    var source: Source := [Log([item, item], {})];
    var c0 := Fresh(f, Some(At(0, 2)));
    var c1 := c0.(phase := Live, cursor := Some(At(0, 1)));
    NewerCursorFallsBack(cfg, source, c0.(phase := CatchingUp(At(0, 1))), At(0, 1));
    LiveTickReads(cfg, c1, source, At(0, 1), []);
    assert Tick(cfg, c0, source, At(0, 1), Reading(0, 0)).client == c1;
    assert Positions(source[0], f, 1, 2, 2) == [1];
    LiveTickReads(cfg, c1, source, At(0, 2), [1]);
    OneEventFits(cfg, c1, item, At(0, 2));
    var c2 := Tick(cfg, c1, source, At(0, 2), Reading(0, 0)).client;
    assert c2.queue == [Event(item, At(0, 2))];
    assert History(c2)[0] == Event(item, At(0, 2));
  }

  /** What a live client reads, given the visible positions up to the head. */
  lemma LiveTickReads(cfg: Config, c: Client, source: Source, head: Cursor, ps: seq<nat>)
    requires c.phase.Live? && !c.terminated && Capacity(cfg, c) > 0
    requires ValidCursor(source, head) && c.cursor.Some? && ValidCursor(source, c.cursor.value)
    requires ps == Positions(Current(source), c.filter, c.cursor.value.position, head.position, Capacity(cfg, c))
    ensures ps == [] ==> PumpLive(cfg, c, source, head) == Pumped(c.(cursor := Some(head)))
    ensures ps != [] ==>
              var page := Read(source, head, c.filter, c.cursor, head, Capacity(cfg, c));
              && page == Page(ItemsAt(Current(source), ps), CursorsAfter(Generation(source), ps), page.cursor)
              && PumpLive(cfg, c, source, head) == Pumped(Deliver(cfg, c, page, 0))
  {
    hide Positions, Matches;
  }

  lemma OneEventFits(cfg: Config, c: Client, item: Item, cursor: Cursor)
    requires c.waiters == [] && |c.queue| < cfg.maxItems
             && c.queuedBytes + cfg.bytes(Event(item, cursor)) <= cfg.maxBytes
    ensures forall last :: Deliver(cfg, c, Page([item], [cursor], last), 0)
              == c.(queue := c.queue + [Event(item, cursor)],
                    queuedBytes := c.queuedBytes + cfg.bytes(Event(item, cursor)), cursor := Some(cursor))
  {
  }

  // ----- Accounting, order and shape, with no condition on the subscribers -----

  lemma TickWellFormed(cfg: Config, c: Client, source: Source, head: Cursor, reading: Reading)
    requires WellFormed(cfg, c)
    ensures WellFormed(cfg, Tick(cfg, c, source, head, reading).client)
  {
    if !c.terminated {
      var c1 := if c.phase.Pending? then c.(phase := CatchingUp(head)) else c;
      assert WellFormed(cfg, c1);
      FeedWellFormed(cfg, c1, source, head);
      var fed := Feed(cfg, c, source, head);
      assert fed == Feed(cfg, c1, source, head);
      StallWellFormed(cfg, fed.client, reading);
    }
  }

  lemma FeedWellFormed(cfg: Config, c: Client, source: Source, head: Cursor)
    requires WellFormed(cfg, c) && !c.terminated && !c.phase.Pending?
    ensures WellFormed(cfg, Feed(cfg, c, source, head).client)
  {
    hide PumpCatchUp, PumpLive;
    PumpWellFormed(cfg, c, source, head);
    if c.phase.CatchingUp? {
      var caught := PumpCatchUp(cfg, c, source);
      if caught.client.phase.Live? { PumpWellFormed(cfg, caught.client, source, head); }
    }
  }

  lemma StallWellFormed(cfg: Config, c: Client, reading: Reading)
    requires WellFormed(cfg, c)
    ensures WellFormed(cfg, CheckStall(cfg, c, reading))
  {
    if !c.terminated && c.queue != [] {
      var since := if c.blockedSince.Some? then c.blockedSince.value else reading.first;
      TerminateKeeps(cfg, c.(blockedSince := Some(since)), None);
    }
  }

  lemma PumpWellFormed(cfg: Config, c: Client, source: Source, head: Cursor)
    requires WellFormed(cfg, c) && !c.terminated
    ensures c.phase.CatchingUp? ==> WellFormed(cfg, PumpCatchUp(cfg, c, source).client)
    ensures WellFormed(cfg, PumpLive(cfg, c, source, head).client)
  {
    hide Read, Deliver, Terminate, WellFormed;
    if Capacity(cfg, c) > 0 {
      PageWellFormed(cfg, c, Read(source, head, c.filter, c.cursor, head, Capacity(cfg, c)), head);
      if c.phase.CatchingUp? {
        var captured := c.phase.head;
        PageWellFormed(cfg, c, Read(source, captured, c.filter, c.cursor, captured, Capacity(cfg, c)), captured);
      }
    }
  }

  lemma PageWellFormed(cfg: Config, c: Client, page: Page, head: Cursor)
    requires WellFormed(cfg, c) && !c.terminated
    requires page.Page? ==> |page.items| == |page.itemCursors|
    ensures WellFormed(cfg, Terminate(cfg, c, Some(ResetNotice)))
    ensures page.Page? ==>
              var c' := Deliver(cfg, c, page, 0);
              && WellFormed(cfg, c')
              && (!c'.terminated ==>
                    WellFormed(cfg, c'.(cursor := Some(head), phase := Live))
                    && WellFormed(cfg, c'.(cursor := Some(head))))
  {
    hide Deliver, Terminate, Received, QueueBytes, WellFormed, History;
    TerminateKeeps(cfg, c, Some(ResetNotice));
    if page.Page? {
      DeliverKeeps(cfg, c, page, 0);
      var c' := Deliver(cfg, c, page, 0);
      if !c'.terminated { PlaceIsFree(cfg, c', Some(head), Live); }
    }
  }

  lemma PlaceIsFree(cfg: Config, c: Client, cursor: Option<Cursor>, phase: Phase)
    requires WellFormed(cfg, c) && !c.terminated && !phase.Done?
    ensures WellFormed(cfg, c.(cursor := cursor, phase := phase)) && WellFormed(cfg, c.(cursor := cursor))
  {
    hide QueueBytes;
  }

  ghost predicate AllWellFormed(h: Hub) {
    Ordered(h) && forall id :: id in h.clients ==> WellFormed(h.cfg, h.clients[id])
  }

  lemma StepWellFormed(h: Hub, step: Step)
    requires AllWellFormed(h)
    ensures AllWellFormed(Do(h, step))
  {
    hide WellFormed, Tick, Terminate, Pull;
    if Possible(h, step) {
      var h' := Do(h, step);
      match step
      case Subscribe(_, filter, cursor, _) =>
        FreshWellFormed(h.cfg, filter, cursor);
        TerminateKeeps(h.cfg, Fresh(filter, cursor), None);
      case PullNext(id) => PullKeeps(h.cfg, h.clients[id]);
      case Abort(id) => TerminateKeeps(h.cfg, h.clients[id], None);
      case Close => TerminateAllWellFormed(h, None);
      case RefreshFails => TerminateAllWellFormed(h, Some(ErrorNotice));
      case RunTick(clock) => RunTickWellFormed(h, clock);
      case _ =>
    }
  }

  lemma TerminateAllWellFormed(h: Hub, final: Option<Delivery>)
    requires AllWellFormed(h) && (final.Some? ==> !final.value.Event?)
    ensures forall id :: id in h.clients ==> WellFormed(h.cfg, TerminateAll(h.cfg, h.clients, final)[id])
  {
    forall id | id in h.clients { TerminateKeeps(h.cfg, h.clients[id], final); }
  }

  lemma RunTickWellFormed(h: Hub, clock: nat -> Reading)
    requires AllWellFormed(h)
    ensures forall id :: id in Sweep(h, clock).clients ==> WellFormed(h.cfg, Sweep(h, clock).clients[id])
  {
    hide WellFormed, Tick;
    TickAllKeys(h.cfg, h.source, h.head, clock, h.clients, h.order);
    forall id | id in h.clients ensures WellFormed(h.cfg, Sweep(h, clock).clients[id]) {
      TickAllEach(h.cfg, h.source, h.head, clock, h.clients, h.order, id);
      TickWellFormed(h.cfg, h.clients[id], h.source, h.head, clock(id));
    }
  }

  lemma {:induction false} RunWellFormed(h: Hub, steps: seq<Step>)
    requires AllWellFormed(h)
    ensures AllWellFormed(Run(h, steps))
    decreases |steps|
  {
    hide WellFormed, Do;
    if steps != [] {
      StepWellFormed(h, steps[0]);
      RunWellFormed(Do(h, steps[0]), steps[1..]);
    }
  }

  /**
   In every reachable state the byte count is the sum over the queue, both limits hold,
   backlog and parked pulls exclude each other, and the pulls are answered in order.
   */
  lemma EveryScheduleKeepsAccounts(cfg: Config, steps: seq<Step>, id: nat)
    requires id in Run(Start(cfg), steps).clients
    ensures var c := Run(Start(cfg), steps).clients[id];
            && PullOrder(c)
            && (c.queue == [] || c.waiters == [])
            && (!c.terminated ==>
                  && c.queuedBytes == QueueBytes(cfg, c.queue)
                  && (c.queue != [] ==> |c.queue| <= cfg.maxItems && c.queuedBytes <= cfg.maxBytes))
  {
    RunWellFormed(Start(cfg), steps);
    ConfigIsFixed(Start(cfg), steps);
  }

  /** Every stream is items, then at most one notice, then the end forever. */
  lemma EveryStreamHasOneEnding(cfg: Config, steps: seq<Step>, id: nat)
    requires id in Run(Start(cfg), steps).clients
    ensures var rs := Run(Start(cfg), steps).clients[id].resolutions;
            forall i, j :: 0 <= i < j < |rs| && !IsEvent(rs[i].answer) ==> rs[j].answer == Finished
  {
    RunWellFormed(Start(cfg), steps);
    ConfigIsFixed(Start(cfg), steps);
  }
}
