/**
 Subscribers do not disturb each other, and when the hub closes one: the byte
 budget, the stall rule, and resuming after a loss.
 */
module HubIsolation {
  import opened Options
  import opened EventSource
  import opened HubClientSpec
  import opened HubStream
  import opened HubRuns
  import opened HubTheorems

  // ----- Resuming -----

  /**
   A client that lost its backlog and comes back with the cursor of the last item it
   received continues without a gap and without a repeat.
   */
  lemma ResumeIsSeamless(cfg: Config, steps: seq<Step>, a: nat, b: nat, g: nat, position: nat)
    requires HonestRun(Start(cfg), steps)
    requires var h := Run(Start(cfg), steps);
             && a in h.clients && b in h.clients && h.clients[a].terminated
             && h.clients[b].filter == h.clients[a].filter
             && h.clients[b].start == Some(At(g, position))
             && var ds := Received(h.clients[a].resolutions); ds != [] && ds[|ds| - 1].cursor == At(g, position)
    ensures var h := Run(Start(cfg), steps);
            var first, second := h.clients[a], h.clients[b];
            && g < |h.source|
            && exists end: nat :: Exact(h.source[g], first.filter, g, StartPosition(first), end,
                                        Received(first.resolutions) + History(second))
  {
    hide Exact, Matches, Run, HonestRun, GapFree, Received, History, StartPosition;
    var h := Run(Start(cfg), steps);
    EveryScheduleIsGapFree(cfg, steps, a);
    EveryScheduleIsGapFree(cfg, steps, b);
    StreamsJoin(h.source, h.clients[a], h.clients[b], g, position);
  }

  lemma StreamsJoin(source: Source, first: Client, second: Client, g: nat, position: nat)
    requires GapFree(source, first) && GapFree(source, second) && first.terminated && second.filter == first.filter
    requires second.start == Some(At(g, position))
    requires var ds := Received(first.resolutions); ds != [] && ds[|ds| - 1].cursor == At(g, position)
    ensures g < |source|
    ensures exists end: nat ::
              Exact(source[g], first.filter, g, StartPosition(first), end,
                    Received(first.resolutions) + History(second))
  {
    hide Exact, Matches, Received;
    var ds, es := Received(first.resolutions), History(second);
    assert History(first) == ds;
    if es == [] {
      assert ds + es == ds;
      assert Exact(source[g], first.filter, g, StartPosition(first), position, ds + es);
    } else {
      var end := if second.terminated then es[|es| - 1].cursor.position else second.cursor.value.position;
      ExactJoin(source[g], first.filter, g, StartPosition(first), position, end, ds, es);
    }
  }

  // ----- The byte budget -----

  /**
   Delivering a page that fits the item budget drops the client exactly when what is left
   of it after the parked pulls does not fit the byte budget.
   */
  lemma {:induction false} DeliverDropsIff(cfg: Config, c: Client, page: Page, i: nat)
    requires WellFormed(cfg, c) && !c.terminated
    requires page.Page? && i <= |page.items| == |page.itemCursors|
    requires |c.queue| + |page.items| - i <= cfg.maxItems
    ensures Deliver(cfg, c, page, i).terminated
            <==> |c.waiters| < |page.items| - i
                 && QueueBytes(cfg, c.queue) + QueueBytes(cfg, Owed(page, i)[|c.waiters|..]) > cfg.maxBytes
    decreases |page.items| - i
  {
    if i < |page.items| {
      hide WellFormed, Terminate, Owed, Offer, QueueBytes, History;
      var d := Event(page.items[i], page.itemCursors[i]);
      var offered := Offer(cfg, c, d);
      OwedStep(cfg, page, i, |c.waiters|);
      OfferAccounts(cfg, c, d);
      TerminateKeeps(cfg, c, None);
      if offered.Some? {
        OfferKeeps(cfg, c, d);
        CursorMoves(cfg, offered.value, Some(page.itemCursors[i]));
        DeliverDropsIff(cfg, offered.value.(cursor := Some(page.itemCursors[i])), page, i + 1);
      }
    }
  }

  /** An offer goes to a parked pull, or into the queue while the byte budget lasts. */
  lemma OfferAccounts(cfg: Config, c: Client, d: Delivery)
    requires WellFormed(cfg, c) && !c.terminated && |c.queue| < cfg.maxItems
    ensures Offer(cfg, c, d).None? <==> c.waiters == [] && QueueBytes(cfg, c.queue) + cfg.bytes(d) > cfg.maxBytes
    ensures c.waiters != [] ==>
              c.queue == [] && Offer(cfg, c, d).value.queue == [] && |Offer(cfg, c, d).value.waiters| == |c.waiters| - 1
    ensures c.waiters == [] && Offer(cfg, c, d).Some? ==>
              && Offer(cfg, c, d).value.waiters == [] && |Offer(cfg, c, d).value.queue| == |c.queue| + 1
              && QueueBytes(cfg, Offer(cfg, c, d).value.queue) == QueueBytes(cfg, c.queue) + cfg.bytes(d)
  {
    Accounts(cfg, c);
    hide WellFormed;
    assert (c.queue + [d])[..|c.queue|] == c.queue;
  }

  /** What is owed from here on: this entry first, and parked pulls take from the front. */
  lemma OwedStep(cfg: Config, page: Page, i: nat, waiters: nat)
    requires page.Page? && i < |page.items| == |page.itemCursors|
    ensures |Owed(page, i)| == |page.items| - i && |Owed(page, i + 1)| == |page.items| - i - 1
    ensures Owed(page, i)[0..] == Owed(page, i) && Owed(page, i + 1)[0..] == Owed(page, i + 1)
    ensures QueueBytes(cfg, Owed(page, i))
            == cfg.bytes(Event(page.items[i], page.itemCursors[i])) + QueueBytes(cfg, Owed(page, i + 1))
    ensures 0 < waiters < |page.items| - i ==> Owed(page, i)[waiters..] == Owed(page, i + 1)[waiters - 1..]
  {
    assert Owed(page, i) == [Event(page.items[i], page.itemCursors[i])] + Owed(page, i + 1);
    assert Owed(page, i)[1..] == Owed(page, i + 1);
    QueueBytesTail(cfg, Owed(page, i));
  }

  lemma Accounts(cfg: Config, c: Client)
    requires WellFormed(cfg, c) && !c.terminated
    ensures c.queuedBytes == QueueBytes(cfg, c.queue) && (c.queue == [] || c.waiters == [])
  {
  }

  /** A page read for this client never overruns its item budget. */
  lemma PageFitsItems(cfg: Config, c: Client, source: Source, head: Cursor)
    requires Capacity(cfg, c) > 0 && Read(source, head, c.filter, c.cursor, head, Capacity(cfg, c)).Page?
    ensures |c.queue| + |Read(source, head, c.filter, c.cursor, head, Capacity(cfg, c)).items| <= cfg.maxItems
  {
  }

  // ----- The stall rule -----

  /** What a tick finds after feeding a client: whether a backlog remains, and the clock. */
  datatype Mark = Mark(backlog: bool, reading: Reading)

  datatype OwnStep = OwnPull | OwnTick(source: Source, head: Cursor, reading: Reading)

  function OwnNext(cfg: Config, c: Client, step: OwnStep): Client {
    match step
    case OwnPull => Pull(cfg, c)
    case OwnTick(source, head, reading) => Tick(cfg, c, source, head, reading).client
  }

  function OwnRun(cfg: Config, c: Client, steps: seq<OwnStep>): Client {
    if steps == [] then c else OwnNext(cfg, OwnRun(cfg, c, steps[..|steps| - 1]), steps[|steps| - 1])
  }

  /** The marks of all ticks of a run that reached their stall check, oldest first. */
  function Marks(cfg: Config, c: Client, steps: seq<OwnStep>): seq<Mark> {
    if steps == [] then []
    else
      var before := OwnRun(cfg, c, steps[..|steps| - 1]);
      var marks := Marks(cfg, c, steps[..|steps| - 1]);
      match steps[|steps| - 1]
      case OwnPull => marks
      case OwnTick(source, head, reading) =>
        var fed := Feed(cfg, before, source, head);
        if fed.Failed? then marks else marks + [Mark(fed.client.queue != [], reading)]
  }

  /** The clock value at which the current unbroken row of backlogged ticks began. */
  function BlockedSince(marks: seq<Mark>): Option<int> {
    if marks == [] || !marks[|marks| - 1].backlog then None
    else
      var earlier := BlockedSince(marks[..|marks| - 1]);
      if earlier.Some? then earlier else Some(marks[|marks| - 1].reading.first)
  }

  lemma {:induction false} DeliverKeepsClock(cfg: Config, c: Client, page: Page, i: nat)
    requires page.Page? && i <= |page.items|
    ensures !Deliver(cfg, c, page, i).terminated ==> Deliver(cfg, c, page, i).blockedSince == c.blockedSince
    decreases |page.items| - i
  {
    if i < |page.items| && PageCursor(page, i).Some? {
      var cursor := PageCursor(page, i);
      var offered := Offer(cfg, c, Event(page.items[i], cursor.value));
      if offered.Some? { DeliverKeepsClock(cfg, offered.value.(cursor := cursor), page, i + 1); }
      else { TerminateEnds(cfg, c, None); }
    } else if i < |page.items| {
      TerminateEnds(cfg, c, Some(ErrorNotice));
    }
  }

  lemma FeedKeepsClock(cfg: Config, c: Client, source: Source, head: Cursor)
    requires WellFormed(cfg, c) && !c.terminated
    ensures var fed := Feed(cfg, c, source, head).client;
            !fed.terminated ==> fed.blockedSince == c.blockedSince
  {
    hide Read, Deliver, Terminate;
    var c1 := if c.phase.Pending? then c.(phase := CatchingUp(head)) else c;
    var caught := if c1.phase.CatchingUp? then PumpCatchUp(cfg, c1, source) else Pumped(c1);
    assert WellFormed(cfg, c1);
    PumpWellFormed(cfg, c1, source, head);
    if c1.phase.CatchingUp? { PumpKeepsClock(cfg, c1, source, c1.phase.head); }
    PumpKeepsClock(cfg, caught.client, source, head);
  }

  lemma PumpKeepsClock(cfg: Config, c: Client, source: Source, head: Cursor)
    ensures var page := Read(source, head, c.filter, c.cursor, head, Capacity(cfg, c));
            page.Page? && !Deliver(cfg, c, page, 0).terminated ==>
              Deliver(cfg, c, page, 0).blockedSince == c.blockedSince
    ensures Terminate(cfg, c, Some(ResetNotice)).terminated
  {
    var page := Read(source, head, c.filter, c.cursor, head, Capacity(cfg, c));
    if page.Page? { DeliverKeepsClock(cfg, c, page, 0); }
    TerminateEnds(cfg, c, Some(ResetNotice));
  }

  /** The stall clock of a live run is the start of its current row of backlogged ticks. */
  lemma {:induction false} StallClock(cfg: Config, c: Client, steps: seq<OwnStep>)
    requires WellFormed(cfg, c) && c.blockedSince == None
    ensures WellFormed(cfg, OwnRun(cfg, c, steps))
    ensures !OwnRun(cfg, c, steps).terminated ==>
              OwnRun(cfg, c, steps).blockedSince == BlockedSince(Marks(cfg, c, steps))
    decreases |steps|
  {
    if steps != [] {
      var rest := steps[..|steps| - 1];
      StallClock(cfg, c, rest);
      var before := OwnRun(cfg, c, rest);
      match steps[|steps| - 1]
      case OwnPull => PullKeeps(cfg, before);
      case OwnTick(source, head, reading) =>
        TickWellFormed(cfg, before, source, head, reading);
        StallTick(cfg, before, source, head, reading, Marks(cfg, c, rest));
    }
  }

  lemma StallTick(cfg: Config, c: Client, source: Source, head: Cursor, reading: Reading, marks: seq<Mark>)
    requires WellFormed(cfg, c) && (!c.terminated ==> c.blockedSince == BlockedSince(marks))
    ensures var fed := Feed(cfg, c, source, head);
            var all := marks + [Mark(fed.client.queue != [], reading)];
            var c' := Tick(cfg, c, source, head, reading).client;
            && (!c'.terminated ==> c'.blockedSince == BlockedSince(if fed.Pumped? then all else marks))
            && (!c.terminated && fed.Pumped? && !fed.client.terminated ==>
                  (c'.terminated
                   <==> BlockedSince(all).Some? && reading.second - BlockedSince(all).value >= cfg.drainTimeout))
  {
    hide Feed, Terminate;
    var fed := Feed(cfg, c, source, head);
    var all := marks + [Mark(fed.client.queue != [], reading)];
    assert all[..|marks|] == marks;
    if !c.terminated {
      FeedKeepsClock(cfg, c, source, head);
      if fed.Pumped? && !fed.client.terminated {
        TerminateEnds(cfg, fed.client.(blockedSince := BlockedSince(all)), None);
      }
    }
  }

  /** The clock never runs backwards, within a tick or between ticks. */
  ghost predicate Monotone(marks: seq<Mark>) {
    && (forall i :: 0 <= i < |marks| ==> marks[i].reading.first <= marks[i].reading.second)
    && (forall i, j :: 0 <= i < j < |marks| ==> marks[i].reading.second <= marks[j].reading.first)
  }

  ghost predicate Backlogged(marks: seq<Mark>, from: nat) {
    forall k :: from <= k < |marks| ==> marks[k].backlog
  }

  /** The recorded start is the start of a backlogged row that reaches to the end. */
  lemma {:induction false} BlockedSinceStartsRow(marks: seq<Mark>) returns (j: nat)
    requires BlockedSince(marks).Some?
    ensures j < |marks| && Backlogged(marks, j) && marks[j].reading.first == BlockedSince(marks).value
    decreases |marks|
  {
    var n := |marks| - 1;
    var earlier := marks[..n];
    if BlockedSince(earlier).Some? {
      j := BlockedSinceStartsRow(earlier);
      forall k | j <= k < |marks| ensures marks[k].backlog { if k < n { assert earlier[k] == marks[k]; } }
    } else {
      j := n;
    }
  }

  /** Of all backlogged rows that reach to the end, it is the earliest. */
  lemma {:induction false} BlockedSinceIsEarliest(marks: seq<Mark>, k: nat)
    requires Monotone(marks) && k < |marks| && Backlogged(marks, k)
    ensures BlockedSince(marks).Some? && BlockedSince(marks).value <= marks[k].reading.first
    decreases |marks|
  {
    var n := |marks| - 1;
    var earlier := marks[..n];
    if k < n {
      forall m | k <= m < n ensures earlier[m].backlog { assert earlier[m] == marks[m]; }
      BlockedSinceIsEarliest(earlier, k);
    } else if BlockedSince(earlier).Some? {
      var j := BlockedSinceStartsRow(earlier);
      assert earlier[j] == marks[j];
    }
  }

  /** A backlogged row reaches from at least a drain budget ago to the end. */
  ghost predicate StalledAcross(marks: seq<Mark>, second: int, budget: int) {
    exists j :: 0 <= j < |marks| && Backlogged(marks, j) && second - marks[j].reading.first >= budget
  }

  /** The recorded start decides whether such a row exists. */
  lemma StalledIffBlocked(marks: seq<Mark>, second: int, budget: int)
    requires Monotone(marks)
    ensures StalledAcross(marks, second, budget)
            <==> BlockedSince(marks).Some? && second - BlockedSince(marks).value >= budget
  {
    hide BlockedSince, Monotone, Backlogged;
    if BlockedSince(marks).Some? { var j := BlockedSinceStartsRow(marks); }
    if StalledAcross(marks, second, budget) {
      var j :| 0 <= j < |marks| && Backlogged(marks, j) && second - marks[j].reading.first >= budget;
      BlockedSinceIsEarliest(marks, j);
    }
  }

  /**
   With a monotone clock the stall rule closes a client exactly when a backlog was left at
   the end of each of its ticks across a span of at least the drain budget.
   */
  lemma StallRule(cfg: Config, filter: Filter, cursor: Option<Cursor>, steps: seq<OwnStep>,
                  source: Source, head: Cursor, reading: Reading)
    requires var c := Fresh(filter, cursor);
             var before := OwnRun(cfg, c, steps);
             var fed := Feed(cfg, before, source, head);
             && !before.terminated && fed.Pumped? && !fed.client.terminated
             && Monotone(Marks(cfg, c, steps) + [Mark(fed.client.queue != [], reading)])
    ensures var c := Fresh(filter, cursor);
            var before := OwnRun(cfg, c, steps);
            var marks := Marks(cfg, c, steps) + [Mark(Feed(cfg, before, source, head).client.queue != [], reading)];
            Tick(cfg, before, source, head, reading).client.terminated
            <==> StalledAcross(marks, reading.second, cfg.drainTimeout)
  {
    FreshWellFormed(cfg, filter, cursor);
    hide Feed, Tick, OwnRun, Marks, WellFormed, BlockedSince, Monotone, StalledAcross;
    var c := Fresh(filter, cursor);
    var before := OwnRun(cfg, c, steps);
    StallClock(cfg, c, steps);
    StallTick(cfg, before, source, head, reading, Marks(cfg, c, steps));
    var marks := Marks(cfg, c, steps) + [Mark(Feed(cfg, before, source, head).client.queue != [], reading)];
    StalledIffBlocked(marks, reading.second, cfg.drainTimeout);
  }

  /** A live client that has read everything is fed nothing. */
  lemma CaughtUpIsFedNothing(cfg: Config, c: Client, source: Source, head: Cursor)
    requires c.phase.Live? && !c.terminated && c.cursor == Some(head) && ValidCursor(source, head)
    ensures Feed(cfg, c, source, head) == Pumped(c)
  {
    if Capacity(cfg, c) > 0 { LiveTickReads(cfg, c, source, head, []); }
  }

  lemma CaughtUpTick(cfg: Config, c: Client, source: Source, head: Cursor, now: int, since: int)
    requires c.phase.Live? && !c.terminated && c.cursor == Some(head) && ValidCursor(source, head) && c.queue != []
    requires since == if c.blockedSince.Some? then c.blockedSince.value else now
    ensures Tick(cfg, c, source, head, Reading(now, now)).client
            == if now - since >= cfg.drainTimeout then Terminate(cfg, c.(blockedSince := Some(since)), None)
               else c.(blockedSince := Some(since))
  {
    hide Feed, Terminate;
    CaughtUpIsFedNothing(cfg, c, source, head);
  }

  /**
   A consumer that keeps draining is closed all the same: with three items queued and one of
   them taken between every two ticks, the third tick discards the rest once the first lies
   a drain budget back.  Only an empty queue at the end of a tick would have cleared the clock.
   */
  lemma DrainingClientIsClosed(cfg: Config, c: Client, source: Source, head: Cursor, t0: int, t1: int, t2: int)
    requires WellFormed(cfg, c) && c.phase.Live? && c.cursor == Some(head) && ValidCursor(source, head)
    requires |c.queue| == 3 && c.blockedSince == None && cfg.drainTimeout > 0
    requires t1 - t0 < cfg.drainTimeout <= t2 - t0
    ensures var c1 := Pull(cfg, Tick(cfg, c, source, head, Reading(t0, t0)).client);
            var c2 := Pull(cfg, Tick(cfg, c1, source, head, Reading(t1, t1)).client);
            var c3 := Tick(cfg, c2, source, head, Reading(t2, t2)).client;
            && c1.queue == c.queue[1..] && c2.queue == c.queue[2..] && !c2.terminated
            && c3.terminated && History(c3) == History(c)[..|History(c)| - 1]
  {
    assert !c.terminated && c.waiters == [];
    hide Tick, Terminate, WellFormed, Received;
    CaughtUpTick(cfg, c, source, head, t0, t0);
    var b0 := c.(blockedSince := Some(t0));
    var c1 := Pull(cfg, b0);
    CaughtUpTick(cfg, c1, source, head, t1, t0);
    var c2 := Pull(cfg, c1);
    CaughtUpTick(cfg, c2, source, head, t2, t0);
    assert c2.(blockedSince := Some(t0)) == c2;
    DrainedHistory(cfg, c, b0);
  }

  lemma DrainedHistory(cfg: Config, c: Client, b0: Client)
    requires WellFormed(cfg, c) && !c.terminated && |c.queue| == 3 && b0 == c.(blockedSince := b0.blockedSince)
    ensures History(Terminate(cfg, Pull(cfg, Pull(cfg, b0)), None)) == History(c)[..|History(c)| - 1]
    ensures Terminate(cfg, Pull(cfg, Pull(cfg, b0)), None).terminated
  {
    assert WellFormed(cfg, b0) && History(b0) == History(c);
    var c1 := Pull(cfg, b0);
    var c2 := Pull(cfg, c1);
    assert !c2.terminated && c2.queue == [c.queue[2]];
    hide WellFormed, Pull, Terminate, Received;
    PullKeeps(cfg, b0);
    PullKeeps(cfg, c1);
    TerminateKeeps(cfg, c2, None);
    assert History(c2) == Received(c2.resolutions) + c2.queue;
    assert History(c2)[..|History(c2)| - 1] == Received(c2.resolutions);
  }
}
