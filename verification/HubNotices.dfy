/**
 The byte count of a client that has ended.  Termination queues its notice without
 counting it, and handing the notice over subtracts its size.
 */
module HubNotices {
  import opened Options
  import opened EventSource
  import opened HubClientSpec
  import opened HubRuns
  import opened HubTheorems

  /** The size of the notices among the answers. */
  function NoticeBytes(cfg: Config, rs: seq<Resolution>): nat {
    if rs == [] then 0
    else
      var last := rs[|rs| - 1].answer;
      NoticeBytes(cfg, rs[..|rs| - 1]) + if last.Value? && !last.delivery.Event? then cfg.bytes(last.delivery) else 0
  }

  lemma NoticeBytesSnoc(cfg: Config, rs: seq<Resolution>, r: Resolution)
    ensures NoticeBytes(cfg, rs + [r])
            == NoticeBytes(cfg, rs) + if r.answer.Value? && !r.answer.delivery.Event?
                                      then cfg.bytes(r.answer.delivery) else 0
  {
    assert (rs + [r])[..|rs|] == rs;
  }

  lemma {:induction false} EventsAreNoNotices(cfg: Config, rs: seq<Resolution>)
    requires forall i :: 0 <= i < |rs| ==> IsEvent(rs[i].answer)
    ensures NoticeBytes(cfg, rs) == 0
  {
    if rs != [] { EventsAreNoNotices(cfg, rs[..|rs| - 1]); }
  }

  /** An ended client's count has lost exactly what its notice was worth. */
  ghost predicate Deducted(cfg: Config, c: Client) {
    c.terminated ==> c.queuedBytes + NoticeBytes(cfg, c.resolutions) == 0
  }

  lemma {:induction false} FlushDeducts(cfg: Config, c: Client)
    requires Closing(c) && Deducted(cfg, c)
    ensures Deducted(cfg, Flush(cfg, c))
    decreases |c.waiters|
  {
    if c.waiters != [] {
      AnswerParkedCloses(cfg, c);
      AnswerDeducts(cfg, c);
      hide Closing, Deducted, AnswerParked;
      FlushDeducts(cfg, AnswerParked(cfg, c));
    }
  }

  lemma AnswerDeducts(cfg: Config, c: Client)
    requires Closing(c) && Deducted(cfg, c) && c.waiters != []
    ensures Deducted(cfg, AnswerParked(cfg, c)) && |AnswerParked(cfg, c).waiters| < |c.waiters|
            && AnswerParked(cfg, c).terminated
  {
    hide NoticeBytes, PullOrder, StreamShape;
    NoticeBytesSnoc(cfg, c.resolutions,
                    Resolution(c.waiters[0], if c.queue != [] then Value(c.queue[0]) else Finished));
  }

  lemma TerminateDeducts(cfg: Config, c: Client, final: Option<Delivery>)
    requires WellFormed(cfg, c) && Deducted(cfg, c) && (final.Some? ==> !final.value.Event?)
    ensures Deducted(cfg, Terminate(cfg, c, final))
  {
    if !c.terminated {
      var c1 := c.(terminated := true, phase := Done, queuedBytes := 0, queue := if final.Some? then [final.value]
                                                                                 else []);
      EventsAreNoNotices(cfg, c.resolutions);
      hide NoticeBytes, Flush;
      FlushDeducts(cfg, c1);
    }
  }

  lemma PullDeducts(cfg: Config, c: Client)
    requires WellFormed(cfg, c) && Deducted(cfg, c)
    ensures Deducted(cfg, Pull(cfg, c))
  {
    hide NoticeBytes;
    NoticeBytesSnoc(cfg, c.resolutions, Resolution(c.pulls, if c.queue != [] then Value(c.queue[0]) else Finished));
  }

  lemma {:induction false} DeliverDeducts(cfg: Config, c: Client, page: Page, i: nat)
    requires WellFormed(cfg, c) && !c.terminated && page.Page? && i <= |page.items| == |page.itemCursors|
    ensures Deducted(cfg, Deliver(cfg, c, page, i))
    decreases |page.items| - i
  {
    hide WellFormed, Offer, Terminate, History, NoticeBytes;
    if i < |page.items| {
      var d := Event(page.items[i], page.itemCursors[i]);
      TerminateDeducts(cfg, c, None);
      if Offer(cfg, c, d).Some? {
        OfferKeeps(cfg, c, d);
        CursorMoves(cfg, Offer(cfg, c, d).value, Some(page.itemCursors[i]));
        DeliverDeducts(cfg, Offer(cfg, c, d).value.(cursor := Some(page.itemCursors[i])), page, i + 1);
      }
    }
  }

  lemma PumpDeducts(cfg: Config, c: Client, source: Source, head: Cursor)
    requires WellFormed(cfg, c) && !c.terminated
    ensures c.phase.CatchingUp? ==> Deducted(cfg, PumpCatchUp(cfg, c, source).client)
    ensures Deducted(cfg, PumpLive(cfg, c, source, head).client)
  {
    hide Read, Deliver, Terminate, WellFormed, NoticeBytes;
    TerminateDeducts(cfg, c, Some(ResetNotice));
    var live := Read(source, head, c.filter, c.cursor, head, Capacity(cfg, c));
    if live.Page? { DeliverDeducts(cfg, c, live, 0); }
    if c.phase.CatchingUp? {
      var page := Read(source, c.phase.head, c.filter, c.cursor, c.phase.head, Capacity(cfg, c));
      if page.Page? { DeliverDeducts(cfg, c, page, 0); }
    }
  }

  lemma FeedDeducts(cfg: Config, c: Client, source: Source, head: Cursor)
    requires WellFormed(cfg, c) && !c.terminated
    ensures Deducted(cfg, Feed(cfg, c, source, head).client)
  {
    var c1 := if c.phase.Pending? then c.(phase := CatchingUp(head)) else c;
    assert WellFormed(cfg, c1);
    PumpWellFormed(cfg, c1, source, head);
    PumpDeducts(cfg, c1, source, head);
    if c1.phase.CatchingUp? {
      var caught := PumpCatchUp(cfg, c1, source).client;
      assert caught.phase.Live? ==> !caught.terminated;
      hide PumpCatchUp, PumpLive, WellFormed, Deducted;
      if caught.phase.Live? { PumpDeducts(cfg, caught, source, head); }
    }
  }

  lemma TickDeducts(cfg: Config, c: Client, source: Source, head: Cursor, reading: Reading)
    requires WellFormed(cfg, c) && Deducted(cfg, c)
    ensures Deducted(cfg, Tick(cfg, c, source, head, reading).client)
  {
    if !c.terminated {
      FeedDeducts(cfg, c, source, head);
      FeedKeepsShape(cfg, c, source, head);
      hide Feed, WellFormed, NoticeBytes, Terminate;
      var fed := Feed(cfg, c, source, head).client;
      if !fed.terminated && fed.queue != [] {
        var since := if fed.blockedSince.Some? then fed.blockedSince.value else reading.first;
        var c1 := fed.(blockedSince := Some(since));
        ClockIsFree(cfg, fed, Some(since));
        TerminateDeducts(cfg, c1, None);
      }
    }
  }

  lemma FeedKeepsShape(cfg: Config, c: Client, source: Source, head: Cursor)
    requires WellFormed(cfg, c) && !c.terminated
    ensures WellFormed(cfg, Feed(cfg, c, source, head).client)
  {
    var c1 := if c.phase.Pending? then c.(phase := CatchingUp(head)) else c;
    assert WellFormed(cfg, c1) && Feed(cfg, c, source, head) == Feed(cfg, c1, source, head);
    FeedWellFormed(cfg, c1, source, head);
  }

  lemma ClockIsFree(cfg: Config, c: Client, since: Option<int>)
    requires WellFormed(cfg, c)
    ensures WellFormed(cfg, c.(blockedSince := since))
  {
  }

  // ----- Over every schedule -----

  ghost predicate AllDeducted(h: Hub) {
    AllWellFormed(h) && forall id :: id in h.clients ==> Deducted(h.cfg, h.clients[id])
  }

  lemma StepDeducts(h: Hub, step: Step)
    requires AllDeducted(h)
    ensures AllDeducted(Do(h, step))
  {
    hide WellFormed, Tick, Terminate, Pull, NoticeBytes, Deducted;
    StepWellFormed(h, step);
    if Possible(h, step) {
      match step
      case Subscribe(_, filter, cursor, _) =>
        FreshWellFormed(h.cfg, filter, cursor);
        FreshDeducts(h.cfg, filter, cursor);
        TerminateDeducts(h.cfg, Fresh(filter, cursor), None);
      case PullNext(id) => PullDeducts(h.cfg, h.clients[id]);
      case Abort(id) => TerminateDeducts(h.cfg, h.clients[id], None);
      case Close => forall id | id in h.clients { TerminateDeducts(h.cfg, h.clients[id], None); }
      case RefreshFails => forall id | id in h.clients { TerminateDeducts(h.cfg, h.clients[id], Some(ErrorNotice)); }
      case RunTick(clock) => SweepDeducts(h, clock);
      case _ =>
    }
  }

  lemma FreshDeducts(cfg: Config, filter: Filter, cursor: Option<Cursor>)
    ensures Deducted(cfg, Fresh(filter, cursor))
  {
  }

  lemma SweepDeducts(h: Hub, clock: nat -> Reading)
    requires AllDeducted(h)
    ensures forall id :: id in Sweep(h, clock).clients ==> Deducted(h.cfg, Sweep(h, clock).clients[id])
  {
    hide WellFormed, Tick, Deducted;
    TickAllKeys(h.cfg, h.source, h.head, clock, h.clients, h.order);
    forall id | id in h.clients ensures Deducted(h.cfg, Sweep(h, clock).clients[id]) {
      TickAllEach(h.cfg, h.source, h.head, clock, h.clients, h.order, id);
      TickDeducts(h.cfg, h.clients[id], h.source, h.head, clock(id));
    }
  }

  lemma {:induction false} RunDeducts(h: Hub, steps: seq<Step>)
    requires AllDeducted(h)
    ensures AllDeducted(Run(h, steps))
    decreases |steps|
  {
    hide Do, WellFormed, Deducted;
    if steps != [] {
      StepDeducts(h, steps[0]);
      RunDeducts(Do(h, steps[0]), steps[1..]);
    }
  }

  /**
   In every schedule an ended client's byte count is minus the size of the notice it was
   handed; it is the sum over its queue exactly when there was no notice or it has no size.
   */
  lemma EndedCountIff(cfg: Config, steps: seq<Step>, id: nat)
    requires id in Run(Start(cfg), steps).clients && Run(Start(cfg), steps).clients[id].terminated
    ensures var c := Run(Start(cfg), steps).clients[id];
            && c.queuedBytes + NoticeBytes(cfg, c.resolutions) == 0
            && (c.queuedBytes == QueueBytes(cfg, c.queue)
                <==> NoticeBytes(cfg, c.resolutions) == 0 && QueueBytes(cfg, c.queue) == 0)
  {
    hide NoticeBytes, QueueBytes, WellFormed;
    RunDeducts(Start(cfg), steps);
    ConfigIsFixed(Start(cfg), steps);
  }

  /** The count goes below zero when the notice of an ended client is pulled. */
  lemma NoticeGoesUncounted(cfg: Config, filter: Filter, cursor: Option<Cursor>)
    ensures var ended := Terminate(cfg, Fresh(filter, cursor), Some(ErrorNotice));
            && ended.queuedBytes == 0 && ended.queue == [ErrorNotice]
            && Pull(cfg, ended).queuedBytes == 0 - cfg.bytes(ErrorNotice) && Pull(cfg, ended).queue == []
  {
  }
}
