/**
 What a subscriber gets for what it asked: the filter and the cursor it presented decide its
 stream, from the step in which it subscribed to the end of every schedule.
 */
module HubSubscribers {
  import opened Options
  import opened EventSource
  import opened HubClientSpec
  import opened HubStream
  import opened HubRuns
  import opened HubTheorems

  /** The entry has everything the filter names: its iteration, its operation and one of its types. */
  ghost predicate Asked(f: Filter, item: Item) {
    && (forall x :: f.iterationId == Some(x) ==> item.iterationId == x)
    && (forall x :: f.workflowOperationId == Some(x) ==> item.workflowOperationId == x)
    && (forall types :: f.eventTypes == Some(types) ==> exists i :: 0 <= i < |types| && types[i] == item.eventType)
  }

  lemma AskedIsMatched(f: Filter, item: Item)
    ensures Asked(f, item) <==> Matches(item, f)
  {
    if f.eventTypes.Some? {
      assert f.eventTypes == Some(f.eventTypes.value);
    }
  }

  // ----- Nobody is handed what it did not ask for -----

  ghost predicate OnlyAsked(f: Filter, d: Delivery) {
    d.Event? ==> Asked(f, d.item)
  }

  /** The client has this subscription, and nothing queued or handed over lies outside it. */
  ghost predicate Serves(f: Filter, start: Option<Cursor>, c: Client) {
    && c.filter == f && c.start == start
    && (forall i :: 0 <= i < |c.queue| ==> OnlyAsked(f, c.queue[i]))
    && (forall i :: 0 <= i < |c.resolutions| && c.resolutions[i].answer.Value? ==>
          OnlyAsked(f, c.resolutions[i].answer.delivery))
  }

  lemma {:induction false} FlushServes(cfg: Config, c: Client, f: Filter, start: Option<Cursor>)
    requires Serves(f, start, c)
    ensures Serves(f, start, Flush(cfg, c))
    decreases |c.waiters|
  {
    hide OnlyAsked;
    if !(c.waiters == [] || (c.queue == [] && !c.terminated)) {
      FlushServes(cfg, AnswerParked(cfg, c), f, start);
    }
  }

  lemma TerminateServes(cfg: Config, c: Client, final: Option<Delivery>, f: Filter, start: Option<Cursor>)
    requires Serves(f, start, c) && (final.Some? ==> !final.value.Event?)
    ensures Serves(f, start, Terminate(cfg, c, final))
  {
    hide Asked, Flush;
    if !c.terminated {
      FlushServes(cfg, c.(terminated := true, phase := Done, queuedBytes := 0,
                          queue := if final.Some? then [final.value] else []), f, start);
    }
  }

  lemma PullServes(cfg: Config, c: Client, f: Filter, start: Option<Cursor>)
    requires Serves(f, start, c)
    ensures Serves(f, start, Pull(cfg, c))
  {
    hide OnlyAsked;
  }

  lemma {:induction false} DeliverServes(cfg: Config, c: Client, page: Page, i: nat, f: Filter, start: Option<Cursor>)
    requires Serves(f, start, c) && page.Page? && i <= |page.items|
    requires forall k :: 0 <= k < |page.items| ==> Asked(f, page.items[k])
    ensures Serves(f, start, Deliver(cfg, c, page, i))
    decreases |page.items| - i
  {
    hide Asked, Terminate;
    if i < |page.items| {
      TerminateServes(cfg, c, Some(ErrorNotice), f, start);
      TerminateServes(cfg, c, None, f, start);
      var cursor := PageCursor(page, i);
      if cursor.Some? {
        var offered := Offer(cfg, c, Event(page.items[i], cursor.value));
        assert OnlyAsked(f, Event(page.items[i], cursor.value));
        if offered.Some? { DeliverServes(cfg, offered.value.(cursor := cursor), page, i + 1, f, start); }
      }
    }
  }

  lemma PageIsAsked(source: Source, head: Cursor, f: Filter, cursor: Option<Cursor>, until: Cursor, limit: nat)
    ensures var page := Read(source, head, f, cursor, until, limit);
            page.Page? ==> forall k :: 0 <= k < |page.items| ==> Asked(f, page.items[k])
  {
    hide Matches, Asked, Positions;
    forall item ensures Asked(f, item) <==> Matches(item, f) { AskedIsMatched(f, item); }
  }

  lemma PumpServes(cfg: Config, c: Client, source: Source, head: Cursor, f: Filter, start: Option<Cursor>)
    requires Serves(f, start, c)
    ensures c.phase.CatchingUp? ==> Serves(f, start, PumpCatchUp(cfg, c, source).client)
    ensures Serves(f, start, PumpLive(cfg, c, source, head).client)
  {
    hide Read, Deliver, Terminate, OnlyAsked, Asked;
    TerminateServes(cfg, c, Some(ResetNotice), f, start);
    var limit := Capacity(cfg, c);
    var live := Read(source, head, f, c.cursor, head, limit);
    PageIsAsked(source, head, f, c.cursor, head, limit);
    if live.Page? { DeliverServes(cfg, c, live, 0, f, start); }
    if c.phase.CatchingUp? {
      var captured := c.phase.head;
      var page := Read(source, captured, f, c.cursor, captured, limit);
      PageIsAsked(source, captured, f, c.cursor, captured, limit);
      if page.Page? { DeliverServes(cfg, c, page, 0, f, start); }
    }
  }

  lemma TickServes(cfg: Config, c: Client, source: Source, head: Cursor, reading: Reading, f: Filter,
                   start: Option<Cursor>)
    requires Serves(f, start, c)
    ensures Serves(f, start, Tick(cfg, c, source, head, reading).client)
  {
    hide PumpCatchUp, PumpLive, OnlyAsked, Terminate;
    var c1 := if c.phase.Pending? then c.(phase := CatchingUp(head)) else c;
    PumpServes(cfg, c1, source, head, f, start);
    if c1.phase.CatchingUp? { PumpServes(cfg, PumpCatchUp(cfg, c1, source).client, source, head, f, start); }
    var fed := Feed(cfg, c, source, head).client;
    var since := if fed.blockedSince.Some? then fed.blockedSince.value else reading.first;
    if Serves(f, start, fed) { TerminateServes(cfg, fed.(blockedSince := Some(since)), None, f, start); }
  }

  lemma StepServes(h: Hub, step: Step, id: nat, f: Filter, start: Option<Cursor>)
    requires Ordered(h) && id in h.clients && Serves(f, start, h.clients[id])
    ensures id in Do(h, step).clients && Serves(f, start, Do(h, step).clients[id])
  {
    hide Serves, Tick, Terminate, Pull, TickAll, Anyone;
    if Possible(h, step) {
      TerminateServes(h.cfg, h.clients[id], None, f, start);
      TerminateServes(h.cfg, h.clients[id], Some(ErrorNotice), f, start);
      PullServes(h.cfg, h.clients[id], f, start);
      if step.RunTick? {
        TickAllKeys(h.cfg, h.source, h.head, step.clock, h.clients, h.order);
        TickAllEach(h.cfg, h.source, h.head, step.clock, h.clients, h.order, id);
        TickServes(h.cfg, h.clients[id], h.source, h.head, step.clock(id), f, start);
      }
    }
  }

  lemma {:induction false} RunServes(h: Hub, steps: seq<Step>, id: nat, f: Filter, start: Option<Cursor>)
    requires Ordered(h) && id in h.clients && Serves(f, start, h.clients[id])
    ensures id in Run(h, steps).clients && Serves(f, start, Run(h, steps).clients[id])
    decreases |steps|
  {
    hide Serves, Do;
    if steps != [] {
      StepServes(h, steps[0], id, f, start);
      RunServes(Do(h, steps[0]), steps[1..], id, f, start);
    }
  }

  lemma {:induction false} RunJoins(h: Hub, before: seq<Step>, after: seq<Step>)
    requires Ordered(h)
    ensures Run(h, before + after) == Run(Run(h, before), after)
    decreases |before|
  {
    hide Do;
    if before == [] {
      assert before + after == after;
    } else {
      assert (before + after)[1..] == before[1..] + after;
      RunJoins(Do(h, before[0]), before[1..], after);
    }
  }

  /** A subscription on an open hub. */
  ghost predicate Joins(cfg: Config, before: seq<Step>, id: nat) {
    var h := Run(Start(cfg), before);
    !h.closed && id !in h.clients
  }

  lemma JoinedServes(h: Hub, id: nat, f: Filter, cursor: Option<Cursor>, aborted: bool)
    requires Ordered(h) && !h.closed && id !in h.clients
    ensures var h' := Do(h, Subscribe(id, f, cursor, aborted)); id in h'.clients && Serves(f, cursor, h'.clients[id])
  {
    hide Terminate, Anyone;
    TerminateServes(h.cfg, Fresh(f, cursor), None, f, cursor);
  }

  /**
   Whatever happens before and after it subscribes, a client keeps the filter and the cursor
   it presented, and every item it is handed has the iteration, the operation and one of the
   types that filter names.
   */
  lemma SubscriberGetsWhatItAsked(cfg: Config, before: seq<Step>, id: nat, f: Filter, cursor: Option<Cursor>,
                                  aborted: bool, after: seq<Step>)
    requires Joins(cfg, before, id)
    ensures var h := Run(Start(cfg), before + [Subscribe(id, f, cursor, aborted)] + after);
            && id in h.clients && h.clients[id].filter == f && h.clients[id].start == cursor
            && forall i :: 0 <= i < |Received(h.clients[id].resolutions)| ==>
                 Asked(f, Received(h.clients[id].resolutions)[i].item)
  {
    hide Asked, Run, Do, Received;
    var step := Subscribe(id, f, cursor, aborted);
    var h := Run(Start(cfg), before);
    RunJoins(Start(cfg), before + [step], after);
    RunJoins(Start(cfg), before, [step]);
    OneStep(h, step);
    JoinedServes(h, id, f, cursor, aborted);
    RunServes(Do(h, step), after, id, f, cursor);
    ReceivedIsAsked(Run(Start(cfg), before + [step] + after).clients[id].resolutions, f);
  }

  lemma OneStep(h: Hub, step: Step)
    requires Ordered(h)
    ensures Run(h, [step]) == Do(h, step)
  {
    hide Do;
    assert Run(Do(h, step), [step][1..]) == Do(h, step);
  }

  lemma {:induction false} ReceivedIsAsked(rs: seq<Resolution>, f: Filter)
    requires forall i :: 0 <= i < |rs| && rs[i].answer.Value? ==> OnlyAsked(f, rs[i].answer.delivery)
    ensures forall i :: 0 <= i < |Received(rs)| ==> Asked(f, Received(rs)[i].item)
  {
    hide Asked;
    if rs != [] {
      ReceivedIsAsked(rs[..|rs| - 1], f);
      assert rs[|rs| - 1].answer.Value? ==> OnlyAsked(f, rs[|rs| - 1].answer.delivery);
    }
  }

  // ----- And it is handed all of it -----

  /**
   Between two positions of a log the deliveries are entries at growing positions, each with
   the cursor behind it, and every entry there that was asked for and still stands is among them.
   */
  ghost predicate AllAsked(log: Log, f: Filter, g: nat, from: nat, end: nat, ds: seq<Delivery>) {
    && (forall i :: 0 <= i < |ds| ==>
          && ds[i].Event? && ds[i].cursor.At? && ds[i].cursor.generation == g
          && from < ds[i].cursor.position <= end && ds[i].cursor.position <= |log.items|
          && ds[i].item == log.items[ds[i].cursor.position - 1])
    && (forall i, j :: 0 <= i < j < |ds| && ds[i].Event? && ds[i].cursor.At? && ds[j].Event? && ds[j].cursor.At? ==>
          ds[i].cursor.position < ds[j].cursor.position)
    && (forall q :: from <= q < end && q < |log.items| && q !in log.retracted && Asked(f, log.items[q]) ==>
          Event(log.items[q], At(g, q + 1)) in ds)
  }

  lemma ExactIsAllAsked(log: Log, f: Filter, g: nat, from: nat, end: nat, ds: seq<Delivery>)
    requires Exact(log, f, g, from, end, ds)
    ensures AllAsked(log, f, g, from, end, ds)
  {
    hide Asked, Matches;
    forall i | 0 <= i < |ds|
      ensures ds[i].Event? && ds[i].cursor.At? && ds[i].cursor.generation == g
              && from < ds[i].cursor.position <= end && ds[i].cursor.position <= |log.items|
              && ds[i].item == log.items[ds[i].cursor.position - 1]
    {
      assert Genuine(log, f, g, from, end, ds[i]);
    }
    forall q | from <= q < end && q < |log.items| && q !in log.retracted && Asked(f, log.items[q])
      ensures Event(log.items[q], At(g, q + 1)) in ds
    {
      AskedIsMatched(f, log.items[q]);
      assert Visible(log, f, q);
      var i :| 0 <= i < |ds| && Pos(ds[i]) == q;
      assert Genuine(log, f, g, from, end, ds[i]);
    }
  }

  /** Received followed by queued, for the filter and the cursor presented, up to a position. */
  ghost predicate InFull(source: Source, f: Filter, cursor: Option<Cursor>, upto: Cursor, ds: seq<Delivery>) {
    && upto.At? && upto.generation < |source|
    && (cursor.Some? ==> cursor.value.At? && cursor.value.generation == upto.generation)
    && AllAsked(source[upto.generation], f, upto.generation, if cursor.Some? then cursor.value.position else 0,
                upto.position, ds)
  }

  /**
   In every schedule of issued cursors, what a subscriber received and has queued is in full
   what it asked for, from the cursor it presented: up to its last item, and for a live client
   up to its resume cursor.
   */
  lemma SubscriberGetsAllItAsked(cfg: Config, before: seq<Step>, id: nat, f: Filter, cursor: Option<Cursor>,
                                 aborted: bool, after: seq<Step>)
    requires Joins(cfg, before, id)
    requires HonestRun(Start(cfg), before + [Subscribe(id, f, cursor, aborted)] + after)
    ensures var h := Run(Start(cfg), before + [Subscribe(id, f, cursor, aborted)] + after);
            && id in h.clients
            && var c := h.clients[id]; var ds := History(c);
            && (ds != [] ==> ds[|ds| - 1].Event? && InFull(h.source, f, cursor, ds[|ds| - 1].cursor, ds))
            && (c.phase.Live? ==> c.cursor.Some? && InFull(h.source, f, cursor, c.cursor.value, ds))
  {
    hide Run, HonestRun, Asked, GapFree, Received, InFull, Sound, Honest;
    var steps := before + [Subscribe(id, f, cursor, aborted)] + after;
    SubscriberGetsWhatItAsked(cfg, before, id, f, cursor, aborted, after);
    StartInvariant(cfg);
    RunKeeps(Start(cfg), steps);
    var h := Run(Start(cfg), steps);
    SoundIsInFull(h.cfg, h.source, h.head, h.clients[id]);
  }

  lemma SoundIsInFull(cfg: Config, source: Source, head: Cursor, c: Client)
    requires Sound(cfg, source, head, c) && Captured(source, head)
    ensures var ds := History(c);
            && (ds != [] ==> ds[|ds| - 1].Event? && InFull(source, c.filter, c.start, ds[|ds| - 1].cursor, ds))
            && (c.phase.Live? ==> c.cursor.Some? && InFull(source, c.filter, c.start, c.cursor.value, ds))
  {
    hide Exact, AllAsked, Received;
    var ds := History(c);
    if c.phase.Live? && c.cursor == c.start && ds == [] {
      var upto := c.cursor.value;
      NothingIsInFull(source[upto.generation], c.filter, upto.generation, upto.position);
    } else if !c.terminated && !(c.cursor == c.start && ds == []) {
      var g := c.cursor.value.generation;
      ExactIsAllAsked(source[g], c.filter, g, StartPosition(c), c.cursor.value.position, ds);
      if ds != [] {
        ExactPrefix(source[g], c.filter, g, StartPosition(c), c.cursor.value.position, ds, |ds|);
        assert ds[..|ds|] == ds;
        ExactEnds(source[g], c.filter, g, StartPosition(c), c.cursor.value.position, ds);
        ExactIsAllAsked(source[g], c.filter, g, StartPosition(c), ds[|ds| - 1].cursor.position, ds);
      }
    } else if c.terminated && ds != [] {
      var last := ds[|ds| - 1].cursor;
      ExactIsAllAsked(source[last.generation], c.filter, last.generation, StartPosition(c), last.position, ds);
    }
  }

  lemma NothingIsInFull(log: Log, f: Filter, g: nat, at: nat)
    ensures AllAsked(log, f, g, at, at, [])
  {
  }

  lemma ExactEnds(log: Log, f: Filter, g: nat, from: nat, end: nat, ds: seq<Delivery>)
    requires Exact(log, f, g, from, end, ds) && ds != []
    ensures ds[|ds| - 1].Event? && ds[|ds| - 1].cursor.At? && ds[|ds| - 1].cursor.generation == g
  {
    assert Genuine(log, f, g, from, end, ds[|ds| - 1]);
  }
}
