/**
 What a tick hands a subscriber: the next entries it asked for as far as there is room, a
 notice when its cursor is out of date, and how parked pulls are answered at the end.
 */
module HubDelivery {
  import opened Options
  import opened EventSource
  import opened HubClientSpec
  import opened HubStream
  import opened HubRuns
  import opened HubTheorems
  import opened HubIsolation
  import opened HubSubscribers

  // ----- Reading -----

  /** The cursor names a place in the generation that reads see. */
  ghost predicate IsCurrent(source: Source, cursor: Cursor) {
    cursor.At? && cursor.generation == |source| - 1 && cursor.position <= |source[|source| - 1].items|
  }

  lemma CurrentIff(source: Source, cursor: Cursor)
    ensures IsCurrent(source, cursor) <==> ValidCursor(source, cursor)
  {
  }

  /** The first of the entries asked for in a stretch, as many as there is room for. */
  ghost predicate FirstAsked(log: Log, f: Filter, from: nat, end: nat, room: nat, ps: seq<nat>) {
    && |ps| <= room
    && (forall i :: 0 <= i < |ps| ==>
          from <= ps[i] < end && ps[i] < |log.items| && ps[i] !in log.retracted && Asked(f, log.items[ps[i]]))
    && (forall i, j :: 0 <= i < j < |ps| ==> ps[i] < ps[j])
    && (forall q: nat :: from <= q < end && q < |log.items| && q !in log.retracted && Asked(f, log.items[q]) ==>
          q in ps || (|ps| == room && (ps == [] || ps[|ps| - 1] < q)))
  }

  lemma PositionsAreFirst(log: Log, f: Filter, from: nat, end: nat, room: nat)
    ensures FirstAsked(log, f, from, end, room, Positions(log, f, from, end, room))
  {
    hide Asked, Matches;
    var ps := Positions(log, f, from, end, room);
    forall item ensures Asked(f, item) <==> Matches(item, f) { AskedIsMatched(f, item); }
    forall i, j | 0 <= i < j < |ps| ensures ps[i] < ps[j] { PositionsIncrease(log, f, from, end, room, i, j); }
    forall i | 0 <= i < |ps| ensures from <= ps[i] < end && Visible(log, f, ps[i]) { }
    forall q: nat | from <= q < end && q < |log.items| && q !in log.retracted && Asked(f, log.items[q])
      ensures q in ps || (|ps| == room && (ps == [] || ps[|ps| - 1] < q))
    {
      if |ps| < room || (ps != [] && q <= ps[|ps| - 1]) { PositionsComplete(log, f, from, end, room, q); }
    }
  }

  /**
   A read throws for a limit outside one to five hundred or an undecodable cursor, is stale
   when a cursor is not of the current generation or lies beyond it, and is otherwise the first
   entries asked for, each with the cursor behind it.
   */
  lemma ReadDecides(source: Source, head: Cursor, f: Filter, cursor: Option<Cursor>, until: Cursor, limit: nat)
    ensures var page := Read(source, head, f, cursor, until, limit);
            var log, g := source[|source| - 1], |source| - 1;
            var bad := limit < 1 || limit > 500 || head == Malformed || until == Malformed || cursor == Some(Malformed);
            var stale := !IsCurrent(source, head) || !IsCurrent(source, until)
                       || (cursor.Some? && !IsCurrent(source, cursor.value));
            && (page.Threw? <==> bad) && (page.Stale? <==> !bad && stale)
            && (page.Page? ==>
                  var from := if cursor.Some? then cursor.value.position else 0;
                  var end := if until.position < head.position then until.position else head.position;
                  exists ps ::
                    && FirstAsked(log, f, from, end, limit, ps)
                    && |page.items| == |page.itemCursors| == |ps|
                    && (forall i :: 0 <= i < |ps| ==> page.items[i] == log.items[ps[i]]
                                                      && page.itemCursors[i] == At(g, ps[i] + 1)))
  {
    hide IsCurrent, FirstAsked, Positions;
    CurrentIff(source, head);
    CurrentIff(source, until);
    if cursor.Some? { CurrentIff(source, cursor.value); }
    var page := Read(source, head, f, cursor, until, limit);
    if page.Page? {
      var from := if cursor.Some? then cursor.value.position else 0;
      PositionsAreFirst(source[|source| - 1], f, from, Min(until.position, head.position), limit);
    }
  }

  // ----- Endings -----

  /** The parked pulls in order: the notice, if any, for the first, and the end for the others. */
  ghost function Endings(waiters: seq<nat>, notice: Option<Delivery>): seq<Resolution> {
    seq(|waiters|, i requires 0 <= i < |waiters| =>
      Resolution(waiters[i], if i == 0 && notice.Some? then Value(notice.value) else Finished))
  }

  /** Nobody waits any more, the backlog is gone, and the notice was handed over or is all that is left. */
  ghost predicate Told(c: Client, c': Client, notice: Option<Delivery>) {
    && c'.terminated && c'.phase.Done? && c'.waiters == [] && c'.filter == c.filter && c'.start == c.start
    && c'.resolutions == c.resolutions + Endings(c.waiters, notice)
    && c'.queue == (if notice.Some? && c.waiters == [] then [notice.value] else [])
  }

  lemma {:induction false} FlushEnds(cfg: Config, c: Client)
    requires c.terminated && (c.queue == [] || |c.queue| == 1)
    ensures var c' := Flush(cfg, c);
            && c'.terminated && c'.phase == c.phase && c'.waiters == [] && c'.filter == c.filter && c'.start == c.start
            && c'.resolutions == c.resolutions + Endings(c.waiters, if c.queue == [] then None else Some(c.queue[0]))
            && c'.queue == (if c.waiters == [] then c.queue else [])
    decreases |c.waiters|
  {
    var notice := if c.queue == [] then None else Some(c.queue[0]);
    if c.waiters == [] {
      assert Endings([], notice) == [];
    } else {
      FlushEnds(cfg, AnswerParked(cfg, c));
      assert Endings(c.waiters, notice)
             == [Resolution(c.waiters[0], if notice.Some? then Value(notice.value) else Finished)]
                + Endings(c.waiters[1..], None);
    }
  }

  /** Ending a client drops its backlog and tells it so. */
  lemma EndingIsTold(cfg: Config, c: Client, notice: Option<Delivery>)
    requires !c.terminated
    ensures Told(c, Terminate(cfg, c, notice), notice)
  {
    hide Flush;
    FlushEnds(cfg, c.(terminated := true, phase := Done, queuedBytes := 0,
                      queue := if notice.Some? then [notice.value] else []));
  }

  /** A page that does not fit ends the client without a notice, after what did fit. */
  lemma {:induction false} OverflowIsNotTold(cfg: Config, c: Client, page: Page, i: nat)
    requires !c.terminated && page.Page? && i <= |page.items| == |page.itemCursors|
    ensures Deliver(cfg, c, page, i).terminated ==> exists c1 :: Told(c1, Deliver(cfg, c, page, i), None)
    decreases |page.items| - i
  {
    hide Told, Terminate;
    if i < |page.items| {
      EndingIsTold(cfg, c, None);
      var offered := Offer(cfg, c, Event(page.items[i], page.itemCursors[i]));
      if offered.Some? {
        OverflowIsNotTold(cfg, offered.value.(cursor := Some(page.itemCursors[i])), page, i + 1);
      }
    }
  }

  /** An entry without a cursor ends the client with an error; only the last one may take the page's own. */
  lemma MissingCursorIsTold(cfg: Config, c: Client, page: Page)
    requires !c.terminated && page.Page? && page.items != [] && page.itemCursors == []
    requires |page.items| > 1 || page.cursor == None
    ensures Told(c, Deliver(cfg, c, page, 0), Some(ErrorNotice))
  {
    hide Told, Terminate;
    EndingIsTold(cfg, c, Some(ErrorNotice));
  }

  lemma PageCursorStands(cfg: Config, c: Client, item: Item, cursor: Cursor)
    requires WellFormed(cfg, c) && !c.terminated
    ensures var c' := Deliver(cfg, c, Page([item], [], Some(cursor)), 0);
            !c'.terminated ==> c'.cursor == Some(cursor) && History(c') == History(c) + [Event(item, cursor)]
  {
    hide WellFormed, History, Terminate, Offer;
    var d := Event(item, cursor);
    TerminateEnds(cfg, c, None);
    if Offer(cfg, c, d).Some? {
      OfferKeeps(cfg, c, d);
      CursorMoves(cfg, Offer(cfg, c, d).value, Some(cursor));
    }
  }

  /** Everyone still registered is told of an error when the source cannot be refreshed. */
  lemma FailedRefreshIsTold(h: Hub, id: nat)
    requires Ordered(h) && h.loop.Refreshing? && id in h.clients && !h.clients[id].terminated
    ensures var h' := Do(h, RefreshFails);
            id in h'.clients && Told(h.clients[id], h'.clients[id], Some(ErrorNotice)) && h'.loop == Exited
  {
    hide Told, Terminate;
    EndingIsTold(h.cfg, h.clients[id], Some(ErrorNotice));
  }

  /** And everyone is ended without a notice when the hub closes; aborting ends that one client so. */
  lemma ClosingIsTold(h: Hub, id: nat)
    requires Ordered(h) && id in h.clients && !h.clients[id].terminated
    ensures !h.closed ==> var h' := Do(h, Close);
              id in h'.clients && Told(h.clients[id], h'.clients[id], None) && h'.closed
    ensures var h' := Do(h, Abort(id)); id in h'.clients && Told(h.clients[id], h'.clients[id], None)
  {
    hide Told, Terminate;
    EndingIsTold(h.cfg, h.clients[id], None);
  }

  /** The cursor the next read of this client starts from, or the head it is bound by, is out of date. */
  ghost predicate OutOfDate(source: Source, c: Client) {
    || (c.cursor.Some? && c.cursor.value != Malformed && !IsCurrent(source, c.cursor.value))
    || (c.phase.CatchingUp? && c.phase.head != Malformed && !IsCurrent(source, c.phase.head)
        && c.cursor != Some(Malformed))
  }

  lemma StaleRead(source: Source, head: Cursor, c: Client, limit: nat)
    requires 1 <= limit <= PAGE_LIMIT && IsCurrent(source, head) && OutOfDate(source, c)
    requires c.phase.CatchingUp? ==> c.phase.head != Malformed
    ensures var h := if c.phase.CatchingUp? then c.phase.head else head;
            Read(source, h, c.filter, c.cursor, h, limit) == Stale
  {
    hide IsCurrent;
    CurrentIff(source, head);
    if c.phase.CatchingUp? { CurrentIff(source, c.phase.head); }
    if c.cursor.Some? { CurrentIff(source, c.cursor.value); }
  }

  /** A client with room whose cursor or captured head is out of date is reset at the next tick. */
  lemma OutOfDateIsReset(cfg: Config, c: Client, source: Source, head: Cursor, reading: Reading)
    requires WellFormed(cfg, c) && !c.terminated && |c.queue| < cfg.maxItems
    requires IsCurrent(source, head) && OutOfDate(source, c)
    requires c.phase.CatchingUp? ==> c.phase.head != Malformed
    ensures Tick(cfg, c, source, head, reading).Pumped?
    ensures Told(c, Tick(cfg, c, source, head, reading).client, Some(ResetNotice))
  {
    hide IsCurrent, Told, Read, Terminate, WellFormed, OutOfDate;
    var c1 := if c.phase.Pending? then c.(phase := CatchingUp(head)) else c;
    LivePhases(cfg, c);
    OutOfDateStays(source, head, c);
    StaleRead(source, head, c1, Capacity(cfg, c));
    EndingIsTold(cfg, c1, Some(ResetNotice));
    ToldBefore(c, c1, Terminate(cfg, c1, Some(ResetNotice)), Some(ResetNotice));
  }

  lemma LivePhases(cfg: Config, c: Client)
    requires WellFormed(cfg, c) && !c.terminated
    ensures c.phase.Pending? || c.phase.CatchingUp? || c.phase.Live?
  {
  }

  lemma OpenPhase(cfg: Config, c: Client)
    requires WellFormed(cfg, c)
    ensures c.terminated <==> c.phase.Done?
  {
  }

  lemma OutOfDateStays(source: Source, head: Cursor, c: Client)
    requires OutOfDate(source, c) && IsCurrent(source, head)
    ensures head != Malformed && (c.phase.Pending? ==> OutOfDate(source, c.(phase := CatchingUp(head))))
  {
  }

  lemma ToldBefore(c: Client, c1: Client, c': Client, notice: Option<Delivery>)
    requires Told(c1, c', notice) && c1.resolutions == c.resolutions && c1.waiters == c.waiters && c1.filter == c.filter
             && c1.start == c.start
    ensures Told(c, c', notice) && c'.terminated && c'.phase.Done?
  {
  }

  // ----- Progress -----

  /** How many entries a client can take at a time. */
  ghost function Room(cfg: Config, c: Client): int {
    if cfg.maxItems - |c.queue| < 500 then cfg.maxItems - |c.queue| else 500
  }

  /** The page was handed on in full, or the client was dropped because its bytes did not fit. */
  ghost predicate HandedOn(cfg: Config, c: Client, c': Client, es: seq<Delivery>) {
    if |c.waiters| < |es| && QueueBytes(cfg, c.queue) + QueueBytes(cfg, es[|c.waiters|..]) > cfg.maxBytes
    then c'.terminated
    else !c'.terminated && History(c') == History(c) + es
  }

  lemma ReadPage(source: Source, f: Filter, cursor: Option<Cursor>, g: nat, from: nat, end: nat, room: nat)
    requires g == |source| - 1 && from <= end <= |source[g].items| && 1 <= room <= 500
    requires cursor == Some(At(g, from)) || (cursor == None && from == 0)
    ensures var page := Read(source, At(g, end), f, cursor, At(g, end), room);
            var ps := Positions(source[g], f, from, end, room);
            && page.Page? && |page.items| == |page.itemCursors| == |ps| && Owed(page, 0) == EventsAt(source[g], g, ps)
            && (ps != [] ==> page.itemCursors[|ps| - 1] == At(g, ps[|ps| - 1] + 1))
            && FirstAsked(source[g], f, from, end, room, ps)
  {
    hide Positions, FirstAsked;
    PositionsAreFirst(source[g], f, from, end, room);
  }

  lemma PageIsHandedOn(cfg: Config, c: Client, page: Page)
    requires WellFormed(cfg, c) && !c.terminated && page.Page? && |page.items| == |page.itemCursors|
    requires |c.queue| + |page.items| <= cfg.maxItems
    ensures var c' := Deliver(cfg, c, page, 0);
            && WellFormed(cfg, c') && HandedOn(cfg, c, c', Owed(page, 0)) && |Owed(page, 0)| == |page.items|
            && (!c'.terminated ==>
                  c'.phase == c.phase && c'.filter == c.filter
                  && c'.cursor == if page.items == [] then c.cursor else Some(page.itemCursors[|page.items| - 1]))
  {
    hide WellFormed, Deliver, History, QueueBytes;
    DeliverKeeps(cfg, c, page, 0);
    DeliverDropsIff(cfg, c, page, 0);
  }

  /** The entries of a stretch that a client is handed at one tick. */
  ghost predicate Feeds(cfg: Config, source: Source, c: Client, c': Client, g: nat, from: nat, end: nat, ps: seq<nat>)
    requires g < |source|
  {
    && FirstAsked(source[g], c.filter, from, end, if Room(cfg, c) > 0 then Room(cfg, c) else 0, ps)
    && (forall i :: 0 <= i < |ps| ==> ps[i] < |source[g].items|)
    && HandedOn(cfg, c, c', EventsAt(source[g], g, ps))
  }

  /**
   A live client with room is handed the next entries it asked for, and its cursor goes behind
   the last of them, or to the head when there is none.
   */
  lemma LiveTickFeeds(cfg: Config, c: Client, source: Source, g: nat, from: nat, end: nat)
    requires WellFormed(cfg, c) && c.phase.Live? && |c.queue| < cfg.maxItems
    requires g == |source| - 1 && from <= end <= |source[g].items| && c.cursor == Some(At(g, from))
    ensures var fed := Feed(cfg, c, source, At(g, end));
            && fed.Pumped?
            && exists ps ::
                 && Feeds(cfg, source, c, fed.client, g, from, end, ps)
                 && (!fed.client.terminated ==>
                       fed.client.phase.Live?
                       && fed.client.cursor == Some(At(g, if ps == [] then end else ps[|ps| - 1] + 1)))
  {
    hide WellFormed, Deliver, History, QueueBytes, Read, Owed, FirstAsked, HandedOn, EventsAt;
    OpenPhase(cfg, c);
    var room := Capacity(cfg, c);
    var page := Read(source, At(g, end), c.filter, c.cursor, At(g, end), room);
    var ps := Positions(source[g], c.filter, from, end, room);
    ReadPage(source, c.filter, c.cursor, g, from, end, room);
    PageIsHandedOn(cfg, c, page);
    var c' := Deliver(cfg, c, page, 0);
    CursorIsNoHistory(cfg, c, c', Some(At(g, end)), c'.phase, Owed(page, 0));
    assert Feeds(cfg, source, c, Feed(cfg, c, source, At(g, end)).client, g, from, end, ps);
  }

  lemma CursorIsNoHistory(cfg: Config, c: Client, c': Client, cursor: Option<Cursor>, phase: Phase, es: seq<Delivery>)
    requires HandedOn(cfg, c, c', es)
    ensures HandedOn(cfg, c, c'.(cursor := cursor, phase := phase), es)
    ensures HandedOn(cfg, c, c'.(cursor := cursor), es)
  {
  }

  /**
   The first tick captures the head and hands on the entries from the presented cursor, or from
   the start of the log; a short page makes the client live at the head.
   */
  lemma FirstTickFeeds(cfg: Config, c: Client, source: Source, g: nat, from: nat, end: nat)
    requires WellFormed(cfg, c) && c.phase.Pending? && |c.queue| < cfg.maxItems
    requires g == |source| - 1 && from <= end <= |source[g].items|
    requires c.cursor == Some(At(g, from)) || (c.cursor == None && from == 0)
    ensures var fed := Feed(cfg, c, source, At(g, end));
            && fed.Pumped?
            && exists ps ::
                 && Feeds(cfg, source, c, fed.client, g, from, end, ps)
                 && (!fed.client.terminated ==>
                       if |ps| < Room(cfg, c)
                       then fed.client.phase == Live && fed.client.cursor == Some(At(g, end))
                       else fed.client.phase == CatchingUp(At(g, end))
                            && fed.client.cursor == Some(At(g, ps[|ps| - 1] + 1)))
  {
    hide WellFormed, Deliver, History, QueueBytes, Read, Owed, FirstAsked, HandedOn, EventsAt, PumpLive, PumpCatchUp;
    var head := At(g, end);
    var c1 := c.(phase := CatchingUp(head));
    PhaseIsFree(cfg, c, head);
    CatchUpFeeds(cfg, c1, source, g, from, end);
    var caught := PumpCatchUp(cfg, c1, source);
    var ps :| FeedsTo(cfg, source, c1, caught.client, g, from, end, ps);
    PhaseIsNoMatter(cfg, c, c1, caught.client, EventsAt(source[g], g, ps));
    OpenPhase(cfg, caught.client);
    if caught.client.phase.Live? { NothingNew(cfg, caught.client, source, g, end); }
    assert Feeds(cfg, source, c, Feed(cfg, c, source, At(g, end)).client, g, from, end, ps);
  }

  lemma PhaseIsFree(cfg: Config, c: Client, head: Cursor)
    requires WellFormed(cfg, c) && c.phase.Pending?
    ensures WellFormed(cfg, c.(phase := CatchingUp(head))) && !c.terminated
  {
  }

  lemma PhaseIsNoMatter(cfg: Config, c: Client, c1: Client, c': Client, es: seq<Delivery>)
    requires HandedOn(cfg, c1, c', es) && c1 == c.(phase := c1.phase)
    ensures HandedOn(cfg, c, c', es)
  {
  }

  ghost predicate FeedsTo(cfg: Config, source: Source, c: Client, c': Client, g: nat, from: nat, end: nat, ps: seq<nat>)
    requires g < |source|
  {
    && Feeds(cfg, source, c, c', g, from, end, ps)
    && WellFormed(cfg, c') && c'.filter == (if c'.terminated then c'.filter else c.filter)
    && (!c'.terminated ==>
          if |ps| < Room(cfg, c) then c'.phase == Live && c'.cursor == Some(At(g, end))
          else c'.phase == c.phase && ps != [] && c'.cursor == Some(At(g, ps[|ps| - 1] + 1)))
  }

  lemma CatchUpFeeds(cfg: Config, c: Client, source: Source, g: nat, from: nat, end: nat)
    requires WellFormed(cfg, c) && !c.terminated && c.phase == CatchingUp(At(g, end)) && |c.queue| < cfg.maxItems
    requires g == |source| - 1 && from <= end <= |source[g].items|
    requires c.cursor == Some(At(g, from)) || (c.cursor == None && from == 0)
    ensures var caught := PumpCatchUp(cfg, c, source);
            caught.Pumped? && exists ps :: FeedsTo(cfg, source, c, caught.client, g, from, end, ps)
  {
    hide WellFormed, Deliver, History, QueueBytes, Read, Owed, FirstAsked, HandedOn, EventsAt;
    var room := Capacity(cfg, c);
    var page := Read(source, At(g, end), c.filter, c.cursor, At(g, end), room);
    var ps := Positions(source[g], c.filter, from, end, room);
    ReadPage(source, c.filter, c.cursor, g, from, end, room);
    PageIsHandedOn(cfg, c, page);
    var c' := Deliver(cfg, c, page, 0);
    CursorIsNoHistory(cfg, c, c', Some(At(g, end)), Live, Owed(page, 0));
    if !c'.terminated { PlaceIsFree(cfg, c', Some(At(g, end)), Live); }
    assert FeedsTo(cfg, source, c, PumpCatchUp(cfg, c, source).client, g, from, end, ps);
  }

  /**
   A client that is catching up is handed the entries up to the head it captured; when that
   makes it live and leaves room, the entries from there to the present head in the same tick.
   */
  lemma CatchUpTickFeeds(cfg: Config, c: Client, source: Source, g: nat, from: nat, captured: nat, end: nat)
    requires WellFormed(cfg, c) && c.phase == CatchingUp(At(g, captured)) && |c.queue| < cfg.maxItems
    requires g == |source| - 1 && from <= captured <= end <= |source[g].items|
    requires c.cursor == Some(At(g, from)) || (c.cursor == None && from == 0)
    ensures var fed := Feed(cfg, c, source, At(g, end));
            && fed.Pumped?
            && exists caught, ps ::
                 && FeedsTo(cfg, source, c, caught, g, from, captured, ps)
                 && (if !caught.phase.Live? || |caught.queue| >= cfg.maxItems then fed.client == caught
                     else exists qs :: Feeds(cfg, source, caught, fed.client, g, captured, end, qs))
  {
    hide WellFormed, FeedsTo, Feeds, PumpLive, PumpCatchUp;
    OpenPhase(cfg, c);
    CatchUpFeeds(cfg, c, source, g, from, captured);
    var caught := PumpCatchUp(cfg, c, source).client;
    var ps :| FeedsTo(cfg, source, c, caught, g, from, captured, ps);
    CaughtIsLive(cfg, source, c, caught, g, from, captured, ps);
    if caught.phase.Live? {
      if |caught.queue| < cfg.maxItems {
        LiveTickFeeds(cfg, caught, source, g, captured, end);
      } else {
        NoRoomNoRead(cfg, caught, source, At(g, end));
      }
    }
  }

  lemma CaughtIsLive(cfg: Config, source: Source, c: Client, c': Client, g: nat, from: nat, end: nat, ps: seq<nat>)
    requires g < |source| && FeedsTo(cfg, source, c, c', g, from, end, ps) && !c.phase.Live?
    ensures WellFormed(cfg, c') && (c'.phase.Live? ==> c'.cursor == Some(At(g, end)))
  {
    hide WellFormed, Feeds;
    OpenPhase(cfg, c');
  }

  lemma NoRoomNoRead(cfg: Config, c: Client, source: Source, head: Cursor)
    requires |c.queue| >= cfg.maxItems
    ensures PumpLive(cfg, c, source, head) == Pumped(c)
  {
  }

  /** At the head there is nothing more to read. */
  lemma NothingNew(cfg: Config, c: Client, source: Source, g: nat, end: nat)
    requires !c.terminated && c.cursor == Some(At(g, end)) && g == |source| - 1 && end <= |source[g].items|
    ensures PumpLive(cfg, c, source, At(g, end)) == Pumped(c)
  {
    if Capacity(cfg, c) > 0 {
      var page := Read(source, At(g, end), c.filter, c.cursor, At(g, end), Capacity(cfg, c));
      assert page.Page? && page.items == [];
    }
  }
}
