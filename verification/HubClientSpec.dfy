/**
 One subscriber of the event hub as a value: its resume cursor, its bounded
 queue, its parked pulls and everything its consumer has been answered so far.
 The operations are the hub's own steps on that subscriber.
 */
module HubClientSpec {
  import opened Options
  import opened EventSource

  datatype Delivery = Event(item: Item, cursor: Cursor) | ResetNotice | ErrorNotice

  /** What a settled pull was answered: a delivery, or the end of the iteration. */
  datatype Answer = Value(delivery: Delivery) | Finished

  datatype Resolution = Resolution(pull: nat, answer: Answer)

  /** Limits of one hub; `bytes` is the serialized size of a delivery. */
  datatype Config = Config(maxItems: int, maxBytes: int, drainTimeout: int, bytes: Delivery -> nat)

  /** A catching-up client keeps the head its first view captured. */
  datatype Phase = Pending | CatchingUp(head: Cursor) | Live | Done

  datatype Client = Client(
    phase: Phase,
    filter: Filter,
    start: Option<Cursor>,
    cursor: Option<Cursor>,
    queue: seq<Delivery>,
    queuedBytes: int,
    blockedSince: Option<int>,
    waiters: seq<nat>,
    terminated: bool,
    pulls: nat,
    resolutions: seq<Resolution>)

  /** The two clock readings a stall check can take. */
  datatype Reading = Reading(first: int, second: int)

  function Fresh(filter: Filter, cursor: Option<Cursor>): Client {
    Client(Pending, filter, cursor, cursor, [], 0, None, [], false, 0, [])
  }

  // ----- The hub's operations on one client -----

  function Settle(c: Client, pull: nat, answer: Answer): Client {
    c.(resolutions := c.resolutions + [Resolution(pull, answer)])
  }

  function Pull(cfg: Config, c: Client): Client {
    var c' := c.(pulls := c.pulls + 1);
    if c.queue != [] then
      Settle(c'.(queue := c.queue[1..], queuedBytes := c.queuedBytes - cfg.bytes(c.queue[0])), c.pulls,
             Value(c.queue[0]))
    else if c.terminated then Settle(c', c.pulls, Finished)
    else c'.(waiters := c.waiters + [c.pulls])
  }

  /** Answer the oldest parked pull with the queue's head, or with the end when nothing is queued. */
  function AnswerParked(cfg: Config, c: Client): Client
    requires c.waiters != []
  {
    var c' := c.(waiters := c.waiters[1..]);
    if c.queue != [] then
      Settle(c'.(queue := c.queue[1..], queuedBytes := c.queuedBytes - cfg.bytes(c.queue[0])), c.waiters[0],
             Value(c.queue[0]))
    else Settle(c', c.waiters[0], Finished)
  }

  /** Answer parked pulls from the queue, and once terminated answer the rest with the end. */
  function Flush(cfg: Config, c: Client): Client
    decreases |c.waiters|
  {
    if c.waiters == [] || (c.queue == [] && !c.terminated) then c
    else Flush(cfg, AnswerParked(cfg, c))
  }

  lemma {:induction false} FlushKeepsEnd(cfg: Config, c: Client)
    ensures Flush(cfg, c).terminated == c.terminated && Flush(cfg, c).phase == c.phase
    decreases |c.waiters|
  {
    if !(c.waiters == [] || (c.queue == [] && !c.terminated)) { FlushKeepsEnd(cfg, AnswerParked(cfg, c)); }
  }

  function Terminate(cfg: Config, c: Client, final: Option<Delivery>): Client {
    if c.terminated then c
    else Flush(cfg, c.(terminated := true, phase := Done, queuedBytes := 0,
                       queue := if final.Some? then [final.value] else []))
  }

  lemma TerminateEnds(cfg: Config, c: Client, final: Option<Delivery>)
    ensures Terminate(cfg, c, final).terminated
  {
    if !c.terminated {
      FlushKeepsEnd(cfg, c.(terminated := true, phase := Done, queuedBytes := 0,
                            queue := if final.Some? then [final.value] else []));
    }
  }

  /** A parked pull takes the delivery, otherwise it has to fit the buffer. */
  function Offer(cfg: Config, c: Client, d: Delivery): (r: Option<Client>) {
    if c.waiters != [] then Some(Settle(c.(waiters := c.waiters[1..]), c.waiters[0], Value(d)))
    else if |c.queue| + 1 > cfg.maxItems || c.queuedBytes + cfg.bytes(d) > cfg.maxBytes then None
    else Some(c.(queue := c.queue + [d], queuedBytes := c.queuedBytes + cfg.bytes(d)))
  }

  function PageCursor(page: Page, i: nat): Option<Cursor>
    requires page.Page? && i < |page.items|
  {
    if i < |page.itemCursors| then Some(page.itemCursors[i])
    else if i == |page.items| - 1 then page.cursor
    else None
  }

  function Deliver(cfg: Config, c: Client, page: Page, i: nat): Client
    requires page.Page? && i <= |page.items|
    decreases |page.items| - i
  {
    if i == |page.items| then c
    else
      var cursor := PageCursor(page, i);
      if cursor.None? then Terminate(cfg, c, Some(ErrorNotice))
      else
        var offered := Offer(cfg, c, Event(page.items[i], cursor.value));
        if offered.None? then Terminate(cfg, c, None)
        else Deliver(cfg, offered.value.(cursor := cursor), page, i + 1)
  }

  function Capacity(cfg: Config, c: Client): nat {
    var room := cfg.maxItems - |c.queue|;
    if room <= 0 then 0 else if room < PAGE_LIMIT then room else PAGE_LIMIT
  }

  /** A pump either finishes or propagates the error a read threw. */
  datatype Pumped = Failed(client: Client) | Pumped(client: Client)

  function PumpCatchUp(cfg: Config, c: Client, source: Source): Pumped
    requires c.phase.CatchingUp?
  {
    var limit := Capacity(cfg, c);
    if limit == 0 then Pumped(c)
    else
      var page := Read(source, c.phase.head, c.filter, c.cursor, c.phase.head, limit);
      match page
      case Threw => Failed(c)
      case Stale => Pumped(Terminate(cfg, c, Some(ResetNotice)))
      case Page(items, _, _) =>
        var c' := Deliver(cfg, c, page, 0);
        if !c'.terminated && |items| < limit then Pumped(c'.(cursor := Some(c.phase.head), phase := Live))
        else Pumped(c')
  }

  function PumpLive(cfg: Config, c: Client, source: Source, head: Cursor): Pumped {
    var limit := Capacity(cfg, c);
    if limit == 0 then Pumped(c)
    else
      var page := Read(source, head, c.filter, c.cursor, head, limit);
      match page
      case Threw => Failed(c)
      case Stale => Pumped(Terminate(cfg, c, Some(ResetNotice)))
      case Page(items, _, _) =>
        var c' := Deliver(cfg, c, page, 0);
        if !c'.terminated && |items| == 0 then Pumped(c'.(cursor := Some(head))) else Pumped(c')
  }

  function CheckStall(cfg: Config, c: Client, reading: Reading): Client {
    if c.terminated then c
    else if c.queue == [] then c.(blockedSince := None)
    else
      var since := if c.blockedSince.Some? then c.blockedSince.value else reading.first;
      var c' := c.(blockedSince := Some(since));
      if reading.second - since >= cfg.drainTimeout then Terminate(cfg, c', None) else c'
  }

  /** What one tick of the poll loop feeds this client, before the stall check. */
  function Feed(cfg: Config, c: Client, source: Source, head: Cursor): Pumped {
    var c1 := if c.phase.Pending? then c.(phase := CatchingUp(head)) else c;
    var caught := if c1.phase.CatchingUp? then PumpCatchUp(cfg, c1, source) else Pumped(c1);
    if caught.Failed? || !caught.client.phase.Live? then caught
    else PumpLive(cfg, caught.client, source, head)
  }

  function Tick(cfg: Config, c: Client, source: Source, head: Cursor, reading: Reading): Pumped {
    if c.terminated then Pumped(c)
    else
      var fed := Feed(cfg, c, source, head);
      if fed.Failed? then fed else Pumped(CheckStall(cfg, fed.client, reading))
  }

  // ----- What every step keeps: queue accounting, pull order and stream shape -----

  function QueueBytes(cfg: Config, ds: seq<Delivery>): nat {
    if ds == [] then 0 else QueueBytes(cfg, ds[..|ds| - 1]) + cfg.bytes(ds[|ds| - 1])
  }

  predicate IsEvent(a: Answer) {
    a.Value? && a.delivery.Event?
  }

  /** Pulls are answered strictly in the order they were made. */
  ghost predicate PullOrder(c: Client) {
    && (forall i :: 0 <= i < |c.resolutions| ==> c.resolutions[i].pull == i)
    && (forall j :: 0 <= j < |c.waiters| ==> c.waiters[j] == |c.resolutions| + j)
    && c.pulls == |c.resolutions| + |c.waiters|
  }

  /** Items, then at most one notice, then the end forever. */
  ghost predicate StreamShape(c: Client) {
    forall i, j ::
      0 <= i < j < |c.resolutions| && !IsEvent(c.resolutions[i].answer) ==> c.resolutions[j].answer == Finished
  }

  ghost predicate OnlyEvents(c: Client) {
    forall i :: 0 <= i < |c.resolutions| ==> IsEvent(c.resolutions[i].answer)
  }

  ghost predicate Buffered(cfg: Config, c: Client) {
    && (forall i :: 0 <= i < |c.queue| ==> c.queue[i].Event?)
    && c.queuedBytes == QueueBytes(cfg, c.queue)
    && (c.queue != [] ==> |c.queue| <= cfg.maxItems && c.queuedBytes <= cfg.maxBytes)
  }

  ghost predicate WellFormed(cfg: Config, c: Client) {
    && PullOrder(c)
    && (c.queue == [] || c.waiters == [])
    && (c.terminated <==> c.phase.Done?)
    && (!c.terminated ==> OnlyEvents(c) && Buffered(cfg, c))
    && (c.terminated ==> c.waiters == [] && StreamShape(c) && |c.queue| <= 1
                         && (c.queue != [] ==> !c.queue[0].Event? && OnlyEvents(c)))
  }

  /** The items the consumer has been handed, in order. */
  function Received(rs: seq<Resolution>): (ds: seq<Delivery>)
    ensures forall i :: 0 <= i < |ds| ==> ds[i].Event?
  {
    if rs == [] then []
    else
      var last := rs[|rs| - 1].answer;
      Received(rs[..|rs| - 1]) + (if IsEvent(last) then [last.delivery] else [])
  }

  /** Items received followed by items still queued. */
  function History(c: Client): seq<Delivery> {
    Received(c.resolutions) + (if c.terminated then [] else c.queue)
  }

  lemma ReceivedSnoc(rs: seq<Resolution>, r: Resolution)
    ensures Received(rs + [r]) == Received(rs) + (if IsEvent(r.answer) then [r.answer.delivery] else [])
  {
    assert (rs + [r])[..|rs|] == rs;
  }

  lemma FreshWellFormed(cfg: Config, filter: Filter, cursor: Option<Cursor>)
    ensures WellFormed(cfg, Fresh(filter, cursor)) && History(Fresh(filter, cursor)) == []
  {
  }

  lemma {:induction false} QueueBytesTail(cfg: Config, ds: seq<Delivery>)
    requires ds != []
    ensures QueueBytes(cfg, ds) == cfg.bytes(ds[0]) + QueueBytes(cfg, ds[1..])
  {
    if |ds| > 1 {
      QueueBytesTail(cfg, ds[..|ds| - 1]);
      assert ds[1..][..|ds| - 2] == ds[..|ds| - 1][1..];
    }
  }

  /** Taking the head of the queue moves it to the received side. */
  lemma PullFromQueue(cfg: Config, c: Client)
    requires WellFormed(cfg, c) && c.queue != []
    ensures WellFormed(cfg, Pull(cfg, c)) && History(Pull(cfg, c)) == History(c)
  {
    hide Received, QueueBytes;
    QueueBytesTail(cfg, c.queue);
    ReceivedSnoc(c.resolutions, Resolution(c.pulls, Value(c.queue[0])));
    assert c.queue == [c.queue[0]] + c.queue[1..];
  }

  lemma PullFromNothing(cfg: Config, c: Client)
    requires WellFormed(cfg, c) && c.queue == []
    ensures WellFormed(cfg, Pull(cfg, c)) && History(Pull(cfg, c)) == History(c)
  {
    hide Received, QueueBytes;
    ReceivedSnoc(c.resolutions, Resolution(c.pulls, Finished));
  }

  lemma PullKeeps(cfg: Config, c: Client)
    requires WellFormed(cfg, c)
    ensures WellFormed(cfg, Pull(cfg, c)) && History(Pull(cfg, c)) == History(c)
  {
    hide WellFormed, History, Pull;
    if c.queue != [] { PullFromQueue(cfg, c); } else { PullFromNothing(cfg, c); }
  }

  /** A terminated client with at most one notice left to hand over. */
  ghost predicate Closing(c: Client) {
    && c.terminated && c.phase.Done?
    && PullOrder(c) && StreamShape(c)
    && |c.queue| <= 1
    && (c.queue != [] ==> !c.queue[0].Event? && OnlyEvents(c))
  }

  ghost predicate SameSubscription(c: Client, c': Client) {
    c'.cursor == c.cursor && c'.start == c.start && c'.filter == c.filter
  }

  lemma AnswerParkedCloses(cfg: Config, c: Client)
    requires Closing(c) && c.waiters != []
    ensures Closing(AnswerParked(cfg, c))
    ensures Received(AnswerParked(cfg, c).resolutions) == Received(c.resolutions)
  {
    ReceivedSnoc(c.resolutions, Resolution(c.waiters[0], if c.queue != [] then Value(c.queue[0]) else Finished));
  }

  /** Flushing a terminated client answers every parked pull and hands over no item. */
  lemma {:induction false} FlushCloses(cfg: Config, c: Client)
    requires Closing(c)
    ensures var c' := Flush(cfg, c);
            && Closing(c') && c'.waiters == [] && SameSubscription(c, c')
            && Received(c'.resolutions) == Received(c.resolutions)
    decreases |c.waiters|
  {
    if c.waiters != [] {
      AnswerParkedCloses(cfg, c);
      FlushCloses(cfg, AnswerParked(cfg, c));
    }
  }

  lemma TerminateKeeps(cfg: Config, c: Client, final: Option<Delivery>)
    requires WellFormed(cfg, c) && (final.Some? ==> !final.value.Event?)
    ensures var c' := Terminate(cfg, c, final);
            && WellFormed(cfg, c') && c'.terminated && SameSubscription(c, c')
            && History(c') == Received(c.resolutions)
  {
    if !c.terminated {
      FlushCloses(cfg, c.(terminated := true, phase := Done, queuedBytes := 0,
                          queue := if final.Some? then [final.value] else []));
    }
  }

  /** A parked pull takes the delivery: the history grows on the received side. */
  lemma OfferToPull(cfg: Config, c: Client, d: Delivery)
    requires WellFormed(cfg, c) && !c.terminated && d.Event? && c.waiters != []
    ensures var c' := Offer(cfg, c, d).value;
            WellFormed(cfg, c') && History(c') == History(c) + [d]
  {
    hide Received, QueueBytes;
    ReceivedSnoc(c.resolutions, Resolution(c.waiters[0], Value(d)));
  }

  /** The buffer takes the delivery: the history grows on the queued side. */
  lemma OfferToQueue(cfg: Config, c: Client, d: Delivery)
    requires WellFormed(cfg, c) && !c.terminated && d.Event? && c.waiters == [] && Offer(cfg, c, d).Some?
    ensures var c' := Offer(cfg, c, d).value;
            WellFormed(cfg, c') && History(c') == History(c) + [d]
  {
    hide Received, QueueBytes;
    QueueBytesSnoc(cfg, c.queue, d);
  }

  lemma QueueBytesSnoc(cfg: Config, ds: seq<Delivery>, d: Delivery)
    ensures QueueBytes(cfg, ds + [d]) == QueueBytes(cfg, ds) + cfg.bytes(d)
  {
    assert (ds + [d])[..|ds|] == ds;
  }

  lemma OfferKeeps(cfg: Config, c: Client, d: Delivery)
    requires WellFormed(cfg, c) && !c.terminated && d.Event? && Offer(cfg, c, d).Some?
    ensures var c' := Offer(cfg, c, d).value;
            && WellFormed(cfg, c') && !c'.terminated && SameSubscription(c, c') && c'.phase == c.phase
            && |c'.queue| <= |c.queue| + 1
            && History(c') == History(c) + [d]
  {
    hide WellFormed, History;
    if c.waiters != [] { OfferToPull(cfg, c, d); } else { OfferToQueue(cfg, c, d); }
  }

  lemma CursorMoves(cfg: Config, c: Client, cursor: Option<Cursor>)
    requires WellFormed(cfg, c)
    ensures WellFormed(cfg, c.(cursor := cursor)) && History(c.(cursor := cursor)) == History(c)
  {
  }

  /** The deliveries a page still owes from entry `i` on. */
  function Owed(page: Page, i: nat): seq<Delivery>
    requires page.Page? && i <= |page.items| == |page.itemCursors|
  {
    seq(|page.items| - i, k requires 0 <= k < |page.items| - i => Event(page.items[i + k], page.itemCursors[i + k]))
  }

  /**
   Delivering a page: a client that survives has been offered exactly the page, in
   order; one that is dropped has received a prefix of it.  When the page fits the
   item budget only the byte budget can drop the client.
   */
  lemma {:induction false} DeliverKeeps(cfg: Config, c: Client, page: Page, i: nat)
    requires WellFormed(cfg, c) && !c.terminated
    requires page.Page? && i <= |page.items| == |page.itemCursors|
    ensures var c' := Deliver(cfg, c, page, i);
            && WellFormed(cfg, c') && c'.start == c.start && c'.filter == c.filter
            && (c'.terminated ==> Received(c'.resolutions) <= History(c) + Owed(page, i))
            && (!c'.terminated ==>
                  && c'.phase == c.phase
                  && History(c') == History(c) + Owed(page, i)
                  && |c'.queue| <= |c.queue| + |page.items| - i
                  && c'.cursor == if i == |page.items| then c.cursor else Some(page.itemCursors[|page.items| - 1]))
    decreases |page.items| - i
  {
    hide WellFormed, Offer, Terminate, Received;
    if i < |page.items| {
      var d := Event(page.items[i], page.itemCursors[i]);
      assert Owed(page, i) == [d] + Owed(page, i + 1);
      var offered := Offer(cfg, c, d);
      if offered.None? {
        TerminateKeeps(cfg, c, None);
      } else {
        OfferKeeps(cfg, c, d);
        var c1 := offered.value.(cursor := Some(page.itemCursors[i]));
        CursorMoves(cfg, offered.value, Some(page.itemCursors[i]));
        DeliverKeeps(cfg, c1, page, i + 1);
        assert History(c) + [d] + Owed(page, i + 1) == History(c) + Owed(page, i);
      }
    }
  }
}
