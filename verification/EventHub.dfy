/**
 The event hub as it runs: client records updated in place by a hub object.
 Every method is proved against the value-level operation of HubClientSpec that the
 transition system of HubRuns is built from, and the frames say which client a step can
 touch; HubRefinement shows that the methods are the steps of that system.
 */
module EventHub {
  import opened Options
  import opened EventSource
  import Spec = HubClientSpec

  class HubClient {
    var phase: Spec.Phase
    const filter: Filter
    const start: Option<Cursor>
    var cursor: Option<Cursor>
    var queue: seq<Spec.Delivery>
    var queuedBytes: int
    var blockedSince: Option<int>
    var waiters: seq<nat>
    var terminated: bool
    var pulls: nat
    var resolutions: seq<Spec.Resolution>

    function Value(): Spec.Client
      reads this
    {
      Spec.Client(phase, filter, start, cursor, queue, queuedBytes, blockedSince, waiters, terminated, pulls,
                  resolutions)
    }

    constructor (filter: Filter, cursor: Option<Cursor>)
      ensures Value() == Spec.Fresh(filter, cursor)
    {
      this.phase := Spec.Pending;
      this.filter := filter;
      this.start := cursor;
      this.cursor := cursor;
      this.queue := [];
      this.queuedBytes := 0;
      this.blockedSince := None;
      this.waiters := [];
      this.terminated := false;
      this.pulls := 0;
      this.resolutions := [];
    }
  }

  class EventStreamHub {
    const cfg: Spec.Config
    var clients: seq<HubClient>
    var closed: bool
    var running: bool
    /** Every client that ever subscribed. */
    ghost var known: set<HubClient>

    /** Registered means not terminated, and nobody is registered twice. */
    ghost predicate Consistent()
      reads this`clients, this`known, known
    {
      && (forall c :: c in clients ==> c in known)
      && (forall c :: c in known ==> (c in clients <==> !c.terminated) && (c.terminated <==> c.phase.Done?))
      && NoneTwice(clients)
    }

    ghost predicate Valid()
      reads this, known
    {
      Consistent() && (closed ==> clients == [])
    }

    constructor (cfg: Spec.Config)
      ensures Valid() && this.cfg == cfg && clients == [] && known == {} && !closed && !running
    {
      this.cfg := cfg;
      this.clients := [];
      this.closed := false;
      this.running := false;
      this.known := {};
    }

    method Pull(client: HubClient)
      requires Valid() && client in known
      modifies client
      ensures Valid()
      ensures client.Value() == Spec.Pull(cfg, old(client.Value()))
    {
      var pull := client.pulls;
      client.pulls := client.pulls + 1;
      if client.queue != [] {
        var queued := client.queue[0];
        client.queue := client.queue[1..];
        client.queuedBytes := client.queuedBytes - cfg.bytes(queued);
        client.resolutions := client.resolutions + [Spec.Resolution(pull, Spec.Value(queued))];
        return;
      }
      if client.terminated || closed {
        client.resolutions := client.resolutions + [Spec.Resolution(pull, Spec.Finished)];
        return;
      }
      client.waiters := client.waiters + [pull];
    }

    method Flush(client: HubClient)
      requires closed ==> client.terminated
      modifies client
      ensures client.Value() == Spec.Flush(cfg, old(client.Value()))
    {
      hide Spec.Flush;
      while client.waiters != []
        invariant Spec.Flush(cfg, client.Value()) == Spec.Flush(cfg, old(client.Value()))
        invariant client.terminated == old(client.terminated)
        decreases |client.waiters|
      {
        ghost var before := client.Value();
        FlushUnfolds(cfg, before);
        var waiter := client.waiters[0];
        client.waiters := client.waiters[1..];
        if client.queue != [] {
          var queued := client.queue[0];
          client.queue := client.queue[1..];
          client.queuedBytes := client.queuedBytes - cfg.bytes(queued);
          client.resolutions := client.resolutions + [Spec.Resolution(waiter, Spec.Value(queued))];
          assert client.Value() == Spec.AnswerParked(cfg, before);
        } else if client.terminated || closed {
          client.resolutions := client.resolutions + [Spec.Resolution(waiter, Spec.Finished)];
          assert client.Value() == Spec.AnswerParked(cfg, before);
        } else {
          client.waiters := [waiter] + client.waiters;
          assert client.Value() == before;
          return;
        }
      }
      FlushUnfolds(cfg, client.Value());
    }

    method Terminate(client: HubClient, final: Option<Spec.Delivery>)
      requires Consistent() && client in known
      modifies this`clients, client
      ensures Consistent()
      ensures client.Value() == Spec.Terminate(cfg, old(client.Value()), final) && client.terminated
      ensures clients == Without(old(clients), client)
    {
      WithoutKeepsOrder(clients, client);
      WithoutAbsent(clients, client);
      if client !in clients {
        return;
      }
      client.terminated := true;
      client.phase := Spec.Done;
      client.queue := if final.Some? then [final.value] else [];
      client.queuedBytes := 0;
      ghost var closing := client.Value();
      Flush(client);
      Spec.FlushKeepsEnd(cfg, closing);
      clients := Without(clients, client);
    }

    method Enqueue(client: HubClient, delivery: Spec.Delivery) returns (ok: bool)
      requires client.waiters == []
      modifies client
      ensures ok == Spec.Offer(cfg, old(client.Value()), delivery).Some?
      ensures client.Value() == if ok then Spec.Offer(cfg, old(client.Value()), delivery).value else old(client.Value())
    {
      var bytes := cfg.bytes(delivery);
      if |client.queue| + 1 > cfg.maxItems || client.queuedBytes + bytes > cfg.maxBytes {
        return false;
      }
      client.queue := client.queue + [delivery];
      client.queuedBytes := client.queuedBytes + bytes;
      return true;
    }

    method Offer(client: HubClient, delivery: Spec.Delivery) returns (ok: bool)
      modifies client
      ensures ok == Spec.Offer(cfg, old(client.Value()), delivery).Some?
      ensures client.Value() == if ok then Spec.Offer(cfg, old(client.Value()), delivery).value else old(client.Value())
    {
      if client.waiters != [] {
        var waiter := client.waiters[0];
        client.waiters := client.waiters[1..];
        client.resolutions := client.resolutions + [Spec.Resolution(waiter, Spec.Value(delivery))];
        return true;
      }
      ok := Enqueue(client, delivery);
    }

    method Deliver(client: HubClient, page: Page) returns (delivered: bool)
      requires Valid() && client in clients && page.Page?
      modifies this`clients, client
      ensures Valid()
      ensures client.Value() == Spec.Deliver(cfg, old(client.Value()), page, 0)
      ensures delivered == !client.terminated
      ensures clients == if delivered then old(clients) else Without(old(clients), client)
    {
      var index := 0;
      while index < |page.items|
        invariant 0 <= index <= |page.items|
        invariant Valid() && clients == old(clients) && !client.terminated
        invariant Spec.Deliver(cfg, client.Value(), page, index) == Spec.Deliver(cfg, old(client.Value()), page, 0)
      {
        var cursor := Spec.PageCursor(page, index);
        if cursor == None {
          Terminate(client, Some(Spec.ErrorNotice));
          return false;
        }
        ghost var before := client.Value();
        var ok := Offer(client, Spec.Event(page.items[index], cursor.value));
        if !ok {
          Terminate(client, None);
          return false;
        }
        client.cursor := cursor;
        assert client.Value()
               == Spec.Offer(cfg, before, Spec.Event(page.items[index], cursor.value)).value.(cursor := cursor);
        index := index + 1;
      }
      delivered := true;
    }

    method PumpCatchUp(client: HubClient, source: Source) returns (threw: bool)
      requires Valid() && client in clients && client.phase.CatchingUp?
      modifies this`clients, client
      ensures Valid()
      ensures client.Value() == Spec.PumpCatchUp(cfg, old(client.Value()), source).client
      ensures threw == Spec.PumpCatchUp(cfg, old(client.Value()), source).Failed?
      ensures clients == if client.terminated then Without(old(clients), client) else old(clients)
    {
      var head := client.phase.head;
      var limit := Spec.Capacity(cfg, client.Value());
      if limit == 0 {
        return false;
      }
      var page := ReadIndex(source, head, client.filter, client.cursor, head, limit);
      if page == Threw {
        return true;
      }
      if page == Stale {
        Terminate(client, Some(Spec.ResetNotice));
        return false;
      }
      var delivered := Deliver(client, page);
      if !delivered {
        return false;
      }
      if |page.items| < limit {
        client.cursor := Some(head);
        client.phase := Spec.Live;
      }
      threw := false;
    }

    method PumpLive(client: HubClient, source: Source, head: Cursor) returns (threw: bool)
      requires Valid() && client in clients
      modifies this`clients, client
      ensures Valid()
      ensures client.Value() == Spec.PumpLive(cfg, old(client.Value()), source, head).client
      ensures threw == Spec.PumpLive(cfg, old(client.Value()), source, head).Failed?
      ensures clients == if client.terminated then Without(old(clients), client) else old(clients)
    {
      var limit := Spec.Capacity(cfg, client.Value());
      if limit == 0 {
        return false;
      }
      var page := ReadIndex(source, head, client.filter, client.cursor, head, limit);
      if page == Threw {
        return true;
      }
      if page == Stale {
        Terminate(client, Some(Spec.ResetNotice));
        return false;
      }
      var delivered := Deliver(client, page);
      if !delivered {
        return false;
      }
      if |page.items| == 0 {
        client.cursor := Some(head);
      }
      threw := false;
    }

    method CheckStall(client: HubClient, reading: Spec.Reading)
      requires Valid() && client in known
      modifies this`clients, client
      ensures Valid()
      ensures client.Value() == Spec.CheckStall(cfg, old(client.Value()), reading)
      ensures clients == if client.terminated then Without(old(clients), client) else old(clients)
    {
      WithoutAbsent(clients, client);
      if client !in clients {
        return;
      }
      if |client.queue| == 0 {
        client.blockedSince := None;
        return;
      }
      if client.blockedSince == None {
        client.blockedSince := Some(reading.first);
      }
      if reading.second - client.blockedSince.value >= cfg.drainTimeout {
        Terminate(client, None);
      }
    }

    /** Feeding one registered client from the view of this tick. */
    method Feed(client: HubClient, source: Source, head: Cursor) returns (threw: bool)
      requires Valid() && client in clients
      modifies this`clients, client
      ensures Valid()
      ensures client.Value() == Spec.Feed(cfg, old(client.Value()), source, head).client
      ensures threw == Spec.Feed(cfg, old(client.Value()), source, head).Failed?
      ensures clients == if client.terminated then Without(old(clients), client) else old(clients)
    {
      threw := false;
      if client.phase == Spec.Pending {
        client.phase := Spec.CatchingUp(head);
      }
      if client.phase.CatchingUp? {
        threw := PumpCatchUp(client, source);
        if threw {
          return;
        }
      }
      if client.phase.Live? {
        threw := PumpLive(client, source, head);
      }
    }

    /** The part of a tick that concerns one registered client. */
    method TickClient(client: HubClient, source: Source, head: Cursor, reading: Spec.Reading) returns (threw: bool)
      requires Valid() && client in clients
      modifies this`clients, client
      ensures Valid()
      ensures client.Value() == Spec.Tick(cfg, old(client.Value()), source, head, reading).client
      ensures threw == Spec.Tick(cfg, old(client.Value()), source, head, reading).Failed?
      ensures clients == if client.terminated then Without(old(clients), client) else old(clients)
    {
      threw := Feed(client, source, head);
      if threw {
        return;
      }
      WithoutAbsent(clients, client);
      ghost var fed := client.Value();
      CheckStall(client, reading);
      assert fed.terminated ==> client.terminated;
    }

    lemma RegisteredAreLive()
      requires Consistent()
      ensures NoneTwice(clients) && clients == LiveOf(clients, Values(clients))
    {
      forall k | 0 <= k < |clients| ensures !Values(clients)[k].terminated { assert clients[k] in known; }
      AllLive(clients, Values(clients));
    }

    /** The same, seen from the list of clients the round goes over. */
    method TickAt(snapshot: seq<HubClient>, index: nat, source: Source, head: Cursor, reading: Spec.Reading)
      returns (threw: bool)
      requires Valid() && NoneTwice(snapshot) && clients == LiveOf(snapshot, Values(snapshot))
      requires index < |snapshot| && snapshot[index] in clients
      modifies this`clients, snapshot[index]
      ensures Valid() && clients == LiveOf(snapshot, Values(snapshot))
      ensures var now := old(Values(snapshot));
              var ticked := Spec.Tick(cfg, now[index], source, head, reading);
              threw == ticked.Failed? && Values(snapshot) == now[index := ticked.client]
      ensures forall k :: 0 <= k < |snapshot| && k != index && snapshot[k] in old(clients) ==> snapshot[k] in clients
    {
      ghost var now := Values(snapshot);
      assert !now[index].terminated;
      hide Spec.Tick, Without, Consistent, LiveOf;
      threw := TickClient(snapshot[index], source, head, reading);
      ghost var ticked := Spec.Tick(cfg, now[index], source, head, reading);
      assert forall k :: 0 <= k < |snapshot| && k != index ==> snapshot[k] != snapshot[index];
      assert Values(snapshot) == now[index := ticked.client];
      LiveOfUpdate(snapshot, now, index, ticked.client);
    }

    /**
     One tick of the poll loop.  Every client that was registered is ticked by itself,
     whatever becomes of the others; when a read throws, exactly the clients before the
     one it was for have had their tick and the ones after it have not.
     */
    method Tick(source: Source, head: Cursor, clock: HubClient -> Spec.Reading) returns (threw: bool)
      requires Valid()
      modifies this`clients, clients
      ensures Valid()
      ensures clients == LiveOf(old(clients), Values(old(clients)))
      ensures Round(cfg, source, head, Readings(clock, old(clients)), old(Values(clients)), Values(old(clients)), threw)
    {
      hide Spec.Tick, Without, Consistent, Progress, Round, LiveOf;
      var snapshot := clients;
      ghost var before, readings := Values(clients), Readings(clock, clients);
      RegisteredAreLive();
      ProgressStart(cfg, source, head, readings, before);
      var index := 0;
      threw := false;
      while index < |snapshot|
        invariant 0 <= index <= |snapshot| && snapshot == old(clients)
        invariant Valid() && NoneTwice(snapshot)
        invariant clients == LiveOf(snapshot, Values(snapshot))
        invariant forall k :: index <= k < |snapshot| ==> snapshot[k] in clients
        invariant Progress(cfg, source, head, readings, before, Values(snapshot), index)
      {
        ghost var now := Values(snapshot);
        threw := TickAt(snapshot, index, source, head, clock(snapshot[index]));
        ProgressStep(cfg, source, head, readings, before, now, index);
        if threw {
          return;
        }
        index := index + 1;
      }
      ProgressEnds(cfg, source, head, readings, before, Values(snapshot));
    }

    method EnsureLoop() returns (started: bool)
      modifies this`running
      ensures started == (!old(running) && !closed)
      ensures running == (old(running) || started)
    {
      if running || closed {
        return false;
      }
      running := true;
      started := true;
    }

    /** The loop's end resets the flag, some time after the loop has returned. */
    method LoopSettles()
      modifies this`running
      ensures !running
    {
      running := false;
    }

    method SubscribeClient(filter: Filter, cursor: Option<Cursor>, aborted: bool)
      returns (client: HubClient?, started: bool)
      requires Valid()
      modifies this
      ensures Valid() && closed == old(closed)
      ensures old(closed) ==>
                && client == null && !started && clients == old(clients) && known == old(known)
                   && running == old(running)
      ensures !old(closed) ==>
                && client != null && fresh(client) && known == old(known) + {client}
                && client.Value()
                   == (if aborted then Spec.Terminate(cfg, Spec.Fresh(filter, cursor), None)
                       else Spec.Fresh(filter, cursor))
                && client.filter == filter && client.start == cursor && client.terminated == aborted
                && (!aborted ==>
                      client.phase == Spec.Pending && client.cursor == cursor && client.queue == []
                      && client.waiters == [] && client.resolutions == [] && client.blockedSince == None)
                && clients == old(clients) + (if aborted then [] else [client])
                && running && started == !old(running)
    {
      hide Spec.Terminate, Without;
      if closed {
        return null, false;
      }
      client := new HubClient(filter, cursor);
      clients := clients + [client];
      known := known + {client};
      if aborted {
        Terminate(client, None);
        WithoutLast(old(clients), client);
      }
      started := EnsureLoop();
    }

    /** Ending everyone: on close, and with an error when the source cannot be refreshed. */
    method TerminateEach(final: Option<Spec.Delivery>)
      requires Consistent()
      modifies this`clients, clients
      ensures Consistent() && clients == []
      ensures forall c :: c in old(clients) ==> c.Value() == Spec.Terminate(cfg, old(c.Value()), final)
    {
      var snapshot := clients;
      assert forall j :: 0 <= j < |snapshot| ==> snapshot[j] in known;
      hide Spec.Terminate, Without, Consistent, NoneTwice;
      var index := 0;
      while index < |snapshot|
        invariant 0 <= index <= |snapshot| && snapshot == old(clients)
        invariant Consistent() && NoneTwice(snapshot) && clients == snapshot[index..]
        invariant forall j ::
                    0 <= j < index ==> snapshot[j].Value() == Spec.Terminate(cfg, old(snapshot[j].Value()), final)
        invariant forall j :: index <= j < |snapshot| ==> snapshot[j].Value() == old(snapshot[j].Value())
      {
        WithoutNext(snapshot, index);
        Terminate(snapshot[index], final);
        index := index + 1;
      }
    }

    method Close()
      requires Valid()
      modifies this, clients
      ensures Valid() && closed && known == old(known) && running == old(running)
      ensures !old(closed) ==> forall c :: c in old(clients) ==> c.Value() == Spec.Terminate(cfg, old(c.Value()), None)
    {
      hide Spec.Terminate;
      if closed {
        return;
      }
      closed := true;
      TerminateEach(None);
    }
  }

  /** The clients as values. */
  ghost function Values(clients: seq<HubClient>): seq<Spec.Client>
    reads clients
  {
    seq(|clients|, i requires 0 <= i < |clients| reads clients => clients[i].Value())
  }

  /** The clients whose values are not terminated, in order. */
  ghost function LiveOf(clients: seq<HubClient>, values: seq<Spec.Client>): (r: seq<HubClient>)
    requires |values| == |clients|
    ensures forall i :: 0 <= i < |r| ==> r[i] in clients
  {
    if clients == [] then []
    else
      var rest := LiveOf(clients[1..], values[1..]);
      if values[0].terminated then rest else [clients[0]] + rest
  }

  lemma {:induction false} AllLive(clients: seq<HubClient>, values: seq<Spec.Client>)
    requires |values| == |clients| && forall i :: 0 <= i < |values| ==> !values[i].terminated
    ensures LiveOf(clients, values) == clients
  {
    if clients != [] {
      AllLive(clients[1..], values[1..]);
      assert clients == [clients[0]] + clients[1..];
    }
  }

  /** When one client's value changes, it leaves the list exactly if it ends by that. */
  lemma {:induction false} LiveOfUpdate(clients: seq<HubClient>, values: seq<Spec.Client>, k: nat, v: Spec.Client)
    requires |values| == |clients| && k < |clients| && NoneTwice(clients)
    requires values[k].terminated ==> v.terminated
    ensures var live := LiveOf(clients, values);
            LiveOf(clients, values[k := v]) == if v.terminated then Without(live, clients[k]) else live
    decreases |clients|
  {
    hide Without, LiveOf;
    var rest := LiveOf(clients[1..], values[1..]);
    assert NoneTwice(clients[1..]) && values[k := v] != [];
    LiveOfFirst(clients, values);
    LiveOfFirst(clients, values[k := v]);
    WithoutCons(clients[0], rest, clients[k]);
    if k == 0 {
      assert values[0 := v][1..] == values[1..];
      assert clients[0] !in clients[1..];
      WithoutAbsent(rest, clients[0]);
    } else {
      assert values[k := v][1..] == values[1..][k - 1 := v];
      LiveOfUpdate(clients[1..], values[1..], k - 1, v);
    }
  }

  lemma LiveOfFirst(clients: seq<HubClient>, values: seq<Spec.Client>)
    requires |values| == |clients| && clients != []
    ensures var rest := LiveOf(clients[1..], values[1..]);
            LiveOf(clients, values) == if values[0].terminated then rest else [clients[0]] + rest
  {
  }

  lemma WithoutCons(c: HubClient, clients: seq<HubClient>, client: HubClient)
    ensures Without([c] + clients, client) == (if c == client then [] else [c]) + Without(clients, client)
  {
    assert ([c] + clients)[1..] == clients;
  }

  ghost function Readings(clock: HubClient -> Spec.Reading, clients: seq<HubClient>): seq<Spec.Reading> {
    seq(|clients|, i requires 0 <= i < |clients| => clock(clients[i]))
  }

  /** The first n clients have been ticked without a throw, the others have not been touched. */
  ghost predicate Progress(cfg: Spec.Config, source: Source, head: Cursor, readings: seq<Spec.Reading>,
                           before: seq<Spec.Client>, now: seq<Spec.Client>, n: nat)
  {
    && |readings| == |before| == |now| && n <= |now|
    && (forall k :: 0 <= k < n ==> Spec.Tick(cfg, before[k], source, head, readings[k]) == Spec.Pumped(now[k]))
    && (forall k :: n <= k < |now| ==> now[k] == before[k])
  }

  /** A whole round, or one cut short at the client whose read threw. */
  ghost predicate Round(cfg: Spec.Config, source: Source, head: Cursor, readings: seq<Spec.Reading>,
                        before: seq<Spec.Client>, after: seq<Spec.Client>, threw: bool)
  {
    if threw then exists n :: CutAt(cfg, source, head, readings, before, after, n)
    else Progress(cfg, source, head, readings, before, after, |after|)
  }

  ghost predicate CutAt(cfg: Spec.Config, source: Source, head: Cursor, readings: seq<Spec.Reading>,
                        before: seq<Spec.Client>, after: seq<Spec.Client>, n: nat)
  {
    && |readings| == |before| == |after| && n < |after|
    && Spec.Tick(cfg, before[n], source, head, readings[n]) == Spec.Failed(after[n])
    && Progress(cfg, source, head, readings, before, after[n := before[n]], n)
  }

  lemma ProgressStart(cfg: Spec.Config, source: Source, head: Cursor, readings: seq<Spec.Reading>,
                      before: seq<Spec.Client>)
    requires |readings| == |before|
    ensures Progress(cfg, source, head, readings, before, before, 0)
  {
  }

  lemma ProgressEnds(cfg: Spec.Config, source: Source, head: Cursor, readings: seq<Spec.Reading>,
                     before: seq<Spec.Client>, now: seq<Spec.Client>)
    requires Progress(cfg, source, head, readings, before, now, |now|)
    ensures Round(cfg, source, head, readings, before, now, false)
  {
  }

  lemma ProgressStep(cfg: Spec.Config, source: Source, head: Cursor, readings: seq<Spec.Reading>,
                     before: seq<Spec.Client>, now: seq<Spec.Client>, n: nat)
    requires Progress(cfg, source, head, readings, before, now, n) && n < |now|
    ensures |readings| == |before| == |now|
    ensures var ticked := Spec.Tick(cfg, now[n], source, head, readings[n]);
            var after := now[n := ticked.client];
            && (ticked.Pumped? ==> Progress(cfg, source, head, readings, before, after, n + 1))
            && (ticked.Failed? ==> Round(cfg, source, head, readings, before, after, true))
  {
    hide Spec.Tick;
    var ticked := Spec.Tick(cfg, now[n], source, head, readings[n]);
    if ticked.Failed? {
      assert now[n := ticked.client][n := before[n]] == now;
      assert CutAt(cfg, source, head, readings, before, now[n := ticked.client], n);
    }
  }

  /** The registered clients after one has left. */
  function Without(clients: seq<HubClient>, client: HubClient): (r: seq<HubClient>)
    ensures forall i :: 0 <= i < |r| ==> r[i] in clients && r[i] != client
    ensures forall i :: 0 <= i < |clients| && clients[i] != client ==> clients[i] in r
  {
    if clients == [] then []
    else if clients[0] == client then Without(clients[1..], client)
    else [clients[0]] + Without(clients[1..], client)
  }

  predicate NoneTwice(clients: seq<HubClient>) {
    forall i, j :: 0 <= i < j < |clients| ==> clients[i] != clients[j]
  }

  lemma {:induction false} WithoutKeepsOrder(clients: seq<HubClient>, client: HubClient)
    requires NoneTwice(clients)
    ensures NoneTwice(Without(clients, client))
  {
    if clients != [] {
      var rest := Without(clients[1..], client);
      WithoutKeepsOrder(clients[1..], client);
      if clients[0] != client {
        var r := Without(clients, client);
        assert r == [clients[0]] + rest;
        forall i, j | 0 <= i < j < |r| ensures r[i] != r[j] {
          assert r[j] == rest[j - 1] && rest[j - 1] in clients[1..];
          if i > 0 {
            assert r[i] == rest[i - 1];
          } else {
            var k :| 0 <= k < |clients| - 1 && clients[1..][k] == r[j];
            assert clients[0] != clients[k + 1];
          }
        }
      }
    }
  }

  lemma {:induction false} WithoutAbsent(clients: seq<HubClient>, client: HubClient)
    ensures client !in clients ==> Without(clients, client) == clients
  {
    if clients != [] {
      WithoutAbsent(clients[1..], client);
    }
  }

  lemma WithoutNext(clients: seq<HubClient>, index: nat)
    requires index < |clients| && NoneTwice(clients)
    ensures Without(clients[index..], clients[index]) == clients[index + 1..]
    ensures forall j :: 0 <= j < |clients| && j != index ==> clients[j] != clients[index]
  {
    hide Without;
    WithoutFirst(clients[index..]);
  }

  lemma WithoutFirst(clients: seq<HubClient>)
    requires clients != [] && NoneTwice(clients)
    ensures Without(clients, clients[0]) == clients[1..]
  {
    WithoutAbsent(clients[1..], clients[0]);
  }

  lemma {:induction false} WithoutLast(clients: seq<HubClient>, client: HubClient)
    requires client !in clients
    ensures Without(clients + [client], client) == clients
  {
    if clients == [] {
      assert [client][1..] == [];
    } else {
      assert (clients + [client])[1..] == clients[1..] + [client];
      WithoutLast(clients[1..], client);
    }
  }

  lemma FlushUnfolds(cfg: Spec.Config, c: Spec.Client)
    ensures c.waiters == [] || (c.queue == [] && !c.terminated) ==> Spec.Flush(cfg, c) == c
    ensures c.waiters != [] && (c.queue != [] || c.terminated) ==>
              Spec.Flush(cfg, c) == Spec.Flush(cfg, Spec.AnswerParked(cfg, c))
  {
  }
}
