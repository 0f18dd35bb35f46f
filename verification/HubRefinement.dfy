/**
 The hub object is a refinement of the transition system: its clients in the order they
 subscribed are the transition system's clients, and each of its methods is one step there.
 */
module HubRefinement {
  import opened Options
  import opened EventSource
  import opened HubRuns
  import opened EventHub
  import Spec = HubClientSpec

  ghost function Upto(n: nat): seq<nat> {
    seq(n, i requires 0 <= i < n => i)
  }

  ghost function Numbered(values: seq<Spec.Client>): map<nat, Spec.Client> {
    map i: nat | i < |values| :: values[i]
  }

  /** The object with its roster of all clients that ever subscribed stands for the state `h`. */
  ghost predicate Refines(hub: EventStreamHub, roster: seq<HubClient>, h: Hub)
    reads hub, hub.known, roster
  {
    && hub.Valid() && NoneTwice(roster) && (set c | c in roster) == hub.known
    && hub.clients == LiveOf(roster, Values(roster))
    && h.cfg == hub.cfg && h.closed == hub.closed && (hub.running <==> !h.loop.Idle?)
    && h.clients == Numbered(Values(roster)) && h.order == Upto(|roster|)
  }

  lemma RosterIsOrdered(h: Hub, values: seq<Spec.Client>)
    requires h.clients == Numbered(values) && h.order == Upto(|values|)
    ensures Ordered(h)
  {
    forall id | id in h.clients ensures id in h.order { assert h.order[id] == id; }
  }

  lemma NumberedHas(values: seq<Spec.Client>, k: nat)
    requires k < |values|
    ensures k in Numbered(values) && Numbered(values)[k] == values[k]
  {
  }

  lemma NumberedUpdate(values: seq<Spec.Client>, k: nat, v: Spec.Client)
    requires k < |values|
    ensures Numbered(values[k := v]) == Numbered(values)[k := v]
  {
  }

  /** A new hub stands for the start. */
  method StartRefines(cfg: Spec.Config) returns (hub: EventStreamHub)
    ensures fresh(hub) && Refines(hub, [], Start(cfg))
  {
    hub := new EventStreamHub(cfg);
    assert Numbered([]) == map[] && Upto(0) == [];
  }

  method PullRefines(hub: EventStreamHub, client: HubClient, ghost roster: seq<HubClient>, ghost k: nat, ghost h: Hub)
    requires Refines(hub, roster, h) && k < |roster| && roster[k] == client
    modifies client
    ensures Ordered(h) && Possible(h, PullNext(k)) && Refines(hub, roster, Next(h, PullNext(k)))
  {
    hide Spec.Pull, LiveOf, Numbered, Upto, Anyone;
    ghost var values := Values(roster);
    RosterIsOrdered(h, values);
    ghost var pulled := Spec.Pull(hub.cfg, values[k]);
    NumberedUpdate(values, k, pulled);
    NumberedHas(values, k);
    PullKeepsEnd(hub.cfg, values[k]);
    LiveStays(roster, values, k, pulled);
    hub.Pull(client);
    assert Values(roster) == values[k := pulled];
  }

  lemma PullKeepsEnd(cfg: Spec.Config, c: Spec.Client)
    ensures Spec.Pull(cfg, c).terminated == c.terminated
  {
  }

  lemma {:induction false} LiveStays(clients: seq<HubClient>, values: seq<Spec.Client>, k: nat, v: Spec.Client)
    requires |values| == |clients| && k < |clients| && v.terminated == values[k].terminated
    ensures LiveOf(clients, values[k := v]) == LiveOf(clients, values)
    decreases |clients|
  {
    if k == 0 {
      assert values[0 := v][1..] == values[1..];
    } else {
      assert values[k := v][1..] == values[1..][k - 1 := v];
      LiveStays(clients[1..], values[1..], k - 1, v);
    }
  }

  /** What an abort is in the transition system. */
  lemma AbortStep(h: Hub, values: seq<Spec.Client>, k: nat)
    requires h.clients == Numbered(values) && h.order == Upto(|values|) && k < |values|
    ensures var ended := Spec.Terminate(h.cfg, values[k], None);
            && Ordered(h) && Possible(h, Abort(k)) && ended.terminated
            && Next(h, Abort(k)) == h.(clients := Numbered(values[k := ended]))
  {
    hide Spec.Terminate, Numbered, Upto, Anyone;
    RosterIsOrdered(h, values);
    NumberedHas(values, k);
    NumberedUpdate(values, k, Spec.Terminate(h.cfg, values[k], None));
    Spec.TerminateEnds(h.cfg, values[k], None);
  }

  method AbortRefines(hub: EventStreamHub, client: HubClient, ghost roster: seq<HubClient>, ghost k: nat, ghost h: Hub)
    requires Refines(hub, roster, h) && k < |roster| && roster[k] == client
    modifies hub`clients, client
    ensures Ordered(h) && Possible(h, Abort(k)) && Refines(hub, roster, Next(h, Abort(k)))
  {
    hide Spec.Terminate, LiveOf, Without, Numbered, Upto, Ordered, Possible, Next;
    ghost var values := Values(roster);
    ghost var ended := Spec.Terminate(hub.cfg, values[k], None);
    AbortStep(h, values, k);
    LiveOfUpdate(roster, values, k, ended);
    WithoutNothing(client);
    assert client in hub.known;
    hub.Terminate(client, None);
    assert Values(roster) == values[k := ended];
  }

  lemma WithoutNothing(client: HubClient)
    ensures Without([], client) == []
  {
  }

  // ----- Subscribing -----

  lemma {:induction false} LiveOfSnoc(clients: seq<HubClient>, values: seq<Spec.Client>, c: HubClient, v: Spec.Client)
    requires |values| == |clients|
    ensures LiveOf(clients + [c], values + [v]) == LiveOf(clients, values) + if v.terminated then [] else [c]
    decreases |clients|
  {
    if clients == [] {
      assert (clients + [c])[1..] == [] && (values + [v])[1..] == [];
    } else {
      assert (clients + [c])[1..] == clients[1..] + [c] && (values + [v])[1..] == values[1..] + [v];
      LiveOfSnoc(clients[1..], values[1..], c, v);
    }
  }

  lemma NumberedSnoc(values: seq<Spec.Client>, v: Spec.Client)
    ensures Numbered(values + [v]) == Numbered(values)[|values| := v]
    ensures Upto(|values| + 1) == Upto(|values|) + [|values|]
  {
  }

  /** What a subscription is in the transition system, apart from where it leaves the loop. */
  lemma SubscribeStep(h: Hub, values: seq<Spec.Client>, filter: Filter, cursor: Option<Cursor>, aborted: bool)
    requires h.clients == Numbered(values) && h.order == Upto(|values|)
    ensures Ordered(h) && Possible(h, Subscribe(|values|, filter, cursor, aborted))
    ensures var joined := Spec.Fresh(filter, cursor);
            var v := if aborted then Spec.Terminate(h.cfg, joined, None) else joined;
            var h' := Next(h, Subscribe(|values|, filter, cursor, aborted));
            && (h.closed ==> h' == h)
            && (!h.closed ==> h'.cfg == h.cfg && !h'.closed && !h'.loop.Idle?
                              && h'.clients == Numbered(values + [v]) && h'.order == Upto(|values| + 1))
  {
    hide Spec.Terminate, Anyone;
    RosterIsOrdered(h, values);
    var joined := Spec.Fresh(filter, cursor);
    NumberedSnoc(values, if aborted then Spec.Terminate(h.cfg, joined, None) else joined);
  }

  method SubscribeRefines(hub: EventStreamHub, filter: Filter, cursor: Option<Cursor>, aborted: bool,
                          ghost roster: seq<HubClient>, ghost h: Hub)
    returns (client: HubClient?, ghost roster': seq<HubClient>)
    requires Refines(hub, roster, h)
    modifies hub
    ensures var step := Subscribe(|roster|, filter, cursor, aborted);
            Ordered(h) && Possible(h, step) && Refines(hub, roster', Next(h, step))
    ensures roster' == roster + if client == null then [] else [client]
  {
    hide Spec.Terminate, LiveOf;
    ghost var values := Values(roster);
    SubscribeStep(h, values, filter, cursor, aborted);
    var started;
    client, started := hub.SubscribeClient(filter, cursor, aborted);
    if client == null {
      roster' := roster;
      assert roster + [] == roster;
      assert Values(roster) == values;
    } else {
      roster' := roster + [client];
      ghost var v := client.Value();
      assert Values(roster') == values + [v];
      FreshEnds(hub.cfg, filter, cursor);
      LiveOfSnoc(roster, values, client, v);
    }
  }

  lemma FreshEnds(cfg: Spec.Config, filter: Filter, cursor: Option<Cursor>)
    ensures !Spec.Fresh(filter, cursor).terminated && Spec.Terminate(cfg, Spec.Fresh(filter, cursor), None).terminated
  {
  }

  // ----- Ending everyone -----

  lemma {:induction false} NoneLive(clients: seq<HubClient>, values: seq<Spec.Client>)
    requires |values| == |clients|
    ensures LiveOf(clients, values) == [] <==> forall i :: 0 <= i < |values| ==> values[i].terminated
    decreases |clients|
  {
    if clients != [] {
      NoneLive(clients[1..], values[1..]);
      assert values == [values[0]] + values[1..];
    }
  }

  ghost function EndedValues(cfg: Spec.Config, values: seq<Spec.Client>,
                             final: Option<Spec.Delivery>): seq<Spec.Client> {
    seq(|values|, i requires 0 <= i < |values| => Spec.Terminate(cfg, values[i], final))
  }

  lemma NumberedEnded(cfg: Spec.Config, values: seq<Spec.Client>, final: Option<Spec.Delivery>)
    ensures Numbered(EndedValues(cfg, values, final)) == TerminateAll(cfg, Numbered(values), final)
  {
    hide Spec.Terminate;
  }

  lemma EndedStays(cfg: Spec.Config, c: Spec.Client, final: Option<Spec.Delivery>)
    ensures c.terminated ==> Spec.Terminate(cfg, c, final) == c
  {
  }

  /** Who is registered, among all. */
  lemma RosterRegistration(hub: EventStreamHub, roster: seq<HubClient>, k: nat)
    requires hub.Valid() && (set c | c in roster) == hub.known && k < |roster|
    ensures roster[k] in hub.known && (roster[k] in hub.clients <==> !roster[k].terminated)
  {
    assert roster[k] in hub.known;
  }

  /** When everyone registered has ended, the roster has ended. */
  lemma EveryoneEnded(hub: EventStreamHub, roster: seq<HubClient>)
    requires hub.Consistent() && (set c | c in roster) == hub.known && hub.clients == []
    ensures LiveOf(roster, Values(roster)) == []
  {
    forall k | 0 <= k < |roster| ensures Values(roster)[k].terminated { assert roster[k] in hub.known; }
    NoneLive(roster, Values(roster));
  }

  method CloseRefines(hub: EventStreamHub, ghost roster: seq<HubClient>, ghost h: Hub)
    requires Refines(hub, roster, h)
    modifies hub, hub.clients
    ensures Ordered(h) && Possible(h, HubRuns.Close) && Refines(hub, roster, Next(h, HubRuns.Close))
  {
    hide Spec.Terminate, LiveOf, Numbered, Upto, Anyone;
    ghost var values, registered, open := Values(roster), hub.clients, !hub.closed;
    RosterIsOrdered(h, values);
    NumberedEnded(hub.cfg, values, None);
    forall k | 0 <= k < |roster| ensures roster[k] in registered <==> !values[k].terminated {
      RosterRegistration(hub, roster, k);
    }
    hub.Close();
    EveryoneEnded(hub, roster);
    if open {
      forall k | 0 <= k < |roster| ensures roster[k].Value() == Spec.Terminate(hub.cfg, values[k], None) {
        if roster[k] !in registered { EndedStays(hub.cfg, values[k], None); }
      }
      assert Values(roster) == EndedValues(hub.cfg, values, None);
    } else {
      assert Values(roster) == values;
    }
  }

  /** A refresh that fails ends everyone with an error; the loop returns, and its flag is still set. */
  method RefreshFailsRefines(hub: EventStreamHub, ghost roster: seq<HubClient>, ghost h: Hub)
    requires Refines(hub, roster, h) && h.loop.Refreshing?
    modifies hub`clients, hub.clients
    ensures Ordered(h) && Possible(h, RefreshFails) && Refines(hub, roster, Next(h, RefreshFails))
  {
    hide Spec.Terminate, LiveOf, Numbered, Upto, Anyone;
    ghost var values, registered, notice := Values(roster), hub.clients, Some(Spec.ErrorNotice);
    RosterIsOrdered(h, values);
    NumberedEnded(hub.cfg, values, notice);
    forall k | 0 <= k < |roster| ensures roster[k] in registered <==> !values[k].terminated {
      RosterRegistration(hub, roster, k);
    }
    hub.TerminateEach(Some(Spec.ErrorNotice));
    EveryoneEnded(hub, roster);
    forall k | 0 <= k < |roster| ensures roster[k].Value() == Spec.Terminate(hub.cfg, values[k], notice) {
      if roster[k] !in registered { EndedStays(hub.cfg, values[k], notice); }
    }
    assert Values(roster) == EndedValues(hub.cfg, values, notice);
  }

  /** Steps of the source, a refresh that succeeds and the end of a sleep leave the object as it is. */
  lemma OutsideRefines(hub: EventStreamHub, roster: seq<HubClient>, h: Hub, step: Step)
    requires Refines(hub, roster, h)
    requires || step.Append? || (step.Retract? && step.position < |h.source[|h.source| - 1].items|) || step.Rotate?
             || (step.Refresh? && h.loop.Refreshing?) || (step.Wake? && h.loop.Sleeping?)
    ensures Ordered(h) && Possible(h, step) && Refines(hub, roster, Next(h, step))
  {
    hide LiveOf, Numbered, Upto, Anyone;
    RosterIsOrdered(h, Values(roster));
  }

  method LoopSettlesRefines(hub: EventStreamHub, ghost roster: seq<HubClient>, ghost h: Hub)
    requires Refines(hub, roster, h) && h.loop.Exited?
    modifies hub`running
    ensures Ordered(h) && Possible(h, LoopSettles) && Refines(hub, roster, Next(h, LoopSettles))
  {
    RosterIsOrdered(h, Values(roster));
    hub.LoopSettles();
  }

  // ----- A tick as a sweep over a list -----

  /** Ticking the clients of a list one after the other, up to the first whose read throws. */
  function SweepList(cfg: Spec.Config, source: Source, head: Cursor, readings: seq<Spec.Reading>,
                     values: seq<Spec.Client>)
      : (r: (seq<Spec.Client>, bool))
    requires |readings| == |values|
    ensures |r.0| == |values|
  {
    if values == [] then ([], false)
    else
      var ticked := Spec.Tick(cfg, values[0], source, head, readings[0]);
      if ticked.Failed? then ([ticked.client] + values[1..], true)
      else
        var rest := SweepList(cfg, source, head, readings[1..], values[1..]);
        ([ticked.client] + rest.0, rest.1)
  }

  /** What the hub's round does is such a sweep. */
  lemma {:induction false} RoundIsSweep(cfg: Spec.Config, source: Source, head: Cursor, readings: seq<Spec.Reading>,
                                        before: seq<Spec.Client>, after: seq<Spec.Client>, threw: bool)
    requires |readings| == |before| == |after| && Round(cfg, source, head, readings, before, after, threw)
    ensures SweepList(cfg, source, head, readings, before) == (after, threw)
    decreases |before|
  {
    hide Spec.Tick;
    if before != [] {
      assert after == [after[0]] + after[1..];
      if threw && CutAt(cfg, source, head, readings, before, after, 0) {
        CutFirst(cfg, source, head, readings, before, after);
      } else {
        RoundTail(cfg, source, head, readings, before, after, threw);
        hide Round;
        RoundIsSweep(cfg, source, head, readings[1..], before[1..], after[1..], threw);
      }
    }
  }

  lemma CutFirst(cfg: Spec.Config, source: Source, head: Cursor, readings: seq<Spec.Reading>,
                 before: seq<Spec.Client>, after: seq<Spec.Client>)
    requires before != [] && CutAt(cfg, source, head, readings, before, after, 0)
    ensures |readings| == |before| && Spec.Tick(cfg, before[0], source, head, readings[0]) == Spec.Failed(after[0])
    ensures after == [after[0]] + before[1..]
  {
    hide Spec.Tick;
    assert after[0 := before[0]] == before;
  }

  lemma RoundTail(cfg: Spec.Config, source: Source, head: Cursor, readings: seq<Spec.Reading>,
                  before: seq<Spec.Client>, after: seq<Spec.Client>, threw: bool)
    requires |readings| == |before| == |after| && before != []
             && Round(cfg, source, head, readings, before, after, threw)
    requires !CutAt(cfg, source, head, readings, before, after, 0) || !threw
    ensures Spec.Tick(cfg, before[0], source, head, readings[0]) == Spec.Pumped(after[0])
    ensures Round(cfg, source, head, readings[1..], before[1..], after[1..], threw)
  {
    hide Spec.Tick;
    if threw {
      var n: nat :| CutAt(cfg, source, head, readings, before, after, n);
      assert after[n := before[n]][1..] == after[1..][n - 1 := before[1..][n - 1]];
      ProgressTail(cfg, source, head, readings, before, after[n := before[n]], n);
      assert CutAt(cfg, source, head, readings[1..], before[1..], after[1..], n - 1);
    } else {
      ProgressTail(cfg, source, head, readings, before, after, |after|);
    }
  }

  lemma ProgressTail(cfg: Spec.Config, source: Source, head: Cursor, readings: seq<Spec.Reading>,
                     before: seq<Spec.Client>, now: seq<Spec.Client>, n: nat)
    requires Progress(cfg, source, head, readings, before, now, n) && n > 0
    ensures Spec.Tick(cfg, before[0], source, head, readings[0]) == Spec.Pumped(now[0])
    ensures Progress(cfg, source, head, readings[1..], before[1..], now[1..], n - 1)
  {
    hide Spec.Tick;
    forall k | 0 <= k < n - 1
      ensures Spec.Tick(cfg, before[1..][k], source, head, readings[1..][k]) == Spec.Pumped(now[1..][k])
    {
      assert before[1..][k] == before[k + 1] && readings[1..][k] == readings[k + 1] && now[1..][k] == now[k + 1];
    }
  }

  // ----- Registered clients among all -----

  /** The entries that belong to clients that have not ended. */
  ghost function PickBy<T>(values: seq<Spec.Client>, ws: seq<T>): (r: seq<T>)
    requires |ws| == |values|
  {
    if values == [] then []
    else
      var rest := PickBy(values[1..], ws[1..]);
      if values[0].terminated then rest else [ws[0]] + rest
  }

  lemma {:induction false} PickLength<T>(values: seq<Spec.Client>, ws: seq<T>, clients: seq<HubClient>)
    requires |ws| == |values| == |clients|
    ensures |PickBy(values, ws)| == |LiveOf(clients, values)|
    decreases |values|
  {
    if values != [] { PickLength(values[1..], ws[1..], clients[1..]); }
  }

  lemma {:induction false} ValuesOfLive(clients: seq<HubClient>, values: seq<Spec.Client>)
    requires |values| == |clients|
    ensures Values(LiveOf(clients, values)) == PickBy(values, Values(clients))
    decreases |clients|
  {
    if clients != [] {
      ValuesOfLive(clients[1..], values[1..]);
      var rest := LiveOf(clients[1..], values[1..]);
      assert Values(clients)[1..] == Values(clients[1..]) && Values(clients)[0] == clients[0].Value();
      assert Values([clients[0]] + rest) == [clients[0].Value()] + Values(rest);
    }
  }

  lemma {:induction false} ReadingsOfLive(clock: HubClient -> Spec.Reading, clients: seq<HubClient>,
                                          values: seq<Spec.Client>)
    requires |values| == |clients|
    ensures Readings(clock, LiveOf(clients, values)) == PickBy(values, Readings(clock, clients))
    decreases |clients|
  {
    if clients != [] {
      ReadingsOfLive(clock, clients[1..], values[1..]);
      var rest := LiveOf(clients[1..], values[1..]);
      assert Readings(clock, clients)[1..] == Readings(clock, clients[1..]);
      assert Readings(clock, [clients[0]] + rest) == [clock(clients[0])] + Readings(clock, rest);
    }
  }

  /** Nobody comes back: what had ended is as it was. */
  ghost predicate EndedKept(values: seq<Spec.Client>, ws: seq<Spec.Client>) {
    |ws| == |values| && forall i :: 0 <= i < |values| && values[i].terminated ==> ws[i] == values[i]
  }

  lemma EndedKeptTail(values: seq<Spec.Client>, ws: seq<Spec.Client>)
    requires EndedKept(values, ws) && values != []
    ensures EndedKept(values[1..], ws[1..])
  {
    forall i | 0 <= i < |values| - 1 && values[1..][i].terminated ensures ws[1..][i] == values[1..][i] {
      assert values[1..][i] == values[i + 1] && ws[1..][i] == ws[i + 1];
    }
  }

  lemma {:induction false} LiveOfLive(clients: seq<HubClient>, values: seq<Spec.Client>, ws: seq<Spec.Client>)
    requires |values| == |clients| && EndedKept(values, ws)
    ensures |PickBy(values, ws)| == |LiveOf(clients, values)|
    ensures LiveOf(LiveOf(clients, values), PickBy(values, ws)) == LiveOf(clients, ws)
    decreases |clients|
  {
    PickLength(values, ws, clients);
    if clients != [] {
      EndedKeptTail(values, ws);
      PickLength(values[1..], ws[1..], clients[1..]);
      LiveOfLive(clients[1..], values[1..], ws[1..]);
      var live, picked := LiveOf(clients[1..], values[1..]), PickBy(values[1..], ws[1..]);
      assert ([clients[0]] + live)[1..] == live && ([ws[0]] + picked)[1..] == picked;
    }
  }

  lemma TickOfEnded(cfg: Spec.Config, c: Spec.Client, source: Source, head: Cursor, reading: Spec.Reading)
    requires c.terminated
    ensures Spec.Tick(cfg, c, source, head, reading) == Spec.Pumped(c)
  {
  }

  /** Sweeping the registered clients is sweeping all of them. */
  lemma {:induction false} SweepSkipsEnded(cfg: Spec.Config, source: Source, head: Cursor, readings: seq<Spec.Reading>,
                                           values: seq<Spec.Client>, ws: seq<Spec.Client>, threw: bool)
    requires |readings| == |values| && EndedKept(values, ws)
    requires |PickBy(values, readings)| == |PickBy(values, values)|
    requires SweepList(cfg, source, head, PickBy(values, readings), PickBy(values, values))
             == (PickBy(values, ws), threw)
    ensures SweepList(cfg, source, head, readings, values) == (ws, threw)
    decreases |values|
  {
    hide Spec.Tick;
    if values != [] {
      assert ws == [ws[0]] + ws[1..] && values == [values[0]] + values[1..];
      EndedKeptTail(values, ws);
      if values[0].terminated {
        TickOfEnded(cfg, values[0], source, head, readings[0]);
        SweepSkipsEnded(cfg, source, head, readings[1..], values[1..], ws[1..], threw);
      } else {
        var rs, vs, us := PickBy(values[1..], readings[1..]), PickBy(values[1..], values[1..]),
            PickBy(values[1..], ws[1..]);
        assert ([readings[0]] + rs)[1..] == rs && ([values[0]] + vs)[1..] == vs;
        assert ([ws[0]] + us)[1..] == us;
        var ticked := Spec.Tick(cfg, values[0], source, head, readings[0]);
        if ticked.Failed? {
          assert [ticked.client] + vs == [ws[0]] + us;
          assert vs == us by { assert ([ticked.client] + vs)[1..] == vs; }
          PickDetermines(values[1..], ws[1..]);
        } else {
          var rest := SweepList(cfg, source, head, rs, vs);
          assert [ticked.client] + rest.0 == [ws[0]] + us;
          assert rest.0 == us by { assert ([ticked.client] + rest.0)[1..] == rest.0; }
          SweepSkipsEnded(cfg, source, head, readings[1..], values[1..], ws[1..], threw);
        }
      }
    }
  }

  lemma {:induction false} PickDetermines(values: seq<Spec.Client>, ws: seq<Spec.Client>)
    requires EndedKept(values, ws) && PickBy(values, values) == PickBy(values, ws)
    ensures ws == values
    decreases |values|
  {
    if values != [] {
      EndedKeptTail(values, ws);
      var vs, us := PickBy(values[1..], values[1..]), PickBy(values[1..], ws[1..]);
      if !values[0].terminated {
        assert ([values[0]] + vs)[1..] == vs && ([ws[0]] + us)[1..] == us && ([values[0]] + vs)[0] == ([ws[0]] + us)[0];
      }
      PickDetermines(values[1..], ws[1..]);
      assert ws == [ws[0]] + ws[1..] && values == [values[0]] + values[1..];
    }
  }

  // ----- The tick of the transition system -----

  ghost function From(k: nat, n: nat): seq<nat>
    requires k <= n
  {
    seq(n - k, i requires 0 <= i < n - k => k + i)
  }

  /** The sweep over numbered clients from one number on is the sweep over the rest of the list. */
  lemma {:induction false} TickAllIsSweep(cfg: Spec.Config, source: Source, head: Cursor, clock: nat -> Spec.Reading,
                                          done: seq<Spec.Client>, values: seq<Spec.Client>, readings: seq<Spec.Reading>)
    requires |readings| == |values| && forall i :: 0 <= i < |values| ==> readings[i] == clock(|done| + i)
    ensures var swept := SweepList(cfg, source, head, readings, values);
            TickAll(cfg, source, head, clock, Numbered(done + values), From(|done|, |done| + |values|))
            == Swept(Numbered(done + swept.0), swept.1)
    decreases |values|
  {
    hide Spec.Tick;
    var k, n := |done|, |done| + |values|;
    if values == [] {
      assert done + [] == done;
    } else {
      assert From(k, n)[0] == k && From(k, n)[1..] == From(k + 1, n);
      assert Numbered(done + values)[k] == values[0] && readings[0] == clock(k + 0);
      var ticked := Spec.Tick(cfg, values[0], source, head, clock(k));
      assert (done + values)[k := ticked.client] == done + ([ticked.client] + values[1..]);
      NumberedUpdate(done + values, k, ticked.client);
      if !ticked.Failed? {
        var now, rest := done + [ticked.client], SweepList(cfg, source, head, readings[1..], values[1..]);
        assert now + values[1..] == done + ([ticked.client] + values[1..]);
        assert now + rest.0 == done + ([ticked.client] + rest.0);
        forall i | 0 <= i < |values| - 1 ensures readings[1..][i] == clock(|now| + i) {
          assert readings[1..][i] == readings[i + 1] && readings[i + 1] == clock(|done| + (i + 1));
        }
        TickAllIsSweep(cfg, source, head, clock, now, values[1..], readings[1..]);
      }
    }
  }

  lemma TickAllOfList(cfg: Spec.Config, source: Source, head: Cursor, clock: nat -> Spec.Reading,
                      values: seq<Spec.Client>, readings: seq<Spec.Reading>)
    requires |readings| == |values| && forall i :: 0 <= i < |values| ==> readings[i] == clock(i)
    ensures forall i :: 0 <= i < |values| ==> Upto(|values|)[i] in Numbered(values)
    ensures var swept := SweepList(cfg, source, head, readings, values);
            TickAll(cfg, source, head, clock, Numbered(values), Upto(|values|)) == Swept(Numbered(swept.0), swept.1)
  {
    hide TickAll, SweepList;
    var swept := SweepList(cfg, source, head, readings, values);
    assert [] + values == values && [] + swept.0 == swept.0 && From(0, |values|) == Upto(|values|);
    TickAllIsSweep(cfg, source, head, clock, [], values, readings);
  }

  lemma SweptRoster(cfg: Spec.Config, source: Source, head: Cursor, readings: seq<Spec.Reading>,
                    values: seq<Spec.Client>, ws: seq<Spec.Client>, threw: bool)
    requires |readings| == |values| && EndedKept(values, ws)
    requires Round(cfg, source, head, PickBy(values, readings), PickBy(values, values), PickBy(values, ws), threw)
    ensures SweepList(cfg, source, head, readings, values) == (ws, threw)
  {
    hide PickBy, SweepList, Round;
    RoundLengths(cfg, source, head, PickBy(values, readings), PickBy(values, values), PickBy(values, ws), threw);
    RoundIsSweep(cfg, source, head, PickBy(values, readings), PickBy(values, values), PickBy(values, ws), threw);
    SweepSkipsEnded(cfg, source, head, readings, values, ws, threw);
  }

  /** What the tick is in the transition system, given what it does to all clients. */
  lemma TickStep(h: Hub, readings: seq<Spec.Reading>, values: seq<Spec.Client>, ws: seq<Spec.Client>, threw: bool,
                 times: nat -> Spec.Reading)
    requires h.clients == Numbered(values) && h.order == Upto(|values|) && h.loop.Refreshed?
    requires |readings| == |values| && (forall i :: 0 <= i < |values| ==> readings[i] == times(i))
             && EndedKept(values, ws)
    requires Round(h.cfg, h.source, h.head, PickBy(values, readings), PickBy(values, values), PickBy(values, ws), threw)
    ensures Ordered(h) && Possible(h, RunTick(times)) && Sweep(h, times).threw == threw
    ensures Next(h, RunTick(times)) == h.(clients := Numbered(ws), loop := if threw then Exited else Sleeping)
  {
    hide PickBy, Round, EndedKept, TickAll, SweepList, Numbered, Upto;
    RosterIsOrdered(h, values);
    SweptRoster(h.cfg, h.source, h.head, readings, values, ws, threw);
    TickAllOfList(h.cfg, h.source, h.head, times, values, readings);
  }

  /** Running the hub's tick, seen from the roster. */
  method TickRoster(hub: EventStreamHub, source: Source, head: Cursor, clock: HubClient -> Spec.Reading,
                    ghost roster: seq<HubClient>)
    returns (threw: bool)
    requires hub.Valid() && NoneTwice(roster) && (set c | c in roster) == hub.known
    requires hub.clients == LiveOf(roster, Values(roster))
    modifies hub`clients, hub.clients
    ensures hub.Valid() && hub.clients == LiveOf(roster, Values(roster))
            && EndedKept(old(Values(roster)), Values(roster))
    ensures var values, ws := old(Values(roster)), Values(roster);
            Round(hub.cfg, source, head, PickBy(values, Readings(clock, roster)), PickBy(values, values),
                  PickBy(values, ws), threw)
  {
    ghost var values, registered := Values(roster), hub.clients;
    assert forall k :: 0 <= k < |roster| && values[k].terminated ==> roster[k] !in registered by {
      forall k | 0 <= k < |roster| && values[k].terminated ensures roster[k] !in registered {
        assert roster[k] in hub.known;
      }
    }
    hide Spec.Tick, LiveOf, Round, PickBy, NoneTwice;
    ValuesOfLive(roster, values);
    ReadingsOfLive(clock, roster, values);
    threw := hub.Tick(source, head, clock);
    ValuesOfLive(roster, values);
    LiveOfLive(roster, values, Values(roster));
  }

  method TickRefines(hub: EventStreamHub, source: Source, head: Cursor, clock: HubClient -> Spec.Reading,
                     ghost times: nat -> Spec.Reading, ghost roster: seq<HubClient>, ghost h: Hub)
    returns (threw: bool)
    requires Refines(hub, roster, h) && h.loop.Refreshed? && h.source == source && h.head == head
    requires forall k :: 0 <= k < |roster| ==> times(k) == clock(roster[k])
    modifies hub`clients, hub.clients
    ensures Ordered(h) && Possible(h, RunTick(times)) && Refines(hub, roster, Next(h, RunTick(times)))
    ensures threw == Sweep(h, times).threw
  {
    hide LiveOf, Round, PickBy, EndedKept, Numbered, Upto, TickAll;
    ghost var values := Values(roster);
    threw := TickRoster(hub, source, head, clock, roster);
    TickStep(h, Readings(clock, roster), values, Values(roster), threw, times);
  }

  lemma RoundLengths(cfg: Spec.Config, source: Source, head: Cursor, readings: seq<Spec.Reading>,
                     before: seq<Spec.Client>, after: seq<Spec.Client>, threw: bool)
    requires Round(cfg, source, head, readings, before, after, threw)
    ensures |readings| == |before| == |after|
  {
    hide Spec.Tick;
  }
}
