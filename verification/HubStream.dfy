/**
 Gap-freedom of one subscriber: the items it has received followed by the items
 it has queued are the matching log entries from its start cursor to its resume
 cursor, in order and without repeats.
 */
module HubStream {
  import opened Options
  import opened EventSource
  import opened HubClientSpec

  /** The log position a delivered item was read from. */
  function Pos(d: Delivery): int {
    if d.Event? && d.cursor.At? then d.cursor.position - 1 else -1
  }

  ghost predicate Genuine(log: Log, f: Filter, g: nat, start: nat, end: nat, d: Delivery) {
    && d.Event? && d.cursor.At? && d.cursor.generation == g
    && start <= Pos(d) < end <= |log.items|
    && d.item == log.items[Pos(d)] && Matches(d.item, f)
  }

  /**
   `ds` are entries of generation `g` in [start, end), strictly in log order, and no
   entry there that matches and still stands is missing.
   */
  ghost predicate Exact(log: Log, f: Filter, g: nat, start: nat, end: nat, ds: seq<Delivery>) {
    && start <= end <= |log.items|
    && (forall i :: 0 <= i < |ds| ==> Genuine(log, f, g, start, end, ds[i]))
    && (forall i, j :: 0 <= i < j < |ds| ==> Pos(ds[i]) < Pos(ds[j]))
    && (forall q :: start <= q < end && Visible(log, f, q) ==> exists i :: 0 <= i < |ds| && Pos(ds[i]) == q)
  }

  lemma ExactFirst(log: Log, f: Filter, g: nat, start: nat, end: nat, ds: seq<Delivery>)
    requires Exact(log, f, g, start, end, ds) && start < end && Visible(log, f, start)
    ensures ds != [] && ds[0] == Event(log.items[start], At(g, start + 1))
    ensures Exact(log, f, g, start + 1, end, ds[1..])
  {
    hide Matches;
    var i :| 0 <= i < |ds| && Pos(ds[i]) == start;
    assert Genuine(log, f, g, start, end, ds[0]);
    assert i == 0;
    var rest := ds[1..];
    forall k | 0 <= k < |rest| ensures Genuine(log, f, g, start + 1, end, rest[k]) {
      assert Genuine(log, f, g, start, end, ds[k + 1]) && Pos(ds[0]) < Pos(ds[k + 1]);
    }
    forall q | start + 1 <= q < end && Visible(log, f, q) ensures exists k :: 0 <= k < |rest| && Pos(rest[k]) == q {
      var m :| 0 <= m < |ds| && Pos(ds[m]) == q;
      assert rest[m - 1] == ds[m];
    }
  }

  lemma ExactSkip(log: Log, f: Filter, g: nat, start: nat, end: nat, ds: seq<Delivery>)
    requires Exact(log, f, g, start, end, ds) && start < end && !Matches(log.items[start], f)
    ensures Exact(log, f, g, start + 1, end, ds)
  {
    hide Matches;
    forall k | 0 <= k < |ds| ensures Genuine(log, f, g, start + 1, end, ds[k]) {
      assert Genuine(log, f, g, start, end, ds[k]);
    }
  }

  lemma EventsAtCons(log: Log, f: Filter, g: nat, start: nat, end: nat)
    requires start < end <= |log.items| && Visible(log, f, start)
    ensures EventsAt(log, g, Positions(log, f, start, end, end - start))
            == [Event(log.items[start], At(g, start + 1))]
               + EventsAt(log, g, Positions(log, f, start + 1, end, end - start - 1))
  {
    var rest := Positions(log, f, start + 1, end, end - start - 1);
    assert Positions(log, f, start, end, end - start) == [start] + rest;
  }

  /** The matching entries of a stretch, each with its resume cursor. */
  function Entries(log: Log, f: Filter, g: nat, start: nat, end: nat): seq<Delivery>
    requires start <= end <= |log.items|
  {
    EventsAt(log, g, Positions(log, f, start, end, end - start))
  }

  lemma EntriesStep(log: Log, f: Filter, g: nat, start: nat, end: nat)
    requires start < end <= |log.items|
    ensures Entries(log, f, g, start, end)
            == if Visible(log, f, start)
               then [Event(log.items[start], At(g, start + 1))] + Entries(log, f, g, start + 1, end)
               else Entries(log, f, g, start + 1, end)
  {
    hide Visible, EventsAt, Positions;
    if Visible(log, f, start) {
      EventsAtCons(log, f, g, start, end);
    } else {
      PositionsSlack(log, f, start + 1, end, end - start - 1);
      PositionsStep(log, f, start, end);
    }
  }

  /** With nothing retracted, an exact stream is the list of matching entries, in full. */
  lemma {:induction false} ExactIsTheMatchingEntries(
      log: Log, f: Filter, g: nat, start: nat, end: nat, ds: seq<Delivery>)
    requires Exact(log, f, g, start, end, ds) && log.retracted == {}
    ensures ds == Entries(log, f, g, start, end)
    decreases end - start
  {
    hide Exact, Visible, Entries, Matches;
    StretchFacts(log, f, g, start, end, ds);
    if start == end {
      ExactNothing(log, f, g, start, ds);
    } else {
      EntriesStep(log, f, g, start, end);
      if Visible(log, f, start) {
        ExactFirst(log, f, g, start, end, ds);
        ExactIsTheMatchingEntries(log, f, g, start + 1, end, ds[1..]);
        assert ds == [ds[0]] + ds[1..];
      } else {
        ExactSkip(log, f, g, start, end, ds);
        ExactIsTheMatchingEntries(log, f, g, start + 1, end, ds);
      }
    }
  }

  lemma StretchFacts(log: Log, f: Filter, g: nat, start: nat, end: nat, ds: seq<Delivery>)
    requires Exact(log, f, g, start, end, ds) && log.retracted == {}
    ensures start <= end <= |log.items|
    ensures start < end ==> Visible(log, f, start) || !Matches(log.items[start], f)
  {
    hide Matches, Genuine;
  }

  lemma ExactNothing(log: Log, f: Filter, g: nat, start: nat, ds: seq<Delivery>)
    requires Exact(log, f, g, start, start, ds)
    ensures ds == Entries(log, f, g, start, start)
  {
    hide Matches;
    assert |ds| > 0 ==> Genuine(log, f, g, start, start, ds[0]);
  }

  lemma PositionsStep(log: Log, f: Filter, start: nat, end: nat)
    requires start < end && !Visible(log, f, start)
    ensures Positions(log, f, start, end, end - start) == Positions(log, f, start + 1, end, end - start)
  {
    hide Visible;
  }

  /** A limit that cannot bind may be raised. */
  lemma {:induction false} PositionsSlack(log: Log, f: Filter, from: nat, upper: nat, limit: nat)
    requires from <= upper && upper - from <= limit
    ensures Positions(log, f, from, upper, limit + 1) == Positions(log, f, from, upper, limit)
    decreases upper - from
  {
    if from < upper {
      PositionsSlack(log, f, from + 1, upper, if Visible(log, f, from) then limit - 1 else limit);
    }
  }

  function EventsAt(log: Log, g: nat, ps: seq<nat>): seq<Delivery>
    requires forall i :: 0 <= i < |ps| ==> ps[i] < |log.items|
  {
    seq(|ps|, i requires 0 <= i < |ps| => Event(log.items[ps[i]], At(g, ps[i] + 1)))
  }

  lemma ExactGrows(log: Log, log': Log, f: Filter, g: nat, start: nat, end: nat, ds: seq<Delivery>)
    requires Exact(log, f, g, start, end, ds) && LogGrows(log, log')
    ensures Exact(log', f, g, start, end, ds)
  {
    hide Matches;
    forall i | 0 <= i < |ds| ensures Genuine(log', f, g, start, end, ds[i]) {
      assert Genuine(log, f, g, start, end, ds[i]);
    }
    forall q | start <= q < end && Visible(log', f, q) ensures exists i :: 0 <= i < |ds| && Pos(ds[i]) == q {
      assert Visible(log, f, q);
    }
  }

  /** What a consumer holds after losing its backlog is still exact, up to its last item. */
  lemma ExactPrefix(log: Log, f: Filter, g: nat, start: nat, end: nat, ds: seq<Delivery>, k: nat)
    requires Exact(log, f, g, start, end, ds) && 0 < k <= |ds|
    ensures ds[k - 1].cursor.At? && Exact(log, f, g, start, ds[k - 1].cursor.position, ds[..k])
  {
    hide Matches;
    var last := Pos(ds[k - 1]);
    assert Genuine(log, f, g, start, end, ds[k - 1]);
    forall i | 0 <= i < k ensures Genuine(log, f, g, start, last + 1, ds[..k][i]) {
      assert Genuine(log, f, g, start, end, ds[i]);
    }
    forall q | start <= q < last + 1 && Visible(log, f, q) ensures exists i :: 0 <= i < k && Pos(ds[..k][i]) == q {
      var i :| 0 <= i < |ds| && Pos(ds[i]) == q;
      assert i < k;
      assert ds[..k][i] == ds[i];
    }
  }

  /** Two exact streams that meet at a cursor join into one. */
  lemma ExactJoin(log: Log, f: Filter, g: nat, start: nat, mid: nat, end: nat, ds: seq<Delivery>, es: seq<Delivery>)
    requires Exact(log, f, g, start, mid, ds) && Exact(log, f, g, mid, end, es)
    ensures Exact(log, f, g, start, end, ds + es)
  {
    hide Matches;
    var all := ds + es;
    forall i | 0 <= i < |all| ensures Genuine(log, f, g, start, end, all[i]) {
      if i < |ds| { assert Genuine(log, f, g, start, mid, ds[i]); }
      else { assert Genuine(log, f, g, mid, end, es[i - |ds|]); }
    }
    forall i, j | 0 <= i < j < |all| ensures Pos(all[i]) < Pos(all[j]) {
      if i < |ds| <= j {
        assert Genuine(log, f, g, start, mid, ds[i]) && Genuine(log, f, g, mid, end, es[j - |ds|]);
      }
    }
    forall q | start <= q < end && Visible(log, f, q) ensures exists i :: 0 <= i < |all| && Pos(all[i]) == q {
      if q < mid {
        var i :| 0 <= i < |ds| && Pos(ds[i]) == q;
        assert all[i] == ds[i];
      } else {
        var i :| 0 <= i < |es| && Pos(es[i]) == q;
        assert all[|ds| + i] == es[i];
      }
    }
  }

  /** A page is an exact stream up to every bound it has read through. */
  lemma PageExact(log: Log, f: Filter, g: nat, from: nat, upper: nat, limit: nat, end: nat)
    requires from <= end <= upper <= |log.items|
    requires var ps := Positions(log, f, from, upper, limit);
             && (|ps| < limit || (ps != [] && end == ps[|ps| - 1] + 1))
             && (ps != [] ==> ps[|ps| - 1] < end)
    ensures Exact(log, f, g, from, end, EventsAt(log, g, Positions(log, f, from, upper, limit)))
  {
    hide Matches;
    var ps := Positions(log, f, from, upper, limit);
    var es := EventsAt(log, g, ps);
    forall i, j | 0 <= i < j < |ps| ensures ps[i] < ps[j] {
      PositionsIncrease(log, f, from, upper, limit, i, j);
    }
    forall i | 0 <= i < |es| ensures Genuine(log, f, g, from, end, es[i]) {
      assert Visible(log, f, ps[i]) && ps[i] <= ps[|ps| - 1];
    }
    forall q | from <= q < end && Visible(log, f, q) ensures exists i :: 0 <= i < |es| && Pos(es[i]) == q {
      PositionsComplete(log, f, from, upper, limit, q);
      var i :| 0 <= i < |ps| && ps[i] == q;
      assert Pos(es[i]) == q;
    }
  }

  // ----- The invariant of a subscriber -----

  ghost function StartPosition(c: Client): nat {
    if c.start.Some? && c.start.value.At? then c.start.value.position else 0
  }

  ghost function ResumePosition(c: Client): nat {
    if c.cursor.Some? && c.cursor.value.At? then c.cursor.value.position else 0
  }

  /** A registered client either has not been read for, or is exact up to its resume cursor. */
  ghost predicate ExactSoFar(source: Source, c: Client) {
    || (c.cursor == c.start && History(c) == [])
    || (&& c.cursor.Some? && c.cursor.value.At?
        && c.cursor.value.generation < |source|
        && (c.start.Some? ==> c.start.value.At? && c.start.value.generation == c.cursor.value.generation)
        && Exact(source[c.cursor.value.generation], c.filter, c.cursor.value.generation,
                 StartPosition(c), c.cursor.value.position, History(c)))
  }

  /** A client that is gone received an exact stream up to the cursor of its last item. */
  ghost predicate ExactReceived(source: Source, c: Client, ds: seq<Delivery>) {
    ds == []
    || (var last := ds[|ds| - 1];
        && last.Event? && last.cursor.At? && last.cursor.generation < |source|
        && (c.start.Some? ==> c.start.value.At? && c.start.value.generation == last.cursor.generation)
        && Exact(source[last.cursor.generation], c.filter, last.cursor.generation, StartPosition(c),
                 last.cursor.position, ds))
  }

  ghost predicate GapFree(source: Source, c: Client) {
    if c.terminated then ExactReceived(source, c, History(c)) else ExactSoFar(source, c)
  }

  predicate CursorLeq(a: Cursor, b: Cursor) {
    a.At? && b.At? && (a.generation < b.generation || (a.generation == b.generation && a.position <= b.position))
  }

  /** The cursor does not lie beyond this head of its own generation. */
  predicate NotAhead(head: Cursor, cursor: Option<Cursor>) {
    cursor.Some? && cursor.value.At? && head.At? && cursor.value.generation == head.generation ==>
      cursor.value.position <= head.position
  }

  /** How a registered client stands to the latest head a view captured. */
  ghost predicate Follows(head: Cursor, c: Client) {
    match c.phase
    case Pending => c.cursor == c.start && History(c) == []
    case CatchingUp(captured) => CursorLeq(captured, head) && NotAhead(captured, c.cursor)
    case Live => c.cursor.Some? && CursorLeq(c.cursor.value, head)
    case Done => true
  }

  ghost predicate Captured(source: Source, head: Cursor) {
    head.At? && head.generation < |source| && head.position <= |source[head.generation].items|
  }

  lemma GapFreeGrows(source: Source, source': Source, c: Client)
    requires GapFree(source, c) && Grows(source, source')
    ensures GapFree(source', c)
  {
    var ds := History(c);
    if c.terminated {
      if ds != [] {
        var g := ds[|ds| - 1].cursor.generation;
        ExactGrows(source[g], source'[g], c.filter, g, StartPosition(c), ds[|ds| - 1].cursor.position, ds);
      }
    } else if !(c.cursor == c.start && ds == []) {
      var g := c.cursor.value.generation;
      ExactGrows(source[g], source'[g], c.filter, g, StartPosition(c), c.cursor.value.position, ds);
    }
  }

  /** Losing the backlog keeps the received items exact. */
  lemma CutKeepsExact(source: Source, g: nat, end: nat, c: Client, all: seq<Delivery>, ds: seq<Delivery>)
    requires g < |source| && Exact(source[g], c.filter, g, StartPosition(c), end, all)
    requires c.start.Some? ==> c.start.value.At? && c.start.value.generation == g
    requires ds <= all
    ensures ExactReceived(source, c, ds)
  {
    if ds != [] {
      ExactPrefix(source[g], c.filter, g, StartPosition(c), end, all, |ds|);
      assert Genuine(source[g], c.filter, g, StartPosition(c), end, all[|ds| - 1]);
      assert all[..|ds|] == ds;
    }
  }

  /** Terminating a client, for whatever reason, keeps what it received exact. */
  lemma TerminateKeepsGapFree(cfg: Config, source: Source, c: Client, final: Option<Delivery>)
    requires WellFormed(cfg, c) && GapFree(source, c) && (final.Some? ==> !final.value.Event?)
    ensures GapFree(source, Terminate(cfg, c, final))
  {
    TerminateKeeps(cfg, c, final);
    var c' := Terminate(cfg, c, final);
    if !c.terminated {
      var all := History(c);
      var ds := Received(c.resolutions);
      assert ds <= all;
      if all != [] {
        var g := c.cursor.value.generation;
        CutKeepsExact(source, g, c.cursor.value.position, c', all, ds);
      }
    }
  }

  lemma PullKeepsGapFree(cfg: Config, source: Source, c: Client)
    requires WellFormed(cfg, c) && GapFree(source, c)
    ensures GapFree(source, Pull(cfg, c))
  {
    hide WellFormed, Exact, History;
    PullKeeps(cfg, c);
  }

  /** A client whose cursor the source accepts stands exact in the current generation. */
  lemma AcceptedIsExact(source: Source, c: Client)
    requires !c.terminated && ExactSoFar(source, c)
    requires c.cursor.Some? ==> ValidCursor(source, c.cursor.value)
    ensures Exact(Current(source), c.filter, Generation(source), StartPosition(c), ResumePosition(c), History(c))
    ensures c.start.Some? ==> c.start.value.At? && c.start.value.generation == Generation(source)
  {
  }

  /** A page holds the first visible entries after the resume position, each with its own cursor. */
  lemma PageIsPositions(source: Source, f: Filter, cursor: Option<Cursor>, head: Cursor, limit: nat)
    requires Read(source, head, f, cursor, head, limit).Page?
    ensures var page := Read(source, head, f, cursor, head, limit);
            var from := if cursor.Some? && cursor.value.At? then cursor.value.position else 0;
            var ps := Positions(Current(source), f, from, head.position, limit);
            && ValidCursor(source, head) && (cursor.Some? ==> ValidCursor(source, cursor.value))
            && |page.items| == |page.itemCursors| == |ps|
            && Owed(page, 0) == EventsAt(Current(source), Generation(source), ps)
            && (ps != [] ==> page.itemCursors[|ps| - 1] == At(Generation(source), ps[|ps| - 1] + 1))
  {
  }

  /**
   Appending a page to an exact stream keeps it exact up to the page's last entry, and
   up to the captured head when the page is short.
   */
  lemma PageExtends(source: Source, c: Client, head: Cursor, limit: nat)
    requires !c.terminated && ExactSoFar(source, c)
    requires NotAhead(head, c.cursor)
    requires Read(source, head, c.filter, c.cursor, head, limit).Page?
    ensures var page := Read(source, head, c.filter, c.cursor, head, limit);
            var log, g, all := Current(source), Generation(source), History(c) + Owed(page, 0);
            && (page.items == [] ==> Exact(log, c.filter, g, StartPosition(c), ResumePosition(c), all))
            && (page.items != [] ==>
                  var last := page.itemCursors[|page.items| - 1];
                  CursorLeq(last, head) && last.generation == g
                  && Exact(log, c.filter, g, StartPosition(c), last.position, all))
            && (|page.items| < limit ==> Exact(log, c.filter, g, StartPosition(c), head.position, all))
            && (c.start.Some? ==> c.start.value.At? && c.start.value.generation == g)
  {
    hide Exact, Visible, Read, Positions;
    var page := Read(source, head, c.filter, c.cursor, head, limit);
    var log, g := Current(source), Generation(source);
    var from := ResumePosition(c);
    PageIsPositions(source, c.filter, c.cursor, head, limit);
    var ps := Positions(log, c.filter, from, head.position, limit);
    AcceptedIsExact(source, c);
    if ps != [] {
      PageExact(log, c.filter, g, from, head.position, limit, ps[|ps| - 1] + 1);
      ExactJoin(log, c.filter, g, StartPosition(c), from, ps[|ps| - 1] + 1, History(c), EventsAt(log, g, ps));
    } else {
      assert History(c) + EventsAt(log, g, ps) == History(c);
    }
    if |ps| < limit {
      PageExact(log, c.filter, g, from, head.position, limit, head.position);
      ExactJoin(log, c.filter, g, StartPosition(c), from, head.position, History(c), EventsAt(log, g, ps));
    }
  }

  /**
   Reading a page from the resume position and delivering it keeps the stream exact,
   whether the client survives, overflows, or is dropped half way.
   */
  lemma DeliverKeepsGapFree(cfg: Config, source: Source, c: Client, head: Cursor, limit: nat)
    requires WellFormed(cfg, c) && !c.terminated && ExactSoFar(source, c)
    requires NotAhead(head, c.cursor)
    requires Read(source, head, c.filter, c.cursor, head, limit).Page?
    ensures var page := Read(source, head, c.filter, c.cursor, head, limit);
            var c' := Deliver(cfg, c, page, 0);
            && WellFormed(cfg, c') && c'.start == c.start && c'.filter == c.filter
            && (c'.terminated ==> GapFree(source, c'))
            && (!c'.terminated ==>
                  && c'.phase == c.phase && ExactSoFar(source, c') && NotAhead(head, c'.cursor)
                  && (c'.cursor == c.cursor || (c'.cursor.Some? && CursorLeq(c'.cursor.value, head)))
                  && (|page.items| < limit ==>
                        Exact(Current(source), c.filter, Generation(source), StartPosition(c), head.position,
                              History(c'))))
  {
    hide Exact, WellFormed, Read, Deliver;
    var page := Read(source, head, c.filter, c.cursor, head, limit);
    var c' := Deliver(cfg, c, page, 0);
    DeliverKeeps(cfg, c, page, 0);
    PageExtends(source, c, head, limit);
    var all := History(c) + Owed(page, 0);
    assert page.items == [] ==> all == History(c);
    if c'.terminated {
      var end := if page.items == [] then ResumePosition(c) else page.itemCursors[|page.items| - 1].position;
      CutKeepsExact(source, Generation(source), end, c', all, History(c'));
    }
  }

  /** Moving the resume cursor over a stretch that holds nothing more for this client. */
  lemma AdvanceToHead(cfg: Config, source: Source, c: Client, head: Cursor, phase: Phase)
    requires WellFormed(cfg, c) && !c.terminated && !phase.Done? && ValidCursor(source, head)
    requires c.start.Some? ==> c.start.value.At? && c.start.value.generation == Generation(source)
    requires Exact(Current(source), c.filter, Generation(source), StartPosition(c), head.position, History(c))
    ensures var c' := c.(cursor := Some(head), phase := phase);
            WellFormed(cfg, c') && GapFree(source, c')
  {
    hide Exact, Matches;
    var c' := c.(cursor := Some(head), phase := phase);
    assert History(c') == History(c) && StartPosition(c') == StartPosition(c);
  }

  lemma StaleKeeps(cfg: Config, source: Source, c: Client)
    requires WellFormed(cfg, c) && GapFree(source, c)
    ensures var c' := Terminate(cfg, c, Some(ResetNotice));
            WellFormed(cfg, c') && GapFree(source, c') && c'.phase.Done?
  {
    TerminateKeeps(cfg, c, Some(ResetNotice));
    TerminateKeepsGapFree(cfg, source, c, Some(ResetNotice));
  }

  /** Reading up to a captured head and delivering, then moving to the head after a short page. */
  lemma ReadOnKeeps(cfg: Config, source: Source, c: Client, head: Cursor, limit: nat)
    requires WellFormed(cfg, c) && !c.terminated && GapFree(source, c) && NotAhead(head, c.cursor) && limit > 0
    requires Read(source, head, c.filter, c.cursor, head, limit).Page?
    ensures var page := Read(source, head, c.filter, c.cursor, head, limit);
            var c' := Deliver(cfg, c, page, 0);
            && WellFormed(cfg, c') && GapFree(source, c')
            && (!c'.terminated ==>
                  && c'.phase == c.phase && NotAhead(head, c'.cursor)
                  && (c'.cursor == c.cursor || (c'.cursor.Some? && CursorLeq(c'.cursor.value, head))))
            && (!c'.terminated && |page.items| < limit ==>
                  forall phase: Phase :: !phase.Done? ==>
                    var c'' := c'.(cursor := Some(head), phase := phase);
                    WellFormed(cfg, c'') && GapFree(source, c''))
  {
    hide Exact, WellFormed, Matches;
    var page := Read(source, head, c.filter, c.cursor, head, limit);
    var c' := Deliver(cfg, c, page, 0);
    DeliverKeepsGapFree(cfg, source, c, head, limit);
    if !c'.terminated && |page.items| < limit {
      PageIsPositions(source, c.filter, c.cursor, head, limit);
      PageExtends(source, c, head, limit);
      forall phase: Phase | !phase.Done?
        ensures var c'' := c'.(cursor := Some(head), phase := phase);
                WellFormed(cfg, c'') && GapFree(source, c'')
      {
        AdvanceToHead(cfg, source, c', head, phase);
      }
    }
  }

  lemma CatchUpKeeps(cfg: Config, source: Source, c: Client, head: Cursor)
    requires WellFormed(cfg, c) && GapFree(source, c) && c.phase.CatchingUp? && Follows(head, c)
    ensures var pumped := PumpCatchUp(cfg, c, source).client;
            WellFormed(cfg, pumped) && GapFree(source, pumped) && Follows(head, pumped) && !pumped.phase.Pending?
  {
    hide Exact, Matches, GapFree;
    var limit := Capacity(cfg, c);
    var captured := c.phase.head;
    if limit != 0 {
      var page := Read(source, captured, c.filter, c.cursor, captured, limit);
      if page.Stale? {
        StaleKeeps(cfg, source, c);
      } else if page.Page? {
        ReadOnKeeps(cfg, source, c, captured, limit);
      }
    }
  }

  lemma LiveKeeps(cfg: Config, source: Source, c: Client, head: Cursor)
    requires WellFormed(cfg, c) && GapFree(source, c) && c.phase.Live? && Follows(head, c)
    ensures var pumped := PumpLive(cfg, c, source, head).client;
            WellFormed(cfg, pumped) && GapFree(source, pumped) && Follows(head, pumped) && !pumped.phase.Pending?
  {
    hide Exact, Matches, GapFree;
    var limit := Capacity(cfg, c);
    if limit != 0 {
      var page := Read(source, head, c.filter, c.cursor, head, limit);
      if page.Stale? {
        StaleKeeps(cfg, source, c);
      } else if page.Page? {
        ReadOnKeeps(cfg, source, c, head, limit);
        var c' := Deliver(cfg, c, page, 0);
        assert c'.(cursor := Some(head)) == c'.(cursor := Some(head), phase := c'.phase);
      }
    }
  }

  /** Everything a subscriber keeps, relative to the latest captured head. */
  ghost predicate Sound(cfg: Config, source: Source, head: Cursor, c: Client) {
    WellFormed(cfg, c) && GapFree(source, c) && Follows(head, c)
  }

  lemma FollowsLaterHead(c: Client, head: Cursor, head': Cursor)
    requires Follows(head, c) && CursorLeq(head, head')
    ensures Follows(head', c)
  {
  }

  lemma CheckStallKeeps(cfg: Config, source: Source, head: Cursor, c: Client, reading: Reading)
    requires Sound(cfg, source, head, c)
    ensures Sound(cfg, source, head, CheckStall(cfg, c, reading))
  {
    hide Exact, Matches;
    var c' := CheckStall(cfg, c, reading);
    if !c.terminated {
      if c.queue == [] {
        assert History(c') == History(c);
      } else {
        var since := if c.blockedSince.Some? then c.blockedSince.value else reading.first;
        var c1 := c.(blockedSince := Some(since));
        assert History(c1) == History(c) && StartPosition(c1) == StartPosition(c);
        if c'.terminated {
          TerminateKeeps(cfg, c1, None);
          TerminateKeepsGapFree(cfg, source, c1, None);
        }
      }
    }
  }

  /**
   One tick keeps the stream exact, across the hand-over from catch-up to live, as
   long as a client that waits for its first view holds no cursor newer than that view.
   */
  lemma TickKeeps(cfg: Config, source: Source, head: Cursor, head': Cursor, c: Client, reading: Reading)
    requires Sound(cfg, source, head, c) && CursorLeq(head, head')
    requires c.phase.Pending? ==> NotAhead(head', c.cursor)
    ensures var ticked := Tick(cfg, c, source, head', reading);
            && Sound(cfg, source, head', ticked.client)
            && !ticked.client.phase.Pending?
  {
    hide Exact, Matches;
    if !c.terminated {
      FollowsLaterHead(c, head, head');
      var c1 := if c.phase.Pending? then c.(phase := CatchingUp(head')) else c;
      assert History(c1) == History(c) && StartPosition(c1) == StartPosition(c);
      FeedKeeps(cfg, source, head', c1);
      var fed := Feed(cfg, c, source, head');
      assert fed == Feed(cfg, c1, source, head');
      if fed.Pumped? {
        CheckStallKeeps(cfg, source, head', fed.client, reading);
        CheckStallPhase(cfg, fed.client, reading);
      }
    }
  }

  lemma CheckStallPhase(cfg: Config, c: Client, reading: Reading)
    requires WellFormed(cfg, c)
    ensures CheckStall(cfg, c, reading).phase == c.phase || CheckStall(cfg, c, reading).phase.Done?
  {
    if !c.terminated && c.queue != [] {
      var since := if c.blockedSince.Some? then c.blockedSince.value else reading.first;
      TerminateKeeps(cfg, c.(blockedSince := Some(since)), None);
    }
  }

  lemma FeedKeeps(cfg: Config, source: Source, head: Cursor, c: Client)
    requires Sound(cfg, source, head, c) && !c.phase.Pending?
    ensures Sound(cfg, source, head, Feed(cfg, c, source, head).client)
    ensures !Feed(cfg, c, source, head).client.phase.Pending?
  {
    hide Exact, Matches, GapFree, WellFormed;
    if c.phase.CatchingUp? {
      CatchUpKeeps(cfg, source, c, head);
      var caught := PumpCatchUp(cfg, c, source);
      if caught.Pumped? && caught.client.phase.Live? {
        LiveKeeps(cfg, source, caught.client, head);
      }
    } else if c.phase.Live? {
      LiveKeeps(cfg, source, c, head);
    }
  }
}
