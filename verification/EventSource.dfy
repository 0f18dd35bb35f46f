/**
 The delivery index behind the event stream: positions, cursors and filtered
 paged reads.  A cursor names a generation and a position; rotating the index
 starts a new generation, and a retracted entry (a live observation promoted to
 the ledger) keeps its position.
 */
module EventSource {
  import opened Options

  const PAGE_LIMIT := 500

  /** A decoded cursor: undecodable text, the version-1 form, or a position in one generation. */
  datatype Cursor = Malformed | Legacy | At(generation: nat, position: nat)

  datatype Item = Item(id: string, iterationId: string, workflowOperationId: string, eventType: string, payload: string)

  datatype Filter = Filter(iterationId: Option<string>, workflowOperationId: Option<string>,
                           eventTypes: Option<seq<string>>)

  predicate Matches(item: Item, filter: Filter) {
    && (filter.iterationId.None? || filter.iterationId.value == item.iterationId)
    && (filter.workflowOperationId.None? || filter.workflowOperationId.value == item.workflowOperationId)
    && (filter.eventTypes.None? || item.eventType in filter.eventTypes.value)
  }

  /** Everything one generation ever held, and which positions were retracted since. */
  datatype Log = Log(items: seq<Item>, retracted: set<nat>)

  /** One log per generation; the last one is the index that reads see. */
  type Source = s: seq<Log> | |s| > 0 witness [Log([], {})]

  function Generation(source: Source): nat {
    |source| - 1
  }

  function Current(source: Source): Log {
    source[|source| - 1]
  }

  function Head(source: Source): Cursor {
    At(Generation(source), |Current(source).items|)
  }

  predicate Visible(log: Log, filter: Filter, position: nat) {
    position < |log.items| && position !in log.retracted && Matches(log.items[position], filter)
  }

  /** A later state of the source: old generations are frozen or grow, nothing is renumbered. */
  ghost predicate Grows(before: Source, after: Source) {
    && |before| <= |after|
    && (forall g :: 0 <= g < |before| ==> LogGrows(before[g], after[g]))
  }

  ghost predicate LogGrows(before: Log, after: Log) {
    && before.items <= after.items
    && before.retracted <= after.retracted
  }

  /** The answer to one read: a thrown query error, a stale cursor, or a page. */
  datatype Page = Threw | Stale | Page(items: seq<Item>, itemCursors: seq<Cursor>, cursor: Option<Cursor>)

  /** The first `limit` visible positions in [from, upper). */
  function Positions(log: Log, filter: Filter, from: nat, upper: nat, limit: nat): (ps: seq<nat>)
    ensures |ps| <= limit
    ensures forall i :: 0 <= i < |ps| ==> from <= ps[i] < upper && Visible(log, filter, ps[i])
    decreases upper - from
  {
    if from >= upper || limit == 0 then []
    else if Visible(log, filter, from) then [from] + Positions(log, filter, from + 1, upper, limit - 1)
    else Positions(log, filter, from + 1, upper, limit)
  }

  lemma {:induction false} PositionsIncrease(log: Log, filter: Filter, from: nat, upper: nat, limit: nat, i: nat,
                                             j: nat)
    requires i < j < |Positions(log, filter, from, upper, limit)|
    ensures Positions(log, filter, from, upper, limit)[i] < Positions(log, filter, from, upper, limit)[j]
    decreases upper - from
  {
    if Visible(log, filter, from) {
      var rest := Positions(log, filter, from + 1, upper, limit - 1);
      assert Positions(log, filter, from, upper, limit) == [from] + rest;
      if i > 0 {
        PositionsIncrease(log, filter, from + 1, upper, limit - 1, i - 1, j - 1);
      } else {
        assert rest[j - 1] >= from + 1;
      }
    } else {
      PositionsIncrease(log, filter, from + 1, upper, limit, i, j);
    }
  }

  /** What a page leaves unread: nothing below its last entry, and nothing at all when it is short. */
  lemma {:induction false} PositionsComplete(log: Log, filter: Filter, from: nat, upper: nat, limit: nat, q: nat)
    requires from <= q < upper && Visible(log, filter, q)
    requires var ps := Positions(log, filter, from, upper, limit);
             |ps| < limit || (ps != [] && q <= ps[|ps| - 1])
    ensures q in Positions(log, filter, from, upper, limit)
    decreases upper - from
  {
    if Visible(log, filter, from) {
      var rest := Positions(log, filter, from + 1, upper, limit - 1);
      assert Positions(log, filter, from, upper, limit) == [from] + rest;
      if q > from {
        assert rest != [] ==> ([from] + rest)[|rest|] == rest[|rest| - 1];
        PositionsComplete(log, filter, from + 1, upper, limit - 1, q);
      }
    } else {
      PositionsComplete(log, filter, from + 1, upper, limit, q);
    }
  }

  /** Going one position further: what the read loop does with the entry it meets. */
  lemma {:induction false} PositionsSnoc(log: Log, filter: Filter, from: nat, upper: nat, limit: nat)
    requires from <= upper
    ensures var ps := Positions(log, filter, from, upper, limit);
            Positions(log, filter, from, upper + 1, limit)
            == if Visible(log, filter, upper) && |ps| < limit then ps + [upper] else ps
    decreases upper - from
  {
    if from < upper && limit > 0 {
      PositionsSnoc(log, filter, from + 1, upper, if Visible(log, filter, from) then limit - 1 else limit);
    } else if limit > 0 {
      assert Positions(log, filter, from + 1, upper + 1, limit) == [];
    }
  }

  predicate ValidCursor(source: Source, cursor: Cursor) {
    cursor.At? && cursor.generation == Generation(source) && cursor.position <= |Current(source).items|
  }

  function Min(a: nat, b: nat): nat {
    if a < b then a else b
  }

  function ItemsAt(log: Log, ps: seq<nat>): seq<Item>
    requires forall i :: 0 <= i < |ps| ==> ps[i] < |log.items|
  {
    seq(|ps|, i requires 0 <= i < |ps| => log.items[ps[i]])
  }

  function CursorsAfter(generation: nat, ps: seq<nat>): seq<Cursor> {
    seq(|ps|, i requires 0 <= i < |ps| => At(generation, ps[i] + 1))
  }

  lemma ExtendPage(log: Log, generation: nat, ps: seq<nat>, p: nat)
    requires p < |log.items| && forall i :: 0 <= i < |ps| ==> ps[i] < |log.items|
    ensures ItemsAt(log, ps + [p]) == ItemsAt(log, ps) + [log.items[p]]
    ensures CursorsAfter(generation, ps + [p]) == CursorsAfter(generation, ps) + [At(generation, p + 1)]
  {
  }

  /** Reading a view: `head` is the head captured when the view was refreshed. */
  function Read(source: Source, head: Cursor, filter: Filter, cursor: Option<Cursor>, until: Cursor,
                limit: nat): (page: Page)
    ensures page.Page? ==> |page.items| == |page.itemCursors| <= limit
  {
    if limit < 1 || limit > PAGE_LIMIT || head.Malformed? || until.Malformed?
       || (cursor.Some? && cursor.value.Malformed?) then Threw
    else if !ValidCursor(source, head) || !ValidCursor(source, until)
         || (cursor.Some? && !ValidCursor(source, cursor.value)) then Stale
    else
      var from := if cursor.Some? then cursor.value.position else 0;
      var ps := Positions(Current(source), filter, from, Min(until.position, head.position), limit);
      var cursors := CursorsAfter(Generation(source), ps);
      Page(ItemsAt(Current(source), ps), cursors, if ps == [] then None else Some(cursors[|ps| - 1]))
  }

  /** The read loop of the index, one position at a time. */
  method Scan(log: Log, generation: nat, filter: Filter, from: nat, upper: nat, limit: nat)
    returns (items: seq<Item>, itemCursors: seq<Cursor>)
    requires upper <= |log.items|
    ensures var ps := Positions(log, filter, from, upper, limit);
            items == ItemsAt(log, ps) && itemCursors == CursorsAfter(generation, ps)
  {
    items, itemCursors := [], [];
    var index := from;
    ghost var ps: seq<nat> := [];
    while index < upper
      invariant from <= index
      invariant index <= upper || index == from
      invariant ps == Positions(log, filter, from, index, limit)
      invariant items == ItemsAt(log, ps)
      invariant itemCursors == CursorsAfter(generation, ps)
    {
      PositionsSnoc(log, filter, from, index, limit);
      if Visible(log, filter, index) {
        if |items| == limit {
          PositionsFull(log, filter, from, index, upper, limit);
          return;
        }
        ExtendPage(log, generation, ps, index);
        items := items + [log.items[index]];
        itemCursors := itemCursors + [At(generation, index + 1)];
        ps := ps + [index];
      }
      index := index + 1;
    }
  }

  /** Answering a read query against the current generation. */
  method ReadIndex(source: Source, head: Cursor, filter: Filter, cursor: Option<Cursor>, until: Cursor, limit: nat)
    returns (page: Page)
    ensures page == Read(source, head, filter, cursor, until, limit)
  {
    if limit < 1 || limit > PAGE_LIMIT {
      return Threw;
    }
    if head.Malformed? || (cursor.Some? && cursor.value.Malformed?) || until.Malformed? {
      return Threw;
    }
    if !ValidCursor(source, head) || !ValidCursor(source, until)
       || (cursor.Some? && !ValidCursor(source, cursor.value)) {
      return Stale;
    }
    var from := if cursor.Some? then cursor.value.position else 0;
    var items, itemCursors := Scan(Current(source), Generation(source), filter, from,
                                   Min(until.position, head.position), limit);
    page := Page(items, itemCursors, if itemCursors == [] then None else Some(itemCursors[|itemCursors| - 1]));
  }

  /** A full page does not change when the upper bound moves further out. */
  lemma {:induction false} PositionsFull(log: Log, filter: Filter, from: nat, upper: nat, further: nat, limit: nat)
    requires from <= upper <= further
    requires |Positions(log, filter, from, upper, limit)| == limit
    ensures Positions(log, filter, from, further, limit) == Positions(log, filter, from, upper, limit)
    decreases further - upper
  {
    if upper < further {
      PositionsSnoc(log, filter, from, upper, limit);
      PositionsFull(log, filter, from, upper + 1, further, limit);
    }
  }
}
