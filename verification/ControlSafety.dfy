/**
 Safety of the control store over every interleaving of adapters: refs only move
 forward, the Control Ref carries the landed records as one chain, reads are
 prefixes of it, and publishes land in the order of their lease chains.
 */
module ControlSafety {
  import opened Options
  import opened GitGraph
  import opened Text
  import opened ControlRecords
  import opened ControlStore
  import opened ControlInvariant

  // ----- Refs only move forward -----

  /** A head somebody expects is the ref's head or lies in its past. */
  ghost predicate Anchored(s: Store, ref: Ref, expected: Option<C>) {
    expected.Some? ==> ref in s.refs && Ancestor(expected.value, s.refs[ref])
  }

  ghost predicate Forward(s: Store) {
    && (forall p :: Pending(s, p) ==> Anchored(s, p.ref, p.expected) && Descends(p.expected, p.candidate))
    && (forall ref, e, c :: HeadHeld(s, ref, e, c) ==> Anchored(s, ref, e) && Descends(e, c))
    && (forall a :: a in s.adapters ==> Anchored(s, ControlRef, s.adapters[a].mirror))
    && (forall i :: 0 <= i < |s.landed| ==> Anchored(s, s.landed[i].ref, Some(s.landed[i].candidate)))
    && (forall i, j :: 0 <= i < j < |s.landed| && s.landed[i].ref == s.landed[j].ref ==>
          s.landed[j].expected.Some? && Ancestor(s.landed[i].candidate, s.landed[j].expected.value))
    && (forall i ::
          0 <= i < |s.landed| ==>
            Descends(s.landed[i].expected, s.landed[i].candidate)
            && s.landed[i].expected != Some(s.landed[i].candidate))
  }

  lemma HeadIsAnchored(s: Store, ref: Ref)
    ensures Anchored(s, ref, Lookup(s, ref))
  {
  }

  lemma AnchorsMove(s: Store, s': Store, p: Push, ref: Ref, expected: Option<C>)
    requires Landing(s, s', p) && Descends(p.expected, p.candidate) && Anchored(s, ref, expected)
    ensures Anchored(s', ref, expected)
  {
    hide Pending, HeadHeld;
    if expected.Some? && ref == p.ref { AncestorTransitive(expected.value, p.expected.value, p.candidate); }
  }

  lemma PreparedDescends(s: Store, p: Push)
    requires Forward(s) && Prepared(s, p)
    ensures Anchored(s, p.ref, p.expected) && Descends(p.expected, p.candidate)
  {
    hide ChainRead, Chain, Admits, FileName, Pending;
    HeadIsAnchored(s, p.ref);
    if p.purpose.Publish? {
      assert HeadHeld(s, p.ref, p.expected, p.candidate);
    } else if p.expected.Some? && !p.purpose.SwapTarget? {
      assert p.candidate.parents == [p.expected.value];
      assert Ancestor(p.expected.value, p.candidate.parents[0]);
    }
  }

  lemma LocalKeepsForward(s: Store, s': Store)
    requires Forward(s) && Local(s, s')
    ensures Forward(s')
  {
    hide Pending, HeadHeld, Prepared, Ancestor, Descends, ChainRead;
    forall ref, e ensures Anchored(s', ref, e) == Anchored(s, ref, e) { }
    forall p | Pending(s', p) ensures Anchored(s', p.ref, p.expected) && Descends(p.expected, p.candidate) {
      if !Pending(s, p) { PreparedDescends(s, p); }
    }
    forall ref ensures Anchored(s, ref, Lookup(s, ref)) { HeadIsAnchored(s, ref); }
  }

  lemma LandingKeepsForward(s: Store, s': Store, p: Push)
    requires Forward(s) && Landing(s, s', p)
    ensures Forward(s')
  {
    hide Pending, HeadHeld, Ancestor, Descends;
    forall ref, e | Anchored(s, ref, e) ensures Anchored(s', ref, e) { AnchorsMove(s, s', p, ref, e); }
    forall ref ensures Anchored(s', ref, Lookup(s', ref)) { HeadIsAnchored(s', ref); }
    forall i | 0 <= i < |s.landed|
      ensures Anchored(s', s'.landed[i].ref, Some(s'.landed[i].candidate))
      ensures s.landed[i].ref == p.ref ==> p.expected.Some? && Ancestor(s.landed[i].candidate, p.expected.value)
    {
      assert s'.landed[i] == s.landed[i] && Anchored(s, s.landed[i].ref, Some(s.landed[i].candidate));
    }
    forall i | 0 <= i < |s'.landed|
      ensures Anchored(s', s'.landed[i].ref, Some(s'.landed[i].candidate))
      ensures Descends(s'.landed[i].expected, s'.landed[i].candidate)
              && s'.landed[i].expected != Some(s'.landed[i].candidate)
    {
      if i < |s.landed| { assert s'.landed[i] == s.landed[i]; } else { assert Lookup(s', p.ref) == Some(p.candidate); }
    }
    forall a | a in s'.adapters ensures Anchored(s', ControlRef, s'.adapters[a].mirror) {
      assert Anchored(s, ControlRef, AdapterOf(s, a).mirror);
    }
  }

  /** A push that expected anything but the head before a landing cannot expect the head after it. */
  lemma NoReturn(s: Store, s': Store, p: Push, q: Push)
    requires Forward(s) && Landing(s, s', p) && Pending(s, q) && q.ref == p.ref
    ensures Lookup(s', q.ref) != q.expected
  {
    hide Pending, HeadHeld;
    if Lookup(s', q.ref) == q.expected {
      assert Anchored(s, q.ref, q.expected) && Descends(p.expected, p.candidate);
      AncestorAntisymmetric(p.candidate, p.expected.value);
    }
  }

  // ----- The Control Ref carries the landed records -----

  /** The records of the control pushes that landed, in landing order. */
  function Records(ps: seq<Push>): seq<Record> {
    if ps == [] then []
    else Records(ps[..|ps| - 1]) + if ps[|ps| - 1].purpose.AppendRecord? then [ps[|ps| - 1].purpose.record] else []
  }

  ghost predicate Kinds(p: Push) {
    && (p.ref == ControlRef <==> p.purpose.AppendRecord?)
    && (p.ref.OperationRef? <==> p.purpose.Publish?)
    && (p.purpose.Publish? ==> Admits(p.purpose.fence, p.ref.operation, p.purpose.token))
    && (p.purpose.ProjectRecord? ==> p.expected.Some? && p.candidate.parents == [p.expected.value])
  }

  /** A pending append extends the chain by exactly its record, as long as the head it expects is there. */
  ghost predicate Extends(s: Store, p: Push) {
    p.purpose.AppendRecord? && Lookup(s, ControlRef) == p.expected ==>
      && p.candidate.tree == TreeOf(Records(s.landed) + [p.purpose.record])
      && Chain(Records(s.landed) + [p.purpose.record]) && p.purpose.record.sound
      && Readable(TreeOf(Records(s.landed)), Records(s.landed))
  }

  /** What the landed records are: a chain, sound, and readable at least up to the last record. */
  ghost predicate GoodRecords(rs: seq<Record>) {
    rs != [] ==>
      && Chain(rs) && (forall i :: 0 <= i < |rs| ==> rs[i].sound)
      && Readable(TreeOf(rs[..|rs| - 1]), rs[..|rs| - 1])
  }

  ghost predicate Carries(s: Store) {
    && GoodRecords(Records(s.landed))
    && (ControlRef in s.refs <==> Records(s.landed) != [])
    && (ControlRef in s.refs ==> s.refs[ControlRef].tree == TreeOf(Records(s.landed)))
    && (forall p ::
          Pending(s, p) ==> Kinds(p) && Extends(s, p) && (p.purpose.Publish? ==> p.purpose.fence <= Records(s.landed)))
    && (forall i ::
          0 <= i < |s.landed| ==>
            Kinds(s.landed[i]) && (s.landed[i].purpose.Publish? ==> s.landed[i].purpose.fence <= Records(s.landed)))
    && (forall rs :: rs in s.seen ==> rs <= Records(s.landed))
  }

  lemma ChainDiffers(rs: seq<Record>)
    requires rs != [] ==> Chain(rs)
    ensures SequencesDiffer(rs)
  {
    forall i, j | 0 <= i < j < |rs| ensures rs[i].sequence != rs[j].sequence {
      ChainSequences(rs, i);
      ChainSequences(rs, j);
    }
  }

  ghost predicate Within(rs: seq<Record>, ts: seq<Record>) {
    forall r :: r in rs ==> r in ts
  }

  lemma SameFilesWithin(rs: seq<Record>, ts: seq<Record>)
    requires SequencesDiffer(rs) && SequencesDiffer(ts) && TreeOf(rs) == TreeOf(ts)
    ensures Within(rs, ts)
  {
    hide FileName, TreeOf, SequencesDiffer;
    TreeContents(rs);
    TreeContents(ts);
    forall r | r in rs ensures r in ts {
      var i :| 0 <= i < |rs| && rs[i] == r;
      assert FileName(rs[i]) in TreeOf(ts);
      var j :| 0 <= j < |ts| && FileName(rs[i]) == FileName(ts[j]);
      assert RecordFile(ts[j]) == RecordFile(rs[i]);
    }
  }

  lemma SamePlace(rs: seq<Record>, ts: seq<Record>, i: nat)
    requires Chain(rs) && Chain(ts) && rs[0].sequence == ts[0].sequence && i < |rs| && rs[i] in ts
    ensures i < |ts| && ts[i] == rs[i]
  {
    hide Chain;
    var j :| 0 <= j < |ts| && ts[j] == rs[i];
    ChainSequences(rs, i);
    ChainSequences(ts, j);
  }

  lemma OnlyFirstHasNoPrevious(rs: seq<Record>, ts: seq<Record>)
    requires Chain(rs) && Chain(ts) && rs[0] in ts
    ensures rs[0] == ts[0]
  {
    var k :| 0 <= k < |ts| && ts[k] == rs[0];
    forall i | 1 <= i < |ts| ensures ts[i].previous.Some? { assert ts[i].previous == Some(ts[i - 1]); }
  }

  lemma SameChains(rs: seq<Record>, ts: seq<Record>)
    requires Chain(rs) && Chain(ts) && Within(rs, ts) && Within(ts, rs)
    ensures rs == ts
  {
    assert rs != [] && ts != [];
    hide Chain;
    OnlyFirstHasNoPrevious(rs, ts);
    SamePlace(rs, ts, |rs| - 1);
    SamePlace(ts, rs, |ts| - 1);
    forall i | 0 <= i < |rs| ensures ts[i] == rs[i] { SamePlace(rs, ts, i); }
  }

  /** The files of a chain name its records: one tree carries at most one chain. */
  lemma OneTreeOneChain(rs: seq<Record>, ts: seq<Record>)
    requires (rs != [] ==> Chain(rs)) && Readable(TreeOf(rs), ts)
    ensures rs == ts
  {
    hide Power10, IsId, TreeOf, Chain, SequencesDiffer;
    ChainDiffers(rs);
    ChainDiffers(ts);
    SameFilesWithin(rs, ts);
    SameFilesWithin(ts, rs);
    assert (rs != [] ==> rs[0] in ts) && (ts != [] ==> ts[0] in rs);
    if rs != [] && ts != [] { SameChains(rs, ts); }
  }

  /** Whatever is read at the Control Ref is the whole landed chain. */
  lemma ReadIsTheRecords(s: Store, rs: seq<Record>)
    requires Carries(s) && ChainRead(s) == Some(rs)
    ensures rs == Records(s.landed) && Readable(TreeOf(rs), rs)
  {
    hide Kinds, Extends, Pending, TreeOf, Power10, IsId;
    if ControlRef in s.refs {
      OneTreeOneChain(Records(s.landed), rs);
    } else {
      EmptyIsReadable();
    }
  }

  lemma EmptyIsReadable()
    ensures Readable(TreeOf([]), [])
  {
    PowerPositive(WIDTH);
  }

  lemma PreparedExtends(s: Store, p: Push)
    requires Carries(s) && Prepared(s, p)
    ensures Kinds(p) && Extends(s, p) && (p.purpose.Publish? ==> p.purpose.fence <= Records(s.landed))
  {
    hide Pending, Power10, IsId, FileName, Admits, HeadHeld, Chain, Readable, Descends, GoodRecords;
    match p.purpose
    case AppendRecord(record) =>
      ReadIsTheRecords(s, ChainRead(s).value);
      AppendedTree(Records(s.landed), p.expected, record, p.candidate.stamp);
    case Publish(_, fence) => ReadIsTheRecords(s, fence);
    case _ =>
  }

  lemma AppendedTree(rs: seq<Record>, head: Option<C>, record: Record, stamp: nat)
    requires head.None? ==> rs == []
    requires head.Some? ==> head.value.tree == TreeOf(rs)
    ensures Appended(head, record, stamp).tree == TreeOf(rs + [record])
  {
    hide FileName;
    assert (rs + [record])[..|rs|] == rs;
  }

  lemma LocalKeepsCarries(s: Store, s': Store)
    requires Carries(s) && Local(s, s')
    ensures Carries(s')
  {
    hide Pending, HeadHeld, Prepared, ChainRead, Kinds, GoodRecords, TreeOf, Chain, Readable;
    forall p | Pending(s', p)
      ensures Kinds(p) && Extends(s', p) && (p.purpose.Publish? ==> p.purpose.fence <= Records(s'.landed))
    {
      if !Pending(s, p) { PreparedExtends(s, p); }
      assert Extends(s, p);
    }
    forall rs | rs in s'.seen ensures rs <= Records(s'.landed) {
      if rs !in s.seen { ReadIsTheRecords(s, rs); }
    }
  }

  lemma RecordsSnoc(ps: seq<Push>, p: Push)
    ensures p.purpose.AppendRecord? ==> Records(ps + [p]) == Records(ps) + [p.purpose.record]
    ensures !p.purpose.AppendRecord? ==> Records(ps + [p]) == Records(ps)
  {
    assert (ps + [p])[..|ps|] == ps;
  }

  lemma RecordsStayGood(s: Store, p: Push)
    requires Carries(s) && Pending(s, p) && Lookup(s, p.ref) == p.expected
    ensures GoodRecords(Records(s.landed + [p]))
  {
    hide Pending, Readable, Chain, TreeOf;
    RecordsSnoc(s.landed, p);
    var rs := Records(s.landed);
    assert Kinds(p) && Extends(s, p);
    if p.purpose.AppendRecord? { assert (rs + [p.purpose.record])[..|rs|] == rs; }
  }

  lemma LandingKeepsCarries(s: Store, s': Store, p: Push)
    requires Forward(s) && Carries(s) && Landing(s, s', p)
    ensures Carries(s')
  {
    hide Pending, HeadHeld, Admits, GoodRecords, TreeOf, Chain, Readable, Forward, Records;
    RecordsSnoc(s.landed, p);
    RecordsStayGood(s, p);
    assert Extends(s, p) && Kinds(p);
    forall q | Pending(s', q)
      ensures Kinds(q) && Extends(s', q) && (q.purpose.Publish? ==> q.purpose.fence <= Records(s'.landed))
    {
      assert Extends(s, q) && Kinds(q);
      if q.purpose.AppendRecord? && p.ref == ControlRef {
        NoReturn(s, s', p, q);
      }
    }
  }

  // ----- Publishes land in the order of their lease chains -----

  ghost predicate Fenced(s: Store) {
    && (forall p, i :: Pending(s, p) && p.purpose.Publish? && Lookup(s, p.ref) == p.expected
                       && 0 <= i < |s.landed| && s.landed[i].ref == p.ref && s.landed[i].purpose.Publish? ==>
          s.landed[i].purpose.fence <= p.purpose.fence)
    && (forall i, j :: 0 <= i < j < |s.landed| && s.landed[i].ref == s.landed[j].ref
                       && s.landed[i].purpose.Publish? && s.landed[j].purpose.Publish? ==>
          s.landed[i].purpose.fence <= s.landed[j].purpose.fence)
  }

  lemma LocalKeepsFenced(s: Store, s': Store)
    requires Carries(s) && Fenced(s) && Local(s, s')
    ensures Fenced(s')
  {
    hide Pending, HeadHeld, ChainRead, Kinds, Extends, GoodRecords, TreeOf, Chain, Readable, Admits, Descends;
    forall p, i | Pending(s', p) && p.purpose.Publish? && Lookup(s', p.ref) == p.expected
                  && 0 <= i < |s'.landed| && s'.landed[i].ref == p.ref && s'.landed[i].purpose.Publish?
      ensures s'.landed[i].purpose.fence <= p.purpose.fence
    {
      if !Pending(s, p) {
        assert Prepared(s, p);
        ReadIsTheRecords(s, p.purpose.fence);
      }
    }
  }

  lemma LandingKeepsFenced(s: Store, s': Store, p: Push)
    requires Forward(s) && Fenced(s) && Landing(s, s', p)
    ensures Fenced(s')
  {
    hide Pending, HeadHeld, Forward;
    forall q, i | Pending(s', q) && q.purpose.Publish? && Lookup(s', q.ref) == q.expected
                  && 0 <= i < |s'.landed| && s'.landed[i].ref == q.ref && s'.landed[i].purpose.Publish?
      ensures s'.landed[i].purpose.fence <= q.purpose.fence
    {
      assert Pending(s, q);
      if q.ref == p.ref {
        NoReturn(s, s', p, q);
      } else {
        assert s'.landed[i] == s.landed[i];
      }
    }
    assert Pending(s, p);
  }

  // ----- Over every run -----

  ghost predicate Safe(s: Store) {
    Forward(s) && Carries(s) && Fenced(s)
  }

  lemma StartIsSafe(target: C)
    ensures Safe(Start(target))
  {
  }

  lemma StepIsSafe(s: Store, step: Step)
    requires Safe(s)
    ensures Safe(Do(s, step))
  {
    hide Local, Landing, Forward, Carries, Fenced, Possible, Next;
    if Possible(s, step) {
      var s' := Next(s, step);
      StepShape(s, step);
      if Local(s, s') {
        LocalKeepsForward(s, s');
        LocalKeepsCarries(s, s');
        LocalKeepsFenced(s, s');
      } else {
        var p :| Landing(s, s', p);
        LandingKeepsForward(s, s', p);
        LandingKeepsCarries(s, s', p);
        LandingKeepsFenced(s, s', p);
      }
    }
  }

  lemma {:induction false} RunIsSafe(s: Store, steps: seq<Step>)
    requires Safe(s)
    ensures Safe(Run(s, steps))
    decreases |steps|
  {
    hide Do, Safe;
    if steps != [] {
      StepIsSafe(s, steps[0]);
      RunIsSafe(Do(s, steps[0]), steps[1..]);
    }
  }
}
