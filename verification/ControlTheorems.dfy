/**
 The promises of the control store, over every run of any number of adapters
 that starts from a connected remote.
 */
module ControlTheorems {
  import opened Options
  import opened Text
  import opened GitGraph
  import opened ControlRecords
  import opened ControlStore
  import opened ControlInvariant
  import opened ControlSafety

  // ----- Refs -----

  lemma StepKeepsPast(s: Store, step: Step, ref: Ref, c: C)
    requires Safe(s) && Anchored(s, ref, Some(c))
    ensures Anchored(Do(s, step), ref, Some(c))
  {
    hide Possible, Next, Carries, Fenced, HeadHeld, Ancestor, ChainRead, Prepared, Descends;
    if Possible(s, step) {
      StepShape(s, step);
      if !Local(s, Next(s, step)) {
        var p :| Landing(s, Next(s, step), p);
        AnchorsMove(s, Next(s, step), p, ref, Some(c));
      }
    }
  }

  lemma {:induction false} RunKeepsPast(s: Store, steps: seq<Step>, ref: Ref, c: C)
    requires Safe(s) && Anchored(s, ref, Some(c))
    ensures Anchored(Run(s, steps), ref, Some(c))
    decreases |steps|
  {
    hide Safe, Do, Anchored;
    if steps != [] {
      StepIsSafe(s, steps[0]);
      StepKeepsPast(s, steps[0], ref, c);
      RunKeepsPast(Do(s, steps[0]), steps[1..], ref, c);
    }
  }

  /** Every commit that was ever the head of a ref is an ancestor of every later head. */
  lemma HeadsOnlyMoveForward(target: C, before: seq<Step>, after: seq<Step>, ref: Ref)
    ensures var s := Run(Start(target), before);
            var s' := Run(s, after);
            ref in s.refs ==> ref in s'.refs && Ancestor(s.refs[ref], s'.refs[ref])
  {
    hide Safe;
    var s := Run(Start(target), before);
    StartIsSafe(target);
    RunIsSafe(Start(target), before);
    if ref in s.refs {
      HeadIsAnchored(s, ref);
      RunKeepsPast(s, after, ref, s.refs[ref]);
    }
  }

  /** No adapter ever sees the Control Ref rewritten: its fetches are all fast-forward. */
  lemma FetchesAreFastForward(target: C, steps: seq<Step>, a: nat)
    ensures FastForward(Run(Start(target), steps), a)
  {
    hide Carries, Fenced;
    StartIsSafe(target);
    RunIsSafe(Start(target), steps);
    var s := Run(Start(target), steps);
    if a in s.adapters { assert Anchored(s, ControlRef, s.adapters[a].mirror); }
  }

  // ----- The control chain -----

  /**
   The chain is readable exactly when it starts at one, fits twelve digits and its last
   identifier fits a file name.
   */
  ghost predicate Numbered(rs: seq<Record>) {
    rs != [] ==> rs[0].sequence == 1 && |rs| < Power10(WIDTH) && IsId(rs[|rs| - 1].id)
  }

  lemma ReadableIffNumbered(rs: seq<Record>)
    requires GoodRecords(rs)
    ensures Readable(TreeOf(rs), rs) <==> Numbered(rs)
  {
    hide TreeOf, IsId, Power10;
    if rs == [] {
      EmptyIsReadable();
    } else if Numbered(rs) {
      forall i | 0 <= i < |rs| ensures rs[i].sequence == i + 1 && rs[i].sound && IsId(rs[i].id) {
        ChainSequences(rs, i);
        if i < |rs| - 1 { assert rs[..|rs| - 1][i] == rs[i]; }
      }
    }
  }

  /** In every reachable state the Control Ref carries the landed records as one linked chain, and nothing else. */
  lemma ControlCarriesTheChain(target: C, steps: seq<Step>)
    ensures var s := Run(Start(target), steps);
            var rs := Records(s.landed);
            && (ControlRef in s.refs <==> rs != [])
            && (rs != [] ==> s.refs[ControlRef].tree == TreeOf(rs) && Chain(rs))
            && (ChainRead(s).Some? <==> Numbered(rs))
            && (ChainRead(s).Some? ==> ChainRead(s) == Some(rs) && forall i ::
                                                                     0 <= i < |rs| ==> rs[i].sequence == i + 1)
  {
    hide Forward, Fenced, Kinds, Extends, Chain, TreeOf, IsId, Power10, Pending;
    StartIsSafe(target);
    RunIsSafe(Start(target), steps);
    var s := Run(Start(target), steps);
    var rs := Records(s.landed);
    ReadableIffNumbered(rs);
    if ChainRead(s).Some? { ReadIsTheRecords(s, ChainRead(s).value); }
  }

  /** A step extends the chain by one record or leaves the Control Ref where it was. */
  lemma StepExtendsByOne(target: C, steps: seq<Step>, step: Step)
    ensures var s := Run(Start(target), steps);
            var s' := Do(s, step);
            || (Records(s'.landed) == Records(s.landed) && Lookup(s', ControlRef) == Lookup(s, ControlRef))
            || exists p :: && Pending(s, p) && p.purpose.AppendRecord? && Lookup(s, ControlRef) == p.expected
                           && Records(s'.landed) == Records(s.landed) + [p.purpose.record]
                           && Lookup(s', ControlRef) == Some(p.candidate)
  {
    hide Forward, Fenced, Possible, Next, Pending, HeadHeld, Prepared, Extends, GoodRecords, ChainRead, Records;
    StartIsSafe(target);
    RunIsSafe(Start(target), steps);
    var s := Run(Start(target), steps);
    if Possible(s, step) {
      StepShape(s, step);
      if !Local(s, Next(s, step)) {
        var p :| Landing(s, Next(s, step), p);
        RecordsSnoc(s.landed, p);
        assert Kinds(p);
      }
    }
  }

  /** Any two chains read by any adapters at any times are prefix-ordered. */
  lemma ReadsArePrefixOrdered(target: C, steps: seq<Step>, i: nat, j: nat)
    requires i < |Run(Start(target), steps).seen| && j < |Run(Start(target), steps).seen|
    ensures var seen := Run(Start(target), steps).seen;
            seen[i] <= seen[j] || seen[j] <= seen[i]
  {
    hide Forward, Fenced, Kinds, Extends, GoodRecords, TreeOf, Pending;
    StartIsSafe(target);
    RunIsSafe(Start(target), steps);
    var s := Run(Start(target), steps);
    var rs := Records(s.landed);
    assert s.seen[i] in s.seen && s.seen[j] in s.seen;
    assert s.seen[i] == rs[..|s.seen[i]|] && s.seen[j] == rs[..|s.seen[j]|];
  }

  lemma StepStaysUnreadable(s: Store, step: Step)
    requires Safe(s) && ChainRead(s).None?
    ensures Lookup(Do(s, step), ControlRef) == Lookup(s, ControlRef)
  {
    hide Forward, Fenced, Possible, Next, Pending, HeadHeld, Prepared, GoodRecords, TreeOf;
    forall p | Pending(s, p) && p.ref == ControlRef ensures Lookup(s, ControlRef) != p.expected {
      assert Kinds(p) && Extends(s, p);
    }
    if Possible(s, step) {
      StepShape(s, step);
      if !Local(s, Next(s, step)) {
        var p :| Landing(s, Next(s, step), p);
        assert p.ref != ControlRef;
      }
    }
  }

  /** A Control Ref that cannot be read is never repaired or extended by these calls. */
  lemma {:induction false} UnreadableStays(s: Store, steps: seq<Step>)
    requires Safe(s) && ChainRead(s).None?
    ensures Lookup(Run(s, steps), ControlRef) == Lookup(s, ControlRef)
    decreases |steps|
  {
    hide Safe, Do, Carried;
    if steps != [] {
      StepIsSafe(s, steps[0]);
      StepStaysUnreadable(s, steps[0]);
      UnreadableStays(Do(s, steps[0]), steps[1..]);
    }
  }

  lemma {:induction false} PowerExceedsOne(k: nat)
    requires k > 0
    ensures Power10(k) > 1
  {
    if k > 1 { PowerExceedsOne(k - 1); }
  }

  lemma FirstAppend(s: Store, record: Record, stamp: nat)
    requires s.adapters == map[] && ControlRef !in s.refs && record.sound && record.previous == None
    ensures Possible(s, StartAppend(0, None, record, stamp))
    ensures Next(s, StartAppend(0, None, record, stamp))
            == s.(calls := s.calls + 1, seen := s.seen + [[]],
                  adapters := map[0 := Adapter(None,
                                               Ready(Push(s.calls, ControlRef, None, Appended(None, record, stamp),
                                                          AppendRecord(record))))])
  {
    hide Appended, Carried;
    assert [] + [record] == [record];
    assert Chain([record]);
  }

  /** The chain rule does not fix the first number: a first record numbered k lands, and is readable only for k = 1. */
  lemma FirstNumberDecides(target: C, record: Record, stamp: nat)
    requires record.sound && record.previous == None && IsId(record.id)
    ensures var s := Run(Start(target), [StartAppend(0, None, record, stamp), PushLands(0)]);
            Records(s.landed) == [record] && (ChainRead(s).Some? <==> record.sequence == 1)
  {
    hide IsId, TreeOf, FileName, Power10, Appended, Chain, ChainRead;
    var s0 := Start(target);
    var steps := [StartAppend(0, None, record, stamp), PushLands(0)];
    var p := Push(0, ControlRef, None, Appended(None, record, stamp), AppendRecord(record));
    FirstAppend(s0, record, stamp);
    var s1 := Do(s0, steps[0]);
    assert s1.adapters[0].call == Ready(p);
    var s2 := Do(s1, PushLands(0));
    assert s2.landed == [] + [p];
    RecordsSnoc([], p);
    assert Records(s2.landed) == [record];
    assert Run(s0, steps) == s2 by {
      hide Do;
      assert steps[1..] == [PushLands(0)] && steps[1..][1..] == [];
      assert Run(s1, steps[1..]) == Run(s2, []);
    }
    ControlCarriesTheChain(target, steps);
    PowerExceedsOne(WIDTH);
  }

  // ----- Fencing -----

  /** Publishes that move one operation ref land in the order of the lease chains they were checked against. */
  lemma PublishesLandInFenceOrder(target: C, steps: seq<Step>, i: nat, j: nat)
    requires var landed := Run(Start(target), steps).landed;
             i < j < |landed| && landed[i].ref == landed[j].ref && landed[i].ref.OperationRef?
    ensures var landed := Run(Start(target), steps).landed;
            && landed[i].purpose.Publish? && landed[j].purpose.Publish?
            && landed[i].purpose.fence <= landed[j].purpose.fence <= Records(landed)
            && Admits(landed[i].purpose.fence, landed[i].ref.operation, landed[i].purpose.token)
            && Admits(landed[j].purpose.fence, landed[j].ref.operation, landed[j].purpose.token)
  {
    hide Forward, Extends, GoodRecords, TreeOf, Pending, Admits;
    StartIsSafe(target);
    RunIsSafe(Start(target), steps);
    var landed := Run(Start(target), steps).landed;
    assert Kinds(landed[i]) && Kinds(landed[j]);
  }

  predicate IsLeaseOf(r: Record, operation: string) {
    r.kind == Lease && r.lease.onOperation && r.lease.resource == operation
  }

  /** Grants never reuse a smaller token: the coordinator opens token + 1. */
  ghost predicate TokensGrow(rs: seq<Record>, operation: string) {
    forall i, j :: 0 <= i < j < |rs| && IsLeaseOf(rs[i], operation) && IsLeaseOf(rs[j], operation) ==>
      rs[i].lease.token <= rs[j].lease.token
  }

  lemma {:induction false} TipIsLast(rs: seq<Record>, operation: string)
    ensures LeaseTip(rs, operation).None? ==> forall i :: 0 <= i < |rs| ==> !IsLeaseOf(rs[i], operation)
    ensures LeaseTip(rs, operation).Some? ==>
              exists i :: 0 <= i < |rs| && rs[i] == LeaseTip(rs, operation).value && IsLeaseOf(rs[i], operation)
                          && forall j :: i < j < |rs| ==> !IsLeaseOf(rs[j], operation)
  {
    if rs != [] && !IsLeaseOf(rs[|rs| - 1], operation) {
      var before := rs[..|rs| - 1];
      TipIsLast(before, operation);
      if LeaseTip(before, operation).Some? {
        var i :| 0 <= i < |before| && before[i] == LeaseTip(before, operation).value && IsLeaseOf(before[i], operation)
                 && forall j :: i < j < |before| ==> !IsLeaseOf(before[j], operation);
        assert rs[i] == LeaseTip(rs, operation).value;
        forall j | i < j < |rs| ensures !IsLeaseOf(rs[j], operation) { if j < |before| { assert before[j] == rs[j]; } }
      } else {
        forall i | 0 <= i < |rs| ensures !IsLeaseOf(rs[i], operation) { if i < |before| { assert before[i] == rs[i]; } }
      }
    }
  }

  lemma TipTokensGrow(rs: seq<Record>, ts: seq<Record>, operation: string)
    requires rs <= ts && TokensGrow(ts, operation) && LeaseTip(rs, operation).Some?
    ensures LeaseTip(ts, operation).Some?
            && LeaseTip(rs, operation).value.lease.token <= LeaseTip(ts, operation).value.lease.token
  {
    hide IsLeaseOf, LeaseTip;
    TipIsLast(rs, operation);
    TipIsLast(ts, operation);
    var i :| 0 <= i < |rs| && rs[i] == LeaseTip(rs, operation).value && IsLeaseOf(rs[i], operation)
             && forall j :: i < j < |rs| ==> !IsLeaseOf(rs[j], operation);
    assert ts[i] == rs[i];
    var k :| 0 <= k < |ts| && ts[k] == LeaseTip(ts, operation).value && IsLeaseOf(ts[k], operation)
             && forall j :: k < j < |ts| ==> !IsLeaseOf(ts[j], operation);
    assert i <= k;
  }

  /** A holder with an older token cannot land after one with a newer token has moved the ref. */
  lemma StaleHoldersCannotLand(target: C, steps: seq<Step>, i: nat, j: nat)
    requires var landed := Run(Start(target), steps).landed;
             && i < j < |landed| && landed[i].ref == landed[j].ref && landed[i].purpose.Publish?
                && landed[j].purpose.Publish? && landed[i].ref.OperationRef?
             && TokensGrow(Records(landed), landed[i].ref.operation)
             && LeaseTip(landed[i].purpose.fence, landed[i].ref.operation).Some?
    ensures var landed := Run(Start(target), steps).landed;
            landed[i].purpose.token <= landed[j].purpose.token
  {
    hide Run, Records, LeaseTip, IsLeaseOf;
    var landed := Run(Start(target), steps).landed;
    PublishesLandInFenceOrder(target, steps, i, j);
    var operation, later, all := landed[i].ref.operation, landed[j].purpose.fence, Records(landed);
    assert TokensGrow(later, operation) by {
      forall a, b | 0 <= a < b < |later| && IsLeaseOf(later[a], operation) && IsLeaseOf(later[b], operation)
        ensures later[a].lease.token <= later[b].lease.token
      {
        assert later[a] == all[a] && later[b] == all[b];
      }
    }
    TipTokensGrow(landed[i].purpose.fence, later, operation);
  }
}
