/**
 What the lines of the rendered task list say: the box, the number, the mark of a parallel
 task, and the dependencies of each task.
 */
module TasksText {
  import opened Options
  import opened Text
  import opened ProjectionRecords
  import opened TaskOrder
  import opened Projection
  import opened TasksProjection
  import Order = TaskOrdering
  import Repeats = TaskRepeats

  // ----- Numbers -----

  /** A capital T and at least three digits that read back as the number, zeros in front only up to three. */
  ghost predicate IsNumber(text: string, n: nat) {
    && |text| >= 4 && text[0] == 'T' && AllDigits(text[1..]) && Number(text[1..]) == n
    && (|text| > 4 ==> text[1] != '0')
  }

  lemma TaskNumberReads(index: nat)
    ensures IsNumber(TaskNumber(index), index + 1)
  {
    hide Decimal, Number, Fixed, Power10;
    var n, digits := index + 1, PadStart(Decimal(index + 1), 3);
    PadIsFixed(n, 3);
    assert TaskNumber(index)[1..] == digits;
    if n < Power10(3) {
      FixedReadsBack(n, 3);
    } else {
      DecimalReadsBack(n);
      DecimalStarts(n);
    }
  }

  lemma {:induction false} DecimalStarts(n: nat)
    requires n > 0
    ensures Decimal(n)[0] != '0'
  {
    if n >= 10 { DecimalStarts(n / 10); }
  }

  /** The last place at which a task stands. */
  ghost predicate LastPlace(ordered: seq<string>, id: string, i: nat) {
    i < |ordered| && ordered[i] == id && forall j :: i < j < |ordered| ==> ordered[j] != id
  }

  /** A task carries the number of its last place. */
  lemma {:induction false} NumbersRead(ordered: seq<string>, id: string)
    ensures id in Numbers(ordered) <==> id in ordered
    ensures id in ordered ==> exists i: nat :: LastPlace(ordered, id, i) && Numbers(ordered)[id] == TaskNumber(i)
  {
    hide TaskNumber;
    if ordered != [] {
      var before, last := ordered[..|ordered| - 1], ordered[|ordered| - 1];
      NumbersRead(before, id);
      assert ordered == before + [last];
      if id == last {
        assert LastPlace(ordered, id, |before|);
      } else if id in before {
        var i: nat :| LastPlace(before, id, i) && Numbers(before)[id] == TaskNumber(i);
        assert LastPlace(ordered, id, i);
      }
    }
  }

  /** What a dependency is called: the number of a task of the plan, or the id of any other. */
  ghost predicate IsLabel(ordered: seq<string>, target: string, text: string) {
    if target in ordered then exists i: nat :: LastPlace(ordered, target, i) && IsNumber(text, i + 1)
    else text == target
  }

  function LabelOf(numbers: map<string, string>, target: string): string {
    if target in numbers then numbers[target] else target
  }

  lemma LabelReads(ordered: seq<string>, target: string, text: string)
    ensures text == LabelOf(Numbers(ordered), target) <==> IsLabel(ordered, target, text)
  {
    hide Numbers, IsNumber, TaskNumber;
    NumbersRead(ordered, target);
    if target in ordered {
      var i: nat :| LastPlace(ordered, target, i) && Numbers(ordered)[target] == TaskNumber(i);
      TaskNumberReads(i);
      if IsLabel(ordered, target, text) {
        var j: nat :| LastPlace(ordered, target, j) && IsNumber(text, j + 1);
        assert j == i;
        NumbersDiffer(text, TaskNumber(i), i + 1);
      }
    }
  }

  /** A number is written in one way only. */
  lemma NumbersDiffer(a: string, b: string, n: nat)
    requires IsNumber(a, n) && IsNumber(b, n)
    ensures a == b
  {
    hide Number, Power10;
    var x, y := a[1..], b[1..];
    assert a == "T" + x && b == "T" + y;
    NumberIsFixed(x);
    NumberIsFixed(y);
    if |x| < |y| { LongNumbersAreLarge(y, |x|); }
    if |y| < |x| { LongNumbersAreLarge(x, |y|); }
  }

  /** A numeral that does not start with a zero is at least the power of ten of its length less one. */
  lemma {:induction false} StartDecides(s: string)
    requires AllDigits(s) && |s| > 0 && s[0] != '0'
    ensures Number(s) >= Power10(|s| - 1)
  {
    if |s| > 1 { StartDecides(s[..|s| - 1]); }
  }

  lemma {:induction false} PowerGrows(a: nat, b: nat)
    requires a <= b
    ensures Power10(a) <= Power10(b)
  {
    if a < b { PowerGrows(a, b - 1); }
  }

  lemma LongNumbersAreLarge(s: string, k: nat)
    requires AllDigits(s) && 3 <= k < |s| && s[0] != '0'
    ensures Number(s) >= Power10(k)
  {
    hide Number, Power10;
    StartDecides(s);
    PowerGrows(k, |s| - 1);
  }

  // ----- Dependencies -----

  /** Where a task's own dependencies stand among the edges. */
  ghost function DependsAt(edges: seq<Edge>, id: string): set<int> {
    set i | 0 <= i < |edges| && edges[i].source == id && edges[i].kind == DependsOn
  }

  ghost function CalledAt(edges: seq<Edge>, id: string, ordered: seq<string>, text: string): set<int> {
    set i | 0 <= i < |edges| && edges[i].source == id && edges[i].kind == DependsOn
            && IsLabel(ordered, edges[i].target, text)
  }

  /** The labels of a task's dependencies, one for each edge, sorted. */
  ghost predicate ListsDependencies(edges: seq<Edge>, ordered: seq<string>, id: string, labels: seq<string>) {
    && |labels| == |DependsAt(edges, id)| && SortedBy(labels, Same)
    && forall text :: multiset(labels)[text] == |CalledAt(edges, id, ordered, text)|
  }

  lemma DependsAtSnoc(edges: seq<Edge>, e: Edge, id: string)
    ensures |DependsAt(edges + [e], id)|
            == |DependsAt(edges, id)| + if e.source == id && e.kind == DependsOn then 1 else 0
  {
    var all := edges + [e];
    assert forall i :: 0 <= i < |edges| ==> all[i] == edges[i];
    assert DependsAt(all, id)
           == DependsAt(edges, id) + if e.source == id && e.kind == DependsOn then {|edges|} else {};
  }

  lemma {:induction false} EdgesFromCount(edges: seq<Edge>, id: string)
    ensures |EdgesFrom(edges, id, DependsOn)| == |DependsAt(edges, id)|
  {
    if edges == [] {
      assert DependsAt(edges, id) == {};
    } else {
      hide DependsAt;
      var before, e := edges[..|edges| - 1], edges[|edges| - 1];
      EdgesFromCount(before, id);
      assert edges == before + [e];
      DependsAtSnoc(before, e, id);
    }
  }

  lemma LabelsSnoc(es: seq<Edge>, e: Edge, numbers: map<string, string>)
    ensures Labels(es + [e], numbers) == Labels(es, numbers) + [LabelOf(numbers, e.target)]
  {
    assert (es + [e])[..|es|] == es;
  }

  lemma {:induction false} LabelsLength(es: seq<Edge>, numbers: map<string, string>)
    ensures |Labels(es, numbers)| == |es|
  {
    if es != [] { LabelsLength(es[..|es| - 1], numbers); }
  }

  lemma CalledAtSnoc(edges: seq<Edge>, e: Edge, id: string, ordered: seq<string>, text: string)
    ensures |CalledAt(edges + [e], id, ordered, text)|
            == |CalledAt(edges, id, ordered, text)|
               + if e.source == id && e.kind == DependsOn && IsLabel(ordered, e.target, text) then 1 else 0
  {
    hide IsLabel;
    var all := edges + [e];
    assert forall i :: 0 <= i < |edges| ==> all[i] == edges[i];
    assert CalledAt(all, id, ordered, text)
           == CalledAt(edges, id, ordered, text)
              + if e.source == id && e.kind == DependsOn && IsLabel(ordered, e.target, text) then {|edges|} else {};
  }

  lemma {:induction false} LabelsCount(edges: seq<Edge>, id: string, ordered: seq<string>, text: string)
    ensures multiset(Labels(EdgesFrom(edges, id, DependsOn), Numbers(ordered)))[text]
            == |CalledAt(edges, id, ordered, text)|
  {
    hide Numbers, IsLabel, Labels;
    if edges == [] {
      assert CalledAt(edges, id, ordered, text) == {};
      NoLabels(Numbers(ordered));
    } else {
      hide CalledAt, Filter;
      var before, e := edges[..|edges| - 1], edges[|edges| - 1];
      assert edges == before + [e];
      LabelsCount(before, id, ordered, text);
      CalledAtSnoc(before, e, id, ordered, text);
      EdgesFromSnoc(before, e, id);
      LabelReads(ordered, e.target, text);
      var from := EdgesFrom(before, id, DependsOn);
      LabelsSnoc(from, e, Numbers(ordered));
      CountSnoc(Labels(from, Numbers(ordered)), LabelOf(Numbers(ordered), e.target), text);
      assert from + [] == from;
    }
  }

  lemma EdgesFromSnoc(edges: seq<Edge>, e: Edge, id: string)
    ensures EdgesFrom(edges + [e], id, DependsOn)
            == EdgesFrom(edges, id, DependsOn) + if e.source == id && e.kind == DependsOn then [e] else []
  {
    FilterSnoc(edges, e, (x: Edge) => x.source == id && x.kind == DependsOn);
  }

  lemma NoLabels(numbers: map<string, string>)
    ensures Labels([], numbers) == []
  {
  }

  function Listed(edges: seq<Edge>, ordered: seq<string>, id: string): seq<string> {
    SortStrings(Labels(EdgesFrom(edges, id, DependsOn), Numbers(ordered)))
  }

  lemma LabelsRead(edges: seq<Edge>, ordered: seq<string>, id: string)
    ensures ListsDependencies(edges, ordered, id, Listed(edges, ordered, id))
  {
    hide Labels, EdgesFrom, Numbers, SortBy, SortedBy, DependsAt, CalledAt;
    var raw := Labels(EdgesFrom(edges, id, DependsOn), Numbers(ordered));
    SortByKeeps(raw, Same);
    LabelsLength(EdgesFrom(edges, id, DependsOn), Numbers(ordered));
    EdgesFromCount(edges, id);
    assert |multiset(SortStrings(raw))| == |SortStrings(raw)| && |multiset(raw)| == |raw|;
    forall text ensures multiset(SortStrings(raw))[text] == |CalledAt(edges, id, ordered, text)| {
      LabelsCount(edges, id, ordered, text);
    }
  }

  // ----- Joining -----

  /** Joining is what it says: nothing, the one text, or the first, the separator and the rest joined. */
  lemma {:induction false} JoinFromFront(first: string, rest: seq<string>, separator: string)
    ensures Join([], separator) == "" && Join([first], separator) == first
    ensures rest != [] ==> Join([first] + rest, separator) == first + (separator + Join(rest, separator))
    decreases |rest|
  {
    if |rest| > 1 {
      var before, last := rest[..|rest| - 1], rest[|rest| - 1];
      JoinFromFront(first, before, separator);
      assert ([first] + rest)[..|rest|] == [first] + before;
      JoinBack(before, last, separator);
      JoinBack([first] + before, last, separator);
      assert before + [last] == rest && [first] + before + [last] == [first] + rest;
      Regroup(first, separator, Join(before, separator), separator + last);
    } else if |rest| == 1 {
      assert ([first] + rest)[..1] == [first];
      assert first + separator + rest[0] == first + (separator + rest[0]);
    }
  }

  lemma JoinBack(before: seq<string>, last: string, separator: string)
    requires before != []
    ensures Join(before + [last], separator) == Join(before, separator) + (separator + last)
  {
    assert (before + [last])[..|before|] == before;
    assert Join(before, separator) + separator + last == Join(before, separator) + (separator + last);
  }

  lemma Regroup(a: string, b: string, c: string, d: string)
    ensures (a + (b + c)) + d == a + (b + (c + d))
  {
  }

  // ----- The line of a task -----

  ghost predicate Free(edges: seq<Edge>, id: string) {
    forall e :: e in edges && e.source == id ==> e.kind != DependsOn
  }

  /** A task without dependencies that has another such task in the plan. */
  ghost predicate Parallel(edges: seq<Edge>, ordered: seq<string>, id: string) {
    Free(edges, id) && exists other :: other in ordered && other != id && Free(edges, other)
  }

  lemma FreeMeansNoEdges(edges: seq<Edge>, id: string)
    ensures Free(edges, id) <==> EdgesFrom(edges, id, DependsOn) == []
    ensures Free(edges, id) <==> DependsAt(edges, id) == {}
  {
    var keep := (x: Edge) => x.source == id && x.kind == DependsOn;
    forall e ensures e in EdgesFrom(edges, id, DependsOn) <==> e in edges && keep(e) { FilterCounts(edges, keep, e); }
    hide EdgesFrom;
    var from := EdgesFrom(edges, id, DependsOn);
    assert from != [] ==> from[0] in from;
    if Free(edges, id) {
      assert forall i :: 0 <= i < |edges| ==> edges[i] in edges;
      assert DependsAt(edges, id) == {};
    } else {
      var e :| e in edges && e.source == id && e.kind == DependsOn;
      var i :| 0 <= i < |edges| && edges[i] == e;
      assert i in DependsAt(edges, id) && e in from;
    }
  }

  lemma ParallelIff(edges: seq<Edge>, ordered: seq<string>, id: string)
    requires id in ordered
    ensures Parallel(edges, ordered, id) <==> id in Roots(ordered, edges) && |Roots(ordered, edges)| > 1
  {
    var roots := Roots(ordered, edges);
    hide EdgesFrom, DependsAt;
    forall x ensures Free(edges, x) <==> EdgesFrom(edges, x, DependsOn) == [] { FreeMeansNoEdges(edges, x); }
    hide Free;
    if Parallel(edges, ordered, id) {
      var other :| other in ordered && other != id && Free(edges, other);
      assert {id, other} <= roots && |{id, other}| == 2;
      SubsetSize({id, other}, roots);
    } else if id in roots {
      assert roots <= {id};
      SubsetSize(roots, {id});
    }
  }

  lemma SubsetSize(a: set<string>, b: set<string>)
    requires a <= b
    ensures |a| <= |b|
  {
    assert b == a + (b - a);
  }

  /** What a task is called in the list: its objective, or its id when it has none. */
  ghost function Wording(nodes: map<string, Node>, id: string): string
    requires id in nodes
  {
    match nodes[id].objective
    case Some(text) => text
    case None => nodes[id].id
  }

  ghost predicate Written(line: string, nodes: map<string, Node>, edges: seq<Edge>, completed: set<string>,
                          ordered: seq<string>, id: string, i: nat, number: string, labels: seq<string>)
    requires id in nodes
  {
    && LastPlace(ordered, id, i) && IsNumber(number, i + 1) && ListsDependencies(edges, ordered, id, labels)
    && line == (if id in completed then "- [x] " else "- [ ] ") + number
               + (if Parallel(edges, ordered, id) then " [P] " else " ") + Wording(nodes, id)
               + (if Free(edges, id) then "" else " (depends on " + Join(labels, ", ") + ")")
  }

  /**
   A line reads: a checked box exactly for a completed task, the task's number, the mark of a
   parallel task, its wording, and in brackets what it depends on, if anything.
   */
  ghost predicate Reads(line: string, nodes: map<string, Node>, edges: seq<Edge>, completed: set<string>,
                        ordered: seq<string>, id: string)
    requires id in nodes
  {
    exists i: nat, number, labels :: Written(line, nodes, edges, completed, ordered, id, i, number, labels)
  }

  lemma LineReads(nodes: map<string, Node>, edges: seq<Edge>, completed: set<string>, ordered: seq<string>, id: string)
    requires id in ordered && id in nodes
    ensures Reads(TaskLine(nodes, edges, completed, ordered, id), nodes, edges, completed, ordered, id)
  {
    hide Numbers, Roots, EdgesFrom, Labels, SortStrings, ListsDependencies, IsNumber, Parallel, Free, TaskNumber, Join,
         DependsAt;
    NumbersRead(ordered, id);
    var i: nat :| LastPlace(ordered, id, i) && Numbers(ordered)[id] == TaskNumber(i);
    TaskNumberReads(i);
    var labels := Listed(edges, ordered, id);
    LabelsRead(edges, ordered, id);
    LineIsAssembled(nodes, edges, completed, ordered, id);
    assert Written(TaskLine(nodes, edges, completed, ordered, id), nodes, edges, completed, ordered, id, i,
                   TaskNumber(i), labels);
  }

  lemma LineIsAssembled(nodes: map<string, Node>, edges: seq<Edge>, completed: set<string>, ordered: seq<string>,
                        id: string)
    requires id in ordered && id in nodes && id in Numbers(ordered)
    ensures TaskLine(nodes, edges, completed, ordered, id)
            == (if id in completed then "- [x] " else "- [ ] ") + Numbers(ordered)[id]
               + (if Parallel(edges, ordered, id) then " [P] " else " ") + Wording(nodes, id)
               + (if Free(edges, id) then "" else " (depends on " + Join(Listed(edges, ordered, id), ", ") + ")")
  {
    hide Numbers, Roots, EdgesFrom, Labels, SortStrings, Parallel, Free, Join, DependsAt;
    ParallelIff(edges, ordered, id);
    FreeMeansNoEdges(edges, id);
    LabelsLength(EdgesFrom(edges, id, DependsOn), Numbers(ordered));
    SortedLength(Labels(EdgesFrom(edges, id, DependsOn), Numbers(ordered)));
    var depends := if Free(edges, id) then "" else " (depends on " + Join(Listed(edges, ordered, id), ", ") + ")";
    Assembled(if id in completed then "[x]" else "[ ]", Numbers(ordered)[id],
              if Parallel(edges, ordered, id) then " [P]" else "", Wording(nodes, id), depends);
    assert "- " + "[x]" + " " == "- [x] " && "- " + "[ ]" + " " == "- [ ] ";
    assert " [P]" + " " == " [P] " && "" + " " == " ";
  }

  lemma Assembled(box: string, number: string, mark: string, wording: string, depends: string)
    ensures "- " + box + " " + number + mark + " " + wording + depends
            == ("- " + box + " ") + number + (mark + " ") + wording + depends
  {
    var start := "- " + box + " " + number;
    assert start + mark + " " == start + (mark + " ");
  }

  lemma SortedLength(s: seq<string>)
    ensures |SortStrings(s)| == |s|
  {
    hide SortBy, SortedBy;
    SortByKeeps(s, Same);
    assert |multiset(SortStrings(s))| == |SortStrings(s)| && |multiset(s)| == |s|;
  }

  // ----- A plan -----

  /** An integer as it is written: a sign if negative, and digits that read back. */
  ghost predicate IsInteger(text: string, n: int) {
    if n < 0 then text != "" && text[0] == '-' && AllDigits(text[1..]) && Number(text[1..]) == -n
    else text != "" && AllDigits(text) && Number(text) == n
  }

  lemma IntegerReads(n: int)
    ensures IsInteger(Integer(n), n)
  {
    hide Decimal, Number;
    if n < 0 {
      DecimalReadsBack(-n);
      assert Integer(n)[1..] == Decimal(-n);
    } else {
      DecimalReadsBack(n);
    }
  }

  /** Where the edges say that a plan contains this task. */
  ghost function ContainsAt(nodes: map<string, Node>, edges: seq<Edge>, plan: string, id: string): set<int> {
    set i | 0 <= i < |edges| && edges[i].source == plan && edges[i].kind == Contains && edges[i].target in nodes
            && nodes[edges[i].target].kind == Task && nodes[edges[i].target].id == id
  }

  lemma ContainsAtSnoc(nodes: map<string, Node>, edges: seq<Edge>, e: Edge, plan: string, id: string)
    ensures |ContainsAt(nodes, edges + [e], plan, id)|
            == |ContainsAt(nodes, edges, plan, id)|
               + if e.source == plan && e.kind == Contains && e.target in nodes && nodes[e.target].kind == Task
                    && nodes[e.target].id == id then 1 else 0
  {
    var all := edges + [e];
    assert forall i :: 0 <= i < |edges| ==> all[i] == edges[i];
    assert ContainsAt(nodes, all, plan, id)
           == ContainsAt(nodes, edges, plan, id)
              + if e.source == plan && e.kind == Contains && e.target in nodes && nodes[e.target].kind == Task
                   && nodes[e.target].id == id then {|edges|} else {};
  }

  lemma {:induction false} TasksOfCount(nodes: map<string, Node>, edges: seq<Edge>, plan: string, id: string)
    ensures multiset(TasksOf(EdgesFrom(edges, plan, Contains), nodes))[id] == |ContainsAt(nodes, edges, plan, id)|
  {
    if edges == [] {
      assert ContainsAt(nodes, edges, plan, id) == {};
      assert EdgesFrom(edges, plan, Contains) == [];
      NoTasks(nodes);
    } else {
      hide ContainsAt, Filter, TasksOf;
      var before, e := edges[..|edges| - 1], edges[|edges| - 1];
      assert edges == before + [e];
      TasksOfCount(nodes, before, plan, id);
      ContainsAtSnoc(nodes, before, e, plan, id);
      var keep := (x: Edge) => x.source == plan && x.kind == Contains;
      FilterSnoc(before, e, keep);
      var from := EdgesFrom(before, plan, Contains);
      TasksOfSnoc(from, e, nodes);
      assert from + [] == from && TasksOf(from, nodes) + [] == TasksOf(from, nodes);
      if e.target in nodes { CountSnoc(TasksOf(from, nodes), nodes[e.target].id, id); }
    }
  }

  lemma NoTasks(nodes: map<string, Node>)
    ensures TasksOf([], nodes) == []
  {
  }

  lemma TasksOfSnoc(es: seq<Edge>, e: Edge, nodes: map<string, Node>)
    ensures TasksOf(es + [e], nodes)
            == TasksOf(es, nodes)
               + if e.target in nodes && nodes[e.target].kind == Task then [nodes[e.target].id] else []
  {
    assert (es + [e])[..|es|] == es;
  }

  /** The tasks of a plan: one for each edge by which it contains a current task, by id. */
  lemma PlanTasksRead(nodes: map<string, Node>, edges: seq<Edge>, plan: string)
    ensures SortedBy(PlanTasks(nodes, edges, plan), Same)
    ensures forall id :: multiset(PlanTasks(nodes, edges, plan))[id] == |ContainsAt(nodes, edges, plan, id)|
  {
    hide TasksOf, EdgesFrom, SortBy, SortedBy, ContainsAt;
    SortByKeeps(TasksOf(EdgesFrom(edges, plan, Contains), nodes), Same);
    forall id ensures multiset(PlanTasks(nodes, edges, plan))[id] == |ContainsAt(nodes, edges, plan, id)| {
      TasksOfCount(nodes, edges, plan, id);
    }
  }

  /** Current nodes stand under their ids. */
  ghost predicate KeyedById(nodes: map<string, Node>) {
    forall id :: id in nodes ==> nodes[id].id == id
  }

  lemma TasksAreCurrent(nodes: map<string, Node>, edges: seq<Edge>, plan: string, id: string)
    requires KeyedById(nodes) && id in PlanOrder(nodes, edges, plan)
    ensures id in nodes && nodes[id].kind == Task
  {
    hide PlanTasks, ContainsAt;
    PlanTasksRead(nodes, edges, plan);
    Repeats.OrderMembers(PlanTasks(nodes, edges, plan), edges, id);
    assert multiset(PlanTasks(nodes, edges, plan))[id] > 0;
    SomethingContains(nodes, edges, plan, id);
  }

  lemma SomethingContains(nodes: map<string, Node>, edges: seq<Edge>, plan: string, id: string)
    requires |ContainsAt(nodes, edges, plan, id)| > 0
    ensures exists i :: 0 <= i < |edges| && edges[i].target in nodes && nodes[edges[i].target].kind == Task
                        && nodes[edges[i].target].id == id
  {
    var i :| i in ContainsAt(nodes, edges, plan, id);
  }

  /** What stands under the heading of a plan. */
  ghost predicate ListsTasks(lines: seq<string>, nodes: map<string, Node>, edges: seq<Edge>, completed: set<string>,
                             ordered: seq<string>) {
    && |lines| == |ordered| + 1 && lines[|ordered|] == ""
    && forall k :: 0 <= k < |ordered| ==>
         ordered[k] in nodes && Reads(lines[k], nodes, edges, completed, ordered, ordered[k])
  }

  ghost predicate Headed(line: string, plan: Node) {
    exists revision :: IsInteger(revision, plan.revision)
                       && line == "## Plan " + plan.id + " (revision " + revision + ")"
  }

  lemma {:induction false} TaskLinesRead(nodes: map<string, Node>, edges: seq<Edge>, completed: set<string>,
                                         ordered: seq<string>, n: nat)
    requires n <= |ordered| && forall k :: 0 <= k < n ==> ordered[k] in nodes
    ensures |TaskLines(nodes, edges, completed, ordered, n)| == n
    ensures forall k :: 0 <= k < n ==>
              Reads(TaskLines(nodes, edges, completed, ordered, n)[k], nodes, edges, completed, ordered, ordered[k])
  {
    hide TaskLine, Reads;
    if n > 0 {
      TaskLinesRead(nodes, edges, completed, ordered, n - 1);
      LineReads(nodes, edges, completed, ordered, ordered[n - 1]);
    }
  }

  /**
   A plan reads: its heading with id and revision, then one line for each task in the plan's
   order, or the remark that it has none, exactly when no edge gives it one.
   */
  lemma PlanReads(nodes: map<string, Node>, edges: seq<Edge>, completed: set<string>, plan: Node)
    requires KeyedById(nodes)
    ensures var lines := PlanLines(nodes, edges, completed, plan);
            var ordered := PlanOrder(nodes, edges, plan.id);
            && |lines| >= 3 && Headed(lines[0], plan) && lines[1] == ""
            && if forall id :: ContainsAt(nodes, edges, plan.id, id) == {}
               then lines[2..] == ["No tasks in this plan.", ""]
               else ListsTasks(lines[2..], nodes, edges, completed, ordered)
  {
    hide TaskLines, Reads, IsInteger, PlanTasks, ContainsAt, PlanOrder;
    IntegerReads(plan.revision);
    var ordered, tasks := PlanOrder(nodes, edges, plan.id), PlanTasks(nodes, edges, plan.id);
    forall k | 0 <= k < |ordered| ensures ordered[k] in nodes { TasksAreCurrent(nodes, edges, plan.id, ordered[k]); }
    TaskLinesRead(nodes, edges, completed, ordered, |ordered|);
    PlanTasksRead(nodes, edges, plan.id);
    if tasks == [] {
      forall id ensures ContainsAt(nodes, edges, plan.id, id) == {} { assert multiset(tasks)[id] == 0; }
    } else {
      assert multiset(tasks)[tasks[0]] > 0;
    }
    var start := ["## Plan " + plan.id + " (revision " + Integer(plan.revision) + ")", ""];
    assert PlanLines(nodes, edges, completed, plan)[..2] == start;
  }

  /** When no task is contained twice, the k-th line carries the number k. */
  lemma NumbersAreInOrder(nodes: map<string, Node>, edges: seq<Edge>, plan: string, k: nat, i: nat)
    requires Distinct(PlanTasks(nodes, edges, plan)) && k < |PlanOrder(nodes, edges, plan)|
    requires LastPlace(PlanOrder(nodes, edges, plan), PlanOrder(nodes, edges, plan)[k], i)
    ensures i == k
  {
    hide Order.OrderOf, PlanTasks, OrderSpec;
    var tasks := PlanTasks(nodes, edges, plan);
    Order.DistinctOrder(tasks, edges);
    OrderIsPermutation(Ids(tasks), Order.Dependencies(edges, tasks));
    var ordered := PlanOrder(nodes, edges, plan);
    assert Same(ordered[i]) == Same(ordered[k]);
  }

  // ----- The document -----

  /** The lines of plans, one after the other. */
  ghost function AllLines(nodes: map<string, Node>, edges: seq<Edge>, completed: set<string>,
                          plans: seq<Node>): seq<string> {
    if plans == [] then []
    else PlanLines(nodes, edges, completed, plans[0]) + AllLines(nodes, edges, completed, plans[1..])
  }

  lemma {:induction false} AllLinesSnoc(nodes: map<string, Node>, edges: seq<Edge>, completed: set<string>,
                                        plans: seq<Node>, plan: Node)
    ensures AllLines(nodes, edges, completed, plans + [plan])
            == AllLines(nodes, edges, completed, plans) + PlanLines(nodes, edges, completed, plan)
  {
    hide PlanLines;
    if plans == [] {
      assert (plans + [plan])[1..] == [];
    } else {
      assert (plans + [plan])[1..] == plans[1..] + [plan];
      AllLinesSnoc(nodes, edges, completed, plans[1..], plan);
    }
  }

  /** The body is its title and the plans, in their order. */
  lemma {:induction false} BodyReads(nodes: map<string, Node>, edges: seq<Edge>, completed: set<string>,
                                     plans: seq<Node>)
    ensures Body(nodes, edges, completed, plans) == Title() + AllLines(nodes, edges, completed, plans)
  {
    hide PlanLines, Title;
    if plans == [] {
      assert Title() + [] == Title();
    } else {
      var before, plan := plans[..|plans| - 1], plans[|plans| - 1];
      BodyReads(nodes, edges, completed, before);
      AllLinesSnoc(nodes, edges, completed, before, plan);
      assert plans == before + [plan];
      Regroup3(Title(), AllLines(nodes, edges, completed, before), PlanLines(nodes, edges, completed, plan));
    }
  }

  lemma Regroup3<T>(a: seq<T>, b: seq<T>, c: seq<T>)
    ensures (a + b) + c == a + (b + c)
  {
  }

  /** One source for the plan and one for each task line, in their order. */
  lemma SourcesRead(nodes: map<string, Node>, edges: seq<Edge>, plan: Node)
    requires KeyedById(nodes)
    ensures var sources := PlanSources(nodes, edges, plan);
            var ordered := PlanOrder(nodes, edges, plan.id);
            && |sources| == 1 + |ordered| && sources[0] == Source(plan.id, plan.revision)
            && forall k :: 0 <= k < |ordered| ==>
                 ordered[k] in nodes && sources[1 + k] == Source(ordered[k], nodes[ordered[k]].revision)
  {
    hide PlanTasks, Order.OrderOf;
    var ordered, tasks := PlanOrder(nodes, edges, plan.id), PlanTasks(nodes, edges, plan.id);
    forall k | 0 <= k < |ordered| ensures ordered[k] in nodes { TasksAreCurrent(nodes, edges, plan.id, ordered[k]); }
    TaskSourcesRead(nodes, ordered);
    if tasks == [] && ordered != [] { Repeats.OrderMembers(tasks, edges, ordered[0]); }
  }

  lemma {:induction false} TaskSourcesRead(nodes: map<string, Node>, ordered: seq<string>)
    requires KeyedById(nodes) && forall k :: 0 <= k < |ordered| ==> ordered[k] in nodes
    ensures |TaskSources(nodes, ordered)| == |ordered|
    ensures forall k :: 0 <= k < |ordered| ==>
              TaskSources(nodes, ordered)[k] == Source(ordered[k], nodes[ordered[k]].revision)
  {
    if ordered != [] { TaskSourcesRead(nodes, ordered[..|ordered| - 1]); }
  }

  /** A line of the header for a source: its id and its revision. */
  ghost predicate NamesSource(line: string, s: Source) {
    exists revision :: IsInteger(revision, s.revision) && line == "- " + s.id + " r" + revision
  }

  lemma {:induction false} SourceLinesRead(sources: seq<Source>)
    ensures |SourceLines(sources)| == |sources|
    ensures forall k :: 0 <= k < |sources| ==> NamesSource(SourceLines(sources)[k], sources[k])
  {
    hide IsInteger, Integer;
    if sources != [] {
      SourceLinesRead(sources[..|sources| - 1]);
      IntegerReads(sources[|sources| - 1].revision);
    }
  }

  /** The text of a document: a header with view, digest and one line for each source, and the body behind it. */
  ghost predicate IsDocument(doc: Document, all: seq<string>, lines: seq<string>) {
    var n := |doc.sources|;
    && doc.markdown == Join(all, "\n") + "\n" && |all| == n + 7
    && all[0] == "<!-- harness:projection" && all[1] == "view: " + doc.view
    && all[2] == "generation_digest: " + doc.digest && all[3] == "sources:"
    && (forall k :: 0 <= k < n ==> NamesSource(all[4 + k], doc.sources[k]))
    && all[n + 4] == "-->" && all[n + 5] == "" && all[n + 6] == Join(lines, "\n")
  }

  lemma DocumentReads(view: string, sources: seq<Source>, lines: seq<string>, digest: Digest)
    ensures var doc := DocumentOf(view, sources, lines, digest);
            doc.view == view && exists all :: IsDocument(doc, all, lines)
  {
    hide OrderedSources, Deduped, Join, NamesSource, SourceLines;
    var doc := DocumentOf(view, sources, lines, digest);
    var header := ["<!-- harness:projection", "view: " + view, "generation_digest: " + doc.digest, "sources:"];
    SourceLinesRead(doc.sources);
    var all := header + SourceLines(doc.sources) + ["-->"] + ["", Join(lines, "\n")];
    Stacked(header, SourceLines(doc.sources), Join(lines, "\n"));
    assert IsDocument(doc, all, lines);
  }

  lemma Stacked(header: seq<string>, sources: seq<string>, body: string)
    requires |header| == 4
    ensures var all := header + sources + ["-->"] + ["", body];
            && |all| == |sources| + 7 && (forall k :: 0 <= k < 4 ==> all[k] == header[k])
            && (forall k :: 0 <= k < |sources| ==> all[4 + k] == sources[k])
            && all[|sources| + 4] == "-->" && all[|sources| + 5] == "" && all[|sources| + 6] == body
  {
  }

  /** The nodes of one kind are those, each once, by id. */
  lemma NodesByTypeRead(at: map<string, Node>, kind: NodeKind)
    requires KeyedById(at)
    ensures var ns := NodesByType(at, kind);
            && SortedBy(ns, NodeId) && DistinctBy(ns, NodeId)
            && forall n :: n in ns <==> n.id in at && at[n.id] == n && n.kind == kind
  {
    hide Sorted, LessEq, SortedBy, DistinctBy, Map;
    var ids := set id | id in at && at[id].kind == kind;
    var f := (id: string) => NodeAt(at, id);
    var names, ns := Sorted(ids), NodesByType(at, kind);
    SortedLists(ids);
    MapAt(names, f);
    forall i | 0 <= i < |ns| ensures names[i] in ids && ns[i] == at[names[i]] && ns[i].id == names[i] {
      assert names[i] in Ids(names);
    }
    SameOrder(names, ns);
    forall n ensures n in ns <==> n.id in at && at[n.id] == n && n.kind == kind {
      if n.id in at && at[n.id] == n && n.kind == kind {
        assert n.id in Ids(names);
        var i :| 0 <= i < |names| && names[i] == n.id;
        assert ns[i] == n;
      }
    }
  }

  lemma SameOrder(names: seq<string>, ns: seq<Node>)
    requires |ns| == |names| && (forall i :: 0 <= i < |ns| ==> ns[i].id == names[i])
    requires SortedBy(names, Same) && DistinctBy(names, Same)
    ensures SortedBy(ns, NodeId) && DistinctBy(ns, NodeId)
  {
    hide LessEq;
    forall i, j | 0 <= i < j < |ns| ensures LessEq(NodeId(ns[i]), NodeId(ns[j])) && NodeId(ns[i]) != NodeId(ns[j]) {
      assert LessEq(Same(names[i]), Same(names[j])) && Same(names[i]) != Same(names[j]);
    }
  }

  /** The lines of the whole list: the title, and the plans or the remark that there is none. */
  ghost function ListLines(nodes: map<string, Node>, edges: seq<Edge>, completed: set<string>,
                           plans: seq<Node>): seq<string> {
    ["# Tasks", "", "Generated from the authoritative graph -- do not edit. Regenerate with `harness snapshot`.", ""]
    + if plans == [] then ["No execution plan recorded yet."] else AllLines(nodes, edges, completed, plans)
  }

  /** The rendered document is the text of those lines under its header, for the plans by id. */
  lemma ListReads(nodes: map<string, Node>, edges: seq<Edge>, completed: set<string>, digest: Digest)
    ensures var doc := TasksDocument(nodes, edges, completed, digest);
            && doc.view == "tasks"
            && exists all ::
                 IsDocument(doc, all, ListLines(nodes, edges, completed, NodesByType(nodes, ExecutionPlan)))
  {
    hide DocumentOf, NodesByType, IsDocument, AllLines, Body;
    var plans := NodesByType(nodes, ExecutionPlan);
    var lines := ListLines(nodes, edges, completed, plans);
    BodyReads(nodes, edges, completed, plans);
    if plans == [] {
      DocumentReads("tasks", [], lines, digest);
    } else {
      DocumentReads("tasks", BodySources(nodes, edges, plans), lines, digest);
    }
  }
}
