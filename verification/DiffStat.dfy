/**
 The diff summary: name-status says what happened to a file, numstat how many
 lines, and the join finds the counts of each file by its final path.
 */
module DiffStat {
  import opened Options
  import opened Text
  import opened Splitting
  import opened StatusParsers

  // ----- What Git prints for a list of changes -----

  datatype FileCounts = TextFile(insertions: nat, deletions: nat) | BinaryFile

  datatype FileChange =
    | Plain(letter: char, path: string, counts: FileCounts)
    | Relocated(letter: char, score: string, from: string, path: string, counts: FileCounts)

  ghost predicate Printable(f: FileChange) {
    match f
    case Plain(letter, path, _) => letter != 'R' && letter != 'C' && letter != NUL && path != "" && Free(path, NUL)
                                   && Free(path, TAB)
    case Relocated(letter, score, from, path, _) => (letter == 'R' || letter == 'C') && Free(score, NUL)
                                                    && Free(from, NUL) && Free(path, NUL)
  }

  ghost predicate AllPrintable(fs: seq<FileChange>) {
    forall i :: 0 <= i < |fs| ==> Printable(fs[i])
  }

  function NameTokensOf(f: FileChange): seq<string> {
    match f
    case Plain(letter, path, _) => [[letter], path]
    case Relocated(letter, score, from, path, _) => [[letter] + score, from, path]
  }

  function NameTokens(fs: seq<FileChange>): seq<string> {
    if fs == [] then [] else NameTokensOf(fs[0]) + NameTokens(fs[1..])
  }

  function Insertions(c: FileCounts): string {
    if c.BinaryFile? then "-" else Decimal(c.insertions)
  }

  function Deletions(c: FileCounts): string {
    if c.BinaryFile? then "-" else Decimal(c.deletions)
  }

  function Header(c: FileCounts, path: string): string {
    Insertions(c) + "\t" + (Deletions(c) + "\t" + path)
  }

  function CountTokensOf(f: FileChange): seq<string> {
    match f
    case Plain(_, path, counts) => [Header(counts, path)]
    case Relocated(_, _, from, path, counts) => [Header(counts, ""), from, path]
  }

  function CountTokens(fs: seq<FileChange>): seq<string> {
    if fs == [] then [] else CountTokensOf(fs[0]) + CountTokens(fs[1..])
  }

  function LinesOf(c: FileCounts): LineCounts {
    if c.BinaryFile? then LineCounts(0, 0, true) else LineCounts(c.insertions, c.deletions, false)
  }

  // ----- Name-status reads back -----

  function NamesOf(f: FileChange): seq<NameEntry> {
    match f
    case Plain(letter, path, _) => Named(letter, path)
    case Relocated(_, _, from, path, _) => [NameEntry(Renamed, path, Some(from))]
  }

  function AllNames(fs: seq<FileChange>): seq<NameEntry> {
    if fs == [] then [] else NamesOf(fs[0]) + AllNames(fs[1..])
  }

  lemma {:induction false} NameTokensFree(fs: seq<FileChange>)
    requires AllPrintable(fs)
    ensures AllFree(NameTokens(fs), NUL)
  {
    if fs != [] {
      NameTokensFree(fs[1..]);
      assert Printable(fs[0]);
    }
  }

  /** The tokens of one change, behind what was read and before what follows. */
  lemma Placed(before: seq<string>, own: seq<string>, rest: seq<string>)
    ensures before + (own + rest) == (before + own) + rest
    ensures forall k :: 0 <= k < |own| ==> (before + (own + rest))[|before| + k] == own[k]
  {
  }

  lemma NamesReadOne(before: seq<string>, f: FileChange, rest: seq<string>)
    requires Printable(f)
    ensures NamesFrom(before + (NameTokensOf(f) + rest), |before|)
            == NamesOf(f) + NamesFrom(before + (NameTokensOf(f) + rest), |before + NameTokensOf(f)|)
  {
    hide Named, NamesFrom;
    var own := NameTokensOf(f);
    Placed(before, own, rest);
    var tokens := before + (own + rest);
    assert tokens[|before| + 0] == own[0] && tokens[|before| + 1] == own[1];
    assert f.Relocated? ==> tokens[|before| + 2] == own[2];
    NamesStep(tokens, |before|);
  }

  lemma {:induction false} NamesRead(before: seq<string>, fs: seq<FileChange>)
    requires AllPrintable(fs)
    ensures NamesFrom(before + (NameTokens(fs) + [""]), |before|) == AllNames(fs)
    decreases |fs|
  {
    if fs == [] {
      NamesEnd(before);
    } else {
      var own, rest := NameTokensOf(fs[0]), NameTokens(fs[1..]) + [""];
      assert Printable(fs[0]);
      Associates(own, NameTokens(fs[1..]), [""]);
      hide NamesFrom, NameTokensOf, NamesOf, Printable;
      NamesReadOne(before, fs[0], rest);
      NamesRead(before + own, fs[1..]);
      Placed(before, own, rest);
    }
  }

  lemma NamesEnd(before: seq<string>)
    ensures NamesFrom(before + ([] + [""]), |before|) == []
  {
    var tokens := before + ([] + [""]);
    assert tokens[|before|] == "";
    NamesStep(tokens, |before|);
  }

  /** Reading a printed name-status gives the changes back; sources of renames are never read as codes. */
  lemma NameStatusRoundTrip(fs: seq<FileChange>)
    requires AllPrintable(fs)
    ensures NamesFrom(Split(Terminated(NameTokens(fs), '\0'), '\0'), 0) == AllNames(fs)
  {
    hide Split, NamesFrom, AllNames, NameTokens, Terminated;
    NameTokensFree(fs);
    SplitTerminated(NameTokens(fs), NUL);
    NamesRead([], fs);
    assert [] + (NameTokens(fs) + [""]) == NameTokens(fs) + [""];
  }

  // ----- Numstat reads back -----

  lemma {:induction false} DigitPrefixOfDigits(s: string)
    requires AllDigits(s)
    ensures DigitPrefix(s) == s
  {
    if s != "" { DigitPrefixOfDigits(s[1..]); assert s == [s[0]] + s[1..]; }
  }

  lemma CountReadsBack(n: nat)
    ensures ParseCount(Decimal(n)) == n && Free(Decimal(n), TAB) && Free(Decimal(n), NUL) && Decimal(n) != "-"
  {
    hide Decimal, Number;
    var s := Decimal(n);
    assert IsDigit(s[0]);
    DigitPrefixOfDigits(s);
    DecimalReadsBack(n);
  }

  lemma FieldTextsRead(c: FileCounts)
    ensures Free(Insertions(c), TAB) && Free(Deletions(c), TAB) && Free(Insertions(c), NUL) && Free(Deletions(c), NUL)
    ensures LineCounts(ParseCount(Insertions(c)), ParseCount(Deletions(c)),
                       Insertions(c) == "-" || Deletions(c) == "-") == LinesOf(c)
  {
    hide Decimal;
    if c.TextFile? {
      CountReadsBack(c.insertions);
      CountReadsBack(c.deletions);
    } else {
      assert "-"[1..] == "" && DigitPrefix("") == "";
    }
  }

  /** The fields of a header are the two counts, then the path split again at every tab. */
  lemma HeaderFields(c: FileCounts, path: string)
    ensures Split(Header(c, path), TAB) == [Insertions(c), Deletions(c)] + Split(path, TAB)
    ensures CountsOf(Split(Header(c, path), TAB)) == LinesOf(c)
            && Field(Split(Header(c, path), TAB), 2) == Split(path, TAB)[0]
    ensures Header(c, path) != "" && (Free(path, NUL) ==> Free(Header(c, path), NUL))
  {
    hide Decimal, Split, ParseCount;
    FieldTextsRead(c);
    SplitFirst(Insertions(c), TAB, Deletions(c) + [TAB] + path);
    SplitFirst(Deletions(c), TAB, path);
    var fields := Split(Header(c, path), TAB);
    assert fields == [Insertions(c), Deletions(c)] + Split(path, TAB);
    assert Header(c, path)[|Insertions(c)|] == TAB;
  }

  lemma {:induction false} CountTokensFree(fs: seq<FileChange>)
    requires AllPrintable(fs)
    ensures AllFree(CountTokens(fs), NUL)
  {
    hide Header;
    if fs != [] {
      CountTokensFree(fs[1..]);
      assert Printable(fs[0]);
      HeaderFields(fs[0].counts, fs[0].path);
      HeaderFields(fs[0].counts, "");
    }
  }

  function Collected(fs: seq<FileChange>, counts: Counts): Counts {
    if fs == [] then counts else Collected(fs[1..], counts[fs[0].path := LinesOf(fs[0].counts)])
  }

  lemma CountsReadOne(before: seq<string>, f: FileChange, rest: seq<string>, counts: Counts)
    requires Printable(f)
    ensures CountsFrom(before + (CountTokensOf(f) + rest), |before|, counts)
            == CountsFrom(before + (CountTokensOf(f) + rest), |before + CountTokensOf(f)|,
                          counts[f.path := LinesOf(f.counts)])
  {
    hide Header, Split, LinesOf, CountsOf;
    var own := CountTokensOf(f);
    Placed(before, own, rest);
    var tokens := before + (own + rest);
    assert tokens[|before| + 0] == own[0];
    if f.Plain? {
      HeaderFields(f.counts, f.path);
      SplitFree(f.path, TAB);
    } else {
      HeaderFields(f.counts, "");
      SplitFree("", TAB);
      assert tokens[|before| + 2] == own[2];
    }
  }

  /** Reading on past the tokens of printable changes, whatever follows them. */
  lemma {:induction false} CountsRead(before: seq<string>, fs: seq<FileChange>, rest: seq<string>, counts: Counts)
    requires AllPrintable(fs)
    ensures CountsFrom(before + (CountTokens(fs) + rest), |before|, counts)
            == CountsFrom(before + (CountTokens(fs) + rest), |before + CountTokens(fs)|, Collected(fs, counts))
    decreases |fs|
  {
    if fs == [] {
      assert before + [] == before;
    } else {
      var own, more := CountTokensOf(fs[0]), CountTokens(fs[1..]);
      assert Printable(fs[0]);
      Associates(own, more, rest);
      Associates(before, own, more);
      hide CountsFrom, CountTokensOf, Printable, LinesOf;
      CountsReadOne(before, fs[0], more + rest, counts);
      CountsRead(before + own, fs[1..], rest, counts[fs[0].path := LinesOf(fs[0].counts)]);
      Placed(before, own, more + rest);
    }
  }

  lemma CountsEnd(tokens: seq<string>, counts: Counts)
    ensures CountsFrom(tokens + [""], |tokens|, counts) == counts
  {
    assert (tokens + [""])[|tokens|] == "";
  }

  lemma NumstatRoundTrip(fs: seq<FileChange>)
    requires AllPrintable(fs)
    ensures CountsFrom(Split(Terminated(CountTokens(fs), '\0'), '\0'), 0, map[]) == Collected(fs, map[])
  {
    hide Split, CountsFrom, Collected, CountTokens, Terminated;
    CountTokensFree(fs);
    SplitTerminated(CountTokens(fs), NUL);
    CountsRead([], fs, [""], map[]);
    CountsEnd(CountTokens(fs), Collected(fs, map[]));
    assert [] + (CountTokens(fs) + [""]) == CountTokens(fs) + [""] && [] + CountTokens(fs) == CountTokens(fs);
  }

  ghost predicate DistinctPaths(fs: seq<FileChange>) {
    forall i, j :: 0 <= i < j < |fs| ==> fs[i].path != fs[j].path
  }

  lemma {:induction false} CollectedElsewhere(fs: seq<FileChange>, counts: Counts, path: string)
    requires path in counts && forall i :: 0 <= i < |fs| ==> fs[i].path != path
    ensures path in Collected(fs, counts) && Collected(fs, counts)[path] == counts[path]
    decreases |fs|
  {
    hide LinesOf;
    if fs != [] { CollectedElsewhere(fs[1..], counts[fs[0].path := LinesOf(fs[0].counts)], path); }
  }

  lemma {:induction false} CollectedOwn(fs: seq<FileChange>, counts: Counts, i: nat)
    requires DistinctPaths(fs) && i < |fs|
    ensures fs[i].path in Collected(fs, counts) && Collected(fs, counts)[fs[i].path] == LinesOf(fs[i].counts)
    decreases |fs|
  {
    hide LinesOf;
    var next := counts[fs[0].path := LinesOf(fs[0].counts)];
    if i == 0 { CollectedElsewhere(fs[1..], next, fs[0].path); } else { CollectedOwn(fs[1..], next, i - 1); }
  }

  lemma {:induction false} CollectedPaths(fs: seq<FileChange>, counts: Counts, path: string)
    requires path !in counts && forall i :: 0 <= i < |fs| ==> fs[i].path != path
    ensures path !in Collected(fs, counts)
    decreases |fs|
  {
    hide LinesOf;
    if fs != [] { CollectedPaths(fs[1..], counts[fs[0].path := LinesOf(fs[0].counts)], path); }
  }

  /** What one more header adds, when it is the last token. */
  lemma LastHeaderCounts(tokens: seq<string>, path: string, c: FileCounts, counts: Counts)
    ensures CountsFrom(tokens + ([Header(c, path)] + [""]), |tokens|, counts)
            == if Split(path, TAB)[0] != "" then counts[Split(path, TAB)[0] := LinesOf(c)] else counts
  {
    hide Header, Split, LinesOf, CountsOf;
    var all := tokens + ([Header(c, path)] + [""]);
    HeaderFields(c, path);
    assert all[|tokens|] == Header(c, path) && all[|tokens| + 1] == "";
    var next := |tokens| + 1;
    forall m: Counts ensures CountsFrom(all, next, m) == m { assert CountsFrom(all, next + 1, m) == m; }
  }

  /**
   Behind any printable changes, a plain change is counted under its own path exactly when
   the path is not empty and has no tab.
   */
  lemma PlainCountsIff(fs: seq<FileChange>, path: string, c: FileCounts)
    requires AllPrintable(fs) && Free(path, NUL) && forall i :: 0 <= i < |fs| ==> fs[i].path != path
    ensures CountsFrom(Split(Terminated(CountTokens(fs) + [Header(c, path)], NUL), NUL), 0, map[])
            == Collected(fs, map[])[path := LinesOf(c)]
            <==> path != "" && Free(path, TAB)
  {
    hide Split, CountsFrom, Collected, CountTokens, Terminated, Header, LinesOf, Printable;
    var tokens, known := CountTokens(fs), Collected(fs, map[]);
    CountTokensFree(fs);
    HeaderFields(c, path);
    SplitTerminated(tokens + [Header(c, path)], NUL);
    Associates(tokens, [Header(c, path)], [""]);
    CountsRead([], fs, [Header(c, path)] + [""], map[]);
    LastHeaderCounts(tokens, path, c, known);
    assert [] + (tokens + ([Header(c, path)] + [""])) == tokens + ([Header(c, path)] + [""]) && [] + tokens == tokens;
    FirstPiece(path, TAB);
    CollectedPaths(fs, map[], path);
    assert path in known[path := LinesOf(c)];
  }

  lemma {:induction false} FirstPiece(s: string, c: char)
    ensures Split(s, c)[0] == s <==> Free(s, c)
    ensures |Split(s, c)[0]| <= |s|
  {
    if s != "" {
      FirstPiece(s[1..], c);
      assert s == [s[0]] + s[1..];
      if s[0] != c && Split(s, c)[0] == s { assert Split(s, c)[0][1..] == Split(s[1..], c)[0]; }
    }
  }

  // ----- The join -----

  datatype Summary = Summary(path: string, status: FileStatus, previous: Option<string>, insertions: int,
                             deletions: int, binary: bool)

  datatype Untracked = Untracked(path: string, insertions: int, binary: bool)

  function CountsFor(counts: Counts, path: string): LineCounts {
    if path in counts then counts[path] else LineCounts(0, 0, false)
  }

  function Joined(e: NameEntry, counts: Counts): Summary {
    var c := CountsFor(counts, e.path);
    Summary(e.path, e.status, e.previous, c.insertions, c.deletions, c.binary)
  }

  function JoinAll(es: seq<NameEntry>, counts: Counts): seq<Summary> {
    if es == [] then [] else [Joined(es[0], counts)] + JoinAll(es[1..], counts)
  }

  function Additions(us: seq<Untracked>): seq<Summary> {
    if us == [] then [] else [Summary(us[0].path, Added, None, us[0].insertions, 0, us[0].binary)] + Additions(us[1..])
  }

  function Insert(x: Summary, s: seq<Summary>, cmp: Collation): seq<Summary> {
    if s == [] then [x]
    else if cmp(x.path, s[0].path) < 0 then [x] + s
    else [s[0]] + Insert(x, s[1..], cmp)
  }

  /** The stable sort by path: later entries go behind earlier ones that compare equal. */
  function SortByPath(s: seq<Summary>, cmp: Collation): seq<Summary> {
    if s == [] then [] else Insert(s[|s| - 1], SortByPath(s[..|s| - 1], cmp), cmp)
  }

  ghost predicate Collated(s: seq<Summary>, cmp: Collation) {
    forall i, j :: 0 <= i < j < |s| ==> cmp(s[i].path, s[j].path) <= 0
  }

  lemma {:induction false} InsertPermutes(x: Summary, s: seq<Summary>, cmp: Collation)
    ensures multiset(Insert(x, s, cmp)) == multiset(s) + multiset{x}
  {
    if s != [] {
      assert s == [s[0]] + s[1..];
      if cmp(x.path, s[0].path) >= 0 { InsertPermutes(x, s[1..], cmp); }
    }
  }

  lemma CollatedCons(x: Summary, s: seq<Summary>, cmp: Collation)
    requires Collated(s, cmp) && forall y :: y in s ==> cmp(x.path, y.path) <= 0
    ensures Collated([x] + s, cmp)
  {
  }

  lemma StaysBelow(a: string, b: string, c: string, cmp: Collation)
    requires Orders(cmp) && cmp(a, b) <= 0 && cmp(b, c) <= 0
    ensures cmp(a, c) <= 0
  {
    assert cmp(c, b) >= 0 && cmp(b, a) >= 0;
  }

  lemma TurnsAround(a: string, b: string, cmp: Collation)
    requires Orders(cmp) && cmp(a, b) >= 0
    ensures cmp(b, a) <= 0
  {
  }

  lemma {:induction false} InsertCollates(x: Summary, s: seq<Summary>, cmp: Collation)
    requires Orders(cmp) && Collated(s, cmp)
    ensures Collated(Insert(x, s, cmp), cmp)
  {
    hide Orders;
    if s != [] {
      if cmp(x.path, s[0].path) < 0 {
        forall y | y in s ensures cmp(x.path, y.path) <= 0 {
          var k :| 0 <= k < |s| && s[k] == y;
          if k > 0 { StaysBelow(x.path, s[0].path, s[k].path, cmp); }
        }
        CollatedCons(x, s, cmp);
      } else {
        var rest := Insert(x, s[1..], cmp);
        InsertCollates(x, s[1..], cmp);
        InsertPermutes(x, s[1..], cmp);
        TurnsAround(x.path, s[0].path, cmp);
        forall y | y in rest ensures cmp(s[0].path, y.path) <= 0 {
          assert y in multiset(rest);
          if y != x {
            var k :| 0 <= k < |s[1..]| && s[1..][k] == y;
            assert s[k + 1] == y;
          }
        }
        CollatedCons(s[0], rest, cmp);
      }
    }
  }

  /** Sorting keeps every entry, and puts them in the locale's order. */
  lemma {:induction false} SortByPathCollates(s: seq<Summary>, cmp: Collation)
    ensures multiset(SortByPath(s, cmp)) == multiset(s)
    ensures Orders(cmp) ==> Collated(SortByPath(s, cmp), cmp)
  {
    hide Insert, Orders, Collated;
    if s == [] {
      EmptyIsCollated(cmp);
    } else {
      SplitLast(s);
      SortByPathCollates(s[..|s| - 1], cmp);
      InsertPermutes(s[|s| - 1], SortByPath(s[..|s| - 1], cmp), cmp);
      if Orders(cmp) { InsertCollates(s[|s| - 1], SortByPath(s[..|s| - 1], cmp), cmp); }
    }
  }

  lemma EmptyIsCollated(cmp: Collation)
    ensures Collated([], cmp)
  {
  }

  function Stat(names: string, numbers: string, us: seq<Untracked>, cmp: Collation): seq<Summary> {
    JoinAll(NamesFrom(Split(names, NUL), 0), CountsFrom(Split(numbers, NUL), 0, map[])) + SortByPath(Additions(us), cmp)
  }

  method ParseGitDiffStat(names: string, numbers: string, us: seq<Untracked>, cmp: Collation) returns (r: seq<Summary>)
    ensures r == Stat(names, numbers, us, cmp)
    ensures |us| <= |r| && multiset(r[|r| - |us|..]) == multiset(Additions(us))
    ensures Orders(cmp) ==> Collated(r[|r| - |us|..], cmp)
  {
    hide SortByPath, Additions, Orders, Collated, JoinAll, NamesFrom, CountsFrom;
    var counts := ParseNumstatZ(numbers);
    var entries := ParseNameStatusZ(names);
    var tracked, additions := JoinAll(entries, counts), SortByPath(Additions(us), cmp);
    r := tracked + additions;
    SortByPathCollates(Additions(us), cmp);
    AdditionsCount(us);
    assert |additions| == |multiset(additions)| == |us|;
    assert r[|r| - |us|..] == additions;
  }

  lemma {:induction false} AdditionsCount(us: seq<Untracked>)
    ensures |Additions(us)| == |us| && |multiset(Additions(us))| == |us|
  {
    if us != [] { AdditionsCount(us[1..]); }
    assert |multiset(Additions(us))| == |Additions(us)|;
  }

  /** Each change with its own status and its own counts. */
  function Own(f: FileChange): seq<Summary> {
    var c := LinesOf(f.counts);
    match f
    case Plain(letter, path, _) =>
      if letter == 'A' then [Summary(path, Added, None, c.insertions, c.deletions, c.binary)]
      else if letter == 'D' then [Summary(path, Deleted, None, c.insertions, c.deletions, c.binary)]
      else if letter == 'M' || letter == 'T' then [Summary(path, Modified, None, c.insertions, c.deletions, c.binary)]
      else []
    case Relocated(_, _, from, path, _) => [Summary(path, Renamed, Some(from), c.insertions, c.deletions, c.binary)]
  }

  function AllOwn(fs: seq<FileChange>): seq<Summary> {
    if fs == [] then [] else Own(fs[0]) + AllOwn(fs[1..])
  }

  lemma {:induction false} JoinAllAppends(a: seq<NameEntry>, b: seq<NameEntry>, counts: Counts)
    ensures JoinAll(a + b, counts) == JoinAll(a, counts) + JoinAll(b, counts)
  {
    if a == [] {
      assert a + b == b;
    } else {
      JoinAllAppends(a[1..], b, counts);
      assert (a + b)[1..] == a[1..] + b && (a + b)[0] == a[0];
      assert JoinAll(a + b, counts) == [Joined(a[0], counts)] + JoinAll(a[1..] + b, counts);
      assert JoinAll(a, counts) == [Joined(a[0], counts)] + JoinAll(a[1..], counts);
      hide JoinAll;
      Associates([Joined(a[0], counts)], JoinAll(a[1..], counts), JoinAll(b, counts));
    }
  }

  lemma {:induction false} JoinIsOwn(fs: seq<FileChange>, counts: Counts)
    requires forall i :: 0 <= i < |fs| ==> CountsFor(counts, fs[i].path) == LinesOf(fs[i].counts)
    ensures JoinAll(AllNames(fs), counts) == AllOwn(fs)
  {
    hide LinesOf, CountsFor;
    if fs != [] {
      JoinIsOwn(fs[1..], counts);
      JoinAllAppends(NamesOf(fs[0]), AllNames(fs[1..]), counts);
      assert JoinAll(NamesOf(fs[0]), counts) == Own(fs[0]);
    }
  }

  /** Over one list of changes, the join gives every file its own counts. */
  lemma JoinGivesOwnCounts(fs: seq<FileChange>, us: seq<Untracked>, cmp: Collation)
    requires AllPrintable(fs) && DistinctPaths(fs)
    ensures Stat(Terminated(NameTokens(fs), '\0'), Terminated(CountTokens(fs), '\0'), us, cmp)
            == AllOwn(fs) + SortByPath(Additions(us), cmp)
  {
    hide Split, NamesFrom, CountsFrom, JoinAll, AllOwn, LinesOf, Collected, SortByPath;
    NameStatusRoundTrip(fs);
    NumstatRoundTrip(fs);
    var counts := Collected(fs, map[]);
    forall i | 0 <= i < |fs|
      ensures CountsFor(counts, fs[i].path) == LinesOf(fs[i].counts)
    {
      CollectedOwn(fs, map[], i);
    }
    JoinIsOwn(fs, counts);
  }

  /** An entry without counts is joined with zeros; every other with the counts under its path. */
  lemma {:induction false} JoinAt(es: seq<NameEntry>, counts: Counts, i: nat)
    requires i < |es|
    ensures |JoinAll(es, counts)| == |es|
    ensures var r, e := JoinAll(es, counts)[i], es[i];
            && r.path == e.path && r.status == e.status && r.previous == e.previous
            && (e.path !in counts ==> r.insertions == 0 && r.deletions == 0 && !r.binary)
            && (e.path in counts ==>
                  r.insertions == counts[e.path].insertions && r.deletions == counts[e.path].deletions
                  && r.binary == counts[e.path].binary)
    decreases |es|
  {
    if i > 0 {
      JoinAt(es[1..], counts, i - 1);
    } else if |es| > 1 {
      JoinAt(es[1..], counts, 0);
    }
  }

  /** An untracked file is summarised as added, with its own lines and nothing deleted. */
  lemma {:induction false} AdditionAt(us: seq<Untracked>, i: nat)
    requires i < |us|
    ensures |Additions(us)| == |us|
    ensures Additions(us)[i] == Summary(us[i].path, Added, None, us[i].insertions, 0, us[i].binary)
    decreases |us|
  {
    if i > 0 {
      AdditionAt(us[1..], i - 1);
    } else if |us| > 1 {
      AdditionAt(us[1..], 0);
    }
  }

  /** The entries whose path compares equal to this one, in the order they stand in. */
  function Equals(s: seq<Summary>, path: string, cmp: Collation): seq<Summary> {
    if s == [] then [] else (if cmp(s[0].path, path) == 0 then [s[0]] else []) + Equals(s[1..], path, cmp)
  }

  lemma {:induction false} EqualsSnoc(s: seq<Summary>, x: Summary, path: string, cmp: Collation)
    ensures Equals(s + [x], path, cmp) == Equals(s, path, cmp) + if cmp(x.path, path) == 0 then [x] else []
  {
    if s != [] {
      EqualsSnoc(s[1..], x, path, cmp);
      assert (s + [x])[1..] == s[1..] + [x];
    } else {
      assert (s + [x])[1..] == [];
    }
  }

  lemma {:induction false} NoneEqual(s: seq<Summary>, path: string, cmp: Collation)
    requires forall i :: 0 <= i < |s| ==> cmp(s[i].path, path) != 0
    ensures Equals(s, path, cmp) == []
  {
    if s != [] { NoneEqual(s[1..], path, cmp); }
  }

  lemma EqualsCons(x: Summary, s: seq<Summary>, path: string, cmp: Collation)
    ensures Equals([x] + s, path, cmp) == (if cmp(x.path, path) == 0 then [x] else []) + Equals(s, path, cmp)
  {
    assert ([x] + s)[1..] == s;
  }

  lemma StaysAbove(a: string, b: string, c: string, path: string, cmp: Collation)
    requires Orders(cmp) && cmp(a, b) < 0 && cmp(b, c) <= 0 && cmp(a, path) == 0
    ensures cmp(c, path) != 0
  {
    assert cmp(b, a) > 0 && cmp(c, b) >= 0;
    assert cmp(c, path) == 0 ==> cmp(path, c) == 0;
    assert cmp(a, path) >= 0 && cmp(path, c) >= 0 ==> cmp(a, c) >= 0;
    assert cmp(a, c) >= 0 && cmp(c, b) >= 0 ==> cmp(a, b) >= 0;
  }

  lemma InsertBefore(x: Summary, s: seq<Summary>, path: string, cmp: Collation)
    requires Orders(cmp) && Collated(s, cmp) && s != [] && cmp(x.path, s[0].path) < 0 && cmp(x.path, path) == 0
    ensures Equals(s, path, cmp) == []
  {
    EqualsCompare(s[0].path, cmp);
    hide Orders;
    forall i | 0 <= i < |s| ensures cmp(s[i].path, path) != 0 {
      StaysAbove(x.path, s[0].path, s[i].path, path, cmp);
    }
    NoneEqual(s, path, cmp);
  }

  lemma EqualsCompare(a: string, cmp: Collation)
    requires Orders(cmp)
    ensures cmp(a, a) == 0
  {
  }

  lemma CollatedTail(s: seq<Summary>, cmp: Collation)
    requires Collated(s, cmp) && s != []
    ensures Collated(s[1..], cmp)
  {
  }

  lemma {:induction false} InsertIsStable(x: Summary, s: seq<Summary>, path: string, cmp: Collation)
    requires Orders(cmp) && Collated(s, cmp)
    ensures Equals(Insert(x, s, cmp), path, cmp) == Equals(s, path, cmp) + if cmp(x.path, path) == 0 then [x] else []
  {
    hide Orders, Collated, Equals;
    EqualsCons(x, s, path, cmp);
    if s == [] {
      assert [x] + s == [x] && Equals(s, path, cmp) == [] by { NoneEqual(s, path, cmp); }
    } else if cmp(x.path, s[0].path) < 0 {
      if cmp(x.path, path) == 0 { InsertBefore(x, s, path, cmp); }
    } else {
      CollatedTail(s, cmp);
      InsertIsStable(x, s[1..], path, cmp);
      EqualsCons(s[0], s[1..], path, cmp);
      EqualsCons(s[0], Insert(x, s[1..], cmp), path, cmp);
      assert s == [s[0]] + s[1..];
    }
  }

  /** Entries whose paths compare equal keep the order they came in. */
  lemma {:induction false} SortByPathIsStable(s: seq<Summary>, path: string, cmp: Collation)
    requires Orders(cmp)
    ensures Equals(SortByPath(s, cmp), path, cmp) == Equals(s, path, cmp)
  {
    hide Insert, Orders, Equals;
    if s != [] {
      var before, x := s[..|s| - 1], s[|s| - 1];
      assert s == before + [x];
      SortByPathIsStable(before, path, cmp);
      SortByPathCollates(before, cmp);
      InsertIsStable(x, SortByPath(before, cmp), path, cmp);
      EqualsSnoc(before, x, path, cmp);
    }
  }

  // ----- Totals -----

  function TotalInsertions(s: seq<Summary>): int {
    if s == [] then 0 else s[0].insertions + TotalInsertions(s[1..])
  }

  function TotalDeletions(s: seq<Summary>): int {
    if s == [] then 0 else s[0].deletions + TotalDeletions(s[1..])
  }

  lemma {:induction false} TotalsAppend(a: seq<Summary>, b: seq<Summary>)
    ensures TotalInsertions(a + b) == TotalInsertions(a) + TotalInsertions(b)
    ensures TotalDeletions(a + b) == TotalDeletions(a) + TotalDeletions(b)
  {
    if a == [] {
      assert a + b == b;
    } else {
      TotalsAppend(a[1..], b);
      assert (a + b)[1..] == a[1..] + b;
    }
  }

  function Without(b: seq<Summary>, i: nat): seq<Summary>
    requires i < |b|
  {
    b[..i] + b[i + 1..]
  }

  lemma WithoutCounts(b: seq<Summary>, i: nat)
    requires i < |b|
    ensures multiset(b) == multiset(Without(b, i)) + multiset{b[i]} && |Without(b, i)| == |b| - 1
  {
    assert b == b[..i] + [b[i]] + b[i + 1..];
  }

  lemma WithoutTotals(b: seq<Summary>, i: nat)
    requires i < |b|
    ensures TotalInsertions(b) == b[i].insertions + TotalInsertions(Without(b, i))
    ensures TotalDeletions(b) == b[i].deletions + TotalDeletions(Without(b, i))
  {
    var tail := b[i..];
    assert tail[0] == b[i] && tail[1..] == b[i + 1..];
    assert TotalInsertions(tail) == b[i].insertions + TotalInsertions(b[i + 1..]);
    assert TotalDeletions(tail) == b[i].deletions + TotalDeletions(b[i + 1..]);
    hide TotalInsertions, TotalDeletions;
    assert b == b[..i] + tail;
    TotalsAppend(b[..i], tail);
    TotalsAppend(b[..i], b[i + 1..]);
  }

  lemma {:induction false} TotalsForgetOrder(a: seq<Summary>, b: seq<Summary>)
    requires multiset(a) == multiset(b)
    ensures TotalInsertions(a) == TotalInsertions(b) && TotalDeletions(a) == TotalDeletions(b)
    decreases |a|
  {
    SameLength(a, b);
    if a != [] {
      hide Without, TotalInsertions, TotalDeletions;
      var i := FindFirst(a, b);
      WithoutTotals(a, 0);
      WithoutTotals(b, i);
      TotalsForgetOrder(Without(a, 0), Without(b, i));
    }
  }

  lemma SameLength(a: seq<Summary>, b: seq<Summary>)
    requires multiset(a) == multiset(b)
    ensures |a| == |b|
  {
    assert |multiset(a)| == |a| && |multiset(b)| == |b|;
  }

  lemma FindFirst(a: seq<Summary>, b: seq<Summary>) returns (i: nat)
    requires multiset(a) == multiset(b) && a != []
    ensures i < |b| && b[i] == a[0] && multiset(Without(a, 0)) == multiset(Without(b, i)) && |Without(a, 0)| < |a|
  {
    hide Without;
    assert a[0] in multiset(b);
    i :| 0 <= i < |b| && b[i] == a[0];
    WithoutCounts(a, 0);
    WithoutCounts(b, i);
    assert multiset(Without(a, 0)) == multiset(a) - multiset{a[0]};
    assert multiset(Without(b, i)) == multiset(b) - multiset{a[0]};
  }

  function ChangedInsertions(fs: seq<FileChange>): int {
    if fs == [] then 0 else LinesOf(fs[0].counts).insertions + ChangedInsertions(fs[1..])
  }

  function ChangedDeletions(fs: seq<FileChange>): int {
    if fs == [] then 0 else LinesOf(fs[0].counts).deletions + ChangedDeletions(fs[1..])
  }

  function UntrackedInsertions(us: seq<Untracked>): int {
    if us == [] then 0 else us[0].insertions + UntrackedInsertions(us[1..])
  }

  predicate KnownLetter(f: FileChange) {
    f.Relocated? || f.letter == 'A' || f.letter == 'D' || f.letter == 'M' || f.letter == 'T'
  }

  /** What the changes with another letter would have added. */
  function DroppedLines(fs: seq<FileChange>): (int, int) {
    if fs == [] then (0, 0)
    else
      var rest, c := DroppedLines(fs[1..]), LinesOf(fs[0].counts);
      if KnownLetter(fs[0]) then rest else (rest.0 + c.insertions, rest.1 + c.deletions)
  }

  lemma {:induction false} OwnTotals(fs: seq<FileChange>)
    ensures TotalInsertions(AllOwn(fs)) + DroppedLines(fs).0 == ChangedInsertions(fs)
    ensures TotalDeletions(AllOwn(fs)) + DroppedLines(fs).1 == ChangedDeletions(fs)
  {
    if fs != [] {
      var own, rest := Own(fs[0]), AllOwn(fs[1..]);
      OwnTotals(fs[1..]);
      OwnTotal(fs[0]);
      hide LinesOf, Own, TotalInsertions, TotalDeletions;
      TotalsAppend(own, rest);
    }
  }

  lemma OwnTotal(f: FileChange)
    ensures KnownLetter(f) ==>
              TotalInsertions(Own(f)) == LinesOf(f.counts).insertions
              && TotalDeletions(Own(f)) == LinesOf(f.counts).deletions
    ensures !KnownLetter(f) ==> TotalInsertions(Own(f)) == 0 && TotalDeletions(Own(f)) == 0
  {
    hide LinesOf;
    assert KnownLetter(f) ==> |Own(f)| == 1 && Own(f)[1..] == [];
  }

  /** Every change that is dropped has no lines. */
  ghost predicate NothingDropped(fs: seq<FileChange>) {
    forall i :: 0 <= i < |fs| && !KnownLetter(fs[i]) ==>
      LinesOf(fs[i].counts).insertions == 0 && LinesOf(fs[i].counts).deletions == 0
  }

  lemma {:induction false} DroppedIff(fs: seq<FileChange>)
    ensures DroppedLines(fs).0 >= 0 && DroppedLines(fs).1 >= 0
    ensures DroppedLines(fs) == (0, 0) <==> NothingDropped(fs)
  {
    if fs != [] {
      DroppedIff(fs[1..]);
      assert fs == [fs[0]] + fs[1..];
      assert NothingDropped(fs) <==> NothingDropped([fs[0]]) && NothingDropped(fs[1..])
        by { NothingDroppedCons(fs[0], fs[1..]); }
      assert LinesOf(fs[0].counts).insertions >= 0 && LinesOf(fs[0].counts).deletions >= 0;
      assert NothingDropped([fs[0]])
             <==> (!KnownLetter(fs[0]) ==>
                     LinesOf(fs[0].counts).insertions == 0 && LinesOf(fs[0].counts).deletions == 0);
    }
  }

  lemma NothingDroppedCons(f: FileChange, fs: seq<FileChange>)
    ensures NothingDropped([f] + fs) <==> NothingDropped([f]) && NothingDropped(fs)
  {
    hide LinesOf, KnownLetter;
    var all := [f] + fs;
    assert all[0] == f && [f][0] == f;
    assert forall i :: 0 <= i < |fs| ==> fs[i] == all[i + 1];
    assert forall i :: 1 <= i < |all| ==> all[i] == fs[i - 1];
  }

  lemma {:induction false} AdditionTotals(us: seq<Untracked>)
    ensures TotalInsertions(Additions(us)) == UntrackedInsertions(us) && TotalDeletions(Additions(us)) == 0
  {
    if us != [] { AdditionTotals(us[1..]); }
  }

  /**
   No insertion or deletion is counted twice, in whatever order untracked files are listed, and
   none is lost exactly when no change with lines carries a letter that name-status drops.
   */
  lemma TotalsConservedIff(fs: seq<FileChange>, us: seq<Untracked>, cmp: Collation)
    requires AllPrintable(fs) && DistinctPaths(fs)
    ensures var r := Stat(Terminated(NameTokens(fs), '\0'), Terminated(CountTokens(fs), '\0'), us, cmp);
            && TotalInsertions(r) + DroppedLines(fs).0 == ChangedInsertions(fs) + UntrackedInsertions(us)
            && TotalDeletions(r) + DroppedLines(fs).1 == ChangedDeletions(fs)
            && (TotalInsertions(r) == ChangedInsertions(fs) + UntrackedInsertions(us)
                && TotalDeletions(r) == ChangedDeletions(fs)
                <==> NothingDropped(fs))
  {
    hide Stat, AllOwn, Additions, TotalInsertions, TotalDeletions, Terminated, AllPrintable, SortByPath,
        DroppedLines, NothingDropped;
    hide ChangedInsertions, ChangedDeletions, UntrackedInsertions;
    JoinGivesOwnCounts(fs, us, cmp);
    TotalsAppend(AllOwn(fs), SortByPath(Additions(us), cmp));
    SortByPathCollates(Additions(us), cmp);
    TotalsForgetOrder(SortByPath(Additions(us), cmp), Additions(us));
    OwnTotals(fs);
    AdditionTotals(us);
    DroppedIff(fs);
  }
}
