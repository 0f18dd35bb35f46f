/**
 Git's NUL-separated status formats: worktree status, name-status and numstat,
 each read token by token, and the join of the last two into a diff summary.
 */
module StatusParsers {
  import opened Options
  import opened Text
  import opened Splitting

  const NUL: char := '\0'
  const TAB: char := '\t'

  // ----- Worktree status -----

  datatype ParsedStatus = ParsedStatus(staged: seq<string>, unstaged: seq<string>, untracked: seq<string>)

  function Both(a: ParsedStatus, b: ParsedStatus): ParsedStatus {
    ParsedStatus(a.staged + b.staged, a.unstaged + b.unstaged, a.untracked + b.untracked)
  }

  predicate Moved(x: char, y: char) {
    x == 'R' || x == 'C' || y == 'R' || y == 'C'
  }

  /** What one record with the codes x and y says about its path. */
  function Report(x: char, y: char, path: string): ParsedStatus {
    if x == '?' && y == '?' then ParsedStatus([], [], [path])
    else if x == '!' && y == '!' then ParsedStatus([], [], [])
    else ParsedStatus(if x != '.' && x != ' ' then [path] else [], if y != '.' && y != ' ' then [path] else [], [])
  }

  function StatusFrom(records: seq<string>, index: nat): ParsedStatus
    decreases |records| - index
  {
    if index >= |records| then ParsedStatus([], [], [])
    else
      var record := records[index];
      if |record| < 4 then StatusFrom(records, index + 1)
      else
        var x, y := record[0], record[1];
        Both(Report(x, y, record[3..]), StatusFrom(records, if Moved(x, y) then index + 2 else index + 1))
  }

  lemma BothAssociates(a: ParsedStatus, b: ParsedStatus, c: ParsedStatus)
    ensures Both(Both(a, b), c) == Both(a, Both(b, c))
  {
    Associates(a.staged, b.staged, c.staged);
    Associates(a.unstaged, b.unstaged, c.unstaged);
    Associates(a.untracked, b.untracked, c.untracked);
  }

  lemma Associates<T>(a: seq<T>, b: seq<T>, c: seq<T>)
    ensures (a + b) + c == a + (b + c)
  {
  }

  lemma StatusStep(records: seq<string>, index: nat)
    requires index < |records|
    ensures |records[index]| < 4 ==> StatusFrom(records, index) == StatusFrom(records, index + 1)
    ensures |records[index]| >= 4 ==>
              var x, y := records[index][0], records[index][1];
              StatusFrom(records, index)
              == Both(Report(x, y, records[index][3..]),
                      StatusFrom(records, if Moved(x, y) then index + 2 else index + 1))
  {
  }

  method ParsePorcelainV1Z(output: string) returns (r: ParsedStatus)
    ensures r == StatusFrom(Split(output, '\0'), 0)
  {
    var staged: seq<string>, unstaged: seq<string>, untracked: seq<string> := [], [], [];
    var records := Split(output, NUL);
    var index := 0;
    StatusStart(records);
    hide StatusFrom, Both;
    while index < |records|
      invariant 0 <= index
      invariant Both(ParsedStatus(staged, unstaged, untracked), StatusFrom(records, index)) == StatusFrom(records, 0)
      decreases |records| - index
    {
      var record := records[index];
      ghost var seen := ParsedStatus(staged, unstaged, untracked);
      StatusStep(records, index);
      index := index + 1;
      if |record| >= 4 {
        var x, y, path := record[0], record[1], record[3..];
        if x == '?' && y == '?' {
          untracked := untracked + [path];
        } else if !(x == '!' && y == '!') {
          if x != '.' && x != ' ' { staged := staged + [path]; }
          if y != '.' && y != ' ' { unstaged := unstaged + [path]; }
          if Moved(x, y) { index := index + 1; }
        }
        BothAssociates(seen, Report(x, y, path), StatusFrom(records, index));
        BothReport(seen, x, y, path);
      }
    }
    StatusEnd(records, index, ParsedStatus(staged, unstaged, untracked));
    r := ParsedStatus(staged, unstaged, untracked);
  }

  lemma StatusStart(records: seq<string>)
    ensures Both(ParsedStatus([], [], []), StatusFrom(records, 0)) == StatusFrom(records, 0)
  {
  }

  lemma StatusEnd(records: seq<string>, index: nat, seen: ParsedStatus)
    requires index >= |records|
    ensures Both(seen, StatusFrom(records, index)) == seen
  {
  }

  lemma BothReport(seen: ParsedStatus, x: char, y: char, path: string)
    ensures Both(seen, Report(x, y, path))
            == if x == '?' && y == '?' then seen.(untracked := seen.untracked + [path])
               else if x == '!' && y == '!' then seen
               else ParsedStatus(if x != '.' && x != ' ' then seen.staged + [path] else seen.staged,
                                 if y != '.' && y != ' ' then seen.unstaged + [path] else seen.unstaged, seen.untracked)
  {
  }

  /** A record of less than four characters says nothing, whatever stands around it. */
  lemma ShortRecordsAreSkipped(records: seq<string>, index: nat)
    requires index < |records| && |records[index]| <= 3
    ensures StatusFrom(records, index) == StatusFrom(records, index + 1)
  {
  }

  /** A worktree entry as Git prints it; a moved one carries its source path. */
  datatype StatusEntry = StatusEntry(x: char, y: char, path: string, source: string)

  predicate PrintableStatus(e: StatusEntry) {
    && e.path != "" && Free(e.path, NUL) && Free(e.source, NUL)
    && e.x != NUL && e.y != NUL
  }

  /** One record, and for an entry that was renamed or copied its source in the next. */
  function EntryTokens(e: StatusEntry): seq<string> {
    [[e.x, e.y, ' '] + e.path] + if e.x in {'R', 'C'} || e.y in {'R', 'C'} then [e.source] else []
  }

  function StatusTokens(es: seq<StatusEntry>): seq<string> {
    if es == [] then []
    else EntryTokens(es[0]) + StatusTokens(es[1..])
  }

  function StatusOf(es: seq<StatusEntry>): ParsedStatus {
    if es == [] then ParsedStatus([], [], []) else Both(Report(es[0].x, es[0].y, es[0].path), StatusOf(es[1..]))
  }

  lemma {:induction false} StatusTokensFree(es: seq<StatusEntry>)
    requires forall i :: 0 <= i < |es| ==> PrintableStatus(es[i])
    ensures AllFree(StatusTokens(es), NUL)
  {
    if es != [] {
      StatusTokensFree(es[1..]);
      assert PrintableStatus(es[0]);
    }
  }

  lemma StatusReadsOne(before: seq<string>, e: StatusEntry, rest: seq<string>)
    requires PrintableStatus(e)
    ensures var records := before + (EntryTokens(e) + rest);
            StatusFrom(records, |before|)
            == Both(Report(e.x, e.y, e.path), StatusFrom(records, |before + EntryTokens(e)|))
  {
    hide StatusFrom, Both, Report;
    var records := before + (EntryTokens(e) + rest);
    var record := [e.x, e.y, ' '] + e.path;
    assert records[|before|] == EntryTokens(e)[0] == record;
    assert record[3..] == e.path && record[0] == e.x && record[1] == e.y && |record| >= 4;
    StatusStep(records, |before|);
  }

  /** Reading from where the tokens of the remaining entries begin. */
  lemma {:induction false} StatusReads(before: seq<string>, es: seq<StatusEntry>)
    requires forall i :: 0 <= i < |es| ==> PrintableStatus(es[i])
    ensures StatusFrom(before + (StatusTokens(es) + [""]), |before|) == StatusOf(es)
    decreases |es|
  {
    if es == [] {
      StatusReadsNothing(before);
    } else {
      var own, more := EntryTokens(es[0]), StatusTokens(es[1..]);
      assert PrintableStatus(es[0]);
      assert StatusTokens(es) == own + more;
      hide StatusFrom, EntryTokens, PrintableStatus, Both;
      Associates(own, more, [""]);
      Associates(before, own, more + [""]);
      StatusReadsOne(before, es[0], more + [""]);
      StatusReads(before + own, es[1..]);
    }
  }

  lemma StatusReadsNothing(before: seq<string>)
    ensures StatusFrom(before + ([] + [""]), |before|) == ParsedStatus([], [], [])
  {
    var records := before + ([] + [""]);
    assert records[|before|] == "";
    StatusStep(records, |before|);
  }

  /** Reading what Git printed gives each entry's report, whatever its rename source looks like. */
  lemma StatusRoundTrip(es: seq<StatusEntry>)
    requires forall i :: 0 <= i < |es| ==> PrintableStatus(es[i])
    ensures StatusFrom(Split(Terminated(StatusTokens(es), '\0'), '\0'), 0) == StatusOf(es)
  {
    hide Split, StatusFrom, StatusOf, StatusTokens, Terminated, PrintableStatus;
    StatusTokensFree(es);
    SplitTerminated(StatusTokens(es), NUL);
    StatusReads([], es);
    assert [] + (StatusTokens(es) + [""]) == StatusTokens(es) + [""];
  }

  /** The paths of the entries that are kept, in their order. */
  function PathsOf(es: seq<StatusEntry>, keep: StatusEntry -> bool): seq<string> {
    if es == [] then [] else (if keep(es[0]) then [es[0].path] else []) + PathsOf(es[1..], keep)
  }

  predicate Tracked(e: StatusEntry) {
    !(e.x == e.y == '?') && !(e.x == e.y == '!')
  }

  /**
   What Git printed comes out as: the paths that differ in the index, those that differ in the
   worktree, and the untracked ones, each in Git's order.
   */
  lemma {:induction false} StatusMeaning(es: seq<StatusEntry>)
    ensures StatusOf(es).staged == PathsOf(es, (e: StatusEntry) => Tracked(e) && e.x !in {'.', ' '})
    ensures StatusOf(es).unstaged == PathsOf(es, (e: StatusEntry) => Tracked(e) && e.y !in {'.', ' '})
    ensures StatusOf(es).untracked == PathsOf(es, (e: StatusEntry) => e.x == '?' && e.y == '?')
  {
    if es != [] { StatusMeaning(es[1..]); }
  }

  // ----- Name-status -----

  datatype FileStatus = Added | Modified | Deleted | Renamed

  datatype NameEntry = NameEntry(status: FileStatus, path: string, previous: Option<string>)

  /** What one code letter says about its path; unknown letters are skipped. */
  function Named(letter: char, path: string): seq<NameEntry> {
    if letter == 'A' then [NameEntry(Added, path, None)]
    else if letter == 'D' then [NameEntry(Deleted, path, None)]
    else if letter == 'M' || letter == 'T' then [NameEntry(Modified, path, None)]
    else []
  }

  function NamesFrom(tokens: seq<string>, index: nat): seq<NameEntry>
    decreases |tokens| - index
  {
    if index >= |tokens| then []
    else
      var code := tokens[index];
      if code == "" then NamesFrom(tokens, index + 1)
      else if code[0] == 'R' || code[0] == 'C' then
        if index + 2 >= |tokens| then []
        else [NameEntry(Renamed, tokens[index + 2], Some(tokens[index + 1]))] + NamesFrom(tokens, index + 3)
      else if index + 1 >= |tokens| then []
      else Named(code[0], tokens[index + 1]) + NamesFrom(tokens, index + 2)
  }

  method ParseNameStatusZ(output: string) returns (entries: seq<NameEntry>)
    ensures entries == NamesFrom(Split(output, '\0'), 0)
  {
    hide Named;
    entries := [];
    var tokens := Split(output, NUL);
    var index := 0;
    while index < |tokens|
      invariant 0 <= index
      invariant entries + NamesFrom(tokens, index) == NamesFrom(tokens, 0)
      decreases |tokens| - index
    {
      var code := tokens[index];
      NamesStep(tokens, index);
      index := index + 1;
      if code == "" {
        continue;
      }
      var letter := code[0];
      if letter == 'R' || letter == 'C' {
        if index + 1 >= |tokens| {
          break;
        }
        Associates(entries, [NameEntry(Renamed, tokens[index + 1], Some(tokens[index]))], NamesFrom(tokens, index + 2));
        entries := entries + [NameEntry(Renamed, tokens[index + 1], Some(tokens[index]))];
        index := index + 2;
        continue;
      }
      if index >= |tokens| {
        break;
      }
      Associates(entries, Named(letter, tokens[index]), NamesFrom(tokens, index + 1));
      entries := entries + Named(letter, tokens[index]);
      index := index + 1;
    }
  }

  lemma NamesStep(tokens: seq<string>, index: nat)
    requires index < |tokens|
    ensures tokens[index] == "" ==> NamesFrom(tokens, index) == NamesFrom(tokens, index + 1)
    ensures tokens[index] != "" && (tokens[index][0] == 'R' || tokens[index][0] == 'C') ==>
              NamesFrom(tokens, index) == if index + 2 >= |tokens| then []
                                          else [NameEntry(Renamed, tokens[index + 2], Some(tokens[index + 1]))]
                                               + NamesFrom(tokens, index + 3)
    ensures tokens[index] != "" && tokens[index][0] != 'R' && tokens[index][0] != 'C' ==>
              NamesFrom(tokens, index) == if index + 1 >= |tokens| then []
                                          else Named(tokens[index][0], tokens[index + 1]) + NamesFrom(tokens, index + 2)
  {
  }

  // ----- Numstat -----

  datatype LineCounts = LineCounts(insertions: int, deletions: int, binary: bool)

  predicate IsSpace(c: char) {
    c == ' ' || c == '\t' || c == '\n' || c == '\r'
  }

  function DigitPrefix(s: string): (r: string)
    ensures AllDigits(r)
  {
    if s == "" || !IsDigit(s[0]) then "" else [s[0]] + DigitPrefix(s[1..])
  }

  /** The integer a field starts with, or zero. */
  function ParseCount(s: string): int {
    if s != "" && IsSpace(s[0]) then ParseCount(s[1..])
    else if s != "" && (s[0] == '-' || s[0] == '+') then
      var n: int := Number(DigitPrefix(s[1..]));
      if s[0] == '-' then -n else n
    else Number(DigitPrefix(s))
  }

  lemma SignedReads(sign: string, digits: string, rest: string)
    requires sign in {"", "-", "+"} && AllDigits(digits) && (rest != "" ==> !IsDigit(rest[0]))
    requires digits == "" && sign == "" && rest != "" ==> rest[0] !in {' ', '\t', '\n', '\r', '-', '+'}
    ensures var n: int := Number(digits);
            ParseCount(sign + (digits + rest)) == if sign == "-" then -n else n
  {
    hide Number;
    var s, t := sign + (digits + rest), digits + rest;
    DigitPrefixStops(digits, rest);
    if sign == "" {
      assert s == t;
      assert digits != "" ==> t[0] == digits[0] && IsDigit(digits[0]);
      assert t != "" ==> t[0] == if digits != "" then digits[0] else rest[0];
    } else {
      assert s[1..] == t && s[0] == sign[0];
    }
  }

  /**
   White space, a sign and digits up to the first character that is none read as that number;
   without digits it is zero.
   */
  lemma {:induction false} ParseCountReads(spaces: string, sign: string, digits: string, rest: string)
    requires forall i :: 0 <= i < |spaces| ==> spaces[i] in {' ', '\t', '\n', '\r'}
    requires sign in {"", "-", "+"} && AllDigits(digits) && (rest != "" ==> !IsDigit(rest[0]))
    requires digits == "" && sign == "" && rest != "" ==> rest[0] !in {' ', '\t', '\n', '\r', '-', '+'}
    ensures var n: int := Number(digits);
            ParseCount(spaces + (sign + (digits + rest))) == if sign == "-" then -n else n
    decreases |spaces|
  {
    hide Number;
    var s := sign + (digits + rest);
    if spaces == "" {
      SignedReads(sign, digits, rest);
      assert spaces + s == s;
    } else {
      hide DigitPrefix;
      ParseCountReads(spaces[1..], sign, digits, rest);
      SkipsSpace(spaces[0], spaces[1..] + s);
      assert spaces + s == [spaces[0]] + (spaces[1..] + s);
    }
  }

  lemma SkipsSpace(c: char, s: string)
    requires c in {' ', '\t', '\n', '\r'}
    ensures ParseCount([c] + s) == ParseCount(s)
  {
    assert ([c] + s)[1..] == s;
  }

  lemma {:induction false} DigitPrefixStops(digits: string, rest: string)
    requires AllDigits(digits) && (rest != "" ==> !IsDigit(rest[0]))
    ensures DigitPrefix(digits + rest) == digits
  {
    if digits == "" {
      assert digits + rest == rest;
    } else {
      DigitPrefixStops(digits[1..], rest);
      assert (digits + rest)[1..] == digits[1..] + rest && digits == [digits[0]] + digits[1..];
    }
  }

  function Field(fields: seq<string>, i: nat): string {
    if i < |fields| then fields[i] else ""
  }

  function CountsOf(fields: seq<string>): LineCounts {
    LineCounts(ParseCount(Field(fields, 0)), ParseCount(Field(fields, 1)),
               Field(fields, 0) == "-" || Field(fields, 1) == "-")
  }

  /** A header's counts are those of its first two fields, and it is binary when either of them is a hyphen. */
  lemma CountsOfRead(fields: seq<string>)
    requires |fields| >= 2
    ensures CountsOf(fields).insertions == ParseCount(fields[0]) && CountsOf(fields).deletions == ParseCount(fields[1])
    ensures CountsOf(fields).binary <==> "-" in fields[..2]
  {
    assert fields[..2] == [fields[0], fields[1]];
  }

  type Counts = map<string, LineCounts>

  function CountsFrom(tokens: seq<string>, index: nat, counts: Counts): Counts
    decreases |tokens| - index
  {
    if index >= |tokens| then counts
    else if tokens[index] == "" then CountsFrom(tokens, index + 1, counts)
    else
      var fields := Split(tokens[index], TAB);
      if Field(fields, 2) != "" then CountsFrom(tokens, index + 1, counts[Field(fields, 2) := CountsOf(fields)])
      else if index + 2 >= |tokens| then counts
      else CountsFrom(tokens, index + 3, counts[tokens[index + 2] := CountsOf(fields)])
  }

  /** A rename entry that is cut short ends the reading, in either format. */
  lemma TruncatedEntriesEnd(tokens: seq<string>, index: nat, counts: Counts)
    requires index < |tokens| <= index + 2 && tokens[index] != ""
    ensures Field(Split(tokens[index], '\t'), 2) == "" ==> CountsFrom(tokens, index, counts) == counts
    ensures tokens[index][0] in {'R', 'C'} ==> NamesFrom(tokens, index) == []
    ensures |tokens| == index + 1 ==> NamesFrom(tokens, index) == []
  {
    hide Split;
  }

  method ParseNumstatZ(output: string) returns (counts: Counts)
    ensures counts == CountsFrom(Split(output, '\0'), 0, map[])
  {
    counts := map[];
    var tokens := Split(output, NUL);
    var index := 0;
    while index < |tokens|
      invariant 0 <= index
      invariant CountsFrom(tokens, index, counts) == CountsFrom(tokens, 0, map[])
      decreases |tokens| - index
    {
      var header := tokens[index];
      index := index + 1;
      if header == "" {
        continue;
      }
      var fields := Split(header, TAB);
      var entry := CountsOf(fields);
      if Field(fields, 2) != "" {
        counts := counts[Field(fields, 2) := entry];
        continue;
      }
      if index + 1 >= |tokens| {
        break;
      }
      counts := counts[tokens[index + 1] := entry];
      index := index + 2;
    }
  }
}
