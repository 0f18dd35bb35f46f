/**
 Control records, their chain, and the files that carry them on the Control Ref.
 A digest link names the linked record itself: digests are collision-free.
 */
module ControlRecords {
  import opened Options
  import opened Text

  datatype Kind = PrincipalSnapshot | Lease | RemoteApprovalDecision

  datatype LeaseState = Granted | Renewed | Released | Expired | Revoked

  /** The fields of a lease record that fencing looks at. */
  datatype LeaseFacts = LeaseFacts(onOperation: bool, resource: string, token: nat, state: LeaseState)

  /** `sound` is the verdict of the schema and the sealed envelope. */
  datatype Record = Record(kind: Kind, id: string, sequence: nat, previous: Option<Record>, lease: LeaseFacts,
                           body: string, sound: bool)

  /** A file holds a record in canonical form, or anything else. */
  datatype File = RecordFile(record: Record) | OtherFile(text: string)

  type Tree = map<string, File>

  const WIDTH := 12

  // ----- The chain -----

  predicate Chain(rs: seq<Record>) {
    && rs != []
    && rs[0].previous == None
    && (forall i :: 1 <= i < |rs| ==> Continues(rs[i - 1], rs[i]))
  }

  /** The next number, and a link to exactly the record before. */
  predicate Continues(before: Record, r: Record) {
    r.sequence == before.sequence + 1 && r.previous == Some(before)
  }

  method AssertControlChain(rs: seq<Record>) returns (ok: bool)
    ensures ok == Chain(rs)
  {
    if rs == [] || rs[0].previous != None {
      return false;
    }
    var index := 1;
    while index < |rs|
      invariant 1 <= index <= |rs|
      invariant forall i :: 1 <= i < index ==> Continues(rs[i - 1], rs[i])
    {
      if rs[index].sequence != rs[index - 1].sequence + 1 || rs[index].previous != Some(rs[index - 1]) {
        return false;
      }
      index := index + 1;
    }
    ok := true;
  }

  lemma {:induction false} ChainSequences(rs: seq<Record>, i: nat)
    requires Chain(rs) && i < |rs|
    ensures rs[i].sequence == rs[0].sequence + i
  {
    if i > 0 { ChainSequences(rs, i - 1); }
  }

  /** No record stands in a chain twice. */
  lemma ChainHasNoRepeats(rs: seq<Record>, i: nat, j: nat)
    requires Chain(rs) && i < |rs| && j < |rs| && rs[i] == rs[j]
    ensures i == j
  {
    ChainSequences(rs, i);
    ChainSequences(rs, j);
  }

  // ----- File names -----

  function KindName(kind: Kind): string {
    match kind
    case PrincipalSnapshot => "principal_snapshot"
    case Lease => "lease"
    case RemoteApprovalDecision => "remote_approval_decision"
  }

  predicate IsIdChar(c: char) {
    'A' <= c <= 'Z' || 'a' <= c <= 'z' || '0' <= c <= '9' || c == '_' || c == '-'
  }

  predicate IsId(id: string) {
    id != "" && forall i :: 0 <= i < |id| ==> IsIdChar(id[i])
  }

  function Tail(kind: Kind, id: string): string {
    KindName(kind) + "-" + id + ".json"
  }

  function PathText(digits: string, kind: Kind, id: string): string {
    "records/" + digits + "-" + Tail(kind, id)
  }

  function FileName(r: Record): string {
    PathText(PadStart(Decimal(r.sequence), WIDTH), r.kind, r.id)
  }

  /** An identifier is made of the letters, the digits, the underscore and the hyphen. */
  lemma IsIdCharIff(c: char)
    ensures IsIdChar(c) <==> c in UPPER || c in LOWER || c in DIGITS || c in "_-"
  {
    UpperIff(c);
    LowerIff(c);
    DigitsIff(c);
    hide UPPER, LOWER, DIGITS;
  }

  /** The name of a record's file, up to the twelfth digit of its number. */
  lemma FileNameReads(r: Record)
    requires r.sequence < Power10(12)
    ensures var kind := match r.kind
                        case PrincipalSnapshot => "principal_snapshot"
                        case Lease => "lease"
                        case RemoteApprovalDecision => "remote_approval_decision";
            exists digits :: |digits| == 12 && AllDigits(digits) && Number(digits) == r.sequence
                             && FileName(r) == "records/" + digits + "-" + (kind + "-" + r.id + ".json")
  {
    hide Decimal, Number, Power10, Fixed;
    PadIsFixed(r.sequence, 12);
    FixedReadsBack(r.sequence, 12);
  }

  datatype Matched = NoMatch | Matched(sequence: nat, kind: Kind, id: string)

  function IdAfter(tail: string, kind: Kind): Option<string> {
    var lead := KindName(kind) + "-";
    if |tail| > |lead| + 5 && tail[..|lead|] == lead && tail[|tail| - 5..] == ".json" && IsId(tail[|lead|..|tail| - 5])
    then Some(tail[|lead|..|tail| - 5]) else None
  }

  function MatchTail(n: nat, tail: string): Matched {
    if IdAfter(tail, PrincipalSnapshot).Some? then Matched(n, PrincipalSnapshot, IdAfter(tail, PrincipalSnapshot).value)
    else if IdAfter(tail, Lease).Some? then Matched(n, Lease, IdAfter(tail, Lease).value)
    else if IdAfter(tail, RemoteApprovalDecision).Some?
         then Matched(n, RemoteApprovalDecision, IdAfter(tail, RemoteApprovalDecision).value)
    else NoMatch
  }

  /** The record file pattern: twelve digits, a kind and an identifier. */
  function MatchPath(path: string): Matched {
    if |path| < 21 || path[..8] != "records/" || !AllDigits(path[8..20]) || path[20] != '-' then NoMatch
    else MatchTail(Number(path[8..20]), path[21..])
  }

  lemma IdAfterIff(tail: string, kind: Kind, id: string)
    ensures IdAfter(tail, kind) == Some(id) <==> IsId(id) && tail == Tail(kind, id)
  {
    var lead := KindName(kind) + "-";
    if IsId(id) && tail == Tail(kind, id) {
      assert tail == lead + id + ".json";
      assert tail[|lead|..|tail| - 5] == id;
      assert tail[|tail| - 5..] == ".json";
    }
    if IdAfter(tail, kind) == Some(id) {
      assert tail == tail[..|lead|] + tail[|lead|..|tail| - 5] + tail[|tail| - 5..];
    }
  }

  lemma TailsDiffer(kind: Kind, kind': Kind, id: string, id': string)
    requires Tail(kind, id) == Tail(kind', id')
    ensures kind == kind'
  {
    assert Tail(kind, id)[0] == KindName(kind)[0] && Tail(kind', id')[0] == KindName(kind')[0];
  }

  lemma MatchTailIff(n: nat, tail: string, n': nat, kind: Kind, id: string)
    ensures MatchTail(n, tail) == Matched(n', kind, id) <==> n' == n && IsId(id) && tail == Tail(kind, id)
  {
    hide IdAfter, IsId, Tail;
    forall k: Kind, i: string ensures IdAfter(tail, k) == Some(i) <==> IsId(i) && tail == Tail(k, i) {
      IdAfterIff(tail, k, i);
    }
    forall k: Kind, k': Kind, i: string, i': string | tail == Tail(k, i) == Tail(k', i') ensures k == k' {
      TailsDiffer(k, k', i, i');
    }
  }

  /** The pattern accepts exactly the names of records numbered below ten to the twelfth. */
  lemma MatchPathIff(path: string, n: nat, kind: Kind, id: string)
    ensures MatchPath(path) == Matched(n, kind, id)
            <==> n < Power10(WIDTH) && IsId(id) && path == PathText(Fixed(n, WIDTH), kind, id)
  {
    hide MatchTail, IsId, Tail, Power10, Fixed, Number;
    if MatchPath(path) == Matched(n, kind, id) {
      MatchTailIff(Number(path[8..20]), path[21..], n, kind, id);
      NumberIsFixed(path[8..20]);
      assert path == path[..8] + path[8..20] + [path[20]] + path[21..];
    }
    if n < Power10(WIDTH) && IsId(id) && path == PathText(Fixed(n, WIDTH), kind, id) {
      FixedReadsBack(n, WIDTH);
      assert path[..8] == "records/" && path[8..20] == Fixed(n, WIDTH) && path[20] == '-'
             && path[21..] == Tail(kind, id);
      MatchTailIff(n, path[21..], n, kind, id);
    }
  }

  /** A number that outgrew twelve digits gets a name the pattern refuses. */
  lemma NameFits(r: Record)
    ensures MatchPath(FileName(r)) == Matched(r.sequence, r.kind, r.id) <==> r.sequence < Power10(WIDTH) && IsId(r.id)
    ensures r.sequence < Power10(WIDTH) ==> FileName(r) == PathText(Fixed(r.sequence, WIDTH), r.kind, r.id)
  {
    hide MatchPath, Power10, Fixed, Decimal;
    PadIsFixed(r.sequence, WIDTH);
    MatchPathIff(FileName(r), r.sequence, r.kind, r.id);
  }

  /** Sorting the names of numbered records puts them in sequence order. */
  lemma NamesAreOrdered(a: Record, b: Record)
    requires a.sequence < b.sequence < Power10(WIDTH)
    ensures Less(FileName(a), FileName(b))
  {
    hide Power10, Fixed, Decimal, Less, Tail, PadStart, MatchPath, AllDigits, IsId;
    NameFits(a);
    NameFits(b);
    FixedIsOrdered(a.sequence, b.sequence, WIDTH);
    var x, y := "-" + Tail(a.kind, a.id), "-" + Tail(b.kind, b.id);
    LessWithSuffix(Fixed(a.sequence, WIDTH), Fixed(b.sequence, WIDTH), x, y);
    LessWithPrefix("records/", Fixed(a.sequence, WIDTH) + x, Fixed(b.sequence, WIDTH) + y);
    assert FileName(a) == "records/" + (Fixed(a.sequence, WIDTH) + x);
    assert FileName(b) == "records/" + (Fixed(b.sequence, WIDTH) + y);
  }

  /** Different numbers give different names, however large. */
  lemma NamesAreDistinct(a: Record, b: Record)
    requires FileName(a) == FileName(b)
    ensures a.sequence == b.sequence
  {
    hide Decimal, PadStart, Tail, Number, AllDigits;
    var x, y := PadStart(Decimal(a.sequence), WIDTH), PadStart(Decimal(b.sequence), WIDTH);
    PadKeepsNumber(a.sequence);
    PadKeepsNumber(b.sequence);
    var p, q := FileName(a), FileName(b);
    assert p[8..] == x + ("-" + Tail(a.kind, a.id)) && q[8..] == y + ("-" + Tail(b.kind, b.id));
    DigitsEndAtDash(x, y, "-" + Tail(a.kind, a.id), "-" + Tail(b.kind, b.id));
  }

  lemma DigitsEndAtDash(x: string, y: string, s: string, t: string)
    requires AllDigits(x) && AllDigits(y) && |s| > 0 && |t| > 0 && s[0] == '-' && t[0] == '-' && x + s == y + t
    ensures x == y
  {
    assert (x + s)[|x|] == '-' && (y + t)[|y|] == '-';
    if |x| == |y| {
      assert x == (x + s)[..|x|] && y == (y + t)[..|y|];
    }
  }

  lemma PadKeepsNumber(n: nat)
    ensures AllDigits(PadStart(Decimal(n), WIDTH)) && Number(PadStart(Decimal(n), WIDTH)) == n
  {
    hide Power10, Number;
    PadIsFixed(n, WIDTH);
    if n < Power10(WIDTH) { FixedReadsBack(n, WIDTH); } else { DecimalReadsBack(n); }
  }

  // ----- Reading the chain back from a tree -----

  /** The tree the appends of these records leave behind. */
  function TreeOf(rs: seq<Record>): Tree {
    if rs == [] then map[] else TreeOf(rs[..|rs| - 1])[FileName(rs[|rs| - 1]) := RecordFile(rs[|rs| - 1])]
  }

  function ParseRecord(path: string, file: File, expected: nat): Option<Record> {
    match MatchPath(path)
    case NoMatch => None
    case Matched(sequence, kind, id) =>
      if sequence != expected || !file.RecordFile? then None
      else
        var r := file.record;
        if r.kind != kind || r.id != id || r.sequence != expected || !r.sound then None else Some(r)
  }

  /** The records in the first n files, or nothing when one of them does not parse. */
  function ParsePrefix(tree: Tree, paths: seq<string>, n: nat): Option<seq<Record>>
    requires n <= |paths| && forall i :: 0 <= i < |paths| ==> paths[i] in tree
  {
    if n == 0 then Some([])
    else
      var before := ParsePrefix(tree, paths, n - 1);
      var r := ParseRecord(paths[n - 1], tree[paths[n - 1]], n);
      if before.None? || r.None? then None else Some(before.value + [r.value])
  }

  function ReadPaths(tree: Tree, paths: seq<string>): Option<seq<Record>>
    requires forall i :: 0 <= i < |paths| ==> paths[i] in tree
  {
    var parsed := ParsePrefix(tree, paths, |paths|);
    if parsed.None? || (parsed.value != [] && !Chain(parsed.value)) then None else parsed
  }

  ghost predicate Lists(listing: seq<string>, tree: Tree) {
    && (forall i :: 0 <= i < |listing| ==> listing[i] in tree)
    && (forall p :: p in tree ==> p in listing)
    && DistinctBy(listing, Same)
  }

  method ReadControlChain(tree: Tree, listing: seq<string>) returns (r: Option<seq<Record>>)
    requires Lists(listing, tree)
    ensures r.Some? ==> Readable(tree, r.value)
    ensures r.None? ==> forall rs :: !Readable(tree, rs)
  {
    hide Readable, Chain, SortedBy, MatchPath, LessEq, SortStrings, DistinctBy, IsId;
    var paths := SortStrings(listing);
    SortedListing(tree, listing);
    var index := 0;
    while index < |paths|
      invariant 0 <= index <= |paths|
    {
      if MatchPath(paths[index]) == NoMatch {
        FailedParse(tree, paths, index, |paths|);
        ReadMeaning(tree, paths);
        return None;
      }
      index := index + 1;
    }
    var records: seq<Record> := [];
    index := 0;
    while index < |paths|
      invariant 0 <= index <= |paths|
      invariant ParsePrefix(tree, paths, index) == Some(records)
    {
      var record := ParseRecord(paths[index], tree[paths[index]], index + 1);
      if record == None {
        FailedParse(tree, paths, index, |paths|);
        ReadMeaning(tree, paths);
        return None;
      }
      records := records + [record.value];
      index := index + 1;
    }
    ReadMeaning(tree, paths);
    if |records| > 0 {
      var ok := AssertControlChain(records);
      if !ok {
        return None;
      }
    }
    r := Some(records);
  }

  /** A tree that carries exactly a sound chain numbered from one. */
  ghost predicate Readable(tree: Tree, rs: seq<Record>) {
    && tree == TreeOf(rs)
    && |rs| < Power10(WIDTH)
    && (forall i :: 0 <= i < |rs| ==> rs[i].sequence == i + 1 && rs[i].sound && IsId(rs[i].id))
    && (rs != [] ==> Chain(rs))
  }

  lemma SortedListing(tree: Tree, listing: seq<string>)
    requires Lists(listing, tree)
    ensures Lists(SortStrings(listing), tree) && SortedBy(SortStrings(listing), Same)
  {
    var paths := SortStrings(listing);
    SortByKeeps(listing, Same);
    DistinctPermutes(listing, paths, Same);
    forall i | 0 <= i < |paths| ensures paths[i] in tree { assert paths[i] in multiset(listing); }
    forall p | p in tree ensures p in paths { assert p in multiset(paths); }
  }

  lemma {:induction false} FailedParse(tree: Tree, paths: seq<string>, index: nat, n: nat)
    requires index < n <= |paths| && forall i :: 0 <= i < |paths| ==> paths[i] in tree
    requires ParseRecord(paths[index], tree[paths[index]], index + 1) == None
    ensures ParsePrefix(tree, paths, n) == None
  {
    hide ParseRecord;
    if index < n - 1 { FailedParse(tree, paths, index, n - 1); }
  }

  lemma {:induction false} ParsedEach(tree: Tree, paths: seq<string>, n: nat, rs: seq<Record>)
    requires n <= |paths| && forall i :: 0 <= i < |paths| ==> paths[i] in tree
    requires ParsePrefix(tree, paths, n) == Some(rs)
    ensures |rs| == n && forall i :: 0 <= i < n ==> ParseRecord(paths[i], tree[paths[i]], i + 1) == Some(rs[i])
  {
    hide ParseRecord;
    if n > 0 { ParsedEach(tree, paths, n - 1, ParsePrefix(tree, paths, n - 1).value); }
  }

  lemma {:induction false} ParsesAll(tree: Tree, paths: seq<string>, n: nat, rs: seq<Record>)
    requires n <= |paths| == |rs| && forall i :: 0 <= i < |paths| ==> paths[i] in tree
    requires forall i :: 0 <= i < n ==> ParseRecord(paths[i], tree[paths[i]], i + 1) == Some(rs[i])
    ensures ParsePrefix(tree, paths, n) == Some(rs[..n])
  {
    hide ParseRecord;
    if n > 0 {
      ParsesAll(tree, paths, n - 1, rs);
      assert rs[..n] == rs[..n - 1] + [rs[n - 1]];
    }
  }

  lemma ParseRecordIff(path: string, file: File, n: nat, r: Record)
    ensures ParseRecord(path, file, n) == Some(r)
            <==> n < Power10(WIDTH) && path == FileName(r) && file == RecordFile(r) && r.sequence == n && r.sound
                 && IsId(r.id)
  {
    hide MatchPath, Power10, FileName, IsId;
    NameFits(r);
    if ParseRecord(path, file, n) == Some(r) { MatchPathIff(path, n, r.kind, r.id); }
  }

  ghost predicate SequencesDiffer(rs: seq<Record>) {
    forall i, j :: 0 <= i < j < |rs| ==> rs[i].sequence != rs[j].sequence
  }

  lemma {:induction false} TreeContents(rs: seq<Record>)
    requires SequencesDiffer(rs)
    ensures forall i ::
              0 <= i < |rs| ==> FileName(rs[i]) in TreeOf(rs) && TreeOf(rs)[FileName(rs[i])] == RecordFile(rs[i])
    ensures forall p :: p in TreeOf(rs) ==> exists i :: 0 <= i < |rs| && p == FileName(rs[i])
  {
    hide FileName;
    if rs != [] {
      var last := |rs| - 1;
      TreeContents(rs[..last]);
      forall i | 0 <= i < last ensures FileName(rs[i]) != FileName(rs[last]) {
        if FileName(rs[i]) == FileName(rs[last]) { NamesAreDistinct(rs[i], rs[last]); }
      }
      forall i | 0 <= i < |rs|
        ensures FileName(rs[i]) in TreeOf(rs) && TreeOf(rs)[FileName(rs[i])] == RecordFile(rs[i])
      {
        if i < last { assert rs[..last][i] == rs[i]; }
      }
      forall p | p in TreeOf(rs) ensures exists i :: 0 <= i < |rs| && p == FileName(rs[i]) {
        if p != FileName(rs[last]) {
          var i :| 0 <= i < last && p == FileName(rs[..last][i]);
          assert p == FileName(rs[i]);
        }
      }
    }
  }

  function Names(rs: seq<Record>): seq<string> {
    seq(|rs|, i requires 0 <= i < |rs| => FileName(rs[i]))
  }

  /** The sorted listing of a readable tree is the list of its record names, in sequence. */
  lemma ListingIsNames(tree: Tree, paths: seq<string>, rs: seq<Record>)
    requires Lists(paths, tree) && SortedBy(paths, Same) && Readable(tree, rs)
    ensures paths == Names(rs)
  {
    hide FileName, Less, LessEq, Power10, Chain, IsId;
    var names := Names(rs);
    TreeContents(rs);
    forall i, j | 0 <= i < j < |names| ensures LessEq(names[i], names[j]) && names[i] != names[j] {
      NamesAreOrdered(rs[i], rs[j]);
      OrderedDiffer(names[i], names[j]);
    }
    forall x ensures x in paths <==> x in names {
      if x in names { var i :| 0 <= i < |names| && names[i] == x; assert x in tree; }
      if x in paths { assert x in tree; var i :| 0 <= i < |rs| && x == FileName(rs[i]); assert names[i] == x; }
    }
    SameMembers(paths, names);
    SortedIsUnique(names, paths, Same);
  }

  lemma OrderedDiffer(a: string, b: string)
    requires Less(a, b)
    ensures LessEq(a, b) && a != b
  {
    LessAsymmetric(a, b);
    LessIrreflexive(a);
  }

  /** Reading the sorted files succeeds with exactly the chain that the tree carries, or not at all. */
  lemma ReadMeaning(tree: Tree, paths: seq<string>)
    requires Lists(paths, tree) && SortedBy(paths, Same)
    ensures forall rs :: ReadPaths(tree, paths) == Some(rs) <==> Readable(tree, rs)
  {
    forall rs ensures ReadPaths(tree, paths) == Some(rs) <==> Readable(tree, rs) {
      if ReadPaths(tree, paths) == Some(rs) { ReadSound(tree, paths, rs); }
      if Readable(tree, rs) { ReadComplete(tree, paths, rs); }
    }
  }

  /** Files that hold exactly the named records make up the tree of those records. */
  lemma TreeIsTreeOf(tree: Tree, paths: seq<string>, rs: seq<Record>)
    requires Lists(paths, tree) && SequencesDiffer(rs) && |paths| == |rs|
    requires forall i :: 0 <= i < |rs| ==> paths[i] == FileName(rs[i]) && tree[paths[i]] == RecordFile(rs[i])
    ensures tree == TreeOf(rs)
  {
    hide FileName, SequencesDiffer, TreeOf;
    TreeContents(rs);
    forall p | p in tree ensures p in TreeOf(rs) && TreeOf(rs)[p] == tree[p] {
      var i :| 0 <= i < |paths| && paths[i] == p;
      assert p == FileName(rs[i]);
    }
    forall p | p in TreeOf(rs) ensures p in tree {
      var i :| 0 <= i < |rs| && p == FileName(rs[i]);
      assert paths[i] == p;
    }
  }

  /** Each parsed file is the canonical file of its record. */
  lemma ParsedFiles(tree: Tree, paths: seq<string>, rs: seq<Record>, i: nat)
    requires i < |paths| && (forall k :: 0 <= k < |paths| ==> paths[k] in tree)
             && ParsePrefix(tree, paths, |paths|) == Some(rs)
    ensures |rs| == |paths| && i + 1 < Power10(WIDTH) && paths[i] == FileName(rs[i])
            && tree[paths[i]] == RecordFile(rs[i])
    ensures rs[i].sequence == i + 1 && rs[i].sound && IsId(rs[i].id)
  {
    hide FileName, Power10, ParseRecord, IsId, ParsePrefix;
    ParsedEach(tree, paths, |paths|, rs);
    ParseRecordIff(paths[i], tree[paths[i]], i + 1, rs[i]);
  }

  lemma ReadSound(tree: Tree, paths: seq<string>, rs: seq<Record>)
    requires Lists(paths, tree) && ReadPaths(tree, paths) == Some(rs)
    ensures Readable(tree, rs)
  {
    hide FileName, Power10, IsId, Chain, TreeOf, ParsePrefix, ParseRecord, DistinctBy;
    assert forall i :: 0 <= i < |paths| ==> paths[i] in tree;
    ParsedEach(tree, paths, |paths|, rs);
    forall i | 0 <= i < |rs|
      ensures paths[i] == FileName(rs[i]) && tree[paths[i]] == RecordFile(rs[i])
      ensures rs[i].sequence == i + 1 && rs[i].sound && IsId(rs[i].id)
    {
      ParsedFiles(tree, paths, rs, i);
    }
    TreeIsTreeOf(tree, paths, rs);
    if |rs| > 0 { ParsedFiles(tree, paths, rs, |rs| - 1); } else { PowerPositive(WIDTH); }
  }

  lemma {:induction false} PowerPositive(k: nat)
    ensures Power10(k) > 0
  {
    if k > 0 { PowerPositive(k - 1); }
  }

  lemma ReadComplete(tree: Tree, paths: seq<string>, rs: seq<Record>)
    requires Lists(paths, tree) && SortedBy(paths, Same) && Readable(tree, rs)
    ensures ReadPaths(tree, paths) == Some(rs)
  {
    hide FileName, Power10, ParseRecord, IsId, SortedBy, Lists, TreeOf, ParsePrefix, Less, LessEq;
    ListingIsNames(tree, paths, rs);
    TreeContents(rs);
    forall i | 0 <= i < |rs| ensures ParseRecord(paths[i], tree[paths[i]], i + 1) == Some(rs[i]) {
      ParseRecordIff(paths[i], tree[paths[i]], i + 1, rs[i]);
    }
    ParsesAll(tree, paths, |rs|, rs);
    assert rs[..|rs|] == rs;
  }
}
