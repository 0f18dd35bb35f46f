/**
 IPv6 literals: the text forms of section 2.2 of RFC 4291 in lower case, the parser
 that turns one into eight groups, and the private-address verdict on groups.
 */
module Ipv6 {
  import opened Options
  import opened Text
  import opened Splitting

  // ----- Parts -----

  predicate IsHexDigit(c: char) {
    '0' <= c <= '9' || 'a' <= c <= 'f'
  }

  function HexDigit(c: char): (v: nat)
    requires IsHexDigit(c)
    ensures v < 16
  {
    if c <= '9' then c as int - '0' as int else c as int - 'a' as int + 10
  }

  predicate AllHex(s: string) {
    forall i :: 0 <= i < |s| ==> IsHexDigit(s[i])
  }

  function HexValue(s: string): nat
    requires AllHex(s)
  {
    if s == "" then 0 else HexValue(s[..|s| - 1]) * 16 + HexDigit(s[|s| - 1])
  }

  predicate IsHexPart(s: string) {
    1 <= |s| <= 4 && AllHex(s)
  }

  function Power16(k: nat): nat {
    if k == 0 then 1 else 16 * Power16(k - 1)
  }

  lemma {:induction false} HexValueBound(s: string)
    requires AllHex(s)
    ensures HexValue(s) < Power16(|s|)
  {
    if s != "" { HexValueBound(s[..|s| - 1]); }
  }

  lemma HexPartBound(s: string)
    requires IsHexPart(s)
    ensures HexValue(s) < 65536
  {
    HexValueBound(s);
    assert Power16(1) == 16 && Power16(2) == 256 && Power16(3) == 4096 && Power16(4) == 65536;
  }

  ghost predicate AllParts(parts: seq<string>) {
    forall i :: 0 <= i < |parts| ==> IsHexPart(parts[i])
  }

  /** The values of the parts, when each of them is one to four hexadecimal digits. */
  function ParseEach(parts: seq<string>): Option<seq<nat>> {
    if parts == [] then Some([])
    else
      var before, last := ParseEach(parts[..|parts| - 1]), parts[|parts| - 1];
      if before.None? || !IsHexPart(last) then None else Some(before.value + [HexValue(last)])
  }

  function Values(parts: seq<string>): seq<nat>
    requires AllParts(parts)
  {
    if parts == [] then [] else Values(parts[..|parts| - 1]) + [HexValue(parts[|parts| - 1])]
  }

  lemma {:induction false} ParseEachIff(parts: seq<string>)
    ensures ParseEach(parts).Some? <==> AllParts(parts)
    ensures AllParts(parts) ==> ParseEach(parts) == Some(Values(parts)) && |Values(parts)| == |parts|
  {
    if parts != [] {
      ParseEachIff(parts[..|parts| - 1]);
      assert parts == parts[..|parts| - 1] + [parts[|parts| - 1]];
    }
  }

  /** The groups between colons; no text is no groups. */
  function PartsOf(text: string): seq<string> {
    if text == "" then [] else Split(text, ':')
  }

  lemma {:induction false} HexPartsGlue(parts: seq<string>)
    requires AllParts(parts)
    ensures PartsOf(Glue(parts, ':')) == parts && Solid(Glue(parts, ':')) && Free(Glue(parts, ':'), '.')
    ensures parts != [] ==> Glue(parts, ':') != "" && Glue(parts, ':')[0] != ':'
  {
    if parts != [] {
      assert IsHexPart(parts[0]);
      assert Free(parts[0], ':') && Free(parts[0], '.') by { HexIsPlain(parts[0]); }
      forall i | 0 <= i < |parts| ensures Free(parts[i], ':') { HexIsPlain(parts[i]); }
      SplitGlue(parts, ':');
      if |parts| > 1 {
        HexPartsGlue(parts[1..]);
        SolidJoins(parts[0], Glue(parts[1..], ':'));
      }
    }
  }

  lemma HexIsPlain(s: string)
    requires AllHex(s)
    ensures Free(s, ':') && Free(s, '.') && Solid(s)
  {
    assert forall i :: 0 <= i < |s| ==> s[i] != ':' && s[i] != '.';
  }

  // ----- Splitting at a double colon -----

  /** The pieces between double colons, taken from the left. */
  function SplitPair(s: string): (r: seq<string>)
    ensures |r| >= 1
  {
    if |s| < 2 then [s]
    else if s[0] == ':' && s[1] == ':' then [""] + SplitPair(s[2..])
    else
      var r := SplitPair(s[1..]);
      [[s[0]] + r[0]] + r[1..]
  }

  /** No double colon inside and no colon at the end. */
  predicate Solid(s: string) {
    (s == "" || s[|s| - 1] != ':') && forall i :: 0 <= i < |s| - 1 ==> s[i] != ':' || s[i + 1] != ':'
  }

  lemma SolidJoins(a: string, b: string)
    requires Free(a, ':') && a != "" && Solid(b) && b != "" && b[0] != ':'
    ensures Solid(a + [':'] + b)
  {
  }

  lemma SolidTail(s: string)
    requires Solid(s) && s != ""
    ensures Solid(s[1..])
  {
    var t := s[1..];
    forall i | 0 <= i < |t| - 1 ensures t[i] != ':' || t[i + 1] != ':' {
      assert t[i] == s[i + 1] && t[i + 1] == s[i + 1 + 1];
    }
  }

  lemma {:induction false} SolidSplits(s: string)
    requires Solid(s)
    ensures SplitPair(s) == [s]
  {
    if |s| >= 2 {
      assert s[0] != ':' || s[1] != ':';
      SolidTail(s);
      hide Solid;
      SolidSplits(s[1..]);
      assert s == [s[0]] + s[1..];
    }
  }

  lemma {:induction false} SolidThenPair(h: string, rest: string)
    requires Solid(h)
    ensures SplitPair(h + "::" + rest) == [h] + SplitPair(rest)
  {
    var s := h + "::" + rest;
    if h == "" {
      assert s[2..] == rest;
    } else {
      assert s[1..] == h[1..] + "::" + rest && s[0] == h[0];
      assert h == [h[0]] + h[1..];
      assert |h| >= 2 ==> s[1] == h[1];
      SolidTail(h);
      SolidThenPair(h[1..], rest);
    }
  }

  lemma Prefixed(c: char, a: string, b: string)
    ensures [c] + (a + "::" + b) == ([c] + a) + "::" + b
  {
  }

  lemma {:induction false} PairJoins(s: string)
    ensures |SplitPair(s)| == 1 ==> SplitPair(s)[0] == s
    ensures |SplitPair(s)| == 2 ==> SplitPair(s)[0] + "::" + SplitPair(s)[1] == s
  {
    var all := SplitPair(s);
    if |s| >= 2 && s[0] == ':' && s[1] == ':' {
      var r := SplitPair(s[2..]);
      assert all == [""] + r;
      hide SplitPair;
      PairJoins(s[2..]);
      assert s == "" + "::" + s[2..];
    } else if |s| >= 2 {
      var r := SplitPair(s[1..]);
      assert all == [[s[0]] + r[0]] + r[1..];
      hide SplitPair;
      PairJoins(s[1..]);
      assert s == [s[0]] + s[1..];
      if |r| == 2 { Prefixed(s[0], r[0], r[1]); }
    }
  }

  // ----- The dotted tail -----

  predicate IsByteText(s: string) {
    1 <= |s| <= 3 && AllDigits(s)
  }

  predicate IsQuad(t: string) {
    var pieces := Split(t, '.');
    |pieces| == 4 && IsByteText(pieces[0]) && IsByteText(pieces[1]) && IsByteText(pieces[2]) && IsByteText(pieces[3])
  }

  predicate IsByte(s: string) {
    IsByteText(s) && Number(s) <= 255
  }

  predicate FourBytes(quad: seq<string>) {
    |quad| == 4 && IsByte(quad[0]) && IsByte(quad[1]) && IsByte(quad[2]) && IsByte(quad[3])
  }

  function QuadGroups(quad: seq<string>): seq<nat>
    requires FourBytes(quad)
  {
    [Number(quad[0]) * 256 + Number(quad[1]), Number(quad[2]) * 256 + Number(quad[3])]
  }

  predicate EndsWithPair(s: string) {
    |s| >= 2 && s[|s| - 2] == ':' && s[|s| - 1] == ':'
  }

  /** What stands before the dotted tail, without the colon that introduces it. */
  function Rest(host: string, t: string): string
    requires |t| <= |host|
  {
    var r := host[..|host| - |t|];
    if r != "" && r[|r| - 1] == ':' && !EndsWithPair(r) then r[..|r| - 1] else r
  }

  // ----- The parser -----

  function ZeroGroups(n: nat): (r: seq<nat>)
    ensures |r| == n && forall i :: 0 <= i < n ==> r[i] == 0
  {
    seq(n, _ => 0)
  }

  function ParseRest(rest: string, quad: seq<nat>): Option<seq<nat>> {
    var halves := SplitPair(rest);
    if rest == "" || |halves| > 2 then None
    else
      var head := ParseEach(PartsOf(halves[0]));
      if head.None? then None
      else if |halves| == 1 then
        if |head.value| + |quad| != 8 then None else Some(head.value + quad)
      else
        var tail := ParseEach(PartsOf(halves[1]));
        if tail.None? || |head.value| + |tail.value| + |quad| > 8 then None
        else Some(head.value + ZeroGroups(8 - (|head.value| + |tail.value| + |quad|)) + tail.value + quad)
  }

  function ParseGroups(host: string): Option<seq<nat>> {
    var t := Last(Split(host, ':'));
    if !IsQuad(t) then ParseRest(host, [])
    else if !FourBytes(Split(t, '.')) then None
    else
      LastPiece(host, ':');
      ParseRest(Rest(host, t), QuadGroups(Split(t, '.')))
  }

  method ParseParts(text: string) returns (r: Option<seq<nat>>)
    ensures r == ParseEach(PartsOf(text))
  {
    var parts := PartsOf(text);
    var values: seq<nat> := [];
    var k := 0;
    assert parts[..0] == [];
    while k < |parts|
      invariant 0 <= k <= |parts|
      invariant ParseEach(parts[..k]) == Some(values)
    {
      assert parts[..k + 1][..k] == parts[..k];
      if !IsHexPart(parts[k]) {
        ParseEachIff(parts);
        return None;
      }
      values := values + [HexValue(parts[k])];
      k := k + 1;
    }
    assert parts[..k] == parts;
    r := Some(values);
  }

  method ParseHalves(rest: string, quad: seq<nat>) returns (r: Option<seq<nat>>)
    ensures r == ParseRest(rest, quad)
  {
    hide SplitPair, ParseEach, PartsOf;
    if rest == "" {
      return None;
    }
    var halves := SplitPair(rest);
    if |halves| > 2 {
      return None;
    }
    var head := ParseParts(halves[0]);
    if head.None? {
      return None;
    }
    if |halves| == 1 {
      return if |head.value| + |quad| != 8 then None else Some(head.value + quad);
    }
    var tail := ParseParts(halves[1]);
    if tail.None? {
      return None;
    }
    var missing := 8 - (|head.value| + |tail.value| + |quad|);
    if missing < 0 {
      return None;
    }
    r := Some(head.value + ZeroGroups(missing) + tail.value + quad);
  }

  method ParseIpv6Groups(host: string) returns (r: Option<seq<nat>>)
    ensures r == ParseGroups(host)
  {
    hide ParseRest, Split, Number, AllDigits;
    var rest := host;
    var quad: seq<nat> := [];
    var t := Last(Split(host, ':'));
    LastPiece(host, ':');
    if IsQuad(t) {
      var bytes := Split(t, '.');
      if Number(bytes[0]) > 255 || Number(bytes[1]) > 255 || Number(bytes[2]) > 255 || Number(bytes[3]) > 255 {
        return None;
      }
      quad := [Number(bytes[0]) * 256 + Number(bytes[1]), Number(bytes[2]) * 256 + Number(bytes[3])];
      rest := rest[..|rest| - |t|];
      if rest != "" && rest[|rest| - 1] == ':' && !EndsWithPair(rest) {
        rest := rest[..|rest| - 1];
      }
      assert FourBytes(bytes) && quad == QuadGroups(bytes) && rest == Rest(host, t);
    }
    r := ParseHalves(rest, quad);
  }

  // ----- The text forms -----

  /** Groups before and after an optional gap of zeros, and an optional dotted tail of four bytes. */
  datatype Form = Form(head: seq<string>, gap: bool, tail: seq<string>, quad: seq<string>)

  function Width(f: Form): nat {
    |f.head| + |f.tail| + if f.quad == [] then 0 else 2
  }

  ghost predicate WellFormed(f: Form) {
    && AllParts(f.head) && AllParts(f.tail) && (f.quad == [] || FourBytes(f.quad))
    && (if f.gap then Width(f) <= 8 else f.tail == [] && Width(f) == 8)
  }

  function Stem(f: Form): string {
    if f.gap then Glue(f.head, ':') + "::" + Glue(f.tail, ':') else Glue(f.head, ':')
  }

  function Written(f: Form): string {
    if f.quad == [] then Stem(f)
    else if f.gap && f.tail == [] then Stem(f) + Glue(f.quad, '.')
    else (Stem(f) + ":") + Glue(f.quad, '.')
  }

  function TailGroups(f: Form): seq<nat>
    requires f.quad == [] || FourBytes(f.quad)
  {
    if f.quad == [] then [] else QuadGroups(f.quad)
  }

  ghost function Groups(f: Form): seq<nat>
    requires WellFormed(f)
  {
    Values(f.head) + ZeroGroups(8 - Width(f)) + Values(f.tail) + TailGroups(f)
  }

  /** What a stem splits into. */
  lemma StemSplits(f: Form)
    requires WellFormed(f)
    ensures SplitPair(Stem(f)) == if f.gap then [Glue(f.head, ':'), Glue(f.tail, ':')] else [Glue(f.head, ':')]
    ensures Stem(f) != "" && Free(Stem(f), '.')
    ensures EndsWithPair(Stem(f)) == (f.gap && f.tail == [])
            && (Stem(f)[|Stem(f)| - 1] == ':' <==> f.gap && f.tail == [])
  {
    hide FourBytes, SplitPair;
    HexPartsGlue(f.head);
    HexPartsGlue(f.tail);
    var h, t := Glue(f.head, ':'), Glue(f.tail, ':');
    hide Glue;
    SolidSplits(h);
    SolidSplits(t);
    SolidThenPair(h, t);
    if f.gap && f.tail != [] { assert t[|t| - 1] != ':' && Stem(f)[|Stem(f)| - 1] == t[|t| - 1]; }
  }

  lemma StemParses(f: Form)
    requires WellFormed(f)
    ensures ParseRest(Stem(f), TailGroups(f)) == Some(Groups(f))
  {
    hide FourBytes, Values, SplitPair, ParseEach, PartsOf, Stem, Glue, AllParts;
    assert |TailGroups(f)| == if f.quad == [] then 0 else 2;
    StemSplits(f);
    HexPartsGlue(f.head);
    HexPartsGlue(f.tail);
    ParseEachIff(f.head);
    ParseEachIff(f.tail);
    if !f.gap {
      assert Values([]) == [] by { ParseEachIff([]); }
      assert Values(f.head) + ZeroGroups(0) + [] + TailGroups(f) == Values(f.head) + TailGroups(f);
    }
  }

  lemma QuadText(quad: seq<string>)
    requires FourBytes(quad)
    ensures var t := Glue(quad, '.'); Free(t, ':') && IsQuad(t) && Split(t, '.') == quad
  {
    forall i | 0 <= i < |quad| ensures Free(quad[i], '.') && Free(quad[i], ':') { DigitsArePlain(quad[i]); }
    SplitGlue(quad, '.');
    assert Glue(quad, '.') == quad[0] + ['.'] + (quad[1] + ['.'] + (quad[2] + ['.'] + quad[3])) by {
      assert quad[1..][1..][1..] == [quad[3]];
      assert Glue(quad[1..][1..], '.') == quad[2] + ['.'] + quad[3];
      assert Glue(quad[1..], '.') == quad[1] + ['.'] + (quad[2] + ['.'] + quad[3]);
    }
  }

  lemma DigitsArePlain(s: string)
    requires AllDigits(s)
    ensures Free(s, '.') && Free(s, ':')
  {
    assert forall i :: 0 <= i < |s| ==> s[i] != ':' && s[i] != '.';
  }

  lemma NoDotNoQuad(s: string)
    requires Free(s, '.')
    ensures !IsQuad(Last(Split(s, ':')))
  {
    LastPiece(s, ':');
    var t := Last(Split(s, ':'));
    assert Free(t, '.') by { assert t == s[|s| - |t|..]; }
    SplitFree(t, '.');
  }

  /** How the parser takes a written form apart: the dotted tail, if any, and the stem. */
  lemma WrittenSplits(f: Form)
    requires WellFormed(f)
    ensures var host := Written(f);
            var t := Last(Split(host, ':'));
            && |t| <= |host|
            && (f.quad == [] ==> !IsQuad(t))
            && (f.quad != [] ==> IsQuad(t) && Split(t, '.') == f.quad && Rest(host, t) == Stem(f))
  {
    hide FourBytes, SplitPair, Glue, AllParts, Split, IsQuad, Stem;
    var s, host := Stem(f), Written(f);
    StemSplits(f);
    LastPiece(host, ':');
    if f.quad == [] {
      NoDotNoQuad(host);
    } else {
      var t := Glue(f.quad, '.');
      QuadText(f.quad);
      var before := if f.gap && f.tail == [] then s else s + ":";
      LastPieceIs(before, t, ':');
      assert host == before + t && host[..|host| - |t|] == before;
      assert before != s ==> before[..|before| - 1] == s;
    }
  }

  /** Every text form is accepted, with its groups. */
  lemma FormsAreAccepted(f: Form)
    requires WellFormed(f)
    ensures ParseGroups(Written(f)) == Some(Groups(f))
  {
    WrittenIsStem(f);
    hide SplitPair, ParseRest, Glue, AllParts, Groups, Split, IsQuad, Stem, Written, Rest;
    WrittenSplits(f);
    StemParses(f);
  }

  // ----- Nothing else is accepted -----

  lemma GluedParts(text: string)
    ensures Glue(PartsOf(text), ':') == text
  {
    GlueSplit(text, ':');
  }

  /** Whatever the stem parser accepts is the stem of a form. */
  lemma RestIsStem(rest: string, quad: seq<string>) returns (f: Form)
    requires quad == [] || FourBytes(quad)
    requires ParseRest(rest, if quad == [] then [] else QuadGroups(quad)).Some?
    ensures WellFormed(f) && f.quad == quad && Stem(f) == rest
  {
    hide FourBytes, SplitPair, ParseEach, PartsOf, Glue, AllParts;
    var halves := SplitPair(rest);
    PairJoins(rest);
    ParseEachIff(PartsOf(halves[0]));
    GluedParts(halves[0]);
    if |halves| == 1 {
      assert AllParts([]) by { ParseEachIff([]); EmptyParts(); }
      f := Form(PartsOf(halves[0]), false, [], quad);
    } else {
      ParseEachIff(PartsOf(halves[1]));
      GluedParts(halves[1]);
      f := Form(PartsOf(halves[0]), true, PartsOf(halves[1]), quad);
    }
  }

  lemma EmptyParts()
    ensures AllParts([])
  {
  }

  lemma RestUndone(before: string, t: string, f: Form)
    requires WellFormed(f) && f.quad != [] && Glue(f.quad, '.') == t
    requires before != "" && before[|before| - 1] == ':' && Rest(before + t, t) == Stem(f)
    ensures Written(f) == before + t
  {
    hide FourBytes, Glue, Stem;
    assert (before + t)[..|before|] == before;
    StemSplits(f);
    if !EndsWithPair(before) { assert before == Stem(f) + ":"; }
  }

  lemma OnlyFormsAreAccepted(host: string) returns (f: Form)
    requires ParseGroups(host).Some?
    ensures WellFormed(f) && Written(f) == host && ParseGroups(host) == Some(Groups(f))
  {
    hide FourBytes, ParseRest, Glue, Split, IsQuad, WellFormed, Groups, QuadGroups, Stem, EndsWithPair;
    var t := Last(Split(host, ':'));
    LastPiece(host, ':');
    if !IsQuad(t) {
      f := RestIsStem(host, []);
    } else {
      var quad, before := Split(t, '.'), host[..|host| - |t|];
      assert quad != [];
      GlueSplit(t, '.');
      f := RestIsStem(Rest(host, t), quad);
      StemSplits(f);
      assert host == before + t && (before == "" || before[|before| - 1] == ':');
      RestUndone(before, t, f);
    }
    FormsAreAccepted(f);
  }

  /** The parser accepts exactly the text forms; a gap may also stand for no group at all. */
  lemma AcceptedIffForm(host: string)
    ensures ParseGroups(host).Some? <==> exists f :: WellFormed(f) && Written(f) == host
  {
    hide WellFormed, ParseGroups, Written;
    if ParseGroups(host).Some? { var f := OnlyFormsAreAccepted(host); }
    if exists f :: WellFormed(f) && Written(f) == host {
      var f :| WellFormed(f) && Written(f) == host;
      FormsAreAccepted(f);
    }
  }

  /** Every value fits sixteen bits. */
  ghost predicate Words(s: seq<nat>) {
    forall i :: 0 <= i < |s| ==> s[i] < 65536
  }

  lemma WordsJoin(a: seq<nat>, b: seq<nat>)
    requires Words(a) && Words(b)
    ensures Words(a + b)
  {
  }

  lemma {:induction false} ValuesBound(parts: seq<string>)
    requires AllParts(parts)
    ensures |Values(parts)| == |parts| && Words(Values(parts))
  {
    hide IsHexPart;
    if parts != [] {
      ValuesBound(parts[..|parts| - 1]);
      HexPartBound(parts[|parts| - 1]);
    }
  }

  lemma FormHasEightGroups(f: Form)
    requires WellFormed(f)
    ensures |Groups(f)| == 8 && Words(Groups(f))
  {
    ValuesBound(f.head);
    ValuesBound(f.tail);
    assert Words(TailGroups(f)) && Words(ZeroGroups(8 - Width(f)));
    hide Words, Values, AllParts, FourBytes;
    WordsJoin(Values(f.head), ZeroGroups(8 - Width(f)));
    WordsJoin(Values(f.head) + ZeroGroups(8 - Width(f)), Values(f.tail));
    WordsJoin(Values(f.head) + ZeroGroups(8 - Width(f)) + Values(f.tail), TailGroups(f));
  }

  /** Every accepted input yields exactly eight values below 65536. */
  lemma EightGroups(host: string)
    requires ParseGroups(host).Some?
    ensures |ParseGroups(host).value| == 8 && Words(ParseGroups(host).value)
  {
    hide ParseGroups, Values, WellFormed;
    var f := OnlyFormsAreAccepted(host);
    FormHasEightGroups(f);
  }

  // ----- The forms of the RFC -----

  /** In the RFC's forms a gap stands for at least one group. */
  ghost predicate RfcForm(f: Form) {
    WellFormed(f) && (f.gap ==> Width(f) < 8)
  }

  /** The form a text is written in. */
  function FormOf(host: string): Form {
    LastPiece(host, ':');
    var t := Last(Split(host, ':'));
    var halves := SplitPair(if IsQuad(t) then Rest(host, t) else host);
    Form(PartsOf(halves[0]), |halves| == 2, if |halves| == 2 then PartsOf(halves[1]) else [],
         if IsQuad(t) then Split(t, '.') else [])
  }

  /** A text is written in one form only. */
  lemma FormOfWritten(f: Form)
    requires WellFormed(f)
    ensures FormOf(Written(f)) == f
  {
    WrittenIsStem(f);
    hide SplitPair, Glue, AllParts, Split, IsQuad, Stem, Written, Rest, PartsOf;
    WrittenSplits(f);
    StemSplits(f);
    HexPartsGlue(f.head);
    HexPartsGlue(f.tail);
  }

  lemma WrittenIsStem(f: Form)
    ensures f.quad == [] ==> Written(f) == Stem(f)
  {
  }

  /** A text is one of the RFC's forms exactly when it is accepted and its gap, if any, leaves a group out. */
  lemma RfcIff(host: string)
    ensures (exists f :: RfcForm(f) && Written(f) == host)
            <==> ParseGroups(host).Some? && (FormOf(host).gap ==> Width(FormOf(host)) < 8)
  {
    hide WellFormed, ParseGroups, Written, FormOf, Width;
    if exists f :: RfcForm(f) && Written(f) == host {
      var f :| RfcForm(f) && Written(f) == host;
      FormsAreAccepted(f);
      FormOfWritten(f);
    }
    if ParseGroups(host).Some? {
      var f := OnlyFormsAreAccepted(host);
      FormOfWritten(f);
      assert RfcForm(f) <==> (FormOf(host).gap ==> Width(FormOf(host)) < 8);
    }
  }

  /** What is accepted beyond the RFC: exactly a gap between eight written groups. */
  lemma AcceptedBeyondRfcIff(host: string)
    ensures ParseGroups(host).Some? && (forall f :: RfcForm(f) ==> Written(f) != host)
            <==> exists f :: WellFormed(f) && f.gap && Width(f) == 8 && Written(f) == host
  {
    hide ParseGroups, Written, FormOf, AllParts, FourBytes;
    RfcIff(host);
    if ParseGroups(host).Some? {
      var f := OnlyFormsAreAccepted(host);
      FormOfWritten(f);
    }
    if exists f :: WellFormed(f) && f.gap && Width(f) == 8 && Written(f) == host {
      var f :| WellFormed(f) && f.gap && Width(f) == 8 && Written(f) == host;
      FormsAreAccepted(f);
      FormOfWritten(f);
    }
  }

  /** Eight groups with a gap between the fourth and the fifth. */
  const GAPPED := Form(["1", "2", "3", "4"], true, ["5", "6", "7", "8"], [])

  lemma GappedText()
    ensures Written(GAPPED) == "1:2:3:4::5:6:7:8"
  {
    hide Glue;
    FourGlued("1", "2", "3", "4");
    FourGlued("5", "6", "7", "8");
    assert "1" + ":" + ("2" + ":" + ("3" + ":" + "4")) == "1:2:3:4";
    assert "5" + ":" + ("6" + ":" + ("7" + ":" + "8")) == "5:6:7:8";
    assert "1:2:3:4" + "::" + "5:6:7:8" == "1:2:3:4::5:6:7:8";
  }

  lemma GappedGroups()
    ensures WellFormed(GAPPED) && Groups(GAPPED) == [1, 2, 3, 4, 5, 6, 7, 8]
  {
    hide Values;
    FourValues("1", "2", "3", "4");
    FourValues("5", "6", "7", "8");
    assert [1, 2, 3, 4] + [] + [5, 6, 7, 8] + [] == [1, 2, 3, 4, 5, 6, 7, 8];
  }

  /** Such a text. */
  lemma EmptyGapIsAccepted()
    ensures ParseGroups("1:2:3:4::5:6:7:8") == Some([1, 2, 3, 4, 5, 6, 7, 8])
    ensures forall f :: RfcForm(f) ==> Written(f) != "1:2:3:4::5:6:7:8"
  {
    hide ParseGroups, Written, Groups, WellFormed;
    GappedText();
    GappedGroups();
    FormsAreAccepted(GAPPED);
    AcceptedBeyondRfcIff(Written(GAPPED));
  }

  lemma FourGlued(a: string, b: string, c: string, d: string)
    ensures Glue([a, b, c, d], ':') == a + ":" + (b + ":" + (c + ":" + d))
  {
    assert [a, b, c, d][1..] == [b, c, d] && [b, c, d][1..] == [c, d] && [c, d][1..] == [d];
    assert Glue([d], ':') == d && Glue([c, d], ':') == c + ":" + d && Glue([b, c, d], ':') == b + ":" + (c + ":" + d);
  }

  lemma FourValues(a: string, b: string, c: string, d: string)
    requires AllHex(a) && AllHex(b) && AllHex(c) && AllHex(d) && |a| == |b| == |c| == |d| == 1
    ensures Values([a, b, c, d]) == [HexDigit(a[0]), HexDigit(b[0]), HexDigit(c[0]), HexDigit(d[0])]
  {
    assert [a, b, c, d][..3] == [a, b, c] && [a, b, c][..2] == [a, b] && [a, b][..1] == [a] && [a][..0] == [];
    assert forall s | s in [a, b, c, d] :: HexValue(s) == HexDigit(s[0]) by {
      forall s | s in [a, b, c, d] ensures HexValue(s) == HexDigit(s[0]) { assert s[..0] == ""; }
    }
    assert Values([a]) == [HexValue(a)] && Values([a, b]) == Values([a]) + [HexValue(b)];
    assert Values([a, b, c]) == Values([a, b]) + [HexValue(c)];
  }
}
