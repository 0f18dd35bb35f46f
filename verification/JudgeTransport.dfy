/**
 The judge's transport guards: the private-address verdict, which depends on the
 groups of an IPv6 literal and not on how it is written, and the bounded read of
 a provider's answer.
 */
module JudgeTransport {
  import opened Options
  import opened Splitting
  import opened Ipv6

  // ----- Private addresses -----

  predicate PrivateIpv4(first: nat, second: nat) {
    || first == 0 || first == 10 || first == 127
    || (first == 172 && 16 <= second <= 31)
    || (first == 192 && second == 168)
    || (first == 169 && second == 254)
  }

  /** The verdict on eight groups: mapped and compatible IPv4, unspecified, loopback, unique-local, link-local. */
  predicate PrivateGroups(g: seq<nat>)
    requires |g| == 8
  {
    var firstFiveZero := g[0] == 0 && g[1] == 0 && g[2] == 0 && g[3] == 0 && g[4] == 0;
    if firstFiveZero && g[5] == 0xffff then PrivateIpv4(g[6] / 256, g[6] % 256)
    else if firstFiveZero && g[5] == 0 then (g[6] == 0 && g[7] <= 1) || PrivateIpv4(g[6] / 256, g[6] % 256)
    else g[0] / 512 == 0xfc00 / 512 || g[0] / 64 == 0xfe80 / 64
  }

  predicate StartsWith(s: string, p: string) {
    |p| <= |s| && s[..|p|] == p
  }

  predicate EndsWith(s: string, p: string) {
    |p| <= |s| && s[|s| - |p|..] == p
  }

  function LowerChar(c: char): char {
    if 'A' <= c <= 'Z' then (c as int + 32) as char else c
  }

  function Lower(s: string): (r: string)
    ensures |r| == |s| && forall i :: 0 <= i < |s| ==> r[i] == LowerChar(s[i])
  {
    seq(|s|, i requires 0 <= i < |s| => LowerChar(s[i]))
  }

  /** An opening bracket at the start and a closing one at the end are dropped, together or alone. */
  function StripBrackets(s: string): string {
    var t := if s != "" && s[0] == '[' then s[1..] else s;
    if t != "" && t[|t| - 1] == ']' then t[..|t| - 1] else t
  }

  predicate IsBreak(c: char) {
    c == '\n' || c == '\r' || c == '\U{2028}' || c == '\U{2029}'
  }

  predicate OneLine(s: string) {
    forall i :: 0 <= i < |s| ==> !IsBreak(s[i])
  }

  /** The zone: everything from the first percent sign that is followed by no line break. */
  function StripZone(s: string): string {
    if s == "" || (s[0] == '%' && OneLine(s[1..])) then "" else [s[0]] + StripZone(s[1..])
  }

  predicate Loopback(hostname: string) {
    var host := StripBrackets(Lower(hostname));
    host == "localhost" || EndsWith(host, ".localhost") || host == "::1" || StartsWith(host, "127.")
  }

  function Normal(hostname: string): string {
    StripZone(StripBrackets(Lower(hostname)))
  }

  /** `dotted` is the verdict on a host that is no IPv6 literal. */
  predicate PrivateAddress(hostname: string, dotted: bool) {
    var host := Normal(hostname);
    if Loopback(host) then true
    else if ParseGroups(host).Some? then
      EightGroups(host);
      PrivateGroups(ParseGroups(host).value)
    else dotted
  }

  // ----- The loopback names are no exception -----

  predicate Literal(s: string) {
    forall i :: 0 <= i < |s| ==> IsHexDigit(s[i]) || s[i] == ':' || s[i] == '.'
  }

  lemma LiteralJoins(a: string, b: string)
    requires Literal(a) && Literal(b)
    ensures Literal(a + b)
  {
  }

  lemma {:induction false} GlueIsLiteral(parts: seq<string>, c: char)
    requires (forall i :: 0 <= i < |parts| ==> Literal(parts[i])) && (c == ':' || c == '.')
    ensures Literal(Glue(parts, c))
  {
    if |parts| > 1 {
      GlueIsLiteral(parts[1..], c);
      assert Literal(parts[0]) && Literal([c]);
      hide Literal;
      LiteralJoins(parts[0], [c]);
      LiteralJoins(parts[0] + [c], Glue(parts[1..], c));
    }
  }

  /** Accepted text consists of hexadecimal digits, colons and dots, and has a colon before any dot. */
  lemma AcceptedText(host: string)
    requires ParseGroups(host).Some?
    ensures Literal(host) && !StartsWith(host, "127.")
  {
    hide ParseGroups;
    var f := OnlyFormsAreAccepted(host);
    FormIsLiteral(f);
    FormHasColonFirst(f);
    if StartsWith(host, "127.") { DottedStart(host); }
  }

  lemma FormIsLiteral(f: Form)
    requires WellFormed(f)
    ensures Literal(Written(f))
  {
    GlueIsLiteral(f.head, ':');
    GlueIsLiteral(f.tail, ':');
    if f.quad != [] { GlueIsLiteral(f.quad, '.'); }
    assert Literal("::") && Literal(":") && Literal("");
    hide Literal, Glue;
    LiteralJoins(Glue(f.head, ':'), "::");
    LiteralJoins(Glue(f.head, ':') + "::", Glue(f.tail, ':'));
    LiteralJoins(Stem(f), ":");
    if f.quad != [] {
      LiteralJoins(Stem(f), Glue(f.quad, '.'));
      LiteralJoins(Stem(f) + ":", Glue(f.quad, '.'));
    }
  }

  lemma ColonThenDots(before: string, rest: string)
    requires Free(before, '.') && before != "" && before[|before| - 1] == ':'
    ensures forall i :: 0 <= i < |before + rest| && (before + rest)[i] == '.' ==> ':' in (before + rest)[..i]
  {
    var host := before + rest;
    forall i | 0 <= i < |host| && host[i] == '.' ensures ':' in host[..i] {
      assert host[..i][|before| - 1] == ':';
    }
  }

  lemma FormHasColonFirst(f: Form)
    requires WellFormed(f)
    ensures forall i :: 0 <= i < |Written(f)| && Written(f)[i] == '.' ==> ':' in Written(f)[..i]
  {
    hide WellFormed, Glue, Stem;
    StemSplits(f);
    if f.quad != [] {
      ColonThenDots(if f.gap && f.tail == [] then Stem(f) else Stem(f) + ":", Glue(f.quad, '.'));
    }
  }

  lemma DottedStart(host: string)
    requires StartsWith(host, "127.")
    ensures exists i :: 0 <= i < |host| && host[i] == '.' && ':' !in host[..i]
  {
    assert host[..3] == host[..4][..3] == "127" && host[3] == host[..4][3];
    assert ':' !in host[..3];
  }

  lemma LoopbackOne()
    ensures ParseGroups("::1") == Some([0, 0, 0, 0, 0, 0, 0, 1])
  {
    hide ParseGroups;
    var f := Form([], true, ["1"], []);
    assert Glue(["1"], ':') == "1" && Written(f) == "" + "::" + "1" == "::1";
    assert HexValue("1") == HexValue("1"[..0]) * 16 + 1;
    assert Values(["1"]) == [] + [1];
    assert Groups(f) == [0, 0, 0, 0, 0, 0, 0, 1];
    FormsAreAccepted(f);
  }

  /** A literal is already in lower case and has no brackets. */
  lemma LiteralIsNormal(s: string)
    requires Literal(s)
    ensures Lower(s) == s && StripBrackets(s) == s && Free(s, '%')
  {
    assert forall i :: 0 <= i < |s| ==> LowerChar(s[i]) == s[i] && s[i] != '[' && s[i] != ']' && s[i] != '%';
  }

  /** For an IPv6 literal, however its host name is spelled, the verdict is a function of its groups. */
  lemma VerdictFollowsGroups(hostname: string, dotted: bool)
    requires ParseGroups(Normal(hostname)).Some?
    ensures var groups := ParseGroups(Normal(hostname)).value;
            |groups| == 8 && PrivateAddress(hostname, dotted) == PrivateGroups(groups)
  {
    hide ParseGroups, Literal, Lower, StripBrackets, Normal;
    var host := Normal(hostname);
    EightGroups(host);
    AcceptedText(host);
    LiteralIsNormal(host);
    if Loopback(host) {
      if host == "::1" {
        LoopbackOne();
      } else {
        HostnamesAreNoLiterals(host);
      }
    }
  }

  lemma HostnamesAreNoLiterals(host: string)
    requires host == "localhost" || EndsWith(host, ".localhost")
    ensures !Literal(host)
  {
    assert host[|host| - 1] == 't';
  }

  // ----- Spellings -----

  /** A form in letters of either case, perhaps with a zone, perhaps in brackets. */
  datatype Spelling = Spelling(text: string, zone: Option<string>, bracketed: bool)

  function Zoned(text: string, zone: Option<string>): string {
    if zone.None? then text else text + ("%" + zone.value)
  }

  function Spelled(p: Spelling): string {
    if p.bracketed then "[" + Zoned(p.text, p.zone) + "]" else Zoned(p.text, p.zone)
  }

  ghost predicate Spells(p: Spelling, f: Form) {
    WellFormed(f) && Lower(p.text) == Written(f) && (p.zone.Some? ==> OneLine(p.zone.value))
  }

  lemma LowerJoins(a: string, b: string)
    ensures Lower(a + b) == Lower(a) + Lower(b)
  {
  }

  lemma {:induction false} ZoneGoes(s: string, z: string)
    requires Free(s, '%') && OneLine(z)
    ensures StripZone(s) == s && StripZone(s + ("%" + z)) == s
  {
    if s == "" {
      assert (s + ("%" + z))[1..] == z;
    } else {
      assert (s + ("%" + z))[1..] == s[1..] + ("%" + z) && s == [s[0]] + s[1..];
      ZoneGoes(s[1..], z);
    }
  }

  lemma LowerKeepsLines(z: string)
    requires OneLine(z)
    ensures OneLine(Lower(z))
  {
  }

  /** The same text, possibly short of a closing bracket at the end of its zone. */
  lemma UnbracketedZone(s: string, zone: Option<string>) returns (z: string)
    requires Literal(s) && s != "" && (zone.Some? ==> OneLine(zone.value))
    ensures OneLine(z) && StripBrackets(Zoned(s, zone)) == (if zone.None? then s else s + ("%" + z))
  {
    LiteralIsNormal(s);
    z := "";
    if zone.Some? {
      var w := zone.value;
      var all := s + ("%" + w);
      assert all[0] == s[0] != '[' && all[|all| - 1] == (if w == "" then '%' else w[|w| - 1]);
      z := if w != "" && w[|w| - 1] == ']' then w[..|w| - 1] else w;
      if z != w { assert all[..|all| - 1] == s + ("%" + z); }
    }
  }

  lemma BracketsGo(t: string)
    ensures StripBrackets("[" + t + "]") == t
  {
    var s := "[" + t + "]";
    assert s[0] == '[' && s[1..] == t + "]";
  }

  lemma ZonedLower(p: Spelling, f: Form)
    requires Spells(p, f)
    ensures Lower(Zoned(p.text, p.zone)) == Zoned(Written(f), if p.zone.None? then None else Some(Lower(p.zone.value)))
    ensures Lower(Spelled(p)) == if p.bracketed then "[" + Lower(Zoned(p.text, p.zone)) + "]"
                                 else Lower(Zoned(p.text, p.zone))
  {
    hide WellFormed, Written;
    assert Lower("[") == "[" && Lower("]") == "]" && Lower("%") == "%";
    hide Lower;
    if p.zone.Some? {
      LowerJoins("%", p.zone.value);
      LowerJoins(p.text, "%" + p.zone.value);
    }
    LowerJoins("[", Zoned(p.text, p.zone));
    LowerJoins("[" + Zoned(p.text, p.zone), "]");
  }

  /** Every spelling comes down to the form. */
  lemma SpellingIsNormal(p: Spelling, f: Form)
    requires Spells(p, f)
    ensures Normal(Spelled(p)) == Written(f)
  {
    var s := Written(f);
    FormIsLiteral(f);
    StemSplits(f);
    assert s != "";
    LiteralIsNormal(s);
    var zone := if p.zone.None? then None else Some(Lower(p.zone.value));
    if p.zone.Some? { LowerKeepsLines(p.zone.value); }
    ZonedLower(p, f);
    hide WellFormed, Written, Lower, StripBrackets, StripZone, Literal;
    ZoneGoes(s, if zone.None? then "" else zone.value);
    BracketsGo(Zoned(s, zone));
    var z := UnbracketedZone(s, zone);
    ZoneGoes(s, z);
  }

  /** All spellings of all text forms of one address get the same verdict. */
  lemma SpellingsAgree(p: Spelling, p': Spelling, f: Form, f': Form, dotted: bool, dotted': bool)
    requires Spells(p, f) && Spells(p', f') && Groups(f) == Groups(f')
    ensures PrivateAddress(Spelled(p), dotted) == PrivateAddress(Spelled(p'), dotted')
  {
    hide WellFormed, Groups, Written, PrivateAddress, PrivateGroups, ParseGroups, Normal, Spelled, Lower;
    FormsAreAccepted(f);
    FormsAreAccepted(f');
    SpellingIsNormal(p, f);
    SpellingIsNormal(p', f');
    VerdictFollowsGroups(Spelled(p), dotted);
    VerdictFollowsGroups(Spelled(p'), dotted');
  }

  // ----- Bounded bodies -----

  type Byte = b: int | 0 <= b < 256

  function Total(chunks: seq<seq<Byte>>): nat {
    if chunks == [] then 0 else Total(chunks[..|chunks| - 1]) + |chunks[|chunks| - 1]|
  }

  function Concatenated(chunks: seq<seq<Byte>>): (r: seq<Byte>)
    ensures |r| == Total(chunks)
  {
    if chunks == [] then [] else Concatenated(chunks[..|chunks| - 1]) + chunks[|chunks| - 1]
  }

  lemma {:induction false} TotalGrows(chunks: seq<seq<Byte>>, k: nat)
    requires k <= |chunks|
    ensures Total(chunks[..k]) <= Total(chunks)
  {
    if k < |chunks| {
      TotalGrows(chunks[..|chunks| - 1], k);
      assert chunks[..|chunks| - 1][..k] == chunks[..k];
    } else {
      assert chunks[..k] == chunks;
    }
  }

  lemma TotalStep(chunks: seq<seq<Byte>>, k: nat)
    requires k < |chunks|
    ensures Total(chunks[..k + 1]) == Total(chunks[..k]) + |chunks[k]|
    ensures Concatenated(chunks[..k + 1]) == Concatenated(chunks[..k]) + chunks[k]
  {
    assert chunks[..k + 1][..k] == chunks[..k];
  }

  lemma NothingTotal(chunks: seq<seq<Byte>>)
    ensures Total(chunks[..0]) == 0 && Concatenated(chunks[..0]) == [] && chunks[..|chunks|] == chunks
  {
  }

  /** The answer is the whole body when it fits, and nothing as soon as the chunks read exceed the limit. */
  method ReadBoundedBody(body: Option<seq<seq<Byte>>>, maximum: int) returns (r: Option<seq<Byte>>, taken: nat)
    ensures r.Some? <==> body.Some? && (body.value == [] || Total(body.value) <= maximum)
    ensures r.Some? ==> r.value == Concatenated(body.value) && taken == |body.value|
    ensures r.None? && body.Some? ==> 0 < taken <= |body.value| && Total(body.value[..taken]) > maximum
                                      && (taken == 1 || Total(body.value[..taken - 1]) <= maximum)
  {
    hide Total, Concatenated;
    taken := 0;
    if body.None? {
      return None, 0;
    }
    var chunks := body.value;
    var total := 0;
    NothingTotal(chunks);
    while taken < |chunks|
      invariant 0 <= taken <= |chunks|
      invariant total == Total(chunks[..taken])
      invariant taken > 0 ==> total <= maximum
    {
      TotalStep(chunks, taken);
      total := total + |chunks[taken]|;
      taken := taken + 1;
      if total > maximum {
        TotalGrows(chunks, taken);
        return None, taken;
      }
    }
    var bytes := Assemble(chunks, total);
    r := Some(bytes[..]);
  }

  /** One array of the announced size, filled chunk by chunk. */
  method Assemble(chunks: seq<seq<Byte>>, total: nat) returns (bytes: array<Byte>)
    requires total == Total(chunks)
    ensures bytes[..] == Concatenated(chunks)
  {
    hide Total, Concatenated;
    bytes := new Byte[total];
    var offset, k := 0, 0;
    NothingTotal(chunks);
    while k < |chunks|
      invariant 0 <= k <= |chunks|
      invariant offset == Total(chunks[..k]) <= total
      invariant bytes[..offset] == Concatenated(chunks[..k])
    {
      TotalStep(chunks, k);
      TotalGrows(chunks, k + 1);
      CopyInto(bytes, offset, chunks[k]);
      offset := offset + |chunks[k]|;
      k := k + 1;
    }
    assert bytes[..total] == bytes[..];
  }

  method CopyInto(bytes: array<Byte>, offset: nat, chunk: seq<Byte>)
    requires offset + |chunk| <= bytes.Length
    modifies bytes
    ensures bytes[..offset + |chunk|] == old(bytes[..offset]) + chunk
  {
    var i := 0;
    while i < |chunk|
      invariant 0 <= i <= |chunk|
      invariant bytes[..offset] == old(bytes[..offset])
      invariant bytes[offset..offset + i] == chunk[..i]
    {
      bytes[offset + i] := chunk[i];
      i := i + 1;
    }
    assert bytes[..offset + |chunk|] == bytes[..offset] + bytes[offset..offset + |chunk|];
  }
}
