/**
 Addresses printed and read back, and the private-address verdict in terms of address blocks.
 */
module AddressText {
  import opened Options
  import opened Text
  import opened Splitting
  import opened Ipv6
  import opened JudgeTransport

  // ----- Hexadecimal numerals -----

  const HEX := "0123456789abcdef"

  /** The hexadecimal digits are these sixteen characters, each with its place as its value. */
  lemma HexDigitIff(c: char, d: nat)
    requires d < 16
    ensures IsHexDigit(c) <==> c in HEX
    ensures HEX[d] == c <==> IsHexDigit(c) && HexDigit(c) == d
  {
    if IsHexDigit(c) { assert HEX[HexDigit(c)] == c; }
  }

  /** A number in so many hexadecimal digits. */
  function Hex(n: nat, width: nat): (s: string)
    ensures |s| == width
  {
    if width == 0 then "" else Hex(n / 16, width - 1) + [HEX[n % 16]]
  }

  lemma {:induction false} HexReadsBack(n: nat, width: nat)
    requires n < Power16(width)
    ensures AllHex(Hex(n, width)) && HexValue(Hex(n, width)) == n
  {
    if width > 0 {
      HexReadsBack(n / 16, width - 1);
      HexDigitIff(HEX[n % 16], n % 16);
      assert Hex(n, width)[..width - 1] == Hex(n / 16, width - 1);
    }
  }

  /** Some hexadecimal text of one to four digits for a group. */
  ghost predicate Prints(part: string, n: nat) {
    exists width: nat :: 1 <= width <= 4 && n < Power16(width) && part == Hex(n, width)
  }

  lemma {:induction false} HexIsUnique(s: string)
    requires AllHex(s)
    ensures s == Hex(HexValue(s), |s|)
  {
    if s != "" {
      var before, c := s[..|s| - 1], s[|s| - 1];
      HexIsUnique(before);
      HexDigitIff(c, HexDigit(c));
      assert HexValue(s) / 16 == HexValue(before) && HexValue(s) % 16 == HexDigit(c);
    }
  }

  /** A part of an address is a text of one to four digits for its value, and nothing else is one. */
  lemma PartIff(part: string, n: nat)
    ensures IsHexPart(part) && HexValue(part) == n <==> Prints(part, n)
  {
    hide HexValue, Power16, Hex;
    if IsHexPart(part) && HexValue(part) == n {
      HexIsUnique(part);
      HexValueBound(part);
    }
    if Prints(part, n) {
      var width: nat :| 1 <= width <= 4 && n < Power16(width) && part == Hex(n, width);
      HexReadsBack(n, width);
    }
  }

  ghost predicate PrintsEach(parts: seq<string>, groups: seq<nat>) {
    |parts| == |groups| && forall i :: 0 <= i < |parts| ==> Prints(parts[i], groups[i])
  }

  lemma {:induction false} ValuesRead(parts: seq<string>, groups: seq<nat>)
    requires PrintsEach(parts, groups)
    ensures AllParts(parts) && Values(parts) == groups
  {
    hide Prints, HexValue;
    forall i | 0 <= i < |parts| ensures IsHexPart(parts[i]) && HexValue(parts[i]) == groups[i] {
      PartIff(parts[i], groups[i]);
    }
    if parts != [] {
      ValuesRead(parts[..|parts| - 1], groups[..|groups| - 1]);
      assert groups == groups[..|groups| - 1] + [groups[|groups| - 1]];
    }
  }

  // ----- Printing an address -----

  /** Eight groups, however many digits each is given, read back. */
  lemma FullTextReadsBack(parts: seq<string>, groups: seq<nat>)
    requires |groups| == 8 && PrintsEach(parts, groups)
    ensures ParseGroups(Glue(parts, ':')) == Some(groups)
  {
    hide ParseGroups, Glue, Prints, AllParts;
    ValuesRead(parts, groups);
    NoParts();
    var f := Form(parts, false, [], []);
    FormsAreAccepted(f);
    assert Written(f) == Glue(parts, ':');
    assert groups + ZeroGroups(0) + [] + [] == groups;
  }

  lemma NoParts()
    ensures AllParts([]) && Values([]) == []
  {
  }

  /** A gap reads back as the zeros it leaves out. */
  lemma GappedTextReadsBack(head: seq<string>, tail: seq<string>, before: seq<nat>, after: seq<nat>, zeros: nat)
    requires PrintsEach(head, before) && PrintsEach(tail, after) && |before| + zeros + |after| == 8
    ensures ParseGroups(Glue(head, ':') + "::" + Glue(tail, ':')) == Some(before + seq(zeros, _ => 0) + after)
  {
    hide ParseGroups, Glue, Prints, AllParts;
    ValuesRead(head, before);
    ValuesRead(tail, after);
    var f := Form(head, true, tail, []);
    FormsAreAccepted(f);
    assert Written(f) == Glue(head, ':') + "::" + Glue(tail, ':');
    assert ZeroGroups(zeros) == seq(zeros, _ => 0);
    assert before + ZeroGroups(zeros) + after + [] == before + seq(zeros, _ => 0) + after;
  }

  /** The usual text of an IPv4 address. */
  function Dotted(a: nat, b: nat, c: nat, d: nat): string {
    Decimal(a) + "." + (Decimal(b) + "." + (Decimal(c) + "." + Decimal(d)))
  }

  lemma ByteText(n: nat)
    requires n < 256
    ensures IsByte(Decimal(n)) && Number(Decimal(n)) == n
  {
    DecimalReadsBack(n);
    DecimalStep(n);
    if n >= 10 { DecimalStep(n / 10); }
    if n >= 100 { DecimalStep(n / 100); }
  }

  lemma DottedIsGlued(a: nat, b: nat, c: nat, d: nat)
    ensures Dotted(a, b, c, d) == Glue([Decimal(a), Decimal(b), Decimal(c), Decimal(d)], '.')
  {
    hide Decimal;
    var p, q, r, s := Decimal(a), Decimal(b), Decimal(c), Decimal(d);
    assert [p, q, r, s][1..] == [q, r, s] && [q, r, s][1..] == [r, s] && [r, s][1..] == [s];
    assert Glue([s], '.') == s && Glue([r, s], '.') == r + "." + s && Glue([q, r, s], '.') == q + "." + (r + "." + s);
  }

  /** A dotted tail reads back as two groups of two bytes each, behind a gap and whatever stands before it. */
  lemma DottedTailReadsBack(head: seq<string>, before: seq<nat>, a: nat, b: nat, c: nat, d: nat)
    requires PrintsEach(head, before) && |before| <= 6 && a < 256 && b < 256 && c < 256 && d < 256
    ensures ParseGroups(Glue(head, ':') + "::" + Dotted(a, b, c, d))
            == Some(before + seq(6 - |before|, _ => 0) + [a * 256 + b, c * 256 + d])
  {
    hide ParseGroups, Glue, Prints, AllParts, Decimal, Number, IsByte, Dotted;
    var quad := [Decimal(a), Decimal(b), Decimal(c), Decimal(d)];
    ByteText(a);
    ByteText(b);
    ByteText(c);
    ByteText(d);
    DottedIsGlued(a, b, c, d);
    ValuesRead(head, before);
    NoParts();
    NoGlue();
    var f := Form(head, true, [], quad);
    FormsAreAccepted(f);
    assert Written(f) == Glue(head, ':') + "::" + Dotted(a, b, c, d) by {
      assert Stem(f) == Glue(head, ':') + "::" + "";
    }
    assert ZeroGroups(6 - |before|) == seq(6 - |before|, _ => 0);
    var zeros := ZeroGroups(6 - |before|);
    assert before + zeros + [] == before + zeros;
  }

  lemma NoGlue()
    ensures Glue([], ':') == ""
  {
  }

  /** The usual text of a mapped IPv4 address. */
  lemma MappedTextReadsBack(a: nat, b: nat, c: nat, d: nat)
    requires a < 256 && b < 256 && c < 256 && d < 256
    ensures ParseGroups("::ffff:" + Dotted(a, b, c, d)) == Some([0, 0, 0, 0, 0, 0xffff, a * 256 + b, c * 256 + d])
  {
    hide ParseGroups, AllParts, Decimal, Number, IsByte, Dotted, HexValue, Glue, Written, Groups;
    var quad := [Decimal(a), Decimal(b), Decimal(c), Decimal(d)];
    ByteText(a);
    ByteText(b);
    ByteText(c);
    ByteText(d);
    FourFs();
    ValuesRead(["ffff"], [0xffff]);
    NoParts();
    FormsAreAccepted(Form([], true, ["ffff"], quad));
    MappedForm(a, b, c, d);
  }

  lemma MappedForm(a: nat, b: nat, c: nat, d: nat)
    requires var quad := [Decimal(a), Decimal(b), Decimal(c), Decimal(d)];
             FourBytes(quad) && AllParts(["ffff"]) && AllParts([]) && Values(["ffff"]) == [0xffff] && Values([]) == []
             && QuadGroups(quad) == [a * 256 + b, c * 256 + d]
    ensures var f := Form([], true, ["ffff"], [Decimal(a), Decimal(b), Decimal(c), Decimal(d)]);
            && WellFormed(f) && Written(f) == "::ffff:" + Dotted(a, b, c, d)
            && Groups(f) == [0, 0, 0, 0, 0, 0xffff, a * 256 + b, c * 256 + d]
  {
    DottedIsGlued(a, b, c, d);
    assert Glue(["ffff"], ':') == "ffff" && Glue([], ':') == "";
    hide Glue, AllParts, FourBytes, Values, QuadGroups, Decimal, Dotted;
    var f := Form([], true, ["ffff"], [Decimal(a), Decimal(b), Decimal(c), Decimal(d)]);
    assert Stem(f) == "" + "::" + "ffff";
    assert Stem(f) + ":" == "::ffff:";
    assert [] + ZeroGroups(5) + [0xffff] == [0, 0, 0, 0, 0, 0xffff];
  }

  lemma HexSnoc(s: string, c: char)
    requires AllHex(s) && IsHexDigit(c)
    ensures AllHex(s + [c]) && HexValue(s + [c]) == HexValue(s) * 16 + HexDigit(c)
  {
    assert (s + [c])[..|s|] == s;
  }

  lemma FourFs()
    ensures PrintsEach(["ffff"], [0xffff])
  {
    hide HexValue, Prints;
    assert HexValue("") == 0 by { NoDigits(); }
    HexSnoc("", 'f');
    HexSnoc("f", 'f');
    HexSnoc("ff", 'f');
    HexSnoc("fff", 'f');
    assert "" + ['f'] == "f" && "f" + ['f'] == "ff" && "ff" + ['f'] == "fff" && "fff" + ['f'] == "ffff";
    PartIff("ffff", 0xffff);
  }

  lemma NoDigits()
    ensures HexValue("") == 0
  {
  }

  // ----- Blocks -----

  /** The first sixteen bits of an address agree with those of the block in its leading bits. */
  predicate InBlock(high: nat, base: nat, bits: nat)
    requires bits <= 16
  {
    high / Power2(16 - bits) == base / Power2(16 - bits)
  }

  function Power2(k: nat): (r: nat)
    ensures r > 0
  {
    if k == 0 then 1 else 2 * Power2(k - 1)
  }

  lemma SmallPowers()
    ensures Power2(0) == 1 && Power2(4) == 16 && Power2(6) == 64 && Power2(8) == 256 && Power2(9) == 512
  {
    assert Power2(1) == 2 && Power2(2) == 4 && Power2(3) == 8 && Power2(5) == 32 && Power2(7) == 128;
  }

  /** Private IPv4: 0/8, 10/8, 127/8, 172.16/12, 192.168/16 and 169.254/16. */
  lemma PrivateIpv4Iff(a: nat, b: nat)
    requires a < 256 && b < 256
    ensures PrivateIpv4(a, b) <==>
            var high := a * 256 + b;
            || InBlock(high, 0, 8) || InBlock(high, 10 * 256, 8) || InBlock(high, 127 * 256, 8)
            || InBlock(high, 172 * 256 + 16, 12) || InBlock(high, 192 * 256 + 168, 16)
            || InBlock(high, 169 * 256 + 254, 16)
  {
    SmallPowers();
  }

  /** An address with ninety-six bits of prefix in front of an IPv4 address. */
  predicate Embeds(g: seq<nat>, sixth: nat)
    requires |g| == 8
  {
    (forall i :: 0 <= i < 5 ==> g[i] == 0) && g[5] == sixth
  }

  /**
   The verdict on any eight groups: that of the IPv4 address for a mapped or a compatible one,
   private for :: and ::1, and otherwise private exactly in fc00::/7 and fe80::/10.
   */
  lemma PrivateGroupsIff(g: seq<nat>)
    requires |g| == 8 && forall i :: 0 <= i < 8 ==> g[i] < 65536
    ensures Embeds(g, 0xffff) ==> (PrivateGroups(g) <==> PrivateIpv4(g[6] / 256, g[6] % 256))
    ensures Embeds(g, 0) ==>
              (PrivateGroups(g) <==> g[6..] == [0, 0] || g[6..] == [0, 1] || PrivateIpv4(g[6] / 256, g[6] % 256))
    ensures !Embeds(g, 0xffff) && !Embeds(g, 0) ==>
              (PrivateGroups(g) <==> InBlock(g[0], 0xfc00, 7) || InBlock(g[0], 0xfe80, 10))
  {
    SmallPowers();
  }

  /** A mapped IPv4 address gets the verdict of that address, in whatever way it is written. */
  lemma MappedVerdict(hostname: string, dotted: bool, a: nat, b: nat, c: nat, d: nat)
    requires a < 256 && b < 256 && c < 256 && d < 256
    requires ParseGroups(Normal(hostname)) == Some([0, 0, 0, 0, 0, 0xffff, a * 256 + b, c * 256 + d])
    ensures PrivateAddress(hostname, dotted) == PrivateIpv4(a, b)
  {
    hide ParseGroups, Normal, PrivateAddress, PrivateIpv4;
    VerdictFollowsGroups(hostname, dotted);
    assert (a * 256 + b) / 256 == a && (a * 256 + b) % 256 == b;
  }

  // ----- Lower case -----

  /** The letters from A to Z become those from a to z, and every other character stays. */
  lemma LowerReads(c: char)
    ensures c !in UPPER ==> LowerChar(c) == c
    ensures forall i :: 0 <= i < 26 && UPPER[i] == c ==> LowerChar(c) == LOWER[i]
  {
    UpperIff(c);
    if c in UPPER {
      var i := c as int - 'A' as int;
      PlaceInUpper(c, i);
    }
  }

  lemma PlaceInUpper(c: char, i: int)
    requires 'A' <= c <= 'Z' && i == c as int - 'A' as int
    ensures LOWER[i] == (c as int + 32) as char
    ensures forall j :: 0 <= j < 26 && UPPER[j] == c ==> j == i
  {
  }

  // ----- Names -----

  /** Text that comes down to itself: lower case, without brackets at the ends and without a zone. */
  ghost predicate Bare(host: string) {
    && (forall i :: 0 <= i < |host| ==> !('A' <= host[i] <= 'Z') && host[i] != '%')
    && (host != "" ==> host[0] != '[' && host[|host| - 1] != ']')
  }

  lemma {:induction false} NoZone(s: string)
    requires forall i :: 0 <= i < |s| ==> s[i] != '%'
    ensures StripZone(s) == s
  {
    if s != "" {
      NoZone(s[1..]);
      assert s == [s[0]] + s[1..];
    }
  }

  /** A percent sign with a line break behind it starts no zone. */
  lemma {:induction false} NoZoneAcrossLines(s: string, z: string)
    requires (forall i :: 0 <= i < |s| ==> s[i] != '%') && (forall i :: 0 <= i < |z| ==> z[i] != '%') && '\n' in z
    ensures StripZone(s + ("%" + z)) == s + ("%" + z)
  {
    if s == "" {
      assert s + ("%" + z) == "%" + z && ("%" + z)[1..] == z;
      NoZone(z);
    } else {
      assert (s + ("%" + z))[1..] == s[1..] + ("%" + z) && s == [s[0]] + s[1..];
      NoZoneAcrossLines(s[1..], z);
    }
  }

  lemma BareIsNormal(host: string)
    requires Bare(host)
    ensures Lower(host) == host && StripBrackets(host) == host && Normal(host) == host
  {
    NoZone(host);
    assert Lower(host) == host;
  }

  /**
   A host name that is no literal is private when it is localhost, ends in .localhost or starts
   with 127., and otherwise gets the verdict on dotted hosts.
   */
  lemma NameVerdict(host: string, dotted: bool)
    requires Bare(host) && ParseGroups(host).None?
    ensures PrivateAddress(host, dotted)
            <==> || dotted || host == "localhost"
                 || (|host| >= 10 && host[|host| - 10..] == ".localhost")
                 || (|host| >= 4 && host[0] == '1' && host[1] == '2' && host[2] == '7' && host[3] == '.')
  {
    hide ParseGroups, Lower, StripBrackets, StripZone, LowerChar, Bare;
    BareIsNormal(host);
    LoopbackOne();
    StartsWith127(host);
  }

  /** A bracket at either end goes, also without the other one; letters and the zone as well. */
  lemma BracketsGoAlone(host: string)
    requires Bare(host) && host != ""
    ensures StripBrackets("[" + host) == host && StripBrackets(host + "]") == host
    ensures StripBrackets("[" + host + "]") == host && Normal("[" + host) == host && Normal(host + "]") == host
  {
    hide LowerChar, StripZone;
    BracketsGo(host);
    BareIsNormal(host);
    assert ("[" + host)[1..] == host && (host + "]")[..|host|] == host;
    LowerJoins("[", host);
    LowerJoins(host, "]");
    Brackets();
    NoZone(host);
  }

  lemma Brackets()
    ensures Lower("[") == "[" && Lower("]") == "]"
  {
  }

  lemma StartsWith127(host: string)
    ensures StartsWith(host, "127.")
            <==> |host| >= 4 && host[0] == '1' && host[1] == '2' && host[2] == '7' && host[3] == '.'
  {
    if |host| >= 4 {
      var p := host[..4];
      assert p[0] == host[0] && p[1] == host[1] && p[2] == host[2] && p[3] == host[3];
    }
  }
}
