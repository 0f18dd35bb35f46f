/**
 Strings as the program compares, sorts and numbers them: the order by characters,
 the locale's order, the stable sort of arrays, and decimal numerals with zero padding.
 */
module Text {

  // ----- The order by characters -----

  predicate Less(a: string, b: string) {
    if b == "" then false
    else if a == "" then true
    else a[0] < b[0] || (a[0] == b[0] && Less(a[1..], b[1..]))
  }

  predicate LessEq(a: string, b: string) {
    !Less(b, a)
  }

  lemma {:induction false} LessIrreflexive(a: string)
    ensures !Less(a, a)
  {
    if a != "" { LessIrreflexive(a[1..]); }
  }

  lemma {:induction false} LessTotal(a: string, b: string)
    ensures a == b || Less(a, b) || Less(b, a)
  {
    if a != "" && b != "" && a[0] == b[0] {
      LessTotal(a[1..], b[1..]);
      assert a == [a[0]] + a[1..] && b == [b[0]] + b[1..];
    }
  }

  lemma {:induction false} LessTransitive(a: string, b: string, c: string)
    requires Less(a, b) && Less(b, c)
    ensures Less(a, c)
  {
    if a != "" && a[0] == b[0] && b[0] == c[0] { LessTransitive(a[1..], b[1..], c[1..]); }
  }

  lemma LessAsymmetric(a: string, b: string)
    requires Less(a, b)
    ensures !Less(b, a)
  {
    if Less(b, a) { LessTransitive(a, b, a); LessIrreflexive(a); }
  }

  lemma {:induction false} LessEqTransitive(a: string, b: string, c: string)
    requires LessEq(a, b) && LessEq(b, c)
    ensures LessEq(a, c)
  {
    if Less(c, a) {
      LessTotal(a, b);
      if a != b { LessTransitive(c, a, b); }
    }
  }

  lemma {:induction false} LessWithPrefix(p: string, a: string, b: string)
    ensures Less(p + a, p + b) == Less(a, b)
  {
    if p == "" {
      assert p + a == a && p + b == b;
    } else {
      LessWithPrefix(p[1..], a, b);
      assert (p + a)[1..] == p[1..] + a && (p + b)[1..] == p[1..] + b;
    }
  }

  /** Strings of one length that differ decide the order whatever follows them. */
  lemma {:induction false} LessWithSuffix(a: string, b: string, x: string, y: string)
    requires |a| == |b| && Less(a, b)
    ensures Less(a + x, b + y)
  {
    assert (a + x)[1..] == a[1..] + x && (b + y)[1..] == b[1..] + y;
    if a[0] == b[0] { LessWithSuffix(a[1..], b[1..], x, y); }
  }

  // ----- The locale's order -----

  /** How the locale compares two strings. */
  type Collation = (string, string) -> int

  /** A total preorder, in which different strings may count as equal. */
  ghost predicate Orders(cmp: Collation) {
    && (forall a, b :: cmp(a, b) > 0 <==> cmp(b, a) < 0)
    && (forall a, b, c :: cmp(a, b) >= 0 && cmp(b, c) >= 0 ==> cmp(a, c) >= 0)
  }

  // ----- Sorting by a key -----

  function Insert<T>(x: T, s: seq<T>, key: T -> string): seq<T> {
    if s == [] then [x]
    else if Less(key(x), key(s[0])) then [x] + s
    else [s[0]] + Insert(x, s[1..], key)
  }

  /** A stable sort: later entries go behind earlier ones with an equal key. */
  function SortBy<T>(s: seq<T>, key: T -> string): seq<T> {
    if s == [] then [] else Insert(s[|s| - 1], SortBy(s[..|s| - 1], key), key)
  }

  function Same(s: string): string {
    s
  }

  function SortStrings(s: seq<string>): seq<string> {
    SortBy(s, Same)
  }

  ghost predicate SortedBy<T>(s: seq<T>, key: T -> string) {
    forall i, j :: 0 <= i < j < |s| ==> LessEq(key(s[i]), key(s[j]))
  }

  ghost predicate DistinctBy<T>(s: seq<T>, key: T -> string) {
    forall i, j :: 0 <= i < j < |s| ==> key(s[i]) != key(s[j])
  }

  lemma {:induction false} InsertPermutes<T>(x: T, s: seq<T>, key: T -> string)
    ensures multiset(Insert(x, s, key)) == multiset(s) + multiset{x}
  {
    hide Less;
    if s != [] {
      assert s == [s[0]] + s[1..];
      if !Less(key(x), key(s[0])) { InsertPermutes(x, s[1..], key); }
    }
  }

  lemma SortedCons<T>(x: T, s: seq<T>, key: T -> string)
    requires SortedBy(s, key) && forall y :: y in s ==> LessEq(key(x), key(y))
    ensures SortedBy([x] + s, key)
  {
    hide LessEq;
  }

  lemma {:induction false} InsertSorts<T>(x: T, s: seq<T>, key: T -> string)
    requires SortedBy(s, key)
    ensures SortedBy(Insert(x, s, key), key)
  {
    hide Less;
    if s != [] {
      if Less(key(x), key(s[0])) {
        LessAsymmetric(key(x), key(s[0]));
        forall y | y in s ensures LessEq(key(x), key(y)) {
          var k :| 0 <= k < |s| && s[k] == y;
          if k > 0 { LessEqTransitive(key(x), key(s[0]), key(s[k])); }
        }
        SortedCons(x, s, key);
      } else {
        var rest := Insert(x, s[1..], key);
        InsertSorts(x, s[1..], key);
        InsertPermutes(x, s[1..], key);
        forall y | y in rest ensures LessEq(key(s[0]), key(y)) {
          assert y in multiset(rest);
          if y != x {
            var m :| 0 <= m < |s[1..]| && s[1..][m] == y;
            assert s[m + 1] == y;
          }
        }
        SortedCons(s[0], rest, key);
      }
    }
  }

  lemma InsertKeeps<T>(x: T, s: seq<T>, key: T -> string)
    ensures multiset(Insert(x, s, key)) == multiset(s) + multiset{x}
    ensures SortedBy(s, key) ==> SortedBy(Insert(x, s, key), key)
  {
    InsertPermutes(x, s, key);
    if SortedBy(s, key) { InsertSorts(x, s, key); }
  }

  lemma SplitLast<T>(s: seq<T>)
    requires s != []
    ensures multiset(s) == multiset(s[..|s| - 1]) + multiset{s[|s| - 1]}
  {
    assert s == s[..|s| - 1] + [s[|s| - 1]];
  }

  lemma SortByStep<T>(s: seq<T>, key: T -> string)
    requires s != []
    ensures SortBy(s, key) == Insert(s[|s| - 1], SortBy(s[..|s| - 1], key), key)
  {
    hide Insert;
  }

  lemma {:induction false} SortByKeeps<T>(s: seq<T>, key: T -> string)
    ensures multiset(SortBy(s, key)) == multiset(s) && SortedBy(SortBy(s, key), key)
  {
    if s != [] {
      hide Insert, SortBy, SortedBy;
      SortByStep(s, key);
      SplitLast(s);
      SortByKeeps(s[..|s| - 1], key);
      InsertKeeps(s[|s| - 1], SortBy(s[..|s| - 1], key), key);
    }
  }

  lemma FirstsAgree<T>(a: seq<T>, b: seq<T>, key: T -> string)
    requires multiset(a) == multiset(b) && SortedBy(a, key) && SortedBy(b, key) && DistinctBy(a, key) && a != []
             && b != []
    ensures a[0] == b[0]
  {
    hide Less;
    assert a[0] in multiset(b) && b[0] in multiset(a);
    var i :| 0 <= i < |a| && a[i] == b[0];
    var j :| 0 <= j < |b| && b[j] == a[0];
    if i > 0 && j > 0 {
      assert LessEq(key(a[0]), key(a[i])) && LessEq(key(b[0]), key(b[j]));
      LessTotal(key(a[0]), key(b[0]));
    }
  }

  lemma TailKeeps<T>(a: seq<T>, key: T -> string)
    requires a != []
    ensures SortedBy(a, key) ==> SortedBy(a[1..], key)
    ensures DistinctBy(a, key) ==> DistinctBy(a[1..], key)
    ensures multiset(a[1..]) == multiset(a) - multiset{a[0]}
  {
    hide LessEq;
    assert a == [a[0]] + a[1..];
  }

  /** A multiset has at most one arrangement that is sorted by distinct keys. */
  lemma {:induction false} SortedIsUnique<T>(a: seq<T>, b: seq<T>, key: T -> string)
    requires multiset(a) == multiset(b) && SortedBy(a, key) && SortedBy(b, key) && DistinctBy(a, key)
    ensures a == b
    decreases |a|
  {
    hide SortedBy, DistinctBy;
    assert |multiset(a)| == |a| && |multiset(b)| == |b|;
    if a != [] {
      FirstsAgree(a, b, key);
      TailKeeps(a, key);
      TailKeeps(b, key);
      SortedIsUnique(a[1..], b[1..], key);
      assert a == [a[0]] + a[1..] && b == [b[0]] + b[1..];
    }
  }

  lemma DistinctPermutes<T>(a: seq<T>, b: seq<T>, key: T -> string)
    requires multiset(a) == multiset(b) && DistinctBy(a, key)
    ensures DistinctBy(b, key)
  {
    forall i, j | 0 <= i < j < |b| ensures key(b[i]) != key(b[j]) {
      assert b[i] in multiset(a) && b[j] in multiset(a);
      var m :| 0 <= m < |a| && a[m] == b[i];
      var n :| 0 <= n < |a| && a[n] == b[j];
      AtMostOne(a, m, key);
      if m == n { AtLeastTwo(b, i, j); }
    }
  }

  lemma AtLeastTwo<T>(b: seq<T>, i: nat, j: nat)
    requires i < j < |b| && b[i] == b[j]
    ensures multiset(b)[b[i]] >= 2
  {
    assert b == b[..j] + [b[j]] + b[j + 1..];
    assert b[..j][i] == b[i];
    assert b[i] in multiset(b[..j]);
  }

  lemma AtMostOne<T>(a: seq<T>, m: nat, key: T -> string)
    requires DistinctBy(a, key) && m < |a|
    ensures multiset(a)[a[m]] == 1
  {
    assert a == a[..m] + [a[m]] + a[m + 1..];
    assert a[m] !in a[..m] && a[m] !in a[m + 1..];
  }

  /** Two duplicate-free lists of the same strings are permutations of each other. */
  lemma {:induction false} SameMembers(a: seq<string>, b: seq<string>)
    requires DistinctBy(a, Same) && DistinctBy(b, Same)
    requires forall x :: x in a <==> x in b
    ensures multiset(a) == multiset(b)
  {
    forall x ensures multiset(a)[x] == multiset(b)[x] {
      if x in a {
        var i :| 0 <= i < |a| && a[i] == x;
        var j :| 0 <= j < |b| && b[j] == x;
        AtMostOne(a, i, Same);
        AtMostOne(b, j, Same);
      }
    }
  }

  /** Sorting by distinct keys forgets the order the entries came in. */
  lemma SortByForgetsOrder<T>(a: seq<T>, b: seq<T>, key: T -> string)
    requires multiset(a) == multiset(b) && DistinctBy(a, key)
    ensures SortBy(a, key) == SortBy(b, key)
  {
    SortByKeeps(a, key);
    SortByKeeps(b, key);
    DistinctPermutes(a, SortBy(a, key), key);
    SortedIsUnique(SortBy(a, key), SortBy(b, key), key);
  }

  // ----- Filtering -----

  function Filter<T>(s: seq<T>, keep: T -> bool): seq<T> {
    if s == [] then []
    else Filter(s[..|s| - 1], keep) + if keep(s[|s| - 1]) then [s[|s| - 1]] else []
  }

  lemma {:induction false} FilterCounts<T>(s: seq<T>, keep: T -> bool, x: T)
    ensures multiset(Filter(s, keep))[x] == if keep(x) then multiset(s)[x] else 0
    ensures x in Filter(s, keep) <==> x in s && keep(x)
  {
    if s != [] {
      FilterCounts(s[..|s| - 1], keep, x);
      assert s == s[..|s| - 1] + [s[|s| - 1]];
    }
    assert x in Filter(s, keep) <==> multiset(Filter(s, keep))[x] > 0;
  }

  lemma {:induction false} FilterKeepsDistinct<T>(a: seq<T>, keep: T -> bool, key: T -> string)
    requires DistinctBy(a, key)
    ensures DistinctBy(Filter(a, keep), key)
  {
    if a != [] {
      var before, e := a[..|a| - 1], a[|a| - 1];
      FilterKeepsDistinct(before, keep, key);
      var x := Filter(before, keep);
      forall i | 0 <= i < |x| ensures key(x[i]) != key(e) {
        FilterCounts(before, keep, x[i]);
        var j :| 0 <= j < |before| && before[j] == x[i];
        assert a[j] == x[i];
      }
    }
  }

  lemma CountSnoc(s: seq<string>, x: string, id: string)
    ensures multiset(s + [x])[id] == multiset(s)[id] + if x == id then 1 else 0
  {
  }

  lemma AtMostOnceIsDistinct(s: seq<string>)
    requires forall x :: multiset(s)[x] <= 1
    ensures DistinctBy(s, Same)
  {
    forall i, j | 0 <= i < j < |s| ensures s[i] != s[j] {
      if s[i] == s[j] { AtLeastTwo(s, i, j); }
    }
  }

  lemma DistinctIsAtMostOnce(s: seq<string>, x: string)
    requires DistinctBy(s, Same)
    ensures multiset(s)[x] == if x in s then 1 else 0
  {
    if x in s {
      var i :| 0 <= i < |s| && s[i] == x;
      AtMostOne(s, i, Same);
    }
  }

  lemma {:induction false} FilterCons<T>(x: T, s: seq<T>, keep: T -> bool)
    ensures Filter([x] + s, keep) == (if keep(x) then [x] else []) + Filter(s, keep)
  {
    if s == [] {
      assert ([x] + s)[..0] == [];
    } else {
      FilterCons(x, s[..|s| - 1], keep);
      assert ([x] + s)[..|s|] == [x] + s[..|s| - 1];
    }
  }

  lemma {:induction false} FilterNothing<T>(s: seq<T>, keep: T -> bool)
    requires forall i :: 0 <= i < |s| ==> !keep(s[i])
    ensures Filter(s, keep) == []
  {
    if s != [] { FilterNothing(s[..|s| - 1], keep); }
  }

  function WithKey<T>(key: T -> string, k: string): T -> bool {
    (y: T) => key(y) == k
  }

  lemma InsertsBefore<T>(x: T, s: seq<T>, key: T -> string, k: string)
    requires SortedBy(s, key) && s != [] && Less(key(x), key(s[0])) && key(x) == k
    ensures Filter(s, WithKey(key, k)) == []
  {
    hide Less, Filter;
    forall i | 0 <= i < |s| ensures key(s[i]) != k {
      assert i > 0 ==> LessEq(key(s[0]), key(s[i]));
      LessIrreflexive(k);
    }
    FilterNothing(s, WithKey(key, k));
  }

  lemma {:induction false} InsertIsStable<T>(x: T, s: seq<T>, key: T -> string, k: string)
    requires SortedBy(s, key)
    ensures var same := WithKey(key, k);
            Filter(Insert(x, s, key), same) == Filter(s, same) + if key(x) == k then [x] else []
  {
    hide Less, Filter, SortedBy;
    var same := WithKey(key, k);
    FilterCons(x, s, same);
    if s == [] {
      FilterNothing(s, same);
      assert [x] + s == [x];
    } else if Less(key(x), key(s[0])) {
      if key(x) == k { InsertsBefore(x, s, key, k); }
    } else {
      TailKeeps(s, key);
      InsertIsStable(x, s[1..], key, k);
      FilterCons(s[0], s[1..], same);
      FilterCons(s[0], Insert(x, s[1..], key), same);
      assert s == [s[0]] + s[1..];
    }
  }

  /** Entries with one key keep the order they came in. */
  lemma {:induction false} SortByIsStable<T>(s: seq<T>, key: T -> string, k: string)
    ensures var same := WithKey(key, k);
            Filter(SortBy(s, key), same) == Filter(s, same)
  {
    hide Insert, SortedBy;
    if s != [] {
      SortByIsStable(s[..|s| - 1], key, k);
      SortByKeeps(s[..|s| - 1], key);
      InsertIsStable(s[|s| - 1], SortBy(s[..|s| - 1], key), key, k);
    }
  }

  // ----- Letters and digits -----

  const UPPER := "ABCDEFGHIJKLMNOPQRSTUVWXYZ"
  const LOWER := "abcdefghijklmnopqrstuvwxyz"
  const DIGITS := "0123456789"

  lemma UpperIff(c: char)
    ensures 'A' <= c <= 'Z' <==> c in UPPER
  {
    if 'A' <= c <= 'Z' { assert UPPER[c as int - 'A' as int] == c; }
  }

  lemma LowerIff(c: char)
    ensures 'a' <= c <= 'z' <==> c in LOWER
  {
    if 'a' <= c <= 'z' { assert LOWER[c as int - 'a' as int] == c; }
  }

  lemma DigitsIff(c: char)
    ensures '0' <= c <= '9' <==> c in DIGITS
  {
    if '0' <= c <= '9' { assert DIGITS[c as int - '0' as int] == c; }
  }

  // ----- Decimal numerals -----

  function Digit(d: nat): char
    requires d < 10
  {
    ['0', '1', '2', '3', '4', '5', '6', '7', '8', '9'][d]
  }

  predicate IsDigit(c: char) {
    '0' <= c <= '9'
  }

  function DigitValue(c: char): nat
    requires IsDigit(c)
  {
    (c as int) - ('0' as int)
  }

  predicate AllDigits(s: string) {
    forall i :: 0 <= i < |s| ==> IsDigit(s[i])
  }

  /** The usual decimal notation. */
  function Decimal(n: nat): (s: string)
    ensures |s| > 0 && AllDigits(s)
  {
    if n < 10 then [Digit(n)] else Decimal(n / 10) + [Digit(n % 10)]
  }

  function Number(s: string): nat
    requires AllDigits(s)
  {
    if s == "" then 0 else Number(s[..|s| - 1]) * 10 + DigitValue(s[|s| - 1])
  }

  function Zeros(k: nat): (s: string)
    ensures |s| == k && AllDigits(s)
  {
    if k == 0 then "" else "0" + Zeros(k - 1)
  }

  function PadStart(s: string, width: nat): string {
    if |s| >= width then s else Zeros(width - |s|) + s
  }

  function Power10(k: nat): nat {
    if k == 0 then 1 else 10 * Power10(k - 1)
  }

  /** Exactly `width` digits. */
  function Fixed(n: nat, width: nat): (s: string)
    ensures |s| == width && AllDigits(s)
  {
    if width == 0 then "" else Fixed(n / 10, width - 1) + [Digit(n % 10)]
  }

  lemma NumberSnoc(s: string, d: nat)
    requires AllDigits(s) && d < 10
    ensures AllDigits(s + [Digit(d)]) && Number(s + [Digit(d)]) == Number(s) * 10 + d
  {
    assert (s + [Digit(d)])[..|s|] == s;
  }

  lemma DecimalStep(n: nat)
    ensures Decimal(n) == if n < 10 then [Digit(n)] else Decimal(n / 10) + [Digit(n % 10)]
  {
  }

  lemma FixedStep(n: nat, width: nat)
    requires width > 0
    ensures Fixed(n, width) == Fixed(n / 10, width - 1) + [Digit(n % 10)]
  {
  }

  lemma PowerStep(k: nat)
    requires k > 0
    ensures Power10(k) == 10 * Power10(k - 1)
  {
  }

  lemma {:induction false} DecimalReadsBack(n: nat)
    ensures Number(Decimal(n)) == n
  {
    DecimalStep(n);
    if n >= 10 {
      hide Decimal, Number;
      DecimalReadsBack(n / 10);
      NumberSnoc(Decimal(n / 10), n % 10);
    } else {
      NumberSnoc("", n);
      assert "" + [Digit(n)] == [Digit(n)];
    }
  }

  lemma {:induction false} FixedReadsBack(n: nat, width: nat)
    requires n < Power10(width)
    ensures Number(Fixed(n, width)) == n
  {
    if width > 0 {
      hide Fixed, Number, Power10;
      FixedStep(n, width);
      PowerStep(width);
      FixedReadsBack(n / 10, width - 1);
      NumberSnoc(Fixed(n / 10, width - 1), n % 10);
    }
  }

  lemma {:induction false} NumberIsFixed(s: string)
    requires AllDigits(s)
    ensures Number(s) < Power10(|s|) && Fixed(Number(s), |s|) == s
  {
    if s != "" {
      var p := s[..|s| - 1];
      var d := DigitValue(s[|s| - 1]);
      assert s == p + [Digit(d)] && AllDigits(p);
      hide Fixed, Number, Power10;
      NumberIsFixed(p);
      NumberSnoc(p, d);
      PowerStep(|s|);
      FixedStep(Number(s), |s|);
      assert Number(s) / 10 == Number(p) && Number(s) % 10 == d;
    }
  }

  lemma {:induction false} FixedZero(width: nat)
    ensures Fixed(0, width) == Zeros(width)
  {
    if width > 0 {
      FixedZero(width - 1);
      ZerosSnoc(width - 1);
    }
  }

  lemma {:induction false} ZerosSnoc(k: nat)
    ensures Zeros(k) + "0" == "0" + Zeros(k)
  {
    if k > 0 {
      ZerosSnoc(k - 1);
      assert "0" + Zeros(k - 1) + "0" == "0" + (Zeros(k - 1) + "0");
    }
  }

  lemma PadOne(n: nat)
    ensures n < 10 ==> Decimal(n) == [Digit(n)] == Fixed(n, 1) == PadStart(Decimal(n), 1)
    ensures n >= 10 ==> |Decimal(n)| > 1 && PadStart(Decimal(n), 1) == Decimal(n)
    ensures Power10(1) == 10
  {
    DecimalStep(n);
    FixedStep(n, 1);
    PowerStep(1);
  }

  /** Padding a numeral that fits yields the fixed-width form; one that does not fit stays longer. */
  lemma {:induction false} PadIsFixed(n: nat, width: nat)
    requires width > 0
    ensures n < Power10(width) ==> |Decimal(n)| <= width && PadStart(Decimal(n), width) == Fixed(n, width)
    ensures n >= Power10(width) ==> |Decimal(n)| > width && PadStart(Decimal(n), width) == Decimal(n)
  {
    hide Decimal, Fixed, Power10, Zeros;
    PadOne(n);
    if width > 1 {
      DecimalStep(n);
      FixedStep(n, width);
      PowerStep(width);
      PowerAtLeastOne(width - 1);
      if n < 10 {
        FixedZero(width - 1);
      } else {
        PadIsFixed(n / 10, width - 1);
        PadSnoc(Decimal(n / 10), width - 1, Digit(n % 10));
      }
    }
  }

  lemma PadSnoc(s: string, width: nat, c: char)
    ensures PadStart(s + [c], width + 1) == PadStart(s, width) + [c]
  {
    hide Zeros;
    if |s| < width { assert Zeros(width - |s|) + (s + [c]) == Zeros(width - |s|) + s + [c]; }
  }

  lemma {:induction false} PowerAtLeastOne(k: nat)
    ensures Power10(k) >= 1
  {
    if k > 0 { PowerAtLeastOne(k - 1); }
  }

  lemma DigitsAreOrdered(d: nat, e: nat)
    requires d < e < 10
    ensures Less([Digit(d)], [Digit(e)])
  {
  }

  /** Fixed-width numerals sort as the numbers do. */
  lemma {:induction false} FixedIsOrdered(n: nat, m: nat, width: nat)
    requires n < m < Power10(width)
    ensures Less(Fixed(n, width), Fixed(m, width))
  {
    PowerZero();
    hide Fixed, Power10, Less;
    FixedStep(n, width);
    FixedStep(m, width);
    PowerStep(width);
    var p, q := Fixed(n / 10, width - 1), Fixed(m / 10, width - 1);
    if n / 10 < m / 10 {
      FixedIsOrdered(n / 10, m / 10, width - 1);
      LessWithSuffix(p, q, [Digit(n % 10)], [Digit(m % 10)]);
    } else {
      DigitsAreOrdered(n % 10, m % 10);
      LessWithPrefix(p, [Digit(n % 10)], [Digit(m % 10)]);
    }
  }

  lemma PowerZero()
    ensures Power10(0) == 1
  {
  }
}
