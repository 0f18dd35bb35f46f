/** Splitting text at a separator, and the tokens it gives back. */
module Splitting {

  /** The pieces between separators; always at least one. */
  function Split(s: string, c: char): (r: seq<string>)
    ensures |r| >= 1
  {
    if s == "" then [""]
    else
      var rest := Split(s[1..], c);
      if s[0] == c then [""] + rest else [[s[0]] + rest[0]] + rest[1..]
  }

  predicate Free(s: string, c: char) {
    c !in s
  }

  lemma {:induction false} SplitFree(s: string, c: char)
    requires Free(s, c)
    ensures Split(s, c) == [s]
  {
    if s != "" {
      SplitFree(s[1..], c);
      assert s == [s[0]] + s[1..];
    }
  }

  lemma {:induction false} SplitFirst(s: string, c: char, rest: string)
    requires Free(s, c)
    ensures Split(s + [c] + rest, c) == [s] + Split(rest, c)
  {
    if s == "" {
      assert (s + [c] + rest)[1..] == rest;
    } else {
      SplitFirst(s[1..], c, rest);
      assert (s + [c] + rest)[1..] == s[1..] + [c] + rest;
      assert s == [s[0]] + s[1..];
    }
  }

  /** Every token followed by the separator. */
  function Terminated(tokens: seq<string>, c: char): string {
    if tokens == [] then "" else tokens[0] + [c] + Terminated(tokens[1..], c)
  }

  ghost predicate AllFree(tokens: seq<string>, c: char) {
    forall i :: 0 <= i < |tokens| ==> Free(tokens[i], c)
  }

  lemma {:induction false} SplitTerminated(tokens: seq<string>, c: char)
    requires AllFree(tokens, c)
    ensures Split(Terminated(tokens, c), c) == tokens + [""]
  {
    if tokens != [] {
      SplitTerminated(tokens[1..], c);
      SplitFirst(tokens[0], c, Terminated(tokens[1..], c));
      assert tokens == [tokens[0]] + tokens[1..];
    }
  }

  /** Tokens with the separator between them. */
  function Glue(parts: seq<string>, c: char): string {
    if parts == [] then ""
    else if |parts| == 1 then parts[0]
    else parts[0] + [c] + Glue(parts[1..], c)
  }

  lemma {:induction false} SplitGlue(parts: seq<string>, c: char)
    requires parts != [] && AllFree(parts, c)
    ensures Split(Glue(parts, c), c) == parts
  {
    assert parts == [parts[0]] + parts[1..];
    if |parts| == 1 {
      SplitFree(parts[0], c);
    } else {
      SplitGlue(parts[1..], c);
      SplitFirst(parts[0], c, Glue(parts[1..], c));
    }
  }

  lemma SplitStep(s: string, c: char)
    requires s != ""
    ensures s[0] == c ==> Split(s, c) == [""] + Split(s[1..], c)
    ensures s[0] != c ==> Split(s, c) == [[s[0]] + Split(s[1..], c)[0]] + Split(s[1..], c)[1..]
  {
  }

  lemma GlueStep(p: string, parts: seq<string>, c: char)
    ensures Glue([p] + parts, c) == if parts == [] then p else p + [c] + Glue(parts, c)
  {
    assert ([p] + parts)[1..] == parts;
  }

  lemma GlueLonger(x: char, parts: seq<string>, c: char)
    requires parts != []
    ensures Glue([[x] + parts[0]] + parts[1..], c) == [x] + Glue(parts, c)
  {
    var p, more := parts[0], parts[1..];
    assert parts == [p] + more;
    hide Glue;
    GlueStep(p, more, c);
    GlueStep([x] + p, more, c);
    if more != [] {
      Reassociate(x, p, [c] + Glue(more, c));
      Reassociate2(p, c, Glue(more, c));
      Reassociate2([x] + p, c, Glue(more, c));
    }
  }

  lemma Reassociate(x: char, p: string, q: string)
    ensures [x] + (p + q) == ([x] + p) + q
  {
  }

  lemma Reassociate2(p: string, c: char, q: string)
    ensures p + [c] + q == p + ([c] + q)
  {
  }

  lemma {:induction false} GlueSplit(s: string, c: char)
    ensures Glue(Split(s, c), c) == s && AllFree(Split(s, c), c)
  {
    if s != "" {
      SplitStep(s, c);
      hide Split, Glue;
      GlueSplit(s[1..], c);
      assert s == [s[0]] + s[1..];
      GlueStep("", Split(s[1..], c), c);
      GlueLonger(s[0], Split(s[1..], c), c);
    }
  }

  function Last(parts: seq<string>): string
    requires parts != []
  {
    parts[|parts| - 1]
  }

  /** A suffix after the last separator, or everything when there is none. */
  ghost predicate IsLastPiece(s: string, t: string, c: char, several: bool) {
    && Free(t, c) && |t| <= |s| && s[|s| - |t|..] == t
    && (if several then |t| < |s| && s[|s| - |t| - 1] == c else t == s)
  }

  lemma IsLastPieceLonger(x: char, s: string, t: string, c: char)
    requires IsLastPiece(s, t, c, true)
    ensures IsLastPiece([x] + s, t, c, true)
  {
    var all := [x] + s;
    assert all[|all| - |t|..] == s[|s| - |t|..] && all[|all| - |t| - 1] == s[|s| - |t| - 1];
  }

  lemma IsLastPieceWhole(x: char, s: string, c: char)
    requires IsLastPiece(s, s, c, false)
    ensures x == c ==> IsLastPiece([x] + s, s, c, true)
    ensures x != c ==> IsLastPiece([x] + s, [x] + s, c, false)
  {
    assert ([x] + s)[1..] == s;
  }

  /** The last piece is what follows the last separator. */
  lemma {:induction false} LastPiece(s: string, c: char)
    ensures IsLastPiece(s, Last(Split(s, c)), c, |Split(s, c)| > 1)
  {
    if s != "" {
      var rest := Split(s[1..], c);
      SplitStep(s, c);
      LastPiece(s[1..], c);
      hide Split, IsLastPiece;
      assert s == [s[0]] + s[1..];
      if |rest| > 1 {
        IsLastPieceLonger(s[0], s[1..], Last(rest), c);
      } else {
        WholePiece(s[1..], rest[0], c);
        IsLastPieceWhole(s[0], s[1..], c);
      }
    }
  }

  lemma WholePiece(s: string, t: string, c: char)
    requires IsLastPiece(s, t, c, false)
    ensures t == s
  {
  }

  lemma {:induction false} LastPieceIs(s: string, t: string, c: char)
    requires Free(t, c) && (s == "" || s[|s| - 1] == c)
    ensures Last(Split(s + t, c)) == t && (s != "" ==> |Split(s + t, c)| > 1)
  {
    if s == "" {
      assert s + t == t;
      SplitFree(t, c);
    } else {
      assert (s + t)[1..] == s[1..] + t && (s + t)[0] == s[0];
      LastPieceIs(s[1..], t, c);
    }
  }
}
