/**
  Splitting and joining on one separator character, decimal numerals and the order of
  texts: the string operations that the source's key, path and text rules are built from.
 */
module Strings {

  /** The pieces of s between occurrences of sep; always at least one piece. */
  function Split(s: string, sep: char): (parts: seq<string>)
    ensures |parts| >= 1
  {
    if s == "" then [""]
    else if s[0] == sep then [""] + Split(s[1..], sep)
    else
      var rest := Split(s[1..], sep);
      [[s[0]] + rest[0]] + rest[1..]
  }

  /** The pieces with sep between neighbours. */
  function Join(parts: seq<string>, sep: char): string
  {
    if parts == [] then ""
    else if |parts| == 1 then parts[0]
    else parts[0] + [sep] + Join(parts[1..], sep)
  }

  /** The pieces one after another. */
  function Concat(pieces: seq<string>): string
  {
    if pieces == [] then "" else pieces[0] + Concat(pieces[1..])
  }

  predicate Free(s: string, sep: char)
  {
    sep !in s
  }

  predicate AllFree(parts: seq<string>, sep: char)
  {
    forall i :: 0 <= i < |parts| ==> Free(parts[i], sep)
  }

  lemma {:induction false} SplitPiecesAreFree(s: string, sep: char)
    ensures AllFree(Split(s, sep), sep)
  {
    if s != "" {
      SplitPiecesAreFree(s[1..], sep);
    }
  }

  lemma JoinPrepended(ch: char, pieces: seq<string>, sep: char)
    requires pieces != []
    ensures Join(Prepend(ch, pieces, sep), sep) == [ch] + Join(pieces, sep)
  {
    if ch == sep {
      assert ([""] + pieces)[1..] == pieces;
      assert "" + [sep] + Join(pieces, sep) == [sep] + Join(pieces, sep);
    } else if |pieces| > 1 {
      var glued := [[ch] + pieces[0]] + pieces[1..];
      assert glued[1..] == pieces[1..];
      assert Join(glued, sep) == ([ch] + pieces[0]) + [sep] + Join(pieces[1..], sep);
      assert ([ch] + pieces[0]) + [sep] + Join(pieces[1..], sep) == [ch] + (pieces[0] + [sep] + Join(pieces[1..], sep));
    }
  }

  lemma {:induction false} JoinAfterSplit(s: string, sep: char)
    ensures Join(Split(s, sep), sep) == s
  {
    if s != "" {
      assert s == [s[0]] + s[1..];
      SplitCons(s[0], s[1..], sep);
      JoinPrepended(s[0], Split(s[1..], sep), sep);
      JoinAfterSplit(s[1..], sep);
    }
  }

  /** Splitting a string whose first piece is free of sep peels that piece off. */
  lemma {:induction false} SplitPeels(piece: string, rest: string, sep: char)
    requires Free(piece, sep)
    ensures Split(piece + [sep] + rest, sep) == [piece] + Split(rest, sep)
    ensures Split(piece, sep) == [piece]
  {
    var whole := piece + [sep] + rest;
    if piece == "" {
      assert whole[1..] == rest;
    } else {
      SplitPeels(piece[1..], rest, sep);
      assert whole[1..] == piece[1..] + [sep] + rest;
      assert [piece[0]] + piece[1..] == piece;
    }
  }

  lemma TailOfConcat<T>(a: seq<T>, b: seq<T>)
    requires a != []
    ensures (a + b)[0] == a[0] && (a + b)[1..] == a[1..] + b
  {
  }

  lemma ConcatAssociative<T>(a: seq<T>, b: seq<T>, c: seq<T>)
    ensures (a + b) + c == a + (b + c)
  {
  }

  /** One more character in front of a split. */
  function Prepend(ch: char, pieces: seq<string>, sep: char): seq<string>
    requires pieces != []
  {
    if ch == sep then [""] + pieces else [[ch] + pieces[0]] + pieces[1..]
  }

  lemma SplitCons(ch: char, s: string, sep: char)
    ensures Split([ch] + s, sep) == Prepend(ch, Split(s, sep), sep)
  {
    assert ([ch] + s)[1..] == s;
  }

  lemma PrependAcross(ch: char, a: seq<string>, b: seq<string>, sep: char)
    requires a != []
    ensures Prepend(ch, a + b, sep) == Prepend(ch, a, sep) + b
  {
    if ch == sep {
      ConcatAssociative([""], a, b);
    } else {
      TailOfConcat(a, b);
      ConcatAssociative([[ch] + a[0]], a[1..], b);
    }
  }

  /** A separator between two strings only puts their pieces side by side. */
  lemma {:induction false} SplitAcross(a: string, b: string, sep: char)
    ensures Split(a + [sep] + b, sep) == Split(a, sep) + Split(b, sep)
  {
    if a == "" {
      assert a + [sep] + b == [sep] + b;
      SplitCons(sep, b, sep);
    } else {
      var ch, rest := a[0], a[1..];
      assert a == [ch] + rest && a + [sep] + b == [ch] + (rest + [sep] + b);
      SplitCons(ch, rest, sep);
      SplitCons(ch, rest + [sep] + b, sep);
      SplitAcross(rest, b, sep);
      PrependAcross(ch, Split(rest, sep), Split(b, sep), sep);
    }
  }

  lemma {:induction false} SplitAfterJoin(parts: seq<string>, sep: char)
    requires parts != [] && AllFree(parts, sep)
    ensures Split(Join(parts, sep), sep) == parts
  {
    if |parts| == 1 {
      SplitPeels(parts[0], "", sep);
    } else {
      SplitPeels(parts[0], Join(parts[1..], sep), sep);
      SplitAfterJoin(parts[1..], sep);
    }
  }

  lemma {:induction false} JoinAcross(a: seq<string>, b: seq<string>, sep: char)
    requires a != [] && b != []
    ensures Join(a + b, sep) == Join(a, sep) + ([sep] + Join(b, sep))
  {
    TailOfConcat(a, b);
    if |a| == 1 {
      assert a[1..] + b == b;
      ConcatAssociative(a[0], [sep], Join(b, sep));
    } else {
      JoinAcross(a[1..], b, sep);
      ConcatAssociative(a[0] + [sep], Join(a[1..], sep), [sep] + Join(b, sep));
    }
  }

  lemma ContinuesIsProper(p: seq<string>, q: seq<string>, sep: char)
    requires p != [] && q != [] && AllFree(p, sep) && AllFree(q, sep)
    requires StartsWith(Join(q, sep), Join(p, sep) + [sep])
    ensures p < q
  {
    var s, t := Join(p, sep), Join(q, sep);
    var rest := t[|s| + 1..];
    assert t == s + [sep] + rest;
    SplitAcross(s, rest, sep);
    SplitAfterJoin(p, sep);
    SplitAfterJoin(q, sep);
  }

  lemma ProperContinues(p: seq<string>, q: seq<string>, sep: char)
    requires p != [] && p < q
    ensures StartsWith(Join(q, sep), Join(p, sep) + [sep])
  {
    var r := q[|p|..];
    assert q == p + r;
    JoinAcross(p, r, sep);
    ConcatAssociative(Join(p, sep), [sep], Join(r, sep));
  }

  /** A joined text continues another after a separator exactly when its pieces properly continue the other's. */
  lemma JoinContinuesIff(p: seq<string>, q: seq<string>, sep: char)
    requires p != [] && q != [] && AllFree(p, sep) && AllFree(q, sep)
    ensures StartsWith(Join(q, sep), Join(p, sep) + [sep]) <==> p < q
  {
    if StartsWith(Join(q, sep), Join(p, sep) + [sep]) {
      ContinuesIsProper(p, q, sep);
    }
    if p < q {
      ProperContinues(p, q, sep);
    }
  }

  /** One decimal digit. */
  function Digit(d: nat): char
    requires d < 10
  {
    "0123456789"[d]
  }

  /** The decimal numeral of n. */
  function Decimal(n: nat): (s: string)
    ensures s != ""
  {
    if n < 10 then [Digit(n)] else Decimal(n / 10) + [Digit(n % 10)]
  }

  lemma {:induction false} DecimalInjective(a: nat, b: nat)
    requires Decimal(a) == Decimal(b)
    ensures a == b
  {
    var s, t := Decimal(a), Decimal(b);
    assert s[|s| - 1] == Digit(a % 10) && t[|t| - 1] == Digit(b % 10);
    if a < 10 || b < 10 {
      assert a < 10 ==> |s| == 1;
      assert b < 10 ==> |t| == 1;
    } else {
      assert s[..|s| - 1] == Decimal(a / 10) && t[..|t| - 1] == Decimal(b / 10);
      DecimalInjective(a / 10, b / 10);
    }
  }

  predicate StartsWith(s: string, prefix: string)
  {
    prefix <= s
  }

  predicate EndsWith(s: string, suffix: string)
  {
    |suffix| <= |s| && s[|s| - |suffix|..] == suffix
  }

  /** Texts are ordered character by character. */
  predicate Before(s: string, t: string)
    decreases |s|
  {
    t != "" && (s == "" || s[0] < t[0] || (s[0] == t[0] && Before(s[1..], t[1..])))
  }

  lemma {:induction false} BeforeIsTotal(s: string, t: string)
    ensures if s == t then !Before(s, t) && !Before(t, s) else Before(s, t) != Before(t, s)
    decreases |s|
  {
    if s != "" && t != "" {
      assert s == [s[0]] + s[1..] && t == [t[0]] + t[1..];
      if s[0] == t[0] {
        BeforeIsTotal(s[1..], t[1..]);
      }
    }
  }

  /** One text comes before another exactly where they first differ, or where it is a proper beginning of it. */
  lemma {:induction false} BeforeIffFirstDifference(s: string, t: string)
    ensures Before(s, t) <==> exists k :: 0 <= k <= |s| && k < |t| && s[..k] == t[..k] && (k == |s| || s[k] < t[k])
    decreases |s|
  {
    if Before(s, t) {
      var k := FirstDifference(s, t);
    }
    if k :| 0 <= k <= |s| && k < |t| && s[..k] == t[..k] && (k == |s| || s[k] < t[k]) {
      DifferenceDecides(s, t, k);
    }
  }

  lemma {:induction false} FirstDifference(s: string, t: string) returns (k: nat)
    requires Before(s, t)
    ensures k <= |s| && k < |t| && s[..k] == t[..k] && (k == |s| || s[k] < t[k])
    decreases |s|
  {
    k := 0;
    if s != "" && s[0] == t[0] {
      k := FirstDifference(s[1..], t[1..]);
      assert s[..k + 1] == [s[0]] + s[1..][..k] && t[..k + 1] == [t[0]] + t[1..][..k];
      k := k + 1;
    }
  }

  lemma {:induction false} DifferenceDecides(s: string, t: string, k: nat)
    requires k <= |s| && k < |t| && s[..k] == t[..k] && (k == |s| || s[k] < t[k])
    ensures Before(s, t)
    decreases |s|
  {
    if k > 0 {
      assert s[0] == s[..k][0] && t[0] == t[..k][0];
      assert s[1..][..k - 1] == s[..k][1..] && t[1..][..k - 1] == t[..k][1..];
      DifferenceDecides(s[1..], t[1..], k - 1);
    }
  }

  lemma {:induction false} BeforeIsTransitive(s: string, t: string, u: string)
    requires Before(s, t) && Before(t, u)
    ensures Before(s, u)
    decreases |s|
  {
    if s != "" && s[0] == t[0] && t[0] == u[0] {
      BeforeIsTransitive(s[1..], t[1..], u[1..]);
    }
  }
}
