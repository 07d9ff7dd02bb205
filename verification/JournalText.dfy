/**
  The journal as text: one line of printable ASCII per append, read back with the line
  splitting of the source, blank lines skipped and the first unreadable line refused.
 */
module JournalText {
  import opened Strings
  import opened Wrappers
  import OperatorText

  /** Where splitlines() ends a line. */
  predicate IsBreak(ch: char)
  {
    var code := ch as int;
    0x0A <= code <= 0x0D || 0x1C <= code <= 0x1E || code == 0x85 || code == 0x2028 || code == 0x2029
  }

  function FirstBreak(s: string): (n: nat)
    ensures n <= |s| && forall k :: 0 <= k < n ==> !IsBreak(s[k])
    ensures n < |s| ==> IsBreak(s[n])
  {
    if s == "" || IsBreak(s[0]) then 0 else 1 + FirstBreak(s[1..])
  }

  function EndLength(s: string, n: nat): (k: nat)
    requires n < |s|
    ensures 1 <= k && n + k <= |s|
  {
    if s[n] == '\r' && n + 1 < |s| && s[n + 1] == '\n' then 2 else 1
  }

  /** A carriage return and the line feed after it are one break; nothing follows a final one. */
  function SplitLines(s: string): seq<string>
    decreases |s|
  {
    if s == "" then []
    else
      var n := FirstBreak(s);
      if n == |s| then [s]
      else [s[..n]] + SplitLines(s[n + EndLength(s, n)..])
  }

  // ---------------------------------------------------------------- what the pieces are

  /** Line feed, tabulation and form feed, carriage return, the separators, next line, and the Unicode ones. */
  const LINE_ENDS: set<int> := {0x0A, 0x0B, 0x0C, 0x0D, 0x1C, 0x1D, 0x1E, 0x85, 0x2028, 0x2029}

  predicate BreakFree(line: string)
  {
    forall i :: 0 <= i < |line| ==> line[i] as int !in LINE_ENDS
  }

  /** What stands between a line and the rest: one end, the two-character one taken whole, or nothing at the end. */
  predicate Ends(line: string, end: string, rest: string)
  {
    || end == "\r\n"
    || (|end| == 1 && end[0] as int in LINE_ENDS && !(end == "\r" && rest != "" && rest[0] == '\n'))
    || (end == "" && rest == "" && line != "")
  }

  /** The lines, each with its end after it. */
  function Rejoined(lines: seq<string>, ends: seq<string>): string
    requires |lines| == |ends|
  {
    if lines == [] then "" else lines[0] + (ends[0] + Rejoined(lines[1..], ends[1..]))
  }

  /** The lines hold no line end, and with these ends between them they are the text. */
  predicate CutsInto(s: string, lines: seq<string>, ends: seq<string>)
  {
    |lines| == |ends| && s == Rejoined(lines, ends) &&
    forall i :: 0 <= i < |lines| ==>
      BreakFree(lines[i]) && Ends(lines[i], ends[i], Rejoined(lines[i + 1..], ends[i + 1..]))
  }

  lemma BreaksAreLineEnds(ch: char)
    ensures IsBreak(ch) <==> ch as int in LINE_ENDS
  {
  }

  lemma CutsOneMore(line: string, end: string, rest: string, lines: seq<string>, ends: seq<string>)
    requires |lines| == |ends|
    ensures CutsInto(line + (end + rest), [line] + lines, [end] + ends) && rest == Rejoined(lines, ends) <==>
      BreakFree(line) && Ends(line, end, rest) && CutsInto(rest, lines, ends)
  {
    var all, allEnds := [line] + lines, [end] + ends;
    assert all[1..] == lines && allEnds[1..] == ends;
    forall i | 0 <= i < |lines| ensures all[i + 1] == lines[i] && allEnds[i + 1] == ends[i]
      ensures all[i + 1 + 1..] == lines[i + 1..] && allEnds[i + 1 + 1..] == ends[i + 1..]
    {
    }
    if BreakFree(line) && Ends(line, end, rest) && CutsInto(rest, lines, ends) {
      forall i | 0 <= i < |all|
        ensures BreakFree(all[i]) && Ends(all[i], allEnds[i], Rejoined(all[i + 1..], allEnds[i + 1..]))
      {
        if i > 0 {
          assert all[i] == lines[i - 1] && all[i + 1..] == lines[i..] && allEnds[i + 1..] == ends[i..];
        }
      }
    }
    if CutsInto(line + (end + rest), all, allEnds) && rest == Rejoined(lines, ends) {
      assert all[0] == line && allEnds[0] == end;
      forall i | 0 <= i < |lines|
        ensures BreakFree(lines[i]) && Ends(lines[i], ends[i], Rejoined(lines[i + 1..], ends[i + 1..]))
      {
        assert BreakFree(all[i + 1]);
      }
    }
  }

  lemma WholeAgain(s: string, n: nat, k: nat)
    requires n + k <= |s|
    ensures s == s[..n] + (s[n..n + k] + s[n + k..])
  {
  }

  lemma LengthEnds(s: string, n: nat)
    requires n < |s| && s[n] as int in LINE_ENDS
    ensures Ends(s[..n], s[n..n + EndLength(s, n)], s[n + EndLength(s, n)..])
  {
    var k := EndLength(s, n);
    var end := s[n..n + k];
    assert end[0] == s[n];
    assert k == 2 ==> end == [s[n], s[n + 1]];
  }

  lemma FirstLineIsFree(s: string)
    ensures BreakFree(s[..FirstBreak(s)]) && (FirstBreak(s) < |s| ==> s[FirstBreak(s)] as int in LINE_ENDS)
  {
    var n := FirstBreak(s);
    forall i | 0 <= i < n ensures s[..n][i] as int !in LINE_ENDS {
      BreaksAreLineEnds(s[i]);
    }
    if n < |s| {
      BreaksAreLineEnds(s[n]);
    }
  }

  lemma {:induction false} SplitCuts(s: string) returns (ends: seq<string>)
    ensures CutsInto(s, SplitLines(s), ends)
    decreases |s|
  {
    if s == "" {
      ends := [];
    } else {
      var n := FirstBreak(s);
      if n == |s| {
        ends := [""];
        OneLineCuts(s);
      } else {
        var k := EndLength(s, n);
        var later := SplitCuts(s[n + k..]);
        FirstLineIsFree(s);
        WholeAgain(s, n, k);
        LengthEnds(s, n);
        CutsInFront(s, s[..n], s[n..n + k], s[n + k..], SplitLines(s[n + k..]), later);
        ends := [s[n..n + k]] + later;
      }
    }
  }

  lemma OneLineCuts(s: string)
    requires s != "" && FirstBreak(s) == |s|
    ensures SplitLines(s) == [s] && CutsInto(s, [s], [""])
  {
    FirstLineIsFree(s);
    assert s[..|s|] == s && [s][1..] == [] && [""][1..] == [];
    assert s + ("" + "") == s;
  }

  lemma CutsInFront(s: string, line: string, end: string, rest: string, lines: seq<string>, ends: seq<string>)
    requires s == line + (end + rest) && BreakFree(line) && Ends(line, end, rest) && CutsInto(rest, lines, ends)
    ensures CutsInto(s, [line] + lines, [end] + ends)
  {
    CutsOneMore(line, end, rest, lines, ends);
  }

  lemma CutOff(line: string, end: string, rest: string)
    ensures var s := line + (end + rest); s[..|line|] == line && s[|line| + |end|..] == rest
  {
  }

  /** Where a break-free line and its end stand in front, splitting finds just them. */
  lemma FrontIsFound(line: string, end: string, rest: string)
    requires BreakFree(line) && Ends(line, end, rest)
    ensures var s := line + (end + rest);
      FirstBreak(s) == |line| && (end != "" ==> |line| < |s| && EndLength(s, |line|) == |end|)
  {
    var s := line + (end + rest);
    var n := FirstBreak(s);
    assert forall i :: 0 <= i < |line| ==> s[i] == line[i];
    if n < |line| {
      BreaksAreLineEnds(s[n]);
    }
    if end != "" {
      assert s[|line|] == end[0];
      BreaksAreLineEnds(end[0]);
      assert |line| + 1 < |s| ==> s[|line| + 1] == (end + rest)[1];
    }
  }

  lemma FrontSplits(line: string, end: string, rest: string)
    requires BreakFree(line) && Ends(line, end, rest)
    ensures SplitLines(line + (end + rest)) == [line] + SplitLines(rest)
  {
    var s := line + (end + rest);
    FrontIsFound(line, end, rest);
    CutOff(line, end, rest);
    if end == "" {
      assert s == line && rest == "" && [line] + SplitLines("") == [line];
    }
  }

  lemma {:induction false} CutIsSplit(s: string, lines: seq<string>, ends: seq<string>)
    requires CutsInto(s, lines, ends)
    ensures lines == SplitLines(s)
    decreases |lines|
  {
    if lines != [] {
      var line, end, rest := lines[0], ends[0], Rejoined(lines[1..], ends[1..]);
      assert lines == [line] + lines[1..] && ends == [end] + ends[1..];
      CutsOneMore(line, end, rest, lines[1..], ends[1..]);
      FrontSplits(line, end, rest);
      CutIsSplit(rest, lines[1..], ends[1..]);
    }
  }

  /** Splitting is exactly cutting at every line end. */
  lemma SplitIffCut(s: string, lines: seq<string>)
    ensures lines == SplitLines(s) <==> exists ends :: CutsInto(s, lines, ends)
  {
    if lines == SplitLines(s) {
      var ends := SplitCuts(s);
    }
    if ends :| CutsInto(s, lines, ends) {
      CutIsSplit(s, lines, ends);
    }
  }

  // ---------------------------------------------------------------- reading

  /** The lines parsed in turn, blank ones left out, or the 1-based number of the first unreadable one. */
  function Parsed<L>(raws: seq<string>, parse: string -> Option<L>): Result<seq<L>, nat>
  {
    if raws == [] then Ok([])
    else
      var raw := raws[|raws| - 1];
      match Parsed(raws[..|raws| - 1], parse)
      case Raised(number) => Raised(number)
      case Ok(sofar) =>
        if OperatorText.IsBlank(raw) then Ok(sofar)
        else
          match parse(raw)
          case None => Raised(|raws|)
          case Some(line) => Ok(sofar + [line])
  }

  method Lines<L>(file: Option<string>, parse: string -> Option<L>) returns (r: Result<seq<L>, nat>)
    ensures r == if file.None? then Ok([]) else Parsed(SplitLines(file.value), parse)
  {
    if file.None? {
      return Ok([]);
    }
    var raws := SplitLines(file.value);
    var parsed: seq<L> := [];
    for i := 0 to |raws|
      invariant Parsed(raws[..i], parse) == Ok(parsed)
    {
      assert raws[..i + 1][..i] == raws[..i];
      if !OperatorText.IsBlank(raws[i]) {
        var line := parse(raws[i]);
        if line.None? {
          FirstUnreadableStands(raws, parse, i + 1);
          return Raised(i + 1);
        }
        parsed := parsed + [line.value];
      }
    }
    assert raws[..|raws|] == raws;
    return Ok(parsed);
  }

  lemma {:induction false} FirstUnreadableStands<L>(raws: seq<string>, parse: string -> Option<L>, n: nat)
    requires n <= |raws| && Parsed(raws[..n], parse).Raised?
    ensures Parsed(raws, parse) == Parsed(raws[..n], parse)
    decreases |raws|
  {
    if n == |raws| {
      assert raws[..n] == raws;
    } else {
      assert raws[..|raws| - 1][..n] == raws[..n];
      FirstUnreadableStands(raws[..|raws| - 1], parse, n);
    }
  }

  predicate Readable<L>(raw: string, parse: string -> Option<L>)
  {
    OperatorText.IsBlank(raw) || parse(raw).Some?
  }

  /** Reading raises for the first unreadable line, naming it, and only if there is one. */
  lemma {:induction false} RaisesForTheFirstUnreadable<L>(raws: seq<string>, parse: string -> Option<L>)
    ensures Parsed(raws, parse).Ok? <==> forall i :: 0 <= i < |raws| ==> Readable(raws[i], parse)
    ensures Parsed(raws, parse).Raised? ==>
      var number := Parsed(raws, parse).error;
      && 1 <= number <= |raws| && !Readable(raws[number - 1], parse)
      && forall i :: 0 <= i < number - 1 ==> Readable(raws[i], parse)
  {
    if raws != [] {
      var init := raws[..|raws| - 1];
      RaisesForTheFirstUnreadable(init, parse);
      assert forall i :: 0 <= i < |init| ==> init[i] == raws[i];
    }
  }

  /** The rendering escapes everything outside printable ASCII. */
  predicate Printable(text: string)
  {
    forall i :: 0 <= i < |text| ==> 0x20 <= text[i] as int < 0x7F
  }

  /** The file after these renderings were appended, each with its newline. */
  function Appended(texts: seq<string>): string
  {
    if texts == [] then "" else texts[0] + (['\n'] + Appended(texts[1..]))
  }

  lemma BreakAfter(text: string, rest: string)
    requires Printable(text)
    ensures FirstBreak(text + (['\n'] + rest)) == |text|
  {
    var s := text + (['\n'] + rest);
    var n := FirstBreak(s);
    assert IsBreak(s[|text|]) && s[..|text|] == text;
    assert forall k :: 0 <= k < |text| ==> s[k] == text[k] && !IsBreak(s[k]);
  }

  lemma NoBreakIn(text: string)
    requires Printable(text)
    ensures FirstBreak(text) == |text|
  {
    assert forall k :: 0 <= k < |text| ==> !IsBreak(text[k]);
  }

  lemma FirstLineSplits(text: string, rest: string)
    requires Printable(text)
    ensures SplitLines(text + (['\n'] + rest)) == [text] + SplitLines(rest)
  {
    var s := text + (['\n'] + rest);
    BreakAfter(text, rest);
    assert s[..|text|] == text && s[|text|] == '\n' && s[|text| + 1..] == rest;
  }

  lemma AppendedPeels(texts: seq<string>, torn: string)
    requires texts != []
    ensures Appended(texts) + torn == texts[0] + (['\n'] + (Appended(texts[1..]) + torn))
  {
    ConcatAssociative(texts[0], ['\n'] + Appended(texts[1..]), torn);
    ConcatAssociative(['\n'], Appended(texts[1..]), torn);
  }

  /** Lines are split exactly where appends ended; what an append left unfinished is the last line. */
  lemma {:induction false} SplitsAtAppends(texts: seq<string>, torn: string)
    requires (forall i :: 0 <= i < |texts| ==> Printable(texts[i])) && Printable(torn)
    ensures SplitLines(Appended(texts) + torn) == texts + (if torn == "" then [] else [torn])
    decreases |texts|
  {
    if texts == [] {
      assert "" + torn == torn;
      NoBreakIn(torn);
    } else {
      AppendedPeels(texts, torn);
      FirstLineSplits(texts[0], Appended(texts[1..]) + torn);
      SplitsAtAppends(texts[1..], torn);
      PeeledAgain(texts, if torn == "" then [] else [torn]);
    }
  }

  lemma PeeledAgain<T>(s: seq<T>, t: seq<T>)
    requires s != []
    ensures [s[0]] + (s[1..] + t) == s + t
  {
  }

  /** Every text is a line of its own that parses back to the line it was rendered from. */
  predicate Renders<L(==)>(texts: seq<string>, lines: seq<L>, parse: string -> Option<L>)
  {
    |texts| == |lines| && forall i :: 0 <= i < |texts| ==>
      Printable(texts[i]) && !OperatorText.IsBlank(texts[i]) && parse(texts[i]) == Some(lines[i])
  }

  lemma {:induction false} ParsesAll<L>(texts: seq<string>, lines: seq<L>, parse: string -> Option<L>)
    requires Renders(texts, lines, parse)
    ensures Parsed(texts, parse) == Ok(lines)
  {
    if texts != [] {
      var n := |texts| - 1;
      ParsesAll(texts[..n], lines[..n], parse);
      assert lines[..n] + [lines[n]] == lines;
    }
  }

  /** Reading gives back exactly the lines appended, in order. */
  lemma ReadsBackWhatWasAppended<L>(texts: seq<string>, lines: seq<L>, parse: string -> Option<L>)
    requires Renders(texts, lines, parse)
    ensures Parsed(SplitLines(Appended(texts)), parse) == Ok(lines)
  {
    SplitsAtAppends(texts, "");
    assert Appended(texts) + "" == Appended(texts) && texts + [] == texts;
    ParsesAll(texts, lines, parse);
  }

  /** An append cut short is reported by its number, unless what is left of it reads as a line or as nothing. */
  lemma TornAppendIsReported<L>(texts: seq<string>, lines: seq<L>, parse: string -> Option<L>, torn: string)
    requires Renders(texts, lines, parse) && Printable(torn)
    ensures Parsed(SplitLines(Appended(texts) + torn), parse) ==
      if OperatorText.IsBlank(torn) then Ok(lines)
      else match parse(torn) case None => Raised(|texts| + 1) case Some(line) => Ok(lines + [line])
  {
    SplitsAtAppends(texts, torn);
    ParsesAll(texts, lines, parse);
    assert (texts + [torn])[..|texts|] == texts;
    assert texts + [] == texts;
  }
}
