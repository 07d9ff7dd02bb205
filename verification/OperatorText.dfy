/**
  Operator-facing text: the rules that refuse text a person may not be shown, and the
  rendering that makes model-written text pass them.
 */
module OperatorText {
  import opened Strings
  import opened Utf8

  const MAX_OPERATOR_TEXT_CHARS := 4096
  const MAX_BODY_LINE_OCTETS := 998
  const TRUNCATED := "\n[truncated]"

  predicate IsControl(ch: char)
  {
    var code := ch as int;
    code < 0x20 || 0x7F <= code <= 0x9F
  }

  /** Stored but not shown, or reordering what is shown around it. */
  predicate IsUnrendered(ch: char)
  {
    var code := ch as int;
    0x200B <= code <= 0x200F || 0x2028 <= code <= 0x202E || 0x2060 <= code <= 0x2064 ||
    0x2066 <= code <= 0x2069 || code == 0xFEFF
  }

  predicate IsHidden(ch: char)
  {
    IsControl(ch) || IsUnrendered(ch)
  }

  /** What strip() takes off an end of the text. */
  predicate IsSpace(ch: char)
  {
    var code := ch as int;
    0x09 <= code <= 0x0D || 0x1C <= code <= 0x20 || code == 0x85 || code == 0xA0 || code == 0x1680 ||
    0x2000 <= code <= 0x200A || code == 0x2028 || code == 0x2029 || code == 0x202F || code == 0x205F || code == 0x3000
  }

  // ---------------------------------------------------------------- the rules

  datatype TextReason = Blank | TooManyChars | LineTooLong(line: nat) | ControlCharacter | InvisibleCharacter

  predicate IsBlank(text: string)
  {
    forall i :: 0 <= i < |text| ==> IsSpace(text[i])
  }

  /** The 1-based number of the first line over the octet bound, or 0. */
  function FirstLongLine(lines: seq<string>, from: nat): nat
    requires from <= |lines|
    decreases |lines| - from
  {
    if from == |lines| then 0
    else if |Encode(lines[from])| > MAX_BODY_LINE_OCTETS then from + 1
    else FirstLongLine(lines, from + 1)
  }

  function TextReasons(text: string): seq<TextReason>
  {
    var long := FirstLongLine(Split(text, '\n'), 0);
    (if IsBlank(text) then [Blank] else []) +
    (if |text| > MAX_OPERATOR_TEXT_CHARS then [TooManyChars] else []) +
    (if long != 0 then [LineTooLong(long)] else []) +
    (if exists i :: 0 <= i < |text| && text[i] != '\n' && IsControl(text[i]) then [ControlCharacter] else []) +
    (if exists i :: 0 <= i < |text| && IsUnrendered(text[i]) then [InvisibleCharacter] else [])
  }

  predicate PiecesFit(pieces: seq<string>)
  {
    forall i :: 0 <= i < |pieces| ==> |Encode(pieces[i])| <= MAX_BODY_LINE_OCTETS
  }

  predicate LinesFit(text: string)
  {
    PiecesFit(Split(text, '\n'))
  }

  predicate Plain(text: string)
  {
    forall i :: 0 <= i < |text| ==> text[i] == '\n' || !IsHidden(text[i])
  }

  /** Everything the rules ask for except that the text says something. */
  predicate Readable(text: string)
  {
    |text| <= MAX_OPERATOR_TEXT_CHARS && LinesFit(text) && Plain(text)
  }

  lemma {:induction false} FirstLongLineIsFirst(lines: seq<string>, from: nat)
    requires from <= |lines|
    ensures FirstLongLine(lines, from) == 0 <==>
            forall i :: from <= i < |lines| ==> |Encode(lines[i])| <= MAX_BODY_LINE_OCTETS
    decreases |lines| - from
  {
    if from < |lines| {
      FirstLongLineIsFirst(lines, from + 1);
    }
  }

  lemma NoReasonsIffReadable(text: string)
    ensures TextReasons(text) == [] <==> Readable(text) && !IsBlank(text)
  {
    FirstLongLineIsFirst(Split(text, '\n'), 0);
  }

  // ---------------------------------------------------------------- rendering

  function HexDigit(d: nat): char
    requires d < 16
  {
    "0123456789ABCDEF"[d]
  }

  /** Four upper-case hex digits; every character that is escaped lies in the basic plane. */
  function Hex4(code: nat): string
    requires code < 0x10000
  {
    [HexDigit(code / 0x1000), HexDigit(code / 0x100 % 16), HexDigit(code / 16 % 16), HexDigit(code % 16)]
  }

  function EscapeChar(ch: char): string
  {
    if IsHidden(ch) then "U+" + Hex4(ch as int) else [ch]
  }

  function Escape(line: string): string
  {
    if line == "" then "" else EscapeChar(line[0]) + Escape(line[1..])
  }

  /** The greedy pieces of a line, carrying on from a piece already begun. */
  function Pieces(current: string, rest: string): (pieces: seq<string>)
    ensures |pieces| >= 1
    decreases |rest|
  {
    if rest == "" then [current]
    else if |Encode(current + [rest[0]])| > MAX_BODY_LINE_OCTETS then [current] + Pieces([rest[0]], rest[1..])
    else Pieces(current + [rest[0]], rest[1..])
  }

  function Folded(line: string): string
  {
    if |Encode(line)| <= MAX_BODY_LINE_OCTETS then line else Join(Pieces("", line), '\n')
  }

  /** The accumulating loop that breaks one line. */
  method Fold(line: string) returns (folded: string)
    ensures folded == Folded(line)
  {
    if |Encode(line)| <= MAX_BODY_LINE_OCTETS {
      return line;
    }
    var out: seq<string>, current := [], "";
    for i := 0 to |line|
      invariant Pieces("", line) == out + Pieces(current, line[i..])
    {
      var ch := line[i];
      assert line[i..][0] == ch && line[i..][1..] == line[i + 1..];
      if |Encode(current + [ch])| > MAX_BODY_LINE_OCTETS {
        assert out + ([current] + Pieces([ch], line[i + 1..])) == (out + [current]) + Pieces([ch], line[i + 1..]);
        out := out + [current];
        current := "";
        assert "" + [ch] == [ch];
      }
      current := current + [ch];
    }
    out := out + [current];
    folded := Join(out, '\n');
  }

  function Clamp(text: string): string
  {
    if |text| <= MAX_OPERATOR_TEXT_CHARS then text
    else text[..MAX_OPERATOR_TEXT_CHARS - |TRUNCATED|] + TRUNCATED
  }

  function RenderLines(lines: seq<string>): seq<string>
  {
    if lines == [] then [] else [Folded(Escape(lines[0]))] + RenderLines(lines[1..])
  }

  function Render(text: string): string
  {
    Clamp(Join(RenderLines(Split(text, '\n')), '\n'))
  }

  // ---------------------------------------------------------------- folding

  /** Every cut is forced: the next character would not have fitted. */
  predicate Greedy(pieces: seq<string>)
  {
    forall i, j :: 0 <= i < j == i + 1 < |pieces| ==> ForcedCut(pieces[i], pieces[j])
  }

  predicate ForcedCut(piece: string, next: string)
  {
    next != "" && |Encode(piece + [next[0]])| > MAX_BODY_LINE_OCTETS
  }

  lemma OneCharFits(ch: char)
    ensures |Encode([ch])| <= MAX_BODY_LINE_OCTETS
  {
    assert [ch][1..] == "";
  }

  lemma {:induction false} PiecesAreGreedy(current: string, rest: string)
    requires |Encode(current)| <= MAX_BODY_LINE_OCTETS
    ensures var pieces := Pieces(current, rest);
      && Concat(pieces) == current + rest
      && PiecesFit(pieces) && Greedy(pieces)
      && current <= pieces[0]
    decreases |rest|
  {
    if rest == "" {
      assert [current][1..] == [];
      assert current + rest == current;
    } else {
      assert rest == [rest[0]] + rest[1..];
      OneCharFits(rest[0]);
      if |Encode(current + [rest[0]])| > MAX_BODY_LINE_OCTETS {
        PiecesAreGreedy([rest[0]], rest[1..]);
        var later := Pieces([rest[0]], rest[1..]);
        var pieces := [current] + later;
        assert pieces[1..] == later;
        assert later[0][0] == rest[0];
        forall i, j | 0 <= i < j == i + 1 < |pieces| ensures ForcedCut(pieces[i], pieces[j]) {
          if i > 0 {
            assert ForcedCut(later[i - 1], later[j - 1]);
          }
        }
      } else {
        PiecesAreGreedy(current + [rest[0]], rest[1..]);
        assert current + [rest[0]] + rest[1..] == current + rest;
      }
    }
  }

  /** The pieces of a whole line put together again are the line, each fits, and each cut is forced. */
  lemma FoldedPiecesAreTheLine(line: string)
    ensures var pieces := Pieces("", line);
      Concat(pieces) == line && PiecesFit(pieces) && Greedy(pieces)
  {
    PiecesAreGreedy("", line);
    assert "" + line == line;
  }

  // ---------------------------------------------------------------- lines of joined text

  lemma PiecesFitConcat(x: seq<string>, y: seq<string>)
    ensures PiecesFit(x + y) <==> PiecesFit(x) && PiecesFit(y)
  {
    if PiecesFit(x + y) {
      forall i | 0 <= i < |x| ensures |Encode(x[i])| <= MAX_BODY_LINE_OCTETS { assert (x + y)[i] == x[i]; }
      forall i | 0 <= i < |y| ensures |Encode(y[i])| <= MAX_BODY_LINE_OCTETS { assert (x + y)[|x| + i] == y[i]; }
    }
  }

  lemma PlainConcat(a: string, b: string)
    ensures Plain(a + b) <==> Plain(a) && Plain(b)
  {
    if Plain(a + b) {
      forall i | 0 <= i < |a| ensures a[i] == '\n' || !IsHidden(a[i]) { assert (a + b)[i] == a[i]; }
      forall i | 0 <= i < |b| ensures b[i] == '\n' || !IsHidden(b[i]) { assert (a + b)[|a| + i] == b[i]; }
    }
  }

  lemma FitsAcross(a: string, b: string)
    ensures LinesFit(a + ['\n'] + b) <==> LinesFit(a) && LinesFit(b)
    ensures Plain(a + ['\n'] + b) <==> Plain(a) && Plain(b)
  {
    SplitAcross(a, b, '\n');
    PiecesFitConcat(Split(a, '\n'), Split(b, '\n'));
    PlainConcat(a, ['\n']);
    PlainConcat(a + ['\n'], b);
  }

  lemma {:induction false} JoinedFits(parts: seq<string>)
    requires parts != []
    ensures LinesFit(Join(parts, '\n')) <==> forall i :: 0 <= i < |parts| ==> LinesFit(parts[i])
    ensures Plain(Join(parts, '\n')) <==> forall i :: 0 <= i < |parts| ==> Plain(parts[i])
  {
    if |parts| > 1 {
      JoinedFits(parts[1..]);
      FitsAcross(parts[0], Join(parts[1..], '\n'));
      assert forall i :: 0 <= i < |parts| - 1 ==> parts[1..][i] == parts[i + 1];
      assert (forall i :: 0 <= i < |parts| ==> LinesFit(parts[i])) <==>
        LinesFit(parts[0]) && forall i :: 0 <= i < |parts[1..]| ==> LinesFit(parts[1..][i]) by {
        assert forall i :: 1 <= i < |parts| ==> parts[i] == parts[1..][i - 1];
      }
      assert (forall i :: 0 <= i < |parts| ==> Plain(parts[i])) <==>
        Plain(parts[0]) && forall i :: 0 <= i < |parts[1..]| ==> Plain(parts[1..][i]) by {
        assert forall i :: 1 <= i < |parts| ==> parts[i] == parts[1..][i - 1];
      }
    }
  }

  lemma OneLineFits(line: string)
    requires Free(line, '\n')
    ensures LinesFit(line) <==> |Encode(line)| <= MAX_BODY_LINE_OCTETS
  {
    SplitPeels(line, "", '\n');
    assert Split(line, '\n')[0] == line;
  }

  // ---------------------------------------------------------------- one line rendered

  lemma HexDigitIsPlain(d: nat)
    requires d < 16
    ensures !IsHidden(HexDigit(d)) && !IsSpace(HexDigit(d)) && HexDigit(d) != '\n'
  {
  }

  lemma EscapeCharIsPlain(ch: char)
    ensures Plain(EscapeChar(ch)) && Free(EscapeChar(ch), '\n') && EscapeChar(ch) != ""
    ensures IsBlank(EscapeChar(ch)) <==> IsSpace(ch) && !IsHidden(ch)
  {
    if IsHidden(ch) {
      var code := ch as int;
      HexDigitIsPlain(code / 0x1000);
      HexDigitIsPlain(code / 0x100 % 16);
      HexDigitIsPlain(code / 16 % 16);
      HexDigitIsPlain(code % 16);
      var escaped := EscapeChar(ch);
      assert escaped[0] == 'U' && !IsSpace(escaped[0]);
    } else {
      assert EscapeChar(ch)[0] == ch;
    }
  }

  /** Some character of the line shows once hidden ones are written out. */
  predicate Shows(line: string)
  {
    exists i :: 0 <= i < |line| && line[i] != '\n' && (IsHidden(line[i]) || !IsSpace(line[i]))
  }

  lemma {:induction false} EscapeIsPlain(line: string)
    ensures Plain(Escape(line)) && Free(Escape(line), '\n')
    ensures Free(line, '\n') ==> (!IsBlank(Escape(line)) <==> Shows(line))
    ensures (forall i :: 0 <= i < |line| ==> !IsHidden(line[i])) ==> Escape(line) == line
  {
    if line != "" {
      var head, tail := EscapeChar(line[0]), Escape(line[1..]);
      EscapeCharIsPlain(line[0]);
      EscapeIsPlain(line[1..]);
      assert line == [line[0]] + line[1..];
      assert Escape(line) == head + tail;
      BlankConcat(head, tail);
      if Free(line, '\n') {
        assert Free(line[1..], '\n');
        assert line[0] in line;
        ShowsConcat([line[0]], line[1..]);
        assert Shows([line[0]]) <==> IsHidden([line[0]][0]) || !IsSpace([line[0]][0]);
      }
    }
  }

  lemma BlankConcat(a: string, b: string)
    ensures IsBlank(a + b) <==> IsBlank(a) && IsBlank(b)
  {
    if IsBlank(a + b) {
      forall i | 0 <= i < |a| ensures IsSpace(a[i]) { assert (a + b)[i] == a[i]; }
      forall i | 0 <= i < |b| ensures IsSpace(b[i]) { assert (a + b)[|a| + i] == b[i]; }
    }
  }

  lemma ShowsConcat(a: string, b: string)
    ensures Shows(a + b) <==> Shows(a) || Shows(b)
  {
    var whole := a + b;
    if Shows(a) {
      var i :| 0 <= i < |a| && a[i] != '\n' && (IsHidden(a[i]) || !IsSpace(a[i]));
      assert whole[i] == a[i];
    }
    if Shows(b) {
      var i :| 0 <= i < |b| && b[i] != '\n' && (IsHidden(b[i]) || !IsSpace(b[i]));
      assert whole[|a| + i] == b[i];
    }
  }

  // ---------------------------------------------------------------- a folded line

  /** Pieces are plain, newline-free and blank together exactly when what they spell is. */
  lemma {:induction false} PiecesInherit(pieces: seq<string>)
    ensures Plain(Concat(pieces)) ==> forall i :: 0 <= i < |pieces| ==> Plain(pieces[i])
    ensures Free(Concat(pieces), '\n') ==> AllFree(pieces, '\n')
    ensures IsBlank(Concat(pieces)) <==> forall i :: 0 <= i < |pieces| ==> IsBlank(pieces[i])
  {
    if pieces != [] {
      var rest := pieces[1..];
      PiecesInherit(rest);
      PlainConcat(pieces[0], Concat(rest));
      BlankConcat(pieces[0], Concat(rest));
      assert forall i :: 1 <= i < |pieces| ==> pieces[i] == rest[i - 1];
      assert forall i :: 0 <= i < |rest| ==> rest[i] == pieces[i + 1];
    }
  }

  lemma {:induction false} BlankJoin(parts: seq<string>)
    ensures IsBlank(Join(parts, '\n')) <==> forall i :: 0 <= i < |parts| ==> IsBlank(parts[i])
  {
    if |parts| > 1 {
      var rest := parts[1..];
      BlankJoin(rest);
      BlankConcat(parts[0], ['\n']);
      BlankConcat(parts[0] + ['\n'], Join(rest, '\n'));
      assert forall i :: 1 <= i < |parts| ==> parts[i] == rest[i - 1];
      assert forall i :: 0 <= i < |rest| ==> rest[i] == parts[i + 1];
    }
  }

  lemma FoldedFits(line: string)
    requires Free(line, '\n') && Plain(line)
    ensures LinesFit(Folded(line)) && Plain(Folded(line))
    ensures IsBlank(Folded(line)) <==> IsBlank(line)
  {
    if |Encode(line)| <= MAX_BODY_LINE_OCTETS {
      OneLineFits(line);
    } else {
      var pieces := Pieces("", line);
      FoldedPiecesAreTheLine(line);
      PiecesInherit(pieces);
      BlankJoin(pieces);
      forall i | 0 <= i < |pieces| ensures LinesFit(pieces[i]) {
        OneLineFits(pieces[i]);
      }
      JoinedFits(pieces);
    }
  }

  // ---------------------------------------------------------------- the whole text

  /** The rendered lines joined, before the whole is cut to length. */
  function Body(text: string): string
  {
    Join(RenderLines(Split(text, '\n')), '\n')
  }

  /** What a line was rendered to fits, is plain, and is blank just when nothing of the line shows. */
  predicate RendersFit(line: string, out: string)
  {
    LinesFit(out) && Plain(out) && (IsBlank(out) <==> !Shows(line))
  }

  lemma LineFits(line: string)
    requires Free(line, '\n')
    ensures RendersFit(line, Folded(Escape(line)))
  {
    EscapeIsPlain(line);
    FoldedFits(Escape(line));
  }

  lemma {:induction false} RenderLinesFit(lines: seq<string>)
    requires AllFree(lines, '\n')
    ensures |RenderLines(lines)| == |lines|
    ensures forall i :: 0 <= i < |lines| ==> RendersFit(lines[i], RenderLines(lines)[i])
  {
    if lines != [] {
      RenderLinesFit(lines[1..]);
      LineFits(lines[0]);
      forall i | 0 <= i < |lines| ensures RendersFit(lines[i], RenderLines(lines)[i]) {
        if i > 0 {
          assert lines[i] == lines[1..][i - 1] && RenderLines(lines)[i] == RenderLines(lines[1..])[i - 1];
        }
      }
    }
  }

  lemma {:induction false} ShowsSomewhere(parts: seq<string>)
    ensures Shows(Join(parts, '\n')) <==> exists i :: 0 <= i < |parts| && Shows(parts[i])
  {
    if |parts| > 1 {
      var rest := parts[1..];
      ShowsSomewhere(rest);
      ShowsConcat(parts[0], ['\n']);
      ShowsConcat(parts[0] + ['\n'], Join(rest, '\n'));
      assert !Shows(['\n']);
      if exists i :: 0 <= i < |parts| && Shows(parts[i]) {
        var i :| 0 <= i < |parts| && Shows(parts[i]);
        assert i > 0 ==> rest[i - 1] == parts[i];
      }
      if exists i :: 0 <= i < |rest| && Shows(rest[i]) {
        var i :| 0 <= i < |rest| && Shows(rest[i]);
        assert parts[i + 1] == rest[i];
      }
    } else if |parts| == 1 {
      assert Join(parts, '\n') == parts[0];
    }
  }

  lemma BodyFits(text: string)
    ensures LinesFit(Body(text)) && Plain(Body(text))
    ensures IsBlank(Body(text)) <==> !Shows(text)
  {
    var lines := Split(text, '\n');
    SplitPiecesAreFree(text, '\n');
    JoinAfterSplit(text, '\n');
    RenderLinesFit(lines);
    JoinedFits(RenderLines(lines));
    BlankJoin(RenderLines(lines));
    ShowsSomewhere(lines);
  }

  /** The pieces of two strings put together: the last of one and the first of the other become one. */
  function Glue(a: seq<string>, b: seq<string>): seq<string>
    requires a != [] && b != []
  {
    a[..|a| - 1] + [a[|a| - 1] + b[0]] + b[1..]
  }

  lemma PrependGlued(ch: char, a: seq<string>, b: seq<string>)
    requires a != [] && b != []
    ensures Prepend(ch, Glue(a, b), '\n') == Glue(Prepend(ch, a, '\n'), b)
  {
    var glued := Glue(a, b);
    if ch == '\n' {
      assert ([""] + a)[..|a|] == [""] + a[..|a| - 1];
    } else if |a| == 1 {
      assert glued == [a[0] + b[0]] + b[1..] && glued[1..] == b[1..];
      assert [ch] + (a[0] + b[0]) == ([ch] + a[0]) + b[0];
    } else {
      var head := [ch] + a[0];
      assert glued[0] == a[0] && glued[1..] == a[1..][..|a| - 2] + [a[|a| - 1] + b[0]] + b[1..];
      assert ([head] + a[1..])[..|a| - 1] == [head] + a[1..][..|a| - 2];
    }
  }

  lemma {:induction false} SplitGlues(a: string, b: string)
    ensures Split(a + b, '\n') == Glue(Split(a, '\n'), Split(b, '\n'))
  {
    if a == "" {
      assert a + b == b && "" + Split(b, '\n')[0] == Split(b, '\n')[0];
    } else {
      var ch, rest := a[0], a[1..];
      assert a == [ch] + rest && a + b == [ch] + (rest + b);
      SplitCons(ch, rest, '\n');
      SplitCons(ch, rest + b, '\n');
      SplitGlues(rest, b);
      PrependGlued(ch, Split(rest, '\n'), Split(b, '\n'));
    }
  }

  /** Cutting a text short leaves no line longer. */
  lemma PrefixFits(text: string, k: nat)
    requires LinesFit(text) && k <= |text|
    ensures LinesFit(text[..k])
  {
    assert text == text[..k] + text[k..];
    SplitGlues(text[..k], text[k..]);
    var a, b := Split(text[..k], '\n'), Split(text[k..], '\n');
    var glued := Glue(a, b);
    forall i | 0 <= i < |a| ensures |Encode(a[i])| <= MAX_BODY_LINE_OCTETS {
      if i < |a| - 1 {
        assert glued[i] == a[i];
      } else {
        assert glued[i] == a[i] + b[0];
        EncodeConcat(a[i], b[0]);
      }
    }
  }

  lemma ClampFits(text: string)
    requires LinesFit(text) && Plain(text)
    ensures Readable(Clamp(text))
    ensures IsBlank(Clamp(text)) <==> |text| <= MAX_OPERATOR_TEXT_CHARS && IsBlank(text)
  {
    if |text| > MAX_OPERATOR_TEXT_CHARS {
      var kept, notice := text[..MAX_OPERATOR_TEXT_CHARS - |TRUNCATED|], TRUNCATED[1..];
      assert TRUNCATED == ['\n'] + notice;
      assert Clamp(text) == kept + ['\n'] + notice;
      PrefixFits(text, |kept|);
      NoticeFits();
      FitsAcross(kept, notice);
      BlankConcat(kept + ['\n'], notice);
    }
  }

  lemma NoticeFits()
    ensures LinesFit(TRUNCATED[1..]) && Plain(TRUNCATED[1..]) && !IsBlank(TRUNCATED[1..])
  {
    ShortVisibleFits(TRUNCATED[1..]);
  }

  lemma ShortVisibleFits(s: string)
    requires 0 < |s| <= MAX_BODY_LINE_OCTETS && forall i :: 0 <= i < |s| ==> 0x21 <= (s[i] as int) < 0x7F
    ensures LinesFit(s) && Plain(s) && !IsBlank(s)
  {
    AsciiOctets(s);
    OneLineFits(s);
    assert !IsSpace(s[0]);
  }

  lemma {:induction false} AsciiOctets(s: string)
    requires forall i :: 0 <= i < |s| ==> (s[i] as int) < 0x80
    ensures |Encode(s)| == |s|
  {
    if s != "" {
      AsciiOctets(s[1..]);
    }
  }

  /**
    What no person is shown: the C0 and C1 controls, zero-width characters and joiners, the
    separators, and the marks, overrides and isolates that change direction.
   */
  const CONCEALED: set<int> :=
    (set code | 0 <= code < 0x20) + (set code | 0x7F <= code <= 0x9F) +
    {0x200B, 0x200C, 0x200D, 0x200E, 0x200F, 0x2028, 0x2029, 0x202A, 0x202B, 0x202C, 0x202D, 0x202E,
     0x2060, 0x2061, 0x2062, 0x2063, 0x2064, 0x2066, 0x2067, 0x2068, 0x2069, 0xFEFF}

  /** What counts as blank: the characters of white space. */
  const WHITE_SPACE: set<int> :=
    {0x09, 0x0A, 0x0B, 0x0C, 0x0D, 0x1C, 0x1D, 0x1E, 0x1F, 0x20, 0x85, 0xA0, 0x1680} +
    (set code | 0x2000 <= code <= 0x200A) + {0x2028, 0x2029, 0x202F, 0x205F, 0x3000}

  /** Something in the text is no white space. */
  ghost predicate Says(text: string)
  {
    exists i :: 0 <= i < |text| && text[i] as int !in WHITE_SPACE
  }

  lemma BlankIffSilent(text: string)
    ensures IsBlank(text) <==> !Says(text)
  {
    forall i | 0 <= i < |text| ensures IsSpace(text[i]) <==> text[i] as int in WHITE_SPACE {
    }
  }

  lemma HiddenIsConcealed(ch: char)
    ensures IsHidden(ch) <==> ch as int in CONCEALED
  {
  }

  /** Readable, spelled out: both bounds, lines in octets of UTF-8, and nothing concealed but line ends. */
  ghost predicate Shown(text: string)
  {
    && |text| <= 4096
    && (forall i :: 0 <= i < |Split(text, '\n')| ==> |Encode(Split(text, '\n')[i])| <= 998)
    && (forall i :: 0 <= i < |text| && text[i] != '\n' ==> text[i] as int !in CONCEALED)
  }

  lemma ReadableIffShown(text: string)
    ensures Readable(text) <==> Shown(text)
  {
    forall i | 0 <= i < |text| ensures IsHidden(text[i]) <==> text[i] as int in CONCEALED {
      HiddenIsConcealed(text[i]);
    }
  }

  /** The rules refuse exactly what is not so, or says nothing. */
  lemma AcceptedIffShown(text: string)
    ensures TextReasons(text) == [] <==> Shown(text) && Says(text)
  {
    NoReasonsIffReadable(text);
    ReadableIffShown(text);
    BlankIffSilent(text);
  }

  predicate IsUpperHex(ch: char)
  {
    '0' <= ch <= '9' || 'A' <= ch <= 'F'
  }

  function DigitValue(ch: char): nat
    requires IsUpperHex(ch)
  {
    if ch <= '9' then ch as int - '0' as int else ch as int - 'A' as int + 10
  }

  /** The number that upper-case hex digits spell. */
  function HexValue(digits: string): nat
    requires forall i :: 0 <= i < |digits| ==> IsUpperHex(digits[i])
  {
    if digits == "" then 0
    else HexValue(digits[..|digits| - 1]) * 16 + DigitValue(digits[|digits| - 1])
  }

  lemma HexDigitValue(d: nat)
    requires d < 16
    ensures IsUpperHex(HexDigit(d)) && DigitValue(HexDigit(d)) == d
  {
  }

  lemma HexSnoc(digits: string, ch: char)
    requires IsUpperHex(ch) && forall i :: 0 <= i < |digits| ==> IsUpperHex(digits[i])
    ensures HexValue(digits + [ch]) == HexValue(digits) * 16 + DigitValue(ch)
  {
    assert (digits + [ch])[..|digits|] == digits;
  }

  lemma Hex4Value(code: nat)
    requires code < 0x10000
    ensures |Hex4(code)| == 4 && (forall i :: 0 <= i < 4 ==> IsUpperHex(Hex4(code)[i])) && HexValue(Hex4(code)) == code
  {
    var a, b := HexDigit(code / 0x1000), HexDigit(code / 0x100 % 16);
    var c, d := HexDigit(code / 16 % 16), HexDigit(code % 16);
    HexDigitValue(code / 0x1000);
    HexDigitValue(code / 0x100 % 16);
    HexDigitValue(code / 16 % 16);
    HexDigitValue(code % 16);
    HexSnoc("", a);
    HexSnoc("" + [a], b);
    HexSnoc("" + [a] + [b], c);
    HexSnoc("" + [a] + [b] + [c], d);
    assert Hex4(code) == "" + [a] + [b] + [c] + [d];
    FourDigits(code);
  }

  lemma FourDigits(code: nat)
    ensures ((code / 0x1000 * 16 + code / 0x100 % 16) * 16 + code / 16 % 16) * 16 + code % 16 == code
  {
    var b := code / 16;
    var c := b / 16;
    assert code / 0x100 == c && code / 0x1000 == c / 16;
    assert c / 16 * 16 + c % 16 == c;
    assert c * 16 + b % 16 == b;
  }

  /** h is four upper-case hex digits that spell code. */
  ghost predicate Spells(h: string, code: nat)
  {
    |h| == 4 && (forall i :: 0 <= i < 4 ==> IsUpperHex(h[i])) && HexValue(h) == code
  }

  /** A concealed character is written out as U+ and the four digits of its code point; any other stays. */
  lemma EscapeNamesTheCode(ch: char)
    ensures ch as int !in CONCEALED ==> EscapeChar(ch) == [ch]
    ensures ch as int in CONCEALED ==> exists h :: Spells(h, ch as int) && EscapeChar(ch) == "U+" + h
  {
    HiddenIsConcealed(ch);
    if IsHidden(ch) {
      Hex4Value(ch as int);
      assert Spells(Hex4(ch as int), ch as int) && EscapeChar(ch) == "U+" + Hex4(ch as int);
    }
  }

  /** Character by character. */
  lemma {:induction false} EscapeConcat(a: string, b: string)
    ensures Escape(a + b) == Escape(a) + Escape(b)
    ensures |a| == 1 ==> Escape(a) == EscapeChar(a[0])
  {
    if a == "" {
      assert a + b == b;
    } else {
      TailOfConcat(a, b);
      EscapeConcat(a[1..], b);
      ConcatAssociative(EscapeChar(a[0]), Escape(a[1..]), Escape(b));
    }
  }

  /** The pieces that a line of the text is rendered to: its escaped self, cut only where it must be. */
  ghost predicate PiecesOf(line: string, pieces: seq<string>)
  {
    pieces != [] && Concat(pieces) == Escape(line) && PiecesFit(pieces) && Greedy(pieces)
  }

  /** Nothing is lost: unless it is too long, a text is rendered to the pieces of its lines, in order. */
  lemma RenderedLineByLine(text: string) returns (pieces: seq<seq<string>>)
    ensures |pieces| == |Split(text, '\n')|
    ensures forall i :: 0 <= i < |pieces| ==> PiecesOf(Split(text, '\n')[i], pieces[i])
    ensures var whole := Join(seq(|pieces|, i requires 0 <= i < |pieces| => Join(pieces[i], '\n')), '\n');
      Render(text) == if |whole| <= 4096 then whole else whole[..4096 - |"\n[truncated]"|] + "\n[truncated]"
  {
    var lines := Split(text, '\n');
    pieces := LinePieces(lines);
    var joined := seq(|pieces|, i requires 0 <= i < |pieces| => Join(pieces[i], '\n'));
    assert joined == RenderLines(lines);
  }

  lemma {:induction false} LinePieces(lines: seq<string>) returns (pieces: seq<seq<string>>)
    ensures |pieces| == |lines| == |RenderLines(lines)|
    ensures forall i :: 0 <= i < |lines| ==>
      PiecesOf(lines[i], pieces[i]) && Join(pieces[i], '\n') == RenderLines(lines)[i]
  {
    if lines == [] {
      pieces := [];
    } else {
      var rest := LinePieces(lines[1..]);
      var first := OneLinePieces(lines[0]);
      pieces := [first] + rest;
      forall i | 0 <= i < |lines|
        ensures PiecesOf(lines[i], pieces[i]) && Join(pieces[i], '\n') == RenderLines(lines)[i]
      {
        if i > 0 {
          assert lines[i] == lines[1..][i - 1] && pieces[i] == rest[i - 1];
        }
      }
    }
  }

  lemma OneLinePieces(line: string) returns (pieces: seq<string>)
    ensures PiecesOf(line, pieces) && Join(pieces, '\n') == Folded(Escape(line))
  {
    var escaped := Escape(line);
    if |Encode(escaped)| <= MAX_BODY_LINE_OCTETS {
      pieces := [escaped];
      assert Concat(pieces) == escaped + "";
    } else {
      FoldedPiecesAreTheLine(escaped);
      pieces := Pieces("", escaped);
    }
  }

  /** Whatever the text, what is rendered is within both bounds and shows every character it holds. */
  lemma RenderedIsReadable(text: string)
    ensures Shown(Render(text))
  {
    BodyFits(text);
    ClampFits(Body(text));
    ReadableIffShown(Render(text));
  }

  /**
    The rendered text is accepted exactly when something in it shows: a character that is
    neither white space nor hidden, a hidden one written out, or the truncation notice.
   */
  lemma RenderedIsAccepted(text: string)
    ensures TextReasons(Render(text)) == [] <==> Shows(text) || |Body(text)| > MAX_OPERATOR_TEXT_CHARS
  {
    BodyFits(text);
    ClampFits(Body(text));
    NoReasonsIffReadable(Render(text));
  }

  /** In particular every text that is not blank is rendered into one that is accepted. */
  lemma NonblankIsAccepted(text: string)
    requires !IsBlank(text)
    ensures TextReasons(Render(text)) == []
  {
    var i :| 0 <= i < |text| && !IsSpace(text[i]);
    assert text[i] != '\n';
    assert Shows(text);
    RenderedIsAccepted(text);
  }

  lemma {:induction false} ReadableLinesStay(lines: seq<string>)
    requires AllFree(lines, '\n') && PiecesFit(lines) && forall i :: 0 <= i < |lines| ==> Plain(lines[i])
    ensures RenderLines(lines) == lines
  {
    if lines != [] {
      forall k | 0 <= k < |lines[0]| ensures !IsHidden(lines[0][k]) {
        assert lines[0][k] in lines[0];
      }
      EscapeIsPlain(lines[0]);
      ReadableLinesStay(lines[1..]);
    }
  }

  /** Text that is already readable comes back unchanged. */
  lemma ReadableIsUnchanged(text: string)
    requires Readable(text)
    ensures Render(text) == text
  {
    var lines := Split(text, '\n');
    SplitPiecesAreFree(text, '\n');
    JoinAfterSplit(text, '\n');
    JoinedFits(lines);
    ReadableLinesStay(lines);
  }

  lemma RenderingIsIdempotent(text: string)
    ensures Render(Render(text)) == Render(text)
  {
    RenderedIsReadable(text);
    ReadableIffShown(Render(text));
    ReadableIsUnchanged(Render(text));
  }
}
