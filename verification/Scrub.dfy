/**
  Secret scrubbing: the value pass over token shapes, the key pass over identifier
  components, and the recursive walk that applies both to a JSON value.
 */
module Scrub {
  import opened Strings
  import opened Wrappers

  const MARKER := "[scrubbed]"

  // ---------------------------------------------------------------- characters

  predicate IsLower(ch: char) { 'a' <= ch <= 'z' }

  predicate IsUpper(ch: char) { 'A' <= ch <= 'Z' }

  predicate IsDigit(ch: char) { '0' <= ch <= '9' }

  predicate IsAlnum(ch: char) { IsLower(ch) || IsUpper(ch) || IsDigit(ch) }

  // ---------------------------------------------------------------- the value pass

  /** A literal prefix followed by at least least characters of a class: alphanumerics and extra. */
  datatype TokenShape = TokenShape(prefix: string, extra: set<char>, least: nat)

  const SK_ANT := TokenShape("sk-ant-", {'_', '-'}, 8)
  const OAT01 := TokenShape("oat01-", {'_', '-'}, 8)
  const GHP := TokenShape("ghp_", {}, 20)
  const PYPI := TokenShape("pypi-", {'_', '-'}, 20)
  const BEARER := TokenShape("Bearer ", {'.', '_', '-'}, 16)

  const SHAPES: seq<TokenShape> := [SK_ANT, OAT01, GHP, PYPI, BEARER]

  predicate InClass(shape: TokenShape, ch: char)
  {
    IsAlnum(ch) || ch in shape.extra
  }

  /** How many characters of the class s starts with. */
  function RunLength(shape: TokenShape, s: string): (n: nat)
    ensures n <= |s|
    ensures forall k :: 0 <= k < n ==> InClass(shape, s[k])
    ensures n < |s| ==> !InClass(shape, s[n])
  {
    if s == "" || !InClass(shape, s[0]) then 0 else 1 + RunLength(shape, s[1..])
  }

  /** The length of the greedy match of shape at the start of s, 0 for none. */
  function MatchOf(shape: TokenShape, s: string): (n: nat)
    ensures n <= |s|
  {
    if shape.prefix <= s && RunLength(shape, s[|shape.prefix|..]) >= shape.least
    then |shape.prefix| + RunLength(shape, s[|shape.prefix|..]) else 0
  }

  /** The alternatives are tried in order; the first that matches decides. */
  function FirstMatch(shapes: seq<TokenShape>, s: string): (n: nat)
    ensures n <= |s|
  {
    if shapes == [] then 0
    else if MatchOf(shapes[0], s) > 0 then MatchOf(shapes[0], s)
    else FirstMatch(shapes[1..], s)
  }

  /** Every match from the left replaced by the marker. */
  function Redact(s: string): string
  {
    if s == "" then ""
    else if FirstMatch(SHAPES, s) > 0 then MARKER + Redact(s[FirstMatch(SHAPES, s)..])
    else [s[0]] + Redact(s[1..])
  }

  /** s is, as a whole, a secret of this shape. */
  predicate IsSecret(shape: TokenShape, s: string)
  {
    && shape.prefix <= s && |s| - |shape.prefix| >= shape.least
    && forall k :: |shape.prefix| <= k < |s| ==> InClass(shape, s[k])
  }

  /** No substring is a secret of any shape. */
  ghost predicate Clean(s: string)
  {
    forall i, j, shape :: 0 <= i <= j <= |s| && shape in SHAPES ==> !IsSecret(shape, s[i..j])
  }

  lemma {:induction false} LongRun(shape: TokenShape, s: string, n: nat)
    requires n <= |s| && forall k :: 0 <= k < n ==> InClass(shape, s[k])
    ensures RunLength(shape, s) >= n
  {
    if n > 0 {
      LongRun(shape, s[1..], n - 1);
    }
  }

  /** A shape matches at the start exactly when some prefix of s is a secret of it. */
  lemma MatchIffSecretPrefix(shape: TokenShape, s: string)
    requires shape.prefix != ""
    ensures MatchOf(shape, s) > 0 <==> exists n :: 0 <= n <= |s| && IsSecret(shape, s[..n])
  {
    var p := |shape.prefix|;
    if MatchOf(shape, s) > 0 {
      var n := MatchOf(shape, s);
      assert forall k :: p <= k < n ==> s[..n][k] == s[p..][k - p];
      assert IsSecret(shape, s[..n]);
    }
    if n :| 0 <= n <= |s| && IsSecret(shape, s[..n]) {
      assert s[..n][..p] == s[..p];
      forall k | 0 <= k < n - p ensures InClass(shape, s[p..][k]) {
        assert s[p..][k] == s[..n][p + k];
      }
      LongRun(shape, s[p..], n - p);
    }
  }

  lemma {:induction false} FirstMatchIffAny(shapes: seq<TokenShape>, s: string)
    ensures FirstMatch(shapes, s) > 0 <==> exists i :: 0 <= i < |shapes| && MatchOf(shapes[i], s) > 0
  {
    if shapes != [] {
      FirstMatchIffAny(shapes[1..], s);
      if i :| 0 <= i < |shapes| && MatchOf(shapes[i], s) > 0 {
        assert i > 0 ==> shapes[1..][i - 1] == shapes[i];
      }
      if j :| 0 <= j < |shapes[1..]| && MatchOf(shapes[1..][j], s) > 0 {
        assert shapes[j + 1] == shapes[1..][j];
      }
    }
  }

  lemma ShapesBegin(shape: TokenShape)
    requires shape in SHAPES
    ensures |shape.prefix| >= 4 && shape.least >= 8 && '[' !in shape.prefix && !InClass(shape, '[')
    ensures shape.prefix[0] in {'s', 'o', 'g', 'p', 'B'} && (shape.prefix[0] == 's' ==> shape.prefix[1] == 'k')
  {
  }

  lemma CleanHasNoMatch(s: string, i: nat)
    requires Clean(s) && i <= |s|
    ensures FirstMatch(SHAPES, s[i..]) == 0
  {
    FirstMatchIffAny(SHAPES, s[i..]);
    forall k | 0 <= k < |SHAPES| ensures MatchOf(SHAPES[k], s[i..]) == 0 {
      ShapesBegin(SHAPES[k]);
      MatchIffSecretPrefix(SHAPES[k], s[i..]);
      forall n | 0 <= n <= |s[i..]| ensures !IsSecret(SHAPES[k], s[i..][..n]) {
        assert s[i..][..n] == s[i..i + n];
      }
    }
  }

  /** A string is clean exactly when the scan finds no match at any position. */
  lemma CleanIffNoMatch(s: string)
    ensures Clean(s) <==> forall i :: 0 <= i <= |s| ==> FirstMatch(SHAPES, s[i..]) == 0
  {
    if Clean(s) {
      forall i | 0 <= i <= |s| ensures FirstMatch(SHAPES, s[i..]) == 0 {
        CleanHasNoMatch(s, i);
      }
    }
    if forall i :: 0 <= i <= |s| ==> FirstMatch(SHAPES, s[i..]) == 0 {
      forall i, j, shape | 0 <= i <= j <= |s| && shape in SHAPES ensures !IsSecret(shape, s[i..j]) {
        var k :| 0 <= k < |SHAPES| && SHAPES[k] == shape;
        FirstMatchIffAny(SHAPES, s[i..]);
        ShapesBegin(shape);
        MatchIffSecretPrefix(shape, s[i..]);
        assert s[i..j] == s[i..][..j - i];
      }
    }
  }

  /** Up to its first bracket, the output is copied from the input. */
  lemma {:induction false} CopiedUpToBracket(s: string, k: nat)
    requires k <= |Redact(s)| && '[' !in Redact(s)[..k]
    ensures k <= |s| && Redact(s)[..k] == s[..k]
  {
    if k > 0 && s != "" {
      assert Redact(s)[0] in Redact(s)[..k];
      assert FirstMatch(SHAPES, s) == 0;
      var rest := Redact(s[1..]);
      assert Redact(s) == [s[0]] + rest;
      assert rest[..k - 1] == Redact(s)[..k][1..];
      assert forall ch :: ch in rest[..k - 1] ==> ch in Redact(s)[..k];
      CopiedUpToBracket(s[1..], k - 1);
    }
  }

  /** Nothing matches at the start of a redacted string unless it matched in the original. */
  lemma NoNewMatch(s: string)
    requires FirstMatch(SHAPES, s) == 0
    ensures FirstMatch(SHAPES, Redact(s)) == 0
  {
    FirstMatchIffAny(SHAPES, Redact(s));
    FirstMatchIffAny(SHAPES, s);
    if i :| 0 <= i < |SHAPES| && MatchOf(SHAPES[i], Redact(s)) > 0 {
      var shape := SHAPES[i];
      ShapesBegin(shape);
      MatchIffSecretPrefix(shape, Redact(s));
      var n :| 0 <= n <= |Redact(s)| && IsSecret(shape, Redact(s)[..n]);
      SecretHasNoBracket(shape, Redact(s)[..n]);
      CopiedUpToBracket(s, n);
      MatchIffSecretPrefix(shape, s);
    }
  }

  lemma SecretHasNoBracket(shape: TokenShape, s: string)
    requires shape in SHAPES && IsSecret(shape, s)
    ensures '[' !in s
  {
    ShapesBegin(shape);
    forall k | 0 <= k < |s| ensures s[k] != '[' {
      if k < |shape.prefix| {
        assert s[k] == shape.prefix[k] && shape.prefix[k] in shape.prefix;
      }
    }
  }

  lemma NoMatchByStart(shape: TokenShape, t: string)
    requires shape in SHAPES && t != ""
    requires t[0] !in {'s', 'o', 'g', 'p', 'B'} || (t[0] == 's' && |t| >= 2 && t[1] != 'k')
    ensures MatchOf(shape, t) == 0
  {
    ShapesBegin(shape);
  }

  lemma MarkerChars(i: nat)
    requires i < |MARKER|
    ensures MARKER[i] !in {'s', 'o', 'g', 'p', 'B'} || (i == 1 && MARKER[1] == 's' && MARKER[2] == 'c')
  {
    assert MARKER == ['[', 's', 'c', 'r', 'u', 'b', 'b', 'e', 'd', ']'];
  }

  /** No shape begins anywhere inside the marker. */
  lemma MarkerStartsNothing(rest: string, i: nat)
    requires i < |MARKER|
    ensures FirstMatch(SHAPES, (MARKER + rest)[i..]) == 0
  {
    var t := (MARKER + rest)[i..];
    assert t[0] == MARKER[i] && (i == 1 ==> t[1] == MARKER[2]);
    MarkerChars(i);
    FirstMatchIffAny(SHAPES, t);
    forall k | 0 <= k < |SHAPES| ensures MatchOf(SHAPES[k], t) == 0 {
      NoMatchByStart(SHAPES[k], t);
    }
  }

  lemma {:induction false} RedactedScansClean(s: string, i: nat)
    requires i <= |Redact(s)|
    ensures FirstMatch(SHAPES, Redact(s)[i..]) == 0
    decreases |s|
  {
    var out, n := Redact(s), FirstMatch(SHAPES, s);
    if s == "" {
      FirstMatchIffAny(SHAPES, "");
    } else if n > 0 {
      var rest := Redact(s[n..]);
      if i < |MARKER| {
        MarkerStartsNothing(rest, i);
      } else {
        assert out[i..] == rest[i - |MARKER|..];
        RedactedScansClean(s[n..], i - |MARKER|);
      }
    } else if i == 0 {
      assert out[0..] == out;
      NoNewMatch(s);
    } else {
      assert out[i..] == Redact(s[1..])[i - 1..];
      RedactedScansClean(s[1..], i - 1);
    }
  }

  /** The value pass leaves no substring of any secret shape. */
  lemma RedactedIsClean(s: string)
    ensures Clean(Redact(s))
  {
    forall i | 0 <= i <= |Redact(s)| ensures FirstMatch(SHAPES, Redact(s)[i..]) == 0 {
      RedactedScansClean(s, i);
    }
    CleanIffNoMatch(Redact(s));
  }

  lemma {:induction false} ScanlessIsUnchanged(s: string)
    requires forall i :: 0 <= i <= |s| ==> FirstMatch(SHAPES, s[i..]) == 0
    ensures Redact(s) == s
  {
    if s != "" {
      assert s[0..] == s;
      forall i | 0 <= i <= |s[1..]| ensures FirstMatch(SHAPES, s[1..][i..]) == 0 {
        assert s[1..][i..] == s[i + 1..];
      }
      ScanlessIsUnchanged(s[1..]);
    }
  }

  /** It changes a string exactly when there is a secret in it. */
  lemma RedactChangesOnlySecrets(s: string)
    ensures Redact(s) == s <==> Clean(s)
  {
    RedactedIsClean(s);
    if Clean(s) {
      CleanIffNoMatch(s);
      ScanlessIsUnchanged(s);
    }
  }

  const LETTERS: set<char> := (set ch: char | 65 <= ch as int <= 90) + (set ch: char | 97 <= ch as int <= 122)
  const DIGITS: set<char> := {'0', '1', '2', '3', '4', '5', '6', '7', '8', '9'}

  /** A prefix and at least so many characters after it, all of them from an alphabet. */
  predicate TokenOf(s: string, prefix: string, alphabet: set<char>, least: nat)
  {
    prefix <= s && |s| >= |prefix| + least && forall k :: |prefix| <= k < |s| ==> s[k] in alphabet
  }

  lemma TokenOfShape(s: string, shape: TokenShape)
    ensures IsSecret(shape, s) <==> TokenOf(s, shape.prefix, LETTERS + DIGITS + shape.extra, shape.least)
  {
    forall k | 0 <= k < |s| ensures InClass(shape, s[k]) <==> s[k] in LETTERS + DIGITS + shape.extra {
    }
  }

  /** The five kinds of token, spelled out. */
  lemma SecretsAreTokens(s: string)
    ensures (exists i :: 0 <= i < |SHAPES| && IsSecret(SHAPES[i], s)) <==>
      || TokenOf(s, "sk-ant-", LETTERS + DIGITS + {'_', '-'}, 8)
      || TokenOf(s, "oat01-", LETTERS + DIGITS + {'_', '-'}, 8)
      || TokenOf(s, "ghp_", LETTERS + DIGITS, 20)
      || TokenOf(s, "pypi-", LETTERS + DIGITS + {'_', '-'}, 20)
      || TokenOf(s, "Bearer ", LETTERS + DIGITS + {'.', '_', '-'}, 16)
  {
    forall i | 0 <= i < |SHAPES|
      ensures IsSecret(SHAPES[i], s) <==>
        TokenOf(s, SHAPES[i].prefix, LETTERS + DIGITS + SHAPES[i].extra, SHAPES[i].least)
    {
      TokenOfShape(s, SHAPES[i]);
    }
    assert LETTERS + DIGITS + {} == LETTERS + DIGITS;
    assert SHAPES[0] == SK_ANT && SHAPES[1] == OAT01 && SHAPES[2] == GHP && SHAPES[3] == PYPI && SHAPES[4] == BEARER;
  }

  /** Stretches of text with these pieces between them. */
  function Woven(kept: seq<string>, between: seq<string>): string
    requires |kept| == |between| + 1
  {
    if between == [] then kept[0] else kept[0] + (between[0] + Woven(kept[1..], between[1..]))
  }

  /** A secret of a shape that ends where the characters of its class do. */
  predicate WholeSecret(secret: string, rest: string)
  {
    exists i :: 0 <= i < |SHAPES| && IsSecret(SHAPES[i], secret) && (rest == "" || !InClass(SHAPES[i], rest[0]))
  }

  /** The text is these kept stretches with whole secrets between them. */
  ghost predicate Holds(s: string, kept: seq<string>, secrets: seq<string>)
  {
    |kept| == |secrets| + 1 && s == Woven(kept, secrets) &&
    forall i :: 0 <= i < |secrets| ==> WholeSecret(secrets[i], Woven(kept[i + 1..], secrets[i + 1..]))
  }

  function Markers(n: nat): seq<string>
  {
    seq(n, _ => MARKER)
  }

  lemma {:induction false} MatchIsWhole(shapes: seq<TokenShape>, s: string)
    requires FirstMatch(shapes, s) > 0
    ensures var n := FirstMatch(shapes, s);
      exists i :: 0 <= i < |shapes| && IsSecret(shapes[i], s[..n]) && (n == |s| || !InClass(shapes[i], s[n]))
  {
    if MatchOf(shapes[0], s) > 0 {
      var shape := shapes[0];
      var p, n := |shape.prefix|, MatchOf(shape, s);
      assert forall k :: p <= k < n ==> s[..n][k] == s[p..][k - p];
      assert s[..n][..p] == s[..p];
      assert n < |s| ==> s[n] == s[p..][n - p];
      assert IsSecret(shapes[0], s[..n]);
    } else {
      MatchIsWhole(shapes[1..], s);
      var n := FirstMatch(shapes, s);
      var i :| 0 <= i < |shapes[1..]| && IsSecret(shapes[1..][i], s[..n]) &&
        (n == |s| || !InClass(shapes[1..][i], s[n]));
      assert shapes[1..][i] == shapes[i + 1];
    }
  }

  lemma SecretInFront(secret: string, rest: string, kept: seq<string>, secrets: seq<string>)
    requires Holds(rest, kept, secrets) && WholeSecret(secret, rest)
    ensures Holds(secret + rest, [""] + kept, [secret] + secrets)
    ensures Woven([""] + kept, [MARKER] + Markers(|secrets|)) == MARKER + Woven(kept, Markers(|secrets|))
  {
    var all, between := [""] + kept, [secret] + secrets;
    assert all[1..] == kept && between[1..] == secrets && ([MARKER] + Markers(|secrets|))[1..] == Markers(|secrets|);
    assert "" + (secret + rest) == secret + rest;
    forall i | 0 <= i < |between| ensures WholeSecret(between[i], Woven(all[i + 1..], between[i + 1..])) {
      if i > 0 {
        assert between[i] == secrets[i - 1] && all[i + 1..] == kept[i..] && between[i + 1..] == secrets[i..];
      }
    }
  }

  lemma CharInFront(ch: char, rest: string, kept: seq<string>, secrets: seq<string>)
    requires Holds(rest, kept, secrets)
    ensures var longer := [[ch] + kept[0]] + kept[1..];
      && Holds([ch] + rest, longer, secrets)
      && Woven(longer, Markers(|secrets|)) == [ch] + Woven(kept, Markers(|secrets|))
  {
    var longer := [[ch] + kept[0]] + kept[1..];
    assert longer[1..] == kept[1..];
    forall i | 0 <= i < |secrets| ensures WholeSecret(secrets[i], Woven(longer[i + 1..], secrets[i + 1..])) {
      assert longer[i + 1..] == kept[i + 1..];
    }
    if secrets != [] {
      ConcatAssociative([ch], kept[0], secrets[0] + Woven(kept[1..], secrets[1..]));
      ConcatAssociative([ch], kept[0], MARKER + Woven(kept[1..], Markers(|secrets|)[1..]));
    }
  }

  ghost predicate Redacts(s: string, out: string, kept: seq<string>, secrets: seq<string>)
  {
    Holds(s, kept, secrets) && out == Woven(kept, Markers(|secrets|))
  }

  lemma SecretStep(secret: string, rest: string, out: string, kept: seq<string>, secrets: seq<string>)
    requires Redacts(rest, out, kept, secrets) && WholeSecret(secret, rest)
    ensures Redacts(secret + rest, MARKER + out, [""] + kept, [secret] + secrets)
  {
    SecretInFront(secret, rest, kept, secrets);
    assert [MARKER] + Markers(|secrets|) == Markers(|[secret] + secrets|);
  }

  lemma CharStep(ch: char, rest: string, out: string, kept: seq<string>, secrets: seq<string>)
    requires Redacts(rest, out, kept, secrets)
    ensures Redacts([ch] + rest, [ch] + out, [[ch] + kept[0]] + kept[1..], secrets)
  {
    CharInFront(ch, rest, kept, secrets);
  }

  lemma SecretStepAt(s: string, n: nat, out: string, kept: seq<string>, secrets: seq<string>)
    requires n <= |s| && Redacts(s[n..], out, kept, secrets) && WholeSecret(s[..n], s[n..])
    ensures Redacts(s, MARKER + out, [""] + kept, [s[..n]] + secrets)
  {
    assert s == s[..n] + s[n..];
    SecretStep(s[..n], s[n..], out, kept, secrets);
  }

  lemma CharStepAt(s: string, out: string, kept: seq<string>, secrets: seq<string>)
    requires s != "" && Redacts(s[1..], out, kept, secrets)
    ensures Redacts(s, [s[0]] + out, [[s[0]] + kept[0]] + kept[1..], secrets)
  {
    assert s == [s[0]] + s[1..];
    CharStep(s[0], s[1..], out, kept, secrets);
  }

  lemma {:induction false} RedactionOf(s: string) returns (kept: seq<string>, secrets: seq<string>)
    ensures Redacts(s, Redact(s), kept, secrets)
    decreases |s|
  {
    if s == "" {
      kept, secrets := [""], [];
    } else if FirstMatch(SHAPES, s) > 0 {
      var n := FirstMatch(SHAPES, s);
      kept, secrets := RedactionOf(s[n..]);
      FirstMatchIsWhole(s);
      SecretStepAt(s, n, Redact(s[n..]), kept, secrets);
      kept, secrets := [""] + kept, [s[..n]] + secrets;
    } else {
      kept, secrets := RedactionOf(s[1..]);
      CharStepAt(s, Redact(s[1..]), kept, secrets);
      kept := [[s[0]] + kept[0]] + kept[1..];
    }
  }

  lemma FirstMatchIsWhole(s: string)
    requires FirstMatch(SHAPES, s) > 0
    ensures var n := FirstMatch(SHAPES, s); WholeSecret(s[..n], s[n..])
  {
    MatchIsWhole(SHAPES, s);
  }

  /** Redacting keeps everything but whole secrets, each of which it replaces by the marker. */
  lemma RedactKeepsTheRest(s: string)
    ensures exists kept, secrets :: Redacts(s, Redact(s), kept, secrets)
  {
    var kept, secrets := RedactionOf(s);
  }

  // ---------------------------------------------------------------- the key pass

  predicate IsWordChar(ch: char) { IsLower(ch) || IsDigit(ch) }

  function LowerChar(ch: char): char
  {
    if IsUpper(ch) then (ch as int + 32) as char else ch
  }

  function UpperChar(ch: char): char
  {
    if IsLower(ch) then (ch as int - 32) as char else ch
  }

  function Lowered(s: string): string
  {
    if s == "" then "" else [LowerChar(s[0])] + Lowered(s[1..])
  }

  /** An underscore between an upper-case character and an upper-case one that a lower-case one follows. */
  function MarkAcronyms(prev: char, s: string): string
    decreases |s|
  {
    if s == "" then ""
    else
      (if IsUpper(prev) && IsUpper(s[0]) && |s| >= 2 && IsLower(s[1]) then "_" else "") +
      ([s[0]] + MarkAcronyms(s[0], s[1..]))
  }

  /** An underscore between a lower-case character or digit and an upper-case character. */
  function MarkCamels(prev: char, s: string): string
    decreases |s|
  {
    if s == "" then ""
    else (if IsWordChar(prev) && IsUpper(s[0]) then "_" else "") + ([s[0]] + MarkCamels(s[0], s[1..]))
  }

  /** The maximal alphanumeric runs of s, carrying on from one already begun. */
  function Runs(current: string, s: string): seq<string>
    decreases |s|
  {
    var done := if current == "" then [] else [current];
    if s == "" then done
    else if IsAlnum(s[0]) then Runs(current + [s[0]], s[1..])
    else done + Runs("", s[1..])
  }

  function AllLowered(words: seq<string>): seq<string>
  {
    if words == [] then [] else [Lowered(words[0])] + AllLowered(words[1..])
  }

  /** No character precedes the first one; a space is neither upper case nor a word character. */
  const START := ' '

  function KeyComponents(key: string): seq<string>
  {
    AllLowered(Runs("", MarkCamels(START, MarkAcronyms(START, key))))
  }

  const SECRET_KEY_COMPONENTS: set<string> := {
    "token", "tokens", "secret", "secrets", "password", "passwords", "authorization", "authorizations",
    "credential", "credentials"
  }

  const USAGE_COUNT_KEY_ALLOWLIST: set<seq<string>> := {
    ["input", "tokens"],
    ["output", "tokens"],
    ["cache", "creation", "input", "tokens"],
    ["cache", "read", "input", "tokens"],
    ["max", "output", "tokens"],
    ["estimated", "tokens"],
    ["estimated", "tokens", "delta"],
    ["ephemeral", "1h", "input", "tokens"],
    ["ephemeral", "5m", "input", "tokens"],
    ["truncated", "by", "token", "cap"]
  }

  predicate IsSecretKey(key: string)
  {
    var components := KeyComponents(key);
    components !in USAGE_COUNT_KEY_ALLOWLIST &&
    exists i :: 0 <= i < |components| && components[i] in SECRET_KEY_COMPONENTS
  }

  // ---------------------------------------------------------------- spelling

  /** A word of an identifier: lower-case letters and digits. */
  predicate IsWord(w: string)
  {
    w != "" && AllWordChars(w)
  }

  type Word = w: string | IsWord(w) witness "a"

  predicate AllWordChars(s: string)
  {
    forall k :: 0 <= k < |s| ==> IsWordChar(s[k])
  }

  function Capitalized(w: Word): string
  {
    [UpperChar(w[0])] + w[1..]
  }

  function CamelTail(words: seq<Word>): string
  {
    if words == [] then "" else Capitalized(words[0]) + CamelTail(words[1..])
  }

  function Camel(words: seq<Word>): string
    requires words != []
  {
    words[0] + CamelTail(words[1..])
  }

  function Snake(words: seq<Word>): string
  {
    Join(words, '_')
  }

  /** Capitalized, this word is a single upper-case letter. */
  predicate LoneCapital(w: Word)
  {
    |w| == 1 && IsLower(w[0])
  }

  /**
    Whether the boundary before word w can be seen in camelCase: w begins with a letter, and
    either no lone capital precedes it or its own capital is followed by a lower-case letter.
   */
  predicate Seen(afterCapital: bool, w: Word)
  {
    IsLower(w[0]) && (!afterCapital || (|w| >= 2 && IsLower(w[1])))
  }

  /** Every boundary among these words can be seen, given whether a lone capital precedes them. */
  predicate AllSeen(afterCapital: bool, words: seq<Word>)
    decreases words
  {
    words == [] || (Seen(afterCapital, words[0]) && AllSeen(LoneCapital(words[0]), words[1..]))
  }

  /** camelCase loses no boundary of these words. */
  predicate Separable(words: seq<Word>)
    requires words != []
  {
    AllSeen(false, words[1..])
  }

  /** The words with each one whose boundary cannot be seen glued to what precedes it. */
  function Glued(current: string, afterCapital: bool, words: seq<Word>): seq<string>
    decreases words
  {
    if words == [] then [current]
    else if Seen(afterCapital, words[0]) then [current] + Glued(words[0], LoneCapital(words[0]), words[1..])
    else Glued(current + words[0], LoneCapital(words[0]), words[1..])
  }

  /** The tail as the acronym pass leaves it. */
  function AcronymTail(afterCapital: bool, words: seq<Word>): string
    decreases words
  {
    if words == [] then ""
    else
      (if afterCapital && Seen(afterCapital, words[0]) then "_" else "") +
      (Capitalized(words[0]) + AcronymTail(LoneCapital(words[0]), words[1..]))
  }

  /** The tail as both passes leave it: an underscore at every boundary that can be seen. */
  function MarkedTail(afterCapital: bool, words: seq<Word>): string
    decreases words
  {
    if words == [] then ""
    else
      (if Seen(afterCapital, words[0]) then "_" else "") +
      (Capitalized(words[0]) + MarkedTail(LoneCapital(words[0]), words[1..]))
  }

  function LastOr(prev: char, s: string): char
  {
    if s == "" then prev else s[|s| - 1]
  }

  lemma MarksCons(prev: char, ch: char, s: string)
    ensures MarkAcronyms(prev, [ch] + s) ==
            (if IsUpper(prev) && IsUpper(ch) && s != "" && IsLower(s[0]) then "_" else "") +
            ([ch] + MarkAcronyms(ch, s))
    ensures MarkCamels(prev, [ch] + s) ==
            (if IsWordChar(prev) && IsUpper(ch) then "_" else "") + ([ch] + MarkCamels(ch, s))
  {
    assert ([ch] + s)[1..] == s;
  }

  /** Neither pass marks anything inside a run of word characters. */
  lemma {:induction false} MarksSkipWordChars(prev: char, run: string, rest: string)
    requires AllWordChars(run)
    ensures MarkAcronyms(prev, run + rest) == run + MarkAcronyms(LastOr(prev, run), rest)
    ensures MarkCamels(prev, run + rest) == run + MarkCamels(LastOr(prev, run), rest)
    decreases run
  {
    if run == "" {
      assert run + rest == rest;
    } else {
      var ch, tail := run[0], run[1..];
      assert run == [ch] + tail && run + rest == [ch] + (tail + rest);
      MarksCons(prev, ch, tail + rest);
      MarksSkipWordChars(ch, tail, rest);
      var last := LastOr(prev, run);
      assert last == LastOr(ch, tail);
      ConcatAssociative([ch], tail, MarkAcronyms(last, rest));
      ConcatAssociative([ch], tail, MarkCamels(last, rest));
    }
  }

  lemma CapitalOf(ch: char)
    requires IsWordChar(ch)
    ensures LowerChar(UpperChar(ch)) == ch && !IsLower(UpperChar(ch)) && IsAlnum(UpperChar(ch))
    ensures IsUpper(UpperChar(ch)) <==> IsLower(ch)
  {
  }

  /** What follows a capitalized word's first letter, and the character it ends in. */
  lemma CapitalizedWord(w: Word, rest: string)
    ensures Capitalized(w) + rest == [UpperChar(w[0])] + (w[1..] + rest)
    ensures AllWordChars(w[1..])
    ensures LoneCapital(w) <==> IsUpper(LastOr(UpperChar(w[0]), w[1..]))
    ensures LoneCapital(w) || IsWordChar(LastOr(UpperChar(w[0]), w[1..]))
  {
    CapitalOf(w[0]);
  }

  lemma TailBegins(words: seq<Word>)
    ensures CamelTail(words) == "" <==> words == []
    ensures words != [] ==> !IsLower(CamelTail(words)[0])
  {
    if words != [] {
      CapitalOf(words[0][0]);
    }
  }

  /** What a pass makes of a capitalized word and whatever follows it. */
  lemma PassOverWord(prev: char, w: Word, rest: string)
    ensures var last := LastOr(UpperChar(w[0]), w[1..]);
      MarkAcronyms(prev, Capitalized(w) + rest) ==
      (if IsUpper(prev) && IsLower(w[0]) && IsLower((w[1..] + rest + " ")[0]) then "_" else "") +
      (Capitalized(w) + MarkAcronyms(last, rest))
    ensures var last := LastOr(UpperChar(w[0]), w[1..]);
      MarkCamels(prev, Capitalized(w) + rest) ==
      (if IsWordChar(prev) && IsLower(w[0]) then "_" else "") + (Capitalized(w) + MarkCamels(last, rest))
  {
    var cap := UpperChar(w[0]);
    var last := LastOr(cap, w[1..]);
    CapitalOf(w[0]);
    CapitalizedWord(w, rest);
    MarksCons(prev, cap, w[1..] + rest);
    MarksSkipWordChars(cap, w[1..], rest);
    CapitalizedWord(w, MarkAcronyms(last, rest));
    CapitalizedWord(w, MarkCamels(last, rest));
  }

  lemma {:induction false} AcronymPass(prev: char, words: seq<Word>)
    ensures MarkAcronyms(prev, CamelTail(words)) == AcronymTail(IsUpper(prev), words)
    decreases words
  {
    if words != [] {
      var w, rest := words[0], CamelTail(words[1..]);
      PassOverWord(prev, w, rest);
      CapitalizedWord(w, rest);
      TailBegins(words[1..]);
      AcronymPass(LastOr(UpperChar(w[0]), w[1..]), words[1..]);
    }
  }

  lemma {:induction false} CamelPass(prev: char, words: seq<Word>)
    requires IsUpper(prev) || IsWordChar(prev)
    ensures MarkCamels(prev, AcronymTail(IsUpper(prev), words)) == MarkedTail(IsUpper(prev), words)
    decreases words
  {
    if words != [] {
      var w := words[0];
      var rest, last := AcronymTail(LoneCapital(w), words[1..]), LastOr(UpperChar(w[0]), w[1..]);
      CapitalizedWord(w, rest);
      CamelPass(last, words[1..]);
      CamelPassWord(prev, w, rest);
    }
  }

  /** The camel pass over one word, which has its underscore already where it is seen after an upper-case character. */
  lemma CamelPassWord(prev: char, w: Word, rest: string)
    requires IsUpper(prev) || IsWordChar(prev)
    ensures MarkCamels(prev, (if IsUpper(prev) && Seen(true, w) then "_" else "") + (Capitalized(w) + rest)) ==
      (if Seen(IsUpper(prev), w) then "_" else "") +
      (Capitalized(w) + MarkCamels(LastOr(UpperChar(w[0]), w[1..]), rest))
  {
    if IsUpper(prev) && Seen(true, w) {
      MarksCons(prev, '_', Capitalized(w) + rest);
      PassOverWord('_', w, rest);
    } else {
      PassOverWord(prev, w, rest);
      assert "" + (Capitalized(w) + rest) == Capitalized(w) + rest;
    }
  }

  /** Both passes over a camelCase key. */
  lemma CamelMarked(words: seq<Word>)
    requires words != []
    ensures MarkCamels(START, MarkAcronyms(START, Camel(words))) == words[0] + MarkedTail(false, words[1..])
  {
    var first, last := words[0], LastOr(START, words[0]);
    MarksSkipWordChars(START, first, CamelTail(words[1..]));
    AcronymPass(last, words[1..]);
    MarksSkipWordChars(START, first, AcronymTail(false, words[1..]));
    CamelPass(last, words[1..]);
  }

  lemma {:induction false} RunGoesOn(current: string, run: string, rest: string)
    requires forall k :: 0 <= k < |run| ==> IsAlnum(run[k])
    ensures Runs(current, run + rest) == Runs(current + run, rest)
    decreases run
  {
    if run == "" {
      assert run + rest == rest && current + run == current;
    } else {
      TailOfConcat(run, rest);
      RunGoesOn(current + [run[0]], run[1..], rest);
      ConcatAssociative(current, [run[0]], run[1..]);
      assert [run[0]] + run[1..] == run;
    }
  }

  lemma RunEnds(current: string, rest: string)
    ensures Runs(current, ['_'] + rest) == (if current == "" then [] else [current]) + Runs("", rest)
  {
    assert (['_'] + rest)[1..] == rest;
  }

  lemma {:induction false} LoweredAcross(a: string, b: string)
    ensures Lowered(a + b) == Lowered(a) + Lowered(b)
  {
    if a == "" {
      assert a + b == b;
    } else {
      TailOfConcat(a, b);
      LoweredAcross(a[1..], b);
      ConcatAssociative([LowerChar(a[0])], Lowered(a[1..]), Lowered(b));
    }
  }

  lemma {:induction false} LoweredWordChars(s: string)
    requires AllWordChars(s)
    ensures Lowered(s) == s
  {
    if s != "" {
      LoweredWordChars(s[1..]);
      assert s == [s[0]] + s[1..];
    }
  }

  lemma LoweredCapitalized(current: string, w: Word)
    ensures Lowered(current + Capitalized(w)) == Lowered(current) + w
    ensures Lowered(Capitalized(w)) == w
  {
    LoweredAcross(current, Capitalized(w));
    CapitalOf(w[0]);
    LoweredWordChars(w[1..]);
    assert Capitalized(w)[1..] == w[1..] && w == [w[0]] + w[1..];
  }

  lemma RunIntoWord(current: string, w: Word, rest: string)
    ensures Runs(current, Capitalized(w) + rest) == Runs(current + Capitalized(w), rest)
  {
    CapitalOf(w[0]);
    RunGoesOn(current, Capitalized(w), rest);
  }

  lemma {:induction false} MarkedTailComponents(current: string, afterCapital: bool, words: seq<Word>)
    requires current != ""
    ensures AllLowered(Runs(current, MarkedTail(afterCapital, words))) == Glued(Lowered(current), afterCapital, words)
    decreases words
  {
    if words != [] {
      var w, rest := words[0], MarkedTail(LoneCapital(words[0]), words[1..]);
      LoweredCapitalized(current, w);
      if Seen(afterCapital, w) {
        RunEnds(current, Capitalized(w) + rest);
        RunIntoWord("", w, rest);
        assert "" + Capitalized(w) == Capitalized(w);
        TailOfConcat([current], Runs("", Capitalized(w) + rest));
        MarkedTailComponents(Capitalized(w), LoneCapital(w), words[1..]);
      } else {
        assert MarkedTail(afterCapital, words) == Capitalized(w) + rest;
        RunIntoWord(current, w, rest);
        MarkedTailComponents(current + Capitalized(w), LoneCapital(w), words[1..]);
      }
    }
  }

  /** The components of a camelCase key: its words, glued where no boundary can be seen. */
  lemma CamelComponents(words: seq<Word>)
    requires words != []
    ensures KeyComponents(Camel(words)) == Glued(words[0], false, words[1..])
  {
    var first, rest := words[0], MarkedTail(false, words[1..]);
    CamelMarked(words);
    RunGoesOn("", first, rest);
    assert "" + first == first;
    LoweredWordChars(first);
    MarkedTailComponents(first, false, words[1..]);
  }

  lemma {:induction false} GluedLength(current: string, afterCapital: bool, words: seq<Word>)
    ensures |Glued(current, afterCapital, words)| <= 1 + |words|
    ensures |Glued(current, afterCapital, words)| == 1 + |words| <==> AllSeen(afterCapital, words)
    ensures AllSeen(afterCapital, words) ==> Glued(current, afterCapital, words) == [current] + words
    decreases words
  {
    if words != [] {
      var w, rest := words[0], words[1..];
      if Seen(afterCapital, w) {
        GluedLength(w, LoneCapital(w), rest);
        assert words == [w] + rest;
      } else {
        GluedLength(current + w, LoneCapital(w), rest);
      }
    }
  }

  /** A camelCase key splits back into its words exactly when every boundary can be seen. */
  lemma CamelSplitsIffSeparable(words: seq<Word>)
    requires words != []
    ensures KeyComponents(Camel(words)) == words <==> Separable(words)
  {
    CamelComponents(words);
    GluedLength(words[0], false, words[1..]);
    assert [words[0]] + words[1..] == words;
  }

  lemma {:induction false} NoCapitalsNoMarks(prev: char, s: string)
    requires forall k :: 0 <= k < |s| ==> !IsUpper(s[k])
    ensures MarkAcronyms(prev, s) == s && MarkCamels(prev, s) == s
    decreases |s|
  {
    if s != "" {
      NoCapitalsNoMarks(s[0], s[1..]);
      assert s == [s[0]] + s[1..];
    }
  }

  lemma {:induction false} SnakeHasNoCapitals(words: seq<Word>)
    ensures forall k :: 0 <= k < |Snake(words)| ==> !IsUpper(Snake(words)[k])
  {
    if words != [] {
      assert AllWordChars(words[0]);
      SnakeHasNoCapitals(words[1..]);
      forall k | 0 <= k < |Snake(words)| ensures !IsUpper(Snake(words)[k]) {
        if k < |words[0]| {
          assert Snake(words)[k] == words[0][k];
        } else if k > |words[0]| {
          assert Snake(words)[k] == Snake(words[1..])[k - |words[0]| - 1];
        }
      }
    }
  }

  lemma {:induction false} SnakeRuns(words: seq<Word>)
    ensures Runs("", Snake(words)) == words && AllLowered(words) == words
  {
    if words != [] {
      var w := words[0];
      LoweredWordChars(w);
      SnakeRuns(words[1..]);
      assert "" + w == w && words == [w] + words[1..];
      if |words| == 1 {
        RunGoesOn("", w, "");
        assert w + "" == w;
      } else {
        ConcatAssociative(w, ['_'], Snake(words[1..]));
        RunGoesOn("", w, ['_'] + Snake(words[1..]));
        RunEnds(w, Snake(words[1..]));
      }
    }
  }

  /** A snake_case key always splits back into its words. */
  lemma SnakeSplits(words: seq<Word>)
    ensures KeyComponents(Snake(words)) == words
  {
    SnakeHasNoCapitals(words);
    NoCapitalsNoMarks(START, Snake(words));
    SnakeRuns(words);
  }

  /** Redaction does not depend on the spelling of a key whose boundaries can all be seen. */
  lemma SpellingDoesNotMatter(words: seq<Word>)
    requires words != [] && Separable(words)
    ensures IsSecretKey(Camel(words)) == IsSecretKey(Snake(words))
  {
    CamelSplitsIffSeparable(words);
    SnakeSplits(words);
  }

  // ---------------------------------------------------------------- exactly when spelling matters

  /** No word is a single letter. */
  predicate NoLoneLetters(words: seq<Word>)
  {
    forall i :: 0 <= i < |words| ==> !LoneCapital(words[i])
  }

  /** A secret word that no word beginning with a digit directly follows. */
  predicate VisibleAt(words: seq<string>, i: nat)
    requires i < |words|
  {
    words[i] in SECRET_KEY_COMPONENTS && (i + 1 == |words| || (words[i + 1] != "" && IsLower(words[i + 1][0])))
  }

  predicate Visible(words: seq<string>)
  {
    exists i :: 0 <= i < |words| && VisibleAt(words, i)
  }

  predicate HasSecret(words: seq<string>)
  {
    exists i :: 0 <= i < |words| && words[i] in SECRET_KEY_COMPONENTS
  }

  predicate HasDigit(s: string)
  {
    exists k :: 0 <= k < |s| && IsDigit(s[k])
  }

  lemma SecretsHaveNoDigits(s: string)
    requires s in SECRET_KEY_COMPONENTS
    ensures !HasDigit(s)
  {
  }

  lemma VisibleFromFirst(words: seq<string>)
    requires words != []
    ensures Visible(words) <==> VisibleAt(words, 0) || Visible(words[1..])
  {
    var rest := words[1..];
    forall i | 0 <= i < |rest| ensures VisibleAt(rest, i) <==> VisibleAt(words, i + 1) {
      assert rest[i] == words[i + 1] && (i + 1 < |rest| ==> rest[i + 1] == words[i + 2]);
    }
    if i :| 0 <= i < |words| && VisibleAt(words, i) {
      assert i > 0 ==> VisibleAt(rest, i - 1);
    }
    if i :| 0 <= i < |rest| && VisibleAt(rest, i) {
      assert VisibleAt(words, i + 1);
    }
  }

  lemma GluedOnDigit(current: string, w: Word)
    requires !IsLower(w[0])
    ensures HasDigit(current + w) && current + w !in SECRET_KEY_COMPONENTS && w !in SECRET_KEY_COMPONENTS
  {
    assert IsWordChar(w[0]);
    assert (current + w)[|current|] == w[0] && IsDigit(w[0]);
    if current + w in SECRET_KEY_COMPONENTS {
      SecretsHaveNoDigits(current + w);
    }
    if w in SECRET_KEY_COMPONENTS {
      SecretsHaveNoDigits(w);
    }
  }

  /** Among glued words, the secret ones are the visible ones. */
  lemma {:induction false} GluedSecrets(current: string, words: seq<Word>)
    requires NoLoneLetters(words)
    ensures HasSecret(Glued(current, false, words)) <==>
      (current in SECRET_KEY_COMPONENTS && (words == [] || IsLower(words[0][0]))) || Visible(words)
    decreases words
  {
    if words != [] {
      var w, rest := words[0], words[1..];
      VisibleFromFirst(words);
      assert rest != [] ==> rest[0] == words[1];
      if Seen(false, w) {
        GluedSecrets(w, rest);
        HasSecretFromFirst(current, Glued(w, false, rest));
      } else {
        GluedSecrets(current + w, rest);
        GluedOnDigit(current, w);
      }
    }
  }

  lemma HasSecretFromFirst(first: string, rest: seq<string>)
    ensures HasSecret([first] + rest) <==> first in SECRET_KEY_COMPONENTS || HasSecret(rest)
  {
    var all := [first] + rest;
    if i :| 0 <= i < |rest| && rest[i] in SECRET_KEY_COMPONENTS {
      assert all[i + 1] == rest[i];
    }
    if first in SECRET_KEY_COMPONENTS {
      assert all[0] == first;
    }
  }

  lemma {:induction false} GluedBegins(current: string, afterCapital: bool, words: seq<Word>)
    ensures Glued(current, afterCapital, words) != [] && current <= Glued(current, afterCapital, words)[0]
    decreases words
  {
    if words != [] && !Seen(afterCapital, words[0]) {
      GluedBegins(current + words[0], LoneCapital(words[0]), words[1..]);
    }
  }

  lemma DigitInPrefix(s: string, t: string)
    requires s <= t && HasDigit(s)
    ensures HasDigit(t)
  {
    var k :| 0 <= k < |s| && IsDigit(s[k]);
    assert t[k] == s[k];
  }

  /** A lost boundary leaves a digit inside a component, or in the first one. */
  lemma {:induction false} LostBoundaryShows(current: string, words: seq<Word>) returns (i: nat)
    requires NoLoneLetters(words) && !AllSeen(false, words)
    ensures var out := Glued(current, false, words);
      i < |out| && HasDigit(out[i]) && (i == 0 || IsLower(out[i][0]))
    decreases words
  {
    var w, rest := words[0], words[1..];
    if Seen(false, w) {
      i := LostBoundaryShows(w, rest);
      GluedBegins(w, false, rest);
      i := i + 1;
    } else {
      GluedOnDigit(current, w);
      GluedBegins(current + w, false, rest);
      DigitInPrefix(current + w, Glued(current + w, false, rest)[0]);
      i := 0;
    }
  }

  /** In the allowlist a digit stands only at the start of a component, and not of the first one. */
  lemma AllowlistDigits(entry: seq<string>, i: nat)
    requires entry in USAGE_COUNT_KEY_ALLOWLIST && i < |entry| && HasDigit(entry[i])
    ensures i > 0 && IsDigit(entry[i][0])
  {
  }

  /** Every usage count names its tokens where they can be seen. */
  lemma AllowlistIsVisible(entry: seq<string>)
    requires entry in USAGE_COUNT_KEY_ALLOWLIST
    ensures Visible(entry)
  {
    if entry == ["estimated", "tokens", "delta"] {
      assert VisibleAt(entry, 1);
    } else if entry == ["truncated", "by", "token", "cap"] {
      assert VisibleAt(entry, 2);
    } else {
      assert VisibleAt(entry, |entry| - 1);
    }
  }

  /** A camelCase key is a listed usage count exactly when its words are one and no boundary is lost. */
  lemma CamelListedIff(words: seq<Word>)
    requires words != [] && NoLoneLetters(words[1..])
    ensures KeyComponents(Camel(words)) in USAGE_COUNT_KEY_ALLOWLIST <==>
      words in USAGE_COUNT_KEY_ALLOWLIST && Separable(words)
  {
    CamelComponents(words);
    CamelSplitsIffSeparable(words);
    if KeyComponents(Camel(words)) in USAGE_COUNT_KEY_ALLOWLIST && !Separable(words) {
      var i := LostBoundaryShows(words[0], words[1..]);
      AllowlistDigits(KeyComponents(Camel(words)), i);
    }
  }

  /** Exactly which camelCase keys are redacted. */
  lemma CamelSecretIff(words: seq<Word>)
    requires words != [] && NoLoneLetters(words[1..])
    ensures IsSecretKey(Camel(words)) <==> Visible(words) && !(words in USAGE_COUNT_KEY_ALLOWLIST && Separable(words))
  {
    CamelListedIff(words);
    CamelComponents(words);
    GluedSecrets(words[0], words[1..]);
    VisibleFromFirst(words);
  }

  /** Exactly which snake_case keys are redacted. */
  lemma SnakeSecretIff(words: seq<Word>)
    ensures IsSecretKey(Snake(words)) <==> HasSecret(words) && words !in USAGE_COUNT_KEY_ALLOWLIST
  {
    SnakeSplits(words);
  }

  /** The words that name a secret and the usage counts that do not, spelled out as keys. */
  lemma SnakeKeysSpelled(words: seq<Word>)
    ensures IsSecretKey(Snake(words)) <==>
      && (exists i :: 0 <= i < |words| &&
            words[i] in {"token", "tokens", "secret", "secrets", "password", "passwords", "authorization",
                         "authorizations", "credential", "credentials"})
      && words !in {["input", "tokens"], ["output", "tokens"], ["cache", "creation", "input", "tokens"],
                    ["cache", "read", "input", "tokens"], ["max", "output", "tokens"], ["estimated", "tokens"],
                    ["estimated", "tokens", "delta"], ["ephemeral", "1h", "input", "tokens"],
                    ["ephemeral", "5m", "input", "tokens"], ["truncated", "by", "token", "cap"]}
  {
    SnakeSecretIff(words);
  }

  /**
    Without single-letter words after the first, the two spellings are redacted alike exactly
    when: a listed usage count loses no boundary, and any other key that names a secret names
    one that no word beginning with a digit directly follows.
   */
  lemma SpellingsAgreeIff(words: seq<Word>)
    requires words != [] && NoLoneLetters(words[1..])
    ensures IsSecretKey(Camel(words)) == IsSecretKey(Snake(words)) <==>
      if words in USAGE_COUNT_KEY_ALLOWLIST then Separable(words) else HasSecret(words) ==> Visible(words)
  {
    CamelSecretIff(words);
    SnakeSecretIff(words);
    if words in USAGE_COUNT_KEY_ALLOWLIST {
      AllowlistIsVisible(words);
    }
    if i :| 0 <= i < |words| && VisibleAt(words, i) {
      assert words[i] in SECRET_KEY_COMPONENTS;
    }
  }

  lemma SecretThenDigit(first: Word, secret: Word, digits: Word)
    requires first !in SECRET_KEY_COMPONENTS && secret in SECRET_KEY_COMPONENTS && !IsLower(digits[0])
    requires !LoneCapital(secret) && [first, secret, digits] !in USAGE_COUNT_KEY_ALLOWLIST
    ensures IsSecretKey(Snake([first, secret, digits])) && !IsSecretKey(Camel([first, secret, digits]))
  {
    var words := [first, secret, digits];
    GluedOnDigit("", digits);
    assert "" + digits == digits;
    assert words[1..] == [secret, digits] && words[1] in SECRET_KEY_COMPONENTS;
    CamelSecretIff(words);
    SnakeSecretIff(words);
  }

  /** The dangerous direction: auth_token_2 is redacted and authToken2 is not. */
  lemma SpellingCanLeak()
    ensures var words: seq<Word> := ["auth", "token", "2"]; IsSecretKey(Snake(words)) && !IsSecretKey(Camel(words))
  {
    SecretThenDigit("auth", "token", "2");
  }

  /** The harmless one: ephemeral_1h_input_tokens is a listed usage count and ephemeral1hInputTokens is redacted. */
  lemma SpellingCanMatter()
    ensures var words: seq<Word> := ["ephemeral", "1h", "input", "tokens"];
      IsSecretKey(Camel(words)) && !IsSecretKey(Snake(words))
  {
    var words: seq<Word> := ["ephemeral", "1h", "input", "tokens"];
    CamelSecretIff(words);
    SnakeSecretIff(words);
    AllowlistIsVisible(words);
    assert !Seen(false, words[1]) && words[1..][0] == words[1];
  }

  // ---------------------------------------------------------------- the walk

  datatype Json =
    | Null
    | Bool(b: bool)
    | Number(n: real)
    | Str(s: string)
    | Arr(items: seq<Json>)
    | Obj(members: seq<Member>)

  datatype Member = Member(key: string, value: Json)

  /** The same kind of value; containers of the same size, objects with the same keys in the same order. */
  predicate SameShape(v: Json, w: Json)
  {
    match v
    case Arr(items) => w.Arr? && |w.items| == |items|
    case Obj(members) =>
      w.Obj? && |w.members| == |members| && forall i :: 0 <= i < |members| ==> w.members[i].key == members[i].key
    case Str(_) => w.Str?
    case _ => w == v
  }

  function ScrubValue(v: Json): (w: Json)
    ensures SameShape(v, w)
  {
    match v
    case Arr(items) => Arr(seq(|items|, i requires 0 <= i < |items| => ScrubValue(items[i])))
    case Obj(members) => Obj(seq(|members|, i requires 0 <= i < |members| => ScrubMember(members[i])))
    case Str(s) => Str(Redact(s))
    case _ => v
  }

  function ScrubMember(m: Member): Member
  {
    Member(m.key, if IsSecretKey(m.key) then Str(MARKER) else ScrubValue(m.value))
  }

  /** Nothing in v is left to redact. */
  ghost predicate CleanValue(v: Json)
  {
    match v
    case Arr(items) => forall i :: 0 <= i < |items| ==> CleanValue(items[i])
    case Obj(members) => forall i :: 0 <= i < |members| ==> CleanMember(members[i])
    case Str(s) => Clean(s)
    case _ => true
  }

  ghost predicate CleanMember(m: Member)
  {
    if IsSecretKey(m.key) then m.value == Str(MARKER) else CleanValue(m.value)
  }

  lemma {:induction false} ScrubbedIsClean(v: Json)
    ensures CleanValue(ScrubValue(v))
  {
    match v
    case Arr(items) =>
      forall i | 0 <= i < |items| ensures CleanValue(ScrubValue(items[i])) {
        ScrubbedIsClean(items[i]);
      }
    case Obj(members) =>
      forall i | 0 <= i < |members| ensures CleanMember(ScrubMember(members[i])) {
        ScrubbedIsClean(members[i].value);
      }
    case Str(s) => RedactedIsClean(s);
    case _ =>
  }

  /** Scrubbing changes a value exactly when something in it is left to redact. */
  lemma {:induction false} ScrubChangesOnlySecrets(v: Json)
    ensures ScrubValue(v) == v <==> CleanValue(v)
  {
    match v
    case Arr(items) =>
      forall i | 0 <= i < |items| ensures ScrubValue(items[i]) == items[i] <==> CleanValue(items[i]) {
        ScrubChangesOnlySecrets(items[i]);
      }
      PointwiseEqual(items, ScrubValue(v).items);
    case Obj(members) =>
      forall i | 0 <= i < |members| ensures ScrubMember(members[i]) == members[i] <==> CleanMember(members[i]) {
        ScrubChangesOnlySecrets(members[i].value);
      }
      PointwiseEqual(members, ScrubValue(v).members);
    case Str(s) => RedactChangesOnlySecrets(s);
    case _ =>
  }

  lemma PointwiseEqual<T>(a: seq<T>, b: seq<T>)
    requires |a| == |b|
    ensures a == b <==> forall i :: 0 <= i < |a| ==> a[i] == b[i]
  {
  }

  lemma ScrubIsIdempotent(v: Json)
    ensures ScrubValue(ScrubValue(v)) == ScrubValue(v)
  {
    ScrubbedIsClean(v);
    ScrubChangesOnlySecrets(ScrubValue(v));
  }

  function Child(v: Json, i: nat): Option<Json>
  {
    match v
    case Arr(items) => if i < |items| then Some(items[i]) else None
    case Obj(members) => if i < |members| then Some(members[i].value) else None
    case _ => None
  }

  /** The value reached from v by taking these positions in turn. */
  function At(v: Json, path: seq<nat>): Option<Json>
    decreases path
  {
    if path == [] then Some(v)
    else
      match Child(v, path[0])
      case None => None
      case Some(c) => At(c, path[1..])
  }

  /** How many steps of path it takes to pass through a secret key. */
  function SecretAfter(v: Json, path: seq<nat>): (d: Option<nat>)
    ensures d.Some? ==> 0 < d.value <= |path|
    decreases path
  {
    if path == [] then None
    else if v.Obj? && path[0] < |v.members| && IsSecretKey(v.members[path[0]].key) then Some(1)
    else
      match Child(v, path[0])
      case None => None
      case Some(c) => (match SecretAfter(c, path[1..]) case None => None case Some(d) => Some(d + 1))
  }

  /**
    Everything about the scrubbed value, place by place: off the secret keys it is the
    original place scrubbed, at a secret key the marker, and beneath one nothing.
   */
  lemma {:induction false} ScrubbedAt(v: Json, path: seq<nat>)
    ensures SecretAfter(v, path).None? ==>
      At(ScrubValue(v), path) == (match At(v, path) case None => None case Some(x) => Some(ScrubValue(x)))
    ensures SecretAfter(v, path).Some? ==>
      At(ScrubValue(v), path) == if SecretAfter(v, path).value == |path| then Some(Str(MARKER)) else None
    decreases path
  {
    if path != [] {
      var i := path[0];
      if v.Obj? && i < |v.members| && IsSecretKey(v.members[i].key) {
        assert Child(ScrubValue(v), i) == Some(Str(MARKER));
        if |path| > 1 {
          assert At(Str(MARKER), path[1..]) == None;
        }
      } else if Child(v, i).Some? {
        assert Child(ScrubValue(v), i) == Some(ScrubValue(Child(v, i).value));
        ScrubbedAt(Child(v, i).value, path[1..]);
      }
    }
  }

  /** No string anywhere in a scrubbed value holds a secret of any shape. */
  lemma NoSecretSurvives(v: Json, path: seq<nat>, s: string)
    requires At(ScrubValue(v), path) == Some(Str(s))
    ensures Clean(s)
  {
    ScrubbedAt(v, path);
    if SecretAfter(v, path).None? {
      RedactedIsClean(At(v, path).value.s);
    } else {
      forall i | 0 <= i <= |MARKER| ensures FirstMatch(SHAPES, MARKER[i..]) == 0 {
        assert MARKER + "" == MARKER;
        if i < |MARKER| {
          MarkerStartsNothing("", i);
        } else {
          FirstMatchIffAny(SHAPES, "");
        }
      }
      CleanIffNoMatch(MARKER);
    }
  }
}
