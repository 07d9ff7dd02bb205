/**
  Write sets: the globs a node may write under, the manifest diff and the strays judged by
  them after the node ran, and the hook that judges each write by them before it happens.
 */
module WriteSet {
  import opened Strings
  import opened Wrappers

  // ---------------------------------------------------------------- globs

  /** The matcher: a star spans anything, slashes included; a question mark one character. */
  predicate Glob(pattern: string, s: string)
    decreases |pattern| + |s|
  {
    if pattern == "" then s == ""
    else if pattern[0] == '*' then Glob(pattern[1..], s) || (s != "" && Glob(pattern, s[1..]))
    else s != "" && (pattern[0] == '?' || pattern[0] == s[0]) && Glob(pattern[1..], s[1..])
  }

  /** What one pattern character may stand for. */
  predicate Fits(ch: char, piece: string)
  {
    ch == '*' || (|piece| == 1 && (ch == '?' || piece == [ch]))
  }

  /** s cut into as many pieces as the pattern has characters, each standing for its piece. */
  ghost predicate Cuts(pattern: string, s: string, pieces: seq<string>)
  {
    |pieces| == |pattern| && Concat(pieces) == s && forall i :: 0 <= i < |pattern| ==> Fits(pattern[i], pieces[i])
  }

  lemma {:induction false} GlobCuts(pattern: string, s: string) returns (pieces: seq<string>)
    requires Glob(pattern, s)
    ensures Cuts(pattern, s, pieces)
    decreases |pattern| + |s|
  {
    if pattern == "" {
      pieces := [];
    } else if pattern[0] == '*' && !Glob(pattern[1..], s) {
      var longer := GlobCuts(pattern, s[1..]);
      pieces := longer[0 := [s[0]] + longer[0]];
      ConcatAssociative([s[0]], longer[0], Concat(longer[1..]));
      assert pieces[1..] == longer[1..] && s == [s[0]] + s[1..];
    } else {
      var n := if pattern[0] == '*' then 0 else 1;
      var rest := GlobCuts(pattern[1..], s[n..]);
      pieces := [s[..n]] + rest;
      assert pieces[1..] == rest && s == s[..n] + s[n..];
      assert forall i :: 0 < i < |pattern| ==> pieces[i] == rest[i - 1] && pattern[i] == pattern[1..][i - 1];
    }
  }

  lemma {:induction false} CutsGlob(pattern: string, s: string, pieces: seq<string>)
    requires Cuts(pattern, s, pieces)
    ensures Glob(pattern, s)
    decreases |pattern| + |s|
  {
    if pattern != "" {
      var rest := Concat(pieces[1..]);
      assert s == pieces[0] + rest;
      if pattern[0] == '*' && pieces[0] != "" {
        var shorter := pieces[0 := pieces[0][1..]];
        assert shorter[1..] == pieces[1..];
        assert s[1..] == pieces[0][1..] + rest;
        CutsGlob(pattern, s[1..], shorter);
      } else {
        assert s[|pieces[0]|..] == rest;
        assert forall i :: 0 <= i < |pattern| - 1 ==>
          pieces[1..][i] == pieces[i + 1] && pattern[1..][i] == pattern[i + 1];
        CutsGlob(pattern[1..], rest, pieces[1..]);
      }
    }
  }

  /** The matcher accepts exactly what can be cut so that every pattern character stands for its piece. */
  lemma GlobIffCuts(pattern: string, s: string)
    ensures Glob(pattern, s) <==> exists pieces :: Cuts(pattern, s, pieces)
  {
    if Glob(pattern, s) {
      var pieces := GlobCuts(pattern, s);
    }
    if pieces :| Cuts(pattern, s, pieces) {
      CutsGlob(pattern, s, pieces);
    }
  }

  /** Every "**" replaced by "*", from the left. */
  function Collapsed(pattern: string): string
  {
    if |pattern| < 2 then pattern
    else if pattern[0] == '*' && pattern[1] == '*' then ['*'] + Collapsed(pattern[2..])
    else [pattern[0]] + Collapsed(pattern[1..])
  }

  predicate Equivalent(pattern: string, other: string, s: string)
  {
    Glob(pattern, s) == Glob(other, s)
  }

  /** Equivalent patterns stay equivalent behind one more character. */
  lemma {:induction false} EquivalentBehind(ch: char, p: string, q: string, s: string)
    requires forall t :: Equivalent(p, q, t)
    ensures Equivalent([ch] + p, [ch] + q, s)
    decreases |s|
  {
    assert ([ch] + p)[1..] == p && ([ch] + q)[1..] == q;
    assert Equivalent(p, q, s);
    if s != "" {
      assert Equivalent(p, q, s[1..]);
      EquivalentBehind(ch, p, q, s[1..]);
    }
  }

  /** Two stars are no more than one. */
  lemma {:induction false} TwoStarsAreOne(p: string, s: string)
    ensures Equivalent("**" + p, "*" + p, s)
    decreases |s|
  {
    assert ("**" + p)[1..] == "*" + p && ("*" + p)[1..] == p;
    if s != "" {
      TwoStarsAreOne(p, s[1..]);
    }
  }

  /** Rewriting stars changes nothing about what a pattern matches. */
  lemma {:induction false} CollapsingKeepsMatches(pattern: string, s: string)
    ensures Glob(Collapsed(pattern), s) <==> Glob(pattern, s)
    decreases |pattern|
  {
    if |pattern| >= 2 {
      var n := if pattern[0] == '*' && pattern[1] == '*' then 2 else 1;
      forall t ensures Equivalent(Collapsed(pattern[n..]), pattern[n..], t) {
        CollapsingKeepsMatches(pattern[n..], t);
      }
      EquivalentBehind(pattern[0], Collapsed(pattern[n..]), pattern[n..], s);
      if n == 2 {
        assert pattern == "**" + pattern[2..];
        TwoStarsAreOne(pattern[2..], s);
      } else {
        assert pattern == [pattern[0]] + pattern[1..];
      }
    }
  }

  const UNDER := "/**"

  predicate Matches(path: string, pattern: string)
  {
    Glob(Collapsed(pattern), path) || (EndsWith(pattern, UNDER) && path == pattern[..|pattern| - |UNDER|])
  }

  predicate Plain(ch: char)
  {
    ch !in {'*', '?', '['}
  }

  predicate AllPlain(s: string)
  {
    forall i :: 0 <= i < |s| ==> Plain(s[i])
  }

  lemma {:induction false} PlainPrefix(d: string, pattern: string, s: string)
    requires AllPlain(d)
    ensures Glob(d + pattern, s) <==> d <= s && Glob(pattern, s[|d|..])
    decreases |d|
  {
    if d == "" {
      assert d + pattern == pattern;
    } else {
      TailOfConcat(d, pattern);
      if s != "" && d[0] == s[0] {
        PlainPrefix(d[1..], pattern, s[1..]);
        assert d == [d[0]] + d[1..] && s == [s[0]] + s[1..];
        assert d <= s <==> d[1..] <= s[1..];
      }
    }
  }

  lemma {:induction false} StarMatchesAll(s: string)
    ensures Glob("*", s)
    decreases |s|
  {
    if s == "" {
      assert "*"[1..] == "";
    } else {
      StarMatchesAll(s[1..]);
    }
  }

  /** A plain directory's grant covers the directory and everything under it, and nothing else. */
  lemma GrantCoversExactly(d: string, path: string)
    requires AllPlain(d)
    ensures Matches(path, d + UNDER) <==> path == d || StartsWith(path, d + "/")
  {
    var pattern := d + UNDER;
    CollapsingKeepsMatches(pattern, path);
    assert pattern == (d + "/") + "**";
    PlainPrefix(d + "/", "**", path);
    if d + "/" <= path {
      var rest := path[|d| + 1..];
      TwoStarsAreOne("", rest);
      assert "**" + "" == "**" && "*" + "" == "*";
      StarMatchesAll(rest);
    }
    assert EndsWith(pattern, UNDER) && pattern[..|pattern| - |UNDER|] == d;
  }

  /** A pattern that begins with a plain character other than a slash covers no absolute path. */
  lemma AnchoredGrantsStayRelative(path: string, pattern: string)
    requires pattern != "" && Plain(pattern[0]) && pattern[0] != '/' && StartsWith(path, "/")
    ensures !Matches(path, pattern)
  {
    CollapsingKeepsMatches(pattern, path);
    if EndsWith(pattern, UNDER) && |pattern| > |UNDER| {
      assert pattern[..|pattern| - |UNDER|][0] == pattern[0];
    }
  }

  /** A bare double star covers everything, absolute paths too. */
  lemma UnanchoredGrantCoversAll(path: string)
    ensures Matches(path, "**")
  {
    CollapsingKeepsMatches("**", path);
    TwoStarsAreOne("", path);
    assert "**" + "" == "**" && "*" + "" == "*";
    StarMatchesAll(path);
  }

  // ---------------------------------------------------------------- the scan

  predicate IsCovered(path: string, allowed: seq<string>)
  {
    exists i :: 0 <= i < |allowed| && Matches(path, allowed[i])
  }

  /** The changed paths that no glob covers, in the order given. */
  function StrayPaths(changed: seq<string>, allowed: seq<string>): seq<string>
  {
    if changed == [] then []
    else (if IsCovered(changed[0], allowed) then [] else [changed[0]]) + StrayPaths(changed[1..], allowed)
  }

  lemma {:induction false} StrayIffUncovered(changed: seq<string>, allowed: seq<string>, path: string)
    ensures path in StrayPaths(changed, allowed) <==> path in changed && !IsCovered(path, allowed)
  {
    if changed != [] {
      StrayIffUncovered(changed[1..], allowed, path);
      assert changed == [changed[0]] + changed[1..];
    }
  }

  /** Strays keep their order and their repetitions. */
  lemma {:induction false} StraysInOrder(first: seq<string>, second: seq<string>, allowed: seq<string>)
    ensures StrayPaths(first + second, allowed) == StrayPaths(first, allowed) + StrayPaths(second, allowed)
  {
    if first == [] {
      assert first + second == second;
    } else {
      TailOfConcat(first, second);
      StraysInOrder(first[1..], second, allowed);
    }
  }

  /** A larger allow list only ever takes strays away. */
  lemma LargerListsCoverMore(path: string, allowed: seq<string>, larger: seq<string>)
    requires forall g :: g in allowed ==> g in larger
    ensures IsCovered(path, allowed) ==> IsCovered(path, larger)
  {
    if i :| 0 <= i < |allowed| && Matches(path, allowed[i]) {
      assert allowed[i] in allowed;
      var j :| 0 <= j < |larger| && larger[j] == allowed[i];
    }
  }

  type Manifest = map<string, string>

  /** The paths added, changed or removed. */
  function DiffManifests(before: Manifest, after: Manifest): set<string>
  {
    (set path | path in after && (path !in before || before[path] != after[path])) + (before.Keys - after.Keys)
  }

  predicate Ascending(paths: seq<string>)
  {
    forall i, j :: 0 <= i < j < |paths| ==> Before(paths[i], paths[j])
  }

  /** A path put before the first that comes after it. */
  function Placed(path: string, paths: seq<string>): seq<string>
  {
    if paths == [] || Before(path, paths[0]) then [path] + paths else [paths[0]] + Placed(path, paths[1..])
  }

  lemma {:induction false} PlacedAscends(path: string, paths: seq<string>)
    requires Ascending(paths) && path !in paths
    ensures Ascending(Placed(path, paths))
    ensures forall p :: p in Placed(path, paths) <==> p == path || p in paths
  {
    if paths != [] {
      var first, rest := paths[0], paths[1..];
      assert paths == [first] + rest;
      BeforeIsTotal(path, first);
      if Before(path, first) {
        forall j | 0 <= j < |paths| ensures Before(path, paths[j]) {
          if j > 0 {
            BeforeIsTransitive(path, first, paths[j]);
          }
        }
      } else {
        PlacedAscends(path, rest);
        var placed := Placed(path, rest);
        forall j | 0 <= j < |placed| ensures Before(first, placed[j]) {
          assert placed[j] in placed;
          if placed[j] != path {
            var k :| 0 <= k < |rest| && rest[k] == placed[j];
            assert paths[k + 1] == rest[k];
          }
        }
      }
    }
  }

  /** The differing paths in ascending order, each once. */
  method DiffList(before: Manifest, after: Manifest) returns (paths: seq<string>)
    ensures Ascending(paths)
    ensures forall p :: p in paths <==> p in DiffManifests(before, after)
  {
    paths := [];
    var left := DiffManifests(before, after);
    while left != {}
      invariant left <= DiffManifests(before, after) && Ascending(paths)
      invariant forall p :: p in paths <==> p in DiffManifests(before, after) - left
    {
      var path :| path in left;
      PlacedAscends(path, paths);
      paths := Placed(path, paths);
      left := left - {path};
    }
  }

  function Digest(m: Manifest, path: string): Option<string>
  {
    if path in m then Some(m[path]) else None
  }

  /** A path is in the diff exactly when the two manifests say different things about it. */
  lemma DiffIsDisagreement(before: Manifest, after: Manifest, path: string)
    ensures path in DiffManifests(before, after) <==> Digest(before, path) != Digest(after, path)
  {
  }

  /** The diff is empty only for equal manifests, and a change seen over two spans is seen in one of them. */
  lemma DiffIsAMeasure(first: Manifest, second: Manifest, third: Manifest)
    ensures DiffManifests(first, second) == {} <==> first == second
    ensures DiffManifests(first, second) == DiffManifests(second, first)
    ensures DiffManifests(first, third) <= DiffManifests(first, second) + DiffManifests(second, third)
  {
    forall path
      ensures path in DiffManifests(first, second) <==> Digest(first, path) != Digest(second, path)
      ensures path in DiffManifests(second, first) <==> Digest(first, path) != Digest(second, path)
      ensures path in DiffManifests(second, third) <==> Digest(second, path) != Digest(third, path)
      ensures path in DiffManifests(first, third) <==> Digest(first, path) != Digest(third, path)
    {
      DiffIsDisagreement(first, second, path);
    }
    if DiffManifests(first, second) == {} {
      forall path ensures Digest(first, path) == Digest(second, path) {
        assert path !in DiffManifests(first, second);
      }
      SameDigestsSameManifest(first, second);
    }
  }

  lemma SameDigestsSameManifest(first: Manifest, second: Manifest)
    requires forall path :: Digest(first, path) == Digest(second, path)
    ensures first == second
  {
    forall path ensures path in first <==> path in second {
      assert Digest(first, path) == Digest(second, path);
    }
    forall path | path in first ensures first[path] == second[path] {
      assert Digest(first, path) == Digest(second, path);
    }
  }

  // ---------------------------------------------------------------- the hook

  /** A resolved absolute path: its components below the file system's root. */
  type Path = p: seq<string> | AllNames(p) witness []

  predicate AllNames(p: seq<string>)
  {
    AllFree(p, '/') && forall i :: 0 <= i < |p| ==> p[i] !in {"", ".", ".."}
  }

  datatype Decision = Allow | NoPath | OutsideRoots | Uncovered

  datatype ToolInput = ToolInput(filePath: Option<string>, notebookPath: Option<string>)

  function Given(text: Option<string>): string
  {
    if text.Some? then text.value else ""
  }

  function Posix(p: seq<string>): string
  {
    Join(p, '/')
  }

  /** How a target is addressed inside the first root strictly above it. */
  function AddressedWithin(target: Path, root: Path, extraRoots: seq<Path>): Option<string>
  {
    if root < target then Some(Posix(target[|root|..]))
    else if exists i :: 0 <= i < |extraRoots| && extraRoots[i] < target then Some("/" + Posix(target))
    else None
  }

  function Judge(target: Path, root: Path, extraRoots: seq<Path>, allowed: seq<string>): Decision
  {
    match AddressedWithin(target, root, extraRoots)
    case None => OutsideRoots
    case Some(address) => if IsCovered(address, allowed) then Allow else Uncovered
  }

  /** The hook; resolve is what the operating system makes of a path text. */
  function DenyOutsideWriteSet(input: ToolInput, resolve: string -> Path,
                               root: Path, extraRoots: seq<Path>, allowed: seq<string>): Decision
  {
    var text := if Given(input.filePath) != "" then Given(input.filePath) else Given(input.notebookPath);
    if text == "" then NoPath else Judge(resolve(text), root, extraRoots, allowed)
  }

  /** A relative address never begins with a slash, so the two kinds of address cannot be confused. */
  lemma RelativeIsNotAbsolute(p: Path, n: nat)
    requires n < |p|
    ensures !StartsWith(Posix(p[n..]), "/")
  {
    var q := p[n..];
    assert q[0] == p[n] && Free(p[n], '/') && p[n] != "";
    assert Posix(q)[0] == q[0][0];
  }

  /** Different targets inside a root have different addresses. */
  lemma AddressesAreUnique(first: Path, second: Path, root: Path)
    requires root < first && root < second && Posix(first[|root|..]) == Posix(second[|root|..])
    ensures first == second
  {
    var p, q := first[|root|..], second[|root|..];
    assert AllFree(p, '/') && AllFree(q, '/');
    SplitAfterJoin(p, '/');
    SplitAfterJoin(q, '/');
    assert first == root + p && second == root + q;
  }

  /** Inside the root the hook and the scan agree: a write is allowed exactly when it would not be a stray. */
  lemma HookAgreesWithScan(target: Path, root: Path, extraRoots: seq<Path>, allowed: seq<string>, changed: seq<string>)
    requires root < target && Posix(target[|root|..]) in changed
    ensures Judge(target, root, extraRoots, allowed) == Allow <==>
      Posix(target[|root|..]) !in StrayPaths(changed, allowed)
  {
    StrayIffUncovered(changed, allowed, Posix(target[|root|..]));
  }

  /** So what the hook allows inside the root is no stray under any larger list either. */
  lemma AllowedIsNeverStray(target: Path, root: Path, extraRoots: seq<Path>,
                            allowed: seq<string>, larger: seq<string>, changed: seq<string>)
    requires root < target && Judge(target, root, extraRoots, allowed) == Allow
    requires forall g :: g in allowed ==> g in larger
    ensures Posix(target[|root|..]) !in StrayPaths(changed, larger)
  {
    LargerListsCoverMore(Posix(target[|root|..]), allowed, larger);
    StrayIffUncovered(changed, larger, Posix(target[|root|..]));
  }

  /** Outside the root, a write needs an extra root and a grant that can name an absolute path. */
  lemma OutsideNeedsAnAbsoluteGrant(target: Path, root: Path, extraRoots: seq<Path>, allowed: seq<string>)
    requires !(root < target)
    ensures Judge(target, root, extraRoots, allowed) == Allow <==>
      && (exists i :: 0 <= i < |extraRoots| && extraRoots[i] < target)
      && exists i :: 0 <= i < |allowed| && Matches("/" + Posix(target), allowed[i])
           && allowed[i] != "" && (allowed[i][0] == '/' || !Plain(allowed[i][0]))
  {
    var address := "/" + Posix(target);
    forall i | 0 <= i < |allowed| && Matches(address, allowed[i])
      ensures allowed[i] != "" && (allowed[i][0] == '/' || !Plain(allowed[i][0]))
    {
      if allowed[i] != "" && Plain(allowed[i][0]) && allowed[i][0] != '/' {
        AnchoredGrantsStayRelative(address, allowed[i]);
      }
    }
  }

  /** Every allowed write is strictly inside some root, whatever the grants; no grants allow nothing. */
  lemma AllowedIsContained(input: ToolInput, resolve: string -> Path,
                           root: Path, extraRoots: seq<Path>, allowed: seq<string>)
    requires DenyOutsideWriteSet(input, resolve, root, extraRoots, allowed) == Allow
    ensures allowed != [] && exists text, above: Path ::
      && text != "" && Some(text) in {input.filePath, input.notebookPath}
      && above in [root] + extraRoots && above < resolve(text)
  {
    var text := if Given(input.filePath) != "" then Given(input.filePath) else Given(input.notebookPath);
    var target := resolve(text);
    if root < target {
      assert root in [root] + extraRoots && text != "" && root < resolve(text) &&
             Some(text) in {input.filePath, input.notebookPath};
    } else {
      var i :| 0 <= i < |extraRoots| && extraRoots[i] < target;
      assert extraRoots[i] in [root] + extraRoots;
    }
  }
}
