/**
  Where an admitted node may write: the write set that validation accepts, the grants made
  from it for one dispatch, and the hook that judges each write by them.
 */
module Containment {
  import opened Strings
  import opened Wrappers
  import opened WriteSet
  import Admission

  ghost predicate Accepted(writeSet: seq<string>)
  {
    forall i :: 0 <= i < |writeSet| ==> Admission.WriteFaultOf(writeSet[i]).None?
  }

  // ---------------------------------------------------------------- what an accepted entry can name

  lemma FirstPieceLeads(s: string, sep: char)
    ensures Split(s, sep)[0] <= s
    ensures Split(s, sep)[0] == "" ==> s == "" || s[0] == sep
  {
  }

  /** It begins with a plain character other than a slash. */
  lemma AcceptedIsAnchored(entry: string)
    requires Admission.WriteFaultOf(entry).None?
    ensures entry != "" && Plain(entry[0]) && entry[0] != '/'
  {
    var parts := Split(entry, '/');
    FirstPieceLeads(entry, '/');
    assert Admission.Segments([""]) == [];
    if parts[0] != "." {
      assert Admission.Segments(parts)[0] == parts[0];
      assert parts[0][0] in parts[0];
    }
  }

  /** So it never covers an absolute path, whatever globs follow. */
  lemma AcceptedStaysRelative(path: string, entry: string)
    requires Admission.WriteFaultOf(entry).None? && StartsWith(path, "/")
    ensures !Matches(path, entry)
  {
    AcceptedIsAnchored(entry);
    AnchoredGrantsStayRelative(path, entry);
  }

  lemma AcceptedCoversNothingAbsolute(path: string, writeSet: seq<string>)
    requires Accepted(writeSet) && StartsWith(path, "/")
    ensures !IsCovered(path, writeSet)
  {
    forall i | 0 <= i < |writeSet| ensures !Matches(path, writeSet[i]) {
      AcceptedStaysRelative(path, writeSet[i]);
    }
  }

  /** An accepted write set by itself allows no write outside the root, whatever the extra roots. */
  lemma AcceptedAllowsNothingOutside(input: ToolInput, resolve: string -> Path, root: Path, extraRoots: seq<Path>,
        writeSet: seq<string>)
    requires Accepted(writeSet) && DenyOutsideWriteSet(input, resolve, root, extraRoots, writeSet) == Allow
    ensures exists text :: text != "" && Some(text) in {input.filePath, input.notebookPath} && root < resolve(text)
  {
    var text := if Given(input.filePath) != "" then Given(input.filePath) else Given(input.notebookPath);
    if !(root < resolve(text)) {
      AcceptedCoversNothingAbsolute("/" + Posix(resolve(text)), writeSet);
    } else {
      assert Some(text) in {input.filePath, input.notebookPath};
    }
  }

  // ---------------------------------------------------------------- the grants of one dispatch

  datatype Fault = NodeDirOutsideRoot

  function NodeGrant(root: Path, nodeDir: Path): string
    requires root <= nodeDir
  {
    (if root == nodeDir then "." else Posix(nodeDir[|root|..])) + UNDER
  }

  function ExtraGrants(extraRoots: seq<Path>): seq<string>
  {
    seq(|extraRoots|, i requires 0 <= i < |extraRoots| => "/" + Posix(extraRoots[i]) + UNDER)
  }

  /** The write set, the node's own directory, and each extra root wholesale. */
  function AllowedWrites(root: Path, nodeDir: Path, extraRoots: seq<Path>, writeSet: seq<string>)
    : Result<seq<string>, Fault>
  {
    if root <= nodeDir then Ok(writeSet + [NodeGrant(root, nodeDir)] + ExtraGrants(extraRoots))
    else Raised(NodeDirOutsideRoot)
  }

  lemma CoveredByEither(path: string, first: seq<string>, second: seq<string>)
    ensures IsCovered(path, first + second) <==> IsCovered(path, first) || IsCovered(path, second)
  {
    var all := first + second;
    assert forall i :: 0 <= i < |first| ==> all[i] == first[i];
    assert forall i :: 0 <= i < |second| ==> all[|first| + i] == second[i];
    if i :| 0 <= i < |all| && Matches(path, all[i]) {
      assert if i < |first| then Matches(path, first[i]) else Matches(path, second[i - |first|]);
    }
    if i :| 0 <= i < |second| && Matches(path, second[i]) {
      assert Matches(path, all[|first| + i]);
    }
  }

  lemma CoveredByGrants(path: string, root: Path, nodeDir: Path, extraRoots: seq<Path>, writeSet: seq<string>)
    requires root <= nodeDir
    ensures IsCovered(path, AllowedWrites(root, nodeDir, extraRoots, writeSet).value) <==>
      IsCovered(path, writeSet) || Matches(path, NodeGrant(root, nodeDir)) || IsCovered(path, ExtraGrants(extraRoots))
  {
    var own := [NodeGrant(root, nodeDir)];
    CoveredByEither(path, writeSet + own, ExtraGrants(extraRoots));
    CoveredByEither(path, writeSet, own);
    assert Matches(path, own[0]) ==> IsCovered(path, own);
  }

  // ---------------------------------------------------------------- inside the root

  /** A grant that begins with a slash covers no relative path. */
  lemma AbsoluteGrantsStayAbsolute(path: string, pattern: string)
    requires StartsWith(pattern, "/") && |pattern| > |UNDER| && !StartsWith(path, "/")
    ensures !Matches(path, pattern)
  {
    CollapsingKeepsMatches(pattern, path);
    if EndsWith(pattern, UNDER) {
      assert pattern[..|pattern| - |UNDER|][0] == '/';
    }
  }

  lemma ExtraGrantsStayAbsolute(path: string, extraRoots: seq<Path>)
    requires !StartsWith(path, "/")
    ensures !IsCovered(path, ExtraGrants(extraRoots))
  {
    forall i | 0 <= i < |extraRoots| ensures !Matches(path, ExtraGrants(extraRoots)[i]) {
      AbsoluteGrantsStayAbsolute(path, ExtraGrants(extraRoots)[i]);
    }
  }

  /** The node's own grant covers its directory and everything under it, component by component. */
  lemma NodeGrantCoversExactly(target: Path, root: Path, nodeDir: Path)
    requires root < nodeDir && root < target && AllPlain(Posix(nodeDir[|root|..]))
    ensures Matches(Posix(target[|root|..]), NodeGrant(root, nodeDir)) <==> nodeDir <= target
  {
    var p, q := nodeDir[|root|..], target[|root|..];
    assert AllFree(p, '/') && AllFree(q, '/') && nodeDir == root + p && target == root + q;
    GrantCoversExactly(Posix(p), Posix(q));
    JoinContinuesIff(p, q, '/');
    SplitAfterJoin(p, '/');
    SplitAfterJoin(q, '/');
    assert Posix(p) == Posix(q) <==> p == q;
    assert p <= q <==> nodeDir <= target;
  }

  /** The root as the node's own directory grants nothing: no address begins with a dot that is a whole component. */
  lemma RootGrantsNothing(target: Path, n: nat, root: Path)
    requires n < |target|
    ensures !Matches(Posix(target[n..]), NodeGrant(root, root))
    ensures !Matches("/" + Posix(target), NodeGrant(root, root))
  {
    var q := target[n..];
    assert q[0] == target[n];
    GrantCoversExactly(".", Posix(q));
    GrantCoversExactly(".", "/" + Posix(target));
    SplitAfterJoin(q, '/');
    SplitPeels(".", "", '/');
    if StartsWith(Posix(q), "./") {
      var rest := Posix(q)[2..];
      assert Posix(q) == "." + ['/'] + rest;
      SplitPeels(".", rest, '/');
    }
  }

  // ---------------------------------------------------------------- outside the root

  /** A star after any pattern covers the pattern's own text, whatever follows it. */
  lemma {:induction false} CoversItsOwn(d: string, rest: string)
    ensures Glob(d + "*", d + rest)
    decreases |d|
  {
    if d == "" {
      assert d + "*" == "*" && d + rest == rest;
      StarMatchesAll(rest);
    } else {
      TailOfConcat(d, "*");
      TailOfConcat(d, rest);
      CoversItsOwn(d[1..], rest);
      if d[0] == '*' {
        GlobSkips(d + "*", d + rest);
      }
    }
  }

  lemma GlobSkips(pattern: string, s: string)
    requires pattern != "" && s != "" && pattern[0] == '*' && Glob(pattern[1..], s[1..])
    ensures Glob(pattern, s)
  {
    assert Glob(pattern, s[1..]);
  }

  lemma GrantCoversUnder(d: string, path: string)
    requires StartsWith(path, d + "/")
    ensures Matches(path, d + UNDER)
  {
    var e := d + "/";
    var rest := path[|e|..];
    assert path == e + rest && d + UNDER == e + "**";
    CoversItsOwn(e, rest);
    assert (e + "*") + "*" == e + "**";
    DoubledStar(e, path);
    CollapsingKeepsMatches(d + UNDER, path);
  }

  lemma {:induction false} DoubledStar(d: string, s: string)
    ensures Glob(d + "*", s) ==> Glob(d + "**", s)
    decreases |d| + |s|
  {
    if d == "" {
      TwoStarsAreOne("", s);
      assert "**" + "" == "**" && "*" + "" == "*" && d + "*" == "*" && d + "**" == "**";
    } else {
      TailOfConcat(d, "*");
      TailOfConcat(d, "**");
      DoubledStar(d[1..], s);
      if s != "" {
        DoubledStar(d[1..], s[1..]);
        DoubledStar(d, s[1..]);
      }
    }
  }

  lemma UnderExtraRoot(target: Path, extra: Path)
    requires extra != [] && extra < target
    ensures StartsWith("/" + Posix(target), ("/" + Posix(extra)) + "/")
  {
    ProperContinues(extra, target, '/');
    var s, t := Posix(extra) + "/", Posix(target);
    assert s <= t && ("/" + Posix(extra)) + "/" == "/" + s;
    assert ("/" + t)[..|s| + 1] == "/" + s;
  }

  /** Every strict descendant of an extra root other than the file system's is granted. */
  lemma ExtraRootIsGranted(target: Path, extraRoots: seq<Path>, i: nat)
    requires i < |extraRoots| && extraRoots[i] != [] && extraRoots[i] < target
    ensures IsCovered("/" + Posix(target), ExtraGrants(extraRoots))
  {
    UnderExtraRoot(target, extraRoots[i]);
    GrantCoversUnder("/" + Posix(extraRoots[i]), "/" + Posix(target));
    assert Matches("/" + Posix(target), ExtraGrants(extraRoots)[i]);
  }

  lemma NodeGrantStaysRelative(path: string, root: Path, nodeDir: Path)
    requires root < nodeDir && AllPlain(Posix(nodeDir[|root|..])) && StartsWith(path, "/")
    ensures !Matches(path, NodeGrant(root, nodeDir))
  {
    var rel := Posix(nodeDir[|root|..]);
    RelativeIsNotAbsolute(nodeDir, |root|);
    assert nodeDir[|root|] != "" && rel != "" by {
      assert nodeDir[|root|..][0] == nodeDir[|root|];
    }
    assert (rel + UNDER)[0] == rel[0];
    AnchoredGrantsStayRelative(path, rel + UNDER);
  }

  /**
    What a node whose write set was accepted may write: inside the root what its write set
    covers and its own directory, outside it whatever is strictly under an extra root.
   */
  lemma AcceptedNodeWritesExactly(target: Path, root: Path, nodeDir: Path, extraRoots: seq<Path>, writeSet: seq<string>)
    requires Accepted(writeSet)
    requires root <= nodeDir && AllPlain(Posix(nodeDir[|root|..]))
    requires forall i :: 0 <= i < |extraRoots| ==> extraRoots[i] != [] && Free(Posix(extraRoots[i]), '[')
    ensures Judge(target, root, extraRoots, AllowedWrites(root, nodeDir, extraRoots, writeSet).value) == Allow <==>
      if root < target then IsCovered(Posix(target[|root|..]), writeSet) || root < nodeDir <= target
      else exists i :: 0 <= i < |extraRoots| && extraRoots[i] < target
  {
    if root < target {
      var path := Posix(target[|root|..]);
      RelativeIsNotAbsolute(target, |root|);
      CoveredByGrants(path, root, nodeDir, extraRoots, writeSet);
      if root < nodeDir {
        NodeGrantCoversExactly(target, root, nodeDir);
      } else {
        RootGrantsNothing(target, |root|, root);
      }
      ExtraGrantsStayAbsolute(path, extraRoots);
    } else {
      var path := "/" + Posix(target);
      CoveredByGrants(path, root, nodeDir, extraRoots, writeSet);
      if i :| 0 <= i < |extraRoots| && extraRoots[i] < target {
        ExtraRootIsGranted(target, extraRoots, i);
      }
    }
  }

  /** The file system's root as an extra root grants nothing: its grant is spelled with two slashes. */
  lemma RootDirectoryGrantsNothing(target: Path, root: Path, nodeDir: Path, writeSet: seq<string>)
    requires Accepted(writeSet) && !(root < target)
    requires root < nodeDir && AllPlain(Posix(nodeDir[|root|..]))
    ensures Judge(target, root, [[]], AllowedWrites(root, nodeDir, [[]], writeSet).value) != Allow
  {
    var path, grant := "/" + Posix(target), "//**";
    CoveredByGrants(path, root, nodeDir, [[]], writeSet);
    AcceptedCoversNothingAbsolute(path, writeSet);
    NodeGrantStaysRelative(path, root, nodeDir);
    assert "/" + Posix([]) + UNDER == grant && ExtraGrants([[]]) == [grant];
    CollapsingKeepsMatches(grant, path);
    if target != [] {
      RelativeIsNotAbsolute(target, 0);
      assert target[0..] == target;
      assert path[1..] == Posix(target) && grant[1..] == "/**";
    }
  }
}
