/**
  Staging and pushing a fleet: the tally and the push intents made from it, the refusals
  before anything is pushed, one apply, and any number of applies cut short by crashes.
 */
module Push {
  import opened Strings
  import opened Wrappers

  /** A resolved path, component by component. */
  type Path = seq<string>

  type Sha = string

  function Name(p: Path): string
  {
    if p == [] then "" else p[|p| - 1]
  }

  predicate IsScratchTarget(repo: Path, root: Path)
  {
    root + ["origin"] <= repo
  }

  /** A target lies in the tree below the origin directory of the scratch directory. */
  lemma ScratchIffBelowOrigin(repo: Path, root: Path)
    ensures IsScratchTarget(repo, root) <==> exists rest :: repo == (root + ["origin"]) + rest
  {
    if IsScratchTarget(repo, root) {
      assert repo == (root + ["origin"]) + repo[|root| + 1..];
    }
  }

  const GIT := ".git"

  function WithoutSuffix(name: string, suffix: string): string
  {
    if EndsWith(name, suffix) then name[..|name| - |suffix|] else name
  }

  /** The name of the worktree a repository is cloned into. */
  function Worktree(repo: Path): string
  {
    WithoutSuffix(Name(repo), GIT)
  }

  // ---------------------------------------------------------------- staging

  datatype Status = Passed | Failed | WorkFailed

  datatype Row = Row(repo: Path, status: Status, headSha: Sha)

  datatype Summary = Summary(passed: nat, failed: nat, rows: seq<Row>)

  datatype Intent = Intent(repo: Path, headSha: Sha, dedupKey: string)

  function DedupKey(repo: Path, headSha: Sha): string
  {
    Name(repo) + (['-'] + headSha)
  }

  function PassedRows(rows: seq<Row>): seq<Row>
  {
    if rows == [] then []
    else (if rows[0].status.Passed? then [rows[0]] else []) + PassedRows(rows[1..])
  }

  function ReduceTally(rows: seq<Row>): (s: Summary)
    ensures s.passed + s.failed == |rows|
  {
    PassedAreFewer(rows);
    Summary(|PassedRows(rows)|, |rows| - |PassedRows(rows)|, rows)
  }

  lemma {:induction false} PassedAreFewer(rows: seq<Row>)
    ensures |PassedRows(rows)| <= |rows|
    ensures forall r :: r in PassedRows(rows) <==> r in rows && r.status.Passed?
  {
    if rows != [] {
      PassedAreFewer(rows[1..]);
      assert rows == [rows[0]] + rows[1..];
    }
  }

  function Stage(summary: Summary): seq<Intent>
  {
    var rows := PassedRows(summary.rows);
    seq(|rows|, i requires 0 <= i < |rows| =>
      Intent(rows[i].repo, rows[i].headSha, DedupKey(rows[i].repo, rows[i].headSha)))
  }

  /** As many intents as passed, each from a row that passed, and one for every such row. */
  lemma StageCoversThePassed(rows: seq<Row>)
    ensures |Stage(ReduceTally(rows))| == ReduceTally(rows).passed
    ensures forall repo, sha ::
      Intent(repo, sha, DedupKey(repo, sha)) in Stage(ReduceTally(rows)) <==> Row(repo, Passed, sha) in rows
  {
    PassedAreFewer(rows);
    var passed, staged := PassedRows(rows), Stage(ReduceTally(rows));
    forall repo, sha
      ensures Intent(repo, sha, DedupKey(repo, sha)) in staged <==> Row(repo, Passed, sha) in passed
    {
      var intent := Intent(repo, sha, DedupKey(repo, sha));
      if intent in staged {
        var i :| 0 <= i < |staged| && staged[i] == intent;
        assert passed[i] in passed && passed[i] == Row(repo, Passed, sha);
      }
      if Row(repo, Passed, sha) in passed {
        var i :| 0 <= i < |passed| && passed[i] == Row(repo, Passed, sha);
        assert staged[i] == intent;
      }
    }
  }

  // ---------------------------------------------------------------- one apply

  /**
    What apply reads and changes: the default branch of each repository, the HEAD of each
    worktree, the done markers, and the pushes made so far.
   */
  datatype World = World(refs: map<Path, Sha>, heads: map<string, Sha>, markers: set<string>, pushes: seq<Path>)

  datatype Outcome = AlreadyDone | AlreadyPresent | Pushed

  datatype Refusal = NotScratch(repo: Path) | NoRepository | NoWorktree | SharedBasename(first: Path, second: Path)

  function ApplyOne(w: World, intent: Intent): (World, Result<Outcome, Refusal>)
  {
    if intent.dedupKey in w.markers then (w, Ok(AlreadyDone))
    else if intent.repo !in w.refs then (w, Raised(NoRepository))
    else if w.refs[intent.repo] == intent.headSha then (Marked(w, intent), Ok(AlreadyPresent))
    else if Worktree(intent.repo) !in w.heads then (w, Raised(NoWorktree))
    else (Marked(PushedTo(w, intent.repo), intent), Ok(Pushed))
  }

  function PushedTo(w: World, repo: Path): World
    requires Worktree(repo) in w.heads
  {
    w.(refs := w.refs[repo := w.heads[Worktree(repo)]], pushes := w.pushes + [repo])
  }

  function Marked(w: World, intent: Intent): World
  {
    w.(markers := w.markers + {intent.dedupKey})
  }

  /** The intents in turn, as far as they go. */
  function ApplyEach(w: World, intents: seq<Intent>): (World, Result<seq<Outcome>, Refusal>)
  {
    if intents == [] then (w, Ok([]))
    else
      var (before, sofar) := ApplyEach(w, intents[..|intents| - 1]);
      match sofar
      case Raised(refusal) => (before, Raised(refusal))
      case Ok(outcomes) =>
        var (after, one) := ApplyOne(before, intents[|intents| - 1]);
        match one
        case Raised(refusal) => (after, Raised(refusal))
        case Ok(outcome) => (after, Ok(outcomes + [outcome]))
  }

  predicate AllScratch(intents: seq<Intent>, root: Path)
  {
    forall i :: 0 <= i < |intents| ==> IsScratchTarget(intents[i].repo, root)
  }

  /** The target is there and its worktree's HEAD is the staged commit. */
  predicate ReadyOne(w: World, intent: Intent)
  {
    && intent.repo in w.refs
    && Worktree(intent.repo) in w.heads && w.heads[Worktree(intent.repo)] == intent.headSha
  }

  predicate Ready(w: World, intents: seq<Intent>)
  {
    forall i :: 0 <= i < |intents| ==> ReadyOne(w, intents[i])
  }

  /** The k-th intent is the first with its key, and its key is not marked. */
  predicate Leads(w: World, intents: seq<Intent>, k: nat)
    requires k < |intents|
  {
    && intents[k].dedupKey !in w.markers
    && forall j :: 0 <= j < k ==> intents[j].dedupKey != intents[k].dedupKey
  }

  /** Some leading intent is for this repository. */
  predicate Led(w: World, intents: seq<Intent>, repo: Path)
  {
    exists k :: 0 <= k < |intents| && intents[k].repo == repo && Leads(w, intents, k)
  }

  predicate HasKey(intents: seq<Intent>, key: string)
  {
    exists i :: 0 <= i < |intents| && intents[i].dedupKey == key
  }

  /** Leading intents' targets moved to the HEAD of their worktree, all keys marked, nothing else. */
  ghost predicate AppliedExactly(w: World, intents: seq<Intent>, w': World)
  {
    && w'.heads == w.heads && w'.refs.Keys == w.refs.Keys
    && (forall key :: key in w'.markers <==> key in w.markers || HasKey(intents, key))
    && forall repo :: repo in w.refs ==> w'.refs[repo] == Destined(w, intents, repo)
  }

  /** Where a repository's branch ends up. */
  function Destined(w: World, intents: seq<Intent>, repo: Path): Sha
    requires repo in w.refs
  {
    if Led(w, intents, repo) && Worktree(repo) in w.heads then w.heads[Worktree(repo)] else w.refs[repo]
  }

  /** Exactly what one apply does from a ready state. */
  lemma {:induction false} ApplyEachExactly(w: World, intents: seq<Intent>)
    requires Ready(w, intents)
    ensures ApplyEach(w, intents).1.Ok? && AppliedExactly(w, intents, ApplyEach(w, intents).0)
  {
    if intents != [] {
      var n := |intents| - 1;
      ApplyEachExactly(w, intents[..n]);
      ApplyOneExactly(w, intents, ApplyEach(w, intents[..n]).0);
    }
  }

  /** One intent brings its target to the commit unless its key was marked, and marks it. */
  lemma OneEffect(w: World, intent: Intent)
    requires ReadyOne(w, intent)
    ensures var (w', r) := ApplyOne(w, intent);
      && r.Ok? && w'.heads == w.heads && w'.markers == w.markers + {intent.dedupKey}
      && w'.refs == if intent.dedupKey in w.markers then w.refs else w.refs[intent.repo := intent.headSha]
  {
  }

  lemma ApplyOneExactly(w: World, intents: seq<Intent>, before: World)
    requires intents != [] && Ready(w, intents) && AppliedExactly(w, intents[..|intents| - 1], before)
    ensures ApplyOne(before, intents[|intents| - 1]).1.Ok?
    ensures AppliedExactly(w, intents, ApplyOne(before, intents[|intents| - 1]).0)
  {
    var n := |intents| - 1;
    var last := intents[n];
    var after := ApplyOne(before, last).0;
    assert ReadyOne(w, last);
    OneEffect(before, last);
    LeadsIffUnmarked(w, intents, before);
    forall repo | repo in w.refs ensures after.refs[repo] == Destined(w, intents, repo) {
      DestinedOneMore(w, intents, repo);
    }
    forall key ensures key in after.markers <==> key in w.markers || HasKey(intents, key) {
      HasKeyOneMore(intents, key);
    }
  }

  lemma DestinedOneMore(w: World, intents: seq<Intent>, repo: Path)
    requires intents != [] && Ready(w, intents) && repo in w.refs
    ensures var n := |intents| - 1;
      Destined(w, intents, repo) ==
      if intents[n].repo == repo && Leads(w, intents, n) then intents[n].headSha else Destined(w, intents[..n], repo)
  {
    LedByOneMore(w, intents, repo);
    assert ReadyOne(w, intents[|intents| - 1]);
  }

  lemma LeadsIffUnmarked(w: World, intents: seq<Intent>, before: World)
    requires intents != [] && AppliedExactly(w, intents[..|intents| - 1], before)
    ensures Leads(w, intents, |intents| - 1) <==> intents[|intents| - 1].dedupKey !in before.markers
  {
    var n := |intents| - 1;
    var key := intents[n].dedupKey;
    assert HasKey(intents[..n], key) <==> exists j :: 0 <= j < n && intents[j].dedupKey == key by {
      if j :| 0 <= j < n && intents[j].dedupKey == key {
        assert intents[..n][j].dedupKey == key;
      }
    }
  }

  lemma HasKeyOneMore(intents: seq<Intent>, key: string)
    requires intents != []
    ensures HasKey(intents, key) <==>
      intents[|intents| - 1].dedupKey == key || HasKey(intents[..|intents| - 1], key)
  {
    var n := |intents| - 1;
    if i :| 0 <= i < n && intents[i].dedupKey == key {
      assert intents[..n][i].dedupKey == key;
    }
  }

  lemma LedByOneMore(w: World, intents: seq<Intent>, repo: Path)
    requires intents != []
    ensures var n := |intents| - 1;
      Led(w, intents, repo) <==> Led(w, intents[..n], repo) || (intents[n].repo == repo && Leads(w, intents, n))
  {
    var n := |intents| - 1;
    var init := intents[..n];
    forall k | 0 <= k < n ensures Leads(w, init, k) <==> Leads(w, intents, k) {
      assert forall j :: 0 <= j <= k ==> init[j] == intents[j];
    }
    if k :| 0 <= k < n && init[k].repo == repo && Leads(w, init, k) {
      assert intents[k].repo == repo && Leads(w, intents, k);
    }
    if k :| 0 <= k < n && intents[k].repo == repo && Leads(w, intents, k) {
      assert init[k].repo == repo && Leads(w, init, k);
    }
  }

  /** The targets of the intents reported pushed, in order. */
  function ReportedPushes(intents: seq<Intent>, outcomes: seq<Outcome>): seq<Path>
    requires |outcomes| == |intents|
  {
    if intents == [] then []
    else
      var n := |intents| - 1;
      ReportedPushes(intents[..n], outcomes[..n]) + if outcomes[n] == Pushed then [intents[n].repo] else []
  }

  /** What one outcome says: done before if its key was marked, present if it was there, pushed if not. */
  lemma OneOutcomeTells(w: World, intent: Intent)
    ensures var (after, r) := ApplyOne(w, intent);
      && (r.Ok? ==>
            && after.markers == w.markers + {intent.dedupKey}
            && (r.value == AlreadyDone <==> intent.dedupKey in w.markers)
            && (r.value == AlreadyPresent <==>
                  intent.dedupKey !in w.markers && intent.repo in w.refs && w.refs[intent.repo] == intent.headSha)
            && after.pushes == w.pushes + if r.value == Pushed then [intent.repo] else [])
      && (r.Raised? ==> after == w && intent.dedupKey !in w.markers)
      && (r == Raised(NoRepository) <==> intent.dedupKey !in w.markers && intent.repo !in w.refs)
      && (r == Raised(NoWorktree) <==>
            && intent.dedupKey !in w.markers && intent.repo in w.refs && w.refs[intent.repo] != intent.headSha
            && Worktree(intent.repo) !in w.heads)
  {
  }

  /**
    The outcomes tell what happened: an intent is reported done before exactly when its key
    was marked or an earlier intent bears it, and exactly those reported pushed were pushed.
   */
  lemma {:induction false} OutcomesTell(w: World, intents: seq<Intent>)
    requires ApplyEach(w, intents).1.Ok?
    ensures var (after, r) := ApplyEach(w, intents);
      && |r.value| == |intents|
      && (forall key :: key in after.markers <==> key in w.markers || HasKey(intents, key))
      && after.pushes == w.pushes + ReportedPushes(intents, r.value)
      && forall i :: 0 <= i < |intents| ==> (r.value[i] == AlreadyDone <==> !Leads(w, intents, i))
  {
    if intents != [] {
      var n := |intents| - 1;
      var init := intents[..n];
      OutcomesTell(w, init);
      OneOutcomeTells(ApplyEach(w, init).0, intents[n]);
      var outcomes := ApplyEach(w, intents).1.value;
      assert outcomes[..n] == ApplyEach(w, init).1.value;
      forall i | 0 <= i < |intents| ensures outcomes[i] == AlreadyDone <==> !Leads(w, intents, i) {
        LeadsAlike(w, intents, i);
      }
      forall key ensures HasKey(intents, key) <==> intents[n].dedupKey == key || HasKey(init, key) {
        HasKeyOneMore(intents, key);
      }
    }
  }

  lemma LeadsAlike(w: World, intents: seq<Intent>, i: nat)
    requires i < |intents|
    ensures var n := |intents| - 1; var init := intents[..n];
      && (i < n ==> (Leads(w, init, i) <==> Leads(w, intents, i)))
      && (i == n ==>
            (Leads(w, intents, n) <==> intents[n].dedupKey !in w.markers && !HasKey(init, intents[n].dedupKey)))
  {
    var n := |intents| - 1;
    var init := intents[..n];
    assert forall j :: 0 <= j < n ==> init[j] == intents[j];
    if HasKey(init, intents[n].dedupKey) {
      var j :| 0 <= j < n && init[j].dedupKey == intents[n].dedupKey;
      assert intents[j].dedupKey == intents[n].dedupKey;
    }
  }

  predicate AllThere(w: World, intents: seq<Intent>)
  {
    forall i :: 0 <= i < |intents| ==> intents[i].repo in w.refs && w.refs[intents[i].repo] == intents[i].headSha
  }

  /** One apply brings every target to its commit exactly when each was there already or has a leading intent. */
  lemma ApplyArrivesIff(w: World, intents: seq<Intent>)
    requires Ready(w, intents)
    ensures AllThere(ApplyEach(w, intents).0, intents) <==>
      forall i :: 0 <= i < |intents| ==>
        w.refs[intents[i].repo] == intents[i].headSha || Led(w, intents, intents[i].repo)
  {
    ApplyEachExactly(w, intents);
  }

  // ---------------------------------------------------------------- keys and worktrees

  /** A key is the last component of the repository, a dash and the commit. */
  lemma KeySpellsNameAndCommit(parent: Path, name: string, sha: Sha)
    ensures DedupKey(parent + [name], sha) == name + "-" + sha
  {
    ConcatAssociative(name, "-", sha);
  }

  /** Commits of one length: a key then tells a repository's name and its commit. */
  lemma KeyTellsNameAndCommit(first: Path, second: Path, sha: Sha, otherSha: Sha)
    requires |sha| == |otherSha| && DedupKey(first, sha) == DedupKey(second, otherSha)
    ensures Name(first) == Name(second) && sha == otherSha
  {
    var k, m := DedupKey(first, sha), |Name(first)|;
    assert |Name(second)| == m;
    assert k[..m] == Name(first) && k[..m] == Name(second);
    assert k[m + 1..] == sha && k[m + 1..] == otherSha;
  }

  /** Staged from rows whose basenames differ, with commits of one length. */
  predicate StagedApart(intents: seq<Intent>)
  {
    && (forall i :: 0 <= i < |intents| ==> intents[i].dedupKey == DedupKey(intents[i].repo, intents[i].headSha))
    && (forall i, j :: 0 <= i < |intents| && 0 <= j < |intents| ==> |intents[i].headSha| == |intents[j].headSha|)
    && (forall i, j :: 0 <= i < j < |intents| ==> Name(intents[i].repo) != Name(intents[j].repo))
  }

  /** Then one apply from a ready, unmarked state brings every target to its commit. */
  lemma StagedApartArrives(w: World, intents: seq<Intent>)
    requires Ready(w, intents) && StagedApart(intents) && w.markers == {}
    ensures AllThere(ApplyEach(w, intents).0, intents)
  {
    forall i | 0 <= i < |intents| ensures Led(w, intents, intents[i].repo) {
      forall j | 0 <= j < i ensures intents[j].dedupKey != intents[i].dedupKey {
        if intents[j].dedupKey == intents[i].dedupKey {
          KeyTellsNameAndCommit(intents[j].repo, intents[i].repo, intents[j].headSha, intents[i].headSha);
        }
      }
      assert Leads(w, intents, i);
    }
    ApplyArrivesIff(w, intents);
  }

  /** Two targets of one basename under one key: the second is taken for done and never pushed. */
  lemma SharedBasenameIsSkipped(first: Path, second: Path, sha: Sha, w: World)
    requires first != second && Name(first) == Name(second)
    requires ReadyOne(w, Intent(first, sha, DedupKey(first, sha)))
    requires ReadyOne(w, Intent(second, sha, DedupKey(second, sha))) && w.refs[second] != sha
    ensures var a, b := Intent(first, sha, DedupKey(first, sha)), Intent(second, sha, DedupKey(second, sha));
      !AllThere(ApplyEach(w, [a, b]).0, [a, b])
  {
    var a, b := Intent(first, sha, DedupKey(first, sha)), Intent(second, sha, DedupKey(second, sha));
    assert Ready(w, [a, b]) by {
      assert forall i :: 0 <= i < 2 ==> [a, b][i] == if i == 0 then a else b;
    }
    ApplyArrivesIff(w, [a, b]);
    assert !Led(w, [a, b], second) by {
      assert [a, b][0].dedupKey == [a, b][1].dedupKey;
    }
    assert [a, b][1].repo == second;
  }

  /** Different basenames still share a worktree when one is the other with the suffix. */
  lemma SharedWorktreeIff(first: Path, second: Path)
    ensures Worktree(first) == Worktree(second) <==>
      Name(first) == Name(second) ||
      (Name(first) == Name(second) + GIT && !EndsWith(Name(second), GIT)) ||
      (Name(second) == Name(first) + GIT && !EndsWith(Name(first), GIT))
  {
    SuffixRestored(Name(first));
    SuffixRestored(Name(second));
  }

  lemma SuffixRestored(name: string)
    ensures EndsWith(name, GIT) ==> name == WithoutSuffix(name, GIT) + GIT
    ensures WithoutSuffix(name + GIT, GIT) == name
  {
  }

  // ---------------------------------------------------------------- the calls

  predicate DistinctNames(repos: seq<Path>)
  {
    forall i, j :: 0 <= i < j < |repos| ==> Name(repos[i]) != Name(repos[j])
  }

  /** The first repository sharing its basename with an earlier one is refused, naming both. */
  method RefuseDuplicateBasenames(repos: seq<Path>) returns (refusal: Option<Refusal>)
    ensures refusal.None? <==> DistinctNames(repos)
    ensures refusal.Some? ==> exists i, j ::
      && 0 <= i < j < |repos| && Name(repos[i]) == Name(repos[j])
      && refusal.value == SharedBasename(repos[i], repos[j]) && DistinctNames(repos[..j])
  {
    var seen: map<string, Path> := map[];
    ghost var at: map<string, nat> := map[];
    for n := 0 to |repos|
      invariant seen.Keys == at.Keys
      invariant forall name :: name in at ==>
        at[name] < n && Name(repos[at[name]]) == name && seen[name] == repos[at[name]]
      invariant forall i :: 0 <= i < n ==> Name(repos[i]) in seen
      invariant DistinctNames(repos[..n])
    {
      var name := Name(repos[n]);
      if name in seen {
        assert Name(repos[at[name]]) == Name(repos[n]);
        return Some(SharedBasename(seen[name], repos[n]));
      }
      assert repos[..n + 1] == repos[..n] + [repos[n]];
      seen := seen[name := repos[n]];
      at := at[name := n];
    }
    assert repos[..|repos|] == repos;
    return None;
  }

  // ---------------------------------------------------------------- the scratch fleet

  /** The bare mirror of a repository. */
  function Mirror(scratch: Path, repo: Path): Path
  {
    scratch + ["origin", Name(repo) + GIT]
  }

  /**
    Mirrors are scratch targets, and two share a path, or a worktree, exactly when their
    repositories share a basename.
   */
  lemma MirrorsShareIff(scratch: Path, first: Path, second: Path)
    ensures IsScratchTarget(Mirror(scratch, first), scratch)
    ensures Mirror(scratch, first) == Mirror(scratch, second) <==> Name(first) == Name(second)
    ensures Worktree(Mirror(scratch, first)) == Worktree(Mirror(scratch, second)) <==> Name(first) == Name(second)
  {
    var a, b := Mirror(scratch, first), Mirror(scratch, second);
    assert a[|scratch| + 1] == Name(first) + GIT && b[|scratch| + 1] == Name(second) + GIT;
    assert a == (scratch + ["origin"]) + [Name(first) + GIT];
    SuffixRestored(Name(first));
    SuffixRestored(Name(second));
  }

  function Mirrors(scratch: Path, repos: seq<Path>): seq<Path>
  {
    seq(|repos|, i requires 0 <= i < |repos| => Mirror(scratch, repos[i]))
  }

  predicate OwnWorktrees(targets: seq<Path>)
  {
    forall i, j :: 0 <= i < j < |targets| ==> Worktree(targets[i]) != Worktree(targets[j])
  }

  /** For mirrors the refusal is exact: each has a worktree of its own if and only if the basenames differ. */
  lemma MirrorsOwnWorktreesIff(scratch: Path, repos: seq<Path>)
    ensures OwnWorktrees(Mirrors(scratch, repos)) <==> DistinctNames(repos)
    ensures DistinctNames(repos) ==> DistinctNames(Mirrors(scratch, repos))
  {
    forall i, j | 0 <= i < j < |repos|
      ensures Worktree(Mirrors(scratch, repos)[i]) == Worktree(Mirrors(scratch, repos)[j]) <==>
        Name(repos[i]) == Name(repos[j])
      ensures Name(Mirrors(scratch, repos)[i]) == Name(Mirrors(scratch, repos)[j]) ==> Name(repos[i]) == Name(repos[j])
    {
      MirrorsShareIff(scratch, repos[i], repos[j]);
      SuffixRestored(Name(repos[i]));
      SuffixRestored(Name(repos[j]));
    }
  }

  /** For other targets it is not: x and x.git are not refused, and share a worktree. */
  lemma SuffixIsNotRefused()
    ensures var targets := [["x"], ["x.git"]];
      DistinctNames(targets) && !OwnWorktrees(targets)
  {
    assert "x" + GIT == "x.git";
    SharedWorktreeIff(["x"], ["x.git"]);
    var targets := [["x"], ["x.git"]];
    assert Worktree(targets[0]) == Worktree(targets[1]);
  }

  /** The mirrors there are, each with the repository it was read from. */
  class ScratchOrigin {
    var mirrors: map<Path, Path>

    /** Refuses shared basenames; otherwise mirrors what is missing, and with refresh everything, anew. */
    method MakeScratchFleet(repos: seq<Path>, scratch: Path, refresh: bool) returns (r: Result<seq<Path>, Refusal>)
      modifies this
      ensures r.Ok? <==> DistinctNames(repos)
      ensures r.Raised? ==> mirrors == old(mirrors)
      ensures r.Ok? ==>
        && r.value == Mirrors(scratch, repos)
        && (forall i :: 0 <= i < |repos| ==>
             && r.value[i] in mirrors
             && mirrors[r.value[i]] ==
                  if !refresh && r.value[i] in old(mirrors) then old(mirrors)[r.value[i]] else repos[i])
        && forall p :: p !in r.value ==>
             (p in mirrors <==> p in old(mirrors)) && (p in mirrors ==> mirrors[p] == old(mirrors)[p])
    {
      var refusal := RefuseDuplicateBasenames(repos);
      if refusal.Some? {
        return Raised(refusal.value);
      }
      var targets: seq<Path> := [];
      for n := 0 to |repos|
        invariant targets == Mirrors(scratch, repos[..n])
        invariant forall i :: 0 <= i < n ==>
          && targets[i] in mirrors
          && mirrors[targets[i]] ==
               if !refresh && targets[i] in old(mirrors) then old(mirrors)[targets[i]] else repos[i]
        invariant forall p :: p !in targets ==>
          (p in mirrors <==> p in old(mirrors)) && (p in mirrors ==> mirrors[p] == old(mirrors)[p])
      {
        var dest := Mirror(scratch, repos[n]);
        forall i | 0 <= i < n ensures targets[i] != dest {
          MirrorsShareIff(scratch, repos[i], repos[n]);
        }
        if refresh && dest in mirrors {
          mirrors := mirrors - {dest};
        }
        if dest !in mirrors {
          mirrors := mirrors[dest := repos[n]];
        }
        targets := targets + [dest];
      }
      assert repos[..|repos|] == repos;
      return Ok(targets);
    }
  }

  method RefuseNonScratchTargets(intents: seq<Intent>, root: Path) returns (refusal: Option<Refusal>)
    ensures refusal.None? <==> AllScratch(intents, root)
    ensures refusal.Some? ==> exists i ::
      && 0 <= i < |intents| && refusal.value == NotScratch(intents[i].repo)
      && !IsScratchTarget(intents[i].repo, root) && AllScratch(intents[..i], root)
  {
    for i := 0 to |intents|
      invariant AllScratch(intents[..i], root)
    {
      if !IsScratchTarget(intents[i].repo, root) {
        return Some(NotScratch(intents[i].repo));
      }
    }
    assert intents[..|intents|] == intents;
    return None;
  }

  /** The repositories, worktrees and markers that apply works on. */
  class Fleet {
    var refs: map<Path, Sha>
    var heads: map<string, Sha>
    var markers: set<string>
    ghost var pushes: seq<Path>

    ghost function Snapshot(): World
      reads this
    {
      World(refs, heads, markers, pushes)
    }

    method ApplyIntent(intent: Intent) returns (r: Result<Outcome, Refusal>)
      modifies this
      ensures (Snapshot(), r) == ApplyOne(old(Snapshot()), intent)
    {
      if intent.dedupKey in markers {
        return Ok(AlreadyDone);
      }
      if intent.repo !in refs {
        return Raised(NoRepository);
      }
      var outcome;
      if refs[intent.repo] == intent.headSha {
        outcome := AlreadyPresent;
      } else {
        var worktree := Worktree(intent.repo);
        if worktree !in heads {
          return Raised(NoWorktree);
        }
        refs := refs[intent.repo := heads[worktree]];
        pushes := pushes + [intent.repo];
        outcome := Pushed;
      }
      markers := markers + {intent.dedupKey};
      return Ok(outcome);
    }

    /** Refuses the whole list for one bad target; otherwise applies the intents in turn. */
    method Apply(intents: seq<Intent>, root: Path) returns (r: Result<seq<Outcome>, Refusal>)
      modifies this
      ensures AllScratch(intents, root) ==> (Snapshot(), r) == ApplyEach(old(Snapshot()), intents)
      ensures !AllScratch(intents, root) ==> Snapshot() == old(Snapshot()) && r.Raised? && r.error.NotScratch?
    {
      var refusal := RefuseNonScratchTargets(intents, root);
      if refusal.Some? {
        return Raised(refusal.value);
      }
      var outcomes: seq<Outcome> := [];
      for i := 0 to |intents|
        invariant (Snapshot(), Ok(outcomes)) == ApplyEach(old(Snapshot()), intents[..i])
      {
        assert intents[..i + 1][..i] == intents[..i];
        var one := ApplyIntent(intents[i]);
        if one.Raised? {
          StopsThere(old(Snapshot()), intents, i + 1);
          return Raised(one.error);
        }
        outcomes := outcomes + [one.value];
      }
      assert intents[..|intents|] == intents;
      return Ok(outcomes);
    }
  }

  lemma {:induction false} StopsThere(w: World, intents: seq<Intent>, n: nat)
    requires n <= |intents| && ApplyEach(w, intents[..n]).1.Raised?
    ensures ApplyEach(w, intents) == ApplyEach(w, intents[..n])
    decreases |intents|
  {
    if n == |intents| {
      assert intents[..n] == intents;
    } else {
      assert intents[..|intents| - 1][..n] == intents[..n];
      StopsThere(w, intents[..|intents| - 1], n);
    }
  }

  // ---------------------------------------------------------------- crashes

  /** How far one intent has come: nothing done, marker missing, ref differing, ref in place. */
  datatype Phase = AtMarker | AtRef | AtPush | AtTouch

  /** No run, one at this phase of its next intent, or one that completed. */
  datatype Proc = Idle | Busy(next: nat, phase: Phase) | Done

  datatype State = State(world: World, proc: Proc)

  /** A run begins, takes one step, or dies. One run at a time: the run lock sees to that. */
  datatype Action = Begin | Step | Die

  function Act(s: State, action: Action, intents: seq<Intent>, root: Path): State
  {
    match action
    case Begin => if s.proc.Busy? || !AllScratch(intents, root) then s else s.(proc := Busy(0, AtMarker))
    case Die => s.(proc := Idle)
    case Step =>
      if !s.proc.Busy? then s
      else if s.proc.next >= |intents| then s.(proc := Done)
      else StepIntent(s.world, s.proc.next, s.proc.phase, intents[s.proc.next])
  }

  /** One step of one intent; a raise ends the run. */
  function StepIntent(w: World, next: nat, phase: Phase, intent: Intent): State
  {
    match phase
    case AtMarker => State(w, if intent.dedupKey in w.markers then Busy(next + 1, AtMarker) else Busy(next, AtRef))
    case AtRef =>
      State(w, if intent.repo !in w.refs then Idle
               else Busy(next, if w.refs[intent.repo] == intent.headSha then AtTouch else AtPush))
    case AtPush =>
      if Worktree(intent.repo) !in w.heads then State(w, Idle)
      else State(PushedTo(w, intent.repo), Busy(next, AtTouch))
    case AtTouch => State(Marked(w, intent), Busy(next + 1, AtMarker))
  }

  function Run(s: State, actions: seq<Action>, intents: seq<Intent>, root: Path): State
  {
    if actions == [] then s
    else Act(Run(s, actions[..|actions| - 1], intents, root), actions[|actions| - 1], intents, root)
  }

  /** With a target outside the scratch tree nothing is ever pushed or marked. */
  lemma {:induction false} NothingHappensOutside(w: World, actions: seq<Action>, intents: seq<Intent>, root: Path)
    requires !AllScratch(intents, root)
    ensures Run(State(w, Idle), actions, intents, root).world == w
    ensures !Run(State(w, Idle), actions, intents, root).proc.Busy?
  {
    if actions != [] {
      NothingHappensOutside(w, actions[..|actions| - 1], intents, root);
    }
  }

  /** Equal keys and equal targets both mean the same intent. */
  predicate ToldApart(intents: seq<Intent>)
  {
    forall i, j :: 0 <= i < |intents| && 0 <= j < |intents| ==>
      intents[i].dedupKey == intents[j].dedupKey || intents[i].repo == intents[j].repo ==> intents[i] == intents[j]
  }

  lemma StagedApartIsToldApart(intents: seq<Intent>)
    requires StagedApart(intents)
    ensures ToldApart(intents)
  {
    forall i, j | 0 <= i < |intents| && 0 <= j < |intents|
      && (intents[i].dedupKey == intents[j].dedupKey || intents[i].repo == intents[j].repo)
      ensures intents[i] == intents[j]
    {
      if intents[i].dedupKey == intents[j].dedupKey {
        KeyTellsNameAndCommit(intents[i].repo, intents[j].repo, intents[i].headSha, intents[j].headSha);
      }
      assert i == j;
    }
  }

  /** A marked intent's target is at its commit. */
  predicate MarkersTrue(w: World, intents: seq<Intent>)
  {
    forall i :: 0 <= i < |intents| && intents[i].dedupKey in w.markers ==>
      intents[i].repo in w.refs && w.refs[intents[i].repo] == intents[i].headSha
  }

  /** How often each target was pushed: once if it had to move and has moved, else never. */
  predicate PushedOnce(start: World, w: World, intents: seq<Intent>)
  {
    forall i :: 0 <= i < |intents| && intents[i].repo in start.refs && intents[i].repo in w.refs ==>
      multiset(w.pushes)[intents[i].repo] ==
      var intent := intents[i];
      if start.refs[intent.repo] != intent.headSha && w.refs[intent.repo] == intent.headSha then 1 else 0
  }

  /** Branches and pushes of anything that is not a target stay as they were. */
  predicate OthersUntouched(start: World, w: World, intents: seq<Intent>)
  {
    && w.heads == start.heads && w.refs.Keys == start.refs.Keys
    && (forall repo :: repo in w.refs && w.refs[repo] != start.refs[repo] ==>
         exists i :: 0 <= i < |intents| && intents[i].repo == repo && w.refs[repo] == intents[i].headSha)
    && (forall repo :: repo in w.pushes ==> exists i :: 0 <= i < |intents| && intents[i].repo == repo)
  }

  /** What the run's position says about the world. */
  predicate PhaseTrue(s: State, intents: seq<Intent>)
  {
    match s.proc
    case Idle => true
    case Done => forall i :: 0 <= i < |intents| ==> intents[i].dedupKey in s.world.markers
    case Busy(next, phase) =>
      && next <= |intents| && (next == |intents| ==> phase == AtMarker)
      && (forall i :: 0 <= i < next ==> intents[i].dedupKey in s.world.markers)
      && (phase == AtPush ==>
            intents[next].repo in s.world.refs && s.world.refs[intents[next].repo] != intents[next].headSha)
      && (phase == AtTouch ==>
            intents[next].repo in s.world.refs && s.world.refs[intents[next].repo] == intents[next].headSha)
  }

  predicate Kept(start: World, s: State, intents: seq<Intent>)
  {
    && MarkersTrue(s.world, intents) && PushedOnce(start, s.world, intents)
    && OthersUntouched(start, s.world, intents) && PhaseTrue(s, intents)
  }

  lemma PushKeeps(start: World, w: World, next: nat, intents: seq<Intent>)
    requires Ready(start, intents) && ToldApart(intents) && next < |intents|
    requires Kept(start, State(w, Busy(next, AtPush)), intents)
    ensures Worktree(intents[next].repo) in w.heads
    ensures Kept(start, State(PushedTo(w, intents[next].repo), Busy(next, AtTouch)), intents)
  {
    var intent := intents[next];
    assert ReadyOne(start, intent);
    var u := PushedTo(w, intent.repo);
    assert u.refs == w.refs[intent.repo := intent.headSha];
    assert forall i :: 0 <= i < |intents| && intents[i].repo == intent.repo ==> intents[i] == intent;
    PushCounts(w.pushes, intent.repo);
    assert PushedOnce(start, u, intents);
    assert MarkersTrue(u, intents);
    forall repo | repo in u.refs && u.refs[repo] != start.refs[repo]
      ensures exists i :: 0 <= i < |intents| && intents[i].repo == repo && u.refs[repo] == intents[i].headSha
    {
      if repo == intent.repo {
        assert intents[next].repo == repo;
      }
    }
  }

  lemma PushCounts(pushes: seq<Path>, repo: Path)
    ensures multiset(pushes + [repo]) == multiset(pushes) + multiset{repo}
  {
  }

  lemma TouchKeeps(start: World, w: World, next: nat, intents: seq<Intent>)
    requires ToldApart(intents) && next < |intents|
    requires Kept(start, State(w, Busy(next, AtTouch)), intents)
    ensures Kept(start, State(Marked(w, intents[next]), Busy(next + 1, AtMarker)), intents)
  {
    assert forall i :: 0 <= i < |intents| && intents[i].dedupKey == intents[next].dedupKey ==>
      intents[i] == intents[next];
  }

  lemma ActKeeps(start: World, s: State, action: Action, intents: seq<Intent>, root: Path)
    requires Ready(start, intents) && ToldApart(intents) && Kept(start, s, intents)
    ensures Kept(start, Act(s, action, intents, root), intents)
  {
    if action.Step? && s.proc.Busy? && s.proc.next < |intents| {
      assert ReadyOne(start, intents[s.proc.next]);
      match s.proc.phase
      case AtMarker =>
      case AtRef =>
      case AtPush => PushKeeps(start, s.world, s.proc.next, intents);
      case AtTouch => TouchKeeps(start, s.world, s.proc.next, intents);
    }
  }

  lemma {:induction false} RunKeeps(start: World, actions: seq<Action>, intents: seq<Intent>, root: Path)
    requires Ready(start, intents) && ToldApart(intents) && MarkersTrue(start, intents) && start.pushes == []
    ensures Kept(start, Run(State(start, Idle), actions, intents, root), intents)
  {
    if actions != [] {
      RunKeeps(start, actions[..|actions| - 1], intents, root);
      var front := actions[..|actions| - 1];
      ActKeeps(start, Run(State(start, Idle), front, intents, root), actions[|actions| - 1], intents, root);
    }
  }

  /**
    However many runs died before it, a completed apply leaves every target at its commit
    and every marker set; each target was pushed once in all if it was not there already,
    and not at all if it was.
   */
  lemma CompletedApplyHasArrived(start: World, actions: seq<Action>, intents: seq<Intent>, root: Path)
    requires Ready(start, intents) && ToldApart(intents) && MarkersTrue(start, intents) && start.pushes == []
    requires Run(State(start, Idle), actions, intents, root).proc.Done?
    ensures var w := Run(State(start, Idle), actions, intents, root).world;
      && AllThere(w, intents)
      && forall i :: 0 <= i < |intents| ==>
           && intents[i].dedupKey in w.markers && intents[i].repo in start.refs
           && multiset(w.pushes)[intents[i].repo] == if start.refs[intents[i].repo] == intents[i].headSha then 0 else 1
  {
    RunKeeps(start, actions, intents, root);
    assert forall i :: 0 <= i < |intents| ==> ReadyOne(start, intents[i]);
  }

  /** The same for what a fleet of differing basenames stages. */
  lemma StagedFleetArrives(start: World, actions: seq<Action>, intents: seq<Intent>, root: Path)
    requires Ready(start, intents) && StagedApart(intents) && start.markers == {} && start.pushes == []
    requires Run(State(start, Idle), actions, intents, root).proc.Done?
    ensures var w := Run(State(start, Idle), actions, intents, root).world;
      && AllThere(w, intents)
      && forall i :: 0 <= i < |intents| ==>
           && intents[i].dedupKey in w.markers && intents[i].repo in start.refs
           && multiset(w.pushes)[intents[i].repo] == if start.refs[intents[i].repo] == intents[i].headSha then 0 else 1
  {
    StagedApartIsToldApart(intents);
    CompletedApplyHasArrived(start, actions, intents, root);
  }

  /** Completed or not, no target is ever pushed twice and nothing else is pushed or moved. */
  lemma NeverPushedTwice(start: World, actions: seq<Action>, intents: seq<Intent>, root: Path)
    requires Ready(start, intents) && ToldApart(intents) && MarkersTrue(start, intents) && start.pushes == []
    ensures var w := Run(State(start, Idle), actions, intents, root).world;
      && OthersUntouched(start, w, intents)
      && forall repo :: multiset(w.pushes)[repo] <= 1
  {
    RunKeeps(start, actions, intents, root);
    var w := Run(State(start, Idle), actions, intents, root).world;
    assert forall i :: 0 <= i < |intents| ==> ReadyOne(start, intents[i]);
    forall repo ensures multiset(w.pushes)[repo] <= 1 {
      if multiset(w.pushes)[repo] > 0 {
        assert repo in w.pushes;
        var i :| 0 <= i < |intents| && intents[i].repo == repo;
      }
    }
  }

  // ---------------------------------------------------------------- the steps are the call

  /** The state n uninterrupted steps on. */
  function Stepped(s: State, n: nat, intents: seq<Intent>, root: Path): State
  {
    if n == 0 then s else Act(Stepped(s, n - 1, intents, root), Step, intents, root)
  }

  lemma {:induction false} SteppedOn(s: State, n: nat, m: nat, intents: seq<Intent>, root: Path)
    ensures Stepped(Stepped(s, n, intents, root), m, intents, root) == Stepped(s, n + m, intents, root)
    decreases m
  {
    if m > 0 {
      SteppedOn(s, n, m - 1, intents, root);
    }
  }

  function Steps(n: nat): seq<Action>
  {
    seq(n, _ => Step)
  }

  lemma {:induction false} SteppedIsRun(s: State, n: nat, intents: seq<Intent>, root: Path)
    ensures Run(s, Steps(n), intents, root) == Stepped(s, n, intents, root)
  {
    if n > 0 {
      SteppedIsRun(s, n - 1, intents, root);
      assert Steps(n)[..n - 1] == Steps(n - 1);
    }
  }

  /** Where an intent leaves the run. */
  function AfterIntent(w: World, next: nat, intents: seq<Intent>): State
    requires next < |intents|
  {
    var (w', r) := ApplyOne(w, intents[next]);
    State(w', if r.Ok? then Busy(next + 1, AtMarker) else Idle)
  }

  lemma IntentInSteps(w: World, next: nat, intents: seq<Intent>, root: Path) returns (n: nat)
    requires next < |intents|
    ensures Stepped(State(w, Busy(next, AtMarker)), n, intents, root) == AfterIntent(w, next, intents)
  {
    var intent := intents[next];
    n := if intent.dedupKey in w.markers then 1
    else if intent.repo !in w.refs then 2
    else if w.refs[intent.repo] == intent.headSha || Worktree(intent.repo) !in w.heads then 3
    else 4;
    var s0 := State(w, Busy(next, AtMarker));
    assert Stepped(s0, 1, intents, root) == Act(s0, Step, intents, root);
    assert n >= 2 ==> Stepped(s0, 2, intents, root) == Act(Stepped(s0, 1, intents, root), Step, intents, root);
  }

  /** Where the first next intents leave the run. */
  function AfterIntents(w: World, next: nat, intents: seq<Intent>): State
    requires next <= |intents|
  {
    var (w', r) := ApplyEach(w, intents[..next]);
    State(w', if r.Ok? then Busy(next, AtMarker) else Idle)
  }

  lemma OneIntentMore(w: World, next: nat, intents: seq<Intent>)
    requires next < |intents|
    ensures var (before, r) := ApplyEach(w, intents[..next]);
      AfterIntents(w, next + 1, intents) ==
      if r.Ok? then AfterIntent(before, next, intents) else AfterIntents(w, next, intents)
  {
    assert intents[..next + 1][..next] == intents[..next];
  }

  lemma {:induction false} IntentsInSteps(w: World, next: nat, intents: seq<Intent>, root: Path) returns (n: nat)
    requires next <= |intents|
    ensures Stepped(State(w, Busy(0, AtMarker)), n, intents, root) == AfterIntents(w, next, intents)
  {
    if next == 0 {
      n := 0;
    } else {
      n := IntentsInSteps(w, next - 1, intents, root);
      OneIntentMore(w, next - 1, intents);
      var (before, r) := ApplyEach(w, intents[..next - 1]);
      if r.Ok? {
        var m := IntentInSteps(before, next - 1, intents, root);
        SteppedOn(State(w, Busy(0, AtMarker)), n, m, intents, root);
        n := n + m;
      }
    }
  }

  /** What the call leaves behind, as a state. */
  function Finished(w: World, intents: seq<Intent>): State
  {
    State(ApplyEach(w, intents).0, if ApplyEach(w, intents).1.Ok? then Done else Idle)
  }

  lemma LastStep(s: State, n: nat, w: World, intents: seq<Intent>, root: Path)
    requires Stepped(s, n, intents, root) == AfterIntents(w, |intents|, intents)
    ensures Stepped(s, n + 1, intents, root) == Finished(w, intents)
  {
    assert intents[..|intents|] == intents;
  }

  lemma BeginsAtTheFirst(w: World, intents: seq<Intent>, root: Path)
    requires AllScratch(intents, root)
    ensures Act(State(w, Idle), Begin, intents, root) == State(w, Busy(0, AtMarker))
  {
  }

  /** A run that nothing interrupts does exactly what the call does. */
  lemma UninterruptedRunIsTheCall(w: World, intents: seq<Intent>, root: Path) returns (n: nat)
    requires AllScratch(intents, root)
    ensures Run(Act(State(w, Idle), Begin, intents, root), Steps(n), intents, root) == Finished(w, intents)
  {
    var s := Act(State(w, Idle), Begin, intents, root);
    BeginsAtTheFirst(w, intents, root);
    n := IntentsInSteps(w, |intents|, intents, root);
    LastStep(s, n, w, intents, root);
    SteppedIsRun(s, n + 1, intents, root);
    n := n + 1;
  }
}
