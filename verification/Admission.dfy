/**
  Validating a planner-emitted spec, and what a run of admissions keeps: the
  dependency graph stays closed and acyclic, so its nodes can always be ordered.
 */
module Admission {
  import opened Wrappers
  import opened Strings

  type NodeId = string
  type Graph = map<NodeId, seq<NodeId>>

  // ---------------------------------------------------------------- dependency search

  /** The deps of a node, none for a node that was never admitted. */
  function DepsOf(graph: Graph, node: NodeId): seq<NodeId>
  {
    if node in graph then graph[node] else []
  }

  /** path leads along dep edges from its first node to its last. */
  ghost predicate IsPath(graph: Graph, path: seq<NodeId>)
  {
    && path != []
    && forall i :: 0 <= i < |path| - 1 ==> path[i + 1] in DepsOf(graph, path[i])
  }

  ghost predicate PathBetween(graph: Graph, source: NodeId, target: NodeId, path: seq<NodeId>)
  {
    IsPath(graph, path) && path[0] == source && path[|path| - 1] == target
  }

  ghost predicate Leads(graph: Graph, source: NodeId, target: NodeId)
  {
    exists path :: PathBetween(graph, source, target, path)
  }

  ghost predicate LeadsFromAny(graph: Graph, sources: seq<NodeId>, target: NodeId)
  {
    exists i :: 0 <= i < |sources| && Leads(graph, sources[i], target)
  }

  lemma LeadsToItself(graph: Graph, node: NodeId)
    ensures Leads(graph, node, node)
  {
    assert PathBetween(graph, node, node, [node]);
  }

  lemma LeadsVia(graph: Graph, node: NodeId, dep: NodeId, target: NodeId)
    requires dep in DepsOf(graph, node) && Leads(graph, dep, target)
    ensures Leads(graph, node, target)
  {
    var path :| PathBetween(graph, dep, target, path);
    var longer := [node] + path;
    forall i | 0 <= i < |longer| - 1 ensures longer[i + 1] in DepsOf(graph, longer[i]) {
      if i > 0 {
        assert path[i] in DepsOf(graph, path[i - 1]);
      }
    }
    assert PathBetween(graph, node, target, longer);
  }

  lemma LeadsOnward(graph: Graph, source: NodeId, node: NodeId, dep: NodeId)
    requires Leads(graph, source, node) && dep in DepsOf(graph, node)
    ensures Leads(graph, source, dep)
  {
    var path :| PathBetween(graph, source, node, path);
    var longer := path + [dep];
    forall i | 0 <= i < |longer| - 1 ensures longer[i + 1] in DepsOf(graph, longer[i]) {
      if i < |path| - 1 {
        assert path[i + 1] in DepsOf(graph, path[i]);
      }
    }
    assert PathBetween(graph, source, dep, longer);
  }

  /** A path that starts inside a set closed under deps never leaves it. */
  lemma {:induction false} ClosedSetKeepsPaths(graph: Graph, inside: set<NodeId>, path: seq<NodeId>)
    requires IsPath(graph, path) && path[0] in inside
    requires forall n, d :: n in inside && d in DepsOf(graph, n) ==> d in inside
    ensures path[|path| - 1] in inside
  {
    if |path| > 1 {
      var rest := path[1..];
      assert path[0 + 1] in DepsOf(graph, path[0]);
      forall i | 0 <= i < |rest| - 1 ensures rest[i + 1] in DepsOf(graph, rest[i]) {
        assert path[i + 1 + 1] in DepsOf(graph, path[i + 1]);
      }
      ClosedSetKeepsPaths(graph, inside, rest);
    }
  }

  /** Everything a walk can ever see: the start nodes, the admitted nodes and their deps. */
  ghost function Universe(graph: Graph, start: seq<NodeId>): set<NodeId>
  {
    (set n | n in start) + graph.Keys + (set n, d | n in graph.Keys && d in graph[n] :: d)
  }

  /** A node the walk may have on its stack: within the universe and reachable. */
  ghost predicate Known(graph: Graph, start: seq<NodeId>, node: NodeId)
  {
    node in Universe(graph, start) && LeadsFromAny(graph, start, node)
  }

  /** Every dep of node was seen or is still pending. */
  ghost predicate DepsHandled(graph: Graph, node: NodeId, seen: set<NodeId>, pending: seq<NodeId>)
  {
    forall k :: 0 <= k < |DepsOf(graph, node)| ==> DepsOf(graph, node)[k] in seen || DepsOf(graph, node)[k] in pending
  }

  /**
    What the search keeps: everything pending is reachable, the start nodes are seen or
    pending, and so are the deps of a seen node.
   */
  ghost predicate Searching(graph: Graph, start: seq<NodeId>, target: NodeId, seen: set<NodeId>, pending: seq<NodeId>)
  {
    && seen <= Universe(graph, start) && target !in seen
    && (forall k :: 0 <= k < |pending| ==> Known(graph, start, pending[k]))
    && (forall k :: 0 <= k < |start| ==> start[k] in seen || start[k] in pending)
    && (forall n :: n in seen ==> DepsHandled(graph, n, seen, pending))
  }

  lemma SearchStarts(graph: Graph, start: seq<NodeId>, target: NodeId)
    ensures Searching(graph, start, target, {}, start)
  {
    forall i | 0 <= i < |start| ensures Known(graph, start, start[i]) {
      LeadsToItself(graph, start[i]);
    }
  }

  lemma DepsAreKnown(graph: Graph, start: seq<NodeId>, node: NodeId, dep: NodeId)
    requires LeadsFromAny(graph, start, node) && dep in DepsOf(graph, node)
    ensures Known(graph, start, dep)
  {
    var i :| 0 <= i < |start| && Leads(graph, start[i], node);
    LeadsOnward(graph, start[i], node, dep);
  }

  /** What is handled stays handled when node moves from pending to seen and others are pushed. */
  lemma StillHandled(graph: Graph, n: NodeId, seen: set<NodeId>, rest: seq<NodeId>, node: NodeId, pushed: seq<NodeId>)
    requires DepsHandled(graph, n, seen, rest + [node])
    ensures DepsHandled(graph, n, seen + {node}, rest + pushed)
  {
    forall k | 0 <= k < |DepsOf(graph, n)|
      ensures DepsOf(graph, n)[k] in seen + {node} || DepsOf(graph, n)[k] in rest + pushed
    {
      var d := DepsOf(graph, n)[k];
      assert d in seen || d in rest + [node];
    }
  }

  /** Taking node off the stack keeps the search going, whether it was seen before or is expanded now. */
  lemma SearchStep(graph: Graph, start: seq<NodeId>, target: NodeId, seen: set<NodeId>,
                   rest: seq<NodeId>, node: NodeId, pushed: seq<NodeId>)
    requires Searching(graph, start, target, seen, rest + [node]) && node != target
    requires if node in seen then pushed == [] else pushed == DepsOf(graph, node)
    ensures Searching(graph, start, target, seen + {node}, rest + pushed)
  {
    var before, after := rest + [node], rest + pushed;
    assert before[|rest|] == node;
    assert Known(graph, start, node);
    forall k | 0 <= k < |after| ensures Known(graph, start, after[k]) {
      if k < |rest| {
        assert after[k] == before[k];
      } else {
        DepsAreKnown(graph, start, node, after[k]);
      }
    }
    forall k | 0 <= k < |start| ensures start[k] in seen + {node} || start[k] in after {
      assert start[k] in seen || start[k] in before;
    }
    forall n | n in seen + {node} ensures DepsHandled(graph, n, seen + {node}, after) {
      if n in seen {
        StillHandled(graph, n, seen, rest, node, pushed);
      } else {
        forall k | 0 <= k < |pushed| ensures pushed[k] in after {
          assert after[|rest| + k] == pushed[k];
        }
      }
    }
  }

  lemma SearchExhausted(graph: Graph, start: seq<NodeId>, target: NodeId, seen: set<NodeId>)
    requires Searching(graph, start, target, seen, [])
    ensures !LeadsFromAny(graph, start, target)
  {
    if LeadsFromAny(graph, start, target) {
      var i :| 0 <= i < |start| && Leads(graph, start[i], target);
      var path :| PathBetween(graph, start[i], target, path);
      forall n, d | n in seen && d in DepsOf(graph, n) ensures d in seen {
        assert DepsHandled(graph, n, seen, []);
      }
      ClosedSetKeepsPaths(graph, seen, path);
    }
  }

  /** How much of the universe is left to see. */
  ghost function Unseen(graph: Graph, start: seq<NodeId>, seen: set<NodeId>): nat
  {
    |Universe(graph, start) - seen|
  }

  lemma SearchTakes(graph: Graph, start: seq<NodeId>, target: NodeId, seen: set<NodeId>, pending: seq<NodeId>)
    requires Searching(graph, start, target, seen, pending) && pending != []
    ensures var node, rest := pending[|pending| - 1], pending[..|pending| - 1];
      && LeadsFromAny(graph, start, node)
      && (node in seen ==> Searching(graph, start, target, seen, rest))
      && (node !in seen && node != target ==>
            && Searching(graph, start, target, seen + {node}, rest + DepsOf(graph, node))
            && Unseen(graph, start, seen + {node}) < Unseen(graph, start, seen))
  {
    var node, rest := pending[|pending| - 1], pending[..|pending| - 1];
    assert pending == rest + [node];
    assert Known(graph, start, node);
    if node in seen {
      SearchStep(graph, start, target, seen, rest, node, []);
      assert seen + {node} == seen && rest + [] == rest;
    } else if node != target {
      SearchStep(graph, start, target, seen, rest, node, DepsOf(graph, node));
      SmallerSet(Universe(graph, start) - (seen + {node}), Universe(graph, start) - seen);
    }
  }

  /** Depth-first search along dep edges; the last pending node is taken first. */
  method Reaches(target: NodeId, start: seq<NodeId>, graph: Graph) returns (found: bool)
    ensures found <==> LeadsFromAny(graph, start, target)
  {
    var seen: set<NodeId> := {};
    var pending := start;
    SearchStarts(graph, start, target);
    while pending != []
      invariant Searching(graph, start, target, seen, pending)
      decreases Unseen(graph, start, seen), |pending|
    {
      SearchTakes(graph, start, target, seen, pending);
      var node := pending[|pending| - 1];
      pending := pending[..|pending| - 1];
      if node == target {
        return true;
      }
      if node !in seen {
        seen := seen + {node};
        pending := pending + DepsOf(graph, node);
      }
    }
    SearchExhausted(graph, start, target, seen);
    return false;
  }

  lemma SmallerSet<T>(a: set<T>, b: set<T>)
    requires a < b
    ensures |a| < |b|
  {
    var x :| x in b && x !in a;
    SubsetSize(a, b - {x});
  }

  lemma {:induction false} SubsetSize<T>(a: set<T>, b: set<T>)
    requires a <= b
    ensures |a| <= |b|
  {
    if a != {} {
      var x :| x in a;
      SubsetSize(a - {x}, b - {x});
    }
  }

  // ---------------------------------------------------------------- write-set containment

  datatype WriteFault = Absolute | NamesNoPath | LeadingGlob | AboveRoot

  /** The segments of an entry that move: not the empty ones and not ".". */
  function Segments(parts: seq<string>): seq<string>
  {
    if parts == [] then []
    else (if parts[0] == "" || parts[0] == "." then [] else [parts[0]]) + Segments(parts[1..])
  }

  predicate HasGlob(segment: string)
  {
    '*' in segment || '?' in segment || '[' in segment
  }

  /** Where segments lead from the root, as the directories below it; None once they climb above it. */
  function Walk(segments: seq<string>): Option<seq<string>>
  {
    if segments == [] then Some([])
    else
      var last := segments[|segments| - 1];
      match Walk(segments[..|segments| - 1])
      case None => None
      case Some(below) =>
        if last != ".." then Some(below + [last])
        else if below == [] then None
        else Some(below[..|below| - 1])
  }

  function WriteFaultOf(entry: string): Option<WriteFault>
  {
    var segments := Segments(Split(entry, '/'));
    if StartsWith(entry, "/") then Some(Absolute)
    else if segments == [] then Some(NamesNoPath)
    else if HasGlob(segments[0]) then Some(LeadingGlob)
    else if Walk(segments).None? then Some(AboveRoot)
    else None
  }

  predicate Stays(piece: string)
  {
    piece == "" || piece == "."
  }

  lemma {:induction false} FirstThatMoves(parts: seq<string>, i: nat)
    requires i <= |parts| && forall j :: 0 <= j < i ==> Stays(parts[j])
    ensures i == |parts| ==> Segments(parts) == []
    ensures i < |parts| && !Stays(parts[i]) ==> Segments(parts) != [] && Segments(parts)[0] == parts[i]
  {
    if i > 0 {
      FirstThatMoves(parts[1..], i - 1);
    }
  }

  /**
    The first three faults, by the pieces between the slashes: an entry beginning with a
    slash, one all of whose pieces stay where they are, and one whose first other piece
    holds a glob character.
   */
  lemma FaultsByPiece(entry: string)
    ensures var parts := Split(entry, '/');
      && (WriteFaultOf(entry) == Some(Absolute) <==> BeginsAtTop(entry))
      && (WriteFaultOf(entry) == Some(NamesNoPath) <==> !BeginsAtTop(entry) && AllStay(parts))
      && (WriteFaultOf(entry) == Some(LeadingGlob) <==> !BeginsAtTop(entry) && LeadsWithGlob(parts))
  {
    var parts := Split(entry, '/');
    assert StartsWith(entry, "/") <==> BeginsAtTop(entry);
    if AllStay(parts) {
      FirstThatMoves(parts, |parts|);
      assert Segments(parts) == [];
    } else {
      var i := FirstMove(parts);
      FirstThatMoves(parts, i);
      assert Segments(parts) != [] && Segments(parts)[0] == parts[i] && !Stays(parts[i]);
      GlobInPiece(parts[i]);
      OnlyFirstMoves(parts, i);
      assert LeadsWithGlob(parts) <==> HasGlob(parts[i]);
    }
  }

  lemma GlobInPiece(piece: string)
    ensures HasGlob(piece) <==> Globs(piece)
  {
    if HasGlob(piece) {
      var ch :| ch in piece && ch in {'*', '?', '['};
      var i :| 0 <= i < |piece| && piece[i] == ch;
      assert piece[i] in {'*', '?', '['};
    }
  }

  lemma OnlyFirstMoves(parts: seq<string>, i: nat)
    requires i < |parts| && FirstMoving(parts, i)
    ensures LeadsWithGlob(parts) <==> Globs(parts[i])
  {
    forall k | 0 <= k < |parts| && FirstMoving(parts, k) ensures k == i {
      assert !(k < i) && !(i < k);
    }
  }

  predicate AllStay(parts: seq<string>)
  {
    forall i :: 0 <= i < |parts| ==> Stays(parts[i])
  }

  /** The first piece that moves holds a glob character. */
  predicate LeadsWithGlob(parts: seq<string>)
  {
    exists i :: 0 <= i < |parts| && FirstMoving(parts, i) && Globs(parts[i])
  }

  predicate BeginsAtTop(entry: string)
  {
    entry != "" && entry[0] == '/'
  }

  predicate Globs(piece: string)
  {
    exists i :: 0 <= i < |piece| && piece[i] in {'*', '?', '['}
  }

  predicate FirstMoving(parts: seq<string>, i: nat)
    requires i < |parts|
  {
    !Stays(parts[i]) && forall j :: 0 <= j < i ==> Stays(parts[j])
  }

  lemma {:induction false} FirstMove(parts: seq<string>) returns (i: nat)
    requires !AllStay(parts)
    ensures i < |parts| && FirstMoving(parts, i)
  {
    i := 0;
    if Stays(parts[0]) {
      var k :| 0 <= k < |parts| && !Stays(parts[k]);
      assert parts[1..][k - 1] == parts[k];
      i := FirstMove(parts[1..]);
      i := i + 1;
      assert forall j :: 0 < j < i ==> parts[j] == parts[1..][j - 1];
    }
  }

  lemma {:induction false} WalkFailsForGood(segments: seq<string>, k: nat)
    requires k <= |segments| && Walk(segments[..k]).None?
    ensures Walk(segments).None?
  {
    if k == |segments| {
      assert segments[..k] == segments;
    } else {
      assert segments[..|segments| - 1][..k] == segments[..k];
      WalkFailsForGood(segments[..|segments| - 1], k);
    }
  }

  /** The containment test counts depth only; the count is how far below the root the walk stands. */
  method OneWriteSetFault(entry: string) returns (fault: Option<WriteFault>)
    ensures fault == WriteFaultOf(entry)
  {
    if StartsWith(entry, "/") {
      return Some(Absolute);
    }
    var segments := Segments(Split(entry, '/'));
    if segments == [] {
      return Some(NamesNoPath);
    }
    if HasGlob(segments[0]) {
      return Some(LeadingGlob);
    }
    var depth := 0;
    for k := 0 to |segments|
      invariant Walk(segments[..k]).Some? && depth == |Walk(segments[..k]).value|
    {
      assert segments[..k + 1][..k] == segments[..k];
      depth := depth + (if segments[k] == ".." then -1 else 1);
      if depth < 0 {
        WalkFailsForGood(segments, k + 1);
        return Some(AboveRoot);
      }
    }
    assert segments[..|segments|] == segments;
    return None;
  }

  /** Following segments from an absolute directory; ".." at the top stays there. */
  function Follow(from: seq<string>, segments: seq<string>): seq<string>
  {
    if segments == [] then from
    else
      var last := segments[|segments| - 1];
      var here := Follow(from, segments[..|segments| - 1]);
      if last != ".." then here + [last] else if here == [] then [] else here[..|here| - 1]
  }

  /** Following segments from a directory leaves it at some point on the way. */
  ghost predicate Leaves(root: seq<string>, segments: seq<string>)
  {
    exists k :: 0 <= k <= |segments| && !(root <= Follow(root, segments[..k]))
  }

  /** An accepted entry never leaves the directory the run isolates, at no segment on its way. */
  lemma AcceptedEntryStaysInside(entry: string, root: seq<string>)
    requires WriteFaultOf(entry).None?
    ensures !Leaves(root, Segments(Split(entry, '/')))
  {
    var segments := Segments(Split(entry, '/'));
    forall k | 0 <= k <= |segments| ensures root <= Follow(root, segments[..k]) {
      if Walk(segments[..k]).None? {
        WalkFailsForGood(segments, k);
      } else {
        FollowIsWalk(root, segments[..k]);
      }
    }
  }

  lemma {:induction false} FollowIsWalk(root: seq<string>, segments: seq<string>)
    requires Walk(segments).Some?
    ensures Follow(root, segments) == root + Walk(segments).value
  {
    if segments != [] {
      FollowIsWalk(root, segments[..|segments| - 1]);
    }
  }

  lemma {:induction false} FailedWalkLeaves(segments: seq<string>, root: seq<string>)
    requires Walk(segments).None? && root != []
    ensures Leaves(root, segments)
  {
    var n := |segments| - 1;
    if Walk(segments[..n]).None? {
      FailedWalkLeaves(segments[..n], root);
      var k :| 0 <= k <= n && !(root <= Follow(root, segments[..n][..k]));
      assert segments[..n][..k] == segments[..k];
    } else {
      FollowIsWalk(root, segments[..n]);
      assert segments[..|segments|] == segments;
      assert Follow(root, segments) == root[..|root| - 1];
    }
  }

  /** One refused for climbing does leave it, whichever directory that is. */
  lemma ClimbingEntryLeaves(entry: string, root: seq<string>)
    requires WriteFaultOf(entry) == Some(AboveRoot) && root != []
    ensures Leaves(root, Segments(Split(entry, '/')))
  {
    FailedWalkLeaves(Segments(Split(entry, '/')), root);
  }

  // ---------------------------------------------------------------- the whole-spec rules

  datatype Kind = Work | Gate | Synth | Planner | Approve | Map | Reduce | Wait | Batch | Stage | Apply
  datatype TierRole = Mechanical | Standard | Deep | Top
  datatype Requirement = Requirement(resource: string, amount: real)

  const CODE_KINDS: set<Kind> := {Gate, Reduce, Wait, Stage, Apply, Approve}
  const FAN_OUT_KINDS: set<Kind> := {Map, Batch}

  datatype Spec = Spec(nodeId: NodeId, kind: Kind, executor: Option<string>, tierRole: Option<TierRole>,
                       writeSet: seq<string>, demands: seq<Requirement>, deps: seq<NodeId>)

  datatype Limits = Limits(plannerKinds: set<Kind>, perKindCeiling: map<Kind, TierRole>)

  datatype Context = Context(graph: Graph, resources: map<string, real>)

  datatype Reason =
    | NotPlannerEmittable
    | WrongExecutor
    | RoleWithoutRow
    | NoCeiling
    | OverCeiling
    | BadWriteSet(entry: string, fault: WriteFault)
    | SelfDep
    | MissingDep(dep: NodeId)
    | ClosesCycle
    | UnknownResource(resource: string)
    | OverCapacity(need: Requirement)

  datatype Rule = DepsRule | RequiresRule

  datatype Verdict = Verdict(reasons: seq<Reason>, skipped: seq<Rule>) {
    predicate Ok() { reasons == [] }
    predicate Complete() { skipped == [] }
  }

  function Rank(role: TierRole): nat
  {
    match role
    case Mechanical => 0
    case Standard => 1
    case Deep => 2
    case Top => 3
  }

  predicate ExecutorFits(kind: Kind, executor: Option<string>)
  {
    if kind in CODE_KINDS then executor == Some("code")
    else if kind in FAN_OUT_KINDS then executor == None
    else executor != Some("code")
  }

  /** Roles ascend from mechanical over standard and deep to top. */
  lemma RolesAscend(lower: TierRole, higher: TierRole)
    ensures Rank(lower) < Rank(higher) <==>
      (lower, higher) in {(Mechanical, Standard), (Mechanical, Deep), (Mechanical, Top), (Standard, Deep),
                          (Standard, Top), (Deep, Top)}
  {
  }

  /** Gates, reductions, waits, stagings, applies and approvals run as code and nothing else does; fans run nothing. */
  lemma KindsAndExecutors(kind: Kind, executor: Option<string>)
    ensures ExecutorFits(kind, executor) <==>
      match kind
      case Gate => executor == Some("code") case Reduce => executor == Some("code")
      case Wait => executor == Some("code") case Stage => executor == Some("code")
      case Apply => executor == Some("code") case Approve => executor == Some("code")
      case Map => executor == None case Batch => executor == None
      case Work => executor != Some("code") case Synth => executor != Some("code")
      case Planner => executor != Some("code")
  {
  }

  /** What each reason says about a spec, whichever order the rules are tried in. */
  ghost predicate Broken(reason: Reason, spec: Spec, limits: Limits, context: Context)
  {
    match reason
    case NotPlannerEmittable => spec.kind !in limits.plannerKinds
    case WrongExecutor => !ExecutorFits(spec.kind, spec.executor)
    case RoleWithoutRow => spec.tierRole.Some? && spec.kind in CODE_KINDS + FAN_OUT_KINDS
    case NoCeiling => spec.tierRole.Some? && spec.kind !in limits.perKindCeiling
    case OverCeiling =>
      spec.tierRole.Some? && spec.kind in limits.perKindCeiling &&
      Rank(spec.tierRole.value) > Rank(limits.perKindCeiling[spec.kind])
    case BadWriteSet(entry, fault) => entry in spec.writeSet && WriteFaultOf(entry) == Some(fault)
    case SelfDep => spec.nodeId in spec.deps
    case MissingDep(dep) =>
      context.graph != map[] && spec.nodeId !in spec.deps && dep in spec.deps && dep !in context.graph
    case ClosesCycle =>
      context.graph != map[] && spec.nodeId !in spec.deps && LeadsFromAny(context.graph, spec.deps, spec.nodeId)
    case UnknownResource(resource) =>
      context.resources != map[] && resource !in context.resources &&
      exists need :: need in spec.demands && need.resource == resource
    case OverCapacity(need) =>
      context.resources != map[] && need in spec.demands && need.resource in context.resources &&
      need.amount > context.resources[need.resource]
  }

  /** The four groups of rules, by what they read. */
  datatype Group = RoleRules | WriteRules | DepRules | DemandRules

  function GroupOf(reason: Reason): Group
  {
    match reason
    case NotPlannerEmittable => RoleRules
    case WrongExecutor => RoleRules
    case RoleWithoutRow => RoleRules
    case NoCeiling => RoleRules
    case OverCeiling => RoleRules
    case BadWriteSet(_, _) => WriteRules
    case SelfDep => DepRules
    case MissingDep(_) => DepRules
    case ClosesCycle => DepRules
    case UnknownResource(_) => DemandRules
    case OverCapacity(_) => DemandRules
  }

  /** The place of the rule a reason comes from. */
  function RuleNumber(reason: Reason): nat
  {
    match reason
    case NotPlannerEmittable => 0
    case WrongExecutor => 1
    case RoleWithoutRow => 2
    case NoCeiling => 3
    case OverCeiling => 3
    case BadWriteSet(_, _) => 4
    case SelfDep => 5
    case MissingDep(_) => 5
    case ClosesCycle => 6
    case UnknownResource(_) => 7
    case OverCapacity(_) => 7
  }

  predicate InRuleOrder(reasons: seq<Reason>)
  {
    forall i, j :: 0 <= i < j < |reasons| ==> RuleNumber(reasons[i]) <= RuleNumber(reasons[j])
  }

  /** Reasons in order stay so before others of no earlier rule. */
  lemma InOrderAcross(first: seq<Reason>, second: seq<Reason>)
    requires InRuleOrder(first) && InRuleOrder(second)
    requires forall r, s :: r in first && s in second ==> RuleNumber(r) <= RuleNumber(s)
    ensures InRuleOrder(first + second)
  {
    forall i, j | 0 <= i < j < |first + second|
      ensures RuleNumber((first + second)[i]) <= RuleNumber((first + second)[j])
    {
      assert i < |first| ==> first[i] in first;
      assert j >= |first| ==> second[j - |first|] in second;
    }
  }

  /** Reasons of a group whose rules share one number are in order. */
  lemma OneRuleIsInOrder(reasons: seq<Reason>, group: Group, spec: Spec, limits: Limits, context: Context)
    requires Lists(reasons, group, spec, limits, context) && (group.WriteRules? || group.DemandRules?)
    ensures InRuleOrder(reasons)
  {
    forall i, j | 0 <= i < j < |reasons| ensures RuleNumber(reasons[i]) <= RuleNumber(reasons[j]) {
      assert reasons[i] in reasons && reasons[j] in reasons;
    }
  }

  /** reasons lists exactly the broken rules of one group. */
  ghost predicate Lists(reasons: seq<Reason>, group: Group, spec: Spec, limits: Limits, context: Context)
  {
    forall r :: r in reasons <==> GroupOf(r) == group && Broken(r, spec, limits, context)
  }

  method RoleReasons(spec: Spec, limits: Limits, ghost context: Context) returns (reasons: seq<Reason>)
    ensures Lists(reasons, RoleRules, spec, limits, context) && InRuleOrder(reasons)
  {
    reasons := [];
    if spec.kind !in limits.plannerKinds {
      reasons := reasons + [NotPlannerEmittable];
    }
    if !ExecutorFits(spec.kind, spec.executor) {
      reasons := reasons + [WrongExecutor];
    }
    if spec.tierRole.Some? {
      if spec.kind in CODE_KINDS + FAN_OUT_KINDS {
        reasons := reasons + [RoleWithoutRow];
      }
      if spec.kind !in limits.perKindCeiling {
        reasons := reasons + [NoCeiling];
      } else if Rank(spec.tierRole.value) > Rank(limits.perKindCeiling[spec.kind]) {
        reasons := reasons + [OverCeiling];
      }
    }
  }

  method WriteSetReasons(spec: Spec, ghost limits: Limits, ghost context: Context) returns (reasons: seq<Reason>)
    ensures Lists(reasons, WriteRules, spec, limits, context)
  {
    reasons := [];
    for i := 0 to |spec.writeSet|
      invariant forall r :: r in reasons <==>
        r.BadWriteSet? && r.entry in spec.writeSet[..i] && WriteFaultOf(r.entry) == Some(r.fault)
    {
      var fault := OneWriteSetFault(spec.writeSet[i]);
      if fault.Some? {
        reasons := reasons + [BadWriteSet(spec.writeSet[i], fault.value)];
      }
      assert spec.writeSet[..i + 1] == spec.writeSet[..i] + [spec.writeSet[i]];
    }
    assert spec.writeSet[..|spec.writeSet|] == spec.writeSet;
  }

  /** Without a graph only the one-node cycle can be checked. */
  method DepReasons(spec: Spec, ghost limits: Limits, context: Context) returns (reasons: seq<Reason>)
    ensures Lists(reasons, DepRules, spec, limits, context) && InRuleOrder(reasons)
  {
    if spec.nodeId in spec.deps {
      return [SelfDep];
    }
    reasons := [];
    if context.graph == map[] {
      return;
    }
    for i := 0 to |spec.deps|
      invariant forall r :: r in reasons <==> r.MissingDep? && r.dep in spec.deps[..i] && r.dep !in context.graph
      invariant forall k :: 0 <= k < |reasons| ==> reasons[k].MissingDep?
    {
      if spec.deps[i] !in context.graph {
        reasons := reasons + [MissingDep(spec.deps[i])];
      }
      assert spec.deps[..i + 1] == spec.deps[..i] + [spec.deps[i]];
    }
    assert spec.deps[..|spec.deps|] == spec.deps;
    var cyclic := Reaches(spec.nodeId, spec.deps, context.graph);
    if cyclic {
      reasons := reasons + [ClosesCycle];
    }
  }

  method DemandReasons(spec: Spec, ghost limits: Limits, context: Context) returns (reasons: seq<Reason>)
    ensures Lists(reasons, DemandRules, spec, limits, context)
  {
    reasons := [];
    if context.resources == map[] {
      return;
    }
    for i := 0 to |spec.demands|
      invariant Lists(reasons, DemandRules, spec.(demands := spec.demands[..i]), limits, context)
    {
      var need := spec.demands[i];
      assert spec.demands[..i + 1] == spec.demands[..i] + [need];
      assert need in spec.demands[..i + 1];
      if need.resource !in context.resources {
        reasons := reasons + [UnknownResource(need.resource)];
      } else if need.amount > context.resources[need.resource] {
        reasons := reasons + [OverCapacity(need)];
      }
    }
    assert spec.(demands := spec.demands[..|spec.demands|]) == spec;
  }

  /** The groups one after another: every broken rule, in the order of the rules. */
  lemma AllTogether(roles: seq<Reason>, writes: seq<Reason>, deps: seq<Reason>, demands: seq<Reason>,
                    spec: Spec, limits: Limits, context: Context)
    requires Lists(roles, RoleRules, spec, limits, context) && InRuleOrder(roles)
    requires Lists(writes, WriteRules, spec, limits, context)
    requires Lists(deps, DepRules, spec, limits, context) && InRuleOrder(deps)
    requires Lists(demands, DemandRules, spec, limits, context)
    ensures InRuleOrder(roles + writes + deps + demands)
    ensures forall r :: r in roles + writes + deps + demands <==> Broken(r, spec, limits, context)
  {
    OneRuleIsInOrder(writes, WriteRules, spec, limits, context);
    OneRuleIsInOrder(demands, DemandRules, spec, limits, context);
    forall r, s | r in roles && s in writes ensures RuleNumber(r) <= RuleNumber(s) {
      assert GroupOf(r) == RoleRules && GroupOf(s) == WriteRules;
    }
    InOrderAcross(roles, writes);
    forall r, s | r in roles + writes && s in deps ensures RuleNumber(r) <= RuleNumber(s) {
      assert GroupOf(r) in {RoleRules, WriteRules} && GroupOf(s) == DepRules;
    }
    InOrderAcross(roles + writes, deps);
    forall r, s | r in roles + writes + deps && s in demands ensures RuleNumber(r) <= RuleNumber(s) {
      assert GroupOf(s) == DemandRules;
    }
    InOrderAcross(roles + writes + deps, demands);
    forall r ensures r in roles + writes + deps + demands <==> r in roles || r in writes || r in deps || r in demands {
    }
  }

  /** Exactly the broken rules among those that could run, in the order of the rules, and which could not. */
  method ValidateSpec(spec: Spec, limits: Limits, context: Context) returns (verdict: Verdict)
    ensures forall r :: r in verdict.reasons <==> Broken(r, spec, limits, context)
    ensures InRuleOrder(verdict.reasons)
    ensures verdict.skipped ==
      (if context.graph == map[] && spec.deps != [] then [DepsRule] else []) +
      (if context.resources == map[] && spec.demands != [] then [RequiresRule] else [])
  {
    var roles := RoleReasons(spec, limits, context);
    var writes := WriteSetReasons(spec, limits, context);
    var deps := DepReasons(spec, limits, context);
    var demands := DemandReasons(spec, limits, context);
    var skipped := [];
    if context.graph == map[] && spec.deps != [] {
      skipped := skipped + [DepsRule];
    }
    if context.resources == map[] && spec.demands != [] {
      skipped := skipped + [RequiresRule];
    }
    verdict := Verdict(roles + writes + deps + demands, skipped);
    AllTogether(roles, writes, deps, demands, spec, limits, context);
  }

  // ---------------------------------------------------------------- what admission keeps

  /** A spec no rule refuses, with every rule able to run: both ok and complete. */
  ghost predicate Admissible(spec: Spec, limits: Limits, context: Context)
  {
    && (forall r :: !Broken(r, spec, limits, context))
    && (context.graph == map[] ==> spec.deps == [])
    && (context.resources == map[] ==> spec.demands == [])
  }

  /** The answer a caller gets before admitting: ok and complete, exactly when the spec is admissible. */
  method MayAdmit(spec: Spec, limits: Limits, context: Context) returns (may: bool)
    ensures may <==> Admissible(spec, limits, context)
  {
    var verdict := ValidateSpec(spec, limits, context);
    may := verdict.Ok() && verdict.Complete();
    if verdict.reasons != [] {
      assert verdict.reasons[0] in verdict.reasons;
    }
    if verdict.skipped != [] {
      assert verdict.skipped[0] in verdict.skipped;
      assert verdict.skipped[0] == DepsRule || verdict.skipped[0] == RequiresRule;
    }
    if verdict.reasons == [] {
      assert forall r :: r !in verdict.reasons;
    }
    assert may ==> DepsRule !in verdict.skipped && RequiresRule !in verdict.skipped;
  }

  /** order lists every admitted node once, each after all of its deps. */
  ghost predicate Ordered(graph: Graph, order: seq<NodeId>)
  {
    && (forall n :: n in order <==> n in graph)
    && (forall i, j :: 0 <= i < j < |order| ==> order[i] != order[j])
    && DepsFirst(graph, order)
  }

  ghost predicate DepsFirst(graph: Graph, order: seq<NodeId>)
  {
    forall i, d :: 0 <= i < |order| && d in DepsOf(graph, order[i]) ==> d in order[..i]
  }

  /** The elements of order that lead to x, or those that do not; x itself in neither. */
  ghost function Part(graph: Graph, order: seq<NodeId>, x: NodeId, leading: bool): seq<NodeId>
  {
    if order == [] then []
    else
      var n := |order| - 1;
      var last := order[n];
      Part(graph, order[..n], x, leading) + (if last != x && Leads(graph, last, x) == leading then [last] else [])
  }

  lemma {:induction false} PartHolds(graph: Graph, order: seq<NodeId>, x: NodeId, leading: bool)
    requires forall i, j :: 0 <= i < j < |order| ==> order[i] != order[j]
    ensures var part := Part(graph, order, x, leading);
      && (forall n :: n in part <==> n in order && n != x && Leads(graph, n, x) == leading)
      && (forall i, j :: 0 <= i < j < |part| ==> part[i] != part[j])
  {
    if order != [] {
      var n := |order| - 1;
      PartHolds(graph, order[..n], x, leading);
      assert forall y :: y in order <==> y in order[..n] || y == order[n];
      assert order[n] !in order[..n];
    }
  }

  /** Nodes not depending on x keep their deps before them when the others are left out. */
  lemma {:induction false} IndependentPartOrdered(graph: Graph, order: seq<NodeId>, x: NodeId)
    requires forall i, j :: 0 <= i < j < |order| ==> order[i] != order[j]
    requires DepsFirst(graph, order)
    ensures DepsFirst(graph, Part(graph, order, x, false))
  {
    if order != [] {
      var n := |order| - 1;
      var front, last := order[..n], order[n];
      assert forall i :: 0 <= i < n ==> front[..i] == order[..i];
      IndependentPartOrdered(graph, front, x);
      PartHolds(graph, front, x, false);
      var before := Part(graph, front, x, false);
      if last != x && !Leads(graph, last, x) {
        var part := before + [last];
        forall i, d | 0 <= i < |part| && d in DepsOf(graph, part[i]) ensures d in part[..i] {
          if i < |before| {
            assert part[..i] == before[..i];
          } else {
            assert part[..i] == before && d in order[..n];
            if d == x || Leads(graph, d, x) {
              LeadsToItself(graph, x);
              LeadsVia(graph, last, d, x);
            }
          }
        }
        assert Part(graph, order, x, false) == part;
      } else {
        assert Part(graph, order, x, false) == before;
      }
    }
  }

  /** Every dep of a node of part is in order, and is x, independent of x, or before that node in part. */
  ghost predicate PartOrdered(graph: Graph, order: seq<NodeId>, part: seq<NodeId>, x: NodeId)
  {
    forall i, d :: 0 <= i < |part| && d in DepsOf(graph, part[i]) ==>
      d in order && (d == x || !Leads(graph, d, x) || d in part[..i])
  }

  /** Nodes depending on x find every dep among the independent ones, at x, or before them. */
  lemma {:induction false} DependentPartOrdered(graph: Graph, order: seq<NodeId>, x: NodeId)
    requires forall i, j :: 0 <= i < j < |order| ==> order[i] != order[j]
    requires DepsFirst(graph, order)
    ensures PartOrdered(graph, order, Part(graph, order, x, true), x)
  {
    if order != [] {
      var n := |order| - 1;
      var front, last := order[..n], order[n];
      assert forall i :: 0 <= i < n ==> front[..i] == order[..i];
      DependentPartOrdered(graph, front, x);
      var before, part := Part(graph, front, x, true), Part(graph, order, x, true);
      forall d | part != before && d in DepsOf(graph, last)
        ensures d in order && (d == x || !Leads(graph, d, x) || d in before)
      {
        LastDependentOrdered(graph, order, x, d);
      }
      assert front + [last] == order;
      PartOrderedOneMore(graph, front, before, last, part, x);
    }
  }

  lemma PartOrderedOneMore(graph: Graph, front: seq<NodeId>, before: seq<NodeId>, last: NodeId, part: seq<NodeId>,
        x: NodeId)
    requires PartOrdered(graph, front, before, x)
    requires part == before || part == before + [last]
    requires forall d :: part != before && d in DepsOf(graph, last) ==>
      d in front + [last] && (d == x || !Leads(graph, d, x) || d in before)
    ensures PartOrdered(graph, front + [last], part, x)
  {
    forall i, d | 0 <= i < |part| && d in DepsOf(graph, part[i])
      ensures d in front + [last] && (d == x || !Leads(graph, d, x) || d in part[..i])
    {
      if i < |before| {
        assert part[i] == before[i] && part[..i] == before[..i];
      } else {
        assert part[i] == last && part[..i] == before;
      }
    }
  }

  /** The same for the last node, when it depends on x. */
  lemma LastDependentOrdered(graph: Graph, order: seq<NodeId>, x: NodeId, d: NodeId)
    requires forall i, j :: 0 <= i < j < |order| ==> order[i] != order[j]
    requires order != [] && DepsFirst(graph, order)
    requires var n := |order| - 1;
      Part(graph, order, x, true) == Part(graph, order[..n], x, true) + [order[n]] && d in DepsOf(graph, order[n])
    ensures d in order && (d == x || !Leads(graph, d, x) || d in Part(graph, order[..|order| - 1], x, true))
  {
    var n := |order| - 1;
    assert d in order[..n];
    PartHolds(graph, order[..n], x, true);
  }

  /** An admitted spec extends the order: what does not depend on it, then it, then what does. */
  ghost function Reordered(graph: Graph, order: seq<NodeId>, x: NodeId): seq<NodeId>
  {
    Part(graph, order, x, false) + [x] + Part(graph, order, x, true)
  }

  lemma ReorderedListsEachOnce(graph: Graph, order: seq<NodeId>, x: NodeId)
    requires forall i, j :: 0 <= i < j < |order| ==> order[i] != order[j]
    ensures var next := Reordered(graph, order, x);
      && (forall n :: n in next <==> n in order || n == x)
      && (forall i, j :: 0 <= i < j < |next| ==> next[i] != next[j])
  {
    var independent, dependent := Part(graph, order, x, false), Part(graph, order, x, true);
    var next := Reordered(graph, order, x);
    PartHolds(graph, order, x, false);
    PartHolds(graph, order, x, true);
    assert forall n :: n in next <==> n in independent || n == x || n in dependent;
    forall i, j | 0 <= i < j < |next| ensures next[i] != next[j] {
      assert i < |independent| ==> next[i] in independent;
      assert j > |independent| ==> next[j] in dependent;
    }
  }

  /** Each node of the reordered list has its deps before it once x has been given these deps. */
  lemma ReorderedDepsFirst(graph: Graph, order: seq<NodeId>, x: NodeId, deps: seq<NodeId>, i: nat, d: NodeId)
    requires Ordered(graph, order)
    requires forall y :: y in deps ==> y in order && y != x && !Leads(graph, y, x)
    requires i < |Reordered(graph, order, x)| && d in DepsOf(graph[x := deps], Reordered(graph, order, x)[i])
    ensures d in Reordered(graph, order, x)[..i]
  {
    var independent, dependent := Part(graph, order, x, false), Part(graph, order, x, true);
    var next := Reordered(graph, order, x);
    PartHolds(graph, order, x, false);
    PartHolds(graph, order, x, true);
    if i < |independent| {
      assert next[i] == independent[i] && independent[i] in independent;
      IndependentPartOrdered(graph, order, x);
      assert next[..i] == independent[..i];
    } else if i == |independent| {
      assert next[..i] == independent;
    } else {
      var k := i - |independent| - 1;
      assert next[i] == dependent[k] && dependent[k] in dependent;
      DependentPartOrdered(graph, order, x);
      assert next[..i] == independent + [x] + dependent[..k];
      assert d == x || d in independent || d in dependent[..k];
    }
  }

  lemma AdmissionKeepsOrder(graph: Graph, order: seq<NodeId>, spec: Spec, limits: Limits, resources: map<string, real>)
    requires Ordered(graph, order) && Admissible(spec, limits, Context(graph, resources))
    ensures Ordered(graph[spec.nodeId := spec.deps], Reordered(graph, order, spec.nodeId))
  {
    var x := spec.nodeId;
    forall y | y in spec.deps ensures y in order && y != x && !Leads(graph, y, x) {
      AdmittedDep(graph, spec, limits, resources, y);
    }
    ReorderedListsEachOnce(graph, order, x);
    forall i, d | 0 <= i < |Reordered(graph, order, x)| &&
                  d in DepsOf(graph[x := spec.deps], Reordered(graph, order, x)[i])
      ensures d in Reordered(graph, order, x)[..i]
    {
      ReorderedDepsFirst(graph, order, x, spec.deps, i, d);
    }
  }

  /** Every dep of an admissible spec is an admitted node that does not lead back to it. */
  lemma AdmittedDep(graph: Graph, spec: Spec, limits: Limits, resources: map<string, real>, d: NodeId)
    requires Admissible(spec, limits, Context(graph, resources)) && d in spec.deps
    ensures d in graph && d != spec.nodeId && !Leads(graph, d, spec.nodeId)
  {
    var context := Context(graph, resources);
    assert !Broken(MissingDep(d), spec, limits, context);
    assert !Broken(SelfDep, spec, limits, context);
    assert !Broken(ClosesCycle, spec, limits, context);
    var i :| 0 <= i < |spec.deps| && spec.deps[i] == d;
  }

  /** The graph after offering each spec in turn and admitting those that may be admitted. */
  ghost function Admitted(specs: seq<Spec>, limits: Limits, resources: map<string, real>): Graph
  {
    if specs == [] then map[]
    else
      var graph := Admitted(specs[..|specs| - 1], limits, resources);
      var spec := specs[|specs| - 1];
      if Admissible(spec, limits, Context(graph, resources)) then graph[spec.nodeId := spec.deps] else graph
  }

  /** Whatever is offered, in any order and re-offering ids included, the admitted graph can be ordered. */
  lemma {:induction false} AdmissionsCanAlwaysBeOrdered(specs: seq<Spec>, limits: Limits, resources: map<string, real>)
    ensures exists order :: Ordered(Admitted(specs, limits, resources), order)
  {
    if specs == [] {
      assert Ordered(Admitted(specs, limits, resources), []);
    } else {
      var graph := Admitted(specs[..|specs| - 1], limits, resources);
      var spec := specs[|specs| - 1];
      AdmissionsCanAlwaysBeOrdered(specs[..|specs| - 1], limits, resources);
      var order :| Ordered(graph, order);
      if Admissible(spec, limits, Context(graph, resources)) {
        AdmissionKeepsOrder(graph, order, spec, limits, resources);
        assert Ordered(Admitted(specs, limits, resources), Reordered(graph, order, spec.nodeId));
      } else {
        assert Ordered(Admitted(specs, limits, resources), order);
      }
    }
  }

  /** A graph that can be ordered is closed under deps, and no dep leads back to its node. */
  lemma OrderedIsClosedAndAcyclic(graph: Graph, order: seq<NodeId>, node: NodeId, dep: NodeId)
    requires Ordered(graph, order) && node in graph && dep in graph[node]
    ensures dep in graph && !Leads(graph, dep, node)
  {
    assert node in order;
    var i :| 0 <= i < |order| && order[i] == node;
    assert dep in order[..i];
    if Leads(graph, dep, node) {
      var path :| PathBetween(graph, dep, node, path);
      PathGoesDown(graph, order, path, i);
    }
  }

  /** Along a path every node stands among the first k of the order if its start does. */
  lemma {:induction false} PathGoesDown(graph: Graph, order: seq<NodeId>, path: seq<NodeId>, k: nat)
    requires Ordered(graph, order) && IsPath(graph, path) && k <= |order| && path[0] in order[..k]
    ensures path[|path| - 1] in order[..k]
  {
    if |path| > 1 {
      var rest := path[1..];
      var i :| 0 <= i < k && order[i] == path[0];
      assert path[0 + 1] in DepsOf(graph, order[i]);
      assert forall y :: y in order[..i] ==> y in order[..k];
      forall j | 0 <= j < |rest| - 1 ensures rest[j + 1] in DepsOf(graph, rest[j]) {
        assert path[j + 1 + 1] in DepsOf(graph, path[j + 1]);
      }
      PathGoesDown(graph, order, rest, k);
    }
  }
}
