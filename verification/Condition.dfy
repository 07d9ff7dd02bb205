/**
  Three-valued conditions over a run's records: comparison leaves, groups that settle as
  soon as one child does, and negation.
 */
module Condition {
  import opened Strings
  import opened Wrappers

  /** A recorded fact: a number, a truth value, a text, or anything else (null, a list, an object). */
  datatype Fact = Num(n: real) | Bool(b: bool) | Text(s: string) | Other(tag: int)

  /** What a leaf compares with is never of the last kind. */
  type Literal = f: Fact | !f.Other? witness Bool(true)

  datatype Op = Eq | Ne | Lt | Le | Gt | Ge

  datatype FieldRef = FieldRef(entry: string, field: string)

  datatype Cond =
    | Compare(ref: FieldRef, op: Op, value: Literal)
    | AllOf(all: seq<Cond>)
    | AnyOf(some: seq<Cond>)
    | Not(inner: Cond)

  /** The closed vocabulary of record statuses. */
  datatype NodeStatus = Done | Failed | Blocked | NeedsContext | NeedsContinuation | Refused | Cancelled

  /** What a condition reads of a status. */
  function StatusText(status: NodeStatus): string
  {
    match status
    case Done => "done"
    case Failed => "failed"
    case Blocked => "blocked"
    case NeedsContext => "needs_context"
    case NeedsContinuation => "needs_continuation"
    case Refused => "refused"
    case Cancelled => "cancelled"
  }

  datatype Record = Record(facts: map<string, Fact>, status: NodeStatus)

  type Records = map<string, Record>

  datatype Fault = Shadowed | Incomparable

  const STATUS := "status"

  /** key_facts and the reserved field, unless a fact shadows it. */
  function View(record: Record): Result<map<string, Fact>, Fault>
  {
    if STATUS in record.facts then Raised(Shadowed) else Ok(record.facts[STATUS := Text(StatusText(record.status))])
  }

  /** What a reference reads: a fact, nothing yet, or a refusal. */
  function Lookup(ref: FieldRef, records: Records): Result<Option<Fact>, Fault>
  {
    if ref.entry !in records then Ok(None)
    else
      match View(records[ref.entry])
      case Raised(fault) => Raised(fault)
      case Ok(view) => Ok(if ref.field in view then Some(view[ref.field]) else None)
  }

  // ---------------------------------------------------------------- comparing

  predicate IsNumeric(f: Fact)
  {
    f.Num? || f.Bool?
  }

  /** A truth value counts as 1 or 0. */
  function Numeric(f: Fact): real
    requires IsNumeric(f)
  {
    if f.Num? then f.n else if f.b then 1.0 else 0.0
  }

  predicate Ordered(f: Fact, g: Fact)
  {
    (IsNumeric(f) && IsNumeric(g)) || (f.Text? && g.Text?)
  }

  predicate Less(f: Fact, g: Fact)
    requires Ordered(f, g)
  {
    if IsNumeric(f) then Numeric(f) < Numeric(g) else Before(f.s, g.s)
  }

  predicate Same(f: Fact, g: Fact)
  {
    if IsNumeric(f) && IsNumeric(g) then Numeric(f) == Numeric(g) else f == g
  }

  function Applied(op: Op, actual: Fact, value: Literal): Result<bool, Fault>
  {
    if op.Eq? then Ok(Same(actual, value))
    else if op.Ne? then Ok(!Same(actual, value))
    else if !Ordered(actual, value) then Raised(Incomparable)
    else
      match op
      case Lt => Ok(Less(actual, value))
      case Le => Ok(Less(actual, value) || Same(actual, value))
      case Gt => Ok(Less(value, actual))
      case Ge => Ok(Less(value, actual) || Same(actual, value))
      case _ => Ok(false)
  }

  /** The six operators on numbers, a truth value being 1 or 0. */
  lemma NumbersCompareAsNumbers(actual: Fact, value: Literal)
    requires IsNumeric(actual) && IsNumeric(value)
    ensures var a, b := Numeric(actual), Numeric(value);
      && Applied(Eq, actual, value) == Ok(a == b) && Applied(Ne, actual, value) == Ok(a != b)
      && Applied(Lt, actual, value) == Ok(a < b) && Applied(Le, actual, value) == Ok(a <= b)
      && Applied(Gt, actual, value) == Ok(a > b) && Applied(Ge, actual, value) == Ok(a >= b)
  {
  }

  /** On either side of a comparison a truth value stands for 1 or 0. */
  lemma TruthIsOneOrZero(op: Op, b: bool, other: Literal)
    requires IsNumeric(other)
    ensures Applied(op, Bool(b), other) == Applied(op, Num(if b then 1.0 else 0.0), other)
    ensures Applied(op, other, Bool(b)) == Applied(op, other, Num(if b then 1.0 else 0.0))
  {
  }

  /** On texts, in the order of texts. */
  lemma TextsCompareAsTexts(a: string, b: string)
    ensures Applied(Eq, Text(a), Text(b)) == Ok(a == b) && Applied(Ne, Text(a), Text(b)) == Ok(a != b)
    ensures Applied(Lt, Text(a), Text(b)) == Ok(Before(a, b)) && Applied(Gt, Text(a), Text(b)) == Ok(Before(b, a))
    ensures Applied(Le, Text(a), Text(b)) == Ok(!Before(b, a)) && Applied(Ge, Text(a), Text(b)) == Ok(!Before(a, b))
  {
    BeforeIsTotal(a, b);
  }

  /** Values of different sorts are never equal and cannot be ordered; a truth value is a number. */
  lemma SortsDoNotMix(op: Op, actual: Fact, value: Literal)
    requires actual.Text? != value.Text? || actual.Other?
    ensures Applied(op, actual, value) ==
      if op == Eq then Ok(false) else if op == Ne then Ok(true) else Raised(Incomparable)
  {
  }

  function Opposite(op: Op): Op
  {
    match op
    case Eq => Ne case Ne => Eq case Lt => Ge case Ge => Lt case Le => Gt case Gt => Le
  }

  /** Every operator and its opposite fail together or disagree. */
  lemma OppositesDisagree(op: Op, actual: Fact, value: Literal)
    ensures Applied(Opposite(op), actual, value) ==
      match Applied(op, actual, value) case Raised(fault) => Raised(fault) case Ok(b) => Ok(!b)
  {
    if actual.Text? && value.Text? {
      BeforeIsTotal(actual.s, value.s);
    }
  }

  // ---------------------------------------------------------------- evaluating

  function EvaluateCompare(ref: FieldRef, op: Op, value: Literal, records: Records): Result<Option<bool>, Fault>
  {
    match Lookup(ref, records)
    case Raised(fault) => Raised(fault)
    case Ok(None) => Ok(None)
    case Ok(Some(actual)) =>
      match Applied(op, actual, value)
      case Raised(fault) => Raised(fault)
      case Ok(b) => Ok(Some(b))
  }

  function Combine(results: seq<Option<bool>>, dominant: bool): Option<bool>
  {
    if Some(dominant) in results then Some(dominant)
    else if None in results then None
    else Some(!dominant)
  }

  function Evaluate(cond: Cond, records: Records): Result<Option<bool>, Fault>
    decreases cond, 0
  {
    match cond
    case Compare(ref, op, value) => EvaluateCompare(ref, op, value, records)
    case Not(inner) =>
      (match Evaluate(inner, records)
       case Raised(fault) => Raised(fault)
       case Ok(None) => Ok(None)
       case Ok(Some(b)) => Ok(Some(!b)))
    case AllOf(all) =>
      (match EvaluateEach(all, records)
       case Raised(fault) => Raised(fault)
       case Ok(results) => Ok(Combine(results, false)))
    case AnyOf(some) =>
      (match EvaluateEach(some, records)
       case Raised(fault) => Raised(fault)
       case Ok(results) => Ok(Combine(results, true)))
  }

  /** Every child is evaluated; the first to raise ends it. */
  function EvaluateEach(conds: seq<Cond>, records: Records): (r: Result<seq<Option<bool>>, Fault>)
    ensures r.Ok? ==> |r.value| == |conds|
    decreases conds, 1
  {
    if conds == [] then Ok([])
    else
      match Evaluate(conds[0], records)
      case Raised(fault) => Raised(fault)
      case Ok(first) =>
        match EvaluateEach(conds[1..], records)
        case Raised(fault) => Raised(fault)
        case Ok(rest) => Ok([first] + rest)
  }

  function Children(cond: Cond): seq<Cond>
  {
    match cond
    case Compare(_, _, _) => []
    case Not(inner) => [inner]
    case AllOf(all) => all
    case AnyOf(some) => some
  }

  lemma {:induction false} EachEvaluated(conds: seq<Cond>, records: Records)
    ensures EvaluateEach(conds, records).Ok? <==>
      forall i :: 0 <= i < |conds| ==> Evaluate(conds[i], records).Ok?
    ensures EvaluateEach(conds, records).Ok? ==>
      forall i :: 0 <= i < |conds| ==> Evaluate(conds[i], records) == Ok(EvaluateEach(conds, records).value[i])
  {
    if conds != [] {
      EachEvaluated(conds[1..], records);
      assert forall i :: 0 < i < |conds| ==> conds[i] == conds[1..][i - 1];
    }
  }

  /** A condition on an entry's status holds for just the record that has it. */
  lemma StatusConditionTells(entry: string, records: Records)
    requires entry in records && "status" !in records[entry].facts
    ensures var ref, status := FieldRef(entry, "status"), records[entry].status;
      && Evaluate(Compare(ref, Eq, Text("done")), records) == Ok(Some(status == Done))
      && Evaluate(Compare(ref, Eq, Text("failed")), records) == Ok(Some(status == Failed))
      && Evaluate(Compare(ref, Eq, Text("blocked")), records) == Ok(Some(status == Blocked))
      && Evaluate(Compare(ref, Eq, Text("needs_context")), records) == Ok(Some(status == NeedsContext))
      && Evaluate(Compare(ref, Eq, Text("needs_continuation")), records) == Ok(Some(status == NeedsContinuation))
      && Evaluate(Compare(ref, Eq, Text("refused")), records) == Ok(Some(status == Refused))
      && Evaluate(Compare(ref, Eq, Text("cancelled")), records) == Ok(Some(status == Cancelled))
  {
    var s := StatusText(records[entry].status);
    assert "blocked"[0] == 'b' && "refused"[0] == 'r' && "failed"[0] == 'f';
    assert s[0] == "blocked"[0] <==> records[entry].status == Blocked;
  }

  // ---------------------------------------------------------------- what a condition says

  function References(cond: Cond): set<FieldRef>
    decreases cond
  {
    match cond
    case Compare(ref, _, _) => {ref}
    case Not(inner) => References(inner)
    case AllOf(all) => set i, r | 0 <= i < |all| && r in References(all[i]) :: r
    case AnyOf(some) => set i, r | 0 <= i < |some| && r in References(some[i]) :: r
  }

  /** What a record that shadows nothing holds under a field. */
  function FactOf(record: Record, field: string): Option<Fact>
  {
    if field == STATUS then Some(Text(StatusText(record.status)))
    else if field in record.facts then Some(record.facts[field])
    else None
  }

  /**
    A leaf whose record, if there is one, has no fact called status, and whose field, if
    there, is compared for equality or can be ordered against the literal.
   */
  predicate LeafSound(ref: FieldRef, op: Op, value: Literal, records: Records)
  {
    ref.entry in records ==>
      && STATUS !in records[ref.entry].facts
      && (FactOf(records[ref.entry], ref.field).None? || op.Eq? || op.Ne?
          || Ordered(FactOf(records[ref.entry], ref.field).value, value))
  }

  /** No leaf of cond reads a shadowed record or compares what cannot be ordered. */
  predicate Sound(cond: Cond, records: Records)
    decreases cond
  {
    match cond
    case Compare(ref, op, value) => LeafSound(ref, op, value, records)
    case Not(inner) => Sound(inner, records)
    case AllOf(all) => forall i :: 0 <= i < |all| ==> Sound(all[i], records)
    case AnyOf(some) => forall i :: 0 <= i < |some| ==> Sound(some[i], records)
  }

  predicate Present(ref: FieldRef, records: Records)
  {
    Lookup(ref, records).Ok? && Lookup(ref, records).value.Some?
  }

  predicate AllPresent(cond: Cond, records: Records)
  {
    forall ref :: ref in References(cond) ==> Present(ref, records)
  }

  /** The ordinary two-valued reading. */
  predicate Holds(cond: Cond, records: Records)
    decreases cond
  {
    match cond
    case Compare(ref, op, value) => EvaluateCompare(ref, op, value, records) == Ok(Some(true))
    case Not(inner) => !Holds(inner, records)
    case AllOf(all) => forall i :: 0 <= i < |all| ==> Holds(all[i], records)
    case AnyOf(some) => exists i :: 0 <= i < |some| && Holds(some[i], records)
  }

  lemma ChildReferences(cond: Cond, i: nat)
    requires i < |Children(cond)|
    ensures References(Children(cond)[i]) <= References(cond)
  {
  }

  // ---------------------------------------------------------------- raising

  /** A leaf raises exactly when its guards fail. */
  lemma LeafRaisesIffUnsound(ref: FieldRef, op: Op, value: Literal, records: Records)
    ensures EvaluateCompare(ref, op, value, records).Ok? <==> LeafSound(ref, op, value, records)
  {
  }

  /** Evaluation raises exactly when some leaf does: no settled sibling hides it. */
  lemma {:induction false} RaisesIffUnsound(cond: Cond, records: Records)
    ensures Evaluate(cond, records).Ok? <==> Sound(cond, records)
  {
    match cond
    case Compare(_, _, _) =>
    case Not(inner) => RaisesIffUnsound(inner, records);
    case AllOf(all) =>
      EachEvaluated(all, records);
      forall i | 0 <= i < |all| ensures Evaluate(all[i], records).Ok? <==> Sound(all[i], records) {
        RaisesIffUnsound(all[i], records);
      }
    case AnyOf(some) =>
      EachEvaluated(some, records);
      forall i | 0 <= i < |some| ensures Evaluate(some[i], records).Ok? <==> Sound(some[i], records) {
        RaisesIffUnsound(some[i], records);
      }
  }

  // ---------------------------------------------------------------- deciding

  /** With every referenced field there, a condition is decided, by its ordinary reading. */
  lemma {:induction false} PresentIsDecided(cond: Cond, records: Records)
    requires AllPresent(cond, records) && Sound(cond, records)
    ensures Evaluate(cond, records) == Ok(Some(Holds(cond, records)))
  {
    match cond
    case Compare(ref, _, _) => assert ref in References(cond);
    case Not(inner) => PresentIsDecided(inner, records);
    case AllOf(all) =>
      forall i | 0 <= i < |all| ensures Evaluate(all[i], records) == Ok(Some(Holds(all[i], records))) {
        ChildReferences(cond, i);
        PresentIsDecided(all[i], records);
      }
      EachEvaluated(all, records);
    case AnyOf(some) =>
      forall i | 0 <= i < |some| ensures Evaluate(some[i], records) == Ok(Some(Holds(some[i], records))) {
        ChildReferences(cond, i);
        PresentIsDecided(some[i], records);
      }
      EachEvaluated(some, records);
  }

  /** So an undecided condition reads some field that is not there yet. */
  lemma UndecidedIsMissing(cond: Cond, records: Records)
    requires Evaluate(cond, records) == Ok(None)
    ensures exists ref :: ref in References(cond) && !Present(ref, records)
  {
    RaisesIffUnsound(cond, records);
    if AllPresent(cond, records) {
      PresentIsDecided(cond, records);
    }
  }

  ghost predicate SameLookups(refs: set<FieldRef>, first: Records, second: Records)
  {
    forall ref :: ref in refs ==> Lookup(ref, first) == Lookup(ref, second)
  }

  /** A verdict depends on what the referenced fields read, and on nothing else. */
  lemma {:induction false} OnlyReferencesMatter(cond: Cond, first: Records, second: Records)
    requires SameLookups(References(cond), first, second)
    ensures Evaluate(cond, first) == Evaluate(cond, second)
    decreases cond, 0
  {
    match cond
    case Compare(ref, _, _) => assert ref in References(cond);
    case Not(inner) => OnlyReferencesMatter(inner, first, second);
    case AllOf(all) =>
      forall i | 0 <= i < |all| ensures SameLookups(References(all[i]), first, second) {
        ChildReferences(cond, i);
      }
      OnlyReferencesOfEach(all, first, second);
    case AnyOf(some) =>
      forall i | 0 <= i < |some| ensures SameLookups(References(some[i]), first, second) {
        ChildReferences(cond, i);
      }
      OnlyReferencesOfEach(some, first, second);
  }

  lemma {:induction false} OnlyReferencesOfEach(conds: seq<Cond>, first: Records, second: Records)
    requires forall i :: 0 <= i < |conds| ==> SameLookups(References(conds[i]), first, second)
    ensures EvaluateEach(conds, first) == EvaluateEach(conds, second)
    decreases conds, 1
  {
    if conds != [] {
      OnlyReferencesMatter(conds[0], first, second);
      assert forall i :: 0 <= i < |conds[1..]| ==> conds[1..][i] == conds[i + 1];
      OnlyReferencesOfEach(conds[1..], first, second);
    }
  }

  // ---------------------------------------------------------------- growing

  /** later has every entry of sooner, with every fact it had and the same status. */
  predicate Grows(sooner: Records, later: Records)
  {
    forall entry :: entry in sooner ==>
      && entry in later && later[entry].status == sooner[entry].status
      && forall field :: field in sooner[entry].facts ==>
           field in later[entry].facts && later[entry].facts[field] == sooner[entry].facts[field]
  }

  lemma GrownLookup(ref: FieldRef, sooner: Records, later: Records)
    requires Grows(sooner, later) && Present(ref, sooner) && Lookup(ref, later).Ok?
    ensures Lookup(ref, later) == Lookup(ref, sooner)
  {
  }

  /** A verdict, once given, is the verdict of every later evaluation that does not raise. */
  lemma {:induction false} SettledStaysSettled(cond: Cond, sooner: Records, later: Records, verdict: bool)
    requires Grows(sooner, later) && Evaluate(cond, sooner) == Ok(Some(verdict))
    ensures Evaluate(cond, later) == Ok(Some(verdict)) <==> Sound(cond, later)
  {
    RaisesIffUnsound(cond, later);
    if Sound(cond, later) {
      match cond
      case Compare(ref, _, _) => GrownLookup(ref, sooner, later);
      case Not(inner) => SettledStaysSettled(inner, sooner, later, !verdict);
      case AllOf(all) => GroupStaysSettled(all, sooner, later, false, verdict);
      case AnyOf(some) => GroupStaysSettled(some, sooner, later, true, verdict);
    }
  }

  lemma {:induction false} GroupStaysSettled(conds: seq<Cond>, sooner: Records, later: Records, dominant: bool,
        verdict: bool)
    requires Grows(sooner, later)
    requires EvaluateEach(conds, sooner).Ok? && Combine(EvaluateEach(conds, sooner).value, dominant) == Some(verdict)
    requires forall i :: 0 <= i < |conds| ==> Sound(conds[i], later)
    ensures EvaluateEach(conds, later).Ok? && Combine(EvaluateEach(conds, later).value, dominant) == Some(verdict)
    decreases conds
  {
    EachEvaluated(conds, sooner);
    EachEvaluated(conds, later);
    var before := EvaluateEach(conds, sooner).value;
    forall i | 0 <= i < |conds|
      ensures Evaluate(conds[i], later).Ok?
      ensures before[i].Some? ==> Evaluate(conds[i], later) == Ok(before[i])
    {
      RaisesIffUnsound(conds[i], later);
      if before[i].Some? {
        SettledStaysSettled(conds[i], sooner, later, before[i].value);
      }
    }
    var after := EvaluateEach(conds, later).value;
    CombinedStaysSettled(before, after, dominant);
  }

  lemma CombinedStaysSettled(before: seq<Option<bool>>, after: seq<Option<bool>>, dominant: bool)
    requires |before| == |after| && forall i :: 0 <= i < |before| && before[i].Some? ==> after[i] == before[i]
    requires Combine(before, dominant).Some?
    ensures Combine(after, dominant) == Combine(before, dominant)
  {
    if Some(dominant) in before {
      var i :| 0 <= i < |before| && before[i] == Some(dominant);
      assert after[i] == Some(dominant);
    } else {
      forall i | 0 <= i < |before| ensures after[i] == Some(!dominant) {
        assert before[i] in before;
        assert before[i].Some? && before[i] != Some(dominant);
        assert before[i] == Some(before[i].value) && before[i].value == !dominant;
      }
    }
  }

  /** So a verdict is the ordinary reading of every completion that can be read. */
  lemma SettledHoldsInEveryCompletion(cond: Cond, sooner: Records, later: Records, verdict: bool)
    requires Grows(sooner, later) && Evaluate(cond, sooner) == Ok(Some(verdict))
    requires AllPresent(cond, later) && Sound(cond, later)
    ensures Holds(cond, later) == verdict
  {
    SettledStaysSettled(cond, sooner, later, verdict);
    PresentIsDecided(cond, later);
  }

  /** An undecided condition may yet read the same in every completion: it is not decided early. */
  lemma UndecidedThoughCertain(ref: FieldRef, value: Literal)
    ensures var leaf := Compare(ref, Eq, value); var cond := AnyOf([leaf, Not(leaf)]);
      && Evaluate(cond, map[]) == Ok(None)
      && forall records :: Holds(cond, records)
  {
    var leaf := Compare(ref, Eq, value);
    var cond := AnyOf([leaf, Not(leaf)]);
    EachEvaluated(cond.some, map[]);
    assert Evaluate(cond.some[0], map[]) == Ok(None) && Evaluate(cond.some[1], map[]) == Ok(None);
    forall records ensures Holds(cond, records) {
      assert Holds(cond.some[0], records) || Holds(cond.some[1], records);
    }
  }

  /** A settled verdict can still be lost: a later record that shadows status makes a leaf raise. */
  lemma SettledCanRaiseLater(entry: string, status: NodeStatus)
    ensures exists cond, sooner, later ::
      && Grows(sooner, later) && Evaluate(cond, sooner) == Ok(Some(true)) && Evaluate(cond, later) == Raised(Shadowed)
  {
    var cond := Compare(FieldRef(entry, STATUS), Eq, Text(StatusText(status)));
    var sooner: Records := map[entry := Record(map[], status)];
    var later: Records := map[entry := Record(map[STATUS := Text(StatusText(status))], status)];
    assert Evaluate(cond, sooner) == Ok(Some(true)) && Evaluate(cond, later) == Raised(Shadowed);
    assert Grows(sooner, later);
  }
}
