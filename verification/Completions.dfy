/**
  What an undecided condition leaves open: when no field is read twice, exactly which verdicts
  some later, readable records could give it.
 */
module Completions {
  import opened Strings
  import opened Wrappers
  import opened Condition

  /** A guess for every field. */
  type Valuation = FieldRef -> Fact

  predicate HoldsUnder(cond: Cond, val: Valuation)
    decreases cond
  {
    match cond
    case Compare(ref, op, value) => Applied(op, val(ref), value) == Ok(true)
    case Not(inner) => !HoldsUnder(inner, val)
    case AllOf(all) => forall i :: 0 <= i < |all| ==> HoldsUnder(all[i], val)
    case AnyOf(some) => exists i :: 0 <= i < |some| && HoldsUnder(some[i], val)
  }

  predicate SoundUnder(cond: Cond, val: Valuation)
    decreases cond
  {
    match cond
    case Compare(ref, op, value) => Applied(op, val(ref), value).Ok?
    case Not(inner) => SoundUnder(inner, val)
    case AllOf(all) => forall i :: 0 <= i < |all| ==> SoundUnder(all[i], val)
    case AnyOf(some) => forall i :: 0 <= i < |some| ==> SoundUnder(some[i], val)
  }

  /** No field is read by two leaves. */
  predicate ReadOnce(cond: Cond)
    decreases cond
  {
    match cond
    case Compare(_, _, _) => true
    case Not(inner) => ReadOnce(inner)
    case AllOf(all) => (forall i :: 0 <= i < |all| ==> ReadOnce(all[i])) && Disjoint(all)
    case AnyOf(some) => (forall i :: 0 <= i < |some| ==> ReadOnce(some[i])) && Disjoint(some)
  }

  predicate Disjoint(conds: seq<Cond>)
  {
    forall i, j :: 0 <= i < j < |conds| ==> References(conds[i]) !! References(conds[j])
  }

  predicate Missing(ref: FieldRef, records: Records)
  {
    Lookup(ref, records) == Ok(None)
  }

  // ---------------------------------------------------------------- what a missing field could answer

  predicate IsStatus(s: string)
  {
    exists status :: StatusText(status) == s
  }

  /** What a later record could hold there: a status is one of the vocabulary, a fact anything. */
  predicate CouldHold(ref: FieldRef, f: Fact)
  {
    ref.field == STATUS ==> f.Text? && IsStatus(f.s)
  }

  const LEAST_STATUS := "blocked"
  const GREATEST_STATUS := "refused"

  /** Some status answers b: a listed text for equality, one on the right side of an end of their order otherwise. */
  predicate StatusCanAnswer(op: Op, value: Literal, b: bool)
  {
    match op
    case Eq => !b || (value.Text? && IsStatus(value.s))
    case Ne => b || (value.Text? && IsStatus(value.s))
    case Lt => value.Text? && if b then Before(LEAST_STATUS, value.s) else !Before(GREATEST_STATUS, value.s)
    case Le => value.Text? && if b then !Before(value.s, LEAST_STATUS) else Before(value.s, GREATEST_STATUS)
    case Gt => value.Text? && if b then Before(value.s, GREATEST_STATUS) else !Before(value.s, LEAST_STATUS)
    case Ge => value.Text? && if b then !Before(GREATEST_STATUS, value.s) else Before(LEAST_STATUS, value.s)
  }

  /** Among facts only this fails: nothing comes before the empty text. */
  predicate CanAnswer(ref: FieldRef, op: Op, value: Literal, b: bool)
  {
    if ref.field == STATUS then StatusCanAnswer(op, value, b)
    else !(value == Text("") && ((op.Lt? && b) || (op.Ge? && !b)))
  }

  predicate Flexible(ref: FieldRef, op: Op, value: Literal)
  {
    CanAnswer(ref, op, value, true) && CanAnswer(ref, op, value, false)
  }

  predicate FlexibleWhereMissing(cond: Cond, records: Records)
    decreases cond
  {
    match cond
    case Compare(ref, op, value) => Missing(ref, records) ==> Flexible(ref, op, value)
    case Not(inner) => FlexibleWhereMissing(inner, records)
    case AllOf(all) => forall i :: 0 <= i < |all| ==> FlexibleWhereMissing(all[i], records)
    case AnyOf(some) => forall i :: 0 <= i < |some| ==> FlexibleWhereMissing(some[i], records)
  }

  /** Each missing field could hold something its comparison does not raise on. */
  predicate AnswerableWhereMissing(cond: Cond, records: Records)
    decreases cond
  {
    match cond
    case Compare(ref, op, value) =>
      Missing(ref, records) ==> CanAnswer(ref, op, value, true) || CanAnswer(ref, op, value, false)
    case Not(inner) => AnswerableWhereMissing(inner, records)
    case AllOf(all) => forall i :: 0 <= i < |all| ==> AnswerableWhereMissing(all[i], records)
    case AnyOf(some) => forall i :: 0 <= i < |some| ==> AnswerableWhereMissing(some[i], records)
  }

  function ForeseenLeaf(ref: FieldRef, op: Op, value: Literal, records: Records): Option<bool>
  {
    if Missing(ref, records) then
      if Flexible(ref, op, value) then None else Some(CanAnswer(ref, op, value, true))
    else
      match EvaluateCompare(ref, op, value, records)
      case Raised(_) => None
      case Ok(verdict) => verdict
  }

  /** The verdict of a reader who also knows which missing fields leave their comparison no choice. */
  function Foreseen(cond: Cond, records: Records): Option<bool>
    decreases cond
  {
    match cond
    case Compare(ref, op, value) => ForeseenLeaf(ref, op, value, records)
    case Not(inner) =>
      (match Foreseen(inner, records)
       case None => None
       case Some(b) => Some(!b))
    case AllOf(all) => Combine(seq(|all|, i requires 0 <= i < |all| => Foreseen(all[i], records)), false)
    case AnyOf(some) => Combine(seq(|some|, i requires 0 <= i < |some| => Foreseen(some[i], records)), true)
  }

  // ---------------------------------------------------------------- a leaf

  lemma LongerComesAfter(s: string)
    ensures Before(s, s + "a") && !Before(s + "a", s) && s != s + "a"
  {
    var t := s + "a";
    assert s[..|s|] == t[..|s|];
    BeforeIffFirstDifference(s, t);
    BeforeIsTotal(s, t);
    assert |t| != |s|;
  }

  lemma StatusesInOrder(status: NodeStatus)
    ensures !Before(StatusText(status), LEAST_STATUS) && !Before(GREATEST_STATUS, StatusText(status))
  {
    BeforeIsTotal(LEAST_STATUS, LEAST_STATUS);
    BeforeIsTotal(GREATEST_STATUS, GREATEST_STATUS);
  }

  /** The order is total, so one text on either side may be replaced by another that is no nearer. */
  lemma BeforeWidens(s: string, t: string, u: string)
    ensures Before(s, t) && !Before(u, t) ==> Before(s, u)
    ensures !Before(t, s) && Before(t, u) ==> Before(s, u)
  {
    BeforeIsTotal(s, t);
    BeforeIsTotal(t, u);
    if Before(s, t) && Before(t, u) {
      BeforeIsTransitive(s, t, u);
    }
  }

  /** A text for either answer. */
  function TextFor(op: Op, s: string, b: bool): string
  {
    match op
    case Eq => if b then s else s + "a"
    case Ne => if b then s + "a" else s
    case Lt => if b then "" else s
    case Le => if b then s else s + "a"
    case Gt => if b then s + "a" else s
    case Ge => if b then s else ""
  }

  /** A number for either answer. */
  function NumberFor(op: Op, n: real, b: bool): real
  {
    match op
    case Eq => if b then n else n + 1.0
    case Ne => if b then n + 1.0 else n
    case Lt => if b then n - 1.0 else n
    case Le => if b then n else n + 1.0
    case Gt => if b then n + 1.0 else n
    case Ge => if b then n else n - 1.0
  }

  function FactFor(op: Op, value: Literal, b: bool): Fact
  {
    if value.Text? then Text(TextFor(op, value.s, b)) else Num(NumberFor(op, Numeric(value), b))
  }

  /** A status for either answer: the named one or another, or an end of their order. */
  function StatusFor(op: Op, value: Literal, b: bool): Fact
  {
    match op
    case Eq => if b then value else if value == Text("done") then Text("failed") else Text("done")
    case Ne => if !b then value else if value == Text("done") then Text("failed") else Text("done")
    case Lt => Text(if b then LEAST_STATUS else GREATEST_STATUS)
    case Le => Text(if b then LEAST_STATUS else GREATEST_STATUS)
    case Gt => Text(if b then GREATEST_STATUS else LEAST_STATUS)
    case Ge => Text(if b then GREATEST_STATUS else LEAST_STATUS)
  }

  function FillerFor(ref: FieldRef, op: Op, value: Literal, b: bool): Fact
  {
    if ref.field == STATUS then StatusFor(op, value, b) else FactFor(op, value, b)
  }

  lemma FactAnswers(op: Op, value: Literal, b: bool)
    requires !(value == Text("") && ((op.Lt? && b) || (op.Ge? && !b)))
    ensures Applied(op, FactFor(op, value, b), value) == Ok(b)
  {
    if value.Text? {
      LongerComesAfter(value.s);
      BeforeIsTotal(value.s, value.s);
      BeforeIsTotal("", value.s);
    } else {
      NumbersCompareAsNumbers(FactFor(op, value, b), value);
    }
  }

  lemma StatusAnswers(op: Op, value: Literal, b: bool)
    requires StatusCanAnswer(op, value, b)
    ensures Applied(op, StatusFor(op, value, b), value) == Ok(b)
    ensures StatusFor(op, value, b).Text? && IsStatus(StatusFor(op, value, b).s)
  {
    assert StatusText(Done) == "done" && StatusText(Failed) == "failed";
    assert StatusText(Blocked) == LEAST_STATUS && StatusText(Refused) == GREATEST_STATUS;
    if value.Text? {
      BeforeIsTotal(LEAST_STATUS, value.s);
      BeforeIsTotal(GREATEST_STATUS, value.s);
    }
  }

  /** A status that answers shows that the end of the order on its side does. */
  lemma AnsweringStatus(op: Op, status: NodeStatus, value: Literal, b: bool)
    requires Applied(op, Text(StatusText(status)), value) == Ok(b)
    ensures StatusCanAnswer(op, value, b)
  {
    if value.Text? {
      StatusesInOrder(status);
      var t := StatusText(status);
      BeforeIsTotal(t, value.s);
      BeforeWidens(LEAST_STATUS, t, value.s);
      BeforeWidens(value.s, LEAST_STATUS, t);
      BeforeWidens(value.s, t, GREATEST_STATUS);
      BeforeWidens(t, GREATEST_STATUS, value.s);
    }
  }

  /** CanAnswer is exact: something the field could hold answers so. */
  lemma CanAnswerIff(ref: FieldRef, op: Op, value: Literal, b: bool)
    ensures CanAnswer(ref, op, value, b) <==> exists f :: CouldHold(ref, f) && Applied(op, f, value) == Ok(b)
  {
    if CanAnswer(ref, op, value, b) {
      if ref.field == STATUS {
        StatusAnswers(op, value, b);
      } else {
        FactAnswers(op, value, b);
      }
      assert CouldHold(ref, FillerFor(ref, op, value, b));
    }
    forall f | CouldHold(ref, f) && Applied(op, f, value) == Ok(b) ensures CanAnswer(ref, op, value, b) {
      if ref.field == STATUS {
        var status :| StatusText(status) == f.s;
        AnsweringStatus(op, status, value, b);
      } else if f.Text? {
        BeforeIsTotal("", f.s);
      }
    }
  }

  /** So a flexible leaf is exactly one that later facts could make both true and false. */
  lemma FlexibleIff(ref: FieldRef, op: Op, value: Literal)
    ensures Flexible(ref, op, value) <==>
      (exists f :: CouldHold(ref, f) && Applied(op, f, value) == Ok(true)) &&
      (exists f :: CouldHold(ref, f) && Applied(op, f, value) == Ok(false))
  {
    CanAnswerIff(ref, op, value, true);
    CanAnswerIff(ref, op, value, false);
  }

  lemma LookupCouldHold(ref: FieldRef, records: Records)
    requires Present(ref, records)
    ensures CouldHold(ref, Lookup(ref, records).value.value)
  {
  }

  // ---------------------------------------------------------------- choosing the missing facts

  /** The guess is what records hold where they hold something, and otherwise what they could. */
  ghost predicate Extends(cond: Cond, records: Records, val: Valuation)
  {
    forall ref :: ref in References(cond) ==>
      && (Present(ref, records) ==> val(ref) == Lookup(ref, records).value.value)
      && CouldHold(ref, val(ref))
  }

  lemma {:induction false} SameGuesses(cond: Cond, val: Valuation, other: Valuation)
    requires forall ref :: ref in References(cond) ==> val(ref) == other(ref)
    ensures HoldsUnder(cond, val) == HoldsUnder(cond, other) && SoundUnder(cond, val) == SoundUnder(cond, other)
    decreases cond
  {
    match cond
    case Compare(ref, _, _) => assert ref in References(cond);
    case Not(inner) => SameGuesses(inner, val, other);
    case AllOf(all) =>
      forall i | 0 <= i < |all|
        ensures HoldsUnder(all[i], val) == HoldsUnder(all[i], other)
        ensures SoundUnder(all[i], val) == SoundUnder(all[i], other)
      {
        ChildReferences(cond, i);
        SameGuesses(all[i], val, other);
      }
    case AnyOf(some) =>
      forall i | 0 <= i < |some|
        ensures HoldsUnder(some[i], val) == HoldsUnder(some[i], other)
        ensures SoundUnder(some[i], val) == SoundUnder(some[i], other)
      {
        ChildReferences(cond, i);
        SameGuesses(some[i], val, other);
      }
  }

  /** The guess makes this condition come out this way. */
  ghost predicate Decides(cond: Cond, records: Records, val: Valuation, b: bool)
  {
    Extends(cond, records, val) && SoundUnder(cond, val) && HoldsUnder(cond, val) == b
  }

  predicate MayBe(verdict: Option<bool>, b: bool)
  {
    verdict.None? || verdict.value == b
  }

  predicate Ready(cond: Cond, records: Records)
  {
    ReadOnce(cond) && AnswerableWhereMissing(cond, records) && Sound(cond, records)
  }

  lemma ChooseLeaf(ref: FieldRef, op: Op, value: Literal, records: Records, b: bool) returns (val: Valuation)
    requires Ready(Compare(ref, op, value), records) && MayBe(ForeseenLeaf(ref, op, value, records), b)
    ensures Decides(Compare(ref, op, value), records, val, b)
  {
    if Missing(ref, records) {
      CanAnswerIff(ref, op, value, b);
      var f :| CouldHold(ref, f) && Applied(op, f, value) == Ok(b);
      val := _ => f;
    } else {
      LeafRaisesIffUnsound(ref, op, value, records);
      LookupCouldHold(ref, records);
      var actual := Lookup(ref, records).value.value;
      val := _ => actual;
    }
  }

  /** Whatever the foreseen verdict leaves open, some guess makes a condition come out that way. */
  lemma {:induction false} Choose(cond: Cond, records: Records, b: bool) returns (val: Valuation)
    requires Ready(cond, records) && MayBe(Foreseen(cond, records), b)
    ensures Decides(cond, records, val, b)
    decreases cond, 0
  {
    match cond
    case Compare(ref, op, value) => val := ChooseLeaf(ref, op, value, records, b);
    case Not(inner) => val := Choose(inner, records, !b);
    case AllOf(all) =>
      var results := seq(|all|, i requires 0 <= i < |all| => Foreseen(all[i], records));
      val := ChooseEach(all, records, results, b);
      DecidesGroup(all, records, results, val, false, b);
      ExtendsGroup(cond, records, val);
    case AnyOf(some) =>
      var results := seq(|some|, i requires 0 <= i < |some| => Foreseen(some[i], records));
      val := ChooseEach(some, records, results, b);
      DecidesGroup(some, records, results, val, true, b);
      ExtendsGroup(cond, records, val);
  }

  function Aim(verdict: Option<bool>, b: bool): bool
  {
    if verdict.Some? then verdict.value else b
  }

  /**
    Each child aims at its own verdict, or at b where it has none; disjoint fields let the
    guesses be put together.
   */
  lemma {:induction false} ChooseEach(conds: seq<Cond>, records: Records, results: seq<Option<bool>>, b: bool)
      returns (val: Valuation)
    requires Disjoint(conds) && |results| == |conds|
    requires forall i :: 0 <= i < |conds| ==> Ready(conds[i], records) && Foreseen(conds[i], records) == results[i]
    ensures forall i :: 0 <= i < |conds| ==> Decides(conds[i], records, val, Aim(results[i], b))
    decreases conds, 1
  {
    if conds == [] {
      val := _ => Other(0);
    } else {
      var first := Choose(conds[0], records, Aim(results[0], b));
      var rest := ChooseEach(conds[1..], records, results[1..], b);
      var mine := References(conds[0]);
      val := ref => if ref in mine then first(ref) else rest(ref);
      forall i | 0 <= i < |conds| ensures Decides(conds[i], records, val, Aim(results[i], b)) {
        if i == 0 {
          SameGuesses(conds[0], val, first);
        } else {
          assert conds[i] == conds[1..][i - 1] && results[i] == results[1..][i - 1];
          assert Decides(conds[1..][i - 1], records, rest, Aim(results[1..][i - 1], b));
          forall ref | ref in References(conds[i]) ensures val(ref) == rest(ref) {
            assert References(conds[0]) !! References(conds[i]);
          }
          SameGuesses(conds[i], val, rest);
        }
      }
    }
  }

  lemma ExtendsGroup(cond: Cond, records: Records, val: Valuation)
    requires cond.AllOf? || cond.AnyOf?
    requires forall i :: 0 <= i < |Children(cond)| ==> Extends(Children(cond)[i], records, val)
    ensures Extends(cond, records, val)
  {
    forall ref | ref in References(cond)
      ensures (Present(ref, records) ==> val(ref) == Lookup(ref, records).value.value) && CouldHold(ref, val(ref))
    {
      var i :| 0 <= i < |Children(cond)| && ref in References(Children(cond)[i]);
      assert Extends(Children(cond)[i], records, val);
    }
  }

  /** A group comes out as its verdict leaves open when each child aims so. */
  lemma DecidesGroup(conds: seq<Cond>, records: Records, results: seq<Option<bool>>, val: Valuation, dominant: bool,
        b: bool)
    requires |results| == |conds| && MayBe(Combine(results, dominant), b)
    requires forall i :: 0 <= i < |conds| ==> Decides(conds[i], records, val, Aim(results[i], b))
    ensures b == dominant <==> exists i :: 0 <= i < |conds| && HoldsUnder(conds[i], val) == dominant
  {
    if b == dominant {
      if Some(dominant) in results {
        var i :| 0 <= i < |results| && results[i] == Some(dominant);
        assert HoldsUnder(conds[i], val) == dominant;
      } else {
        assert None in results;
        var i :| 0 <= i < |results| && results[i] == None;
        assert HoldsUnder(conds[i], val) == dominant;
      }
    } else {
      forall i | 0 <= i < |conds| ensures HoldsUnder(conds[i], val) != dominant {
        assert results[i] in results;
        assert results[i] != Some(dominant);
      }
    }
  }

  // ---------------------------------------------------------------- records that hold the guess

  ghost function StatusIn(f: Fact): NodeStatus
  {
    if f.Text? && IsStatus(f.s) then var status :| StatusText(status) == f.s; status else Done
  }

  /** The record of an entry with a guess for each of these fields it does not hold. */
  ghost function Filled(entry: string, records: Records, refs: set<FieldRef>, val: Valuation): Record
  {
    var held := if entry in records then records[entry].facts else map[];
    var added := map ref | ref in refs && ref.entry == entry && ref.field != STATUS && ref.field !in held ::
      ref.field := val(ref);
    Record(added + held,
           if entry in records then records[entry].status else StatusIn(val(FieldRef(entry, STATUS))))
  }

  ghost function Completed(records: Records, refs: set<FieldRef>, val: Valuation): Records
  {
    map entry | entry in records.Keys + (set ref | ref in refs :: ref.entry) :: Filled(entry, records, refs, val)
  }

  lemma CompletedGrows(records: Records, refs: set<FieldRef>, val: Valuation)
    ensures Grows(records, Completed(records, refs, val))
  {
  }

  lemma CompletedReads(records: Records, refs: set<FieldRef>, val: Valuation, ref: FieldRef)
    requires ref in refs && Lookup(ref, records).Ok? && CouldHold(ref, val(ref))
    requires Present(ref, records) ==> val(ref) == Lookup(ref, records).value.value
    ensures Lookup(ref, Completed(records, refs, val)) == Ok(Some(val(ref)))
  {
    var later := Completed(records, refs, val);
    assert ref.entry in later;
    var record := later[ref.entry];
    assert STATUS !in record.facts;
    if ref.field != STATUS {
      assert ref.field in record.facts;
    }
  }

  lemma {:induction false} SoundLookups(cond: Cond, records: Records, ref: FieldRef)
    requires Sound(cond, records) && ref in References(cond)
    ensures Lookup(ref, records).Ok?
  {
    match cond
    case Compare(_, _, _) =>
    case Not(inner) => SoundLookups(inner, records, ref);
    case AllOf(all) =>
      var i :| 0 <= i < |all| && ref in References(all[i]);
      SoundLookups(all[i], records, ref);
    case AnyOf(some) =>
      var i :| 0 <= i < |some| && ref in References(some[i]);
      SoundLookups(some[i], records, ref);
  }

  /** Records that read as guessed make the condition come out as guessed. */
  lemma {:induction false} ReadsAsGuessed(cond: Cond, records: Records, val: Valuation)
    requires forall ref :: ref in References(cond) ==> Lookup(ref, records) == Ok(Some(val(ref)))
    ensures Holds(cond, records) == HoldsUnder(cond, val) && Sound(cond, records) == SoundUnder(cond, val)
    decreases cond
  {
    match cond
    case Compare(ref, op, value) =>
      assert ref in References(cond);
      LeafRaisesIffUnsound(ref, op, value, records);
    case Not(inner) => ReadsAsGuessed(inner, records, val);
    case AllOf(all) =>
      forall i | 0 <= i < |all|
        ensures Holds(all[i], records) == HoldsUnder(all[i], val)
        ensures Sound(all[i], records) == SoundUnder(all[i], val)
      {
        ChildReferences(cond, i);
        ReadsAsGuessed(all[i], records, val);
      }
    case AnyOf(some) =>
      forall i | 0 <= i < |some|
        ensures Holds(some[i], records) == HoldsUnder(some[i], val)
        ensures Sound(some[i], records) == SoundUnder(some[i], val)
      {
        ChildReferences(cond, i);
        ReadsAsGuessed(some[i], records, val);
      }
  }

  /** later completes records for cond, can be read there, and makes it come out as b. */
  predicate Completes(cond: Cond, records: Records, later: Records, b: bool)
  {
    Grows(records, later) && AllPresent(cond, later) && Sound(cond, later) && Holds(cond, later) == b
  }

  /** What the foreseen verdict leaves open, some completion realises. */
  lemma CompletionFor(cond: Cond, records: Records, b: bool) returns (later: Records)
    requires Ready(cond, records) && MayBe(Foreseen(cond, records), b)
    ensures Completes(cond, records, later, b)
  {
    var refs := References(cond);
    var val := Choose(cond, records, b);
    later := Completed(records, refs, val);
    CompletedGrows(records, refs, val);
    forall ref | ref in refs ensures Lookup(ref, later) == Ok(Some(val(ref))) {
      SoundLookups(cond, records, ref);
      CompletedReads(records, refs, val, ref);
    }
    ReadsAsGuessed(cond, later, val);
  }

  // ---------------------------------------------------------------- what completions there are

  lemma CompletedLeaf(ref: FieldRef, op: Op, value: Literal, records: Records, later: Records)
    requires Grows(records, later) && Present(ref, later) && LeafSound(ref, op, value, later)
    ensures AnswerableWhereMissing(Compare(ref, op, value), records)
    ensures MayBe(ForeseenLeaf(ref, op, value, records), Holds(Compare(ref, op, value), later))
  {
    LeafRaisesIffUnsound(ref, op, value, later);
    LookupCouldHold(ref, later);
    if Missing(ref, records) {
      CanAnswerIff(ref, op, value, Holds(Compare(ref, op, value), later));
    } else if Present(ref, records) {
      GrownLookup(ref, records, later);
    }
  }

  /** Every readable completion comes out as foreseen, and shows that each missing field could be answered. */
  lemma {:induction false} CompletedAsForeseen(cond: Cond, records: Records, later: Records)
    requires Grows(records, later) && AllPresent(cond, later) && Sound(cond, later)
    ensures AnswerableWhereMissing(cond, records)
    ensures MayBe(Foreseen(cond, records), Holds(cond, later))
    decreases cond
  {
    match cond
    case Compare(ref, op, value) =>
      assert ref in References(cond);
      CompletedLeaf(ref, op, value, records, later);
    case Not(inner) => CompletedAsForeseen(inner, records, later);
    case AllOf(all) =>
      forall i | 0 <= i < |all|
        ensures AnswerableWhereMissing(all[i], records) && MayBe(Foreseen(all[i], records), Holds(all[i], later))
      {
        ChildReferences(cond, i);
        CompletedAsForeseen(all[i], records, later);
      }
      CombinedAsForeseen(all, records, later, false);
    case AnyOf(some) =>
      forall i | 0 <= i < |some|
        ensures AnswerableWhereMissing(some[i], records) && MayBe(Foreseen(some[i], records), Holds(some[i], later))
      {
        ChildReferences(cond, i);
        CompletedAsForeseen(some[i], records, later);
      }
      CombinedAsForeseen(some, records, later, true);
  }

  lemma CombinedAsForeseen(conds: seq<Cond>, records: Records, later: Records, dominant: bool)
    requires forall i :: 0 <= i < |conds| ==> MayBe(Foreseen(conds[i], records), Holds(conds[i], later))
    ensures
      var verdict := Combine(seq(|conds|, i requires 0 <= i < |conds| => Foreseen(conds[i], records)), dominant);
      MayBe(verdict, dominant) || forall i :: 0 <= i < |conds| ==> Holds(conds[i], later) != dominant
    ensures
      var verdict := Combine(seq(|conds|, i requires 0 <= i < |conds| => Foreseen(conds[i], records)), dominant);
      MayBe(verdict, !dominant) || exists i :: 0 <= i < |conds| && Holds(conds[i], later) == dominant
  {
    var results := seq(|conds|, i requires 0 <= i < |conds| => Foreseen(conds[i], records));
    forall i | 0 <= i < |conds| ensures results[i] in results && results[i] == Foreseen(conds[i], records) {
    }
    if Some(dominant) in results {
      var i :| 0 <= i < |results| && results[i] == Some(dominant);
      assert Holds(conds[i], later) == dominant;
    } else if None !in results {
      forall i | 0 <= i < |conds| ensures Holds(conds[i], later) != dominant {
        assert results[i].Some?;
      }
    }
  }

  /** Records that can be read could be read before they grew. */
  lemma {:induction false} SoundEarlier(cond: Cond, sooner: Records, later: Records)
    requires Grows(sooner, later) && Sound(cond, later)
    ensures Sound(cond, sooner)
    decreases cond
  {
    match cond
    case Compare(_, _, _) =>
    case Not(inner) => SoundEarlier(inner, sooner, later);
    case AllOf(all) =>
      forall i | 0 <= i < |all| ensures Sound(all[i], sooner) {
        SoundEarlier(all[i], sooner, later);
      }
    case AnyOf(some) =>
      forall i | 0 <= i < |some| ensures Sound(some[i], sooner) {
        SoundEarlier(some[i], sooner, later);
      }
  }

  /**
    When no field is read twice, a condition has a completion that comes out as b exactly if
    it can be read now, each missing field could be answered and the foreseen verdict is not
    the other one.
   */
  lemma CompletionIff(cond: Cond, records: Records, b: bool)
    requires ReadOnce(cond)
    ensures (exists later :: Completes(cond, records, later, b)) <==>
      Sound(cond, records) && AnswerableWhereMissing(cond, records) && MayBe(Foreseen(cond, records), b)
  {
    if Ready(cond, records) && MayBe(Foreseen(cond, records), b) {
      var later := CompletionFor(cond, records, b);
    }
    forall later | Completes(cond, records, later, b)
      ensures Ready(cond, records) && MayBe(Foreseen(cond, records), b)
    {
      SoundEarlier(cond, records, later);
      CompletedAsForeseen(cond, records, later);
    }
  }

  /** The condition can still come out both ways. */
  ghost predicate Open(cond: Cond, records: Records)
  {
    (exists later :: Completes(cond, records, later, true)) && (exists later :: Completes(cond, records, later, false))
  }

  /** What can still come out both ways is undecided, however often it reads a field. */
  lemma OpenIsUndecided(cond: Cond, records: Records)
    requires Open(cond, records)
    ensures Evaluate(cond, records) == Ok(None)
  {
    var yes :| Completes(cond, records, yes, true);
    var no :| Completes(cond, records, no, false);
    SoundEarlier(cond, records, yes);
    RaisesIffUnsound(cond, records);
    var verdict := Evaluate(cond, records).value;
    if verdict.Some? {
      SettledHoldsInEveryCompletion(cond, records, yes, verdict.value);
      SettledHoldsInEveryCompletion(cond, records, no, verdict.value);
    }
  }

  /** The converse, for a condition that reads no field twice, holds exactly when nothing missing forces it. */
  lemma UndecidedIsOpenIff(cond: Cond, records: Records)
    requires ReadOnce(cond) && Evaluate(cond, records) == Ok(None)
    ensures Open(cond, records) <==> AnswerableWhereMissing(cond, records) && Foreseen(cond, records) == None
  {
    RaisesIffUnsound(cond, records);
    CompletionIff(cond, records, true);
    CompletionIff(cond, records, false);
  }

  /** Missing fields that are all compared flexibly force nothing. */
  lemma {:induction false} FlexibleForcesNothing(cond: Cond, records: Records)
    requires FlexibleWhereMissing(cond, records) && Evaluate(cond, records).Ok?
    ensures AnswerableWhereMissing(cond, records) && Ok(Foreseen(cond, records)) == Evaluate(cond, records)
    decreases cond
  {
    match cond
    case Compare(_, _, _) =>
    case Not(inner) => FlexibleForcesNothing(inner, records);
    case AllOf(all) =>
      EachEvaluated(all, records);
      forall i | 0 <= i < |all|
        ensures AnswerableWhereMissing(all[i], records) && Ok(Foreseen(all[i], records)) == Evaluate(all[i], records)
      {
        FlexibleForcesNothing(all[i], records);
      }
      assert EvaluateEach(all, records).value == seq(|all|, i requires 0 <= i < |all| => Foreseen(all[i], records));
    case AnyOf(some) =>
      EachEvaluated(some, records);
      forall i | 0 <= i < |some|
        ensures AnswerableWhereMissing(some[i], records) && Ok(Foreseen(some[i], records)) == Evaluate(some[i], records)
      {
        FlexibleForcesNothing(some[i], records);
      }
      assert EvaluateEach(some, records).value == seq(|some|, i requires 0 <= i < |some| => Foreseen(some[i], records));
  }

  /**
    When no field is read twice and every missing one is compared flexibly, a condition is
    undecided exactly when it can still come out both ways.
   */
  lemma UndecidedIffOpen(cond: Cond, records: Records)
    requires ReadOnce(cond) && FlexibleWhereMissing(cond, records)
    ensures Evaluate(cond, records) == Ok(None) <==> Open(cond, records)
  {
    if Evaluate(cond, records) == Ok(None) {
      FlexibleForcesNothing(cond, records);
      UndecidedIsOpenIff(cond, records);
    }
    if Open(cond, records) {
      OpenIsUndecided(cond, records);
    }
  }

  /** A settled verdict is about something, a completion, exactly when each missing field could be answered. */
  lemma SettledHasCompletion(cond: Cond, records: Records, verdict: bool)
    requires ReadOnce(cond) && Evaluate(cond, records) == Ok(Some(verdict))
    ensures (exists later :: Completes(cond, records, later, verdict)) <==> AnswerableWhereMissing(cond, records)
  {
    RaisesIffUnsound(cond, records);
    CompletionIff(cond, records, verdict);
    if AnswerableWhereMissing(cond, records) && Foreseen(cond, records) == Some(!verdict) {
      var later := CompletionFor(cond, records, !verdict);
      SettledHoldsInEveryCompletion(cond, records, later, verdict);
    }
  }

  /** A status compared with a text outside the vocabulary is undecided, though it is foreseen to be false. */
  lemma UnlistedStatusNeverHolds(entry: string, s: string)
    requires !IsStatus(s)
    ensures var cond := Compare(FieldRef(entry, STATUS), Eq, Text(s));
      && Evaluate(cond, map[]) == Ok(None) && Foreseen(cond, map[]) == Some(false)
      && forall later :: !Completes(cond, map[], later, true)
  {
    var cond := Compare(FieldRef(entry, STATUS), Eq, Text(s));
    assert Missing(cond.ref, map[]);
    CompletionIff(cond, map[], true);
  }

  /** Such a text is "pending": no field is read twice, nothing raises, and yet it cannot come out both ways. */
  lemma PendingNeverHolds(entry: string)
    ensures var cond := Compare(FieldRef(entry, STATUS), Eq, Text("pending"));
      && ReadOnce(cond) && Sound(cond, map[])
      && Evaluate(cond, map[]) == Ok(None) && !Open(cond, map[])
  {
    forall status: NodeStatus ensures StatusText(status) != "pending" {
      assert StatusText(status)[0] != 'p';
    }
    UnlistedStatusNeverHolds(entry, "pending");
  }
}
