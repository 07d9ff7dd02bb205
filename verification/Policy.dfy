/**
  The tier policy: resolving a role or a model to a row, the kind defaults over it, the check
  that every offered row's executor is wired, and pinning every role onto one row in place.
 */
module Policy {
  import opened Wrappers

  datatype TierRow = TierRow(alias: string, executor: string, rank: int, available: bool, roles: seq<string>)

  datatype Rejection = NothingToResolve | NoRowListsRole | NoSuchModel | ModelUnavailable | ModelLacksRole

  predicate Offers(row: TierRow, role: string)
  {
    row.available && role in row.roles
  }

  function Offering(rows: seq<TierRow>, role: string): seq<TierRow>
  {
    if rows == [] then []
    else
      var last := rows[|rows| - 1];
      Offering(rows[..|rows| - 1], role) + (if Offers(last, role) then [last] else [])
  }

  /** A row put behind every row of its rank or lower. */
  function Inserted(row: TierRow, sorted: seq<TierRow>): seq<TierRow>
  {
    if sorted == [] || row.rank < sorted[0].rank then [row] + sorted
    else [sorted[0]] + Inserted(row, sorted[1..])
  }

  /** The rows by ascending rank, rows of one rank in their old order. */
  function SortedByRank(rows: seq<TierRow>): seq<TierRow>
  {
    if rows == [] then [] else Inserted(rows[|rows| - 1], SortedByRank(rows[..|rows| - 1]))
  }

  function FirstNamed(rows: seq<TierRow>, alias: string): (i: Option<nat>)
    ensures i.Some? ==> i.value < |rows| && rows[i.value].alias == alias
  {
    if rows == [] then None
    else if rows[0].alias == alias then Some(0)
    else match FirstNamed(rows[1..], alias) case None => None case Some(i) => Some(i + 1)
  }

  function ResolveByModel(rows: seq<TierRow>, role: Option<string>, model: string): Result<TierRow, Rejection>
  {
    match FirstNamed(rows, model)
    case None => Raised(NoSuchModel)
    case Some(i) =>
      if !rows[i].available then Raised(ModelUnavailable)
      else if role.Some? && role.value !in rows[i].roles then Raised(ModelLacksRole)
      else Ok(rows[i])
  }

  function ResolveRow(rows: seq<TierRow>, role: Option<string>, model: Option<string>): Result<TierRow, Rejection>
  {
    if model.Some? then ResolveByModel(rows, role, model.value)
    else if role.None? then Raised(NothingToResolve)
    else
      var candidates := SortedByRank(Offering(rows, role.value));
      if candidates == [] then Raised(NoRowListsRole) else Ok(candidates[0])
  }

  // ---------------------------------------------------------------- which row that is

  /** Row i offers the role, and no row that does ranks lower, or ranks the same and comes earlier. */
  predicate Cheapest(rows: seq<TierRow>, role: string, i: nat)
  {
    && i < |rows| && Offers(rows[i], role)
    && forall j :: 0 <= j < |rows| && Offers(rows[j], role) ==>
         rows[i].rank < rows[j].rank || (rows[i].rank == rows[j].rank && i <= j)
  }

  lemma {:induction false} HeadAfterInsert(rows: seq<TierRow>)
    requires rows != []
    ensures |SortedByRank(rows)| == |rows|
    ensures var head, last := SortedByRank(rows)[0], rows[|rows| - 1];
      head == if |rows| == 1 || last.rank < SortedByRank(rows[..|rows| - 1])[0].rank then last
              else SortedByRank(rows[..|rows| - 1])[0]
  {
    if |rows| == 1 {
      assert SortedByRank(rows[..0]) == [];
    } else {
      HeadAfterInsert(rows[..|rows| - 1]);
      InsertedLength(rows[|rows| - 1], SortedByRank(rows[..|rows| - 1]));
    }
  }

  lemma {:induction false} InsertedLength(row: TierRow, sorted: seq<TierRow>)
    ensures |Inserted(row, sorted)| == |sorted| + 1
  {
    if sorted != [] && row.rank >= sorted[0].rank {
      InsertedLength(row, sorted[1..]);
    }
  }

  /** The head of the sorted rows is the first of least rank. */
  lemma {:induction false} HeadIsFirstLeast(rows: seq<TierRow>) returns (i: nat)
    requires rows != []
    ensures |SortedByRank(rows)| == |rows| && i < |rows| && SortedByRank(rows)[0] == rows[i]
    ensures forall j :: 0 <= j < |rows| ==> rows[i].rank < rows[j].rank || (rows[i].rank == rows[j].rank && i <= j)
  {
    var n := |rows| - 1;
    HeadAfterInsert(rows);
    if n == 0 {
      i := 0;
    } else {
      i := HeadIsFirstLeast(rows[..n]);
      assert forall j :: 0 <= j < n ==> rows[..n][j] == rows[j];
      if rows[n].rank < rows[i].rank {
        i := n;
      }
    }
  }

  /** Where each offering row stands in the table. */
  lemma {:induction false} OfferingPlaces(rows: seq<TierRow>, role: string) returns (at: seq<nat>)
    ensures Places(at, rows, role, Offering(rows, role))
  {
    if rows == [] {
      at := [];
    } else {
      var n := |rows| - 1;
      at := OfferingPlaces(rows[..n], role);
      PlacesOneMore(at, rows, role, Offering(rows[..n], role));
      if Offers(rows[n], role) {
        at := at + [n];
      }
    }
  }

  /** at lists in order the places of just the rows that offer the role, and those rows are found. */
  ghost predicate Places(at: seq<nat>, rows: seq<TierRow>, role: string, found: seq<TierRow>)
  {
    && |at| == |found|
    && (forall k :: 0 <= k < |at| ==> at[k] < |rows| && rows[at[k]] == found[k] && Offers(rows[at[k]], role))
    && (forall k, l :: 0 <= k < l < |at| ==> at[k] < at[l])
    && (forall j :: 0 <= j < |rows| && Offers(rows[j], role) ==> j in at)
  }

  lemma PlacesOneMore(at: seq<nat>, rows: seq<TierRow>, role: string, found: seq<TierRow>)
    requires rows != [] && Places(at, rows[..|rows| - 1], role, found)
    ensures var n := |rows| - 1;
      if Offers(rows[n], role) then Places(at + [n], rows, role, found + [rows[n]]) else Places(at, rows, role, found)
  {
    var n := |rows| - 1;
    assert forall j :: 0 <= j < n ==> rows[..n][j] == rows[j];
    if Offers(rows[n], role) {
      assert (at + [n])[|at|] == n;
      assert forall j :: j in at ==> j in at + [n];
    }
  }

  /** A role resolves to the cheapest row offering it, the earliest of equals, and raises only when none does. */
  lemma ByRoleIsTheCheapest(rows: seq<TierRow>, role: string)
    ensures ResolveRow(rows, Some(role), None).Ok? <==> exists i: nat :: Cheapest(rows, role, i)
    ensures forall i: nat :: Cheapest(rows, role, i) ==> ResolveRow(rows, Some(role), None) == Ok(rows[i])
  {
    var found := Offering(rows, role);
    var at := OfferingPlaces(rows, role);
    if found == [] {
      assert SortedByRank(found) == [];
      assert forall j :: 0 <= j < |rows| ==> !Offers(rows[j], role);
    } else {
      var k := HeadIsFirstLeast(found);
      var i := at[k];
      forall j | 0 <= j < |rows| && Offers(rows[j], role)
        ensures rows[i].rank < rows[j].rank || (rows[i].rank == rows[j].rank && i <= j)
      {
        var l :| 0 <= l < |at| && at[l] == j;
        assert found[l] == rows[j];
      }
      assert Cheapest(rows, role, i);
      forall j: nat | Cheapest(rows, role, j) ensures j == i {
        assert Offers(rows[i], role) && Offers(rows[j], role);
      }
    }
  }

  lemma {:induction false} FirstNamedIsFirst(rows: seq<TierRow>, alias: string)
    ensures FirstNamed(rows, alias).None? ==> forall j :: 0 <= j < |rows| ==> rows[j].alias != alias
    ensures FirstNamed(rows, alias).Some? ==>
      var i := FirstNamed(rows, alias).value;
      i < |rows| && rows[i].alias == alias && forall j :: 0 <= j < i ==> rows[j].alias != alias
  {
    if rows != [] && rows[0].alias != alias {
      FirstNamedIsFirst(rows[1..], alias);
      assert forall j :: 0 < j < |rows| ==> rows[j] == rows[1..][j - 1];
    }
  }

  /** A model resolves to the first row of that name, when it is available and lists the role asked for. */
  lemma ByModelIsTheNamedRow(rows: seq<TierRow>, role: Option<string>, model: string, row: TierRow)
    ensures ResolveRow(rows, role, Some(model)) == Ok(row) <==>
      exists i :: 0 <= i < |rows| && rows[i] == row && row.alias == model && row.available
        && (role.Some? ==> role.value in row.roles)
        && forall j :: 0 <= j < i ==> rows[j].alias != model
  {
    FirstNamedIsFirst(rows, model);
  }

  // ---------------------------------------------------------------- specs and wiring

  datatype Spec = Spec(kind: string, role: Option<string>, model: Option<string>)

  /** kindDefaults gives the default role of a kind, if any. */
  function EffectiveRole(spec: Spec, kindDefaults: map<string, Option<string>>): Option<string>
  {
    if spec.role.Some? then spec.role
    else if spec.kind in kindDefaults then kindDefaults[spec.kind] else None
  }

  function Resolve(rows: seq<TierRow>, kindDefaults: map<string, Option<string>>, spec: Spec)
    : Result<TierRow, Rejection>
  {
    ResolveRow(rows, EffectiveRole(spec, kindDefaults), spec.model)
  }

  /** A role resolves to its cheapest row under these defaults, and to none only when no row offers it. */
  ghost predicate ResolvesCheapest(r: Result<TierRow, Rejection>, rows: seq<TierRow>, role: string)
  {
    && (forall i: nat :: Cheapest(rows, role, i) ==> r == Ok(rows[i]))
    && (r == Raised(NoRowListsRole) || exists i: nat :: Cheapest(rows, role, i))
  }

  /** Row i is the first of this name. */
  predicate IsNamed(rows: seq<TierRow>, model: string, i: nat)
  {
    i < |rows| && rows[i].alias == model && forall j :: 0 <= j < i ==> rows[j].alias != model
  }

  /** And it may serve: it is available and lists the role, if one is asked for. */
  predicate MayServe(rows: seq<TierRow>, model: string, role: Option<string>, i: nat)
  {
    && IsNamed(rows, model, i)
    && rows[i].available && (role.Some? ==> role.value in rows[i].roles)
  }

  lemma ResolvesByRole(rows: seq<TierRow>, role: string)
    ensures ResolvesCheapest(ResolveRow(rows, Some(role), None), rows, role)
  {
    ByRoleIsTheCheapest(rows, role);
  }

  /** A role the spec names is the one resolved, whatever its kind's default is. */
  lemma NamedRoleDecides(rows: seq<TierRow>, kindDefaults: map<string, Option<string>>, kind: string, role: string)
    ensures ResolvesCheapest(Resolve(rows, kindDefaults, Spec(kind, Some(role), None)), rows, role)
  {
    ResolvesByRole(rows, role);
  }

  /** A spec without one takes its kind's default; without that either there is nothing to resolve. */
  lemma DefaultRoleStandsIn(rows: seq<TierRow>, kindDefaults: map<string, Option<string>>, kind: string)
    ensures kind in kindDefaults && kindDefaults[kind].Some? ==>
      ResolvesCheapest(Resolve(rows, kindDefaults, Spec(kind, None, None)), rows, kindDefaults[kind].value)
    ensures kind in kindDefaults && kindDefaults[kind].None? ==>
      Resolve(rows, kindDefaults, Spec(kind, None, None)) == Raised(NothingToResolve)
    ensures kind !in kindDefaults ==>
      Resolve(rows, kindDefaults, Spec(kind, None, None)) == Raised(NothingToResolve)
  {
    if kind in kindDefaults && kindDefaults[kind].Some? {
      ResolvesByRole(rows, kindDefaults[kind].value);
    }
  }

  /** A named model is checked against that same role. */
  lemma NamedModelDecides(rows: seq<TierRow>, kindDefaults: map<string, Option<string>>, kind: string,
        role: Option<string>, model: string, row: TierRow)
    ensures role.Some? ==>
      (Resolve(rows, kindDefaults, Spec(kind, role, Some(model))) == Ok(row) <==>
         exists i: nat :: MayServe(rows, model, role, i) && rows[i] == row)
    ensures role.None? && kind in kindDefaults ==>
      (Resolve(rows, kindDefaults, Spec(kind, role, Some(model))) == Ok(row) <==>
         exists i: nat :: MayServe(rows, model, kindDefaults[kind], i) && rows[i] == row)
    ensures role.None? && kind !in kindDefaults ==>
      (Resolve(rows, kindDefaults, Spec(kind, role, Some(model))) == Ok(row) <==>
         exists i: nat :: MayServe(rows, model, None, i) && rows[i] == row)
  {
    FirstNamedIsFirst(rows, model);
    FirstServes(rows, role, model, row);
    FirstServes(rows, None, model, row);
    if kind in kindDefaults {
      FirstServes(rows, kindDefaults[kind], model, row);
    }
  }

  lemma FirstServes(rows: seq<TierRow>, role: Option<string>, model: string, row: TierRow)
    ensures ResolveRow(rows, role, Some(model)) == Ok(row) <==>
      exists i: nat :: MayServe(rows, model, role, i) && rows[i] == row
  {
    FirstNamedIsFirst(rows, model);
    var first := FirstNamed(rows, model);
    if first.Some? {
      forall i: nat | MayServe(rows, model, role, i) ensures i == first.value {
      }
    }
  }

  /** Why a named model is refused. */
  lemma RefusedModelIsNamed(rows: seq<TierRow>, role: Option<string>, model: string)
    ensures ResolveRow(rows, role, Some(model)) == Raised(NoSuchModel) <==>
      forall j :: 0 <= j < |rows| ==> rows[j].alias != model
    ensures forall i: nat :: IsNamed(rows, model, i) ==>
      && (ResolveRow(rows, role, Some(model)) == Raised(ModelUnavailable) <==> !rows[i].available)
      && (ResolveRow(rows, role, Some(model)) == Raised(ModelLacksRole) <==>
            rows[i].available && role.Some? && role.value !in rows[i].roles)
  {
    FirstNamedIsFirst(rows, model);
    var first := FirstNamed(rows, model);
    forall i: nat | IsNamed(rows, model, i) ensures first == Some(i) {
    }
  }

  /** The offered rows nothing wires, by alias. */
  function Unwired(rows: seq<TierRow>, wired: set<string>): map<string, string>
  {
    if rows == [] then map[]
    else
      var row := rows[|rows| - 1];
      var before := Unwired(rows[..|rows| - 1], wired);
      if row.available && row.executor !in wired then before[row.alias := row.executor] else before
  }

  /** Whether the composition refuses the table. */
  predicate Refused(rows: seq<TierRow>, wired: set<string>)
  {
    Unwired(rows, wired) != map[]
  }

  lemma {:induction false} RefusedIffUnwired(rows: seq<TierRow>, wired: set<string>)
    ensures Refused(rows, wired) <==> exists row :: row in rows && row.available && row.executor !in wired
  {
    if rows != [] {
      var last := rows[|rows| - 1];
      RefusedIffUnwired(rows[..|rows| - 1], wired);
      if last.available && last.executor !in wired {
        assert last.alias in Unwired(rows, wired);
      } else if row :| row in rows && row.available && row.executor !in wired {
        assert row in rows[..|rows| - 1];
      }
    }
  }

  /** Under a table that is not refused, whatever resolves can be dispatched and is what was asked for. */
  lemma ResolvedIsDispatchable(rows: seq<TierRow>, wired: set<string>, kindDefaults: map<string, Option<string>>,
        spec: Spec)
    requires !Refused(rows, wired) && Resolve(rows, kindDefaults, spec).Ok?
    ensures var row, role := Resolve(rows, kindDefaults, spec).value, EffectiveRole(spec, kindDefaults);
      && row in rows && row.executor in wired && row.available
      && (role.Some? ==> role.value in row.roles)
      && (spec.model.Some? ==> row.alias == spec.model.value)
      && (spec.model.None? ==> role.Some? && exists i: nat :: Cheapest(rows, role.value, i) && rows[i] == row)
  {
    RefusedIffUnwired(rows, wired);
    var row, role := Resolve(rows, kindDefaults, spec).value, EffectiveRole(spec, kindDefaults);
    if spec.model.Some? {
      ByModelIsTheNamedRow(rows, role, spec.model.value, row);
    } else {
      ByRoleIsTheCheapest(rows, role.value);
      var i: nat :| Cheapest(rows, role.value, i);
    }
  }

  predicate DistinctAliases(rows: seq<TierRow>)
  {
    forall i, j :: 0 <= i < j < |rows| ==> rows[i].alias != rows[j].alias
  }

  /** Some role or model resolves to a row nothing wires. */
  ghost predicate CanMisdispatch(rows: seq<TierRow>, wired: set<string>)
  {
    exists role, model :: ResolveRow(rows, role, model).Ok? && ResolveRow(rows, role, model).value.executor !in wired
  }

  /** Place i holds the first row of its alias. */
  predicate FirstOfItsAlias(rows: seq<TierRow>, i: nat)
    requires i < |rows|
  {
    forall j :: 0 <= j < i ==> rows[j].alias != rows[i].alias
  }

  /** Some spec can resolve to row i: by its name, or by a role it is the cheapest for. */
  ghost predicate Resolvable(rows: seq<TierRow>, i: nat)
    requires i < |rows|
  {
    rows[i].available && (FirstOfItsAlias(rows, i) || exists role :: Cheapest(rows, role, i))
  }

  predicate Offends(rows: seq<TierRow>, wired: set<string>, i: nat)
    requires i < |rows|
  {
    rows[i].available && rows[i].executor !in wired
  }

  /** Whatever resolves stands at a resolvable place. */
  lemma ResolvesToResolvable(rows: seq<TierRow>, role: Option<string>, model: Option<string>) returns (i: nat)
    requires ResolveRow(rows, role, model).Ok?
    ensures i < |rows| && rows[i] == ResolveRow(rows, role, model).value && Resolvable(rows, i)
  {
    var row := ResolveRow(rows, role, model).value;
    if model.Some? {
      ByModelIsTheNamedRow(rows, role, model.value, row);
      i :| 0 <= i < |rows| && rows[i] == row && row.alias == model.value && row.available &&
        forall j :: 0 <= j < i ==> rows[j].alias != model.value;
    } else {
      ByRoleIsTheCheapest(rows, role.value);
      i :| Cheapest(rows, role.value, i);
    }
  }

  /** Which tables could dispatch to nothing: those offering an unwired row that some spec can resolve to. */
  lemma MisdispatchIff(rows: seq<TierRow>, wired: set<string>)
    ensures CanMisdispatch(rows, wired) <==>
      exists i :: 0 <= i < |rows| && Offends(rows, wired, i) && Resolvable(rows, i)
  {
    if role, model :| ResolveRow(rows, role, model).Ok? && ResolveRow(rows, role, model).value.executor !in wired {
      var i := ResolvesToResolvable(rows, role, model);
    }
    if i :| 0 <= i < |rows| && Offends(rows, wired, i) && Resolvable(rows, i) {
      if FirstOfItsAlias(rows, i) {
        ByModelIsTheNamedRow(rows, None, rows[i].alias, rows[i]);
        assert ResolveRow(rows, None, Some(rows[i].alias)) == Ok(rows[i]);
      } else {
        var role :| Cheapest(rows, role, i);
        ByRoleIsTheCheapest(rows, role);
        assert ResolveRow(rows, Some(role), None) == Ok(rows[i]);
      }
    }
  }

  /** A refusal is stricter than it need be exactly when every offending row is out of every spec's reach. */
  lemma StricterThanNeededIff(rows: seq<TierRow>, wired: set<string>)
    ensures Refused(rows, wired) && !CanMisdispatch(rows, wired) <==>
      && (exists i :: 0 <= i < |rows| && Offends(rows, wired, i))
      && forall i :: 0 <= i < |rows| && Offends(rows, wired, i) ==>
           !FirstOfItsAlias(rows, i) && forall role :: !Cheapest(rows, role, i)
  {
    RefusedIffUnwired(rows, wired);
    MisdispatchIff(rows, wired);
    if row :| row in rows && row.available && row.executor !in wired {
      var i :| 0 <= i < |rows| && rows[i] == row;
      assert Offends(rows, wired, i);
    }
    if i :| 0 <= i < |rows| && Offends(rows, wired, i) {
      assert rows[i] in rows;
    }
  }

  /** With aliases distinct, the tables refused are exactly those that could resolve to an unwired row. */
  lemma RefusedIffCanMisdispatch(rows: seq<TierRow>, wired: set<string>)
    requires DistinctAliases(rows)
    ensures Refused(rows, wired) <==> CanMisdispatch(rows, wired)
  {
    RefusedIffUnwired(rows, wired);
    MisdispatchIff(rows, wired);
    if row :| row in rows && row.available && row.executor !in wired {
      var i :| 0 <= i < |rows| && rows[i] == row;
      assert Offends(rows, wired, i) && FirstOfItsAlias(rows, i);
    }
    if i :| 0 <= i < |rows| && Offends(rows, wired, i) && Resolvable(rows, i) {
      assert rows[i] in rows;
    }
  }

  /** A table may be refused for a row that nothing can resolve to: one hidden behind its alias and a cheaper row. */
  lemma RefusedThoughUnreachable(role: string, wired: set<string>, executor: string, other: string)
    requires executor in wired && other !in wired
    ensures exists rows :: Refused(rows, wired) && !CanMisdispatch(rows, wired)
  {
    var good := TierRow("m", executor, 1, true, [role]);
    var hidden := TierRow("m", other, 2, true, [role]);
    var rows := [good, hidden];
    RefusedIffUnwired(rows, wired);
    assert hidden in rows;
    forall r, model | ResolveRow(rows, r, model).Ok? ensures ResolveRow(rows, r, model).value.executor in wired {
      if model.Some? {
        ByModelIsTheNamedRow(rows, r, model.value, ResolveRow(rows, r, model).value);
      } else {
        ByRoleIsTheCheapest(rows, r.value);
        var i: nat :| Cheapest(rows, r.value, i);
        assert Offers(rows[0], r.value);
      }
    }
    assert Refused(rows, wired) && !CanMisdispatch(rows, wired);
  }

  // ---------------------------------------------------------------- pinning

  const WIRED_EXECUTORS: set<string> := {"claude"}

  datatype PinningError = NoSuchRow | ExecutorNotWired

  /** The roles not yet seen, in the order met. */
  function Seen(seen: seq<string>, roles: seq<string>): seq<string>
  {
    if roles == [] then seen
    else
      var before, last := Seen(seen, roles[..|roles| - 1]), roles[|roles| - 1];
      if last in before then before else before + [last]
  }

  /** Every role any row lists, in the order first met. */
  function RolesOf(rows: seq<TierRow>): seq<string>
  {
    if rows == [] then [] else Seen(RolesOf(rows[..|rows| - 1]), rows[|rows| - 1].roles)
  }

  lemma {:induction false} SeenAdds(seen: seq<string>, roles: seq<string>, role: string)
    ensures role in Seen(seen, roles) <==> role in seen || role in roles
  {
    if roles != [] {
      SeenAdds(seen, roles[..|roles| - 1], role);
      assert roles == roles[..|roles| - 1] + [roles[|roles| - 1]];
    }
  }

  lemma {:induction false} RolesOfAll(rows: seq<TierRow>, role: string)
    ensures role in RolesOf(rows) <==> exists row :: row in rows && role in row.roles
  {
    if rows != [] {
      var n := |rows| - 1;
      RolesOfAll(rows[..n], role);
      SeenAdds(RolesOf(rows[..n]), rows[n].roles, role);
      if role in rows[n].roles {
        assert rows[n] in rows;
      }
      if row :| row in rows && role in row.roles && role !in rows[n].roles {
        assert row in rows[..n];
      }
    }
  }

  predicate AllDifferent(s: seq<string>)
  {
    forall i, j :: 0 <= i < j < |s| ==> s[i] != s[j]
  }

  lemma {:induction false} SeenStaysDifferent(seen: seq<string>, roles: seq<string>)
    requires AllDifferent(seen)
    ensures AllDifferent(Seen(seen, roles))
  {
    if roles != [] {
      SeenStaysDifferent(seen, roles[..|roles| - 1]);
    }
  }

  /** Each role once. */
  lemma {:induction false} RolesAreDifferent(rows: seq<TierRow>)
    ensures AllDifferent(RolesOf(rows))
  {
    if rows != [] {
      RolesAreDifferent(rows[..|rows| - 1]);
      SeenStaysDifferent(RolesOf(rows[..|rows| - 1]), rows[|rows| - 1].roles);
    }
  }

  /** A row of the loaded document; two places of the list may hold the same one. */
  class Row {
    const alias: string
    const executor: string
    const rank: int
    var available: bool
    var roles: seq<string>

    constructor (alias: string, executor: string, rank: int, available: bool, roles: seq<string>)
      ensures View() == TierRow(alias, executor, rank, available, roles)
    {
      this.alias, this.executor, this.rank := alias, executor, rank;
      this.available, this.roles := available, roles;
    }

    function View(): TierRow
      reads this
    {
      TierRow(alias, executor, rank, available, roles)
    }
  }

  function Views(rows: seq<Row>): seq<TierRow>
    reads rows
  {
    seq(|rows|, i requires 0 <= i < |rows| reads rows => rows[i].View())
  }

  method RolesIn(rows: seq<Row>) returns (seen: seq<string>)
    ensures seen == RolesOf(Views(rows))
  {
    seen := [];
    for i := 0 to |rows|
      invariant seen == RolesOf(Views(rows)[..i])
    {
      ghost var before := seen;
      var roles := rows[i].roles;
      for j := 0 to |roles|
        invariant seen == Seen(before, roles[..j])
      {
        assert roles[..j + 1][..j] == roles[..j];
        if roles[j] !in seen {
          seen := seen + [roles[j]];
        }
      }
      assert roles[..|roles|] == roles;
      assert Views(rows)[..i + 1][..i] == Views(rows)[..i];
    }
    assert Views(rows)[..|rows|] == Views(rows);
  }

  /** The first row of that name. */
  method Target(rows: seq<Row>, alias: string) returns (target: Option<Row>)
    ensures target.Some? <==> FirstNamed(Views(rows), alias).Some?
    ensures target.Some? ==> target.value == rows[FirstNamed(Views(rows), alias).value]
  {
    FirstNamedIsFirst(Views(rows), alias);
    for i := 0 to |rows|
      invariant forall j :: 0 <= j < i ==> Views(rows)[j].alias != alias
    {
      if rows[i].alias == alias {
        assert Views(rows)[i].alias == alias;
        return Some(rows[i]);
      }
    }
    return None;
  }

  /** The table after pinning: the target, wherever it stands, offers every role; nothing else is offered. */
  ghost predicate IsPinned(before: seq<TierRow>, after: seq<TierRow>, at: nat)
    requires at < |before|
  {
    && |after| == |before|
    && after[at] == before[at].(available := true, roles := RolesOf(before))
    && forall i :: 0 <= i < |before| ==> after[i] == after[at] || after[i] == before[i].(available := false)
  }

  /** Gives the named row every role and makes it the only one available. */
  method PinPolicy(rows: seq<Row>, alias: string) returns (r: Result<Row, PinningError>)
    modifies rows
    ensures r == Raised(NoSuchRow) <==> old(FirstNamed(Views(rows), alias)).None?
    ensures r == Raised(ExecutorNotWired) <==>
      var at := old(FirstNamed(Views(rows), alias));
      at.Some? && old(Views(rows))[at.value].executor !in WIRED_EXECUTORS
    ensures r.Raised? ==> Views(rows) == old(Views(rows))
    ensures r.Ok? ==>
      var at := old(FirstNamed(Views(rows), alias)).value;
      && r.value == rows[at] && IsPinned(old(Views(rows)), Views(rows), at)
      && forall i :: 0 <= i < |rows| && rows[i] != r.value ==>
           Views(rows)[i] == old(Views(rows))[i].(available := false)
  {
    var target := Target(rows, alias);
    if target.None? {
      return Raised(NoSuchRow);
    }
    var pinned := target.value;
    ghost var at := FirstNamed(Views(rows), alias).value;
    assert pinned == rows[at] && Views(rows)[at] == pinned.View();
    if pinned.executor !in WIRED_EXECUTORS {
      return Raised(ExecutorNotWired);
    }
    var roles := RolesIn(rows);
    pinned.roles := roles;
    pinned.available := true;
    for i := 0 to |rows|
      invariant pinned.available && pinned.roles == roles
      invariant forall j :: 0 <= j < |rows| && rows[j] != pinned ==> rows[j].roles == old(rows[j].roles)
      invariant forall j :: 0 <= j < i && rows[j] != pinned ==> !rows[j].available
    {
      if rows[i] != pinned {
        rows[i].available := false;
      }
    }
    return Ok(pinned);
  }

  /** After pinning, exactly the roles some row listed resolve, all to the pinned row. */
  lemma PinnedRolesResolve(before: seq<TierRow>, after: seq<TierRow>, at: nat, role: string)
    requires at < |before| && IsPinned(before, after, at)
    ensures ResolveRow(after, Some(role), None) ==
      if exists row :: row in before && role in row.roles then Ok(after[at]) else Raised(NoRowListsRole)
  {
    RolesOfAll(before, role);
    ByRoleIsTheCheapest(after, role);
    assert forall j :: 0 <= j < |after| && after[j].available ==> after[j] == after[at];
    if role in RolesOf(before) {
      assert Offers(after[at], role);
      var i := FirstLike(after, at);
      assert Cheapest(after, role, i);
    } else {
      assert forall j :: 0 <= j < |after| ==> !Offers(after[j], role);
      assert forall i: nat :: !Cheapest(after, role, i);
    }
  }

  /** The first place holding the same row as place at. */
  lemma FirstLike(rows: seq<TierRow>, at: nat) returns (i: nat)
    requires at < |rows|
    ensures i <= at && rows[i] == rows[at] && forall j :: 0 <= j < i ==> rows[j] != rows[at]
  {
    i := 0;
    while rows[i] != rows[at]
      invariant i <= at && forall j :: 0 <= j < i ==> rows[j] != rows[at]
      decreases at - i
    {
      i := i + 1;
    }
  }

  /** Whatever resolves after pinning is the pinned row. */
  lemma OnlyThePinnedRowResolves(before: seq<TierRow>, after: seq<TierRow>, at: nat,
                                 role: Option<string>, model: Option<string>)
    requires at < |before| && IsPinned(before, after, at) && ResolveRow(after, role, model).Ok?
    ensures ResolveRow(after, role, model) == Ok(after[at])
  {
    assert forall j :: 0 <= j < |after| && after[j].available ==> after[j] == after[at];
    var row := ResolveRow(after, role, model).value;
    if model.Some? {
      ByModelIsTheNamedRow(after, role, model.value, row);
    } else {
      ByRoleIsTheCheapest(after, role.value);
      var i: nat :| Cheapest(after, role.value, i);
    }
  }

  /** And a pinned table passes the wiring check. */
  lemma PinnedIsNotRefused(before: seq<TierRow>, after: seq<TierRow>, at: nat, wired: set<string>)
    requires at < |before| && IsPinned(before, after, at)
    ensures Refused(after, wired) <==> before[at].executor !in wired
  {
    RefusedIffUnwired(after, wired);
    assert after[at] in after && after[at].executor == before[at].executor;
    assert forall j :: 0 <= j < |after| && after[j].available ==> after[j] == after[at];
  }
}
