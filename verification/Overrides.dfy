/**
  Command-line overrides: SECTION.KEY[.SUBKEY...]=VALUE strings, the check that no key is
  given both a value and keys under it, and the nested mapping built from them.
 */
module Overrides {
  import opened Strings
  import opened Wrappers

  /** A coerced value: a mapping, or anything that is not one. */
  datatype Value = Atom(text: string) | Dict(entries: map<string, Value>)

  type Table = map<string, Value>

  datatype Override = Override(section: string, keyPath: seq<string>, value: Value)
  {
    function Path(): seq<string> { [section] + keyPath }
  }

  datatype Fault =
    | NoEquals
    | NoDot
    | EmptySection
    | EmptyKeyPart
    | Conflict(key: string, nested: string)
    | NotATable

  // ---------------------------------------------------------------- parsing

  /** Where ch first occurs, |s| when it does not. */
  function FirstOf(s: string, ch: char): (i: nat)
    ensures i <= |s| && ch !in s[..i]
    ensures i < |s| ==> s[i] == ch
  {
    if s == "" || s[0] == ch then 0 else 1 + FirstOf(s[1..], ch)
  }

  function ParseOverride(raw: string, coerce: string -> Value): Result<Override, Fault>
  {
    var eq := FirstOf(raw, '=');
    if eq == |raw| then Raised(NoEquals)
    else if '.' !in raw[..eq] then Raised(NoDot)
    else
      var parts := Split(raw[..eq], '.');
      if parts[0] == "" then Raised(EmptySection)
      else if exists i :: 1 <= i < |parts| && parts[i] == "" then Raised(EmptyKeyPart)
      else Ok(Override(parts[0], parts[1..], coerce(raw[eq + 1..])))
  }

  /** A path that an override can name. */
  predicate Nameable(path: seq<string>)
  {
    |path| >= 2 && AllFree(path, '.') && AllFree(path, '=') && forall i :: 0 <= i < |path| ==> path[i] != ""
  }

  lemma {:induction false} FreeAcrossJoin(parts: seq<string>, sep: char, ch: char)
    requires ch != sep
    ensures Free(Join(parts, sep), ch) <==> AllFree(parts, ch)
  {
    if |parts| == 1 {
      assert parts == [parts[0]];
    } else if |parts| > 1 {
      FreeAcrossJoin(parts[1..], sep, ch);
      assert Join(parts, sep) == parts[0] + [sep] + Join(parts[1..], sep);
      assert AllFree(parts, ch) <==> Free(parts[0], ch) && AllFree(parts[1..], ch) by {
        forall i | 1 <= i < |parts| ensures parts[i] == parts[1..][i - 1] {
        }
      }
    }
  }

  lemma FirstOfAfter(a: string, ch: char, b: string)
    requires Free(a, ch)
    ensures FirstOf(a + [ch] + b, ch) == |a|
  {
    var s := a + [ch] + b;
    var i := FirstOf(s, ch);
    assert s[|a|] == ch && s[..|a|] == a;
    assert forall k :: 0 <= k < i ==> s[..i][k] != ch;
  }

  lemma {:induction false} SplitOfSepless(s: string, sep: char)
    ensures |Split(s, sep)| == 1 <==> Free(s, sep)
  {
    if Free(s, sep) {
      SplitPeels(s, "", sep);
    } else {
      var i := FirstOf(s, sep);
      assert i < |s|;
      assert s == s[..i] + [sep] + s[i + 1..];
      SplitPeels(s[..i], s[i + 1..], sep);
    }
  }

  /** A nameable path spelled with dots, an equals sign and any text parses back to just that. */
  lemma SpelledIsParsed(coerce: string -> Value, path: seq<string>, text: string)
    requires Nameable(path)
    ensures ParseOverride(Join(path, '.') + "=" + text, coerce) == Ok(Override(path[0], path[1..], coerce(text)))
  {
    var dotted := Join(path, '.');
    var raw := dotted + "=" + text;
    FreeAcrossJoin(path, '.', '=');
    FirstOfAfter(dotted, '=', text);
    assert raw[..|dotted|] == dotted && raw[|dotted| + 1..] == text;
    SplitAfterJoin(path, '.');
    SplitOfSepless(dotted, '.');
  }

  /** And nothing else parses: an accepted string spells the nameable path it was parsed to. */
  lemma ParsedIsSpelled(raw: string, coerce: string -> Value)
    requires ParseOverride(raw, coerce).Ok?
    ensures var o := ParseOverride(raw, coerce).value;
      Nameable(o.Path()) &&
      exists text :: raw == Join(o.Path(), '.') + "=" + text && o.value == coerce(text)
  {
    var eq := FirstOf(raw, '=');
    var parts := Split(raw[..eq], '.');
    var o := ParseOverride(raw, coerce).value;
    assert o.Path() == parts;
    SplitOfSepless(raw[..eq], '.');
    SplitPiecesAreFree(raw[..eq], '.');
    JoinAfterSplit(raw[..eq], '.');
    FreeAcrossJoin(parts, '.', '=');
    var text := raw[eq + 1..];
    assert raw == Join(o.Path(), '.') + "=" + text && o.value == coerce(text);
  }

  // ---------------------------------------------------------------- the conflict check

  predicate Under(key: string, other: string)
  {
    StartsWith(other, key + ".")
  }

  /** The string test says exactly that one path properly continues the other. */
  lemma UnderIsProperPrefix(p: seq<string>, q: seq<string>)
    requires p != [] && q != [] && AllFree(p, '.') && AllFree(q, '.')
    ensures Under(Join(p, '.'), Join(q, '.')) <==> p < q
  {
    JoinContinuesIff(p, q, '.');
  }

  /** No path given properly continues another one given. */
  predicate Compatible(paths: seq<seq<string>>)
  {
    forall i, j :: 0 <= i < |paths| && 0 <= j < |paths| ==> !(paths[i] < paths[j])
  }

  predicate Conflicting(keys: seq<string>)
  {
    exists i, j :: 0 <= i < |keys| && 0 <= j < |keys| && Under(keys[i], keys[j])
  }

  /** The first key some other is under, with the first that is under it. */
  method RefuseConflicts(keys: seq<string>) returns (fault: Option<Fault>)
    ensures fault.None? <==> !Conflicting(keys)
    ensures fault.Some? ==> exists i, j ::
      && 0 <= i < |keys| && 0 <= j < |keys| && fault.value == Conflict(keys[i], keys[j]) && Under(keys[i], keys[j])
      && (forall k, l :: 0 <= k < i && 0 <= l < |keys| ==> !Under(keys[k], keys[l]))
      && (forall l :: 0 <= l < j ==> !Under(keys[i], keys[l]))
  {
    var i := 0;
    while i < |keys|
      invariant i <= |keys|
      invariant forall k, l :: 0 <= k < i && 0 <= l < |keys| ==> !Under(keys[k], keys[l])
    {
      var j := 0;
      while j < |keys|
        invariant j <= |keys|
        invariant forall l :: 0 <= l < j ==> !Under(keys[i], keys[l])
      {
        if Under(keys[i], keys[j]) {
          return Some(Conflict(keys[i], keys[j]));
        }
        j := j + 1;
      }
      i := i + 1;
    }
    return None;
  }

  // ---------------------------------------------------------------- nesting

  /** The table under a key, or the empty one. */
  function Below(t: Table, key: string): Table
  {
    if key in t && t[key].Dict? then t[key].entries else map[]
  }

  /** The table after one override, or None where a value sits and a table is needed. */
  function Nested(t: Table, path: seq<string>, v: Value): Option<Table>
    requires path != []
    decreases path
  {
    if |path| == 1 then Some(t[path[0] := v])
    else if path[0] in t && t[path[0]].Atom? then None
    else
      var below := Below(t, path[0]);
      match Nested(below, path[1..], v)
      case None => None
      case Some(sub) => Some(t[path[0] := Dict(sub)])
  }

  function NestAll(t: Table, overrides: seq<Override>): Option<Table>
  {
    if overrides == [] then Some(t)
    else
      match NestAll(t, overrides[..|overrides| - 1])
      case None => None
      case Some(sofar) => var o := overrides[|overrides| - 1]; Nested(sofar, o.Path(), o.value)
  }

  /** What stands at a path below a value. */
  function At(v: Value, path: seq<string>): Option<Value>
    decreases path
  {
    if path == [] then Some(v)
    else if v.Dict? && path[0] in v.entries then At(v.entries[path[0]], path[1..])
    else None
  }

  /** No value stands where path needs a table. */
  predicate Open(t: Table, path: seq<string>)
  {
    forall n :: 0 < n < |path| ==> At(Dict(t), path[..n]) != None ==> At(Dict(t), path[..n]).value.Dict?
  }

  lemma OpenStep(t: Table, path: seq<string>)
    requires |path| > 1
    ensures Open(t, path) <==>
      (path[0] !in t || (t[path[0]].Dict? && Open(t[path[0]].entries, path[1..])))
  {
    var below := Below(t, path[0]);
    assert path[..1] == [path[0]];
    assert At(Dict(t), path[..1]) == if path[0] in t then Some(t[path[0]]) else None by {
      assert path[..1][1..] == [];
    }
    forall n | 0 < n < |path| - 1
      ensures path[0] in t && t[path[0]].Dict? ==> At(Dict(t), path[..n + 1]) == At(Dict(below), path[1..][..n])
      ensures path[0] !in t ==> At(Dict(t), path[..n + 1]) == None
    {
      assert path[..n + 1][1..] == path[1..][..n];
    }
    if Open(t, path) && path[0] in t && t[path[0]].Dict? {
      forall n | 0 < n < |path[1..]| && At(Dict(below), path[1..][..n]) != None
        ensures At(Dict(below), path[1..][..n]).value.Dict?
      {
        assert At(Dict(t), path[..n + 1]) == At(Dict(below), path[1..][..n]);
      }
    }
    if path[0] !in t || (t[path[0]].Dict? && Open(below, path[1..])) {
      forall n | 0 < n < |path| && At(Dict(t), path[..n]) != None
        ensures At(Dict(t), path[..n]).value.Dict?
      {
        if n > 1 {
          assert At(Dict(t), path[..n]) == At(Dict(below), path[1..][..n - 1]);
        }
      }
    }
  }

  /** Nesting succeeds exactly when it meets no value where it needs a table. */
  lemma {:induction false} NestedIffOpen(t: Table, path: seq<string>, v: Value)
    requires path != []
    ensures Nested(t, path, v).Some? <==> Open(t, path)
    decreases path
  {
    if |path| > 1 {
      OpenStep(t, path);
      var below := Below(t, path[0]);
      NestedIffOpen(below, path[1..], v);
      if path[0] !in t {
        EmptyIsOpen(path[1..]);
      }
    }
  }

  lemma EmptyIsOpen(path: seq<string>)
    ensures Open(map[], path)
  {
  }

  /** What every path reads after one nesting. */
  lemma {:induction false} NestedReads(t: Table, path: seq<string>, v: Value, q: seq<string>)
    requires path != [] && Nested(t, path, v).Some?
    ensures var u := Dict(Nested(t, path, v).value);
      && (path <= q ==> At(u, q) == At(v, q[|path|..]))
      && (q < path ==> At(u, q).Some? && At(u, q).value.Dict?)
      && (!(path <= q) && !(q < path) ==> At(u, q) == At(Dict(t), q))
    decreases path
  {
    if q != [] && q[0] == path[0] {
      assert path <= q <==> path[1..] <= q[1..] by {
        assert path == [path[0]] + path[1..] && q == [path[0]] + q[1..];
      }
      assert q < path <==> q[1..] < path[1..] by {
        assert path == [path[0]] + path[1..] && q == [path[0]] + q[1..];
      }
      if |path| == 1 {
        assert path <= q && q[|path|..] == q[1..];
      } else {
        var below := Below(t, path[0]);
        NestedReads(below, path[1..], v, q[1..]);
        assert path <= q ==> q[1..][|path[1..]|..] == q[|path|..];
      }
    }
  }

  // ---------------------------------------------------------------- the whole tree

  /** The last value given at a path. */
  function Last(overrides: seq<Override>, path: seq<string>): Option<Value>
  {
    if overrides == [] then None
    else
      var o := overrides[|overrides| - 1];
      if o.Path() == path then Some(o.value) else Last(overrides[..|overrides| - 1], path)
  }

  function Paths(overrides: seq<Override>): seq<seq<string>>
  {
    seq(|overrides|, i requires 0 <= i < |overrides| => overrides[i].Path())
  }

  lemma {:induction false} LastIffGiven(overrides: seq<Override>, path: seq<string>)
    ensures Last(overrides, path).Some? <==> path in Paths(overrides)
  {
    if overrides != [] {
      var init := overrides[..|overrides| - 1];
      LastIffGiven(init, path);
      assert Paths(overrides) == Paths(init) + [overrides[|overrides| - 1].Path()];
    }
  }

  /** The tree holds what was given, a table above each given path, and nothing beside them. */
  ghost predicate Carries(t: Table, overrides: seq<Override>)
  {
    && (forall p, q :: Last(overrides, p).Some? && p <= q ==>
         At(Dict(t), q) == At(Last(overrides, p).value, q[|p|..]))
    && (forall p, q :: Last(overrides, p).Some? && q < p ==>
         At(Dict(t), q).Some? && At(Dict(t), q).value.Dict?)
    && (forall q :: q != [] && At(Dict(t), q).Some? ==>
         exists p :: Last(overrides, p).Some? && (p <= q || q < p))
  }

  /** No given path properly continues another. */
  ghost predicate Apart(overrides: seq<Override>)
  {
    forall p, q :: Last(overrides, p).Some? && Last(overrides, q).Some? ==> !(p < q)
  }

  lemma ApartIsCompatible(overrides: seq<Override>)
    ensures Apart(overrides) <==> Compatible(Paths(overrides))
  {
    var paths := Paths(overrides);
    forall p ensures Last(overrides, p).Some? <==> p in paths {
      LastIffGiven(overrides, p);
    }
    if Apart(overrides) {
      forall i, j | 0 <= i < |paths| && 0 <= j < |paths| ensures !(paths[i] < paths[j]) {
        assert paths[i] in paths && paths[j] in paths;
      }
    }
    if Compatible(paths) {
      forall p, q | Last(overrides, p).Some? && Last(overrides, q).Some? ensures !(p < q) {
        var i :| 0 <= i < |paths| && paths[i] == p;
        var j :| 0 <= j < |paths| && paths[j] == q;
      }
    }
  }

  lemma PrefixesOfOne<T>(p: seq<T>, q: seq<T>, r: seq<T>)
    requires p <= r && q <= r
    ensures p < q || q <= p
  {
    if |p| < |q| {
      assert p == r[..|p|] == q[..|p|];
    } else {
      assert q == r[..|q|] == p[..|q|];
    }
  }

  lemma CarriesOneMore(t: Table, overrides: seq<Override>, o: Override)
    requires Carries(t, overrides) && Apart(overrides + [o])
    ensures Nested(t, o.Path(), o.value).Some?
    ensures Carries(Nested(t, o.Path(), o.value).value, overrides + [o])
  {
    var path, v, all := o.Path(), o.value, overrides + [o];
    assert all[..|all| - 1] == overrides && all[|all| - 1] == o;
    assert forall p :: Last(all, p) == if p == path then Some(v) else Last(overrides, p);
    WayIsOpen(t, overrides, o);
    NestedIffOpen(t, path, v);
    var u := Nested(t, path, v).value;
    forall p, q | Last(all, p).Some? && p <= q
      ensures At(Dict(u), q) == At(Last(all, p).value, q[|p|..])
    {
      NestedReads(t, path, v, q);
      assert Last(all, path).Some?;
      if p != path {
        if path <= q {
          PrefixesOfOne(p, path, q);
        }
      }
    }
    forall p, q | Last(all, p).Some? && q < p
      ensures At(Dict(u), q).Some? && At(Dict(u), q).value.Dict?
    {
      NestedReads(t, path, v, q);
      assert path <= q ==> path < p;
    }
    forall q | q != [] && At(Dict(u), q).Some?
      ensures exists p :: Last(all, p).Some? && (p <= q || q < p)
    {
      NestedReads(t, path, v, q);
      if path <= q || q < path {
        assert Last(all, path).Some?;
      } else {
        var p :| Last(overrides, p).Some? && (p <= q || q < p);
        assert Last(all, p).Some?;
      }
    }
  }

  lemma WayIsOpen(t: Table, overrides: seq<Override>, o: Override)
    requires Carries(t, overrides) && Apart(overrides + [o])
    ensures Open(t, o.Path())
  {
    var path, all := o.Path(), overrides + [o];
    assert all[..|all| - 1] == overrides && all[|all| - 1] == o;
    assert Last(all, path).Some?;
    forall n | 0 < n < |path| && At(Dict(t), path[..n]) != None ensures At(Dict(t), path[..n]).value.Dict? {
      var q := path[..n];
      var p :| Last(overrides, p).Some? && (p <= q || q < p);
      assert Last(all, p).Some?;
      assert p <= q ==> p < path;
    }
  }

  lemma {:induction false} NestAllCarries(overrides: seq<Override>)
    requires Apart(overrides)
    ensures NestAll(map[], overrides).Some?
    ensures Carries(NestAll(map[], overrides).value, overrides)
  {
    if overrides == [] {
    } else {
      var init, o := overrides[..|overrides| - 1], overrides[|overrides| - 1];
      assert overrides == init + [o];
      forall p ensures Last(init, p).Some? ==> Last(overrides, p).Some? {
      }
      NestAllCarries(init);
      CarriesOneMore(NestAll(map[], init).value, init, o);
    }
  }

  /** Overrides of compatible paths always nest, and every one reads back the last value it was given. */
  lemma CompatibleOverridesNest(overrides: seq<Override>)
    requires Compatible(Paths(overrides))
    ensures NestAll(map[], overrides).Some?
    ensures forall p :: p in Paths(overrides) ==>
      At(Dict(NestAll(map[], overrides).value), p) == Last(overrides, p) != None
  {
    ApartIsCompatible(overrides);
    NestAllCarries(overrides);
    var t := NestAll(map[], overrides).value;
    forall p | p in Paths(overrides) ensures At(Dict(t), p) == Last(overrides, p) != None {
      LastIffGiven(overrides, p);
      assert p[|p|..] == [];
      assert At(Last(overrides, p).value, []) == Last(overrides, p);
    }
  }

  ghost predicate AllReadBack(overrides: seq<Override>)
  {
    && NestAll(map[], overrides).Some?
    && forall p :: p in Paths(overrides) ==> At(Dict(NestAll(map[], overrides).value), p) == Last(overrides, p)
  }

  lemma NothingUnderAnAtom(v: Value, p: seq<string>, q: seq<string>)
    requires p < q && At(v, p).Some? && At(v, p).value.Atom?
    ensures At(v, q) == None
    decreases p
  {
    if p != [] {
      assert p[0] == q[0] && p[1..] < q[1..];
      NothingUnderAnAtom(v.entries[p[0]], p[1..], q[1..]);
    }
  }

  /** When no value is a mapping, the check refuses exactly the overrides that would lose one. */
  lemma CheckRefusesExactlyTheLosses(overrides: seq<Override>)
    requires forall i :: 0 <= i < |overrides| ==> overrides[i].value.Atom?
    ensures Compatible(Paths(overrides)) <==> AllReadBack(overrides)
  {
    if Compatible(Paths(overrides)) {
      CompatibleOverridesNest(overrides);
    }
    if AllReadBack(overrides) {
      var paths := Paths(overrides);
      forall i, j | 0 <= i < |paths| && 0 <= j < |paths| ensures !(paths[i] < paths[j]) {
        if paths[i] < paths[j] {
          LastIffGiven(overrides, paths[i]);
          LastIffGiven(overrides, paths[j]);
          LastIsAValue(overrides, paths[i]);
          NothingUnderAnAtom(Dict(NestAll(map[], overrides).value), paths[i], paths[j]);
        }
      }
    }
  }

  lemma {:induction false} LastIsAValue(overrides: seq<Override>, path: seq<string>)
    requires Last(overrides, path).Some?
    ensures exists i ::
      0 <= i < |overrides| && overrides[i].Path() == path && overrides[i].value == Last(overrides, path).value
  {
    var n := |overrides| - 1;
    if overrides[n].Path() != path {
      LastIsAValue(overrides[..n], path);
    }
  }

  // ---------------------------------------------------------------- when nothing given is lost

  /** A value and its text, or a table. */
  datatype Kind = Plain(text: string) | Inner

  function KindAt(v: Value, path: seq<string>): Option<Kind>
  {
    match At(v, path)
    case None => None
    case Some(Atom(text)) => Some(Plain(text))
    case Some(Dict(_)) => Some(Inner)
  }

  /** What stands at q is told by the last override whose path q continues or begins. */
  function Standing(overrides: seq<Override>, q: seq<string>): Option<Kind>
  {
    if overrides == [] then if q == [] then Some(Inner) else None
    else
      var o := overrides[|overrides| - 1];
      if o.Path() <= q then KindAt(o.value, q[|o.Path()|..])
      else if q < o.Path() then Some(Inner)
      else Standing(overrides[..|overrides| - 1], q)
  }

  lemma {:induction false} NestedTreeStands(overrides: seq<Override>, q: seq<string>)
    requires NestAll(map[], overrides).Some?
    ensures KindAt(Dict(NestAll(map[], overrides).value), q) == Standing(overrides, q)
  {
    if overrides != [] {
      var init, o := overrides[..|overrides| - 1], overrides[|overrides| - 1];
      NestedTreeStands(init, q);
      NestedReads(NestAll(map[], init).value, o.Path(), o.value, q);
    }
  }

  /** Each override in its turn finds no value where it needs a table. */
  ghost predicate Unblocked(overrides: seq<Override>)
  {
    forall i, n :: 0 <= i < |overrides| && 0 < n < |overrides[i].Path()| ==>
      Standing(overrides[..i], overrides[i].Path()[..n]) in {None, Some(Inner)}
  }

  ghost predicate LastUnblocked(overrides: seq<Override>)
    requires overrides != []
  {
    var m := |overrides| - 1;
    forall n :: 0 < n < |overrides[m].Path()| ==>
      Standing(overrides[..m], overrides[m].Path()[..n]) in {None, Some(Inner)}
  }

  lemma UnblockedStep(overrides: seq<Override>)
    requires overrides != []
    ensures Unblocked(overrides) <==> Unblocked(overrides[..|overrides| - 1]) && LastUnblocked(overrides)
  {
    var m := |overrides| - 1;
    var init := overrides[..m];
    assert forall i :: 0 <= i < m ==> init[i] == overrides[i] && init[..i] == overrides[..i];
    if Unblocked(init) && LastUnblocked(overrides) {
      forall i, n | 0 <= i < |overrides| && 0 < n < |overrides[i].Path()|
        ensures Standing(overrides[..i], overrides[i].Path()[..n]) in {None, Some(Inner)}
      {
        assert i < m ==> Standing(init[..i], init[i].Path()[..n]) in {None, Some(Inner)};
      }
    }
    if Unblocked(overrides) {
      forall i, n | 0 <= i < m && 0 < n < |init[i].Path()|
        ensures Standing(init[..i], init[i].Path()[..n]) in {None, Some(Inner)}
      {
        assert Standing(overrides[..i], overrides[i].Path()[..n]) in {None, Some(Inner)};
      }
    }
  }

  /** The tree can be built exactly when no override is blocked, whether or not the paths are compatible. */
  lemma {:induction false} NestAllIffUnblocked(overrides: seq<Override>)
    ensures NestAll(map[], overrides).Some? <==> Unblocked(overrides)
  {
    if overrides != [] {
      var m := |overrides| - 1;
      var init, path := overrides[..m], overrides[m].Path();
      NestAllIffUnblocked(init);
      UnblockedStep(overrides);
      if NestAll(map[], init).Some? {
        var t := NestAll(map[], init).value;
        NestedIffOpen(t, path, overrides[m].value);
        forall n | 0 < n < |path|
          ensures (At(Dict(t), path[..n]) != None ==> At(Dict(t), path[..n]).value.Dict?) <==>
            Standing(init, path[..n]) in {None, Some(Inner)}
        {
          NestedTreeStands(init, path[..n]);
        }
      }
    }
  }

  /** Where one given path continues another, the mapping given at the shorter holds what was given at the longer. */
  ghost predicate Agreeing(overrides: seq<Override>)
  {
    forall p, q :: Last(overrides, p).Some? && Last(overrides, q).Some? && p < q ==>
      At(Last(overrides, p).value, q[|p|..]) == Last(overrides, q)
  }

  lemma {:induction false} AtTwice(v: Value, p: seq<string>, q: seq<string>)
    requires p <= q
    ensures At(v, q) == if At(v, p).Some? then At(At(v, p).value, q[|p|..]) else None
    decreases p
  {
    if p != [] {
      assert p[0] == q[0] && p[1..] <= q[1..] && q[1..][|p[1..]|..] == q[|p|..];
      if v.Dict? && p[0] in v.entries {
        AtTwice(v.entries[p[0]], p[1..], q[1..]);
      }
    } else {
      assert q[|p|..] == q;
    }
  }

  lemma {:induction false} AboveIsTable(v: Value, p: seq<string>, q: seq<string>)
    requires p < q && At(v, q).Some?
    ensures At(v, p).Some? && At(v, p).value.Dict?
    decreases p
  {
    if p != [] {
      assert p[0] == q[0] && p[1..] < q[1..];
      AboveIsTable(v.entries[p[0]], p[1..], q[1..]);
    }
  }

  /** Values that look the same at every path are equal. */
  lemma {:induction false} SameEverywhere(v: Value, w: Value)
    requires forall x :: KindAt(v, x) == KindAt(w, x)
    ensures v == w
    decreases v
  {
    assert KindAt(v, []) == KindAt(w, []);
    if v.Dict? {
      forall k ensures k in v.entries <==> k in w.entries {
        assert [k][1..] == [];
        assert KindAt(v, [k]) == KindAt(w, [k]);
        assert k in v.entries <==> At(v, [k]).Some?;
        assert k in w.entries <==> At(w, [k]).Some?;
      }
      forall k | k in v.entries ensures v.entries[k] == w.entries[k]
      {
        forall x ensures KindAt(v.entries[k], x) == KindAt(w.entries[k], x) {
          assert ([k] + x)[1..] == x;
          assert KindAt(v, [k] + x) == KindAt(w, [k] + x);
        }
        SameEverywhere(v.entries[k], w.entries[k]);
      }
      assert v.entries == w.entries;
    }
  }

  lemma {:induction false} LastOfAll(overrides: seq<Override>, n: nat)
    requires n < |overrides| && forall i :: n < i < |overrides| ==> overrides[i].Path() != overrides[n].Path()
    ensures Last(overrides, overrides[n].Path()) == Some(overrides[n].value)
  {
    var m := |overrides| - 1;
    if n < m {
      LastOfAll(overrides[..m], n);
    }
  }

  lemma CutTwice<T>(p: seq<T>, r: seq<T>, x: seq<T>)
    requires p <= r <= x
    ensures r[|p|..] <= x[|p|..] && x[|p|..][|r[|p|..]|..] == x[|r|..]
  {
  }

  /** What is held below is read through what holds it. */
  lemma HeldBelow(v: Value, w: Value, p: seq<string>, r: seq<string>, x: seq<string>)
    requires p <= r <= x && At(v, r[|p|..]) == Some(w)
    ensures KindAt(v, x[|p|..]) == KindAt(w, x[|r|..])
  {
    CutTwice(p, r, x);
    AtTwice(v, r[|p|..], x[|p|..]);
  }

  lemma AgreedFromBelow(overrides: seq<Override>, p: seq<string>, r: seq<string>, x: seq<string>)
    requires Agreeing(overrides) && Last(overrides, p).Some? && Last(overrides, r).Some? && p <= x && r <= x
    ensures KindAt(Last(overrides, r).value, x[|r|..]) == KindAt(Last(overrides, p).value, x[|p|..])
  {
    PrefixesOfOne(p, r, x);
    if p < r {
      HeldBelow(Last(overrides, p).value, Last(overrides, r).value, p, r, x);
    } else if r < p {
      HeldBelow(Last(overrides, r).value, Last(overrides, p).value, r, p, x);
    } else {
      assert p == r;
    }
  }

  lemma AgreedFromAbove(overrides: seq<Override>, p: seq<string>, r: seq<string>, x: seq<string>)
    requires Agreeing(overrides) && Last(overrides, p).Some? && Last(overrides, r).Some? && p <= x < r
    ensures KindAt(Last(overrides, p).value, x[|p|..]) == Some(Inner)
  {
    CutTwice(p, x, r);
    AboveIsTable(Last(overrides, p).value, x[|p|..], r[|p|..]);
  }

  /** x is on the way to a path, or below it. */
  predicate Near(path: seq<string>, x: seq<string>)
  {
    path <= x || x < path
  }

  ghost predicate NoneNear(overrides: seq<Override>, n: nat, x: seq<string>)
  {
    forall i :: n <= i < |overrides| ==> !Near(overrides[i].Path(), x)
  }

  lemma LastNear(overrides: seq<Override>, n: nat, x: seq<string>)
    requires n < |overrides| && NoneNear(overrides, n + 1, x) && Near(overrides[n].Path(), x)
    ensures Last(overrides, overrides[n].Path()) == Some(overrides[n].value)
  {
    LastOfAll(overrides, n);
  }

  lemma StandingOf(overrides: seq<Override>, n: nat, x: seq<string>)
    requires n < |overrides|
    ensures var r := overrides[n].Path();
      Standing(overrides[..n + 1], x) ==
      if r <= x then KindAt(overrides[n].value, x[|r|..])
      else if x < r then Some(Inner)
      else Standing(overrides[..n], x)
  {
    assert overrides[..n + 1][..n] == overrides[..n];
  }

  lemma NoneNearOneMore(overrides: seq<Override>, n: nat, x: seq<string>)
    requires overrides != [] && NoneNear(overrides[..|overrides| - 1], n, x)
    requires !Near(overrides[|overrides| - 1].Path(), x)
    ensures NoneNear(overrides, n, x)
  {
    var init := overrides[..|overrides| - 1];
    forall i | n <= i < |init| ensures !Near(overrides[i].Path(), x) {
      assert overrides[i] == init[i];
    }
  }

  /** The last override that is near x, which decides what stands there. */
  lemma {:induction false} LastNearIndex(overrides: seq<Override>, p: seq<string>, x: seq<string>) returns (n: nat)
    requires Last(overrides, p).Some? && p <= x
    ensures n < |overrides| && Near(overrides[n].Path(), x) && NoneNear(overrides, n + 1, x)
    ensures Standing(overrides, x) == Standing(overrides[..n + 1], x)
  {
    var m := |overrides| - 1;
    if Near(overrides[m].Path(), x) {
      n := m;
      assert overrides[..m + 1] == overrides;
    } else {
      var init := overrides[..m];
      n := LastNearIndex(init, p, x);
      assert init[..n + 1] == overrides[..n + 1];
      NoneNearOneMore(overrides, n + 1, x);
    }
  }

  lemma AgreedNear(overrides: seq<Override>, n: nat, p: seq<string>, x: seq<string>)
    requires Agreeing(overrides) && Last(overrides, p).Some? && p <= x
    requires n < |overrides| && NoneNear(overrides, n + 1, x) && Near(overrides[n].Path(), x)
    ensures Standing(overrides[..n + 1], x) == KindAt(Last(overrides, p).value, x[|p|..])
  {
    var r := overrides[n].Path();
    StandingOf(overrides, n, x);
    LastNear(overrides, n, x);
    if r <= x {
      AgreedFromBelow(overrides, p, r, x);
    } else {
      AgreedFromAbove(overrides, p, r, x);
    }
  }

  /** Below a given path, agreeing overrides leave standing what its last value holds. */
  lemma AgreedStanding(overrides: seq<Override>, p: seq<string>, x: seq<string>)
    requires Agreeing(overrides) && Last(overrides, p).Some? && p <= x
    ensures Standing(overrides, x) == KindAt(Last(overrides, p).value, x[|p|..])
  {
    var n := LastNearIndex(overrides, p, x);
    AgreedNear(overrides, n, p, x);
  }

  /**
    The tree can be built and every override read back exactly when none is blocked and those
    whose paths continue one another agree: which the check, looking only at paths, refuses.
   */
  lemma ReadBackIffAgreeing(overrides: seq<Override>)
    ensures AllReadBack(overrides) <==> Unblocked(overrides) && Agreeing(overrides)
  {
    NestAllIffUnblocked(overrides);
    if Unblocked(overrides) {
      var t := Dict(NestAll(map[], overrides).value);
      forall p ensures Last(overrides, p).Some? <==> p in Paths(overrides) {
        LastIffGiven(overrides, p);
      }
      if AllReadBack(overrides) {
        forall p, q | Last(overrides, p).Some? && Last(overrides, q).Some? && p < q
          ensures At(Last(overrides, p).value, q[|p|..]) == Last(overrides, q)
        {
          AtTwice(t, p, q);
        }
      }
      if Agreeing(overrides) {
        forall p | p in Paths(overrides) ensures At(t, p) == Last(overrides, p) {
          AgreeingReadsBack(overrides, p);
        }
      }
    }
  }

  lemma AgreeingReadsBack(overrides: seq<Override>, p: seq<string>)
    requires NestAll(map[], overrides).Some? && Agreeing(overrides) && Last(overrides, p).Some?
    ensures At(Dict(NestAll(map[], overrides).value), p) == Last(overrides, p)
  {
    var t, v := Dict(NestAll(map[], overrides).value), Last(overrides, p).value;
    forall x ensures KindAt(t, p + x) == KindAt(v, x) {
      NestedTreeStands(overrides, p + x);
      assert (p + x)[|p|..] == x;
      AgreedStanding(overrides, p, p + x);
    }
    assert p + [] == p && KindAt(t, p + []) == KindAt(v, []);
    forall x ensures KindAt(At(t, p).value, x) == KindAt(v, x) {
      AtTwice(t, p, p + x);
      assert (p + x)[|p|..] == x;
      assert KindAt(t, p + x) == KindAt(v, x);
    }
    SameEverywhere(At(t, p).value, v);
  }

  lemma PairAgrees(first: Override, second: Override)
    requires first.Path() < second.Path()
    requires At(first.value, second.Path()[|first.Path()|..]) == Some(second.value)
    ensures Agreeing([first, second])
  {
    var overrides := [first, second];
    assert overrides[..1] == [first] && [first][..0] == [];
    forall p ensures Last(overrides, p) == if p == second.Path() then Some(second.value)
      else if p == first.Path() then Some(first.value) else None
    {
      assert Last([first], p) == if p == first.Path() then Some(first.value) else None;
    }
  }

  lemma PairIsUnblocked(first: Override, second: Override)
    requires first.Path() < second.Path()
    requires At(first.value, second.Path()[|first.Path()|..]) == Some(second.value)
    ensures Unblocked([first, second])
  {
    var p, q := first.Path(), second.Path();
    assert [first, second][..1] == [first] && [first][..0] == [] && [first, second][..0] == [];
    forall n | 0 < n < |q| ensures Standing([first], q[..n]) in {None, Some(Inner)} {
      if p <= q[..n] {
        CutTwice(p, q[..n], q);
        AboveIsTable(first.value, q[..n][|p|..], q[|p|..]);
      }
    }
    assert forall n :: 0 < n < |p| ==> Standing([], p[..n]) == None;
  }

  /** A mapping and a value given under it that agree are refused, though both would be read back. */
  lemma AgreeingPairIsRefused(first: Override, second: Override)
    requires first.Path() < second.Path()
    requires At(first.value, second.Path()[|first.Path()|..]) == Some(second.value)
    ensures !Compatible(Paths([first, second])) && AllReadBack([first, second])
  {
    assert Paths([first, second])[0] < Paths([first, second])[1];
    PairAgrees(first, second);
    PairIsUnblocked(first, second);
    ReadBackIffAgreeing([first, second]);
  }

  /** Such a pair is a.b={"d": 2} and then a.b.d=2. */
  lemma CheckMayBeStricterThanNeeded()
    ensures var overrides := [Override("a", ["b"], Dict(map["d" := Atom("2")])), Override("a", ["b", "d"], Atom("2"))];
      !Compatible(Paths(overrides)) && AllReadBack(overrides)
  {
    var first, second := Override("a", ["b"], Dict(map["d" := Atom("2")])), Override("a", ["b", "d"], Atom("2"));
    assert second.Path()[|first.Path()|..] == ["d"] && ["d"][1..] == [];
    assert first.Path() <= second.Path();
    AgreeingPairIsRefused(first, second);
  }

  // ---------------------------------------------------------------- the dotted keys of a tree

  /** Every leaf key below a mapping in dotted form. */
  function DottedKeys(v: Value, prefix: string): set<string>
    requires v.Dict?
    decreases v, 0
  {
    set k, key | k in v.entries && key in KeysAt(v.entries[k], prefix + k) :: key
  }

  function KeysAt(v: Value, path: string): set<string>
    decreases v, 1
  {
    if v.Dict? then DottedKeys(v, path + ".") else {path}
  }

  function Dotted(path: string, q: seq<string>): string
  {
    if q == [] then path else path + (['.'] + Join(q, '.'))
  }

  lemma JoinFromFirst(k: string, q: seq<string>)
    ensures Join([k] + q, '.') == Dotted(k, q)
  {
    assert ([k] + q)[1..] == q;
    ConcatAssociative(k, ['.'], Join(q, '.'));
  }

  ghost predicate IsLeaf(v: Value, q: seq<string>)
  {
    At(v, q).Some? && At(v, q).value.Atom?
  }

  lemma LeafBelow(v: Value, q: seq<string>)
    requires v.Dict? && q != []
    ensures IsLeaf(v, q) <==> q[0] in v.entries && IsLeaf(v.entries[q[0]], q[1..])
  {
  }

  lemma {:induction false} KeysAtAreLeaves(v: Value, path: string, key: string)
    ensures key in KeysAt(v, path) <==> exists q :: IsLeaf(v, q) && key == Dotted(path, q)
    decreases v, 1
  {
    if v.Atom? {
      if key == path {
        assert IsLeaf(v, []) && key == Dotted(path, []);
      }
    } else {
      DottedKeysAreLeaves(v, path + ".", key);
      if key in DottedKeys(v, path + ".") {
        var q :| q != [] && IsLeaf(v, q) && key == (path + ".") + Join(q, '.');
        ConcatAssociative(path, ".", Join(q, '.'));
        assert key == Dotted(path, q);
      }
      if q :| IsLeaf(v, q) && key == Dotted(path, q) {
        ConcatAssociative(path, ".", Join(q, '.'));
      }
    }
  }

  /** The dotted keys of a mapping are its leaves' paths, joined. */
  lemma {:induction false} DottedKeysAreLeaves(v: Value, prefix: string, key: string)
    requires v.Dict?
    ensures key in DottedKeys(v, prefix) <==> exists q :: q != [] && IsLeaf(v, q) && key == prefix + Join(q, '.')
    decreases v, 0
  {
    if key in DottedKeys(v, prefix) {
      var k :| k in v.entries && key in KeysAt(v.entries[k], prefix + k);
      KeysAtAreLeaves(v.entries[k], prefix + k, key);
      var r :| IsLeaf(v.entries[k], r) && key == Dotted(prefix + k, r);
      var q := [k] + r;
      assert q[1..] == r;
      LeafBelow(v, q);
      JoinFromFirst(k, r);
      DottedAfter(prefix, k, r);
      assert q != [] && IsLeaf(v, q) && key == prefix + Join(q, '.');
    }
    if q :| q != [] && IsLeaf(v, q) && key == prefix + Join(q, '.') {
      var k, r := q[0], q[1..];
      assert q == [k] + r;
      LeafBelow(v, q);
      JoinFromFirst(k, r);
      DottedAfter(prefix, k, r);
      KeysAtAreLeaves(v.entries[k], prefix + k, key);
    }
  }

  lemma DottedAfter(prefix: string, k: string, r: seq<string>)
    ensures prefix + Dotted(k, r) == Dotted(prefix + k, r)
  {
    if r != [] {
      ConcatAssociative(prefix, k, ['.'] + Join(r, '.'));
    }
  }

  function GivenKeys(overrides: seq<Override>): set<string>
  {
    set p | p in Paths(overrides) :: Join(p, '.')
  }

  lemma GivenIffLast(overrides: seq<Override>, key: string)
    ensures key in GivenKeys(overrides) <==> exists p :: Last(overrides, p).Some? && key == Join(p, '.')
  {
    if key in GivenKeys(overrides) {
      var p :| p in Paths(overrides) && key == Join(p, '.');
      LastIffGiven(overrides, p);
    }
    if p :| Last(overrides, p).Some? && key == Join(p, '.') {
      LastIffGiven(overrides, p);
    }
  }

  ghost predicate AllNameable(overrides: seq<Override>)
  {
    forall p :: p in Paths(overrides) ==> Nameable(p)
  }

  /** A leaf of the tree continues a given path, or is one. */
  lemma LeafContinuesGiven(t: Table, overrides: seq<Override>, q: seq<string>) returns (p: seq<string>)
    requires Carries(t, overrides) && q != [] && IsLeaf(Dict(t), q)
    ensures Last(overrides, p).Some? && p <= q && IsLeaf(Last(overrides, p).value, q[|p|..])
  {
    p :| Last(overrides, p).Some? && (p <= q || q < p);
  }

  lemma LeavesOfAtoms(t: Table, overrides: seq<Override>, key: string)
    requires Carries(t, overrides)
    requires forall p :: Last(overrides, p).Some? ==> Last(overrides, p).value.Atom? && p != []
    ensures key in DottedKeys(Dict(t), "") <==> exists p :: Last(overrides, p).Some? && key == Join(p, '.')
  {
    DottedKeysAreLeaves(Dict(t), "", key);
    if key in DottedKeys(Dict(t), "") {
      var q :| q != [] && IsLeaf(Dict(t), q) && key == "" + Join(q, '.');
      var p := LeafContinuesGiven(t, overrides, q);
      assert p == q;
      assert "" + Join(q, '.') == Join(q, '.');
    }
    if p :| Last(overrides, p).Some? && key == Join(p, '.') {
      assert p[|p|..] == [];
      assert IsLeaf(Dict(t), p) && key == "" + Join(p, '.');
    }
  }

  /** No leaf under a given path is spelled like another given path, or like that path when it is a mapping. */
  lemma LeafIsNotSpelled(p: seq<string>, g: seq<string>, r: seq<string>)
    requires Nameable(p) && Nameable(g) && !(g < p) && (r == [] ==> g != p)
    ensures Join(g + r, '.') != Join(p, '.')
  {
    if r == [] {
      assert g + r == g;
      SplitAfterJoin(p, '.');
      SplitAfterJoin(g, '.');
    } else {
      JoinAcross(g, r, '.');
      UnderIsProperPrefix(g, p);
      assert Under(Join(g, '.'), Join(g, '.') + (['.'] + Join(r, '.'))) by {
        ConcatAssociative(Join(g, '.'), ['.'], Join(r, '.'));
      }
    }
  }

  /** A key whose last value is a mapping is not among the dotted keys. */
  lemma MappingHidesItsKey(t: Table, overrides: seq<Override>, p: seq<string>)
    requires Carries(t, overrides) && Apart(overrides) && Last(overrides, p).Some? && Last(overrides, p).value.Dict?
    requires forall q :: Last(overrides, q).Some? ==> Nameable(q)
    ensures Join(p, '.') !in DottedKeys(Dict(t), "")
  {
    var key := Join(p, '.');
    DottedKeysAreLeaves(Dict(t), "", key);
    forall q | q != [] && IsLeaf(Dict(t), q) ensures key != "" + Join(q, '.') {
      assert "" + Join(q, '.') == Join(q, '.');
      LeafIsSpelledApart(t, overrides, p, q);
    }
  }

  lemma LeafIsSpelledApart(t: Table, overrides: seq<Override>, p: seq<string>, q: seq<string>)
    requires Carries(t, overrides) && Apart(overrides) && Last(overrides, p).Some? && Last(overrides, p).value.Dict?
    requires forall q :: Last(overrides, q).Some? ==> Nameable(q)
    requires q != [] && IsLeaf(Dict(t), q)
    ensures Join(q, '.') != Join(p, '.')
  {
    var g := LeafContinuesGiven(t, overrides, q);
    assert q == g + q[|g|..];
    LeafIsNotSpelled(p, g, q[|g|..]);
  }

  /** The tree's dotted keys are the given ones exactly when no key was last given a mapping. */
  lemma DottedKeysAreTheGivenOnes(overrides: seq<Override>)
    requires Compatible(Paths(overrides)) && AllNameable(overrides)
    ensures NestAll(map[], overrides).Some?
    ensures DottedKeys(Dict(NestAll(map[], overrides).value), "") == GivenKeys(overrides) <==>
      forall p :: Last(overrides, p).Some? ==> Last(overrides, p).value.Atom?
  {
    ApartIsCompatible(overrides);
    NestAllCarries(overrides);
    var t := NestAll(map[], overrides).value;
    forall p ensures Last(overrides, p).Some? <==> p in Paths(overrides) {
      LastIffGiven(overrides, p);
    }
    if forall p :: Last(overrides, p).Some? ==> Last(overrides, p).value.Atom? {
      forall key ensures key in DottedKeys(Dict(t), "") <==> key in GivenKeys(overrides) {
        LeavesOfAtoms(t, overrides, key);
        GivenIffLast(overrides, key);
      }
    } else {
      var p :| Last(overrides, p).Some? && Last(overrides, p).value.Dict?;
      MappingHidesItsKey(t, overrides, p);
      assert Join(p, '.') in GivenKeys(overrides);
    }
  }

  // ---------------------------------------------------------------- the mutable tree

  lemma Overwritten<K, V>(t: map<K, V>, key: K, v: V, w: V)
    ensures t[key := v][key := w] == t[key := w]
  {
  }

  /** What a mutable table holds under a key. */
  datatype Entry = Leaf(text: string) | Sub(node: Node)

  ghost function EntryRepr(e: Entry): set<object>
    reads if e.Sub? then {e.node} else {}
  {
    if e.Sub? then e.node.repr else {}
  }

  ghost predicate ValidEntry(e: Entry)
    reads if e.Sub? then {e.node} + e.node.repr else {}
  {
    e.Sub? ==> e.node.Valid()
  }

  ghost function EntryValue(e: Entry): Value
    requires ValidEntry(e)
    reads if e.Sub? then {e.node} + e.node.repr else {}
    decreases EntryRepr(e), 1
  {
    match e
    case Leaf(text) => Atom(text)
    case Sub(node) => Dict(node.Contents())
  }

  /** A nested table that is changed in place. */
  class Node {
    var entries: map<string, Entry>
    ghost var repr: set<object>

    /** The tables below this one form a tree. */
    ghost predicate Valid()
      reads this, repr
      ensures Valid() ==> this in repr
      decreases repr
    {
      && this in repr
      && (forall k :: k in entries && entries[k].Sub? ==>
           && entries[k].node in repr && entries[k].node.repr <= repr && this !in entries[k].node.repr
           && entries[k].node.Valid())
      && (forall j, k :: j in entries && k in entries && j != k && entries[j].Sub? && entries[k].Sub? ==>
           entries[j].node.repr !! entries[k].node.repr)
    }

    ghost function Contents(): Table
      requires Valid()
      reads this, repr
      decreases repr, 0
    {
      map k | k in entries :: EntryValue(entries[k])
    }

    constructor ()
      ensures Valid() && fresh(repr) && Contents() == map[]
    {
      entries := map[];
      repr := {this};
    }

    /** Puts an entry under a key that has none or has one to be replaced. */
    method Put(key: string, e: Entry)
      requires Valid() && ValidEntry(e) && EntryRepr(e) !! repr
      modifies this
      ensures Valid() && repr == old(repr) + EntryRepr(e)
      ensures ValidEntry(e) && Contents() == old(Contents())[key := old(EntryValue(e))]
      ensures entries == old(entries)[key := e]
    {
      entries := entries[key := e];
      repr := repr + EntryRepr(e);
      assert Valid();
      assert forall k :: k in old(entries) && k != key ==> EntryValue(entries[k]) == old(EntryValue(entries[k]));
      OnlyKeyChanged(key);
    }

    /** Walks down path, making tables where there are none, and sets its last key. */
    method Nest(path: seq<string>, v: Value)
      requires Valid() && path != [] && Open(Contents(), path)
      modifies repr
      ensures Valid() && fresh(repr - old(repr))
      ensures Nested(old(Contents()), path, v) == Some(Contents())
      decreases |path|, 0
    {
      if |path| == 1 {
        var e := Build(v);
        Put(path[0], e);
        return;
      }
      OpenStep(Contents(), path);
      EmptyIsOpen(path[1..]);
      assert path[0] in entries ==> Contents()[path[0]] == EntryValue(entries[path[0]]);
      ghost var below := Below(Contents(), path[0]);
      SetDefault(path[0]);
      NestBelow(path[0], path[1..], v);
      Overwritten(old(Contents()), path[0], Dict(below), Contents()[path[0]]);
    }

    /** The table under key, an empty one put there when there is none. */
    method SetDefault(key: string)
      requires Valid() && (key in entries ==> entries[key].Sub?)
      modifies this
      ensures Valid() && fresh(repr - old(repr))
      ensures key in entries && entries[key].Sub? && entries[key].node.Contents() == Below(old(Contents()), key)
      ensures Contents() == old(Contents())[key := Dict(Below(old(Contents()), key))]
    {
      if key !in entries {
        var made := new Node();
        Put(key, Sub(made));
      } else {
        assert Contents()[key] == Dict(entries[key].node.Contents());
      }
    }

    /** Carries on in the table under key. */
    method NestBelow(key: string, path: seq<string>, v: Value)
      requires Valid() && path != [] && key in entries && entries[key].Sub?
      requires Open(entries[key].node.Contents(), path)
      modifies repr
      ensures Valid() && fresh(repr - old(repr))
      ensures var below := Nested(old(entries[key].node.Contents()), path, v);
        below.Some? && Contents() == old(Contents())[key := Dict(below.value)]
      decreases |path|, 1
    {
      var node := entries[key].node;
      ghost var below := Nested(node.Contents(), path, v);
      node.Nest(path, v);
      repr := repr + node.repr;
      assert entries == old(entries) && below == Some(node.Contents());
      assert forall k :: k in entries && k != key && entries[k].Sub? ==> entries[k].node.repr !! node.repr;
      assert Valid();
      assert forall k :: k in entries && k != key ==> EntryValue(entries[k]) == old(EntryValue(entries[k]));
      assert EntryValue(entries[key]) == Dict(below.value);
      OnlyKeyChanged(key);
    }

    /** What the table holds now, when only the value under key has changed. */
    twostate lemma OnlyKeyChanged(key: string)
      requires old(Valid()) && Valid() && entries.Keys == old(entries.Keys) + {key}
      requires forall k :: k in entries && k != key ==>
        entries[k] == old(entries[k]) && EntryValue(entries[k]) == old(EntryValue(entries[k]))
      ensures Contents() == old(Contents())[key := EntryValue(entries[key])]
    {
    }
  }

  /** Fresh tables holding a value, as the value parser allocates them. */
  method Build(v: Value) returns (e: Entry)
    ensures ValidEntry(e) && fresh(EntryRepr(e)) && EntryValue(e) == v
  {
    if v.Atom? {
      return Leaf(v.text);
    }
    var node := new Node();
    var left := v.entries.Keys;
    while left != {}
      invariant left <= v.entries.Keys
      invariant node.Valid() && fresh(node.repr)
      invariant node.Contents() == v.entries - left
    {
      var key :| key in left;
      var below := Build(v.entries[key]);
      node.Put(key, below);
      left := left - {key};
    }
    assert v.entries - {} == v.entries;
    return Sub(node);
  }

  // ---------------------------------------------------------------- all together

  /** The overrides parsed in turn, or what the first malformed one raises. */
  function ParseAll(raws: seq<string>, coerce: string -> Value): Result<seq<Override>, Fault>
  {
    if raws == [] then Ok([])
    else
      match ParseAll(raws[..|raws| - 1], coerce)
      case Raised(fault) => Raised(fault)
      case Ok(sofar) =>
        match ParseOverride(raws[|raws| - 1], coerce)
        case Raised(fault) => Raised(fault)
        case Ok(o) => Ok(sofar + [o])
  }

  function Keys(overrides: seq<Override>): seq<string>
  {
    seq(|overrides|, i requires 0 <= i < |overrides| => Join(overrides[i].Path(), '.'))
  }

  lemma {:induction false} ParsedAreNameable(raws: seq<string>, coerce: string -> Value)
    requires ParseAll(raws, coerce).Ok?
    ensures AllNameable(ParseAll(raws, coerce).value)
  {
    if raws != [] {
      ParsedAreNameable(raws[..|raws| - 1], coerce);
      ParsedIsSpelled(raws[|raws| - 1], coerce);
      var all := ParseAll(raws, coerce).value;
      forall p | p in Paths(all) ensures Nameable(p) {
        var i :| 0 <= i < |all| && all[i].Path() == p;
        if i < |all| - 1 {
          assert p == Paths(ParseAll(raws[..|raws| - 1], coerce).value)[i];
        }
      }
    }
  }

  /** The string check refuses exactly the incompatible paths. */
  lemma ConflictIsIncompatible(overrides: seq<Override>)
    requires AllNameable(overrides)
    ensures Conflicting(Keys(overrides)) <==> !Compatible(Paths(overrides))
  {
    var keys, paths := Keys(overrides), Paths(overrides);
    forall i, j | 0 <= i < |overrides| && 0 <= j < |overrides|
      ensures Under(keys[i], keys[j]) <==> paths[i] < paths[j]
    {
      assert Nameable(paths[i]) && Nameable(paths[j]);
      UnderIsProperPrefix(paths[i], paths[j]);
    }
  }

  lemma CompatiblePrefix(overrides: seq<Override>, n: nat)
    requires n <= |overrides| && Compatible(Paths(overrides))
    ensures Compatible(Paths(overrides[..n]))
  {
    var few, all := Paths(overrides[..n]), Paths(overrides);
    assert forall i :: 0 <= i < |few| ==> few[i] == all[i];
  }

  /** The next override always finds its way open. */
  lemma NextIsOpen(overrides: seq<Override>, n: nat)
    requires n < |overrides| && Compatible(Paths(overrides))
    ensures NestAll(map[], overrides[..n]).Some? && NestAll(map[], overrides[..n + 1]).Some?
    ensures var t := NestAll(map[], overrides[..n]).value;
      && Open(t, overrides[n].Path())
      && Nested(t, overrides[n].Path(), overrides[n].value) == NestAll(map[], overrides[..n + 1])
  {
    CompatiblePrefix(overrides, n);
    CompatiblePrefix(overrides, n + 1);
    CompatibleOverridesNest(overrides[..n]);
    CompatibleOverridesNest(overrides[..n + 1]);
    assert overrides[..n + 1][..n] == overrides[..n];
    NestedIffOpen(NestAll(map[], overrides[..n]).value, overrides[n].Path(), overrides[n].value);
  }

  /** Parses the strings in turn, stopping at the first malformed one. */
  method ParseEach(raws: seq<string>, coerce: string -> Value) returns (r: Result<seq<Override>, Fault>)
    ensures r == ParseAll(raws, coerce)
  {
    var parsed: seq<Override> := [];
    for i := 0 to |raws|
      invariant ParseAll(raws[..i], coerce) == Ok(parsed)
    {
      assert raws[..i + 1][..i] == raws[..i];
      match ParseOverride(raws[i], coerce) {
        case Raised(fault) =>
          FirstFaultStands(raws, coerce, i + 1);
          return Raised(fault);
        case Ok(o) => parsed := parsed + [o];
      }
    }
    assert raws[..|raws|] == raws;
    return Ok(parsed);
  }

  /** Nests the overrides one after another into a new tree. */
  method NestEach(overrides: seq<Override>) returns (tree: Node)
    requires Compatible(Paths(overrides))
    ensures fresh(tree) && tree.Valid() && NestAll(map[], overrides) == Some(tree.Contents())
  {
    tree := new Node();
    for i := 0 to |overrides|
      invariant tree.Valid() && fresh(tree.repr)
      invariant NestAll(map[], overrides[..i]) == Some(tree.Contents())
    {
      NextIsOpen(overrides, i);
      tree.Nest(overrides[i].Path(), overrides[i].value);
    }
    assert overrides[..|overrides|] == overrides;
  }

  /** Parses every override, refuses conflicts, and nests them into one tree. */
  method NestOverrides(raws: seq<string>, coerce: string -> Value)
    returns (r: Result<Node, Fault>, keys: set<string>)
    ensures r.Ok? <==> ParseAll(raws, coerce).Ok? && Compatible(Paths(ParseAll(raws, coerce).value))
    ensures ParseAll(raws, coerce).Raised? ==> r == Raised(ParseAll(raws, coerce).error)
    ensures ParseAll(raws, coerce).Ok? && r.Raised? ==> r.error.Conflict?
    ensures r.Ok? ==>
      && fresh(r.value) && r.value.Valid()
      && NestAll(map[], ParseAll(raws, coerce).value) == Some(r.value.Contents())
      && keys == GivenKeys(ParseAll(raws, coerce).value)
  {
    keys := {};
    var parsed := ParseEach(raws, coerce);
    if parsed.Raised? {
      return Raised(parsed.error), keys;
    }
    ParsedAreNameable(raws, coerce);
    ConflictIsIncompatible(parsed.value);
    var conflict := RefuseConflicts(Keys(parsed.value));
    if conflict.Some? {
      return Raised(conflict.value), keys;
    }
    var tree := NestEach(parsed.value);
    return Ok(tree), GivenKeys(parsed.value);
  }

  lemma {:induction false} FirstFaultStands(raws: seq<string>, coerce: string -> Value, n: nat)
    requires n <= |raws| && ParseAll(raws[..n], coerce).Raised?
    ensures ParseAll(raws, coerce) == ParseAll(raws[..n], coerce)
    decreases |raws|
  {
    if n == |raws| {
      assert raws[..n] == raws;
    } else {
      assert raws[..|raws| - 1][..n] == raws[..n];
      FirstFaultStands(raws[..|raws| - 1], coerce, n);
    }
  }
}
