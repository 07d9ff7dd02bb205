/**
  Journal keys: which fields of a node spec identify a call, and how they are chained with
  the brief, the input and the dependency records into one content hash.
 */
module Keys {
  import opened Strings
  import opened Wrappers
  import Admission
  import Decisions

  datatype Spec = Spec(
    nodeId: string,
    briefRef: string,
    deps: seq<string>,
    deadline: real,
    budget: map<string, int>,
    kind: string,
    executor: Option<string>,
    tierRole: Option<string>,
    model: Option<string>,
    effort: Option<string>,
    knowledge: seq<string>,
    stageInto: Option<string>,
    writeSet: seq<string>,
    requirements: seq<Admission.Requirement>,
    isolation: string,
    attempt: int,
    continuation: int,
    compact: Option<map<string, int>>
  )

  /** The dictionary whose canonical text is hashed: the identity fields and the two hashes. */
  datatype Identity = Identity(
    kind: string,
    executor: Option<string>,
    tierRole: Option<string>,
    model: Option<string>,
    effort: Option<string>,
    knowledge: seq<string>,
    stageInto: Option<string>,
    writeSet: seq<string>,
    requirements: seq<Admission.Requirement>,
    isolation: string,
    attempt: int,
    continuation: int,
    compact: Option<map<string, int>>,
    briefHash: string,
    inputHash: string
  )

  /** What a dependency left behind. */
  datatype Record = Record(nodeId: string, attempt: int, status: string, facts: map<string, string>,
                           artefacts: seq<string>)

  /** SHA-256 as hexadecimal text, and canonical JSON of the two things that are hashed. */
  datatype Hashing = Hashing(
    sha: string -> string,
    identityText: Identity -> string,
    recordText: Record -> string
  )

  const NUL := '\0'

  predicate HexDigest(s: string)
  {
    forall i :: 0 <= i < |s| ==> Decisions.IsHex(s[i])
  }

  function ContentHash(h: Hashing, text: string): string
  {
    "sha256:" + h.sha(text)
  }

  function RecordHash(h: Hashing, record: Record): string
  {
    ContentHash(h, h.recordText(record))
  }

  function RecordHashes(h: Hashing, records: seq<Record>): seq<string>
  {
    seq(|records|, i requires 0 <= i < |records| => RecordHash(h, records[i]))
  }

  function PrefixHash(h: Hashing, records: seq<Record>): string
  {
    ContentHash(h, Join(RecordHashes(h, records), NUL))
  }

  function IdentityOf(spec: Spec, briefHash: string, inputHash: string): Identity
  {
    Identity(spec.kind, spec.executor, spec.tierRole, spec.model, spec.effort, spec.knowledge, spec.stageInto,
             spec.writeSet, spec.requirements, spec.isolation, spec.attempt, spec.continuation, spec.compact,
             briefHash, inputHash)
  }

  /** Each identity field is hashed under its own name, and the two hashes under theirs. */
  lemma IdentityNamesItsFields(spec: Spec, briefHash: string, inputHash: string)
    ensures var id := IdentityOf(spec, briefHash, inputHash);
      && id.kind == spec.kind && id.executor == spec.executor && id.tierRole == spec.tierRole && id.model == spec.model
      && id.effort == spec.effort && id.knowledge == spec.knowledge && id.stageInto == spec.stageInto
      && id.writeSet == spec.writeSet && id.requirements == spec.requirements && id.isolation == spec.isolation
      && id.attempt == spec.attempt && id.continuation == spec.continuation && id.compact == spec.compact
      && id.briefHash == briefHash && id.inputHash == inputHash
  {
  }

  const KEY_VERSION := "v2"

  function JournalKey(h: Hashing, spec: Spec, briefHash: string, inputHash: string, prefix: string): string
  {
    KEY_VERSION + ":sha256:" + h.sha(prefix + [NUL] + h.identityText(IdentityOf(spec, briefHash, inputHash)))
  }

  /** One dispatch, as far as its key goes. */
  datatype Call = Call(spec: Spec, briefHash: string, inputHash: string, records: seq<Record>)

  function IdentityOfCall(call: Call): Identity
  {
    IdentityOf(call.spec, call.briefHash, call.inputHash)
  }

  function KeyOf(h: Hashing, call: Call): string
  {
    JournalKey(h, call.spec, call.briefHash, call.inputHash, PrefixHash(h, call.records))
  }

  /** The text whose digest ends the key. */
  function KeyText(h: Hashing, call: Call): string
  {
    PrefixHash(h, call.records) + [NUL] + h.identityText(IdentityOfCall(call))
  }

  /** Every text hashed on the way to the key. */
  function HashedTexts(h: Hashing, call: Call): set<string>
  {
    (set r | r in call.records :: h.recordText(r)) + {Join(RecordHashes(h, call.records), NUL), KeyText(h, call)}
  }

  /**
    Among what these two dispatches hash, no two texts share a digest and no two values a
    text; and digests are hexadecimal.
   */
  ghost predicate CollisionFree(h: Hashing, a: Call, b: Call)
  {
    && (forall s :: HexDigest(h.sha(s)))
    && (forall s, t :: s in HashedTexts(h, a) + HashedTexts(h, b) && t in HashedTexts(h, a) + HashedTexts(h, b) ==>
          h.sha(s) == h.sha(t) ==> s == t)
    && (h.identityText(IdentityOfCall(a)) == h.identityText(IdentityOfCall(b)) ==>
          IdentityOfCall(a) == IdentityOfCall(b))
    && (forall r, s :: r in a.records + b.records && s in a.records + b.records ==>
          h.recordText(r) == h.recordText(s) ==> r == s)
  }

  lemma HashesAreFree(h: Hashing, text: string)
    requires HexDigest(h.sha(text))
    ensures Free(ContentHash(h, text), NUL)
  {
    var prefix := "sha256:";
    assert forall i :: 0 <= i < |prefix| ==> prefix[i] != NUL;
  }

  lemma SameHashSameDigest(h: Hashing, s: string, t: string)
    requires ContentHash(h, s) == ContentHash(h, t)
    ensures h.sha(s) == h.sha(t)
  {
    assert ContentHash(h, s)[7..] == h.sha(s) && ContentHash(h, t)[7..] == h.sha(t);
  }

  /** Join and split undo each other here even for no hashes at all, as no hash is empty. */
  lemma JoinedHashesTell(h: Hashing, first: seq<Record>, second: seq<Record>)
    requires forall s :: HexDigest(h.sha(s))
    requires Join(RecordHashes(h, first), NUL) == Join(RecordHashes(h, second), NUL)
    ensures RecordHashes(h, first) == RecordHashes(h, second)
  {
    var a, b := RecordHashes(h, first), RecordHashes(h, second);
    forall r: Record ensures Free(RecordHash(h, r), NUL) && RecordHash(h, r) != "" {
      HashesAreFree(h, h.recordText(r));
    }
    assert a != [] ==> Join(a, NUL) != "";
    assert b != [] ==> Join(b, NUL) != "";
    if a != [] && b != [] {
      SplitAfterJoin(a, NUL);
      SplitAfterJoin(b, NUL);
    }
  }

  /** The prefix tells every dependency record, in order. */
  lemma PrefixTellsRecords(h: Hashing, a: Call, b: Call)
    requires CollisionFree(h, a, b)
    ensures PrefixHash(h, a.records) == PrefixHash(h, b.records) <==> a.records == b.records
  {
    if PrefixHash(h, a.records) == PrefixHash(h, b.records) {
      var s, t := Join(RecordHashes(h, a.records), NUL), Join(RecordHashes(h, b.records), NUL);
      SameHashSameDigest(h, s, t);
      assert s in HashedTexts(h, a) && t in HashedTexts(h, b);
      JoinedHashesTell(h, a.records, b.records);
      assert |a.records| == |RecordHashes(h, a.records)| == |b.records|;
      forall i | 0 <= i < |a.records| ensures a.records[i] == b.records[i] {
        RecordHashTells(h, a, b, i);
      }
    }
  }

  lemma RecordHashTells(h: Hashing, a: Call, b: Call, i: nat)
    requires CollisionFree(h, a, b) && i < |a.records| && i < |b.records|
    requires RecordHashes(h, a.records) == RecordHashes(h, b.records)
    ensures a.records[i] == b.records[i]
  {
    var r, s := a.records[i], b.records[i];
    assert RecordHashes(h, a.records)[i] == RecordHashes(h, b.records)[i];
    SameHashSameDigest(h, h.recordText(r), h.recordText(s));
    assert r in a.records && s in b.records && r in a.records + b.records && s in a.records + b.records;
    assert h.recordText(r) in HashedTexts(h, a) && h.recordText(s) in HashedTexts(h, b);
  }

  lemma KeyTextTells(h: Hashing, a: Call, b: Call)
    requires (forall s :: HexDigest(h.sha(s))) && KeyText(h, a) == KeyText(h, b)
    ensures PrefixHash(h, a.records) == PrefixHash(h, b.records)
    ensures h.identityText(IdentityOfCall(a)) == h.identityText(IdentityOfCall(b))
  {
    var prefix, other := PrefixHash(h, a.records), PrefixHash(h, b.records);
    var text, otherText := h.identityText(IdentityOfCall(a)), h.identityText(IdentityOfCall(b));
    var s := KeyText(h, a);
    HashesAreFree(h, Join(RecordHashes(h, a.records), NUL));
    HashesAreFree(h, Join(RecordHashes(h, b.records), NUL));
    SplitPeels(prefix, text, NUL);
    SplitPeels(other, otherText, NUL);
    assert Split(s, NUL)[0] == prefix && Split(s, NUL)[0] == other;
    assert s[|prefix| + 1..] == text && s[|prefix| + 1..] == otherText;
  }

  lemma SameKeySameDigest(a: string, b: string)
    requires KEY_VERSION + ":sha256:" + a == KEY_VERSION + ":sha256:" + b
    ensures a == b
  {
    var head := KEY_VERSION + ":sha256:";
    assert (head + a)[|head|..] == a && (head + b)[|head|..] == b;
  }

  /**
    Two dispatches share a key exactly when they agree on every identity field, on the brief
    and input hashes, and on the dependency records one by one.
   */
  lemma KeysTellCalls(h: Hashing, a: Call, b: Call)
    requires CollisionFree(h, a, b)
    ensures KeyOf(h, a) == KeyOf(h, b) <==> IdentityOfCall(a) == IdentityOfCall(b) && a.records == b.records
  {
    if KeyOf(h, a) == KeyOf(h, b) {
      SameKeySameDigest(h.sha(KeyText(h, a)), h.sha(KeyText(h, b)));
      assert KeyText(h, a) in HashedTexts(h, a) && KeyText(h, b) in HashedTexts(h, b);
      KeyTextTells(h, a, b);
      PrefixTellsRecords(h, a, b);
    }
  }

  /** A retry or a successor is a new call, whatever else stays the same. */
  lemma RetriesAreNewCalls(h: Hashing, call: Call, attempt: int, continuation: int)
    requires CollisionFree(h, call, call.(spec := call.spec.(attempt := attempt, continuation := continuation)))
    ensures KeyOf(h, call) == KeyOf(h, call.(spec := call.spec.(attempt := attempt, continuation := continuation))) <==>
      attempt == call.spec.attempt && continuation == call.spec.continuation
  {
    KeysTellCalls(h, call, call.(spec := call.spec.(attempt := attempt, continuation := continuation)));
  }

  /**
    With all else equal, two specs share a key exactly when they differ at most in node id,
    brief path, dependency ids, deadline and budget.
   */
  lemma LimitsAreNotIdentity(h: Hashing, call: Call, other: Spec)
    requires CollisionFree(h, call, call.(spec := other))
    ensures KeyOf(h, call) == KeyOf(h, call.(spec := other)) <==>
      other == call.spec.(nodeId := other.nodeId, briefRef := other.briefRef, deps := other.deps,
                          deadline := other.deadline, budget := other.budget)
  {
    KeysTellCalls(h, call, call.(spec := other));
  }

  /** The short form is the start of the digest: nothing in a digest is taken for the separator. */
  lemma ShortFormIsTheDigest(h: Hashing, spec: Spec, briefHash: string, inputHash: string, prefix: string)
    requires HexDigest(h.sha(prefix + [NUL] + h.identityText(IdentityOf(spec, briefHash, inputHash))))
    ensures var digest := h.sha(prefix + [NUL] + h.identityText(IdentityOf(spec, briefHash, inputHash)));
      Decisions.Hash8(JournalKey(h, spec, briefHash, inputHash, prefix)) ==
      if |digest| <= 8 then digest else digest[..8]
  {
    var digest := h.sha(prefix + [NUL] + h.identityText(IdentityOf(spec, briefHash, inputHash)));
    assert JournalKey(h, spec, briefHash, inputHash, prefix) == "v2:sha256" + [':'] + digest;
    Decisions.LastSeparator("v2:sha256", digest, ':');
  }

  // ---------------------------------------------------------------- such a hashing exists

  /** A character in hexadecimal digits that can be read off the front of a text: its code in ones. */
  function Coded(ch: char): (s: string)
    ensures |s| == ch as int + 1 && HexDigest(s)
  {
    seq(ch as int, _ => '1') + ['0']
  }

  function CodedText(s: string): (t: string)
    ensures HexDigest(t)
  {
    if s == "" then "" else Coded(s[0]) + CodedText(s[1..])
  }

  lemma CodedTells(ch: char, rest: string, other: char, otherRest: string)
    requires Coded(ch) + rest == Coded(other) + otherRest
    ensures ch == other && rest == otherRest
  {
    var n, m := ch as int, other as int;
    var s, t := Coded(ch) + rest, Coded(other) + otherRest;
    assert s[n] == '0' && t[m] == '0';
    assert (forall k :: 0 <= k < n ==> s[k] == '1') && (forall k :: 0 <= k < m ==> t[k] == '1');
    assert n == m;
    assert s[n + 1..] == rest && t[m + 1..] == otherRest;
  }

  lemma {:induction false} CodedTextTells(s: string, t: string)
    ensures CodedText(s) == CodedText(t) ==> s == t
  {
    if s != "" && t != "" && CodedText(s) == CodedText(t) {
      CodedTells(s[0], CodedText(s[1..]), t[0], CodedText(t[1..]));
      CodedTextTells(s[1..], t[1..]);
      assert s == [s[0]] + s[1..] && t == [t[0]] + t[1..];
    }
  }

  function PlaceOf(records: seq<Record>, r: Record): nat
  {
    if records == [] || records[0] == r then 0 else 1 + PlaceOf(records[1..], r)
  }

  lemma {:induction false} PlaceTells(records: seq<Record>, r: Record)
    requires r in records
    ensures PlaceOf(records, r) < |records| && records[PlaceOf(records, r)] == r
  {
    if records[0] != r {
      PlaceTells(records[1..], r);
    }
  }

  /** Codes for digests, and for records their place among those at hand. */
  function Witness(a: Call, b: Call): Hashing
  {
    var records, first := a.records + b.records, IdentityOfCall(a);
    Hashing(CodedText, (i: Identity) => if i == first then "a" else "b", (r: Record) => Decimal(PlaceOf(records, r)))
  }

  lemma WitnessTellsRecords(a: Call, b: Call, r: Record, s: Record)
    requires r in a.records + b.records && s in a.records + b.records
    requires Witness(a, b).recordText(r) == Witness(a, b).recordText(s)
    ensures r == s
  {
    var records := a.records + b.records;
    PlaceTells(records, r);
    PlaceTells(records, s);
    DecimalInjective(PlaceOf(records, r), PlaceOf(records, s));
  }

  lemma WitnessTellsTexts(a: Call, b: Call, s: string, t: string)
    ensures HexDigest(Witness(a, b).sha(s)) && (Witness(a, b).sha(s) == Witness(a, b).sha(t) ==> s == t)
  {
    CodedTextTells(s, t);
  }

  /** For any two dispatches some hashing is free of collisions. */
  lemma CollisionFreeExists(a: Call, b: Call)
    ensures exists h :: CollisionFree(h, a, b)
  {
    var h := Witness(a, b);
    forall s, t ensures HexDigest(h.sha(s)) && (h.sha(s) == h.sha(t) ==> s == t) {
      WitnessTellsTexts(a, b, s, t);
    }
    forall r, s | r in a.records + b.records && s in a.records + b.records
      ensures h.recordText(r) == h.recordText(s) ==> r == s
    {
      if h.recordText(r) == h.recordText(s) {
        WitnessTellsRecords(a, b, r, s);
      }
    }
    assert CollisionFree(h, a, b);
  }
}
