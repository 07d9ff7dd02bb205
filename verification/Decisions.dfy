/**
  Decisions on approve nodes: one write-once file per (node id, short payload hash),
  written by people at any time and by the deadline pass when a default is due.
 */
module Decisions {
  import opened Wrappers
  import opened Strings
  import OperatorText
  import L = RunLock

  const WHOLE_RUN_NODE_ID := "_run"
  const SYSTEM_IDENTITY := "system"
  const TIMER_TOKEN_ID := "agentdag-approve-timer"
  const DEADLINE_REASON := "deadline"
  const JSON_SUFFIX := ".json"
  const CANCEL_SUFFIX := ".cancel.json"

  datatype Decision = Decision(nodeId: string, choice: string, reason: string, author: string, tokenId: string,
                               payloadHash: string)

  // ---------------------------------------------------------------- file names

  /** Everything after the last separator, the whole string if there is none. */
  function AfterLast(s: string, sep: char): string
  {
    if s == "" || s[|s| - 1] == sep then "" else AfterLast(s[..|s| - 1], sep) + [s[|s| - 1]]
  }

  /** Everything before the last separator, nothing if there is none. */
  function BeforeLast(s: string, sep: char): string
  {
    if s == "" then "" else if s[|s| - 1] == sep then s[..|s| - 1] else BeforeLast(s[..|s| - 1], sep)
  }

  /** The short form of a hash: what follows the last colon, cut to eight characters. */
  function Hash8(hash: string): string
  {
    var digest := AfterLast(hash, ':');
    if |digest| <= 8 then digest else digest[..8]
  }

  predicate IsHex(ch: char)
  {
    '0' <= ch <= '9' || 'a' <= ch <= 'f'
  }

  predicate IsHex8(s: string)
  {
    |s| == 8 && forall i :: 0 <= i < 8 ==> IsHex(s[i])
  }

  predicate HasDotDot(s: string)
  {
    exists i, j :: 0 <= i < j == i + 1 < |s| && s[i] == '.' && s[j] == '.'
  }

  predicate SafeNodeId(nodeId: string)
  {
    nodeId != WHOLE_RUN_NODE_ID && '/' !in nodeId && '\\' !in nodeId && !HasDotDot(nodeId)
  }

  function FileName(nodeId: string, shortHash: string): string
  {
    nodeId + "." + shortHash + JSON_SUFFIX
  }

  /** The file a decision goes into; None where the source raises ValueError. */
  function DecisionPath(nodeId: string, payloadHash: string): Option<string>
  {
    if SafeNodeId(nodeId) && IsHex8(Hash8(payloadHash)) then Some(FileName(nodeId, Hash8(payloadHash))) else None
  }

  datatype FileRef = FileRef(nodeId: string, shortHash: string)

  function RefOf(name: string): FileRef
  {
    var stem := if EndsWith(name, JSON_SUFFIX) then name[..|name| - |JSON_SUFFIX|] else name;
    FileRef(BeforeLast(stem, '.'), AfterLast(stem, '.'))
  }

  /** Whether a file of decisions/ is listed as a decision rather than skipped as a cancel. */
  predicate IsListed(name: string)
  {
    EndsWith(name, JSON_SUFFIX) && !EndsWith(name, CANCEL_SUFFIX)
  }

  lemma {:induction false} LastSeparator(head: string, tail: string, sep: char)
    requires Free(tail, sep)
    ensures AfterLast(head + [sep] + tail, sep) == tail && BeforeLast(head + [sep] + tail, sep) == head
  {
    var s := head + [sep] + tail;
    if tail == "" {
      assert s[..|s| - 1] == head;
    } else {
      assert s[..|s| - 1] == head + [sep] + tail[..|tail| - 1];
      assert s[|s| - 1] in tail;
      assert forall ch :: ch in tail[..|tail| - 1] ==> ch in tail;
      LastSeparator(head, tail[..|tail| - 1], sep);
    }
  }

  /** A decision's file name parses back to exactly its two parts, and is never taken for a cancel file. */
  lemma FileNameParsesBack(nodeId: string, shortHash: string)
    requires IsHex8(shortHash)
    ensures RefOf(FileName(nodeId, shortHash)) == FileRef(nodeId, shortHash)
    ensures IsListed(FileName(nodeId, shortHash))
  {
    var name := FileName(nodeId, shortHash);
    var stem := nodeId + ['.'] + shortHash;
    assert name == stem + JSON_SUFFIX;
    assert name[|name| - 5..] == JSON_SUFFIX && name[..|name| - 5] == stem;
    LastSeparator(nodeId, shortHash, '.');
  }

  // ---------------------------------------------------------------- the store

  datatype WriteError = UnsafeName | FileExists
  datatype ReadError = UnsafeRequest | Unreadable | WrongPayload

  /** Every decision file holds the decision its name says. */
  predicate NamedRight(files: map<string, Decision>)
  {
    forall name :: name in files ==> DecisionPath(files[name].nodeId, files[name].payloadHash) == Some(name)
  }

  class DecisionStore {
    /** The files that parse, and the names of those that are there and do not. */
    var files: map<string, Decision>
    const unreadable: set<string>

    predicate Taken(name: string)
      reads this
    {
      name in files || name in unreadable
    }

    method WriteDecision(decision: Decision) returns (written: Result<string, WriteError>)
      modifies this
      ensures var path := DecisionPath(decision.nodeId, decision.payloadHash);
        written == (if path.None? then Raised(UnsafeName)
                    else if old(Taken(path.value)) then Raised(FileExists)
                    else Ok(path.value))
      ensures files == if written.Ok? then old(files)[written.value := decision] else old(files)
      ensures NamedRight(old(files)) ==> NamedRight(files)
    {
      var path := DecisionPath(decision.nodeId, decision.payloadHash);
      if path.None? {
        return Raised(UnsafeName);
      }
      if Taken(path.value) {
        return Raised(FileExists);
      }
      files := files[path.value := decision];
      return Ok(path.value);
    }

    /** The decision recorded for this node and this very payload; a short-hash collision is refused, not returned. */
    method ReadDecision(nodeId: string, payloadHash: string) returns (read: Result<Option<Decision>, ReadError>)
      requires NamedRight(files)
      ensures read == Raised(UnsafeRequest) <==> DecisionPath(nodeId, payloadHash).None?
      ensures read == Raised(Unreadable) <==>
        DecisionPath(nodeId, payloadHash).Some? && DecisionPath(nodeId, payloadHash).value in unreadable
      ensures read == Ok(None) <==>
        DecisionPath(nodeId, payloadHash).Some? && !Taken(DecisionPath(nodeId, payloadHash).value)
      ensures read.Ok? && read.value.Some? ==>
        var decision := read.value.value;
        decision.nodeId == nodeId && decision.payloadHash == payloadHash && decision in files.Values
      ensures read.Ok? && read.value.None? ==>
        forall name :: name in files && files[name].nodeId == nodeId ==>
          Hash8(files[name].payloadHash) != Hash8(payloadHash)
      ensures read == Raised(WrongPayload) ==>
        exists name :: name in files && files[name].nodeId == nodeId &&
          Hash8(files[name].payloadHash) == Hash8(payloadHash) && files[name].payloadHash != payloadHash
    {
      var path := DecisionPath(nodeId, payloadHash);
      if path.None? {
        return Raised(UnsafeRequest);
      }
      if !Taken(path.value) {
        return Ok(None);
      }
      if path.value in unreadable {
        return Raised(Unreadable);
      }
      var decision := files[path.value];
      OneDecisionPerRef(files, path.value, nodeId, payloadHash);
      if decision.payloadHash != payloadHash {
        return Raised(WrongPayload);
      }
      return Ok(Some(decision));
    }
  }

  /** A file at the path of a node and a hash is about that node and that short hash. */
  lemma OneDecisionPerRef(files: map<string, Decision>, name: string, nodeId: string, payloadHash: string)
    requires NamedRight(files) && name in files && DecisionPath(nodeId, payloadHash) == Some(name)
    ensures files[name].nodeId == nodeId && Hash8(files[name].payloadHash) == Hash8(payloadHash)
  {
    FileNameParsesBack(nodeId, Hash8(payloadHash));
    FileNameParsesBack(files[name].nodeId, Hash8(files[name].payloadHash));
  }

  /** No two decisions answer the same node and short hash. */
  lemma AtMostOneDecision(files: map<string, Decision>, a: string, b: string)
    requires NamedRight(files) && a in files && b in files
    requires files[a].nodeId == files[b].nodeId && Hash8(files[a].payloadHash) == Hash8(files[b].payloadHash)
    ensures a == b
  {
  }

  // ---------------------------------------------------------------- payloads

  datatype Effect = NoEffect | External
  datatype ApproveOption = ApproveOption(id: string, effect: Effect)

  /** decideBy is the instant its text denotes; None where that text denotes no instant. */
  datatype Payload = Payload(text: string, nodeId: string, options: seq<ApproveOption>, default: string,
                             decideBy: Option<int>)

  /** The content hash, and parsing a payload file; None where it does not validate. */
  datatype Library = Library(contentHash: string -> string, parse: string -> Option<Payload>)

  /** The option a default names: the last one of that id, as a dict keeps it. */
  function OptionNamed(options: seq<ApproveOption>, id: string): Option<ApproveOption>
  {
    if options == [] then None
    else
      var last := options[|options| - 1];
      if last.id == id then Some(last) else OptionNamed(options[..|options| - 1], id)
  }

  predicate DefaultIsHarmless(payload: Payload)
  {
    var named := OptionNamed(payload.options, payload.default);
    named.Some? && named.value.effect == NoEffect
  }

  lemma {:induction false} OptionNamedIsLast(options: seq<ApproveOption>, id: string)
    ensures OptionNamed(options, id).None? <==> forall i :: 0 <= i < |options| ==> options[i].id != id
    ensures OptionNamed(options, id).Some? ==>
      exists i :: 0 <= i < |options| && options[i] == OptionNamed(options, id).value && options[i].id == id &&
        forall j :: i < j < |options| ==> options[j].id != id
  {
    if options != [] {
      var n := |options| - 1;
      OptionNamedIsLast(options[..n], id);
      if options[n].id == id {
        assert options[n] == OptionNamed(options, id).value;
      } else if OptionNamed(options[..n], id).Some? {
        var i :| 0 <= i < n && options[..n][i] == OptionNamed(options, id).value && options[..n][i].id == id &&
          forall j :: i < j < n ==> options[..n][j].id != id;
        assert options[i] == OptionNamed(options, id).value;
        forall j | i < j < |options| ensures options[j].id != id {
          assert j < n ==> options[..n][j].id != id;
        }
      } else {
        forall i | 0 <= i < |options| ensures options[i].id != id {
          assert i < n ==> options[..n][i].id != id;
        }
      }
    }
  }

  /** Whether validation finds nothing: a harmless default, and text a person may be shown. */
  predicate Valid(payload: Payload)
  {
    DefaultIsHarmless(payload) && OperatorText.TextReasons(payload.text) == []
  }

  function SuspendPayloadRel(nodeId: string, payloadHash: string): string
  {
    "nodes/" + nodeId + "/" + Hash8(payloadHash) + "/payload.json"
  }

  predicate EscapesRoot(rel: string)
  {
    ".." in Split(rel, '/')
  }

  function DefaultDecision(nodeId: string, payloadHash: string, payload: Payload): Decision
  {
    Decision(nodeId, payload.default, DEADLINE_REASON, SYSTEM_IDENTITY, TIMER_TOKEN_ID, payloadHash)
  }

  // ---------------------------------------------------------------- one deadline pass

  datatype RunState = RunState(suspended: bool, cursor: Option<string>, cursorHash: Option<string>)

  datatype PassOutcome = Applied(nodeId: string, choice: string) | NotApplied(awaitingDecision: bool) | PassRaised

  /** What has to hold for a pass to write: text is the payload file as read, at the time the clock gave. */
  predicate Due(library: Library, nodeId: string, payloadHash: string, text: string, now: int)
  {
    && library.contentHash(text) == payloadHash
    && library.parse(text).Some?
    && library.parse(text).value.decideBy.Some?
    && library.parse(text).value.decideBy.value <= now
    && Valid(library.parse(text).value)
  }

  /** The payload file that a state names, if it can be read. */
  function Offer(state: Option<RunState>, payloads: map<string, string>): Option<string>
  {
    if state.None? || !state.value.suspended || state.value.cursor.None? || state.value.cursorHash.None? then None
    else
      var rel := SuspendPayloadRel(state.value.cursor.value, state.value.cursorHash.value);
      if EscapesRoot(rel) || rel !in payloads then None else Some(payloads[rel])
  }

  /** A pass over this state finds a payload that is due and whose decision is not taken. */
  predicate Applies(library: Library, state: Option<RunState>, payloads: map<string, string>, now: int,
                    taken: set<string>)
  {
    Offer(state, payloads).Some? &&
    var nodeId, hash := state.value.cursor.value, state.value.cursorHash.value;
    && Due(library, nodeId, hash, Offer(state, payloads).value, now)
    && DecisionPath(nodeId, hash).Some? && DecisionPath(nodeId, hash).value !in taken
  }

  /** The decision files after a pass: the default recorded where it applies. */
  function AfterPass(library: Library, state: Option<RunState>, payloads: map<string, string>, now: int,
                     files: map<string, Decision>, unreadable: set<string>): map<string, Decision>
  {
    if Applies(library, state, payloads, now, files.Keys + unreadable) then
      var nodeId, hash := state.value.cursor.value, state.value.cursorHash.value;
      var payload := library.parse(Offer(state, payloads).value).value;
      files[DecisionPath(nodeId, hash).value := DefaultDecision(nodeId, hash, payload)]
    else files
  }

  // ---------------------------------------------------------------- a due default, read off the files

  /** The eight characters, all of them hexadecimal, after what is before the digest of a hash. */
  ghost predicate ShortOf(hash: string, short: string)
  {
    && |short| == 8 && (forall i :: 0 <= i < 8 ==> short[i] in "0123456789abcdef")
    && exists head, tail :: Digest(hash, head, short + tail)
  }

  /** The digest of a hash is what follows its last colon. */
  predicate Digest(hash: string, head: string, digest: string)
  {
    hash == head + digest && ':' !in digest && (head == "" || head[|head| - 1] == ':')
  }

  lemma {:induction false} DigestAfter(head: string, digest: string)
    requires ':' !in digest && (head == "" || head[|head| - 1] == ':')
    ensures AfterLast(head + digest, ':') == digest
    decreases |digest|
  {
    if digest == "" {
      assert head + digest == head;
    } else {
      var n := |digest| - 1;
      assert (head + digest)[..|head| + n] == head + digest[..n];
      assert digest[n] in digest && forall ch :: ch in digest[..n] ==> ch in digest;
      DigestAfter(head, digest[..n]);
    }
  }

  lemma {:induction false} BeforeDigest(hash: string) returns (head: string)
    ensures Digest(hash, head, AfterLast(hash, ':'))
  {
    var n := |hash| - 1;
    if hash == "" || hash[n] == ':' {
      head := hash;
      assert hash == head + "";
    } else {
      head := BeforeDigest(hash[..n]);
      var digest := AfterLast(hash[..n], ':');
      assert hash == hash[..n] + [hash[n]];
      ConcatAssociative(head, digest, [hash[n]]);
    }
  }

  lemma HexDigits(ch: char)
    ensures ch in "0123456789abcdef" <==> IsHex(ch)
  {
    if IsHex(ch) {
      var at := if ch <= '9' then ch as int - '0' as int else 10 + (ch as int - 'a' as int);
      assert "0123456789abcdef"[at] == ch;
    }
  }

  lemma HexShort(short: string)
    ensures IsHex8(short) <==> |short| == 8 && forall i :: 0 <= i < 8 ==> short[i] in "0123456789abcdef"
  {
    forall ch: char ensures ch in "0123456789abcdef" <==> IsHex(ch) {
      HexDigits(ch);
    }
  }

  lemma ShortOfIff(hash: string, short: string)
    ensures ShortOf(hash, short) <==> IsHex8(Hash8(hash)) && short == Hash8(hash)
  {
    HexShort(short);
    if ShortOf(hash, short) {
      var head, tail :| Digest(hash, head, short + tail);
      DigestAfter(head, short + tail);
      assert (short + tail)[..8] == short;
    }
    if IsHex8(Hash8(hash)) && short == Hash8(hash) {
      var head, tail := CutAfterColon(hash);
    }
  }

  lemma CutAfterColon(hash: string) returns (head: string, tail: string)
    requires |AfterLast(hash, ':')| >= 8
    ensures Digest(hash, head, Hash8(hash) + tail)
  {
    head := BeforeDigest(hash);
    var digest := AfterLast(hash, ':');
    tail := digest[8..];
    assert digest[..8] + tail == digest;
  }

  /**
    The run is suspended on this node and hash; its payload file hashes to that hash and
    parses to this payload, whose deadline has passed, whose default's last option does
    nothing outside, and whose text is shown and says something; and no decision is there.
   */
  ghost predicate PlainlyDue(library: Library, state: Option<RunState>, payloads: map<string, string>, now: int,
                             taken: set<string>, nodeId: string, hash: string, short: string, payload: Payload)
  {
    && state == Some(RunState(true, Some(nodeId), Some(hash)))
    && nodeId != "_run" && '/' !in nodeId && '\\' !in nodeId
    && (forall i :: 0 <= i < |nodeId| - 1 ==> !(nodeId[i] == '.' && nodeId[i + 1] == '.'))
    && ShortOf(hash, short)
    && HoldsPayload(library, payloads, "nodes/" + nodeId + "/" + short + "/payload.json", hash, payload)
    && payload.decideBy.Some? && payload.decideBy.value <= now
    && LastOfDefault(payload)
    && OperatorText.Shown(payload.text) && OperatorText.Says(payload.text)
    && nodeId + "." + short + ".json" !in taken
  }

  predicate HoldsPayload(library: Library, payloads: map<string, string>, file: string, hash: string, payload: Payload)
  {
    file in payloads && library.contentHash(payloads[file]) == hash && library.parse(payloads[file]) == Some(payload)
  }

  ghost predicate LastOfDefault(payload: Payload)
  {
    exists i ::
      && 0 <= i < |payload.options| && payload.options[i] == ApproveOption(payload.default, NoEffect)
      && forall j :: i < j < |payload.options| ==> payload.options[j].id != payload.default
  }

  lemma HarmlessIffLast(payload: Payload)
    ensures DefaultIsHarmless(payload) <==> LastOfDefault(payload)
  {
    OptionNamedIsLast(payload.options, payload.default);
    var named := OptionNamed(payload.options, payload.default);
    if named.Some? {
      var i :| 0 <= i < |payload.options| && payload.options[i] == named.value
        && payload.options[i].id == payload.default
        && forall j :: i < j < |payload.options| ==> payload.options[j].id != payload.default;
      if LastOfDefault(payload) {
        var k :| 0 <= k < |payload.options| && payload.options[k] == ApproveOption(payload.default, NoEffect) &&
          forall j :: k < j < |payload.options| ==> payload.options[j].id != payload.default;
        assert !(i < k) && !(k < i);
      }
      if DefaultIsHarmless(payload) {
        assert payload.options[i] == ApproveOption(payload.default, NoEffect);
      }
    }
  }

  /** What passes validation, in the same terms. */
  lemma ValidIffShown(payload: Payload)
    ensures Valid(payload) <==>
      LastOfDefault(payload) && OperatorText.Shown(payload.text) && OperatorText.Says(payload.text)
  {
    HarmlessIffLast(payload);
    OperatorText.AcceptedIffShown(payload.text);
  }

  lemma FourParts(a: string, b: string, c: string, d: string)
    requires Free(a, '/') && Free(b, '/') && Free(c, '/') && Free(d, '/')
    ensures Split(a + "/" + b + "/" + c + "/" + d, '/') == [a, b, c, d]
  {
    var ab := a + "/" + b;
    var abc := ab + "/" + c;
    SplitAcross(a, b, '/');
    SplitAcross(ab, c, '/');
    SplitAcross(abc, d, '/');
    WholeIsOnePiece(a);
    WholeIsOnePiece(b);
    WholeIsOnePiece(c);
    WholeIsOnePiece(d);
  }

  lemma WholeIsOnePiece(s: string)
    requires Free(s, '/')
    ensures Split(s, '/') == [s]
  {
    SplitPeels(s, "", '/');
  }

  /** A node id and hash that a decision can be filed under name a payload file inside the run. */
  lemma PayloadStaysInside(nodeId: string, hash: string)
    requires DecisionPath(nodeId, hash).Some?
    ensures !EscapesRoot(SuspendPayloadRel(nodeId, hash))
  {
    var short := Hash8(hash);
    FourParts("nodes", nodeId, short, "payload.json");
    assert SuspendPayloadRel(nodeId, hash) == "nodes" + "/" + nodeId + "/" + short + "/" + "payload.json";
    assert nodeId != ".." by {
      assert |nodeId| == 2 ==> !(nodeId[0] == '.' && nodeId[1] == '.');
    }
    assert |short| == 8 && |"payload.json"| == 12 && |"nodes"| == 5;
  }

  lemma PlainlyDueApplies(library: Library, state: Option<RunState>, payloads: map<string, string>, now: int,
        taken: set<string>, nodeId: string, hash: string, short: string, payload: Payload)
    requires PlainlyDue(library, state, payloads, now, taken, nodeId, hash, short, payload)
    ensures Applies(library, state, payloads, now, taken)
    ensures Offer(state, payloads).Some? && library.parse(Offer(state, payloads).value) == Some(payload)
    ensures DecisionPath(nodeId, hash) == Some(nodeId + "." + short + ".json")
  {
    ShortOfIff(hash, short);
    ValidIffShown(payload);
    PayloadStaysInside(nodeId, hash);
  }

  lemma AppliesPlainly(library: Library, state: Option<RunState>, payloads: map<string, string>, now: int,
        taken: set<string>)
    requires Applies(library, state, payloads, now, taken)
    ensures var nodeId, hash := state.value.cursor.value, state.value.cursorHash.value;
      PlainlyDue(library, state, payloads, now, taken, nodeId, hash, Hash8(hash),
                 library.parse(Offer(state, payloads).value).value)
  {
    var nodeId, hash := state.value.cursor.value, state.value.cursorHash.value;
    ShortOfIff(hash, Hash8(hash));
    ValidIffShown(library.parse(Offer(state, payloads).value).value);
  }

  class RunView {
    const store: DecisionStore
    const lock: L.FileRunLock
    var state: Option<RunState>
    var payloads: map<string, string>

    constructor (store: DecisionStore, lock: L.FileRunLock, state: Option<RunState>, payloads: map<string, string>)
      ensures this.store == store && this.lock == lock && this.state == state && this.payloads == payloads
    {
      this.store, this.lock, this.state, this.payloads := store, lock, state, payloads;
    }

    predicate AppliesNow(library: Library, now: int)
      reads this, store
    {
      Applies(library, state, payloads, now, store.files.Keys + store.unreadable)
    }

    function FilesAfter(library: Library, now: int): map<string, Decision>
      reads this, store
    {
      AfterPass(library, state, payloads, now, store.files, store.unreadable)
    }

    ghost predicate DueFor(library: Library, now: int, nodeId: string, hash: string, short: string, payload: Payload)
      reads this, store
    {
      PlainlyDue(library, state, payloads, now, store.files.Keys + store.unreadable, nodeId, hash, short, payload)
    }

    lemma DueIsApplied(library: Library, now: int)
      ensures forall nodeId, hash, short, payload :: DueFor(library, now, nodeId, hash, short, payload) ==>
        && AppliesNow(library, now) && state.value.cursor.value == nodeId
        && library.parse(Offer(state, payloads).value).value == payload
        && FilesAfter(library, now) == store.files[nodeId + "." + short + ".json" :=
             Decision(nodeId, payload.default, "deadline", "system", "agentdag-approve-timer", hash)]
      ensures AppliesNow(library, now) ==>
        exists nodeId, hash, short, payload :: DueFor(library, now, nodeId, hash, short, payload)
    {
      var taken := store.files.Keys + store.unreadable;
      forall nodeId, hash, short, payload | DueFor(library, now, nodeId, hash, short, payload)
        ensures AppliesNow(library, now) && state.value.cursor.value == nodeId
        ensures library.parse(Offer(state, payloads).value).value == payload
        ensures FilesAfter(library, now) == store.files[nodeId + "." + short + ".json" :=
                  Decision(nodeId, payload.default, "deadline", "system", "agentdag-approve-timer", hash)]
      {
        PlainlyDueApplies(library, state, payloads, now, taken, nodeId, hash, short, payload);
      }
      if AppliesNow(library, now) {
        AppliesPlainly(library, state, payloads, now, taken);
        var nodeId, hash := state.value.cursor.value, state.value.cursorHash.value;
        assert DueFor(library, now, nodeId, hash, Hash8(hash), library.parse(Offer(state, payloads).value).value);
      }
    }

    /** Apply the default if it is due; the lock is held for the whole check and let go before returning. */
    method ApplyDueDefault(library: Library, now: int, m: L.Machine, holder: L.Holder) returns (outcome: PassOutcome)
      modifies store, lock
      ensures state == old(state) && payloads == old(payloads)
      ensures lock.file == if L.Blocks(old(lock.file), m, {}) then old(lock.file) else L.Missing
      ensures outcome.Applied? <==> !L.Blocks(old(lock.file), m, {}) && old(AppliesNow(library, now))
      ensures outcome.Applied? ==>
        var payload := library.parse(Offer(state, payloads).value).value;
        outcome == PassOutcome.Applied(state.value.cursor.value, payload.default)
      ensures store.files == if L.Blocks(old(lock.file), m, {}) then old(store.files) else old(FilesAfter(library, now))
      ensures outcome == NotApplied(false) <==>
        !L.Blocks(old(lock.file), m, {}) && state.Some? && !state.value.suspended
      ensures forall nodeId, hash, short, payload :: old(DueFor(library, now, nodeId, hash, short, payload)) ==>
        !L.Blocks(old(lock.file), m, {}) ==>
          && outcome == PassOutcome.Applied(nodeId, payload.default)
          && store.files == old(store.files)[nodeId + "." + short + ".json" :=
               Decision(nodeId, payload.default, "deadline", "system", "agentdag-approve-timer", hash)]
      ensures outcome.Applied? ==>
        exists nodeId, hash, short, payload :: old(DueFor(library, now, nodeId, hash, short, payload))
    {
      DueIsApplied(library, now);
      var acquired := lock.Acquire(m, {}, holder);
      if !acquired {
        return NotApplied(true);
      }
      outcome := ApplyUnderLock(library, now);
      lock.Release(holder);
    }

    method ApplyUnderLock(library: Library, now: int) returns (outcome: PassOutcome)
      modifies store
      ensures outcome.Applied? <==> old(AppliesNow(library, now))
      ensures outcome.Applied? ==>
        var payload := library.parse(Offer(state, payloads).value).value;
        outcome == PassOutcome.Applied(state.value.cursor.value, payload.default)
      ensures store.files == old(FilesAfter(library, now))
      ensures outcome == NotApplied(false) <==> state.Some? && !state.value.suspended
      ensures forall nodeId, hash, short, payload :: old(DueFor(library, now, nodeId, hash, short, payload)) ==>
        && outcome == PassOutcome.Applied(nodeId, payload.default)
        && store.files == old(store.files)[nodeId + "." + short + ".json" :=
             Decision(nodeId, payload.default, "deadline", "system", "agentdag-approve-timer", hash)]
      ensures outcome.Applied? ==>
        exists nodeId, hash, short, payload :: old(DueFor(library, now, nodeId, hash, short, payload))
    {
      DueIsApplied(library, now);
      if state.None? {
        return NotApplied(true);
      }
      if !state.value.suspended {
        return NotApplied(false);
      }
      if state.value.cursor.None? || state.value.cursorHash.None? {
        return NotApplied(true);
      }
      var nodeId, hash := state.value.cursor.value, state.value.cursorHash.value;
      var rel := SuspendPayloadRel(nodeId, hash);
      if EscapesRoot(rel) || rel !in payloads {
        return NotApplied(true);
      }
      var text := payloads[rel];
      if library.contentHash(text) != hash || library.parse(text).None? {
        return NotApplied(true);
      }
      var payload := library.parse(text).value;
      if payload.decideBy.None? {
        return PassRaised;
      }
      if now < payload.decideBy.value || !Valid(payload) {
        return NotApplied(true);
      }
      var written := store.WriteDecision(DefaultDecision(nodeId, hash, payload));
      match written
      case Ok(_) => outcome := PassOutcome.Applied(nodeId, payload.default);
      case Raised(FileExists) => outcome := NotApplied(true);
      case Raised(UnsafeName) => outcome := PassRaised;
    }
  }

  // ---------------------------------------------------------------- people and passes, interleaved

  /** The run is suspended and names what it waits on. */
  predicate WaitsOnDecision(state: RunState)
  {
    state.suspended && state.cursor.Some? && state.cursorHash.Some?
  }

  type Suspension = state: RunState | WaitsOnDecision(state) witness RunState(true, Some(""), Some(""))

  /** Where a deadline pass stands between two file accesses. */
  datatype Pass =
    | Holding
    | Waiting(seen: Suspension)
    | Offered(seen: Suspension, text: string)
    | Writing(seen: Suspension, text: string, at: int)

  /** What a pass saw when it wrote a decision: the state, the payload's text, the time. */
  datatype Evidence = Evidence(seen: Suspension, text: string, at: int)

  datatype World = World(state: Option<RunState>, payloads: map<string, string>, files: map<string, Decision>,
                         now: int, passes: map<int, Pass>, byPass: map<string, Evidence>)

  datatype Action =
    | SetState(state: Option<RunState>)
    | SetPayloads(payloads: map<string, string>)
    | Tick(elapsed: nat)
    | PersonWrites(decision: Decision)
    | PassBegins(pid: int)
    | PassSteps(pid: int)
    | PassDies(pid: int)

  function Recorded(w: World, decision: Decision): World
  {
    var path := DecisionPath(decision.nodeId, decision.payloadHash);
    if path.None? || path.value in w.files then w else w.(files := w.files[path.value := decision])
  }

  /** One file access or clock read of a pass; a pass with nothing left to do is gone. */
  function PassStep(library: Library, w: World, pid: int): World
    requires pid in w.passes
  {
    var gone := w.(passes := w.passes - {pid});
    match w.passes[pid]
    case Holding =>
      if w.state.None? || !WaitsOnDecision(w.state.value) then gone
      else w.(passes := w.passes[pid := Waiting(w.state.value)])
    case Waiting(seen) =>
      var rel := SuspendPayloadRel(seen.cursor.value, seen.cursorHash.value);
      if EscapesRoot(rel) || rel !in w.payloads then gone
      else if library.contentHash(w.payloads[rel]) != seen.cursorHash.value then gone
      else w.(passes := w.passes[pid := Offered(seen, w.payloads[rel])])
    case Offered(seen, text) =>
      if !Justified(library, seen, text, w.now) then gone
      else w.(passes := w.passes[pid := Writing(seen, text, w.now)])
    case Writing(seen, text, at) =>
      var path := DecisionPath(seen.cursor.value, seen.cursorHash.value);
      if library.parse(text).None? || path.None? || path.value in w.files then gone
      else
        gone.(files := w.files[path.value := DefaultFor(library, seen, text)],
              byPass := w.byPass[path.value := Evidence(seen, text, at)])
  }

  /** A pass that saw this state and text, at this time, may write the default. */
  predicate Justified(library: Library, seen: Suspension, text: string, at: int)
  {
    Due(library, seen.cursor.value, seen.cursorHash.value, text, at)
  }

  function DefaultFor(library: Library, seen: Suspension, text: string): Decision
    requires library.parse(text).Some?
  {
    DefaultDecision(seen.cursor.value, seen.cursorHash.value, library.parse(text).value)
  }

  function Apply(library: Library, w: World, action: Action): World
  {
    match action
    case SetState(state) => w.(state := state)
    case SetPayloads(payloads) => w.(payloads := payloads)
    case Tick(elapsed) => w.(now := w.now + elapsed)
    case PersonWrites(decision) => Recorded(w, decision)
    case PassBegins(pid) => w.(passes := w.passes[pid := Holding])
    case PassSteps(pid) => if pid in w.passes then PassStep(library, w, pid) else w
    case PassDies(pid) => w.(passes := w.passes - {pid})
  }

  function Run(library: Library, w: World, actions: seq<Action>): World
  {
    if actions == [] then w else Apply(library, Run(library, w, actions[..|actions| - 1]), actions[|actions| - 1])
  }

  /** What one pass leaves when nothing else happens meanwhile. */
  function PassedOver(library: Library, w: World, pid: int): World
  {
    var gone := w.(passes := w.passes - {pid});
    if !Applies(library, w.state, w.payloads, w.now, w.files.Keys) then gone
    else
      var nodeId, hash := w.state.value.cursor.value, w.state.value.cursorHash.value;
      gone.(files := AfterPass(library, w.state, w.payloads, w.now, w.files, {}),
            byPass := w.byPass[DecisionPath(nodeId, hash).value :=
                                 Evidence(w.state.value, Offer(w.state, w.payloads).value, w.now)])
  }

  function Step(library: Library, w: World, pid: int): World
  {
    Apply(library, w, PassSteps(pid))
  }

  lemma RunOneMore(library: Library, w: World, actions: seq<Action>, action: Action)
    ensures Run(library, w, actions + [action]) == Apply(library, Run(library, w, actions), action)
  {
    assert (actions + [action])[..|actions|] == actions;
  }

  /** A pass whose state offers nothing goes away without writing. */
  lemma NothingOffered(library: Library, w: World, pid: int)
    requires pid in w.passes && w.passes[pid] == Holding
    requires w.state.None? || !WaitsOnDecision(w.state.value)
    ensures Step(library, w, pid) == PassedOver(library, w, pid)
  {
  }

  /** One whose state waits looks for the payload next, and goes on only with one that is due. */
  lemma LooksAndJudges(library: Library, w: World, pid: int)
    requires pid in w.passes && w.passes[pid] == Holding
    requires w.state.Some? && WaitsOnDecision(w.state.value)
    ensures var judged := Step(library, Step(library, Step(library, w, pid), pid), pid);
      if Offer(w.state, w.payloads).Some? && Justified(library, w.state.value, Offer(w.state, w.payloads).value, w.now)
      then judged == w.(passes := w.passes[pid := Writing(w.state.value, Offer(w.state, w.payloads).value, w.now)])
      else judged == PassedOver(library, w, pid)
  {
    var seen: Suspension := w.state.value;
    var waiting := Step(library, w, pid);
    assert waiting == w.(passes := w.passes[pid := Waiting(seen)]);
    assert waiting.passes - {pid} == w.passes - {pid};
    var offered := Step(library, waiting, pid);
    if pid in offered.passes {
      var text := Offer(w.state, w.payloads).value;
      assert offered.passes == w.passes[pid := Offered(seen, text)];
      assert offered.passes - {pid} == w.passes - {pid};
      assert Step(library, offered, pid).passes ==
        if Justified(library, seen, text, w.now) then w.passes[pid := Writing(seen, text, w.now)]
        else w.passes - {pid};
    }
  }

  lemma WritesWhatIsDue(library: Library, w: World, pid: int, text: string)
    requires w.state.Some? && WaitsOnDecision(w.state.value) && Offer(w.state, w.payloads) == Some(text)
    requires Justified(library, w.state.value, text, w.now)
    ensures Step(library, w.(passes := w.passes[pid := Writing(w.state.value, text, w.now)]), pid) ==
      PassedOver(library, w, pid)
  {
    assert w.passes[pid := Writing(w.state.value, text, w.now)] - {pid} == w.passes - {pid};
    assert w.files.Keys + {} == w.files.Keys;
  }

  /** A pass that is gone stays so. */
  lemma GoneStaysGone(library: Library, w: World, pid: int)
    requires pid !in w.passes
    ensures Step(library, w, pid) == w
  {
  }

  /** Undisturbed, the steps of a pass leave exactly what the call ApplyUnderLock promises. */
  lemma UninterruptedPassIsTheCall(library: Library, w: World, pid: int)
    ensures
      var steps := [PassBegins(pid), PassSteps(pid), PassSteps(pid), PassSteps(pid), PassSteps(pid)];
      Run(library, w, steps) == PassedOver(library, w, pid)
    ensures PassedOver(library, w, pid).files == AfterPass(library, w.state, w.payloads, w.now, w.files, {})
  {
    assert w.files.Keys + {} == w.files.Keys;
    var begun := Apply(library, w, PassBegins(pid));
    assert begun.passes - {pid} == w.passes - {pid};
    assert PassedOver(library, begun, pid) == PassedOver(library, w, pid);
    if w.state.None? || !WaitsOnDecision(w.state.value) {
      NothingOffered(library, begun, pid);
    } else {
      LooksAndJudges(library, begun, pid);
      var offer := Offer(w.state, w.payloads);
      if offer.Some? && Justified(library, w.state.value, offer.value, w.now) {
        WritesWhatIsDue(library, begun, pid, offer.value);
      }
    }
    FiveSteps(library, w, pid);
  }

  lemma FiveSteps(library: Library, w: World, pid: int)
    ensures
      var steps := [PassBegins(pid), PassSteps(pid), PassSteps(pid), PassSteps(pid), PassSteps(pid)];
      var begun := Apply(library, w, PassBegins(pid));
      Run(library, w, steps) == Step(library, Step(library, Step(library, Step(library, begun, pid), pid), pid), pid)
  {
    var begin, step := [PassBegins(pid)], PassSteps(pid);
    RunOneMore(library, w, [], PassBegins(pid));
    assert [] + [PassBegins(pid)] == begin;
    StepsOn(library, w, begin, pid);
    StepsOn(library, w, begin + [step], pid);
    StepsOn(library, w, begin + [step] + [step], pid);
    StepsOn(library, w, begin + [step] + [step] + [step], pid);
    assert begin + [step] + [step] + [step] + [step] == [PassBegins(pid), step, step, step, step];
  }

  lemma StepsOn(library: Library, w: World, actions: seq<Action>, pid: int)
    ensures Run(library, w, actions + [PassSteps(pid)]) == Step(library, Run(library, w, actions), pid)
  {
    RunOneMore(library, w, actions, PassSteps(pid));
  }

  /** Everything a pass wrote is the default of a payload that was due, unchanged since. */
  ghost predicate Kept(library: Library, w: World)
  {
    NamedRight(w.files) && EvidenceKept(library, w) && PassesKept(library, w)
  }

  ghost predicate EvidenceKept(library: Library, w: World)
  {
    forall name :: name in w.byPass ==> name in w.files && Warranted(library, w.byPass[name], w.files[name], w.now)
  }

  ghost predicate PassesKept(library: Library, w: World)
  {
    forall pid :: pid in w.passes && w.passes[pid].Writing? ==>
      Justified(library, w.passes[pid].seen, w.passes[pid].text, w.passes[pid].at) && w.passes[pid].at <= w.now
  }

  predicate Warranted(library: Library, evidence: Evidence, decision: Decision, now: int)
  {
    && Justified(library, evidence.seen, evidence.text, evidence.at) && evidence.at <= now
    && decision == DefaultFor(library, evidence.seen, evidence.text)
  }

  /** A recorded decision is final: no action replaces or removes it. */
  lemma DecisionsAreFinal(library: Library, w: World, action: Action, name: string)
    requires name in w.files
    ensures name in Apply(library, w, action).files && Apply(library, w, action).files[name] == w.files[name]
  {
  }

  lemma RecordingKeepsNames(files: map<string, Decision>, decision: Decision)
    requires NamedRight(files) && DecisionPath(decision.nodeId, decision.payloadHash).Some?
    ensures NamedRight(files[DecisionPath(decision.nodeId, decision.payloadHash).value := decision])
  {
  }

  lemma WritingKeeps(library: Library, w: World, pid: int)
    requires Kept(library, w) && pid in w.passes && w.passes[pid].Writing?
    ensures Kept(library, PassStep(library, w, pid))
  {
    var seen, after := w.passes[pid].seen, PassStep(library, w, pid);
    var decision := DefaultFor(library, seen, w.passes[pid].text);
    var path := DecisionPath(seen.cursor.value, seen.cursorHash.value);
    if path.Some? && path.value !in w.files {
      RecordingKeepsNames(w.files, decision);
      EvidenceOneMore(library, w, path.value, Evidence(seen, w.passes[pid].text, w.passes[pid].at), decision);
    }
  }

  lemma EvidenceOneMore(library: Library, w: World, name: string, evidence: Evidence, decision: Decision)
    requires EvidenceKept(library, w) && name !in w.files && Warranted(library, evidence, decision, w.now)
    ensures EvidenceKept(library, w.(files := w.files[name := decision], byPass := w.byPass[name := evidence]))
  {
  }

  lemma QuietPassStepKeeps(library: Library, w: World, pid: int)
    requires Kept(library, w) && pid in w.passes && !w.passes[pid].Writing?
    ensures Kept(library, PassStep(library, w, pid))
  {
    QuietStepIsQuiet(library, w, pid);
    var after := PassStep(library, w, pid);
    assert EvidenceKept(library, after);
    forall p | p in after.passes && after.passes[p].Writing?
      ensures Justified(library, after.passes[p].seen, after.passes[p].text, after.passes[p].at) &&
        after.passes[p].at <= after.now
    {
      assert p != pid ==> p in w.passes && after.passes[p] == w.passes[p];
    }
  }

  lemma QuietStepIsQuiet(library: Library, w: World, pid: int)
    requires pid in w.passes && !w.passes[pid].Writing?
    ensures var after := PassStep(library, w, pid);
      && after.files == w.files && after.byPass == w.byPass && after.now == w.now
      && (forall p :: p in after.passes && p != pid ==> p in w.passes && after.passes[p] == w.passes[p])
      && (pid in after.passes && after.passes[pid].Writing? ==>
            Justified(library, after.passes[pid].seen, after.passes[pid].text, after.passes[pid].at) &&
            after.passes[pid].at == w.now)
  {
  }

  lemma PersonKeeps(library: Library, w: World, decision: Decision)
    requires Kept(library, w)
    ensures Kept(library, Recorded(w, decision))
  {
    var path := DecisionPath(decision.nodeId, decision.payloadHash);
    if path.Some? && path.value !in w.files {
      RecordingKeepsNames(w.files, decision);
    }
  }

  lemma WorldKeeps(library: Library, w: World, action: Action)
    requires Kept(library, w) && !action.PassSteps? && !action.PersonWrites?
    ensures Kept(library, Apply(library, w, action))
  {
    var after := Apply(library, w, action);
    assert after.files == w.files && after.byPass == w.byPass && after.now >= w.now;
    forall p | p in after.passes && after.passes[p].Writing? ensures p in w.passes && after.passes[p] == w.passes[p] {
    }
  }

  lemma StepKeeps(library: Library, w: World, action: Action)
    requires Kept(library, w)
    ensures Kept(library, Apply(library, w, action))
  {
    if action.PersonWrites? {
      PersonKeeps(library, w, action.decision);
    } else if !action.PassSteps? {
      WorldKeeps(library, w, action);
    } else if action.pid in w.passes {
      if w.passes[action.pid].Writing? {
        WritingKeeps(library, w, action.pid);
      } else {
        QuietPassStepKeeps(library, w, action.pid);
      }
    }
  }

  lemma {:induction false} EveryRunKeeps(library: Library, w: World, actions: seq<Action>)
    requires Kept(library, w)
    ensures Kept(library, Run(library, w, actions))
    ensures forall name :: name in w.files ==>
      name in Run(library, w, actions).files && Run(library, w, actions).files[name] == w.files[name]
  {
    if actions != [] {
      var before := Run(library, w, actions[..|actions| - 1]);
      EveryRunKeeps(library, w, actions[..|actions| - 1]);
      StepKeeps(library, before, actions[|actions| - 1]);
      forall name | name in w.files ensures name in Run(library, w, actions).files &&
        Run(library, w, actions).files[name] == w.files[name]
      {
        DecisionsAreFinal(library, before, actions[|actions| - 1], name);
      }
    }
  }

  /** state.json once held this state. */
  ghost predicate WasState(library: Library, w: World, actions: seq<Action>, state: RunState)
  {
    exists k :: 0 <= k <= |actions| && Run(library, w, actions[..k]).state == Some(state)
  }

  lemma WasStateBefore(library: Library, w: World, actions: seq<Action>, state: RunState)
    requires actions != [] && WasState(library, w, actions[..|actions| - 1], state)
    ensures WasState(library, w, actions, state)
  {
    var front := actions[..|actions| - 1];
    var k :| 0 <= k <= |front| && Run(library, w, front[..k]).state == Some(state);
    assert front[..k] == actions[..k];
  }

  /** What passes go by, and went by, are states that state.json held. */
  ghost predicate ReadsStates(library: Library, w: World, actions: seq<Action>, now: World)
  {
    && (forall pid :: pid in now.passes && !now.passes[pid].Holding? ==>
          WasState(library, w, actions, now.passes[pid].seen))
    && (forall name :: name in now.byPass ==> WasState(library, w, actions, now.byPass[name].seen))
  }

  lemma {:induction false} PassesReadStates(library: Library, w: World, actions: seq<Action>)
    requires w.passes == map[] && w.byPass == map[]
    ensures ReadsStates(library, w, actions, Run(library, w, actions))
  {
    if actions != [] {
      PassesReadStates(library, w, actions[..|actions| - 1]);
      OneActionMoreReadsStates(library, w, actions, Run(library, w, actions[..|actions| - 1]));
    }
  }

  lemma OneActionMoreReadsStates(library: Library, w: World, actions: seq<Action>, before: World)
    requires actions != [] && before == Run(library, w, actions[..|actions| - 1])
    requires ReadsStates(library, w, actions[..|actions| - 1], before)
    ensures ReadsStates(library, w, actions, Apply(library, before, actions[|actions| - 1]))
  {
    var front, now := actions[..|actions| - 1], Apply(library, before, actions[|actions| - 1]);
    StepReadsStates(library, before, actions[|actions| - 1]);
    if before.state.Some? {
      assert front[..|front|] == front;
      assert WasState(library, w, front, before.state.value);
    }
    forall pid | pid in now.passes && !now.passes[pid].Holding?
      ensures WasState(library, w, actions, now.passes[pid].seen)
    {
      WasStateBefore(library, w, actions, now.passes[pid].seen);
    }
    forall name | name in now.byPass ensures WasState(library, w, actions, now.byPass[name].seen) {
      WasStateBefore(library, w, actions, now.byPass[name].seen);
    }
  }

  /** One action adds no evidence but a pass's, and no pass's but the state as it stands. */
  lemma StepReadsStates(library: Library, w: World, action: Action)
    ensures var after := Apply(library, w, action);
      && (forall pid :: pid in after.passes && !after.passes[pid].Holding? ==>
            Some(after.passes[pid].seen) == w.state ||
            (pid in w.passes && !w.passes[pid].Holding? && after.passes[pid].seen == w.passes[pid].seen))
      && (forall name :: name in after.byPass ==>
            (name in w.byPass && after.byPass[name].seen == w.byPass[name].seen) ||
            exists pid :: pid in w.passes && !w.passes[pid].Holding? && after.byPass[name].seen == w.passes[pid].seen)
  {
  }

  /**
    Over every interleaving of people, passes that may die anywhere, and a state and
    payloads anyone rewrites: a decision a pass wrote answers what the run was suspended on
    when the pass read its state; it is the default of a payload whose text hashes to the
    hash it answers, whose deadline had passed when the clock was read, and whose last
    option of that id does nothing outside the process.
   */
  lemma PassesWriteOnlyDueDefaults(library: Library, w: World, actions: seq<Action>, name: string)
    requires w.files == map[] && w.passes == map[] && w.byPass == map[]
    requires name in Run(library, w, actions).byPass
    ensures var now := Run(library, w, actions);
      && name in now.files
      && var decision, evidence := now.files[name], now.byPass[name];
         && WasState(library, w, actions, evidence.seen) && evidence.seen.suspended
         && evidence.seen.cursor == Some(decision.nodeId) && evidence.seen.cursorHash == Some(decision.payloadHash)
         && decision.author == "system" && decision.reason == "deadline"
         && library.contentHash(evidence.text) == decision.payloadHash
         && RefOf(name) == FileRef(decision.nodeId, Hash8(decision.payloadHash))
         && library.parse(evidence.text).Some?
         && var payload := library.parse(evidence.text).value;
            && payload.decideBy.Some? && payload.decideBy.value <= evidence.at <= now.now
            && decision.choice == payload.default && LastOfDefault(payload)
            && OperatorText.Shown(payload.text) && OperatorText.Says(payload.text)
  {
    EveryRunKeeps(library, w, actions);
    PassesReadStates(library, w, actions);
    var now := Run(library, w, actions);
    var decision, payload := now.files[name], library.parse(now.byPass[name].text).value;
    assert Warranted(library, now.byPass[name], decision, now.now);
    FileNameParsesBack(decision.nodeId, Hash8(decision.payloadHash));
    ValidIffShown(payload);
  }
}
