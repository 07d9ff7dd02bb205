/**
  One dispatch of the Claude executor: request-keyed spend, the arm-then-grace
  handover, the deadline latch and the exit ladder, over a stream of messages.

  The SDK is the next message. What the loop reads from outside while it folds a
  turn in (the clock, the subtree's stop predicate) arrives as fields of that turn.
 */
module Dispatch {
  import opened Wrappers
  import opened Strings
  import opened Sums

  const HANDOVER_GRACE_TURNS := 3

  type Usage = map<string, int>

  /** One AssistantMessage, with the clock and the subtree's answer as it is folded in. */
  datatype Turn = Turn(messageId: Option<string>, usage: Option<Usage>, now: real, stopping: bool)

  /** The terminal ResultMessage; authShaped says whether its text carries a credential refusal marker. */
  datatype Terminal = Terminal(numTurns: int, isError: bool, subtype: string, authShaped: bool,
                               usage: Option<Usage>, cost: Option<real>)

  datatype Message = Assistant(turn: Turn) | Finished(terminal: Terminal) | Other

  datatype Request = Request(model: string, cwdRel: string, effort: Option<string>, inSubtree: bool,
                             handoverAt: Option<int>, tokenCap: Option<int>, deadlineS: Option<real>)

  datatype Status = Done | Failed | NeedsContinuation | Cancelled
  datatype ErrorType = Deadline | AuthFailure | ExecutorError
  datatype NodeError = NodeError(kind: ErrorType, transient: bool)
  datatype Tokens = Tokens(input: int, output: int, cacheRead: int, cacheWrite: int)

  datatype KeyFacts =
    | NoFacts
    | DeadlineFacts(firstTurnInput: int)
    | HandoverFacts(contextAt: int, handoverAt: Option<int>, firstTurnInput: int, graceUsed: nat,
                    graceExpired: bool, stoppedBySubtree: bool, capHit: bool)
    | TurnFacts(turns: int, firstTurnInput: int, turnsExhausted: bool)

  datatype Outcome = Outcome(status: Status, artefactRefs: seq<string>, facts: KeyFacts, tokens: Option<Tokens>,
                             charged: map<string, int>, cost: Option<real>, effortUsed: string,
                             error: Option<NodeError>)

  // ---------------------------------------------------------------- usage arithmetic

  function Field(usage: Usage, name: string): int
  {
    if name in usage then usage[name] else 0
  }

  function OrEmpty(usage: Option<Usage>): Usage
  {
    if usage.Some? then usage.value else map[]
  }

  function InputTotal(usage: Usage): int
  {
    Field(usage, "input_tokens") + Field(usage, "cache_creation_input_tokens") + Field(usage, "cache_read_input_tokens")
  }

  function ChargedTotal(usage: Usage): int
  {
    Field(usage, "input_tokens") + Field(usage, "cache_creation_input_tokens") + Field(usage, "output_tokens")
  }

  /** A charge differs from what the model saw by its output, and by leaving out what the cache served. */
  lemma ChargeLeavesOutCacheReads(usage: Usage)
    ensures ChargedTotal(usage) + Field(usage, "cache_read_input_tokens") ==
            InputTotal(usage) + Field(usage, "output_tokens")
  {
  }

  function TokensOf(usage: Usage): Tokens
  {
    Tokens(InputTotal(usage), Field(usage, "output_tokens"),
           Field(usage, "cache_read_input_tokens"), Field(usage, "cache_creation_input_tokens"))
  }

  predicate Past(amount: int, bound: Option<int>)
  {
    bound.Some? && amount > bound.value
  }

  function Context(t: Turn): int
  {
    InputTotal(OrEmpty(t.usage))
  }

  function Charge(t: Turn): int
  {
    ChargedTotal(OrEmpty(t.usage))
  }

  // ---------------------------------------------------------------- which request a turn belongs to

  /** The request an event can be attributed to: its non-empty message id, if it carries one. */
  function RequestOf(t: Turn): Option<string>
  {
    if t.messageId.Some? && t.messageId.value != "" then t.messageId else None
  }

  function UnkeyedKey(n: nat): string
  {
    "unkeyed-" + Decimal(n)
  }

  /** No real request is spelled like the keys made up for events that carry none. */
  ghost predicate NoReservedIds(turns: seq<Turn>)
  {
    forall i, n: nat :: 0 <= i < |turns| ==> RequestOf(turns[i]) != Some(UnkeyedKey(n))
  }

  lemma UnkeyedKeyInjective(a: nat, b: nat)
    ensures UnkeyedKey(a) == UnkeyedKey(b) <==> a == b
  {
    if UnkeyedKey(a) == UnkeyedKey(b) {
      assert UnkeyedKey(a)[8..] == Decimal(a) && UnkeyedKey(b)[8..] == Decimal(b);
      DecimalInjective(a, b);
    }
  }

  // ---------------------------------------------------------------- spend

  /** The charge of the last of these turns that belongs to request id. */
  function LastCharge(turns: seq<Turn>, id: string): Option<int>
  {
    if turns == [] then None
    else
      var later := LastCharge(turns[1..], id);
      if later.Some? then later
      else if RequestOf(turns[0]) == Some(id) then Some(Charge(turns[0]))
      else None
  }

  /** What a dispatch has spent: each request at the last charge seen for it, each unkeyed event by itself. */
  function Spend(turns: seq<Turn>): int
  {
    if turns == [] then 0
    else
      var request := RequestOf(turns[0]);
      var superseded := request.Some? && LastCharge(turns[1..], request.value).Some?;
      (if superseded then 0 else Charge(turns[0])) + Spend(turns[1..])
  }

  function OrZero(x: Option<int>): int
  {
    if x.Some? then x.value else 0
  }

  /** The loop's dict: one entry per key, a later event of a request replacing its entry. */
  function Ledger(turns: seq<Turn>): map<string, int>
  {
    if turns == [] then map[]
    else
      var before := Ledger(turns[..|turns| - 1]);
      var t := turns[|turns| - 1];
      before[LedgerKey(t, |before|) := Charge(t)]
  }

  function LedgerKey(t: Turn, size: nat): string
  {
    if RequestOf(t).Some? then RequestOf(t).value else UnkeyedKey(size)
  }

  lemma {:induction false} LastChargeSnoc(turns: seq<Turn>, t: Turn, id: string)
    ensures LastCharge(turns + [t], id) ==
            if RequestOf(t) == Some(id) then Some(Charge(t)) else LastCharge(turns, id)
  {
    var all := turns + [t];
    if turns == [] {
      assert all[1..] == [];
    } else {
      assert all[1..] == turns[1..] + [t];
      LastChargeSnoc(turns[1..], t, id);
    }
  }

  lemma {:induction false} SpendSnoc(turns: seq<Turn>, t: Turn)
    ensures Spend(turns + [t]) ==
            Spend(turns) + Charge(t) -
            (if RequestOf(t).Some? then OrZero(LastCharge(turns, RequestOf(t).value)) else 0)
  {
    var all := turns + [t];
    if turns == [] {
      assert all[1..] == [];
    } else {
      assert all[1..] == turns[1..] + [t];
      SpendSnoc(turns[1..], t);
      if RequestOf(turns[0]).Some? {
        LastChargeSnoc(turns[1..], t, RequestOf(turns[0]).value);
      }
    }
  }

  /** The key made up for turn i, if it carries no request id: numbered by the ledger's size at that turn. */
  predicate MakesUp(turns: seq<Turn>, i: nat, key: string)
  {
    i < |turns| && RequestOf(turns[i]).None? && key == UnkeyedKey(|Ledger(turns[..i])|)
  }

  /** Some turn's real request id is the very key made up for another turn. */
  ghost predicate Clashes(turns: seq<Turn>)
  {
    exists i: nat, key :: MakesUp(turns, i, key) && LastCharge(turns, key).Some?
  }

  lemma NoReservedNoClash(turns: seq<Turn>)
    requires NoReservedIds(turns)
    ensures !Clashes(turns)
  {
    forall i: nat, key | MakesUp(turns, i, key) ensures LastCharge(turns, key).None? {
      NeverSeen(turns, |Ledger(turns[..i])|);
    }
  }

  lemma {:induction false} NeverSeen(turns: seq<Turn>, n: nat)
    requires NoReservedIds(turns)
    ensures LastCharge(turns, UnkeyedKey(n)).None?
  {
    if turns != [] {
      NoReservedIdsSuffix(turns);
      NeverSeen(turns[1..], n);
      assert RequestOf(turns[0]) != Some(UnkeyedKey(n));
    }
  }

  lemma NoReservedIdsSuffix(turns: seq<Turn>)
    requires NoReservedIds(turns) && turns != []
    ensures NoReservedIds(turns[1..])
  {
    forall i, k: nat | 0 <= i < |turns| - 1 ensures RequestOf(turns[1..][i]) != Some(UnkeyedKey(k)) {
      assert turns[1..][i] == turns[i + 1];
    }
  }

  /** What the ledger holds: seen requests at their last charge, and else only made-up keys below its size. */
  ghost predicate LedgerHolds(ledger: map<string, int>, turns: seq<Turn>)
  {
    && (forall id :: LastCharge(turns, id).Some? ==> id in ledger && LastCharge(turns, id) == Some(ledger[id]))
    && (forall key :: key in ledger && LastCharge(turns, key).None? ==> MadeUpBelow(turns, key, |ledger|))
  }

  ghost predicate MadeUpBelow(turns: seq<Turn>, key: string, size: nat)
  {
    exists i: nat :: MakesUp(turns, i, key) && |Ledger(turns[..i])| < size
  }

  lemma MakesUpSnoc(turns: seq<Turn>, t: Turn, i: nat, key: string)
    ensures MakesUp(turns + [t], i, key) <==>
      MakesUp(turns, i, key) || (i == |turns| && RequestOf(t).None? && key == UnkeyedKey(|Ledger(turns)|))
  {
    if i < |turns| {
      assert (turns + [t])[..i] == turns[..i];
    } else if i == |turns| {
      assert (turns + [t])[..i] == turns;
    }
  }

  /** A clash of the longer history is one of the shorter, or the new turn's key is already taken by the other kind. */
  lemma ClashesSnoc(turns: seq<Turn>, t: Turn)
    requires !Clashes(turns) && LedgerHolds(Ledger(turns), turns)
    ensures var key := LedgerKey(t, |Ledger(turns)|);
      Clashes(turns + [t]) <==> key in Ledger(turns) && (RequestOf(t).Some? ==> LastCharge(turns, key).None?)
  {
    var all, ledger := turns + [t], Ledger(turns);
    var key := LedgerKey(t, |ledger|);
    if Clashes(all) {
      var i: nat, made :| MakesUp(all, i, made) && LastCharge(all, made).Some?;
      MakesUpSnoc(turns, t, i, made);
      LastChargeSnoc(turns, t, made);
      if MakesUp(turns, i, made) {
        assert LastCharge(turns, made).None? && made == key && RequestOf(t).Some?;
        MadeUpKeysAreHeld(turns, i, made);
      }
    }
    if key in ledger && (RequestOf(t).Some? ==> LastCharge(turns, key).None?) {
      LastChargeSnoc(turns, t, key);
      if RequestOf(t).Some? {
        var i: nat :| MakesUp(turns, i, key) && |Ledger(turns[..i])| < |ledger|;
        MakesUpSnoc(turns, t, i, key);
      } else {
        MakesUpSnoc(turns, t, |turns|, key);
        UnkeyedKeyIsFresh(turns, key);
      }
    }
  }

  /** A key numbered by the ledger's size can only be held for a real request. */
  lemma UnkeyedKeyIsFresh(turns: seq<Turn>, key: string)
    requires LedgerHolds(Ledger(turns), turns) && key == UnkeyedKey(|Ledger(turns)|) && key in Ledger(turns)
    ensures LastCharge(turns, key).Some?
  {
    if LastCharge(turns, key).None? {
      var i: nat :| MakesUp(turns, i, key) && |Ledger(turns[..i])| < |Ledger(turns)|;
      UnkeyedKeyInjective(|Ledger(turns[..i])|, |Ledger(turns)|);
    }
  }

  /** Once made up, a key stays in the ledger. */
  lemma {:induction false} MadeUpKeysAreHeld(turns: seq<Turn>, i: nat, key: string)
    requires MakesUp(turns, i, key)
    ensures key in Ledger(turns)
  {
    var n := |turns| - 1;
    if i < n {
      assert turns[..n][..i] == turns[..i];
      MadeUpKeysAreHeld(turns[..n], i, key);
    }
  }

  lemma LedgerGrows(turns: seq<Turn>, t: Turn)
    ensures var before, after := Ledger(turns), Ledger(turns + [t]);
      var key := LedgerKey(t, |before|);
      && after == before[key := Charge(t)]
      && |after| == if key in before then |before| else |before| + 1
  {
    var before := Ledger(turns);
    var key := LedgerKey(t, |before|);
    assert (turns + [t])[..|turns|] == turns;
    var after := before[key := Charge(t)];
    if key in before {
      assert after.Keys == before.Keys;
    } else {
      assert after.Keys == before.Keys + {key};
    }
  }

  lemma LedgerHoldsSnoc(turns: seq<Turn>, t: Turn)
    requires !Clashes(turns) && !Clashes(turns + [t]) && LedgerHolds(Ledger(turns), turns)
    ensures LedgerHolds(Ledger(turns + [t]), turns + [t])
  {
    var all, before, after := turns + [t], Ledger(turns), Ledger(turns + [t]);
    var key := LedgerKey(t, |before|);
    LedgerGrows(turns, t);
    ClashesSnoc(turns, t);
    forall id | LastCharge(all, id).Some? ensures id in after && LastCharge(all, id) == Some(after[id]) {
      LastChargeSnoc(turns, t, id);
    }
    forall other | other in after && LastCharge(all, other).None? ensures MadeUpBelow(all, other, |after|) {
      LastChargeSnoc(turns, t, other);
      if other == key {
        MakesUpSnoc(turns, t, |turns|, key);
        assert all[..|turns|] == turns;
        assert MakesUp(all, |turns|, key);
      } else {
        var i: nat :| MakesUp(turns, i, other) && |Ledger(turns[..i])| < |before|;
        MakesUpSnoc(turns, t, i, other);
        assert all[..i] == turns[..i];
      }
    }
  }

  /** As long as no real id is a made-up key, the ledger adds up to what was spent. */
  lemma {:induction false} LedgerIsSpend(turns: seq<Turn>)
    requires !Clashes(turns)
    ensures LedgerHolds(Ledger(turns), turns)
    ensures SumValues(Ledger(turns)) == Spend(turns)
  {
    if turns != [] {
      var front, t := turns[..|turns| - 1], turns[|turns| - 1];
      assert turns == front + [t];
      NoClashBefore(front, t);
      LedgerIsSpend(front);
      ClashesSnoc(front, t);
      LedgerHoldsSnoc(front, t);
      LedgerGrows(front, t);
      SumAfterUpdate(Ledger(front), LedgerKey(t, |Ledger(front)|), Charge(t));
      SpendSnoc(front, t);
    }
  }

  lemma NoClashBefore(turns: seq<Turn>, t: Turn)
    requires !Clashes(turns + [t])
    ensures !Clashes(turns)
  {
    forall i: nat, key | MakesUp(turns, i, key) ensures LastCharge(turns, key).None? {
      MakesUpSnoc(turns, t, i, key);
      LastChargeSnoc(turns, t, key);
    }
  }

  /**
    The first clash loses exactly the charge its key stood for, so the sum goes wrong exactly
    when a real id meets a made-up key that holds something.
   */
  lemma ClashLosesACharge(turns: seq<Turn>, t: Turn)
    requires !Clashes(turns)
    ensures var key := LedgerKey(t, |Ledger(turns)|);
      && (Clashes(turns + [t]) ==> key in Ledger(turns))
      && SumValues(Ledger(turns + [t])) == Spend(turns + [t]) - (if Clashes(turns + [t]) then Ledger(turns)[key] else 0)
  {
    LedgerIsSpend(turns);
    ClashesSnoc(turns, t);
    LedgerGrows(turns, t);
    SumAfterUpdate(Ledger(turns), LedgerKey(t, |Ledger(turns)|), Charge(t));
    SpendSnoc(turns, t);
  }

  /** What the loop compares with the cap after these turns. */
  ghost function RunningTotal(turns: seq<Turn>): int
  {
    SumValues(Ledger(turns))
  }

  /** A block that repeats its request's usage changes nothing. */
  lemma RepeatedBlockChargesOnce(turns: seq<Turn>, t: Turn)
    requires RequestOf(t).Some? && LastCharge(turns, RequestOf(t).value) == Some(Charge(t))
    ensures Spend(turns + [t]) == Spend(turns)
  {
    SpendSnoc(turns, t);
  }

  /** Without the reservation the ledger loses a charge: a real id spelled like a made-up key replaces it. */
  lemma ReservedIdLosesACharge()
    ensures exists turns: seq<Turn> :: SumValues(Ledger(turns)) != Spend(turns)
  {
    var usage := Some(map["input_tokens" := 1]);
    var anonymous := Turn(None, usage, 0.0, false);
    var named := Turn(Some("unkeyed-0"), usage, 0.0, false);
    var turns := [anonymous, named];
    assert UnkeyedKey(0) == "unkeyed-0";
    assert turns[..1] == [anonymous] && [anonymous][..0] == [];
    var one := Ledger([anonymous]);
    assert |"input_tokens"| != |"output_tokens"| && |"input_tokens"| != |"cache_creation_input_tokens"|;
    assert Charge(anonymous) == 1 && Charge(named) == 1;
    assert LedgerKey(anonymous, 0) == "unkeyed-0";
    assert [anonymous][..|[anonymous]| - 1] == [];
    assert Ledger([]) == map[];
    assert one == map["unkeyed-0" := Charge(anonymous)];
    assert Ledger(turns) == one["unkeyed-0" := 1] == one;
    SumTakingOut(one, "unkeyed-0");
    assert one - {"unkeyed-0"} == map[];
    assert turns[1..] == [named] && [named][1..] == [];
    assert Spend([named]) == 1;
    assert Spend(turns) == 2;
  }

  method TotalOf(ledger: map<string, int>) returns (total: int)
    ensures total == SumValues(ledger)
  {
    total := 0;
    var rest := ledger;
    while rest != map[]
      invariant total + SumValues(rest) == SumValues(ledger)
      decreases |rest|
    {
      var key :| key in rest;
      SumTakingOut(rest, key);
      total := total + rest[key];
      rest := rest - {key};
    }
  }

  // ---------------------------------------------------------------- the handover object

  datatype HandoverState = HandoverState(armed: bool, graceUsed: nat, contextAt: int, bySubtree: bool,
                                         byBudget: bool, armedRequest: Option<string>, lastCounted: Option<string>)

  const FRESH := HandoverState(false, 0, 0, false, false, None, None)

  /** One turn folded into the handover, and whether to interrupt now. */
  function Fold(h: HandoverState, usage: Usage, ceiling: Option<int>, requestId: Option<string>,
                stopRequested: bool, budgetSpent: bool): (HandoverState, bool)
  {
    if !h.armed then
      if !(stopRequested || budgetSpent || Past(InputTotal(usage), ceiling)) then (h, false)
      else
        (h.(armed := true, bySubtree := stopRequested, byBudget := budgetSpent && !stopRequested,
            contextAt := InputTotal(usage), armedRequest := requestId), false)
    else CountRequest(h, requestId)
  }

  /** Once armed: whether this event opens another request, which spends one grace. */
  function CountRequest(h: HandoverState, requestId: Option<string>): (HandoverState, bool)
  {
    var key := Some(if requestId.Some? && requestId.value != "" then requestId.value else UnkeyedKey(h.graceUsed));
    if key == h.armedRequest || key == h.lastCounted then (h, false)
    else (h.(lastCounted := key, graceUsed := h.graceUsed + 1), h.graceUsed + 1 >= HANDOVER_GRACE_TURNS)
  }

  class Handover {
    var armed: bool
    var graceUsed: nat
    var contextAt: int
    var bySubtree: bool
    var byBudget: bool
    var armedRequest: Option<string>
    var lastCounted: Option<string>

    ghost function State(): HandoverState
      reads this
    {
      HandoverState(armed, graceUsed, contextAt, bySubtree, byBudget, armedRequest, lastCounted)
    }

    constructor ()
      ensures State() == FRESH
    {
      armed, graceUsed, contextAt, bySubtree, byBudget := false, 0, 0, false, false;
      armedRequest, lastCounted := None, None;
    }

    method Observe(usage: Usage, ceiling: Option<int>, requestId: Option<string>,
                   stopRequested: bool, budgetSpent: bool)
      returns (interrupt: bool)
      modifies this
      ensures (State(), interrupt) == Fold(old(State()), usage, ceiling, requestId, stopRequested, budgetSpent)
    {
      if !armed {
        if !(stopRequested || budgetSpent || Past(InputTotal(usage), ceiling)) {
          return false;
        }
        armed := true;
        bySubtree := stopRequested;
        byBudget := budgetSpent && !stopRequested;
        contextAt := InputTotal(usage);
        armedRequest := requestId;
        return false;
      }
      var key := if requestId.Some? && requestId.value != "" then requestId.value else UnkeyedKey(graceUsed);
      if Some(key) == armedRequest || Some(key) == lastCounted {
        return false;
      }
      lastCounted := Some(key);
      graceUsed := graceUsed + 1;
      return graceUsed >= HANDOVER_GRACE_TURNS;
    }
  }

  // ---------------------------------------------------------------- the handover, read off the history

  predicate Stops(request: Request, t: Turn)
  {
    request.inSubtree && t.stopping
  }

  predicate OverCap(request: Request, turns: seq<Turn>, i: nat)
    requires i < |turns|
  {
    Past(Spend(turns[..i + 1]), request.tokenCap)
  }

  /** Whether turn i gives one of the three reasons to hand over. */
  predicate Arms(request: Request, turns: seq<Turn>, i: nat)
    requires i < |turns|
  {
    Stops(request, turns[i]) || OverCap(request, turns, i) || Past(Context(turns[i]), request.handoverAt)
  }

  /** The index of the first turn that arms the handover, or the number of turns. */
  function ArmingTurn(request: Request, turns: seq<Turn>): (i: nat)
    ensures i <= |turns|
    ensures forall j :: 0 <= j < i ==> !Arms(request, turns, j)
    ensures i < |turns| ==> Arms(request, turns, i)
  {
    FirstArming(request, turns, 0)
  }

  function FirstArming(request: Request, turns: seq<Turn>, from: nat): (i: nat)
    requires from <= |turns|
    requires forall j :: 0 <= j < from ==> !Arms(request, turns, j)
    ensures from <= i <= |turns|
    ensures forall j :: 0 <= j < i ==> !Arms(request, turns, j)
    ensures i < |turns| ==> Arms(request, turns, i)
    decreases |turns| - from
  {
    if from == |turns| || Arms(request, turns, from) then from else FirstArming(request, turns, from + 1)
  }

  /** Who an event speaks for when requests are counted: its request, or only itself. */
  datatype Speaker = Named(id: string) | Anonymous(at: nat)

  function SpeakerOf(t: Turn, at: nat): Speaker
  {
    if RequestOf(t).Some? then Named(RequestOf(t).value) else Anonymous(at)
  }

  /** The speakers after turn armed, leaving out the arming request's own later blocks. */
  function Counted(turns: seq<Turn>, armed: nat): seq<Speaker>
    requires armed < |turns|
  {
    var n := |turns| - 1;
    if armed == n then []
    else
      var before := Counted(turns[..n], armed);
      if RequestOf(turns[n]).Some? && RequestOf(turns[n]) == RequestOf(turns[armed]) then before
      else before + [SpeakerOf(turns[n], n)]
  }

  /** The handover state after these turns were all observed. */
  ghost function Watched(request: Request, turns: seq<Turn>): HandoverState
    decreases |turns|, 1
  {
    if turns == [] then FRESH else ObserveLast(request, turns).0
  }

  /** The last turn folded in: the new state, and whether it interrupts. */
  ghost function ObserveLast(request: Request, turns: seq<Turn>): (HandoverState, bool)
    requires turns != []
    decreases |turns|, 0
  {
    var n := |turns| - 1;
    var t := turns[n];
    Fold(Watched(request, turns[..n]), OrEmpty(t.usage), request.handoverAt, t.messageId,
         Stops(request, t), Past(RunningTotal(turns), request.tokenCap))
  }

  lemma ArmingTurnOfPrefix(request: Request, turns: seq<Turn>)
    requires turns != []
    ensures var n := |turns| - 1;
      ArmingTurn(request, turns[..n]) == (if ArmingTurn(request, turns) >= n then n else ArmingTurn(request, turns))
  {
    var n := |turns| - 1;
    var front := turns[..n];
    forall j | 0 <= j < n ensures Arms(request, front, j) == Arms(request, turns, j) {
      assert front[..j + 1] == turns[..j + 1];
    }
    var a, b := ArmingTurn(request, front), ArmingTurn(request, turns);
    if a < n {
      assert Arms(request, turns, a);
    }
    if b < n {
      assert Arms(request, front, b);
    }
  }

  /** The key that a speaker was last counted under. */
  ghost predicate LastSpeaker(last: Option<string>, counted: seq<Speaker>, grace: nat)
  {
    if counted == [] then last == None
    else match counted[|counted| - 1]
      case Named(id) => last == Some(id)
      case Anonymous(_) => exists k: nat :: k < grace && last == Some(UnkeyedKey(k))
  }

  /** The handover state of a history that armed at turn a, or never if a is its length. */
  ghost predicate IsHistory(h: HandoverState, request: Request, turns: seq<Turn>, a: nat)
    requires a <= |turns|
  {
    if a == |turns| then h == FRESH else Frozen(h, request, turns, a) && Counting(h, turns, a)
  }

  /** What arming at turn a fixes for good. */
  ghost predicate Frozen(h: HandoverState, request: Request, turns: seq<Turn>, a: nat)
    requires a < |turns|
  {
    && h.armed
    && h.bySubtree == Stops(request, turns[a])
    && h.byBudget == (OverCap(request, turns, a) && !Stops(request, turns[a]))
    && h.contextAt == Context(turns[a])
    && h.armedRequest == turns[a].messageId
  }

  /** The grace spent since turn a, and who spent it last. */
  ghost predicate Counting(h: HandoverState, turns: seq<Turn>, a: nat)
    requires a < |turns|
  {
    h.graceUsed == Stretches(Counted(turns, a)) && LastSpeaker(h.lastCounted, Counted(turns, a), h.graceUsed)
  }

  lemma FrozenStays(h: HandoverState, next: HandoverState, request: Request, turns: seq<Turn>, a: nat)
    requires a < |turns| - 1 && Frozen(h, request, turns[..|turns| - 1], a)
    requires next == h.(graceUsed := next.graceUsed, lastCounted := next.lastCounted)
    ensures Frozen(next, request, turns, a)
  {
    assert turns[..|turns| - 1][..a + 1] == turns[..a + 1];
  }

  /**
    The whole handover state, read off the history: unarmed until the first turn with
    a reason, then frozen reason flags and one grace spent per change of speaker.
   */
  lemma {:induction false} HandoverHistory(request: Request, turns: seq<Turn>)
    requires NoReservedIds(turns)
    ensures IsHistory(Watched(request, turns), request, turns, ArmingTurn(request, turns))
  {
    if turns != [] {
      var n := |turns| - 1;
      NoReservedIdsPrefix(turns, n);
      HandoverHistory(request, turns[..n]);
      ArmingTurnOfPrefix(request, turns);
      if ArmingTurn(request, turns) < n {
        HistoryGoesOn(request, turns);
      } else {
        HistoryBegins(request, turns);
      }
    }
  }

  /** Armed before the last turn. */
  lemma HistoryGoesOn(request: Request, turns: seq<Turn>)
    requires NoReservedIds(turns) && turns != [] && ArmingTurn(request, turns) < |turns| - 1
    requires ArmingTurn(request, turns[..|turns| - 1]) == ArmingTurn(request, turns)
    requires var front := turns[..|turns| - 1];
      IsHistory(Watched(request, front), request, front, ArmingTurn(request, turns))
    ensures IsHistory(Watched(request, turns), request, turns, ArmingTurn(request, turns))
  {
    var n, a := |turns| - 1, ArmingTurn(request, turns);
    var h := Watched(request, turns[..n]);
    CountOneMore(h, turns, a);
    ArmedGoesOn(request, turns);
    FrozenStays(h, Watched(request, turns), request, turns, a);
  }

  lemma ArmedGoesOn(request: Request, turns: seq<Turn>)
    requires turns != [] && Watched(request, turns[..|turns| - 1]).armed
    ensures var n := |turns| - 1;
      Watched(request, turns) == CountRequest(Watched(request, turns[..n]), turns[n].messageId).0
  {
  }

  /** Armed by the last turn, or not at all. */
  lemma HistoryBegins(request: Request, turns: seq<Turn>)
    requires NoReservedIds(turns) && turns != [] && ArmingTurn(request, turns) >= |turns| - 1
    requires Watched(request, turns[..|turns| - 1]) == FRESH
    ensures IsHistory(Watched(request, turns), request, turns, ArmingTurn(request, turns))
  {
    var n, a := |turns| - 1, ArmingTurn(request, turns);
    NoReservedNoClash(turns);
    LedgerIsSpend(turns);
    assert turns[..n + 1] == turns;
    assert Arms(request, turns, n) <==> a == n;
  }

  lemma NoReservedIdsPrefix(turns: seq<Turn>, n: nat)
    requires NoReservedIds(turns) && n <= |turns|
    ensures NoReservedIds(turns[..n])
  {
    forall i, k: nat | 0 <= i < n ensures RequestOf(turns[..n][i]) != Some(UnkeyedKey(k)) {
      assert turns[..n][i] == turns[i];
    }
  }

  /** What counting one event makes of the state, when these are the speakers after it. */
  ghost predicate CountsTo(h: HandoverState, id: Option<string>, after: seq<Speaker>)
  {
    var (next, interrupt) := CountRequest(h, id);
    && next == h.(graceUsed := next.graceUsed, lastCounted := next.lastCounted)
    && next.graceUsed == Stretches(after)
    && LastSpeaker(next.lastCounted, after, next.graceUsed)
    && (interrupt <==> next.graceUsed > h.graceUsed && next.graceUsed >= HANDOVER_GRACE_TURNS)
  }

  lemma SpeaksNext(before: seq<Speaker>, s: Speaker)
    ensures var after := before + [s];
      && after[|after| - 1] == s
      && Stretches(after) == Stretches(before) + if before != [] && before[|before| - 1] == s then 0 else 1
  {
    assert (before + [s])[..|before|] == before;
  }

  /** A named speaker other than the arming request spends a grace unless it was the last one counted. */
  lemma CountNamed(h: HandoverState, before: seq<Speaker>, id: string)
    requires h.graceUsed == Stretches(before) && LastSpeaker(h.lastCounted, before, h.graceUsed)
    requires id != "" && Some(id) != h.armedRequest && forall k: nat :: id != UnkeyedKey(k)
    ensures CountsTo(h, Some(id), before + [Named(id)])
  {
    SpeaksNext(before, Named(id));
    if before != [] && before[|before| - 1].Anonymous? {
      var k: nat :| k < h.graceUsed && h.lastCounted == Some(UnkeyedKey(k));
    }
  }

  /** An event without a request id always spends one. */
  lemma CountAnonymous(h: HandoverState, before: seq<Speaker>, id: Option<string>, at: nat)
    requires h.graceUsed == Stretches(before) && LastSpeaker(h.lastCounted, before, h.graceUsed)
    requires (id.None? || id.value == "") && Anonymous(at) !in before
    requires Some(UnkeyedKey(h.graceUsed)) != h.armedRequest && Some(UnkeyedKey(h.graceUsed)) != h.lastCounted
    ensures CountsTo(h, id, before + [Anonymous(at)])
  {
    SpeaksNext(before, Anonymous(at));
    assert before != [] ==> before[|before| - 1] in before;
  }

  /** One more turn after arming spends a grace exactly when it changes who is speaking. */
  lemma CountOneMore(h: HandoverState, turns: seq<Turn>, a: nat)
    requires NoReservedIds(turns)
    requires a < |turns| - 1 && h.armedRequest == turns[a].messageId
    requires var before := Counted(turns[..|turns| - 1], a);
      && h.graceUsed == Stretches(before)
      && LastSpeaker(h.lastCounted, before, h.graceUsed)
    ensures CountsTo(h, turns[|turns| - 1].messageId, Counted(turns, a))
  {
    var n := |turns| - 1;
    var t := turns[n];
    var before := Counted(turns[..n], a);
    CountedOneMore(turns, a);
    if RequestOf(t).None? {
      CountedAnonymousBefore(turns[..n], a);
      UnkeyedNotArming(h, turns, a);
      UnkeyedNotLast(h, turns, a);
      CountAnonymous(h, before, t.messageId, n);
    } else if RequestOf(t) != RequestOf(turns[a]) {
      NotReserved(turns, n);
      CountNamed(h, before, t.messageId.value);
    }
  }

  lemma CountedOneMore(turns: seq<Turn>, a: nat)
    requires a < |turns| - 1
    ensures var n := |turns| - 1; var before := Counted(turns[..n], a);
      Counted(turns, a) ==
      if RequestOf(turns[n]).Some? && RequestOf(turns[n]) == RequestOf(turns[a]) then before
      else before + [SpeakerOf(turns[n], n)]
  {
    assert turns[..|turns| - 1][a] == turns[a];
  }

  lemma NotReserved(turns: seq<Turn>, n: nat)
    requires NoReservedIds(turns) && n < |turns| && RequestOf(turns[n]).Some?
    ensures forall k: nat :: RequestOf(turns[n]).value != UnkeyedKey(k)
  {
    assert forall k: nat :: RequestOf(turns[n]) != Some(UnkeyedKey(k));
  }

  lemma UnkeyedNotLast(h: HandoverState, turns: seq<Turn>, a: nat)
    requires NoReservedIds(turns) && a < |turns| - 1
    requires LastSpeaker(h.lastCounted, Counted(turns[..|turns| - 1], a), h.graceUsed)
    ensures Some(UnkeyedKey(h.graceUsed)) != h.lastCounted
  {
    var n := |turns| - 1;
    var before := Counted(turns[..n], a);
    if before != [] {
      if before[|before| - 1].Anonymous? {
        var k: nat :| k < h.graceUsed && h.lastCounted == Some(UnkeyedKey(k));
        UnkeyedKeyInjective(k, h.graceUsed);
      } else {
        NamedSpeakersAreReal(turns[..n], a, |before| - 1);
        NoReservedIdsPrefix(turns, n);
      }
    }
  }

  lemma UnkeyedNotArming(h: HandoverState, turns: seq<Turn>, a: nat)
    requires NoReservedIds(turns) && a < |turns| && h.armedRequest == turns[a].messageId
    ensures Some(UnkeyedKey(h.graceUsed)) != h.armedRequest
  {
    assert RequestOf(turns[a]) != Some(UnkeyedKey(h.graceUsed));
  }

  lemma {:induction false} CountedAnonymousBefore(turns: seq<Turn>, a: nat)
    requires a < |turns|
    ensures forall s :: s in Counted(turns, a) && s.Anonymous? ==> s.at < |turns|
  {
    if a < |turns| - 1 {
      CountedAnonymousBefore(turns[..|turns| - 1], a);
    }
  }

  lemma {:induction false} NamedSpeakersAreReal(turns: seq<Turn>, a: nat, k: nat)
    requires a < |turns| && k < |Counted(turns, a)| && Counted(turns, a)[k].Named?
    ensures exists i :: 0 <= i < |turns| && RequestOf(turns[i]) == Some(Counted(turns, a)[k].id)
  {
    var n := |turns| - 1;
    var before := Counted(turns[..n], a);
    if k < |before| {
      NamedSpeakersAreReal(turns[..n], a, k);
      var i :| 0 <= i < n && RequestOf(turns[..n][i]) == Some(before[k].id);
      assert turns[i] == turns[..n][i];
    } else {
      assert RequestOf(turns[n]) == Some(Counted(turns, a)[k].id);
    }
  }

  /**
    What one grace measures: the distinct requests after arming, other than the arming
    one, exactly when no request's events resume after another's.
   */
  lemma GraceCountsRequests(request: Request, turns: seq<Turn>)
    requires NoReservedIds(turns) && ArmingTurn(request, turns) < |turns|
    ensures var counted := Counted(turns, ArmingTurn(request, turns));
      Watched(request, turns).graceUsed == |Elements(counted)| <==> Contiguous(counted)
  {
    HandoverHistory(request, turns);
    StretchesCountElements(Counted(turns, ArmingTurn(request, turns)));
  }

  /**
    Observing a turn interrupts exactly when it opens another request after the arming
    turn and at least three have been counted; in particular never when it arms.
   */
  lemma InterruptsFromTheThirdRequest(request: Request, turns: seq<Turn>)
    requires NoReservedIds(turns) && turns != []
    ensures var n, a := |turns| - 1, ArmingTurn(request, turns);
      ObserveLast(request, turns).1 <==>
      a < n && Counted(turns, a) != Counted(turns[..n], a) &&
      Stretches(Counted(turns, a)) > Stretches(Counted(turns[..n], a)) &&
      Stretches(Counted(turns, a)) >= HANDOVER_GRACE_TURNS
  {
    var n, a := |turns| - 1, ArmingTurn(request, turns);
    NoReservedIdsPrefix(turns, n);
    HandoverHistory(request, turns[..n]);
    ArmingTurnOfPrefix(request, turns);
    if a < n {
      CountOneMore(Watched(request, turns[..n]), turns, a);
    }
  }

  /** A turn of this request, without usage. */
  function Speaking(id: string, stopping: bool): Turn
  {
    Turn(Some(id), None, 0.0, stopping)
  }

  /** Once armed, only whose request a turn belongs to matters. */
  lemma ArmedCounts(request: Request, turns: seq<Turn>, id: string)
    requires Watched(request, turns).armed
    ensures var longer := turns + [Speaking(id, false)];
      ObserveLast(request, longer) == CountRequest(Watched(request, turns), Some(id))
      && Watched(request, longer) == CountRequest(Watched(request, turns), Some(id)).0
  {
    assert (turns + [Speaking(id, false)])[..|turns|] == turns;
  }

  lemma StoppingArms(request: Request, id: string)
    requires request.inSubtree
    ensures ArmingTurn(request, [Speaking(id, true)]) == 0
    ensures var h := Watched(request, [Speaking(id, true)]);
      h.armed && h.graceUsed == 0 && h.armedRequest == Some(id) && h.lastCounted == None
  {
    assert [Speaking(id, true)][..0] == [] && Watched(request, []) == FRESH;
    assert Arms(request, [Speaking(id, true)], 0);
  }

  /** A second interrupt is not avoided: the fourth request after the arming one interrupts as the third did. */
  lemma InterruptsAgain(request: Request)
    requires request.inSubtree
    ensures var third := [Speaking("a", true), Speaking("b", false), Speaking("c", false), Speaking("d", false)];
      && !ObserveLast(request, third[..3]).1 && ObserveLast(request, third).1
      && ObserveLast(request, third + [Speaking("e", false)]).1
  {
    var armed := [Speaking("a", true)];
    var first := armed + [Speaking("b", false)];
    var second := first + [Speaking("c", false)];
    var third := second + [Speaking("d", false)];
    StoppingArms(request, "a");
    ArmedCounts(request, armed, "b");
    ArmedCounts(request, first, "c");
    ArmedCounts(request, second, "d");
    ArmedCounts(request, third, "e");
    assert third == [Speaking("a", true), Speaking("b", false), Speaking("c", false), Speaking("d", false)];
    assert third[..3] == second;
  }

  /** A request that resumes after another is counted again: three graces for two requests. */
  lemma ResumedRequestIsCountedAgain(request: Request)
    requires request.inSubtree
    ensures var turns := [Speaking("a", true), Speaking("b", false), Speaking("c", false), Speaking("b", false)];
      Watched(request, turns).graceUsed == 3 && |Elements(Counted(turns, 0))| == 2
  {
    var armed := [Speaking("a", true)];
    var first := armed + [Speaking("b", false)];
    var second := first + [Speaking("c", false)];
    var turns := second + [Speaking("b", false)];
    StoppingArms(request, "a");
    ArmedCounts(request, armed, "b");
    ArmedCounts(request, first, "c");
    ArmedCounts(request, second, "b");
    assert turns == [Speaking("a", true), Speaking("b", false), Speaking("c", false), Speaking("b", false)];
    assert first[..1] == armed && second[..2] == first && turns[..3] == second;
    var b, c := Named("b"), Named("c");
    assert Counted(first, 0) == [b] && Counted(second, 0) == [b, c];
    var counted := Counted(turns, 0);
    assert counted == [b, c, b];
    assert Elements(counted) == {b, c} by {
      assert counted[0] in Elements(counted) && counted[1] in Elements(counted);
    }
  }

  // ---------------------------------------------------------------- the exit ladder

  const NO_VALUE := "-"
  const MAX_TURNS_SUBTYPE := "error_max_turns"

  function DeadlineOutcome(request: Request, firstTurnInput: int, usage: Usage, cost: Option<real>): Outcome
  {
    Outcome(Cancelled, [], DeadlineFacts(firstTurnInput), Some(TokensOf(usage)),
            map[request.model := ChargedTotal(usage)], cost, NO_VALUE, Some(NodeError(Deadline, false)))
  }

  function HandoverOutcome(request: Request, firstTurnInput: int, usage: Usage, cost: Option<real>,
                           contextAt: int, graceUsed: nat, bySubtree: bool, byBudget: bool): Outcome
  {
    Outcome(NeedsContinuation, [request.cwdRel],
            HandoverFacts(contextAt, request.handoverAt, firstTurnInput, graceUsed,
                          graceUsed >= HANDOVER_GRACE_TURNS, bySubtree, byBudget),
            Some(TokensOf(usage)), map[request.model := ChargedTotal(usage)], cost, NO_VALUE, None)
  }

  function ReportedOutcome(request: Request, firstTurnInput: int, t: Terminal): Outcome
  {
    var usage := OrEmpty(t.usage);
    var exhausted := t.subtype == MAX_TURNS_SUBTYPE;
    var status := if exhausted then NeedsContinuation else if t.isError then Failed else Done;
    var error :=
      if exhausted || !t.isError then None
      else if t.authShaped then Some(NodeError(AuthFailure, false))
      else Some(NodeError(ExecutorError, true));
    var effort := if request.effort.Some? && request.effort.value != "" then request.effort.value else NO_VALUE;
    Outcome(status, if exhausted || !t.isError then [request.cwdRel] else [],
            TurnFacts(t.numTurns, firstTurnInput, exhausted), Some(TokensOf(usage)),
            map[request.model := ChargedTotal(usage)], t.cost, effort, error)
  }

  const NO_RESULT := Outcome(Failed, [], NoFacts, None, map[], None, NO_VALUE, Some(NodeError(ExecutorError, true)))

  /** The turns the loop folds in: those before the first terminal message. */
  function TurnsOf(messages: seq<Message>): seq<Turn>
  {
    if messages == [] || messages[0].Finished? then []
    else if messages[0].Assistant? then [messages[0].turn] + TurnsOf(messages[1..])
    else TurnsOf(messages[1..])
  }

  function TerminalOf(messages: seq<Message>): Option<Terminal>
  {
    if messages == [] then None
    else if messages[0].Finished? then Some(messages[0].terminal)
    else TerminalOf(messages[1..])
  }

  predicate Overdue(request: Request, started: real, t: Turn)
  {
    request.deadlineS.Some? && t.now - started > request.deadlineS.value
  }

  /** The first overdue turn, or the number of turns: where the deadline latches. */
  function DeadlineTurn(request: Request, started: real, turns: seq<Turn>): (i: nat)
    ensures i <= |turns|
    ensures forall j :: 0 <= j < i ==> !Overdue(request, started, turns[j])
    ensures i < |turns| ==> Overdue(request, started, turns[i])
  {
    if turns == [] || Overdue(request, started, turns[0]) then 0
    else 1 + DeadlineTurn(request, started, turns[1..])
  }

  function FirstTurnInput(turns: seq<Turn>): int
  {
    if turns == [] then 0 else Context(turns[0])
  }

  /** The outcome of a dispatch that streamed these messages. */
  ghost function OutcomeOf(request: Request, started: real, messages: seq<Message>): Outcome
  {
    var turns, terminal := TurnsOf(messages), TerminalOf(messages);
    var usage := if terminal.Some? then OrEmpty(terminal.value.usage) else map[];
    var cost := if terminal.Some? then terminal.value.cost else None;
    if DeadlineTurn(request, started, turns) < |turns| then
      DeadlineOutcome(request, FirstTurnInput(turns), usage, cost)
    else if Watched(request, turns).armed then
      var h := Watched(request, turns);
      HandoverOutcome(request, FirstTurnInput(turns), usage, cost, h.contextAt, h.graceUsed, h.bySubtree, h.byBudget)
    else if terminal.Some? then ReportedOutcome(request, FirstTurnInput(turns), terminal.value)
    else NO_RESULT
  }

  /** The turns at which the loop interrupts the client, in order. */
  ghost function Interrupts(request: Request, started: real, turns: seq<Turn>): seq<nat>
  {
    if turns == [] then []
    else
      var n := |turns| - 1;
      Interrupts(request, started, turns[..n]) + (if InterruptsLast(request, started, turns) then [n] else [])
  }

  /** Whether folding in the last of these turns interrupts: it is the overdue one, or the grace is spent. */
  ghost predicate InterruptsLast(request: Request, started: real, turns: seq<Turn>)
    requires turns != []
  {
    var n := |turns| - 1;
    var d := DeadlineTurn(request, started, turns);
    n == d || (n < d && ObserveLast(request, turns).1)
  }

  lemma {:induction false} TurnsOfSnoc(messages: seq<Message>, m: Message)
    requires TerminalOf(messages).None?
    ensures TurnsOf(messages + [m]) == TurnsOf(messages) + (if m.Assistant? then [m.turn] else [])
    ensures TerminalOf(messages + [m]) == if m.Finished? then Some(m.terminal) else None
  {
    var all := messages + [m];
    if messages == [] {
      assert all[1..] == [];
    } else {
      assert all[1..] == messages[1..] + [m];
      TurnsOfSnoc(messages[1..], m);
    }
  }

  /** Messages after the first terminal one are never read. */
  lemma {:induction false} AfterTheTerminal(messages: seq<Message>, rest: seq<Message>)
    requires TerminalOf(messages).Some?
    ensures TurnsOf(messages + rest) == TurnsOf(messages) && TerminalOf(messages + rest) == TerminalOf(messages)
  {
    var all := messages + rest;
    assert all[0] == messages[0];
    if !messages[0].Finished? {
      assert all[1..] == messages[1..] + rest;
      AfterTheTerminal(messages[1..], rest);
    }
  }

  lemma {:induction false} DeadlineTurnSnoc(request: Request, started: real, turns: seq<Turn>, t: Turn)
    ensures DeadlineTurn(request, started, turns + [t]) ==
            var d := DeadlineTurn(request, started, turns);
            if d < |turns| || Overdue(request, started, t) then d else d + 1
  {
    var all := turns + [t];
    if turns == [] {
      assert all[1..] == [];
    } else {
      assert all[1..] == turns[1..] + [t];
      DeadlineTurnSnoc(request, started, turns[1..], t);
    }
  }

  /** What the loop keeps between messages, besides the handover object. */
  datatype LoopState = LoopState(firstTurnInput: int, seenFirstTurn: bool, deadlineHit: bool,
                                 spendByRequest: map<string, int>, interrupts: seq<nat>, folded: nat)

  /** The loop's variables after it has folded in these turns. */
  ghost predicate Tracks(s: LoopState, request: Request, started: real, turns: seq<Turn>)
  {
    && s.folded == |turns|
    && (s.seenFirstTurn <==> turns != [])
    && s.firstTurnInput == FirstTurnInput(turns)
    && s.spendByRequest == Ledger(turns)
    && (s.deadlineHit <==> DeadlineTurn(request, started, turns) < |turns|)
    && s.interrupts == Interrupts(request, started, turns)
  }

  /** The loop's variables once another turn has been charged and checked. */
  function Advance(s: LoopState, t: Turn, overdue: bool, stop: bool): LoopState
  {
    LoopState(if s.seenFirstTurn then s.firstTurnInput else Context(t), true, s.deadlineHit || overdue,
              s.spendByRequest[LedgerKey(t, |s.spendByRequest|) := Charge(t)],
              if stop then s.interrupts + [s.folded] else s.interrupts, s.folded + 1)
  }

  lemma OneMoreTurn(s: LoopState, request: Request, started: real, turns: seq<Turn>, t: Turn)
    requires Tracks(s, request, started, turns)
    ensures var all, overdue := turns + [t], Overdue(request, started, t);
      var (h, spent) := Fold(Watched(request, turns), OrEmpty(t.usage), request.handoverAt, t.messageId,
                             Stops(request, t), Past(RunningTotal(all), request.tokenCap));
      && Tracks(Advance(s, t, overdue, !s.deadlineHit && (overdue || spent)), request, started, all)
      && Watched(request, all) == h
  {
    assert (turns + [t])[..|turns|] == turns;
    DeadlineTurnSnoc(request, started, turns, t);
  }

  class TurnLoop {
    const request: Request
    const started: real
    const handover: Handover
    var firstTurnInput: int
    var seenFirstTurn: bool
    var deadlineHit: bool
    var spendByRequest: map<string, int>
    var interrupts: seq<nat>
    var folded: nat
    ghost var turns: seq<Turn>

    ghost function State(): LoopState
      reads this
    {
      LoopState(firstTurnInput, seenFirstTurn, deadlineHit, spendByRequest, interrupts, folded)
    }

    ghost predicate Valid()
      reads this, handover
    {
      && Tracks(State(), request, started, turns)
      && (!deadlineHit ==> handover.State() == Watched(request, turns))
    }

    constructor (request: Request, started: real)
      ensures Valid() && turns == [] && fresh(handover)
      ensures this.request == request && this.started == started
    {
      this.request, this.started := request, started;
      handover := new Handover();
      firstTurnInput, seenFirstTurn, deadlineHit := 0, false, false;
      spendByRequest, interrupts, folded, turns := map[], [], 0, [];
    }

    /** One AssistantMessage: charge its request, check the deadline, then the handover. */
    method FoldTurn(turn: Turn)
      requires Valid()
      modifies this, handover
      ensures Valid() && turns == old(turns) + [turn]
    {
      OneMoreTurn(State(), request, started, turns, turn);
      var usage := OrEmpty(turn.usage);
      ChargeRequest(turn, usage);
      var runningTotal := TotalOf(spendByRequest);
      var stop := CheckBounds(turn, usage, runningTotal);
      if stop {
        interrupts := interrupts + [folded];
      }
      folded := folded + 1;
      turns := turns + [turn];
      assert State() == Advance(old(State()), turn, Overdue(request, started, turn), stop);
    }

    /** The first turn's context is kept; the charge replaces the one its request had. */
    method ChargeRequest(turn: Turn, usage: Usage)
      requires usage == OrEmpty(turn.usage)
      modifies this`firstTurnInput, this`seenFirstTurn, this`spendByRequest
      ensures State() == Advance(old(State()), turn, false, false).(folded := folded)
    {
      if !seenFirstTurn {
        firstTurnInput, seenFirstTurn := InputTotal(usage), true;
      }
      var requestKey := if RequestOf(turn).Some? then RequestOf(turn).value else UnkeyedKey(|spendByRequest|);
      spendByRequest := spendByRequest[requestKey := ChargedTotal(usage)];
    }

    /** The deadline first; only a dispatch within it lets the handover observe the turn. */
    method CheckBounds(turn: Turn, usage: Usage, runningTotal: int) returns (stop: bool)
      modifies this`deadlineHit, handover
      ensures deadlineHit == (old(deadlineHit) || Overdue(request, started, turn))
      ensures var (h, spent) := Fold(old(handover.State()), usage, request.handoverAt, turn.messageId,
                                     Stops(request, turn), Past(runningTotal, request.tokenCap));
        && stop == (!old(deadlineHit) && (Overdue(request, started, turn) || spent))
        && (!deadlineHit ==> handover.State() == h)
    {
      stop := false;
      if !deadlineHit && Overdue(request, started, turn) {
        stop, deadlineHit := true, true;
      }
      if !deadlineHit {
        stop := handover.Observe(usage, request.handoverAt, turn.messageId,
                                 Stops(request, turn), Past(runningTotal, request.tokenCap));
      }
    }
  }

  /** The stream read to its end or its terminal message, and the one exit ladder. */
  method Run(request: Request, started: real, messages: seq<Message>) returns (outcome: Outcome, interrupts: seq<nat>)
    ensures outcome == OutcomeOf(request, started, messages)
    ensures interrupts == Interrupts(request, started, TurnsOf(messages))
  {
    var loop := new TurnLoop(request, started);
    var terminal: Option<Terminal> := None;
    var next := 0;
    while next < |messages| && terminal.None?
      invariant next <= |messages|
      invariant loop.Valid() && loop.turns == TurnsOf(messages[..next]) && terminal == TerminalOf(messages[..next])
      invariant loop.request == request && loop.started == started && fresh(loop) && fresh(loop.handover)
    {
      var message := messages[next];
      assert messages[..next + 1] == messages[..next] + [message];
      TurnsOfSnoc(messages[..next], message);
      if message.Assistant? {
        loop.FoldTurn(message.turn);
      } else if message.Finished? {
        terminal := Some(message.terminal);
      }
      next := next + 1;
    }
    assert messages[..next] + messages[next..] == messages;
    if terminal.Some? {
      AfterTheTerminal(messages[..next], messages[next..]);
    } else {
      assert messages[..next] == messages;
    }
    interrupts := loop.interrupts;
    var handover := loop.handover;
    var usage := if terminal.Some? then OrEmpty(terminal.value.usage) else map[];
    var cost := if terminal.Some? then terminal.value.cost else None;
    if loop.deadlineHit {
      outcome := DeadlineOutcome(request, loop.firstTurnInput, usage, cost);
    } else if handover.armed {
      outcome := HandoverOutcome(request, loop.firstTurnInput, usage, cost, handover.contextAt, handover.graceUsed,
                                 handover.bySubtree, handover.byBudget);
    } else if terminal.Some? {
      outcome := ReportedOutcome(request, loop.firstTurnInput, terminal.value);
    } else {
      outcome := NO_RESULT;
    }
  }

  /**
    The ladder, read off the history. A latched deadline decides first, then an armed
    handover, and neither reads the terminal message's verdict: only its meters.
   */
  lemma OutcomeByHistory(request: Request, started: real, messages: seq<Message>)
    requires NoReservedIds(TurnsOf(messages))
    ensures
      var turns, terminal := TurnsOf(messages), TerminalOf(messages);
      var outcome := OutcomeOf(request, started, messages);
      var overdue := exists i :: 0 <= i < |turns| && Overdue(request, started, turns[i]);
      var a := ArmingTurn(request, turns);
      var meters := if terminal.Some? then OrEmpty(terminal.value.usage) else map[];
      && (overdue ==>
            outcome.status == Cancelled && outcome.artefactRefs == [] &&
            outcome.error == Some(NodeError(Deadline, false)) &&
            outcome.charged == map[request.model := ChargedTotal(meters)] &&
            outcome.facts == DeadlineFacts(FirstTurnInput(turns)) && outcome.effortUsed == "-")
      && (!overdue && a < |turns| ==>
            && outcome.status == NeedsContinuation && outcome.artefactRefs == [request.cwdRel] && outcome.error == None
            && outcome.charged == map[request.model := ChargedTotal(meters)]
            && outcome.facts.HandoverFacts? && outcome.effortUsed == "-"
            && outcome.facts.handoverAt == request.handoverAt
            && outcome.facts.firstTurnInput == Context(turns[0])
            && outcome.facts.contextAt == Context(turns[a])
            && outcome.facts.graceUsed == Stretches(Counted(turns, a))
            && (outcome.facts.graceExpired <==> outcome.facts.graceUsed >= 3)
            && outcome.facts.stoppedBySubtree == Stops(request, turns[a])
            && outcome.facts.capHit == (OverCap(request, turns, a) && !Stops(request, turns[a]))
            && !(outcome.facts.stoppedBySubtree && outcome.facts.capHit))
      && (!overdue && a == |turns| && terminal.None? ==>
            outcome.status == Failed && outcome.error == Some(NodeError(ExecutorError, true)))
      && (!overdue && a == |turns| && terminal.Some? ==>
            (outcome.artefactRefs == [] <==> outcome.status == Failed) &&
            (outcome.status == Failed <==> outcome.error.Some?) &&
            (outcome.status == NeedsContinuation <==> terminal.value.subtype == MAX_TURNS_SUBTYPE))
  {
    HandoverHistory(request, TurnsOf(messages));
  }

  /** No bound was reached before the terminal message: no turn was overdue and none gave a reason to hand over. */
  ghost predicate Undisturbed(request: Request, started: real, turns: seq<Turn>)
  {
    && (request.deadlineS.Some? ==>
          forall i :: 0 <= i < |turns| ==> turns[i].now - started <= request.deadlineS.value)
    && (request.inSubtree ==> forall i :: 0 <= i < |turns| ==> !turns[i].stopping)
    && (request.handoverAt.Some? ==> forall i :: 0 <= i < |turns| ==> Context(turns[i]) <= request.handoverAt.value)
    && (request.tokenCap.Some? ==>
          forall i :: 0 <= i < |turns| ==> SpendAfter(turns, i) <= request.tokenCap.value)
  }

  /** The spend once turn i was folded in. */
  function SpendAfter(turns: seq<Turn>, i: nat): int
    requires i < |turns|
  {
    Spend(turns[..i + 1])
  }

  lemma NothingArms(request: Request, started: real, turns: seq<Turn>)
    requires Undisturbed(request, started, turns)
    ensures ArmingTurn(request, turns) == |turns|
  {
    forall i | 0 <= i < |turns| ensures !Arms(request, turns, i) {
      assert SpendAfter(turns, i) == Spend(turns[..i + 1]);
    }
  }

  lemma UndisturbedIsUnarmed(request: Request, started: real, turns: seq<Turn>)
    requires NoReservedIds(turns) && Undisturbed(request, started, turns)
    ensures DeadlineTurn(request, started, turns) == |turns| && Watched(request, turns) == FRESH
  {
    HandoverHistory(request, turns);
    NothingArms(request, started, turns);
  }

  lemma UndisturbedIsReported(request: Request, started: real, messages: seq<Message>)
    requires NoReservedIds(TurnsOf(messages)) && Undisturbed(request, started, TurnsOf(messages))
    ensures var turns, terminal := TurnsOf(messages), TerminalOf(messages);
      OutcomeOf(request, started, messages) ==
      if terminal.Some? then ReportedOutcome(request, FirstTurnInput(turns), terminal.value) else NO_RESULT
  {
    UndisturbedIsUnarmed(request, started, TurnsOf(messages));
  }

  /**
    Then the terminal message's verdict decides: a turn ceiling keeps the tree and is no
    fault, success is done with the tree, and an error keeps nothing and is retried unless
    its text refuses the credential.
   */
  lemma VerdictDecides(request: Request, started: real, messages: seq<Message>)
    requires NoReservedIds(TurnsOf(messages)) && TerminalOf(messages).Some?
    requires Undisturbed(request, started, TurnsOf(messages))
    ensures
      var t, outcome := TerminalOf(messages).value, OutcomeOf(request, started, messages);
      && (t.subtype == "error_max_turns" ==>
            outcome.status == NeedsContinuation && outcome.artefactRefs == [request.cwdRel] && outcome.error == None)
      && (t.subtype != "error_max_turns" && !t.isError ==>
            outcome.status == Done && outcome.artefactRefs == [request.cwdRel] && outcome.error == None)
      && (t.subtype != "error_max_turns" && t.isError ==>
            outcome.status == Failed && outcome.artefactRefs == [] &&
            outcome.error ==
              Some(if t.authShaped then NodeError(AuthFailure, false) else NodeError(ExecutorError, true)))
      && outcome.facts ==
           TurnFacts(t.numTurns, if TurnsOf(messages) == [] then 0 else Context(TurnsOf(messages)[0]),
                     t.subtype == "error_max_turns")
      && outcome.cost == t.cost
      && outcome.effortUsed ==
           (if request.effort.None? || request.effort.value == "" then "-" else request.effort.value)
  {
    UndisturbedIsReported(request, started, messages);
  }

  /** With no terminal message either, the dispatch failed and may be retried. */
  lemma NoVerdictFails(request: Request, started: real, messages: seq<Message>)
    requires NoReservedIds(TurnsOf(messages)) && TerminalOf(messages).None?
    requires Undisturbed(request, started, TurnsOf(messages))
    ensures
      var outcome := OutcomeOf(request, started, messages);
      && outcome.status == Failed && outcome.error == Some(NodeError(ExecutorError, true))
      && outcome.artefactRefs == [] && outcome.charged == map[]
  {
    UndisturbedIsReported(request, started, messages);
  }

  /** A count of the usage by its name; one it lacks is nothing. */
  lemma CountsByName(usage: Usage, name: string)
    ensures Field(usage, name) == if name in usage then usage[name] else 0
  {
  }

  lemma MetersOfTerminal(request: Request, started: real, messages: seq<Message>, usage: Usage)
    requires TerminalOf(messages).Some? && TerminalOf(messages).value.usage == Some(usage)
    ensures var outcome := OutcomeOf(request, started, messages);
      && outcome.tokens == Some(TokensOf(usage)) && outcome.charged == map[request.model := ChargedTotal(usage)]
      && outcome.cost == TerminalOf(messages).value.cost
  {
  }

  /**
    Whatever rung is taken, what is reported of the tokens are the terminal message's own
    four counts: what the model saw is three of them, and what is charged leaves out what
    the cache served.
   */
  lemma MetersAreTheTerminals(request: Request, started: real, messages: seq<Message>, usage: Usage)
    requires TerminalOf(messages).Some? && TerminalOf(messages).value.usage == Some(usage)
    ensures
      var outcome := OutcomeOf(request, started, messages);
      var uncached, written := Field(usage, "input_tokens"), Field(usage, "cache_creation_input_tokens");
      var cached, produced := Field(usage, "cache_read_input_tokens"), Field(usage, "output_tokens");
      && outcome.tokens == Some(Tokens(uncached + written + cached, produced, cached, written))
      && outcome.charged == map[request.model := uncached + written + produced]
      && outcome.cost == TerminalOf(messages).value.cost
  {
    MetersOfTerminal(request, started, messages, usage);
  }
}
