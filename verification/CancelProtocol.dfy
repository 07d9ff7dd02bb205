/**
  Cancelling a run over its shared directory: state.json, the cancel intent, and the
  journal with its audit copy, used by any number of processes that take the run lock
  and may die between any two file accesses.
 */
module CancelProtocol {
  import opened Wrappers
  import L = RunLock

  datatype RunStatus = Running | Suspended | Done | Failed | Crashed | Cancelling | Cancelled

  /** state.json: its status, and the rest of it as one value. */
  datatype RunState = RunState(status: RunStatus, rest: int)

  datatype Intent = Intent(author: string, tokenId: string)

  datatype Line =
    | CancelRequestedLine(author: string, tokenId: string)
    | CancelLine(verified: bool)
    | OtherLine(text: string)

  const UNKNOWN := "unknown"

  /** The verified value of the journaled cancel, if there is one: the first CancelLine decides. */
  function AlreadyResolved(journal: seq<Line>): Option<bool>
  {
    if journal == [] then None
    else if journal[0].CancelLine? then Some(journal[0].verified)
    else AlreadyResolved(journal[1..])
  }

  function StatusFor(verified: bool): RunStatus
  {
    if verified then Cancelled else Cancelling
  }

  function RequestedBy(intent: Option<Intent>): Line
  {
    if intent.Some? then CancelRequestedLine(intent.value.author, intent.value.tokenId)
    else CancelRequestedLine(UNKNOWN, UNKNOWN)
  }

  // ---------------------------------------------------------------- where a process stands

  /**
    What a process does next. The second group runs with the lock held; a line is
    written to the audit copy first and to the journal by the next step.
   */
  datatype Pc =
    | Idle
    | Intending(state: RunState, intent: Intent)
    | Marking(state: RunState)
    | Killing
    | Locking(verified: bool)
    | Rechecking(verified: bool)
    | ReadingIntent(verified: bool)
    | Auditing(line: Line, next: AfterLine)
    | Journaling(line: Line, next: AfterLine)
    | ReadingState(verified: bool)
    | WritingState(verified: bool, state: RunState)
    | Releasing
    | Coordinating

  /** What follows a journaled line: the cancel line, the state update, or more coordinating. */
  datatype AfterLine = ThenCancel(verified: bool) | ThenState(verified: bool) | ThenCoordinate

  predicate HoldsLock(pc: Pc)
  {
    pc.Rechecking? || pc.ReadingIntent? || pc.Auditing? || pc.Journaling? || pc.ReadingState? || pc.WritingState? ||
    pc.Releasing? || pc.Coordinating?
  }

  datatype RunDir = RunDir(lock: L.World, pcs: map<int, Pc>, state: RunState, intent: Option<Intent>,
                           journal: seq<Line>, audit: seq<Line>, tornAppends: nat)

  /** What a step reads from outside: which program starts, what the kill reported, what a coordinator does. */
  datatype Oracle =
    | StartRequest(intent: Intent)
    | StartResolve
    | StartCoordinator
    | KillReports(verified: bool)
    | AppendLine(line: Line)
    | SetState(state: RunState)
    | Finish
    | Go

  datatype Action =
    | Spawn(pid: int, start: string)
    | Die(pid: int)
    | DieAcquiring(pid: int)
    | Reboot(bootId: string)
    | Advance(pid: int, oracle: Oracle)

  predicate InFlight(pc: Pc)
  {
    pc.Journaling?
  }

  // ---------------------------------------------------------------- the steps

  function To(d: RunDir, pid: int, pc: Pc): RunDir
  {
    d.(pcs := d.pcs[pid := pc])
  }

  /** acquire, with this process's own readable start time; LockHeld sends it to Idle. */
  function TryLock(d: RunDir, pid: int, pc: Pc): RunDir
    requires pid in d.lock.machine.starts
  {
    var after := L.Apply(d.lock, L.Acquire(pid, d.lock.machine.starts[pid], {}));
    if L.Blocks(d.lock.file, d.lock.machine, {}) then To(d, pid, Idle)
    else To(d, pid, pc).(lock := after)
  }

  /** The first file access of a program: read state.json, read the journal, or take the lock. */
  function Begin(d: RunDir, pid: int, oracle: Oracle): RunDir
    requires pid in d.lock.machine.starts
  {
    match oracle
    case StartRequest(intent) =>
      if d.state.status in {Done, Failed, Cancelling, Cancelled} then d
      else To(d, pid, Intending(d.state, intent))
    case StartResolve => if AlreadyResolved(d.journal).Some? then d else To(d, pid, Killing)
    case StartCoordinator => TryLock(d, pid, Coordinating)
    case _ => d
  }

  /** A coordinator appends lines of its own, rewrites the state, or lets go of the lock; it cancels nothing. */
  function Coordinate(d: RunDir, pid: int, oracle: Oracle): RunDir
  {
    match oracle
    case AppendLine(line) => if line.CancelLine? then d else To(d, pid, Auditing(line, ThenCoordinate))
    case SetState(state) => if state.status == Cancelled then d else d.(state := state)
    case Finish => To(d, pid, Releasing)
    case _ => d
  }

  function AfterAppend(next: AfterLine): Pc
  {
    match next
    case ThenCancel(verified) => Auditing(CancelLine(verified), ThenState(verified))
    case ThenState(verified) => ReadingState(verified)
    case ThenCoordinate => Coordinating
  }

  /** One file access of process pid. */
  function Access(d: RunDir, pid: int, oracle: Oracle): RunDir
    requires pid in d.pcs && pid in d.lock.machine.starts
  {
    match d.pcs[pid]
    case Idle => Begin(d, pid, oracle)
    case Intending(state, intent) => To(d, pid, Marking(state)).(intent := Some(intent))
    case Marking(state) => To(d, pid, Idle).(state := state.(status := Cancelling))
    case Killing => if oracle.KillReports? then To(d, pid, Locking(oracle.verified)) else d
    case Locking(verified) => TryLock(d, pid, Rechecking(verified))
    case Rechecking(verified) =>
      To(d, pid, if AlreadyResolved(d.journal).Some? then Releasing else ReadingIntent(verified))
    case ReadingIntent(verified) => To(d, pid, Auditing(RequestedBy(d.intent), ThenCancel(verified)))
    case Auditing(line, next) => To(d, pid, Journaling(line, next)).(audit := d.audit + [line])
    case Journaling(line, next) => To(d, pid, AfterAppend(next)).(journal := d.journal + [line])
    case ReadingState(verified) => To(d, pid, WritingState(verified, d.state))
    case WritingState(verified, state) => To(d, pid, Releasing).(state := state.(status := StatusFor(verified)))
    case Releasing => To(d, pid, Idle).(lock := L.Apply(d.lock, L.Release(pid)))
    case Coordinating => Coordinate(d, pid, oracle)
  }

  /** Some process is between its two writes. */
  predicate SomeInFlight(pcs: map<int, Pc>)
  {
    exists pid :: pid in pcs && InFlight(pcs[pid])
  }

  function One(b: bool): nat
  {
    if b then 1 else 0
  }

  /** What one action does; an action that cannot happen changes nothing. */
  function Apply(d: RunDir, action: Action): RunDir
  {
    match action
    case Spawn(pid, start) =>
      if pid in d.lock.machine.starts || start == L.UNREADABLE then d
      else To(d, pid, Idle).(lock := L.Apply(d.lock, L.Spawn(pid, start)))
    case Die(pid) =>
      d.(lock := L.Apply(d.lock, L.Die(pid)), pcs := d.pcs - {pid},
         tornAppends := d.tornAppends + One(pid in d.pcs && InFlight(d.pcs[pid])))
    case DieAcquiring(pid) =>
      if pid in d.pcs && (d.pcs[pid].Locking? || d.pcs[pid].Idle?) then
        d.(lock := L.Apply(d.lock, L.DieAcquiring(pid, {})), pcs := d.pcs - {pid})
      else d
    case Reboot(bootId) =>
      d.(lock := L.Apply(d.lock, L.Reboot(bootId)), pcs := map[],
         tornAppends := d.tornAppends + One(SomeInFlight(d.pcs)))
    case Advance(pid, oracle) =>
      if pid in d.pcs && pid in d.lock.machine.starts then Access(d, pid, oracle) else d
  }

  function Run(d: RunDir, actions: seq<Action>): RunDir
  {
    if actions == [] then d else Apply(Run(d, actions[..|actions| - 1]), actions[|actions| - 1])
  }

  // ---------------------------------------------------------------- the journal, read as a whole

  predicate HasCancel(journal: seq<Line>)
  {
    exists i :: 0 <= i < |journal| && journal[i].CancelLine?
  }

  lemma {:induction false} ResolvedIffCancelled(journal: seq<Line>)
    ensures AlreadyResolved(journal).Some? <==> HasCancel(journal)
    ensures forall v :: AlreadyResolved(journal) == Some(v) ==> CancelLine(v) in journal
  {
    if journal != [] {
      ResolvedIffCancelled(journal[1..]);
      if HasCancel(journal) && !journal[0].CancelLine? {
        var i :| 0 <= i < |journal| && journal[i].CancelLine?;
        assert journal[1..][i - 1].CancelLine?;
      }
      if HasCancel(journal[1..]) {
        var i :| 0 <= i < |journal| - 1 && journal[1..][i].CancelLine?;
        assert journal[i + 1].CancelLine?;
      }
    }
  }

  /** At most one CancelLine, and a CancelRequestedLine before it. */
  ghost predicate OneCancelAfterItsRequest(journal: seq<Line>)
  {
    && (forall i, j :: 0 <= i < |journal| && 0 <= j < |journal| && journal[i].CancelLine? && journal[j].CancelLine? ==>
          i == j)
    && (forall i :: 0 <= i < |journal| && journal[i].CancelLine? ==>
          exists k :: 0 <= k < i && journal[k].CancelRequestedLine?)
  }

  /** xs can be read off ys by leaving lines out. */
  predicate Subsequence(xs: seq<Line>, ys: seq<Line>)
  {
    if xs == [] then true
    else if ys == [] then false
    else if xs[|xs| - 1] == ys[|ys| - 1] && Subsequence(xs[..|xs| - 1], ys[..|ys| - 1]) then true
    else Subsequence(xs, ys[..|ys| - 1])
  }

  lemma SubsequenceToLast(xs: seq<Line>, ys: seq<Line>)
    requires ys != [] && Subsequence(xs, ys[..|ys| - 1])
    ensures Subsequence(xs, ys) && Subsequence(xs + [ys[|ys| - 1]], ys)
  {
    assert (xs + [ys[|ys| - 1]])[..|xs|] == xs;
  }

  // ---------------------------------------------------------------- what every run keeps

  /** Processes, their positions and the lock agree: only a token holder is inside the locked section. */
  ghost predicate LockKept(d: RunDir)
  {
    && L.Consistent(d.lock)
    && d.pcs.Keys == d.lock.machine.starts.Keys
    && (forall pid :: pid in d.pcs && HoldsLock(d.pcs[pid]) ==> pid in d.lock.tokens)
  }

  lemma OneInside(d: RunDir, p: int, q: int)
    requires LockKept(d) && p in d.pcs && q in d.pcs && HoldsLock(d.pcs[p]) && HoldsLock(d.pcs[q])
    ensures p == q
  {
    L.ConsistentExcludes(d.lock);
  }

  /** The lock is left alone, tried for, or given up; only then does whether pid is inside change. */
  predicate LockMove(d: RunDir, next: RunDir, pid: int)
    requires pid in d.pcs && pid in d.lock.machine.starts
  {
    && next.pcs.Keys == d.pcs.Keys && (forall p :: p in d.pcs && p != pid ==> next.pcs[p] == d.pcs[p])
    && ((next.lock == d.lock && (HoldsLock(next.pcs[pid]) ==> HoldsLock(d.pcs[pid])))
        || (next.lock == L.Apply(d.lock, L.Acquire(pid, d.lock.machine.starts[pid], {}))
            && (HoldsLock(next.pcs[pid]) ==> pid in next.lock.tokens))
        || (next.lock == L.Apply(d.lock, L.Release(pid)) && !HoldsLock(next.pcs[pid])))
  }

  lemma TryLockMoves(d: RunDir, pid: int, pc: Pc)
    requires pid in d.pcs && pid in d.lock.machine.starts
    ensures LockMove(d, TryLock(d, pid, pc), pid)
  {
  }

  lemma BeginMoves(d: RunDir, pid: int, oracle: Oracle)
    requires pid in d.pcs && pid in d.lock.machine.starts
    ensures LockMove(d, Begin(d, pid, oracle), pid)
  {
    TryLockMoves(d, pid, Coordinating);
  }

  lemma CoordinateMoves(d: RunDir, pid: int, oracle: Oracle)
    requires pid in d.pcs && pid in d.lock.machine.starts && d.pcs[pid].Coordinating?
    ensures LockMove(d, Coordinate(d, pid, oracle), pid)
  {
  }

  lemma AccessMoves(d: RunDir, pid: int, oracle: Oracle)
    requires pid in d.pcs && pid in d.lock.machine.starts
    ensures LockMove(d, Access(d, pid, oracle), pid)
  {
    match d.pcs[pid]
    case Idle => BeginMoves(d, pid, oracle);
    case Locking(verified) => TryLockMoves(d, pid, Rechecking(verified));
    case Coordinating => CoordinateMoves(d, pid, oracle);
    case _ =>
  }

  lemma AccessKeepsLock(d: RunDir, pid: int, oracle: Oracle)
    requires LockKept(d) && pid in d.pcs
    ensures LockKept(Access(d, pid, oracle))
  {
    L.StepKeepsConsistent(d.lock, L.Acquire(pid, d.lock.machine.starts[pid], {}));
    L.StepKeepsConsistent(d.lock, L.Release(pid));
    AccessMoves(d, pid, oracle);
  }

  lemma StepKeepsLock(d: RunDir, action: Action)
    requires LockKept(d)
    ensures LockKept(Apply(d, action))
  {
    match action
    case Spawn(pid, start) => L.StepKeepsConsistent(d.lock, L.Spawn(pid, start));
    case Die(pid) => L.StepKeepsConsistent(d.lock, L.Die(pid));
    case DieAcquiring(pid) => L.StepKeepsConsistent(d.lock, L.DieAcquiring(pid, {}));
    case Reboot(bootId) => L.StepKeepsConsistent(d.lock, L.Reboot(bootId));
    case Advance(pid, oracle) =>
      if pid in d.pcs {
        AccessKeepsLock(d, pid, oracle);
      }
  }

  /** What a process inside the locked section relies on about the journal. */
  ghost predicate RelyHolds(pc: Pc, journal: seq<Line>)
  {
    match pc
    case ReadingIntent(_) => !HasCancel(journal)
    case Auditing(line, next) => LineRely(line, next, journal)
    case Journaling(line, next) => LineRely(line, next, journal)
    case ReadingState(verified) => CancelLine(verified) in journal
    case WritingState(verified, _) => CancelLine(verified) in journal
    case Intending(state, _) => state.status != Cancelled
    case Marking(state) => state.status != Cancelled
    case _ => true
  }

  ghost predicate LineRely(line: Line, next: AfterLine, journal: seq<Line>)
  {
    match next
    case ThenCancel(_) => !HasCancel(journal) && line.CancelRequestedLine?
    case ThenState(verified) =>
      !HasCancel(journal) && line == CancelLine(verified) &&
      exists k :: 0 <= k < |journal| && journal[k].CancelRequestedLine?
    case ThenCoordinate => !line.CancelLine?
  }

  ghost predicate CancelKept(d: RunDir)
  {
    && OneCancelAfterItsRequest(d.journal)
    && (d.state.status == Cancelled ==> CancelLine(true) in d.journal)
    && (forall pid :: pid in d.pcs ==> RelyHolds(d.pcs[pid], d.journal))
  }

  /** A longer journal without a further cancel keeps what every other process relies on. */
  lemma RelySurvives(d: RunDir, pid: int, other: int, line: Line)
    requires LockKept(d) && CancelKept(d) && pid in d.pcs && other in d.pcs && pid != other
    requires HoldsLock(d.pcs[pid])
    ensures RelyHolds(d.pcs[other], d.journal + [line])
  {
    if HoldsLock(d.pcs[other]) {
      OneInside(d, pid, other);
    }
  }

  /** The one step that grows the journal. */
  lemma JournalingKeepsCancel(d: RunDir, pid: int)
    requires LockKept(d) && CancelKept(d) && pid in d.pcs && d.pcs[pid].Journaling? && pid in d.lock.machine.starts
    ensures CancelKept(Access(d, pid, Go))
  {
    var line, next := d.pcs[pid].line, d.pcs[pid].next;
    var journal := d.journal + [line];
    forall i | 0 <= i < |journal| && journal[i].CancelLine?
      ensures exists k :: 0 <= k < i && journal[k].CancelRequestedLine?
    {
      if i < |d.journal| {
        var k :| 0 <= k < i && d.journal[k].CancelRequestedLine?;
        assert journal[k].CancelRequestedLine?;
      } else {
        var k :| 0 <= k < |d.journal| && d.journal[k].CancelRequestedLine?;
        assert journal[k].CancelRequestedLine?;
      }
    }
    forall i, j | 0 <= i < |journal| && 0 <= j < |journal| && journal[i].CancelLine? && journal[j].CancelLine?
      ensures i == j
    {
      assert i < |d.journal| ==> d.journal[i].CancelLine?;
      assert j < |d.journal| ==> d.journal[j].CancelLine?;
    }
    assert forall x :: x in d.journal ==> x in journal;
    assert journal[|d.journal|] == line;
    forall other | other in d.pcs && other != pid ensures RelyHolds(d.pcs[other], journal) {
      RelySurvives(d, pid, other, line);
    }
    if next.ThenCancel? {
      forall i | 0 <= i < |journal| ensures !journal[i].CancelLine? {
        assert i < |d.journal| ==> !d.journal[i].CancelLine?;
      }
    }
    assert RelyHolds(AfterAppend(next), journal);
  }

  /** A step of pid that leaves the journal alone keeps the invariant if its own position and state.json do. */
  lemma QuietStepKeepsCancel(d: RunDir, after: RunDir, pid: int)
    requires CancelKept(d) && after.journal == d.journal
    requires after.pcs.Keys == d.pcs.Keys && (forall p :: p in d.pcs && p != pid ==> after.pcs[p] == d.pcs[p])
    requires pid in after.pcs ==> RelyHolds(after.pcs[pid], d.journal)
    requires after.state.status == Cancelled ==> CancelLine(true) in d.journal
    ensures CancelKept(after)
  {
  }

  lemma AccessIsLocal(d: RunDir, pid: int, oracle: Oracle)
    requires pid in d.pcs && pid in d.lock.machine.starts && !d.pcs[pid].Journaling?
    ensures var after := Access(d, pid, oracle);
      && after.journal == d.journal && after.pcs.Keys == d.pcs.Keys
      && (forall p :: p in d.pcs && p != pid ==> after.pcs[p] == d.pcs[p])
  {
  }

  lemma AccessEstablishesRely(d: RunDir, pid: int, oracle: Oracle)
    requires pid in d.pcs && pid in d.lock.machine.starts && !d.pcs[pid].Journaling?
    requires RelyHolds(d.pcs[pid], d.journal)
    ensures RelyHolds(Access(d, pid, oracle).pcs[pid], d.journal)
  {
    ResolvedIffCancelled(d.journal);
  }

  lemma AccessKeepsState(d: RunDir, pid: int, oracle: Oracle)
    requires pid in d.pcs && pid in d.lock.machine.starts && !d.pcs[pid].Journaling?
    requires RelyHolds(d.pcs[pid], d.journal)
    requires d.state.status == Cancelled ==> CancelLine(true) in d.journal
    ensures Access(d, pid, oracle).state.status == Cancelled ==> CancelLine(true) in d.journal
  {
  }

  lemma AccessKeepsCancel(d: RunDir, pid: int, oracle: Oracle)
    requires LockKept(d) && CancelKept(d) && pid in d.pcs && pid in d.lock.machine.starts
    ensures CancelKept(Access(d, pid, oracle))
  {
    assert RelyHolds(d.pcs[pid], d.journal);
    if d.pcs[pid].Journaling? {
      JournalingKeepsCancel(d, pid);
    } else {
      AccessIsLocal(d, pid, oracle);
      AccessEstablishesRely(d, pid, oracle);
      AccessKeepsState(d, pid, oracle);
      QuietStepKeepsCancel(d, Access(d, pid, oracle), pid);
    }
  }

  lemma StepKeepsCancel(d: RunDir, action: Action)
    requires LockKept(d) && CancelKept(d)
    ensures CancelKept(Apply(d, action))
  {
    if action.Advance? {
      if action.pid in d.pcs && action.pid in d.lock.machine.starts {
        AccessKeepsCancel(d, action.pid, action.oracle);
      }
    } else {
      var after := Apply(d, action);
      assert after.journal == d.journal && after.state == d.state;
      forall p | p in after.pcs ensures RelyHolds(after.pcs[p], after.journal) {
        assert (p in d.pcs && after.pcs[p] == d.pcs[p]) || after.pcs[p] == Idle;
      }
    }
  }

  /** The audit copy is the journal, plus as many cut-short lines, plus the line in flight. */
  ghost predicate AuditShape(journal: seq<Line>, audit: seq<Line>, torn: nat, flying: Option<Line>)
  {
    match flying
    case None => Subsequence(journal, audit) && |audit| == |journal| + torn
    case Some(line) =>
      && audit != [] && audit[|audit| - 1] == line
      && Subsequence(journal, audit[..|audit| - 1]) && |audit| - 1 == |journal| + torn
  }

  ghost predicate AuditKept(d: RunDir)
  {
    && (!SomeInFlight(d.pcs) ==> AuditShape(d.journal, d.audit, d.tornAppends, None))
    && (forall pid :: pid in d.pcs && InFlight(d.pcs[pid]) ==>
          AuditShape(d.journal, d.audit, d.tornAppends, Some(d.pcs[pid].line)))
  }

  /** Only the process inside the locked section can be between its two writes. */
  lemma OnlyInFlight(d: RunDir, pid: int)
    requires LockKept(d) && pid in d.pcs && HoldsLock(d.pcs[pid])
    ensures forall p :: p in d.pcs && InFlight(d.pcs[p]) ==> p == pid
    ensures SomeInFlight(d.pcs) <==> InFlight(d.pcs[pid])
  {
    forall p | p in d.pcs && InFlight(d.pcs[p]) ensures p == pid {
      OneInside(d, p, pid);
    }
  }

  /** The two writes of an append, and a death between them, as they change the two files. */
  lemma AppendShapes(journal: seq<Line>, audit: seq<Line>, torn: nat, line: Line)
    ensures AuditShape(journal, audit, torn, None) ==> AuditShape(journal, audit + [line], torn, Some(line))
    ensures AuditShape(journal, audit, torn, Some(line)) ==> AuditShape(journal + [line], audit, torn, None)
    ensures AuditShape(journal, audit, torn, Some(line)) ==> AuditShape(journal, audit, torn + 1, None)
  {
    assert (audit + [line])[..|audit|] == audit;
    if AuditShape(journal, audit, torn, Some(line)) {
      WrittenAndTornShapes(journal, audit, torn, line);
    }
  }

  lemma WrittenAndTornShapes(journal: seq<Line>, audit: seq<Line>, torn: nat, line: Line)
    requires AuditShape(journal, audit, torn, Some(line))
    ensures AuditShape(journal + [line], audit, torn, None) && AuditShape(journal, audit, torn + 1, None)
  {
    SubsequenceToLast(journal, audit);
  }

  /** A process outside its appends leaves both files as they are. */
  lemma OtherAccessKeepsAudit(d: RunDir, pid: int, oracle: Oracle)
    requires AuditKept(d) && pid in d.pcs && pid in d.lock.machine.starts
    requires !d.pcs[pid].Auditing? && !d.pcs[pid].Journaling?
    ensures AuditKept(Access(d, pid, oracle))
  {
    var after := Access(d, pid, oracle);
    AccessIsLocal(d, pid, oracle);
    assert after.audit == d.audit && after.tornAppends == d.tornAppends && !InFlight(after.pcs[pid]);
    if SomeInFlight(d.pcs) {
      var p :| p in d.pcs && InFlight(d.pcs[p]);
      assert InFlight(after.pcs[p]);
    }
  }

  lemma AuditingKeepsAudit(d: RunDir, pid: int)
    requires LockKept(d) && AuditKept(d) && pid in d.pcs && pid in d.lock.machine.starts && d.pcs[pid].Auditing?
    ensures AuditKept(Access(d, pid, Go))
  {
    var after := Access(d, pid, Go);
    OnlyInFlight(d, pid);
    AppendShapes(d.journal, d.audit, d.tornAppends, d.pcs[pid].line);
    assert InFlight(after.pcs[pid]);
    forall p | p in after.pcs && p != pid ensures !InFlight(after.pcs[p]) {
      assert after.pcs[p] == d.pcs[p];
    }
  }

  lemma JournalingKeepsAudit(d: RunDir, pid: int)
    requires LockKept(d) && AuditKept(d) && pid in d.pcs && pid in d.lock.machine.starts && d.pcs[pid].Journaling?
    ensures AuditKept(Access(d, pid, Go))
  {
    var after := Access(d, pid, Go);
    OnlyInFlight(d, pid);
    AppendShapes(d.journal, d.audit, d.tornAppends, d.pcs[pid].line);
    forall p | p in after.pcs ensures !InFlight(after.pcs[p]) {
      assert p != pid ==> after.pcs[p] == d.pcs[p];
    }
  }

  /** A death between the two writes leaves one more line in the audit copy only. */
  lemma DeathKeepsAudit(d: RunDir, after: RunDir)
    requires LockKept(d) && AuditKept(d) && after.journal == d.journal && after.audit == d.audit
    requires forall p :: p in after.pcs ==> p in d.pcs && after.pcs[p] == d.pcs[p]
    requires after.tornAppends == d.tornAppends + One(SomeInFlight(d.pcs) && !SomeInFlight(after.pcs))
    ensures AuditKept(after)
  {
    if SomeInFlight(d.pcs) {
      var p :| p in d.pcs && InFlight(d.pcs[p]);
      AppendShapes(d.journal, d.audit, d.tornAppends, d.pcs[p].line);
    }
  }

  lemma StepKeepsAudit(d: RunDir, action: Action)
    requires LockKept(d) && AuditKept(d)
    ensures AuditKept(Apply(d, action))
  {
    var after := Apply(d, action);
    match action
    case Advance(pid, oracle) =>
      if pid in d.pcs && pid in d.lock.machine.starts {
        if d.pcs[pid].Auditing? {
          AuditingKeepsAudit(d, pid);
        } else if d.pcs[pid].Journaling? {
          JournalingKeepsAudit(d, pid);
        } else {
          OtherAccessKeepsAudit(d, pid, oracle);
        }
      }
    case Spawn(pid, start) =>
      forall p | p in d.pcs ensures p in after.pcs && after.pcs[p] == d.pcs[p] {
      }
      forall p | p in after.pcs && InFlight(after.pcs[p]) ensures p in d.pcs && after.pcs[p] == d.pcs[p] {
      }
    case Die(pid) =>
      if pid in d.pcs && InFlight(d.pcs[pid]) {
        OnlyInFlight(d, pid);
        assert SomeInFlight(d.pcs) && !SomeInFlight(after.pcs);
      } else if SomeInFlight(d.pcs) {
        var p :| p in d.pcs && InFlight(d.pcs[p]);
        assert InFlight(after.pcs[p]);
      }
      DeathKeepsAudit(d, after);
    case DieAcquiring(pid) =>
      if pid in d.pcs && (d.pcs[pid].Locking? || d.pcs[pid].Idle?) {
        if SomeInFlight(d.pcs) {
          var p :| p in d.pcs && InFlight(d.pcs[p]);
          assert InFlight(after.pcs[p]);
        }
        DeathKeepsAudit(d, after);
      }
    case Reboot(bootId) => DeathKeepsAudit(d, after);
  }

  // ---------------------------------------------------------------- over every run

  /** A run directory nobody has cancelled and nobody is working in yet. */
  ghost predicate Fresh(d: RunDir)
  {
    && d.lock.tokens == map[] && d.lock.machine.starts == map[] && d.pcs == map[]
    && d.state.status != Cancelled && !HasCancel(d.journal)
    && d.audit == d.journal && d.tornAppends == 0
  }

  lemma {:induction false} SubsequenceReflexive(xs: seq<Line>)
    ensures Subsequence(xs, xs)
  {
    if xs != [] {
      SubsequenceReflexive(xs[..|xs| - 1]);
    }
  }

  lemma {:induction false} EveryRunKeeps(d: RunDir, actions: seq<Action>)
    requires Fresh(d)
    ensures var now := Run(d, actions); LockKept(now) && CancelKept(now) && AuditKept(now)
  {
    if actions == [] {
      SubsequenceReflexive(d.journal);
    } else {
      var before := Run(d, actions[..|actions| - 1]);
      var action := actions[|actions| - 1];
      EveryRunKeeps(d, actions[..|actions| - 1]);
      StepKeepsLock(before, action);
      StepKeepsCancel(before, action);
      StepKeepsAudit(before, action);
    }
  }

  /**
    Over every interleaving of requests, resolutions and coordinators, with deaths and
    reboots anywhere: at most one CancelLine, its request before it, and state.json says
    CANCELLED only if that line says verified.
   */
  lemma CancelIsRecordedOnce(d: RunDir, actions: seq<Action>)
    requires Fresh(d)
    ensures var now := Run(d, actions);
      && OneCancelAfterItsRequest(now.journal)
      && (now.state.status == Cancelled ==> AlreadyResolved(now.journal) == Some(true))
  {
    EveryRunKeeps(d, actions);
    var now := Run(d, actions);
    ResolvedIffCancelled(now.journal);
    if now.state.status == Cancelled {
      var i :| 0 <= i < |now.journal| && now.journal[i] == CancelLine(true);
      var v := AlreadyResolved(now.journal).value;
      var j :| 0 <= j < |now.journal| && now.journal[j] == CancelLine(v);
      assert now.journal[i].CancelLine? && now.journal[j].CancelLine?;
    }
  }

  /**
    The audit copy always holds the journal's lines in order, and is longer by exactly
    the appends that a death cut short plus the one in flight.
   */
  lemma AuditIsNeverBehind(d: RunDir, actions: seq<Action>)
    requires Fresh(d)
    ensures var now := Run(d, actions);
      && Subsequence(now.journal, now.audit)
      && |now.audit| == |now.journal| + now.tornAppends + One(SomeInFlight(now.pcs))
  {
    EveryRunKeeps(d, actions);
    var now := Run(d, actions);
    if SomeInFlight(now.pcs) {
      var p :| p in now.pcs && InFlight(now.pcs[p]);
      ShapeIsSubsequence(now.journal, now.audit, now.tornAppends, now.pcs[p].line);
    }
  }

  lemma ShapeIsSubsequence(journal: seq<Line>, audit: seq<Line>, torn: nat, line: Line)
    requires AuditShape(journal, audit, torn, Some(line))
    ensures Subsequence(journal, audit)
  {
    SubsequenceToLast(journal, audit);
    assert audit == audit[..|audit| - 1] + [line];
  }

  /** Whatever is done next, both files keep every line they had, in place. */
  lemma {:induction false} JournalOnlyGrows(d: RunDir, actions: seq<Action>)
    ensures d.journal <= Run(d, actions).journal && d.audit <= Run(d, actions).audit
  {
    if actions != [] {
      JournalOnlyGrows(d, actions[..|actions| - 1]);
      StepOnlyAppends(Run(d, actions[..|actions| - 1]), actions[|actions| - 1]);
    }
  }

  lemma StepOnlyAppends(d: RunDir, action: Action)
    ensures d.journal <= Apply(d, action).journal && d.audit <= Apply(d, action).audit
  {
  }

  /** Without one writer at a time the order can differ: each of two appends half done before the other. */
  lemma TwoWritersCanDisagree(x: Line, y: Line)
    requires x != y
    ensures !Subsequence([] + [y] + [x], [] + [x] + [y])
  {
    var journal, audit := [y, x], [x, y];
    assert journal == [] + [y] + [x] && audit == [] + [x] + [y];
    assert audit[..1] == [x] && journal[..1] == [y] && [x][..0] == [];
    assert !Subsequence(journal, []) && !Subsequence(journal[..1], []);
    assert !Subsequence(journal, [x]);
  }

  // ---------------------------------------------------------------- the calls, run without interruption

  /** A unit of the user manager, which any process can ask about, or processes only their starter tracks. */
  datatype ScopeKind = SystemdUnit | InMemory

  /** What the manager says of the unit. */
  datatype UnitState = UnitActive | UnitActivating | UnitDeactivating | UnitInactive | UnitFailed

  /** The scope at one moment: what the manager says, and the processes that are in it. */
  datatype Moment = Moment(unit: UnitState, procs: set<int>)

  /** The processes are read until there are none or the poll budget is spent, and once more after that. */
  method PollUntilEmpty(polls: seq<Moment>) returns (empty: bool)
    requires polls != []
    ensures empty <==> exists i :: 0 <= i < |polls| && polls[i].procs == {}
  {
    for i := 0 to |polls| - 1
      invariant forall j :: 0 <= j < i ==> polls[j].procs != {}
    {
      if polls[i].procs == {} {
        return true;
      }
    }
    return polls[|polls| - 1].procs == {};
  }

  /** Asks the manager once; only a unit it calls active is stopped and polled. */
  method KillScope(kind: ScopeKind, asked: Moment, polls: seq<Moment>) returns (verified: bool)
    requires polls != []
    ensures verified <==>
      kind == SystemdUnit && (asked.unit != UnitActive || exists i :: 0 <= i < |polls| && polls[i].procs == {})
  {
    if kind != SystemdUnit {
      return false;
    }
    if asked.unit != UnitActive {
      return true;
    }
    verified := PollUntilEmpty(polls);
  }

  datatype CancelOutcome = CancelOutcome(status: RunStatus, verified: bool)

  /** The journal over two append-only files. */
  class JsonlJournal {
    var journal: seq<Line>
    var audit: seq<Line>

    /** The audit copy first, then the journal. */
    method Append(line: Line)
      modifies this
      ensures audit == old(audit) + [line] && journal == old(journal) + [line]
    {
      audit := audit + [line];
      journal := journal + [line];
    }
  }

  class RunDirectory {
    const files: JsonlJournal
    const lock: L.FileRunLock
    var state: RunState
    var intent: Option<Intent>

    constructor (files: JsonlJournal, lock: L.FileRunLock, state: RunState)
      ensures this.files == files && this.lock == lock && this.state == state && intent == None
    {
      this.files, this.lock, this.state, this.intent := files, lock, state, None;
    }

    /** Write the intent and mark the run cancelling, once; a finished run is refused. */
    method RequestCancel(request: Intent) returns (outcome: Result<CancelOutcome, RunStatus>)
      modifies this
      ensures old(state.status) in {Done, Failed} ==>
        outcome == Raised(old(state.status)) && state == old(state) && intent == old(intent)
      ensures old(state.status) in {Cancelling, Cancelled} ==>
        outcome == Ok(CancelOutcome(old(state.status), old(state.status) == Cancelled)) &&
        state == old(state) && intent == old(intent)
      ensures old(state.status) in {Running, Suspended, Crashed} ==>
        outcome == Ok(CancelOutcome(Cancelling, false)) &&
        state == old(state).(status := Cancelling) && intent == Some(request)
    {
      var read := state;
      if read.status in {Done, Failed} {
        return Raised(read.status);
      }
      if read.status in {Cancelling, Cancelled} {
        return Ok(CancelOutcome(read.status, read.status == Cancelled));
      }
      intent := Some(request);
      state := read.(status := Cancelling);
      return Ok(CancelOutcome(Cancelling, false));
    }

    /**
      Kill the scope and, if the lock is free, journal the outcome once. The scope is asked
      about at one moment and, once stopped, its processes are read at the later ones.
     */
    method ResolveCancel(kind: ScopeKind, asked: Moment, polls: seq<Moment>, m: L.Machine, holder: L.Holder)
      returns (outcome: CancelOutcome)
      requires polls != []
      modifies this, files, lock
      ensures intent == old(intent)
      ensures HasCancel(old(files.journal)) ==>
        && files.journal == old(files.journal) && files.audit == old(files.audit)
        && state == old(state) && lock.file == old(lock.file)
        && CancelLine(outcome.verified) in files.journal
        && outcome.status == if outcome.verified then Cancelled else Cancelling
      ensures !HasCancel(old(files.journal)) && L.Blocks(old(lock.file), m, {}) ==>
        && outcome == CancelOutcome(Cancelling, false)
        && files.journal == old(files.journal) && files.audit == old(files.audit)
        && state == old(state) && lock.file == old(lock.file)
      ensures !HasCancel(old(files.journal)) && !L.Blocks(old(lock.file), m, {}) ==>
        && outcome.status == (if outcome.verified then Cancelled else Cancelling)
        && files.journal == old(files.journal) + [RequestedBy(intent), CancelLine(outcome.verified)]
        && files.audit == old(files.audit) + [RequestedBy(intent), CancelLine(outcome.verified)]
        && state == old(state).(status := outcome.status) && lock.file == L.Missing
      ensures !HasCancel(old(files.journal)) && !L.Blocks(old(lock.file), m, {}) ==>
        (outcome.verified <==>
           kind == SystemdUnit && (asked.unit != UnitActive || exists i :: 0 <= i < |polls| && polls[i].procs == {}))
    {
      ResolvedIffCancelled(files.journal);
      var already := AlreadyResolved(files.journal);
      if already.Some? {
        return CancelOutcome(StatusFor(already.value), already.value);
      }
      var verified := KillScope(kind, asked, polls);
      var acquired := lock.Acquire(m, {}, holder);
      if !acquired {
        return CancelOutcome(Cancelling, false);
      }
      if AlreadyResolved(files.journal).None? {
        JournalCancel(verified);
      }
      lock.Release(holder);
      return CancelOutcome(StatusFor(verified), verified);
    }

    method JournalCancel(verified: bool)
      modifies this`state, files
      ensures files.journal == old(files.journal) + [RequestedBy(intent), CancelLine(verified)]
      ensures files.audit == old(files.audit) + [RequestedBy(intent), CancelLine(verified)]
      ensures state == old(state).(status := StatusFor(verified))
    {
      files.Append(RequestedBy(intent));
      files.Append(CancelLine(verified));
      var read := state;
      state := read.(status := StatusFor(verified));
    }
  }

  /** Process pid carrying on for n file accesses with nobody else stepping. */
  function GoOn(d: RunDir, pid: int, n: nat): RunDir
    decreases n
  {
    if n == 0 then d else GoOn(Apply(d, Advance(pid, Go)), pid, n - 1)
  }

  /** A resolution up to where it has the lock and has seen no cancel. */
  function LockedIn(d: RunDir, pid: int, verified: bool): RunDir
  {
    GoOn(Apply(Apply(d, Advance(pid, StartResolve)), Advance(pid, KillReports(verified))), pid, 2)
  }

  ghost predicate MayResolve(d: RunDir, pid: int)
  {
    && LockKept(d) && pid in d.pcs && d.pcs[pid] == Idle && d.lock.machine.starts[pid] != L.UNREADABLE
    && !HasCancel(d.journal) && !L.Blocks(d.lock.file, d.lock.machine, {})
  }

  lemma LocksIn(d: RunDir, pid: int, verified: bool)
    requires MayResolve(d, pid)
    ensures var now := LockedIn(d, pid, verified);
      && pid in now.pcs && now.pcs[pid] == ReadingIntent(verified) && pid in now.lock.machine.starts
      && pid in now.lock.tokens && now.lock.file == L.Held(now.lock.tokens[pid])
      && now.journal == d.journal && now.audit == d.audit && now.state == d.state && now.intent == d.intent
  {
    ResolvedIffCancelled(d.journal);
    var d1 := Apply(d, Advance(pid, StartResolve));
    assert d1.pcs[pid] == Killing;
    var d2 := Apply(d1, Advance(pid, KillReports(verified)));
    assert d2.pcs[pid] == Locking(verified) && d2.lock == d.lock;
    var d3 := Apply(d2, Advance(pid, Go));
    assert d3.pcs[pid] == Rechecking(verified);
    var d4 := Apply(d3, Advance(pid, Go));
    assert GoOn(d2, pid, 2) == GoOn(d3, pid, 1) == GoOn(d4, pid, 0) == d4;
  }

  lemma {:induction false} GoOnSplits(d: RunDir, pid: int, m: nat, n: nat)
    ensures GoOn(d, pid, m + n) == GoOn(GoOn(d, pid, m), pid, n)
    decreases m
  {
    if m > 0 {
      GoOnSplits(Apply(d, Advance(pid, Go)), pid, m - 1, n);
    }
  }

  /** One append: two file accesses, one per file. */
  lemma JournalsOne(d: RunDir, pid: int, line: Line, next: AfterLine)
    requires pid in d.pcs && d.pcs[pid] == Auditing(line, next) && pid in d.lock.machine.starts
    ensures GoOn(d, pid, 2) ==
      d.(pcs := d.pcs[pid := AfterAppend(next)], journal := d.journal + [line], audit := d.audit + [line])
  {
    TwoAccesses(d, pid);
    var d1 := Apply(d, Advance(pid, Go));
    assert d1 == d.(pcs := d.pcs[pid := Journaling(line, next)], audit := d.audit + [line]);
    assert d1.pcs[pid := AfterAppend(next)] == d.pcs[pid := AfterAppend(next)];
  }

  lemma TwoAccesses(d: RunDir, pid: int)
    ensures GoOn(d, pid, 2) == Apply(Apply(d, Advance(pid, Go)), Advance(pid, Go))
  {
    var d1 := Apply(d, Advance(pid, Go));
    assert GoOn(d, pid, 2) == GoOn(d1, pid, 1);
    assert GoOn(d1, pid, 1) == GoOn(Apply(d1, Advance(pid, Go)), pid, 0);
  }

  /** Reading the intent and both appends: five file accesses. */
  lemma JournalsBoth(d: RunDir, pid: int, verified: bool)
    requires pid in d.pcs && d.pcs[pid] == ReadingIntent(verified) && pid in d.lock.machine.starts
    ensures GoOn(d, pid, 5) ==
      d.(pcs := d.pcs[pid := ReadingState(verified)],
         journal := d.journal + [RequestedBy(d.intent), CancelLine(verified)],
         audit := d.audit + [RequestedBy(d.intent), CancelLine(verified)])
  {
    var request, cancel := RequestedBy(d.intent), CancelLine(verified);
    var d1 := Apply(d, Advance(pid, Go));
    FiveAccesses(d, pid);
    assert d1 == d.(pcs := d.pcs[pid := Auditing(request, ThenCancel(verified))]);
    JournalsOne(d1, pid, request, ThenCancel(verified));
    JournalsOne(GoOn(d1, pid, 2), pid, cancel, ThenState(verified));
    assert d.journal + [request] + [cancel] == d.journal + [request, cancel];
    assert d.audit + [request] + [cancel] == d.audit + [request, cancel];
  }

  lemma FiveAccesses(d: RunDir, pid: int)
    ensures GoOn(d, pid, 5) == GoOn(GoOn(Apply(d, Advance(pid, Go)), pid, 2), pid, 2)
  {
    assert GoOn(d, pid, 5) == GoOn(Apply(d, Advance(pid, Go)), pid, 4);
    GoOnSplits(Apply(d, Advance(pid, Go)), pid, 2, 2);
  }

  /** The state update and the release, three file accesses on. */
  lemma FinishesUp(d: RunDir, pid: int, verified: bool)
    requires pid in d.pcs && d.pcs[pid] == ReadingState(verified) && pid in d.lock.machine.starts
    ensures GoOn(d, pid, 3) ==
      d.(pcs := d.pcs[pid := Idle], state := d.state.(status := StatusFor(verified)),
         lock := L.Apply(d.lock, L.Release(pid)))
  {
    var d1 := Apply(d, Advance(pid, Go));
    assert d1 == d.(pcs := d.pcs[pid := WritingState(verified, d.state)]);
    var d2 := Apply(d1, Advance(pid, Go));
    assert d2 == d.(pcs := d.pcs[pid := Releasing], state := d.state.(status := StatusFor(verified)));
    var d3 := Apply(d2, Advance(pid, Go));
    assert GoOn(d, pid, 3) == GoOn(d1, pid, 2) == GoOn(d2, pid, 1) == d3;
  }

  /** Uninterrupted, the steps of a resolution leave exactly what the call ResolveCancel promises. */
  lemma UninterruptedStepsAreTheCall(d: RunDir, pid: int, verified: bool)
    requires MayResolve(d, pid)
    ensures var now := GoOn(GoOn(LockedIn(d, pid, verified), pid, 5), pid, 3);
      && now.journal == d.journal + [RequestedBy(d.intent), CancelLine(verified)]
      && now.audit == d.audit + [RequestedBy(d.intent), CancelLine(verified)]
      && now.state == d.state.(status := StatusFor(verified)) && now.intent == d.intent
      && now.lock.file == L.Missing && pid in now.pcs && now.pcs[pid] == Idle
  {
    LocksIn(d, pid, verified);
    JournalsBoth(LockedIn(d, pid, verified), pid, verified);
    FinishesUp(GoOn(LockedIn(d, pid, verified), pid, 5), pid, verified);
  }

  /**
    The converse of the status guarantee fails: a death after the verified line leaves
    state.json as it was, and every later resolution stops at the line already there.
   */
  lemma VerifiedCancelMayStayUnmarked(d: RunDir, pid: int, other: int)
    requires MayResolve(d, pid) && other != pid && other in d.pcs && d.pcs[other] == Idle
    ensures var now := Apply(GoOn(LockedIn(d, pid, true), pid, 5), Die(pid));
      && AlreadyResolved(now.journal) == Some(true) && now.state == d.state
      && Apply(now, Advance(other, StartResolve)) == now
  {
    LocksIn(d, pid, true);
    var d0 := LockedIn(d, pid, true);
    JournalsBoth(d0, pid, true);
    var now := Apply(GoOn(d0, pid, 5), Die(pid));
    assert now.journal[|now.journal| - 1] == CancelLine(true);
    ResolvedIffCancelled(now.journal);
    var v := AlreadyResolved(now.journal).value;
    var i :| 0 <= i < |now.journal| && now.journal[i] == CancelLine(v);
    assert i >= |d.journal|;
    OthersStay(d, pid, other, true);
  }

  /** Other processes stand where they stood while pid goes on alone. */
  lemma OthersStay(d: RunDir, pid: int, other: int, verified: bool)
    requires MayResolve(d, pid) && other != pid && other in d.pcs && d.pcs[other] == Idle
    ensures other in LockedIn(d, pid, verified).pcs && LockedIn(d, pid, verified).pcs[other] == Idle
  {
    LocksIn(d, pid, verified);
    var d2 := Apply(Apply(d, Advance(pid, StartResolve)), Advance(pid, KillReports(verified)));
    var d3 := Apply(d2, Advance(pid, Go));
    assert GoOn(d2, pid, 2) == GoOn(d3, pid, 1) == GoOn(Apply(d3, Advance(pid, Go)), pid, 0);
  }
}
