/**
  What state.json says about a cancel: exactly which events make it disagree with the
  journal for good, and that each of them can happen.
 */
module CancelStatus {
  import opened CancelProtocol
  import opened Wrappers
  import L = RunLock

  /** The process that journaled a verified cancel, before it has written the status. */
  predicate Finishing(pc: Pc)
  {
    (pc.ReadingState? || pc.WritingState?) && pc.verified
  }

  /** The journal says verified, the state does not say CANCELLED, and nobody is about to write it. */
  predicate Unmarked(d: RunDir)
  {
    && CancelLine(true) in d.journal && d.state.status != Cancelled
    && forall pid :: pid in d.pcs ==> !Finishing(d.pcs[pid])
  }

  /**
    The events that lose the status: the journaling process dies before writing it, a
    request that read an older state writes it back, or a coordinator sets another one.
   */
  predicate Unmarks(d: RunDir, action: Action)
  {
    match action
    case Die(pid) => pid in d.pcs && Finishing(d.pcs[pid])
    case Reboot(_) => exists pid :: pid in d.pcs && Finishing(d.pcs[pid])
    case Advance(pid, oracle) =>
      && pid in d.pcs && d.state.status == Cancelled
      && (d.pcs[pid].Marking? || (d.pcs[pid].Coordinating? && oracle.SetState? && oracle.state.status != Cancelled))
    case _ => false
  }

  /** While a process is finishing, the status is still to be written. */
  ghost predicate StatusKept(d: RunDir)
  {
    && LockKept(d) && CancelKept(d)
    && forall pid :: pid in d.pcs && Finishing(d.pcs[pid]) ==> d.state.status != Cancelled
  }

  lemma FinishingIsConfirmed(d: RunDir, pid: int)
    requires CancelKept(d) && pid in d.pcs && Finishing(d.pcs[pid])
    ensures CancelLine(true) in d.journal
  {
    assert RelyHolds(d.pcs[pid], d.journal);
  }

  /** The step after which a process is finishing is the one that journals the verified line. */
  lemma FinishingBegins(d: RunDir, pid: int, oracle: Oracle)
    requires StatusKept(d) && pid in d.pcs && pid in d.lock.machine.starts
    requires !Finishing(d.pcs[pid]) && Finishing(Access(d, pid, oracle).pcs[pid])
    ensures d.pcs[pid].Journaling? && CancelLine(true) !in d.journal && d.state.status != Cancelled
  {
    assert RelyHolds(d.pcs[pid], d.journal);
    ConfirmedHasCancel(d.journal);
  }

  lemma ConfirmedHasCancel(journal: seq<Line>)
    ensures CancelLine(true) in journal ==> HasCancel(journal)
  {
    if CancelLine(true) in journal {
      var i :| 0 <= i < |journal| && journal[i] == CancelLine(true);
      assert journal[i].CancelLine?;
    }
  }

  /** Which accesses touch the status, and how. */
  lemma AccessOnStatus(d: RunDir, pid: int, oracle: Oracle)
    requires pid in d.pcs && pid in d.lock.machine.starts
    ensures var after := Access(d, pid, oracle);
      after.state.status ==
      match d.pcs[pid]
      case Marking(_) => Cancelling
      case WritingState(verified, _) => StatusFor(verified)
      case Coordinating =>
        if oracle.SetState? && oracle.state.status != Cancelled then oracle.state.status else d.state.status
      case _ => d.state.status
  {
  }

  lemma AccessIsFramed(d: RunDir, pid: int, oracle: Oracle)
    requires StatusKept(d) && pid in d.pcs && pid in d.lock.machine.starts
    ensures var after := Access(d, pid, oracle);
      && after.pcs.Keys == d.pcs.Keys && (forall p :: p in d.pcs && p != pid ==> after.pcs[p] == d.pcs[p])
      && d.journal <= after.journal && (!d.pcs[pid].Journaling? ==> after.journal == d.journal)
  {
    if !d.pcs[pid].Journaling? {
      AccessIsLocal(d, pid, oracle);
    }
    StepOnlyAppends(d, Advance(pid, oracle));
  }

  /** A process writes the verified status exactly once, and then no other is finishing. */
  lemma FinishingEnds(d: RunDir, pid: int, oracle: Oracle)
    requires StatusKept(d) && pid in d.pcs && pid in d.lock.machine.starts && Finishing(d.pcs[pid])
    ensures var after := Access(d, pid, oracle);
      && (Finishing(after.pcs[pid]) <==> d.pcs[pid].ReadingState?)
      && (after.state.status == Cancelled <==> d.pcs[pid].WritingState?)
      && forall p :: p in d.pcs && p != pid ==> !Finishing(after.pcs[p])
  {
    AccessIsFramed(d, pid, oracle);
    forall p | p in d.pcs && p != pid ensures !Finishing(d.pcs[p]) {
      if Finishing(d.pcs[p]) {
        OneInside(d, p, pid);
      }
    }
  }

  lemma AccessKeepsStatus(d: RunDir, pid: int, oracle: Oracle)
    requires StatusKept(d) && pid in d.pcs && pid in d.lock.machine.starts
    ensures StatusKept(Access(d, pid, oracle))
  {
    var after := Access(d, pid, oracle);
    AccessKeepsLock(d, pid, oracle);
    AccessKeepsCancel(d, pid, oracle);
    AccessIsFramed(d, pid, oracle);
    AccessOnStatus(d, pid, oracle);
    forall p | p in after.pcs && Finishing(after.pcs[p]) ensures after.state.status != Cancelled {
      if Finishing(d.pcs[pid]) {
        FinishingEnds(d, pid, oracle);
      } else if p == pid {
        FinishingBegins(d, pid, oracle);
      } else {
        assert !d.pcs[pid].WritingState? || !d.pcs[pid].verified;
      }
    }
  }

  lemma StepKeepsStatus(d: RunDir, action: Action)
    requires StatusKept(d)
    ensures StatusKept(Apply(d, action))
  {
    StepKeepsLock(d, action);
    StepKeepsCancel(d, action);
    if action.Advance? {
      if action.pid in d.pcs && action.pid in d.lock.machine.starts {
        AccessKeepsStatus(d, action.pid, action.oracle);
      }
    } else {
      var after := Apply(d, action);
      assert after.state == d.state;
      forall p | p in after.pcs && Finishing(after.pcs[p]) ensures after.state.status != Cancelled {
        assert p in d.pcs && after.pcs[p] == d.pcs[p];
      }
    }
  }

  /** Once lost, the status stays lost. */
  lemma UnmarkedForGood(d: RunDir, action: Action)
    requires StatusKept(d) && Unmarked(d)
    ensures Unmarked(Apply(d, action)) && !Unmarks(d, action)
  {
    var after := Apply(d, action);
    if action.Advance? {
      var pid, oracle := action.pid, action.oracle;
      if pid in d.pcs && pid in d.lock.machine.starts {
        AccessIsFramed(d, pid, oracle);
        AccessOnStatus(d, pid, oracle);
        forall p | p in after.pcs ensures !Finishing(after.pcs[p]) {
          if p == pid && Finishing(after.pcs[p]) {
            FinishingBegins(d, pid, oracle);
          }
        }
      }
    } else {
      assert after.state == d.state && after.journal == d.journal;
      forall p | p in after.pcs ensures !Finishing(after.pcs[p]) {
        assert after.pcs[p] == Idle || (p in d.pcs && after.pcs[p] == d.pcs[p]);
      }
    }
  }

  lemma AccessLosesIff(d: RunDir, pid: int, oracle: Oracle)
    requires StatusKept(d) && !Unmarked(d) && pid in d.pcs && pid in d.lock.machine.starts
    ensures Unmarked(Access(d, pid, oracle)) <==> Unmarks(d, Advance(pid, oracle))
  {
    var after := Access(d, pid, oracle);
    AccessIsFramed(d, pid, oracle);
    AccessOnStatus(d, pid, oracle);
    if Finishing(d.pcs[pid]) {
      FinishingEnds(d, pid, oracle);
    } else if d.state.status == Cancelled {
      assert CancelLine(true) in d.journal;
      forall p | p in after.pcs ensures !Finishing(after.pcs[p]) {
        if p == pid && Finishing(after.pcs[p]) {
          FinishingBegins(d, pid, oracle);
        }
      }
    } else if p :| p in d.pcs && Finishing(d.pcs[p]) {
      assert p != pid && Finishing(after.pcs[p]);
    } else {
      assert CancelLine(true) !in d.journal;
      UnconfirmedStaysSo(d, pid, oracle);
    }
  }

  /** A verified line appears only with its writer finishing. */
  lemma UnconfirmedStaysSo(d: RunDir, pid: int, oracle: Oracle)
    requires StatusKept(d) && pid in d.pcs && pid in d.lock.machine.starts && CancelLine(true) !in d.journal
    ensures !Unmarked(Access(d, pid, oracle))
  {
    AccessIsFramed(d, pid, oracle);
    if d.pcs[pid].Journaling? {
      assert RelyHolds(d.pcs[pid], d.journal);
      assert Access(d, pid, oracle).pcs[pid] == AfterAppend(d.pcs[pid].next);
    }
  }

  lemma DeathLosesIff(d: RunDir, action: Action)
    requires StatusKept(d) && !Unmarked(d) && !action.Advance?
    ensures Unmarked(Apply(d, action)) <==> Unmarks(d, action)
  {
    var after := Apply(d, action);
    assert after.state == d.state && after.journal == d.journal;
    if p :| p in d.pcs && Finishing(d.pcs[p]) {
      FinishingIsConfirmed(d, p);
      forall q | q in d.pcs && Finishing(d.pcs[q]) ensures q == p {
        OneInside(d, p, q);
      }
      if !Unmarks(d, action) {
        assert p in after.pcs && after.pcs[p] == d.pcs[p];
      } else {
        forall q | q in after.pcs ensures !Finishing(after.pcs[q]) {
          assert q in d.pcs && after.pcs[q] == d.pcs[q];
        }
      }
    }
  }

  /** One action loses the status exactly when it is one of those events. */
  lemma LosesIff(d: RunDir, action: Action)
    requires StatusKept(d) && !Unmarked(d)
    ensures Unmarked(Apply(d, action)) <==> Unmarks(d, action)
  {
    if action.Advance? {
      if action.pid in d.pcs {
        AccessLosesIff(d, action.pid, action.oracle);
      }
    } else {
      DeathLosesIff(d, action);
    }
  }

  /** Action k of the run is one of those events. */
  predicate LosesAt(d: RunDir, actions: seq<Action>, k: nat)
    requires k < |actions|
  {
    Unmarks(Run(d, actions[..k]), actions[k])
  }

  /** One of those events happened along the way. */
  predicate Lost(d: RunDir, actions: seq<Action>)
  {
    exists k :: 0 <= k < |actions| && LosesAt(d, actions, k)
  }

  lemma LosesAtPrefix(d: RunDir, actions: seq<Action>, n: nat, k: nat)
    requires k < n <= |actions|
    ensures LosesAt(d, actions[..n], k) == LosesAt(d, actions, k)
  {
    assert actions[..n][..k] == actions[..k] && actions[..n][k] == actions[k];
  }

  lemma LostOneMore(d: RunDir, actions: seq<Action>)
    requires actions != []
    ensures Lost(d, actions) <==> Lost(d, actions[..|actions| - 1]) || LosesAt(d, actions, |actions| - 1)
  {
    var n := |actions| - 1;
    if k :| 0 <= k < n && LosesAt(d, actions[..n], k) {
      LosesAtPrefix(d, actions, n, k);
      assert LosesAt(d, actions, k);
    }
    if k :| 0 <= k < n && LosesAt(d, actions, k) {
      LosesAtPrefix(d, actions, n, k);
      assert LosesAt(d, actions[..n], k);
    }
  }

  lemma {:induction false} UnmarkedIffLost(d: RunDir, actions: seq<Action>)
    requires Fresh(d)
    ensures StatusKept(Run(d, actions)) && (Unmarked(Run(d, actions)) <==> Lost(d, actions))
  {
    if actions == [] {
      assert CancelLine(true) !in d.journal by {
        assert !HasCancel(d.journal);
      }
    } else {
      var n := |actions| - 1;
      var before := Run(d, actions[..n]);
      UnmarkedIffLost(d, actions[..n]);
      LostOneMore(d, actions);
      StepKeepsStatus(before, actions[n]);
      if Unmarked(before) {
        UnmarkedForGood(before, actions[n]);
      } else {
        LosesIff(before, actions[n]);
      }
    }
  }

  /**
    Over every run, once nobody is about to write the status: the state says CANCELLED just
    when the journal says verified, if and only if none of those events ever happened.
   */
  lemma StatusAgreesIffNothingLost(d: RunDir, actions: seq<Action>)
    requires Fresh(d)
    requires forall pid :: pid in Run(d, actions).pcs ==> !Finishing(Run(d, actions).pcs[pid])
    ensures var now := Run(d, actions);
      (now.state.status == Cancelled <==> AlreadyResolved(now.journal) == Some(true)) <==> !Lost(d, actions)
  {
    var now := Run(d, actions);
    UnmarkedIffLost(d, actions);
    CancelIsRecordedOnce(d, actions);
    VerifiedIffInJournal(now.journal);
  }

  lemma VerifiedIffInJournal(journal: seq<Line>)
    requires OneCancelAfterItsRequest(journal)
    ensures AlreadyResolved(journal) == Some(true) <==> CancelLine(true) in journal
  {
    ResolvedIffCancelled(journal);
    if CancelLine(true) in journal {
      var i :| 0 <= i < |journal| && journal[i] == CancelLine(true);
      assert HasCancel(journal);
      var v := AlreadyResolved(journal).value;
      var j :| 0 <= j < |journal| && journal[j] == CancelLine(v);
      assert journal[i].CancelLine? && journal[j].CancelLine?;
    }
  }

  // ---------------------------------------------------------------- each of those events happens

  /** Some run leads from one directory state to the other. */
  ghost predicate LeadsTo(d: RunDir, e: RunDir)
  {
    exists actions :: Run(d, actions) == e
  }

  lemma LeadsOn(d: RunDir, e: RunDir, action: Action)
    requires LeadsTo(d, e)
    ensures LeadsTo(d, Apply(e, action))
  {
    var actions :| Run(d, actions) == e;
    var longer := actions + [action];
    assert longer[..|longer| - 1] == actions;
    assert Run(d, longer) == Apply(e, action);
  }

  lemma {:induction false} LeadsGoingOn(d: RunDir, e: RunDir, pid: int, n: nat)
    requires LeadsTo(d, e)
    ensures LeadsTo(d, GoOn(e, pid, n))
    decreases n
  {
    if n > 0 {
      LeadsOn(d, e, Advance(pid, Go));
      LeadsGoingOn(d, Apply(e, Advance(pid, Go)), pid, n - 1);
    }
  }

  lemma LeadsResolving(d: RunDir, e: RunDir, pid: int, n: nat)
    requires LeadsTo(d, e)
    ensures LeadsTo(d, GoOn(LockedIn(e, pid, true), pid, n))
  {
    LeadsOn(d, e, Advance(pid, StartResolve));
    LeadsOn(d, Apply(e, Advance(pid, StartResolve)), Advance(pid, KillReports(true)));
    LeadsGoingOn(d, Apply(Apply(e, Advance(pid, StartResolve)), Advance(pid, KillReports(true))), pid, 2);
    LeadsGoingOn(d, LockedIn(e, pid, true), pid, n);
  }

  /** What a process does leaves every other one where it stood. */
  lemma AccessLeavesOthers(d: RunDir, pid: int, other: int, oracle: Oracle)
    requires other in d.pcs && other != pid
    ensures other in Apply(d, Advance(pid, oracle)).pcs && Apply(d, Advance(pid, oracle)).pcs[other] == d.pcs[other]
  {
    if pid in d.pcs && pid in d.lock.machine.starts {
      AccessMoves(d, pid, oracle);
    }
  }

  lemma {:induction false} GoingOnLeavesOthers(d: RunDir, pid: int, other: int, n: nat)
    requires other in d.pcs && other != pid
    ensures other in GoOn(d, pid, n).pcs && GoOn(d, pid, n).pcs[other] == d.pcs[other]
    decreases n
  {
    if n > 0 {
      AccessLeavesOthers(d, pid, other, Go);
      GoingOnLeavesOthers(Apply(d, Advance(pid, Go)), pid, other, n - 1);
    }
  }

  /** A whole resolution, undisturbed. */
  function Resolved(d: RunDir, pid: int): RunDir
  {
    GoOn(GoOn(LockedIn(d, pid, true), pid, 5), pid, 3)
  }

  lemma ResolvingLeavesOthers(d: RunDir, pid: int, other: int, n: nat)
    requires other in d.pcs && other != pid
    ensures var now := GoOn(LockedIn(d, pid, true), pid, n); other in now.pcs && now.pcs[other] == d.pcs[other]
  {
    AccessLeavesOthers(d, pid, other, StartResolve);
    AccessLeavesOthers(Apply(d, Advance(pid, StartResolve)), pid, other, KillReports(true));
    GoingOnLeavesOthers(Apply(Apply(d, Advance(pid, StartResolve)), Advance(pid, KillReports(true))), pid, other, 2);
    GoingOnLeavesOthers(LockedIn(d, pid, true), pid, other, n);
  }

  lemma {:induction false} GoingOnKeepsLock(d: RunDir, pid: int, n: nat)
    requires LockKept(d)
    ensures LockKept(GoOn(d, pid, n))
    decreases n
  {
    if n > 0 {
      StepKeepsLock(d, Advance(pid, Go));
      GoingOnKeepsLock(Apply(d, Advance(pid, Go)), pid, n - 1);
    }
  }

  lemma ResolvingKeepsLock(d: RunDir, pid: int)
    requires LockKept(d)
    ensures LockKept(Resolved(d, pid))
  {
    StepKeepsLock(d, Advance(pid, StartResolve));
    StepKeepsLock(Apply(d, Advance(pid, StartResolve)), Advance(pid, KillReports(true)));
    GoingOnKeepsLock(Apply(Apply(d, Advance(pid, StartResolve)), Advance(pid, KillReports(true))), pid, 2);
    GoingOnKeepsLock(LockedIn(d, pid, true), pid, 5);
    GoingOnKeepsLock(GoOn(LockedIn(d, pid, true), pid, 5), pid, 3);
  }

  /** After an undisturbed resolution the status is written, and everyone else stands where it stood. */
  lemma ResolvedIsMarked(d: RunDir, pid: int, other: int)
    requires MayResolve(d, pid) && other in d.pcs && other != pid
    ensures var now := Resolved(d, pid);
      && CancelLine(true) in now.journal && now.state == d.state.(status := Cancelled) && now.lock.file == L.Missing
      && LockKept(now) && other in now.pcs && now.pcs[other] == d.pcs[other]
  {
    UninterruptedStepsAreTheCall(d, pid, true);
    var now := Resolved(d, pid);
    assert now.journal[|now.journal| - 1] == CancelLine(true);
    ResolvingLeavesOthers(d, pid, other, 5);
    GoingOnLeavesOthers(GoOn(LockedIn(d, pid, true), pid, 5), pid, other, 3);
    ResolvingKeepsLock(d, pid);
  }

  /** The journaling process dies, or the machine reboots, before the status is written. */
  lemma DeathLosesTheStatus(d: RunDir, pid: int)
    requires MayResolve(d, pid)
    ensures Unmarks(GoOn(LockedIn(d, pid, true), pid, 5), Die(pid))
    ensures forall bootId :: Unmarks(GoOn(LockedIn(d, pid, true), pid, 5), Reboot(bootId))
  {
    LocksIn(d, pid, true);
    JournalsBoth(LockedIn(d, pid, true), pid, true);
  }

  /** A request past its reading of the state: two more accesses, and the old state is back. */
  function Requested(d: RunDir, pid: int): RunDir
  {
    Apply(Apply(d, Advance(pid, Go)), Advance(pid, Go))
  }

  lemma StaleWrite(d: RunDir, pid: int, state: RunState, intent: Intent)
    requires LockKept(d) && pid in d.pcs && d.pcs[pid] == Intending(state, intent) && d.state.status == Cancelled
    ensures Unmarks(Apply(d, Advance(pid, Go)), Advance(pid, Go))
    ensures var now := Requested(d, pid);
      && now.state == state.(status := Cancelling) && now.journal == d.journal
      && pid in now.pcs && now.pcs[pid] == Idle
  {
  }

  /**
    No death is needed: one process reads a running state to request a cancel, another
    resolves one undisturbed, and the first writes what it read back as cancelling.
   */
  lemma StaleRequestLosesTheStatus(d: RunDir, requester: int, resolver: int, intent: Intent)
    requires MayResolve(d, resolver) && requester != resolver && requester in d.pcs && d.pcs[requester] == Idle
    requires d.state.status in {Running, Suspended, Crashed}
    ensures var done := Resolved(Apply(d, Advance(requester, StartRequest(intent))), resolver);
      var now := Requested(done, requester);
      && done.state.status == Cancelled && Unmarks(Apply(done, Advance(requester, Go)), Advance(requester, Go))
      && CancelLine(true) in now.journal && now.state == d.state.(status := Cancelling)
      && requester in now.pcs && now.pcs[requester] == Idle
  {
    var read := Apply(d, Advance(requester, StartRequest(intent)));
    StepKeepsLock(d, Advance(requester, StartRequest(intent)));
    ReadsTheState(d, requester, resolver, intent);
    ResolvedIsMarked(read, resolver, requester);
    StaleWrite(Resolved(read, resolver), requester, d.state, intent);
  }

  lemma ReadsTheState(d: RunDir, requester: int, resolver: int, intent: Intent)
    requires MayResolve(d, resolver) && requester != resolver && requester in d.pcs && d.pcs[requester] == Idle
    requires d.state.status in {Running, Suspended, Crashed}
    requires LockKept(Apply(d, Advance(requester, StartRequest(intent))))
    ensures var read := Apply(d, Advance(requester, StartRequest(intent)));
      && MayResolve(read, resolver) && read.state == d.state
      && requester in read.pcs && read.pcs[requester] == Intending(d.state, intent)
  {
  }

  /** A coordinator that takes the free lock afterwards can set another status. */
  lemma CoordinatorLosesTheStatus(d: RunDir, coordinator: int, resolver: int, state: RunState)
    requires MayResolve(d, resolver) && coordinator != resolver && coordinator in d.pcs && d.pcs[coordinator] == Idle
    requires state.status != Cancelled
    ensures var done := Resolved(d, resolver);
      && done.state.status == Cancelled
      && Unmarks(Apply(done, Advance(coordinator, StartCoordinator)), Advance(coordinator, SetState(state)))
  {
    ResolvedIsMarked(d, resolver, coordinator);
    TakesFreeLock(Resolved(d, resolver), coordinator);
  }

  lemma TakesFreeLock(d: RunDir, pid: int)
    requires LockKept(d) && pid in d.pcs && d.pcs[pid] == Idle && d.lock.file == L.Missing
    ensures var now := Apply(d, Advance(pid, StartCoordinator));
      pid in now.pcs && now.pcs[pid] == Coordinating && now.state == d.state
  {
  }

  /** Two processes, from a fresh directory whose lock is free. */
  function Started(d: RunDir, p: int, q: int): RunDir
  {
    Apply(Apply(d, Spawn(p, "0")), Spawn(q, "1"))
  }

  lemma StartedMayResolve(d: RunDir, p: int, q: int)
    requires Fresh(d) && d.lock.file == L.Missing && p != q
    ensures var now := Started(d, p, q);
      && LeadsTo(d, now) && MayResolve(now, q) && now.state == d.state && p in now.pcs && now.pcs[p] == Idle
  {
    assert Run(d, []) == d;
    StepKeepsLock(d, Spawn(p, "0"));
    StepKeepsLock(Apply(d, Spawn(p, "0")), Spawn(q, "1"));
    LeadsOn(d, d, Spawn(p, "0"));
    LeadsOn(d, Apply(d, Spawn(p, "0")), Spawn(q, "1"));
  }

  /** Some run comes to where this action loses the status. */
  ghost predicate CanLoseBy(d: RunDir, now: RunDir, action: Action)
  {
    LeadsTo(d, now) && Unmarks(now, action)
  }

  lemma DeathsHappen(d: RunDir, p: int, q: int)
    requires Fresh(d) && d.lock.file == L.Missing && p != q
    ensures exists now :: CanLoseBy(d, now, Die(q)) && forall bootId :: CanLoseBy(d, now, Reboot(bootId))
  {
    var started := Started(d, p, q);
    StartedMayResolve(d, p, q);
    DeathLosesTheStatus(started, q);
    LeadsResolving(d, started, q, 5);
    var now := GoOn(LockedIn(started, q, true), q, 5);
    assert CanLoseBy(d, now, Die(q)) && forall bootId :: CanLoseBy(d, now, Reboot(bootId));
  }

  lemma CoordinatorsHappen(d: RunDir, p: int, q: int, other: RunState)
    requires Fresh(d) && d.lock.file == L.Missing && p != q && other.status != Cancelled
    ensures exists now :: CanLoseBy(d, now, Advance(p, SetState(other)))
  {
    var started := Started(d, p, q);
    StartedMayResolve(d, p, q);
    CoordinatorLosesTheStatus(started, p, q, other);
    LeadsToResolved(d, started, q);
    LeadsOn(d, Resolved(started, q), Advance(p, StartCoordinator));
    assert CanLoseBy(d, Apply(Resolved(started, q), Advance(p, StartCoordinator)), Advance(p, SetState(other)));
  }

  lemma StaleRequestsHappen(d: RunDir, p: int, q: int, intent: Intent)
    requires Fresh(d) && d.lock.file == L.Missing && p != q && d.state.status in {Running, Suspended, Crashed}
    ensures exists now :: CanLoseBy(d, now, Advance(p, Go))
  {
    var started := Started(d, p, q);
    StartedMayResolve(d, p, q);
    var read := Apply(started, Advance(p, StartRequest(intent)));
    StaleRequestLosesTheStatus(started, p, q, intent);
    LeadsOn(d, started, Advance(p, StartRequest(intent)));
    LeadsToResolved(d, read, q);
    LeadsOn(d, Resolved(read, q), Advance(p, Go));
    assert CanLoseBy(d, Apply(Resolved(read, q), Advance(p, Go)), Advance(p, Go));
  }

  /** From every fresh directory with a free lock, each kind of event does happen in some run. */
  lemma EveryKindHappens(d: RunDir, p: int, q: int, intent: Intent, other: RunState)
    requires Fresh(d) && d.lock.file == L.Missing && p != q && other.status != Cancelled
    ensures exists now :: CanLoseBy(d, now, Die(q)) && forall bootId :: CanLoseBy(d, now, Reboot(bootId))
    ensures exists now :: CanLoseBy(d, now, Advance(p, SetState(other)))
    ensures d.state.status in {Running, Suspended, Crashed} ==> exists now :: CanLoseBy(d, now, Advance(p, Go))
  {
    DeathsHappen(d, p, q);
    CoordinatorsHappen(d, p, q, other);
    if d.state.status in {Running, Suspended, Crashed} {
      StaleRequestsHappen(d, p, q, intent);
    }
  }

  lemma LeadsToResolved(d: RunDir, e: RunDir, pid: int)
    requires LeadsTo(d, e)
    ensures LeadsTo(d, Resolved(e, pid))
  {
    LeadsResolving(d, e, pid, 5);
    LeadsGoingOn(d, GoOn(LockedIn(e, pid, true), pid, 5), pid, 3);
  }
}
