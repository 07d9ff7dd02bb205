/**
  What a verified cancel says about the run's scope: the run directory's protocol together
  with the processes in the scope, which exit and fork on their own while cancelling
  processes ask about them, stop them and poll until none is left.
 */
module CancelScope {
  import opened Wrappers
  import C = CancelProtocol
  import L = RunLock

  /** polling: the processes that stopped the unit and are reading who is left. */
  datatype World = World(d: C.RunDir, kind: C.ScopeKind, now: C.Moment, polling: set<int>)

  datatype Event =
    | Base(action: C.Action)
    | Ask(pid: int)
    | Poll(pid: int, last: bool)
    | Exits(proc: int)
    | Forks(parent: int, child: int)
    | UnitBecomes(unit: C.UnitState)

  predicate Killing(d: C.RunDir, pid: int)
  {
    pid in d.pcs && pid in d.lock.machine.starts && d.pcs[pid] == C.Killing
  }

  predicate ReportsKill(action: C.Action)
  {
    action.Advance? && action.oracle.KillReports?
  }

  function Reported(w: World, pid: int, verified: bool): World
  {
    w.(d := C.Apply(w.d, C.Advance(pid, C.KillReports(verified))), polling := w.polling - {pid})
  }

  function StillKilling(polling: set<int>, d: C.RunDir): set<int>
  {
    set pid | pid in polling && Killing(d, pid)
  }

  /** One event; a process that was never in the scope cannot fork into it. */
  function Apply(w: World, event: Event): World
  {
    match event
    case Base(action) =>
      if ReportsKill(action) then w
      else
        var d := C.Apply(w.d, action);
        w.(d := d, polling := StillKilling(w.polling, d))
    case Ask(pid) =>
      if !Killing(w.d, pid) || pid in w.polling then w
      else if w.kind != C.SystemdUnit then Reported(w, pid, false)
      else if w.now.unit != C.UnitActive then Reported(w, pid, true)
      else w.(polling := w.polling + {pid}, now := w.now.(unit := C.UnitDeactivating))
    case Poll(pid, last) =>
      if !Killing(w.d, pid) || pid !in w.polling then w
      else if w.now.procs == {} then Reported(w, pid, true)
      else if last then Reported(w, pid, false)
      else w
    case Exits(proc) => w.(now := w.now.(procs := w.now.procs - {proc}))
    case Forks(parent, child) =>
      if parent in w.now.procs then w.(now := w.now.(procs := w.now.procs + {child})) else w
    case UnitBecomes(unit) => w.(now := w.now.(unit := unit))
  }

  function Run(w: World, events: seq<Event>): World
  {
    if events == [] then w else Apply(Run(w, events[..|events| - 1]), events[|events| - 1])
  }

  /** What the run directory went through is a run of the protocol, so whatever holds of those holds here. */
  lemma {:induction false} DirectoryRuns(w: World, events: seq<Event>) returns (actions: seq<C.Action>)
    ensures Run(w, events).d == C.Run(w.d, actions)
  {
    if events == [] {
      actions := [];
    } else {
      var before, event := Run(w, events[..|events| - 1]), events[|events| - 1];
      var sofar := DirectoryRuns(w, events[..|events| - 1]);
      var step: Option<C.Action> :=
        match event
        case Base(action) => if ReportsKill(action) then None else Some(action)
        case Ask(pid) =>
          if !Killing(before.d, pid) || pid in before.polling then None
          else if before.kind != C.SystemdUnit then Some(C.Advance(pid, C.KillReports(false)))
          else if before.now.unit != C.UnitActive then Some(C.Advance(pid, C.KillReports(true)))
          else None
        case Poll(pid, last) =>
          if !Killing(before.d, pid) || pid !in before.polling then None
          else if before.now.procs == {} then Some(C.Advance(pid, C.KillReports(true)))
          else if last then Some(C.Advance(pid, C.KillReports(false)))
          else None
        case _ => None;
      if step.Some? {
        actions := sofar + [step.value];
        assert actions[..|sofar|] == sofar;
      } else {
        actions := sofar;
      }
    }
  }

  // ---------------------------------------------------------------- where a verified cancel comes from

  /** A process on its way to record, or recording, a verified cancel. */
  predicate HoldsVerified(pc: C.Pc)
  {
    match pc
    case Locking(verified) => verified
    case Rechecking(verified) => verified
    case ReadingIntent(verified) => verified
    case Auditing(line, next) => LineVerified(line, next)
    case Journaling(line, next) => LineVerified(line, next)
    case ReadingState(verified) => verified
    case WritingState(verified, _) => verified
    case _ => false
  }

  predicate LineVerified(line: C.Line, next: C.AfterLine)
  {
    line == C.CancelLine(true) || next == C.ThenCancel(true) || next == C.ThenState(true)
  }

  /** A verified cancel is recorded, shown in state.json, or under way. */
  ghost predicate SaysVerified(d: C.RunDir)
  {
    || C.CancelLine(true) in d.journal
    || d.state.status == C.Cancelled
    || exists pid :: pid in d.pcs && HoldsVerified(d.pcs[pid])
  }

  lemma AccessSaysNothingNew(d: C.RunDir, pid: int, oracle: C.Oracle)
    requires !SaysVerified(d) && pid in d.pcs && pid in d.lock.machine.starts && oracle != C.KillReports(true)
    ensures !SaysVerified(C.Access(d, pid, oracle))
  {
    var after := C.Access(d, pid, oracle);
    assert !HoldsVerified(d.pcs[pid]);
    C.AccessMoves(d, pid, oracle);
    assert !HoldsVerified(after.pcs[pid]);
    forall p | p in after.pcs ensures !HoldsVerified(after.pcs[p]) {
      assert p != pid ==> !HoldsVerified(d.pcs[p]);
    }
  }

  /** Only a kill that reports success brings one about. */
  lemma OnlyReportsSaySo(d: C.RunDir, action: C.Action)
    requires !SaysVerified(d) && !(action.Advance? && action.oracle == C.KillReports(true))
    ensures !SaysVerified(C.Apply(d, action))
  {
    if action.Advance? {
      if action.pid in d.pcs && action.pid in d.lock.machine.starts {
        AccessSaysNothingNew(d, action.pid, action.oracle);
      }
    } else {
      var after := C.Apply(d, action);
      forall p | p in after.pcs ensures !HoldsVerified(after.pcs[p]) {
        assert (p in d.pcs && after.pcs[p] == d.pcs[p]) || after.pcs[p] == C.Idle;
      }
    }
  }

  // ---------------------------------------------------------------- what it says about the scope

  /** The unit is not called active although processes are left in it, as while it is being stopped. */
  predicate Draining(now: C.Moment)
  {
    now.unit != C.UnitActive && now.procs != {}
  }

  /** A process asks about a unit that is draining, and is told it is gone. */
  predicate Misled(w: World, event: Event)
  {
    event.Ask? && Killing(w.d, event.pid) && event.pid !in w.polling && w.kind == C.SystemdUnit && Draining(w.now)
  }

  /** An event reports a kill verified exactly when a unit is found not active, or polled and found empty. */
  lemma ReportsVerifiedIff(w: World, event: Event, pid: int)
    requires Killing(w.d, pid) && (event.Base? ==> ReportsKill(event.action))
    ensures Apply(w, event).d.pcs[pid] == C.Locking(true) <==>
      || (event == Ask(pid) && pid !in w.polling && w.kind == C.SystemdUnit && w.now.unit != C.UnitActive)
      || (event.Poll? && event.pid == pid && pid in w.polling && w.now.procs == {})
  {
  }

  /** So it does so with processes left in the scope exactly when it is misled. */
  lemma WrongIffMisled(w: World, event: Event, pid: int)
    requires Killing(w.d, pid) && (event.Base? ==> ReportsKill(event.action))
    ensures Apply(w, event).d.pcs[pid] == C.Locking(true) && w.now.procs != {} <==>
      Misled(w, event) && event.pid == pid
  {
    ReportsVerifiedIff(w, event, pid);
  }

  ghost predicate ScopeKept(w: World)
  {
    && (w.polling != {} ==> w.kind == C.SystemdUnit)
    && (SaysVerified(w.d) ==> w.kind == C.SystemdUnit && w.now.procs == {})
  }

  lemma EventKeepsScope(w: World, event: Event)
    requires ScopeKept(w) && !Misled(w, event)
    ensures ScopeKept(Apply(w, event))
  {
    var after := Apply(w, event);
    match event
    case Base(action) =>
      if !SaysVerified(w.d) && !ReportsKill(action) {
        OnlyReportsSaySo(w.d, action);
      }
    case Ask(pid) =>
      if !SaysVerified(w.d) {
        OnlyReportsSaySo(w.d, C.Advance(pid, C.KillReports(false)));
      }
    case Poll(pid, last) =>
      if !SaysVerified(w.d) {
        OnlyReportsSaySo(w.d, C.Advance(pid, C.KillReports(false)));
      }
    case _ =>
  }

  ghost predicate NeverMisled(w: World, events: seq<Event>)
  {
    forall k :: 0 <= k < |events| ==> !Misled(Run(w, events[..k]), events[k])
  }

  lemma {:induction false} EveryRunKeepsScope(w: World, events: seq<Event>)
    requires C.Fresh(w.d) && w.polling == {} && NeverMisled(w, events)
    ensures ScopeKept(Run(w, events))
  {
    if events != [] {
      var m := |events| - 1;
      forall k | 0 <= k < m ensures !Misled(Run(w, events[..m][..k]), events[..m][k]) {
        assert events[..m][..k] == events[..k];
      }
      EveryRunKeepsScope(w, events[..m]);
      EventKeepsScope(Run(w, events[..m]), events[m]);
    }
  }

  /**
    Over every run in which nobody asks about a draining unit: a verified cancel in the
    journal, or CANCELLED in state.json, means that the scope can be asked about across
    processes and that nothing is left in it.
   */
  lemma NothingLeftWhenCancelled(w: World, events: seq<Event>)
    requires C.Fresh(w.d) && w.polling == {} && NeverMisled(w, events)
    ensures var now := Run(w, events);
      C.CancelLine(true) in now.d.journal || now.d.state.status == C.Cancelled ==>
      now.kind == C.SystemdUnit && now.now.procs == {}
  {
    EveryRunKeepsScope(w, events);
  }

  /** A scope that only its starter tracks is never reported cancelled, whoever asks and whatever happens. */
  lemma InMemoryIsNeverCancelled(w: World, events: seq<Event>)
    requires C.Fresh(w.d) && w.polling == {} && w.kind == C.InMemory
    ensures var now := Run(w, events);
      C.CancelLine(true) !in now.d.journal && now.d.state.status != C.Cancelled
  {
    KindStays(w, events);
    assert NeverMisled(w, events) by {
      forall k | 0 <= k < |events| ensures !Misled(Run(w, events[..k]), events[k]) {
        KindStays(w, events[..k]);
      }
    }
    NothingLeftWhenCancelled(w, events);
  }

  lemma {:induction false} KindStays(w: World, events: seq<Event>)
    ensures Run(w, events).kind == w.kind
  {
    if events != [] {
      KindStays(w, events[..|events| - 1]);
    }
  }

  // ---------------------------------------------------------------- a misled cancel

  function GoOn(w: World, pid: int, n: nat): World
    decreases n
  {
    if n == 0 then w else GoOn(Apply(w, Base(C.Advance(pid, C.Go))), pid, n - 1)
  }

  lemma {:induction false} GoesOnAlike(w: World, pid: int, n: nat)
    ensures GoOn(w, pid, n).d == C.GoOn(w.d, pid, n) && GoOn(w, pid, n).now == w.now
    decreases n
  {
    if n > 0 {
      GoesOnAlike(Apply(w, Base(C.Advance(pid, C.Go))), pid, n - 1);
    }
  }

  /** A cancel that finds the unit being stopped by an earlier one records itself verified while processes live on. */
  lemma DrainingScopeIsCancelled(w: World, pid: int)
    requires C.MayResolve(w.d, pid) && pid !in w.polling && w.kind == C.SystemdUnit && Draining(w.now)
    ensures var asked := Apply(Apply(w, Base(C.Advance(pid, C.StartResolve))), Ask(pid));
      var now := GoOn(asked, pid, 10);
      now.d.state.status == C.Cancelled && C.CancelLine(true) in now.d.journal && now.now.procs != {}
  {
    var begun := Apply(w, Base(C.Advance(pid, C.StartResolve)));
    C.ResolvedIffCancelled(w.d.journal);
    assert Killing(begun.d, pid) && begun.now == w.now;
    var asked := Apply(begun, Ask(pid));
    GoesOnAlike(asked, pid, 10);
    C.GoOnSplits(asked.d, pid, 2, 8);
    C.GoOnSplits(C.GoOn(asked.d, pid, 2), pid, 5, 3);
    C.UninterruptedStepsAreTheCall(w.d, pid, true);
  }

  /** And that is how it stands once an earlier one has stopped it and not yet seen it empty. */
  lemma StoppingDrains(w: World, pid: int)
    requires Killing(w.d, pid) && pid !in w.polling && w.kind == C.SystemdUnit
    requires w.now.unit == C.UnitActive && w.now.procs != {}
    ensures Draining(Apply(w, Ask(pid)).now) && pid in Apply(w, Ask(pid)).polling
  {
  }
}
