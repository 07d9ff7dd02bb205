/**
  The run lock: an exclusive-create file naming its holder, broken when that holder
  is provably gone. Acquire and release are each one atomic step here.
 */
module RunLock {

  const UNREADABLE := "-"

  datatype Holder = Holder(host: string, bootId: string, pid: int, startTime: string)

  /** The lock file: absent, naming a holder, or present but unreadable (a creator died before writing). */
  datatype LockFile = Missing | Held(holder: Holder) | Torn

  /** One host: its boot id ("-" where it cannot be read) and the start time of every live process. */
  datatype Machine = Machine(host: string, bootId: string, starts: map<int, string>)

  predicate BootDiffers(recorded: string, current: string)
  {
    recorded != UNREADABLE && current != UNREADABLE && recorded != current
  }

  /** The start time read for pid now; blind are the processes whose start time cannot be read. */
  function StartReading(m: Machine, blind: set<int>, pid: int): string
  {
    if pid in m.starts && pid !in blind then m.starts[pid] else UNREADABLE
  }

  predicate HolderIsAlive(m: Machine, blind: set<int>, holder: Holder)
  {
    if BootDiffers(holder.bootId, m.bootId) then false
    else if holder.pid !in m.starts then false
    else if holder.startTime == UNREADABLE then true
    else StartReading(m, blind, holder.pid) == holder.startTime
  }

  /** Whether the file stops a newcomer: it names a holder that still looks alive. */
  predicate Blocks(file: LockFile, m: Machine, blind: set<int>)
  {
    file.Held? && HolderIsAlive(m, blind, file.holder)
  }

  class FileRunLock {
    var file: LockFile

    method TryCreate(holder: Holder) returns (created: bool)
      modifies this
      ensures created <==> old(file) == Missing
      ensures file == if created then Held(holder) else old(file)
    {
      if file != Missing {
        return false;
      }
      file := Held(holder);
      return true;
    }

    /** Unlink the file unless its holder is alive; false where the source raises LockHeld. */
    method BreakIfStale(m: Machine, blind: set<int>) returns (broken: bool)
      modifies this
      ensures broken <==> !Blocks(old(file), m, blind)
      ensures file == if broken then Missing else old(file)
    {
      if file.Held? && HolderIsAlive(m, blind, file.holder) {
        return false;
      }
      file := Missing;
      return true;
    }

    method Acquire(m: Machine, blind: set<int>, holder: Holder) returns (acquired: bool)
      modifies this
      ensures acquired <==> !Blocks(old(file), m, blind)
      ensures file == if acquired then Held(holder) else old(file)
    {
      var created := TryCreate(holder);
      if created {
        return true;
      }
      var broken := BreakIfStale(m, blind);
      if !broken {
        return false;
      }
      acquired := TryCreate(holder);
    }

    method Release(token: Holder)
      modifies this
      ensures file == if old(file) == Held(token) then Missing else old(file)
    {
      if file == Held(token) {
        file := Missing;
      }
    }
  }

  // ---------------------------------------------------------------- any number of processes

  /** The lock among processes: tokens are the live processes that believe they hold it, and as whom. */
  datatype World = World(machine: Machine, file: LockFile, tokens: map<int, Holder>)

  datatype Step =
    | Spawn(pid: int, start: string)
    | Die(pid: int)
    | Reboot(bootId: string)
    | Acquire(pid: int, recorded: string, blind: set<int>)
    | DieAcquiring(pid: int, blind: set<int>)
    | Release(pid: int)

  function Kill(w: World, pid: int): World
  {
    w.(machine := w.machine.(starts := w.machine.starts - {pid}), tokens := w.tokens - {pid})
  }

  /** What one step does; a step that cannot happen changes nothing. */
  function Apply(w: World, step: Step): World
  {
    var m := w.machine;
    match step
    case Spawn(pid, start) =>
      if pid in m.starts || start == UNREADABLE then w
      else w.(machine := m.(starts := m.starts[pid := start]))
    case Die(pid) => Kill(w, pid)
    case Reboot(bootId) => World(Machine(m.host, bootId, map[]), w.file, map[])
    case Acquire(pid, recorded, blind) =>
      if pid !in m.starts || recorded !in {UNREADABLE, m.starts[pid]} || Blocks(w.file, m, blind) then w
      else
        var holder := Holder(m.host, m.bootId, pid, recorded);
        w.(file := Held(holder), tokens := w.tokens[pid := holder])
    case DieAcquiring(pid, blind) =>
      if pid !in m.starts then w
      else if Blocks(w.file, m, blind) then Kill(w, pid)
      else Kill(w, pid).(file := Torn)
    case Release(pid) =>
      if pid !in w.tokens then w
      else
        w.(file := if w.file == Held(w.tokens[pid]) then Missing else w.file, tokens := w.tokens - {pid})
  }

  /** A real recorded start time can still be read when a newcomer checks it. */
  predicate Readable(w: World, step: Step)
  {
    (step.Acquire? || step.DieAcquiring?) && w.file.Held? && w.file.holder.startTime != UNREADABLE ==>
      w.file.holder.pid !in step.blind
  }

  /** Every process that holds the lock is alive and is the one the file names. */
  ghost predicate Consistent(w: World)
  {
    forall pid :: pid in w.tokens ==>
      && pid in w.machine.starts
      && w.file == Held(w.tokens[pid])
      && w.tokens[pid].pid == pid && w.tokens[pid].bootId == w.machine.bootId
      && w.tokens[pid].startTime in {UNREADABLE, w.machine.starts[pid]}
  }

  ghost predicate AtMostOneHolder(w: World)
  {
    forall p, q :: p in w.tokens && q in w.tokens ==> p == q
  }

  lemma ConsistentExcludes(w: World)
    requires Consistent(w)
    ensures AtMostOneHolder(w)
  {
    forall p, q | p in w.tokens && q in w.tokens ensures p == q {
      assert w.tokens[p] == w.tokens[q];
    }
  }

  /** A live holder blocks every newcomer that can read what the file records. */
  lemma LiveHolderBlocks(w: World, blind: set<int>, pid: int)
    requires Consistent(w) && pid in w.tokens
    requires w.file.Held? && w.file.holder.startTime != UNREADABLE ==> w.file.holder.pid !in blind
    ensures Blocks(w.file, w.machine, blind)
  {
  }

  lemma StepKeepsConsistent(w: World, step: Step)
    requires Consistent(w) && Readable(w, step)
    ensures Consistent(Apply(w, step))
  {
    if step.Acquire? || step.DieAcquiring? {
      forall pid | pid in w.tokens ensures Blocks(w.file, w.machine, step.blind) {
        LiveHolderBlocks(w, step.blind, pid);
      }
    }
  }

  function Run(w: World, steps: seq<Step>): World
  {
    if steps == [] then w else Apply(Run(w, steps[..|steps| - 1]), steps[|steps| - 1])
  }

  ghost predicate AllReadable(w: World, steps: seq<Step>)
  {
    forall k :: 0 <= k < |steps| ==> Readable(Run(w, steps[..k]), steps[k])
  }

  /** Mutual exclusion over every run: acquires, releases, deaths, pid reuse and reboots in any order. */
  lemma {:induction false} NeverTwoLiveHolders(w: World, steps: seq<Step>)
    requires Consistent(w) && AllReadable(w, steps)
    ensures Consistent(Run(w, steps)) && AtMostOneHolder(Run(w, steps))
  {
    if steps != [] {
      var front := steps[..|steps| - 1];
      forall k | 0 <= k < |front| ensures Readable(Run(w, front[..k]), front[k]) {
        assert front[..k] == steps[..k];
        assert Readable(Run(w, steps[..k]), steps[k]);
      }
      NeverTwoLiveHolders(w, front);
      assert Readable(Run(w, steps[..|front|]), steps[|front|]);
      StepKeepsConsistent(Run(w, front), steps[|front|]);
    }
    ConsistentExcludes(Run(w, steps));
  }

  /**
    Readability is exactly what exclusion needs: while one process holds the lock, an
    attempt by another leaves one holder if and only if it can read the holder's start time.
   */
  lemma ExclusionNeedsReadability(w: World, holder: int, step: Step)
    requires Consistent(w) && holder in w.tokens
    requires step.Acquire? && step.pid in w.machine.starts && step.pid != holder
    requires step.recorded in {UNREADABLE, w.machine.starts[step.pid]}
    ensures AtMostOneHolder(Apply(w, step)) <==> Readable(w, step)
  {
    var after := Apply(w, step);
    assert holder in after.tokens;
    if Readable(w, step) {
      StepKeepsConsistent(w, step);
      ConsistentExcludes(after);
    } else {
      assert step.pid in after.tokens;
    }
  }

  /** Such an attempt exists: a holder whose start time cannot be read back is displaced while alive. */
  lemma UnreadableHolderIsDisplaced()
    ensures exists w: World, step: Step :: Consistent(w) && !AtMostOneHolder(Apply(w, step))
  {
    var w := World(Machine("h", "b", map[1 := "s", 2 := "t"]), Held(Holder("h", "b", 1, "s")),
                   map[1 := Holder("h", "b", 1, "s")]);
    var step := Acquire(2, "t", {1});
    assert Consistent(w) && !Readable(w, step);
    ExclusionNeedsReadability(w, 1, step);
  }

  // ---------------------------------------------------------------- several hosts sharing the file

  /** The lock file on shared storage, and on each host its processes and those that believe they hold it. */
  datatype Cluster = Cluster(machines: map<string, Machine>, file: LockFile, tokens: map<string, map<int, Holder>>)

  predicate IsHost(c: Cluster, host: string)
  {
    host in c.machines && host in c.tokens
  }

  /** What one host sees. */
  function On(c: Cluster, host: string): World
    requires IsHost(c, host)
  {
    World(c.machines[host], c.file, c.tokens[host])
  }

  function ApplyOn(c: Cluster, host: string, step: Step): Cluster
    requires IsHost(c, host)
  {
    var w := Apply(On(c, host), step);
    Cluster(c.machines[host := w.machine], w.file, c.tokens[host := w.tokens])
  }

  /** Every host is consistent with the file, and its holders were recorded under its name. */
  ghost predicate ConsistentCluster(c: Cluster)
  {
    && c.machines.Keys == c.tokens.Keys
    && forall host :: host in c.machines ==>
         && c.machines[host].host == host && Consistent(On(c, host))
         && forall pid :: pid in c.tokens[host] ==> c.tokens[host][pid].host == host
  }

  ghost predicate AtMostOneAnywhere(c: Cluster)
  {
    forall g, h, p, q :: g in c.tokens && h in c.tokens && p in c.tokens[g] && q in c.tokens[h] ==> g == h && p == q
  }

  lemma ConsistentClusterExcludes(c: Cluster)
    requires ConsistentCluster(c)
    ensures AtMostOneAnywhere(c)
  {
    forall g, h, p, q | g in c.tokens && h in c.tokens && p in c.tokens[g] && q in c.tokens[h]
      ensures g == h && p == q
    {
      assert Consistent(On(c, g)) && Consistent(On(c, h));
      assert On(c, g).tokens[p] == On(c, h).tokens[q];
    }
  }

  /**
    The check never compares the recorded host. While a process elsewhere holds the lock, an
    attempt on another host leaves one holder if and only if that host happens to run a
    process of the same pid and start time and its boot id is not known to differ.
   */
  lemma ForeignHolderIsJudgedLocally(c: Cluster, home: string, holder: int, away: string, step: Step)
    requires ConsistentCluster(c) && home in c.machines && away in c.machines && home != away
    requires holder in c.tokens[home] && step.Acquire?
    requires step.pid in c.machines[away].starts && step.recorded in {UNREADABLE, c.machines[away].starts[step.pid]}
    ensures var recorded, there := c.tokens[home][holder], c.machines[away];
      AtMostOneAnywhere(ApplyOn(c, away, step)) <==>
        && (c.machines[home].bootId in {UNREADABLE, there.bootId} || there.bootId == UNREADABLE)
        && holder in there.starts
        && recorded.startTime in {UNREADABLE, StartReading(there, step.blind, holder)}
  {
    AttemptExcludesIffBlocked(c, home, holder, away, step);
    assert Consistent(On(c, home)) && On(c, home).tokens[holder] == c.tokens[home][holder];
    assert c.tokens[home][holder].bootId == c.machines[home].bootId && c.tokens[home][holder].pid == holder;
    LooksAliveIff(c.tokens[home][holder], c.machines[away], step.blind);
  }

  lemma LooksAliveIff(holder: Holder, m: Machine, blind: set<int>)
    ensures Blocks(Held(holder), m, blind) <==>
      && (holder.bootId in {UNREADABLE, m.bootId} || m.bootId == UNREADABLE)
      && holder.pid in m.starts
      && holder.startTime in {UNREADABLE, StartReading(m, blind, holder.pid)}
  {
  }

  lemma AttemptExcludesIffBlocked(c: Cluster, home: string, holder: int, away: string, step: Step)
    requires ConsistentCluster(c) && home in c.machines && away in c.machines && home != away
    requires holder in c.tokens[home] && step.Acquire?
    requires step.pid in c.machines[away].starts && step.recorded in {UNREADABLE, c.machines[away].starts[step.pid]}
    ensures c.file == Held(c.tokens[home][holder])
    ensures AtMostOneAnywhere(ApplyOn(c, away, step)) <==> Blocks(c.file, c.machines[away], step.blind)
  {
    var after := ApplyOn(c, away, step);
    assert Consistent(On(c, home)) && On(c, home).tokens[holder] == c.tokens[home][holder];
    assert after.tokens[home] == c.tokens[home];
    if Blocks(c.file, c.machines[away], step.blind) {
      assert after.tokens == c.tokens;
      ConsistentClusterExcludes(c);
    } else {
      assert step.pid in after.tokens[away] && holder in after.tokens[home];
    }
  }

  /** Between hosts whose boot ids are known to differ, every such attempt makes a second holder. */
  lemma ForeignHolderIsDisplaced(c: Cluster, home: string, holder: int, away: string, step: Step)
    requires ConsistentCluster(c) && home in c.machines && away in c.machines && home != away
    requires holder in c.tokens[home] && step.Acquire?
    requires step.pid in c.machines[away].starts && step.recorded in {UNREADABLE, c.machines[away].starts[step.pid]}
    requires c.machines[home].bootId != UNREADABLE && c.machines[away].bootId != UNREADABLE
    requires c.machines[home].bootId != c.machines[away].bootId
    ensures !AtMostOneAnywhere(ApplyOn(c, away, step))
  {
    ForeignHolderIsJudgedLocally(c, home, holder, away, step);
  }

  datatype HostStep = HostStep(host: string, step: Step)

  function RunCluster(c: Cluster, steps: seq<HostStep>): Cluster
  {
    if steps == [] then c
    else
      var before, last := RunCluster(c, steps[..|steps| - 1]), steps[|steps| - 1];
      if IsHost(before, last.host) then ApplyOn(before, last.host, last.step) else before
  }

  /** The lock is only ever tried for on one host, which can read what it checks. */
  ghost predicate TriedOnlyOn(c: Cluster, home: string, steps: seq<HostStep>)
  {
    forall k :: 0 <= k < |steps| && (steps[k].step.Acquire? || steps[k].step.DieAcquiring?) ==>
      && steps[k].host == home
      && (IsHost(RunCluster(c, steps[..k]), home) ==> Readable(On(RunCluster(c, steps[..k]), home), steps[k].step))
  }

  lemma HostStepKeeps(c: Cluster, home: string, host: string, step: Step)
    requires ConsistentCluster(c) && host in c.machines
    requires forall h :: h in c.tokens && h != home ==> c.tokens[h] == map[]
    requires step.Acquire? || step.DieAcquiring? ==> host == home && Readable(On(c, home), step)
    ensures var after := ApplyOn(c, host, step);
      ConsistentCluster(after) && forall h :: h in after.tokens && h != home ==> after.tokens[h] == map[]
  {
    var w := On(c, host);
    assert Consistent(w);
    StepKeepsConsistent(w, step);
    var after := ApplyOn(c, host, step);
    forall h | h in after.machines
      ensures after.machines[h].host == h && Consistent(On(after, h))
      ensures forall pid :: pid in after.tokens[h] ==> after.tokens[h][pid].host == h
    {
      if h == host {
        assert On(after, h) == Apply(w, step);
      } else {
        assert Consistent(On(c, h)) && after.tokens[h] == c.tokens[h] && after.machines[h] == c.machines[h];
        assert after.tokens[h] != map[] ==> h == home && after.file == c.file;
      }
    }
  }

  /** It cannot happen while only one host ever tries: whatever the others do, there is one holder anywhere. */
  lemma {:induction false} OneHostExcludes(c: Cluster, home: string, steps: seq<HostStep>)
    requires ConsistentCluster(c) && (forall h :: h in c.tokens && h != home ==> c.tokens[h] == map[])
    requires TriedOnlyOn(c, home, steps)
    ensures var now := RunCluster(c, steps);
      && ConsistentCluster(now) && AtMostOneAnywhere(now)
      && forall h :: h in now.tokens && h != home ==> now.tokens[h] == map[]
  {
    if steps != [] {
      var n := |steps| - 1;
      forall k | 0 <= k < n ensures steps[..n][..k] == steps[..k] {
      }
      OneHostExcludes(c, home, steps[..n]);
      var before := RunCluster(c, steps[..n]);
      if steps[n].host in before.machines {
        HostStepKeeps(before, home, steps[n].host, steps[n].step);
      }
    }
    ConsistentClusterExcludes(RunCluster(c, steps));
  }

  // ---------------------------------------------------------------- the dead never block

  /** A holder recorded under another boot never blocks, whatever runs under its pid now. */
  lemma OtherBootNeverBlocks(holder: Holder, m: Machine, blind: set<int>)
    requires holder.bootId != "-" && m.bootId != "-" && holder.bootId != m.bootId
    ensures !Blocks(Held(holder), m, blind)
  {
  }

  /** Start times tell processes apart: they are recorded, and a reused pid does not repeat the recorded one. */
  predicate Distinguishing(w: World, step: Step)
  {
    && (step.Acquire? ==> step.recorded != UNREADABLE && step.blind == {})
    && (step.DieAcquiring? ==> step.blind == {})
    && (step.Spawn? && w.file.Held? && w.file.holder.pid == step.pid
        && (w.file.holder.bootId in {UNREADABLE, w.machine.bootId} || w.machine.bootId == UNREADABLE)
        ==> step.start != w.file.holder.startTime)
  }

  /** The file names a living process exactly when some live process holds the lock. */
  ghost predicate Exact(w: World)
  {
    && Consistent(w)
    && (w.file.Held? ==> w.file.holder.startTime != UNREADABLE)
    && (Blocks(w.file, w.machine, {}) ==> w.file.holder.pid in w.tokens)
  }

  lemma StepKeepsExact(w: World, step: Step)
    requires Exact(w) && Distinguishing(w, step)
    ensures Exact(Apply(w, step))
  {
    StepKeepsConsistent(w, step);
  }

  ghost predicate AllDistinguishing(w: World, steps: seq<Step>)
  {
    forall k :: 0 <= k < |steps| ==> Distinguishing(Run(w, steps[..k]), steps[k])
  }

  lemma SomeKey<K, V>(m: map<K, V>) returns (k: K)
    requires m != map[]
    ensures k in m
  {
    k :| k in m;
  }

  /** After any run a newcomer is refused exactly when a live process holds the lock; the dead never block. */
  lemma {:induction false} RefusedOnlyByTheLiving(w: World, steps: seq<Step>, pid: int)
    requires Exact(w) && AllDistinguishing(w, steps)
    requires pid in Run(w, steps).machine.starts
    ensures var now := Run(w, steps);
      pid in Apply(now, Acquire(pid, now.machine.starts[pid], {})).tokens <==> now.tokens == map[] || pid in now.tokens
  {
    ExactAfter(w, steps);
    var now := Run(w, steps);
    if now.tokens != map[] {
      var p := SomeKey(now.tokens);
      LiveHolderBlocks(now, {}, p);
    }
  }

  lemma {:induction false} ExactAfter(w: World, steps: seq<Step>)
    requires Exact(w) && AllDistinguishing(w, steps)
    ensures Exact(Run(w, steps))
  {
    if steps != [] {
      var front := steps[..|steps| - 1];
      forall k | 0 <= k < |front| ensures Distinguishing(Run(w, front[..k]), front[k]) {
        assert front[..k] == steps[..k];
        assert Distinguishing(Run(w, steps[..k]), steps[k]);
      }
      ExactAfter(w, front);
      assert Distinguishing(Run(w, steps[..|front|]), steps[|front|]);
      StepKeepsExact(Run(w, front), steps[|front|]);
    }
  }
}
