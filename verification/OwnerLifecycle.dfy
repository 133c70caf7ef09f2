/** OwnerLifecycle.children and OwnerLifecycle.cleanup, interleaved with the moves of every other process. */
module OwnerLifecycle {
  import opened Results
  import opened ProcessTable

  const BOUND_MS := 5000
  const TERM_MS := 2000
  const PAUSE_MS := 20

  datatype Signal = Term | Kill

  /** A delivered signal, with what the kernel knew of its target at that moment. */
  datatype Delivery = Delivery(handle: Handle, pid: int, start: int, parent: Handle, signal: Signal, elapsed: int)

  datatype Waited = NoChildren | NothingExited | Exited(pid: int)

  /** /proc/<pid>/stat: the PID of the parent, and the start ticks. */
  datatype Stat = Stat(parentPid: int, start: int)

  function ParentPid(k: Kernel, h: Handle): int
    requires h in k.table
  {
    if k.table[h].parent in k.table then k.table[k.table[h].parent].pid else 0
  }

  ghost predicate AllGone(k: Kernel) {
    forall h | h in k.owned :: h !in k.table
  }

  lemma ChainLater(a: Kernel, b: Kernel, c: Kernel)
    requires Valid(a) && Valid(b) && Later(a, b) && Later(b, c)
    ensures Later(a, c)
  {
    LaterChains(a, b, c);
  }

  lemma ChainKeeps(a: Kernel, b: Kernel, c: Kernel)
    requires Valid(a) && Valid(b) && Later(a, b) && Later(b, c) && KeepsChildren(a, b) && KeepsChildren(b, c)
    ensures Later(a, c) && KeepsChildren(a, c)
  {
    LaterChains(a, b, c);
    hide Valid, Later;
  }

  ghost predicate FoundChild(k: Kernel, pid: int) {
    exists h: Handle | h in k.table :: k.table[h].pid == pid && IsChild(k, h)
  }

  lemma StillChild(a: Kernel, b: Kernel, pid: int)
    requires Later(a, b) && KeepsChildren(a, b) && FoundChild(a, pid)
    ensures FoundChild(b, pid)
  {
    var h: Handle :| h in a.table && a.table[h].pid == pid && IsChild(a, h);
    assert IsChild(b, h) && b.table[h].pid == pid;
  }

  /** What reading the stat file of a PID tells at the moment of reading. */
  ghost predicate StatOf(k: Kernel, pid: int, stat: Option<Stat>) {
    match stat
    case Some(s) =>
      exists h: Handle | h in k.table ::
        k.table[h].pid == pid && s == Stat(ParentPid(k, h), k.table[h].start)
    case None => forall h: Handle | h in k.table :: k.table[h].pid != pid
  }

  predicate OwnerIsParent(k: Kernel, stat: Option<Stat>)
    requires k.owner in k.table
  {
    stat.Some? && stat.value.parentPid == k.table[k.owner].pid
  }

  /** Comparing PIDs is enough, as no two processes share one. */
  lemma StatTellsChildren(k: Kernel, pid: int, stat: Option<Stat>)
    requires Valid(k) && StatOf(k, pid, stat)
    ensures OwnerIsParent(k, stat) <==> FoundChild(k, pid)
    ensures forall h: Handle | h in k.table && k.table[h].pid == pid && stat.Some? ::
              stat.value.start == k.table[h].start
  {
    OwnerStays(k);
    hide Rooted;
  }

  /** A kernel with a finite future: the moves that the other processes still make. */
  class Host {
    var k: Kernel
    var future: seq<Move>
    var clock: int
    ghost var log: seq<Delivery>

    constructor (k: Kernel, future: seq<Move>)
      ensures this.k == k && this.future == future && log == []
    {
      this.k, this.future, clock := k, future, 0;
      log := [];
    }

    /** How long the other processes can keep the owner busy. */
    ghost function Fuel(): nat
      reads this
    {
      2 * |future| + |k.table|
    }

    /** The other processes run for a while and time passes. */
    method Interfere()
      requires Valid(k)
      modifies `k, `future, `clock
      ensures Valid(k) && Later(old(k), k) && KeepsChildren(old(k), k)
      ensures Fuel() <= old(Fuel()) && clock >= old(clock)
    {
      var steps := *;
      var i := 0;
      LaterSelf(k);
      hide Valid, Later, KeepsChildren, Apply;
      while i < steps && future != []
        invariant Valid(k) && Later(old(k), k) && KeepsChildren(old(k), k) && Fuel() <= old(Fuel())
        invariant clock == old(clock)
      {
        ghost var before := k;
        ApplyKeeps(k, future[0]);
        ChainKeeps(old(k), before, Apply(before, future[0]));
        k, future := Apply(k, future[0]), future[1..];
        i := i + 1;
      }
      var later := *;
      if later > clock { clock := later; }
    }

    method Sleep()
      requires Valid(k)
      modifies `k, `future, `clock
      ensures Valid(k) && Later(old(k), k) && KeepsChildren(old(k), k)
      ensures Fuel() <= old(Fuel()) && clock >= old(clock) + PAUSE_MS
    {
      Interfere();
      clock := clock + PAUSE_MS;
    }

    /** waitpid(-1, WNOHANG) */
    method WaitPid() returns (w: Waited)
      requires Valid(k)
      modifies `k, `future, `clock
      ensures Valid(k) && Later(old(k), k) && clock >= old(clock)
      ensures w.NoChildren? ==> forall h | h in k.table :: !IsChild(k, h)
      ensures Fuel() <= old(Fuel()) - (if w.Exited? then 1 else 0)
    {
      hide Valid, Later, KeepsChildren;
      Interfere();
      if h :| h in k.table && Waitable(k, h) {
        RemoveKeeps(k, h);
        ChainLater(old(k), k, Reaped(k, h));
        w := Exited(k.table[h].pid);
        k := Reaped(k, h);
      } else if exists h | h in k.table :: IsChild(k, h) {
        w := NothingExited;
      } else {
        w := NoChildren;
      }
    }

    /** pidfd_open */
    method PidfdOpen(pid: int) returns (fd: Option<Handle>)
      requires Valid(k)
      modifies `k, `future, `clock
      ensures Valid(k) && Later(old(k), k) && Fuel() <= old(Fuel()) && clock >= old(clock)
      ensures fd.Some? ==> fd.value in k.table && k.table[fd.value].pid == pid
    {
      Interfere();
      if h :| h in k.table && k.table[h].pid == pid { fd := Some(h); } else { fd := None; }
    }

    method ReadStat(pid: int) returns (stat: Option<Stat>)
      requires Valid(k)
      modifies `k, `future, `clock
      ensures Valid(k) && Later(old(k), k) && KeepsChildren(old(k), k)
      ensures Fuel() <= old(Fuel()) && clock >= old(clock)
      ensures StatOf(k, pid, stat)
    {
      Interfere();
      if h :| h in k.table && k.table[h].pid == pid {
        stat := Some(Stat(ParentPid(k, h), k.table[h].start));
      } else {
        stat := None;
      }
    }

    /** pidfd_send_signal: it fails when the process behind the handle has been reaped. */
    method Send(fd: Handle, signal: Signal, elapsed: int) returns (delivered: bool)
      requires Valid(k)
      modifies `k, `future, `clock, `log
      ensures Valid(k) && Later(old(k), k) && Fuel() <= old(Fuel()) && clock >= old(clock)
      ensures delivered ==> fd in k.table
      ensures log == if delivered
                     then old(log) + [Delivery(fd, k.table[fd].pid, k.table[fd].start, k.table[fd].parent, signal,
                                               elapsed)]
                     else old(log)
    {
      Interfere();
      delivered := fd in k.table;
      if delivered {
        log := log + [Delivery(fd, k.table[fd].pid, k.table[fd].start, k.table[fd].parent, signal, elapsed)];
      }
    }

    /** The PIDs of /proc at one moment. */
    method ListPids() returns (pids: seq<int>)
      requires Valid(k)
      ensures forall h | h in k.table :: k.table[h].pid in pids
    {
      pids := [];
      var rest := k.table.Keys;
      while rest != {}
        invariant rest <= k.table.Keys
        invariant forall h | h in k.table && h !in rest :: k.table[h].pid in pids
        decreases |rest|
      {
        var h :| h in rest;
        pids := pids + [k.table[h].pid];
        rest := rest - {h};
      }
    }

    /** children(): every process that is a child when the scan begins is found, and everything found is a child. */
    method Children() returns (owned: seq<int>)
      requires Valid(k)
      modifies `k, `future, `clock
      ensures Valid(k) && Later(old(k), k) && KeepsChildren(old(k), k)
      ensures Fuel() <= old(Fuel()) && clock >= old(clock)
      ensures forall h: Handle | IsChild(old(k), h) :: old(k).table[h].pid in owned
      ensures forall pid | pid in owned :: FoundChild(k, pid)
    {
      hide Valid, Later, KeepsChildren, FoundChild, StatOf;
      var pids := ListPids();
      owned := [];
      LaterSelf(k);
      for i := 0 to |pids|
        invariant Valid(k) && Later(old(k), k) && KeepsChildren(old(k), k)
        invariant Fuel() <= old(Fuel()) && clock >= old(clock)
        invariant forall h: Handle | IsChild(old(k), h) ::
                    old(k).table[h].pid in pids[i..] || old(k).table[h].pid in owned
        invariant forall pid | pid in owned :: FoundChild(k, pid)
      {
        ghost var before := k;
        var stat := ReadStat(pids[i]);
        ChainKeeps(old(k), before, k);
        forall pid | pid in owned ensures FoundChild(k, pid) { StillChild(before, k, pid); }
        StatTellsChildren(k, pids[i], stat);
        assert pids[i..] == [pids[i]] + pids[i + 1..];
        forall h: Handle | IsChild(old(k), h) && old(k).table[h].pid == pids[i] ensures FoundChild(k, pids[i]) {
          assert FoundChild(old(k), pids[i]) by { IsFound(old(k), h); }
          StillChild(old(k), k, pids[i]);
        }
        OwnerStays(k);
        if OwnerIsParent(k, stat) { owned := owned + [pids[i]]; }
      }
    }
  }

  lemma IsFound(k: Kernel, h: Handle)
    requires IsChild(k, h)
    ensures FoundChild(k, k.table[h].pid)
  {
  }

  lemma OwnerStays(k: Kernel)
    requires Valid(k)
    ensures k.owner in k.table
  {
  }

  // ----- cleanup

  /** The deliveries of one cleanup: to a child of the owner, SIGTERM first and SIGKILL later, and none twice. */
  predicate DeliveredWell(owner: Handle, log: seq<Delivery>, sent: set<(int, int, Signal)>) {
    && (forall d | d in log ::
          d.parent == owner && (d.signal == Term <==> d.elapsed < TERM_MS) && d.elapsed < BOUND_MS
          && (d.pid, d.start, d.signal) in sent)
    && forall i, j | 0 <= i < j < |log| ::
         (log[i].pid, log[i].start, log[i].signal) != (log[j].pid, log[j].start, log[j].signal)
  }

  class Owner {
    const host: Host
    /** The PIDs that cleanup reaped, in order. */
    var reaped: seq<int>

    constructor (host: Host)
      ensures this.host == host && reaped == []
    {
      this.host, reaped := host, [];
    }

    /** The inner loop: reap until nothing has exited. Each reaping uses up the future or the table. */
    method ReapExited() returns (alone: bool)
      requires Valid(host.k)
      modifies this`reaped, host`k, host`future, host`clock
      ensures Valid(host.k) && Later(old(host.k), host.k)
      ensures host.Fuel() <= old(host.Fuel()) && host.clock >= old(host.clock)
      ensures alone ==> forall h | h in host.k.table :: !IsChild(host.k, h)
      ensures old(reaped) <= reaped
    {
      hide Valid, Later;
      LaterSelf(host.k);
      while true
        invariant Valid(host.k) && Later(old(host.k), host.k)
        invariant host.Fuel() <= old(host.Fuel()) && host.clock >= old(host.clock) && old(reaped) <= reaped
        decreases host.Fuel()
      {
        ghost var before := host.k;
        var w := host.WaitPid();
        ChainLater(old(host.k), before, host.k);
        match w {
          case NoChildren => return true;
          case NothingExited => return false;
          case Exited(pid) => reaped := reaped + [pid];
        }
      }
    }

    /** One child: the pidfd is opened before the parent is proved, so the signal cannot reach another process. */
    method SignalChild(pid: int, signal: Signal, elapsed: int, sent: set<(int, int, Signal)>, ghost first: nat)
      returns (now: set<(int, int, Signal)>)
      requires Valid(host.k) && (signal == Term <==> elapsed < TERM_MS) && elapsed < BOUND_MS
      requires first <= |host.log| && DeliveredWell(host.k.owner, host.log[first..], sent)
      modifies host`k, host`future, host`clock, host`log
      ensures Valid(host.k) && Later(old(host.k), host.k)
      ensures host.Fuel() <= old(host.Fuel()) && host.clock >= old(host.clock)
      ensures old(host.log) <= host.log && DeliveredWell(host.k.owner, host.log[first..], now)
    {
      hide Valid, Later, KeepsChildren, FoundChild, StatOf, DeliveredWell;
      now := sent;
      var fd := host.PidfdOpen(pid);
      OwnerSame(old(host.k), host.k);
      if fd.None? { return; }
      ghost var k1 := host.k;
      var stat := host.ReadStat(pid);
      ghost var k2 := host.k;
      ChainLater(old(host.k), k1, k2);
      OwnerSame(old(host.k), k2);
      OwnerStays(k2);
      if !OwnerIsParent(host.k, stat) { return; }
      var identity := (pid, stat.value.start, signal);
      if identity in sent { return; }
      var delivered := host.Send(fd.value, signal, elapsed);
      ChainLater(old(host.k), k2, host.k);
      OwnerSame(old(host.k), host.k);
      if !delivered { return; }
      DeliveredToChild(k1, k2, host.k, fd.value, pid, stat);
      now := sent + {identity};
      ghost var d := host.log[|host.log| - 1];
      assert host.log[first..] == old(host.log)[first..] + [d];
      DeliverOne(host.k.owner, old(host.log)[first..], sent, d);
    }

    /** cleanup: complete means that it returned, otherwise it raised after its bound. */
    method Cleanup() returns (complete: bool)
      requires Valid(host.k)
      modifies this, host
      ensures Valid(host.k) && Later(old(host.k), host.k)
      ensures complete ==> AllGone(host.k)
      ensures complete ==> forall h: Handle :: !Descends(host.k, h)
      ensures complete ==> forall h: Handle | Descends(old(host.k), h) :: h !in host.k.table
      ensures !complete ==> host.clock - old(host.clock) >= BOUND_MS
      ensures old(host.log) <= host.log
      ensures forall d | d in host.log[|old(host.log)|..] ::
                d.parent == host.k.owner && (d.signal == Term <==> d.elapsed < TERM_MS) && d.elapsed < BOUND_MS
      ensures var added := host.log[|old(host.log)|..];
              forall i, j | 0 <= i < j < |added| ::
                (added[i].pid, added[i].start, added[i].signal) != (added[j].pid, added[j].start, added[j].signal)
    {
      hide Valid, Later, KeepsChildren, FoundChild, AllGone, Descends, DeliveredWell, Host.Fuel;
      var started := host.clock;
      ghost var first, owner := |host.log|, host.k.owner;
      NothingDelivered(owner);
      assert host.log[first..] == [];
      var sent: set<(int, int, Signal)> := {};
      LaterSelf(host.k);
      while true
        invariant Valid(host.k) && Later(old(host.k), host.k)
        invariant old(host.log) <= host.log && DeliveredWell(owner, host.log[first..], sent)
        invariant host.clock >= started
        decreases BOUND_MS - (host.clock - started)
      {
        ghost var k0 := host.k;
        var alone := ReapExited();
        ChainLater(old(host.k), k0, host.k);
        ghost var k1 := host.k;
        var children := host.Children();
        ChainLater(old(host.k), k1, host.k);
        if children == [] {
          ghost var k2 := host.k;
          var w := host.WaitPid();
          ChainLater(old(host.k), k2, host.k);
          match w {
            case NoChildren =>
              AloneMeansGone(old(host.k), host.k);
              OwnerSame(old(host.k), host.k);
              DeliveredMeans(owner, host.log[first..], sent);
              return true;
            case NothingExited =>
            case Exited(pid) => reaped := reaped + [pid];
          }
        }
        var elapsed := host.clock - started;
        OwnerSame(old(host.k), host.k);
        if elapsed >= BOUND_MS {
          DeliveredMeans(owner, host.log[first..], sent);
          return false;
        }
        var signal := if elapsed < TERM_MS then Term else Kill;
        for i := 0 to |children|
          invariant Valid(host.k) && Later(old(host.k), host.k) && host.clock >= started + elapsed
          invariant old(host.log) <= host.log && DeliveredWell(owner, host.log[first..], sent)
          invariant host.k.owner == owner
        {
          ghost var k3 := host.k;
          sent := SignalChild(children[i], signal, elapsed, sent, first);
          ChainLater(old(host.k), k3, host.k);
          OwnerSame(k3, host.k);
        }
        ghost var k4 := host.k;
        host.Sleep();
        ChainLater(old(host.k), k4, host.k);
      }
    }
  }

  lemma OwnerSame(a: Kernel, b: Kernel)
    requires Later(a, b)
    ensures a.owner == b.owner
  {
  }

  /** Between the opening and the proof the handle keeps its PID, so the proved child is the opened process. */
  lemma DeliveredToChild(atOpen: Kernel, proved: Kernel, now: Kernel, h: Handle, pid: int, stat: Option<Stat>)
    requires Valid(atOpen) && Valid(proved) && Later(atOpen, proved) && Later(proved, now)
    requires h in atOpen.table && atOpen.table[h].pid == pid && h in now.table
    requires StatOf(proved, pid, stat) && proved.owner in proved.table && OwnerIsParent(proved, stat)
    ensures IsChild(now, h) && now.table[h].pid == pid && now.table[h].start == stat.value.start
  {
    StatTellsChildren(proved, pid, stat);
    assert h < atOpen.next && h in proved.table;
    var child: Handle :| child in proved.table && proved.table[child].pid == pid && IsChild(proved, child);
    assert child == h;
  }

  lemma NothingDelivered(owner: Handle)
    ensures DeliveredWell(owner, [], {})
  {
  }

  lemma DeliveredMeans(owner: Handle, log: seq<Delivery>, sent: set<(int, int, Signal)>)
    requires DeliveredWell(owner, log, sent)
    ensures forall d | d in log ::
              d.parent == owner && (d.signal == Term <==> d.elapsed < TERM_MS) && d.elapsed < BOUND_MS
    ensures forall i, j | 0 <= i < j < |log| ::
              (log[i].pid, log[i].start, log[i].signal) != (log[j].pid, log[j].start, log[j].signal)
  {
  }

  lemma DeliverOne(owner: Handle, log: seq<Delivery>, sent: set<(int, int, Signal)>, d: Delivery)
    requires DeliveredWell(owner, log, sent) && (d.pid, d.start, d.signal) !in sent && d.parent == owner
    requires (d.signal == Term <==> d.elapsed < TERM_MS) && d.elapsed < BOUND_MS
    ensures DeliveredWell(owner, log + [d], sent + {(d.pid, d.start, d.signal)})
  {
  }

  /** ECHILD: no child, so no descendant, and nothing that ever descended from the owner is left. */
  lemma AloneMeansGone(was: Kernel, k: Kernel)
    requires Valid(was) && Valid(k) && Later(was, k) && forall h | h in k.table :: !IsChild(k, h)
    ensures AllGone(k)
    ensures forall h: Handle :: !Descends(k, h)
    ensures forall h: Handle | Descends(was, h) :: h !in k.table
  {
    forall h | h in k.owned ensures h !in k.table { ChildlessMeansAlone(k, h); }
    forall h: Handle | h in k.table ensures !Descends(k, h) { OwnedAreDescendants(k, h); }
    forall h: Handle | Descends(was, h) ensures h !in k.table {
      OwnedAreDescendants(was, h);
    }
  }
}
