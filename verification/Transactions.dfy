/** Sequences of installations and rollbacks in a directory that nobody else writes. */
module Transactions {
  import opened Results
  import opened AppSlots
  import Installer
  import Rollback

  datatype Operation = InstallOp(options: Installer.Options, candidate: Entry) | RollbackOp

  /** A candidate is built with the signature that its options say, on an inode that nothing else has. */
  ghost predicate FreshFor(w: World, op: Operation) {
    op.InstallOp? ==>
      && op.candidate.Bundle? && op.candidate.content.signed == op.options.signedCandidate
      && forall e | Known(w, e) :: e.inode != op.candidate.inode
  }

  /** No two operations stage the same inode. */
  predicate DistinctCandidates(ops: seq<Operation>) {
    forall i, j | 0 <= i < j < |ops| && ops[i].InstallOp? && ops[j].InstallOp? ::
      ops[i].candidate.inode != ops[j].candidate.inode
  }

  lemma FreshStays(w: World, added: set<Entry>, v: World, op: Operation)
    requires Conserves(w, added, v) && FreshFor(w, op)
    requires op.InstallOp? ==> forall e | e in added :: e.inode != op.candidate.inode
    ensures FreshFor(v, op)
  {
  }

  lemma SlotIsKnown(w: World)
    ensures forall s | s in w.slots :: Known(w, w.slots[s])
  {
    forall s | s in w.slots ensures Known(w, w.slots[s]) {
      assert s == App || s == Staging || s == Previous || s == Failed;
    }
  }

  /** As nothing is lost, a confirmed replacement has not overwritten a retained release. */
  lemma PreviousWasFree(w: World, candidate: Entry)
    requires Sound(w) && App in w.slots && forall e | Known(w, e) :: e.inode != candidate.inode
    requires Conserves(w, {candidate}, World(Installer.InstalledSlots(w.slots, candidate), w.discarded))
    ensures Previous !in w.slots
  {
    SlotIsKnown(w);
    OverwrittenIsLost(w.slots, candidate);
  }

  lemma OverwrittenIsLost(slots: Slots, candidate: Entry)
    requires Injective(slots) && App in slots && forall s | s in slots :: slots[s].inode != candidate.inode
    ensures Previous in slots ==> !Holds(Installer.InstalledSlots(slots, candidate), slots[Previous])
  {
  }

  /** One operation of either kind; staged is what it has put into the directory. */
  method Perform(d: AppsDirectory, op: Operation) returns (ghost staged: set<Entry>)
    requires d.quiet && Sound(Installer.WorldOf(d)) && FreshFor(Installer.WorldOf(d), op)
    modifies d
    ensures Conserves(old(Installer.WorldOf(d)), staged, Installer.WorldOf(d))
    ensures staged <= if op.InstallOp? then {op.candidate} else {}
  {
    hide Conserves, Sound;
    SlotIsKnown(Installer.WorldOf(d));
    match op {
      case InstallOp(options, candidate) =>
        var r, moved, put := Installer.Install(d, options, candidate);
        staged := if put then {candidate} else {};
      case RollbackOp =>
        var r := Rollback.RollBack(d);
        staged := {};
    }
  }

  /** Any sequence of installations and rollbacks, with any health answers and any rename failures: every bundle that
      was there at the start ends in exactly one slot, and only unsigned candidates of the sequence are ever removed. */
  method RunOperations(d: AppsDirectory, ops: seq<Operation>) returns (ghost staged: seq<set<Entry>>)
    requires d.quiet && Sound(Installer.WorldOf(d)) && DistinctCandidates(ops)
    requires forall op | op in ops :: FreshFor(Installer.WorldOf(d), op)
    modifies d
    ensures Conserves(old(Installer.WorldOf(d)), Union(staged), Installer.WorldOf(d))
    ensures |staged| == |ops|
            && forall i | 0 <= i < |ops| :: staged[i] <= if ops[i].InstallOp? then {ops[i].candidate} else {}
    ensures forall e | old(Holds(d.slots, e)) :: InOneSlot(d.slots, e)
    ensures forall e | e in d.discarded && e !in old(d.discarded) ::
              exists op | op in ops :: op.InstallOp? && op.candidate == e && !op.options.signedCandidate
  {
    hide Conserves, Sound, FreshFor, DistinctCandidates;
    staged := [];
    ghost var worlds := [Installer.WorldOf(d)];
    for i := 0 to |ops|
      invariant |staged| == i && |worlds| == i + 1 && worlds[0] == old(Installer.WorldOf(d))
      invariant worlds[i] == Installer.WorldOf(d) && Sound(worlds[i])
      invariant forall k | 0 <= k < i :: Conserves(worlds[k], staged[k], worlds[k + 1])
      invariant forall k | 0 <= k < i :: staged[k] <= if ops[k].InstallOp? then {ops[k].candidate} else {}
      invariant forall k | i <= k < |ops| :: FreshFor(worlds[i], ops[k])
    {
      ghost var put := Perform(d, ops[i]);
      ghost var now := Installer.WorldOf(d);
      forall k | i < k < |ops| ensures FreshFor(now, ops[k]) {
        OthersDiffer(ops, i, k);
        FreshStays(worlds[i], put, now, ops[k]);
      }
      Installer.ConservesSound(worlds[i], put, now);
      staged, worlds := staged + [put], worlds + [now];
    }
    RunConserves(worlds, staged);
    forall e | old(Holds(d.slots, e)) ensures InOneSlot(d.slots, e) {
      StartedIsNotStaged(worlds[0], ops, staged, e);
      var s := OriginalStaysInOneSlot(worlds, staged, e);
    }
    RemovedIsCandidate(worlds[0], ops, staged, worlds[|ops|]);
  }

  /** The entry is in some slot, and its inode in no other. */
  predicate InOneSlot(slots: Slots, e: Entry) {
    exists s | s in slots :: slots[s] == e && forall t | t in slots && slots[t].inode == e.inode :: t == s
  }

  lemma OthersDiffer(ops: seq<Operation>, i: nat, k: nat)
    requires DistinctCandidates(ops) && i < k < |ops|
    ensures ops[i].InstallOp? && ops[k].InstallOp? ==> ops[i].candidate.inode != ops[k].candidate.inode
  {
  }

  lemma {:induction false} UnionHas(sets: seq<set<Entry>>, e: Entry)
    ensures e in Union(sets) <==> exists i | 0 <= i < |sets| :: e in sets[i]
  {
    if sets != [] {
      UnionHas(sets[1..], e);
      if i :| 0 <= i < |sets| && e in sets[i] { assert i > 0 ==> e in sets[1..][i - 1]; }
      if i :| 0 <= i < |sets[1..]| && e in sets[1..][i] { assert e in sets[i + 1]; }
      assert e in sets[0] ==> exists i | 0 <= i < |sets| :: e in sets[i];
    }
  }

  lemma StartedIsNotStaged(w: World, ops: seq<Operation>, staged: seq<set<Entry>>, e: Entry)
    requires Holds(w.slots, e) && |staged| == |ops| && forall op | op in ops :: FreshFor(w, op)
    requires forall i | 0 <= i < |ops| :: staged[i] <= if ops[i].InstallOp? then {ops[i].candidate} else {}
    ensures e !in Union(staged)
  {
    UnionHas(staged, e);
    assert Known(w, e);
    forall i | 0 <= i < |staged| ensures e !in staged[i] { assert ops[i] in ops && FreshFor(w, ops[i]); }
  }

  lemma RemovedIsCandidate(w: World, ops: seq<Operation>, staged: seq<set<Entry>>, v: World)
    requires Conserves(w, Union(staged), v) && |staged| == |ops| && forall op | op in ops :: FreshFor(w, op)
    requires forall i | 0 <= i < |ops| :: staged[i] <= if ops[i].InstallOp? then {ops[i].candidate} else {}
    ensures forall e | e in v.discarded && e !in w.discarded ::
              exists op | op in ops :: op.InstallOp? && op.candidate == e && !op.options.signedCandidate
  {
    forall e | e in v.discarded && e !in w.discarded
      ensures exists op | op in ops :: op.InstallOp? && op.candidate == e && !op.options.signedCandidate
    {
      UnionHas(staged, e);
      var i :| 0 <= i < |staged| && e in staged[i];
      assert ops[i] in ops && FreshFor(w, ops[i]);
    }
  }

  /** A candidate that is in the app slot was staged. */
  lemma StagedWhenInstalled(w: World, put: set<Entry>, v: World, candidate: Entry)
    requires Conserves(w, put, v) && put <= {candidate} && Holds(v.slots, candidate) && !Known(w, candidate)
    ensures put == {candidate}
  {
    assert Known(v, candidate);
  }

  /** A healthy replacement followed by a healthy rollback restores the original app: every slot is as it was, except
      that the candidate is kept as failed, and nothing has been removed. */
  method InstallThenRollBack(d: AppsDirectory, o: Installer.Options, candidate: Entry)
    returns (installed: Installer.Outcome, rolledBack: Rollback.Outcome)
    requires d.quiet && Sound(Installer.WorldOf(d)) && FreshFor(Installer.WorldOf(d), InstallOp(o, candidate))
    modifies d
    ensures installed == Installer.Installed(true) && rolledBack.RolledBack? ==>
              && d.slots == old(d.slots)[Failed := candidate] && d.discarded == old(d.discarded)
              && Identity(d.slots, App) == old(Identity(d.slots, App)) && Identity(d.slots, App).Some?
              && d.lastHealthy == Some(Health(App, Identity(d.slots, App)))
    ensures Conserves(old(Installer.WorldOf(d)), {candidate}, Installer.WorldOf(d))
            || Conserves(old(Installer.WorldOf(d)), {}, Installer.WorldOf(d))
  {
    hide Conserves, Sound;
    ghost var w0, slots := Installer.WorldOf(d), d.slots;
    SlotIsKnown(w0);
    ghost var moved, staged;
    installed, moved, staged := Installer.Install(d, o, candidate);
    ghost var w1, put := Installer.WorldOf(d), if staged then {candidate} else {};
    Installer.ConservesSound(w0, put, w1);
    if installed == Installer.Installed(true) {
      StagedWhenInstalled(w0, put, w1, candidate);
      PreviousWasFree(w0, candidate);
      Rollback.InstallThenRollback(slots, candidate);
    }
    rolledBack := Rollback.RollBack(d);
    ConservesTrans(w0, put, w1, {}, Installer.WorldOf(d));
    assert put + {} == put;
  }
}
