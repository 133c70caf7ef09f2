/** _rollback_macos_app_unlocked: restore the retained release without deleting the current one. */
module Rollback {
  import opened Results
  import opened AppSlots
  import Installer

  datatype Reason =
    | RollbackBundleKindMismatch | RollbackUnavailable | LegacyRollbackUnsupported | RollbackIdentityUnverified
    | RollbackStartupIsolationUnsupported | RollbackUnhealthy | RollbackStateIncompatible
    | RollbackIdentityChanged | RollbackStartFailed | ManualRecoveryRequired | RollbackActivationFailed
    | RollbackRecoveryRequired | RollbackPostActivationUnhealthy

  datatype Outcome = RolledBack | NotRolledBack(reason: Reason)

  /** The confirmed result: the retained release runs and the displaced one is kept as failed. */
  predicate Confirmed(slots: Slots, current: Option<Entry>, previous: Option<Entry>) {
    && Identity(slots, App) == previous && previous.Some?
    && Identity(slots, Failed) == current && current.Some?
    && !Occupied(slots, Previous)
  }

  /** Both versions are where the rollback found them. */
  predicate InPlace(slots: Slots, current: Option<Entry>, previous: Option<Entry>) {
    Identity(slots, App) == current && Identity(slots, Previous) == previous && !Occupied(slots, Failed)
  }

  /** The two slot states that a quiet rollback can leave besides the original one. */
  function Away(slots: Slots): Slots
    requires App in slots
  {
    Moved(slots, App, Failed)
  }

  function Swapped(slots: Slots): Slots
    requires App in slots && Previous in slots
  {
    Moved(Away(slots), Previous, App)
  }

  method CheckRetained(d: AppsDirectory) returns (refusal: Option<Reason>)
    modifies d`slots, d`lastHealthy
    ensures d.quiet ==> d.slots == old(d.slots)
    ensures refusal.Some? ==>
              !refusal.value.RollbackActivationFailed? && !refusal.value.RollbackPostActivationUnhealthy?
    ensures refusal.None? ==>
              && old(Identity(d.slots, App)).Some? && old(Identity(d.slots, Previous)).Some?
              && InPlace(d.slots, old(Identity(d.slots, App)), old(Identity(d.slots, Previous)))
  {
    if Signed(d.slots, App) != Signed(d.slots, Previous) { return Some(RollbackBundleKindMismatch); }
    if !Trusted(d.slots, App) || !Trusted(d.slots, Previous) || Occupied(d.slots, Failed) {
      return Some(RollbackUnavailable);
    }
    if !HasRuntime(d.slots, Previous) { return Some(LegacyRollbackUnsupported); }
    var current, previous := Identity(d.slots, App), Identity(d.slots, Previous);
    if current == None || previous == None { return Some(RollbackIdentityUnverified); }
    if !IsolatedStartup(d.slots, Previous) { return Some(RollbackStartupIsolationUnsupported); }
    var healthy := d.CandidateStarts(Previous);
    if !healthy { return Some(RollbackUnhealthy); }
    var compatible := d.StateCompatible();
    if !compatible { return Some(RollbackStateIncompatible); }
    if !InPlace(d.slots, current, previous) { return Some(RollbackIdentityChanged); }
    return None;
  }

  /** The handler for a failed activation rename. */
  method Reinstate(d: AppsDirectory, current: Option<Entry>, previous: Option<Entry>) returns (reason: Reason)
    requires d.quiet ==> Failed in d.slots && Previous in d.slots && App !in d.slots
    modifies d`slots, d`lastHealthy, d`renames
    ensures reason == ManualRecoveryRequired || reason == RollbackActivationFailed
    ensures reason == RollbackActivationFailed ==>
              InPlace(d.slots, current, previous) && d.lastHealthy == Some(Health(App, current))
    ensures d.quiet ==> d.slots == old(d.slots) || d.slots == Moved(old(d.slots), Failed, App)
    ensures d.quiet && reason == RollbackActivationFailed ==> d.slots == Moved(old(d.slots), Failed, App)
  {
    if Occupied(d.slots, App) || Identity(d.slots, Failed) != current || Identity(d.slots, Previous) != previous {
      return ManualRecoveryRequired;
    }
    var ok := d.Rename(Failed, App);
    if !ok || !InPlace(d.slots, current, previous) || !IsolatedStartup(d.slots, App) {
      return ManualRecoveryRequired;
    }
    var healthy := d.CandidateStarts(App);
    if !healthy || !InPlace(d.slots, current, previous) { return ManualRecoveryRequired; }
    return RollbackActivationFailed;
  }

  /** The retained release failed at its final path: bring the newer one back. */
  method Revert(d: AppsDirectory, current: Option<Entry>, previous: Entry) returns (reason: Reason)
    requires d.quiet ==> App in d.slots && Failed in d.slots && Previous !in d.slots
    modifies d`slots, d`lastHealthy, d`renames
    ensures reason == RollbackRecoveryRequired || reason == RollbackPostActivationUnhealthy
    ensures reason == RollbackPostActivationUnhealthy ==>
              && Identity(d.slots, App) == current && LocationMatches(d.slots, Previous, previous)
              && !Occupied(d.slots, Failed) && d.lastHealthy == Some(Health(App, current))
    ensures d.quiet ==>
              var away := Moved(old(d.slots), App, Previous);
              && (d.slots == old(d.slots) || d.slots == away || d.slots == Moved(away, Failed, App))
              && (reason == RollbackPostActivationUnhealthy ==> d.slots == Moved(away, Failed, App))
  {
    if !LocationMatches(d.slots, App, previous) || Occupied(d.slots, Previous) || Identity(d.slots, Failed) != current {
      return RollbackRecoveryRequired;
    }
    var ok := d.Rename(App, Previous);
    if !ok { return RollbackRecoveryRequired; }
    if Occupied(d.slots, App) || !LocationMatches(d.slots, Previous, previous) || Identity(d.slots, Failed) != current {
      return RollbackRecoveryRequired;
    }
    ok := d.Rename(Failed, App);
    if !ok { return RollbackRecoveryRequired; }
    if Identity(d.slots, App) != current || !LocationMatches(d.slots, Previous, previous)
       || Occupied(d.slots, Failed) || !IsolatedStartup(d.slots, App) {
      return RollbackRecoveryRequired;
    }
    var healthy := d.CandidateStarts(App);
    if !healthy || Identity(d.slots, App) != current || !LocationMatches(d.slots, Previous, previous)
       || Occupied(d.slots, Failed) {
      return RollbackRecoveryRequired;
    }
    return RollbackPostActivationUnhealthy;
  }

  lemma SwapConserves(w: World)
    requires Sound(w) && App in w.slots && Previous in w.slots && Failed !in w.slots
    ensures Conserves(w, {}, World(Away(w.slots), w.discarded))
    ensures Conserves(w, {}, World(Swapped(w.slots), w.discarded))
    ensures Conserves(w, {}, World(Moved(Swapped(w.slots), App, Previous), w.discarded))
    ensures Moved(Away(w.slots), Failed, App) == w.slots
    ensures Moved(Moved(Swapped(w.slots), App, Previous), Failed, App) == w.slots
  {
    var v := World(Away(w.slots), w.discarded);
    var u := World(Swapped(w.slots), w.discarded);
    MovedConserves(w, App, Failed);
    MovedConserves(v, Previous, App);
    ConservesTrans(w, {}, v, {}, u);
    MovedConserves(u, App, Previous);
    ConservesTrans(w, {}, u, {}, World(Moved(u.slots, App, Previous), w.discarded));
  }

  /** _rollback_macos_app_unlocked */
  method RollBack(d: AppsDirectory) returns (r: Outcome)
    requires d.quiet ==> Sound(Installer.WorldOf(d))
    modifies d
    ensures r.RolledBack? ==>
              && Confirmed(d.slots, old(Identity(d.slots, App)), old(Identity(d.slots, Previous)))
              && d.lastHealthy == Some(Health(App, old(Identity(d.slots, Previous))))
    ensures r == NotRolledBack(RollbackActivationFailed) ==>
              && InPlace(d.slots, old(Identity(d.slots, App)), old(Identity(d.slots, Previous)))
              && d.lastHealthy == Some(Health(App, old(Identity(d.slots, App))))
    ensures r == NotRolledBack(RollbackPostActivationUnhealthy) ==>
              && Identity(d.slots, App) == old(Identity(d.slots, App)) && !Occupied(d.slots, Failed)
              && d.lastHealthy == Some(Health(App, old(Identity(d.slots, App))))
    ensures d.discarded == old(d.discarded)
    ensures d.quiet ==> Conserves(old(Installer.WorldOf(d)), {}, Installer.WorldOf(d))
    ensures d.quiet && r.RolledBack? ==>
              && App in old(d.slots) && Previous in old(d.slots) && d.slots == Swapped(old(d.slots))
    ensures d.quiet && r == NotRolledBack(RollbackActivationFailed) ==> d.slots == old(d.slots)
    ensures d.quiet && r == NotRolledBack(RollbackPostActivationUnhealthy) ==> d.slots == old(d.slots)
  {
    hide Conserves, Sound, LocationMatches;
    ghost var w := Installer.WorldOf(d);
    if d.quiet { ConservesRefl(w); }
    var current, previous := Identity(d.slots, App), Identity(d.slots, Previous);
    var refused := CheckRetained(d);
    if refused.Some? { return NotRolledBack(refused.value); }
    if d.quiet { SwapConserves(w); }
    var ok := d.Rename(App, Failed);
    if !ok { return NotRolledBack(RollbackStartFailed); }
    ok := d.Rename(Previous, App);
    if !ok {
      var reason := Reinstate(d, current, previous);
      return NotRolledBack(reason);
    }
    var healthy := Identity(d.slots, App) == previous;
    if healthy {
      healthy := d.CandidateStarts(App);
      healthy := healthy && Identity(d.slots, App) == previous;
    }
    if !healthy {
      var reason := Revert(d, current, previous.value);
      return NotRolledBack(reason);
    }
    if Identity(d.slots, Failed) != current || Occupied(d.slots, Previous) {
      return NotRolledBack(RollbackRecoveryRequired);
    }
    return RolledBack;
  }

  /** A confirmed replacement followed by a confirmed rollback brings the original app back,
      with the candidate kept as failed and every other slot as it was. */
  lemma InstallThenRollback(slots: Slots, candidate: Entry)
    requires App in slots && Previous !in slots && Failed !in slots
    ensures var installed := Installer.InstalledSlots(slots, candidate);
            && App in installed && Previous in installed
            && Swapped(installed) == slots[Failed := candidate]
  {
  }
}
