/** _install_macos_app_unlocked: admission, staging, checks, activation and confirmation. */
module Installer {
  import opened Results
  import opened AppSlots

  datatype Options = Options(
    signedCandidate: bool,
    firstInstall: bool,
    payloadCopy: bool,
    expectedCurrent: Option<Entry>)

  datatype Reason =
    | SignedBundleCopyRequired | BundleKindTransitionUnsupported | FirstInstallTargetOccupied
    | FirstInstallStateContinuityRequired | UntrustedAppPath | CurrentIdentityUnverified
    | LegacyStateMigrationRequired | FirstInstallSourceChanged | StagingPending | BundleSnapshotFailed
    | SnapshotFailed | CandidateInvalid | CandidateIdentityUnverified | CandidateStartFailed
    | RollbackPending | FailedCandidatePending | CandidateStateIncompatible | ActivationIdentityChanged
    | FirstInstallContinuityUnconfirmed | ActivationFailed | RollbackRequired
    | FirstInstallActivationUnconfirmed | PostActivationRecoveryRequired | PostActivationUnhealthy

  datatype Outcome = Installed(replaced: bool) | NotInstalled(reason: Reason)

  /** Refusals that only follow an activation attempt. */
  predicate Late(r: Reason) {
    r.ActivationFailed? || r.RollbackRequired? || r.PostActivationUnhealthy? || r.PostActivationRecoveryRequired?
  }

  /** Both roles and every recovery slot are as admitted, right before the first move. */
  predicate Ready(slots: Slots, candidate: Entry, prior: Option<Entry>) {
    && Identity(slots, Staging) == Some(candidate)
    && (prior.Some? ==> Identity(slots, App) == prior)
    && (prior.None? ==> !Occupied(slots, App))
    && !Occupied(slots, Previous) && !Occupied(slots, Failed)
  }

  /** The confirmed result of an installation. */
  predicate Confirmed(slots: Slots, candidate: Entry, prior: Option<Entry>) {
    && Identity(slots, App) == Some(candidate)
    && (prior.Some? ==> Identity(slots, Previous) == prior)
    && (prior.None? ==> !Occupied(slots, Previous))
    && !Occupied(slots, Failed)
  }

  /** The prior release, or its absence, is back in the app slot. */
  predicate Restored(slots: Slots, prior: Option<Entry>) {
    Identity(slots, App) == prior && (prior.None? ==> !Occupied(slots, App)) && !Occupied(slots, Previous)
  }

  /** The slots after both activation renames. */
  function Activated(slots: Slots, prior: Option<Entry>): Slots
    requires Staging in slots && (prior.Some? ==> App in slots)
  {
    if prior.Some? then Moved(Moved(slots, App, Previous), Staging, App) else Moved(slots, Staging, App)
  }

  /** The admission checks, in order; the app slot's identity is captured once. */
  method Admit(d: AppsDirectory, o: Options) returns (refusal: Option<Reason>)
    ensures refusal.Some? ==> !Late(refusal.value)
    ensures refusal.None? ==> (Exists(d.slots, App) ==> Identity(d.slots, App).Some?)
    ensures refusal.None? && o.firstInstall ==> !Occupied(d.slots, App)
    ensures refusal.None? && o.expectedCurrent.Some? ==> Identity(d.slots, App) == o.expectedCurrent
    ensures refusal.None? && o.signedCandidate ==> o.payloadCopy
    ensures refusal.None? && Occupied(d.slots, App) ==>
              Trusted(d.slots, App) && Signed(d.slots, App) == o.signedCandidate
  {
    if o.signedCandidate && !o.payloadCopy { return Some(SignedBundleCopyRequired); }
    if Occupied(d.slots, App) && o.signedCandidate != Signed(d.slots, App) {
      return Some(BundleKindTransitionUnsupported);
    }
    if o.firstInstall && Occupied(d.slots, App) { return Some(FirstInstallTargetOccupied); }
    var legacyState: bool := *;
    if o.firstInstall && legacyState { return Some(FirstInstallStateContinuityRequired); }
    if Occupied(d.slots, App) && !Trusted(d.slots, App) { return Some(UntrustedAppPath); }
    var current := if Exists(d.slots, App) then Identity(d.slots, App) else None;
    if o.expectedCurrent.Some? && current != o.expectedCurrent { return Some(CurrentIdentityUnverified); }
    if Exists(d.slots, App) && current == None { return Some(CurrentIdentityUnverified); }
    var migration: bool, approved: bool := *, *;
    if migration { return Some(LegacyStateMigrationRequired); }
    if !approved { return Some(FirstInstallSourceChanged); }
    return None;
  }

  /** staging.mkdir and the copy; a failed build removes staging, a failed payload copy keeps it. */
  method Stage(d: AppsDirectory, o: Options, candidate: Entry) returns (refusal: Option<Reason>, ghost staged: bool)
    requires candidate.Bundle? && candidate.content.signed == o.signedCandidate
    requires o.signedCandidate ==> o.payloadCopy
    modifies d`slots, d`discarded
    ensures refusal.Some? ==> !Late(refusal.value)
    ensures refusal.None? ==> staged && Staging !in old(d.slots)
    ensures refusal.None? ==> d.slots == old(d.slots)[Staging := candidate] && d.discarded == old(d.discarded)
    ensures refusal.None? ==> candidate.content.trusted
    ensures refusal.Some? && !staged ==> d.slots == old(d.slots) && d.discarded == old(d.discarded)
    ensures refusal.Some? && staged ==> Staging !in old(d.slots)
    ensures refusal.Some? && staged ==>
              ((d.slots == old(d.slots)[Staging := candidate] && d.discarded == old(d.discarded)) ||
               (d.slots == old(d.slots) && d.discarded == old(d.discarded) + {candidate} && !o.signedCandidate))
  {
    staged := false;
    if Occupied(d.slots, Staging) { return Some(StagingPending), false; }
    d.slots := d.slots[Staging := candidate];
    staged := true;
    var copied: bool := *;
    if o.payloadCopy {
      if !copied { return Some(BundleSnapshotFailed), true; }
    } else if !copied {
      assert d.slots - {Staging} == old(d.slots);
      d.RemoveStaging();
      return Some(SnapshotFailed), true;
    }
    var verified: bool := *;
    if !Trusted(d.slots, Staging) || !verified {
      if !o.signedCandidate {
        assert d.slots - {Staging} == old(d.slots);
        d.RemoveStaging();
      }
      return Some(CandidateInvalid), true;
    }
    var approved: bool := *;
    if !approved { return Some(FirstInstallSourceChanged), true; }
    if Identity(d.slots, Staging) == None { return Some(CandidateIdentityUnverified), true; }
    return None, true;
  }

  /** An unsigned candidate is removed, whatever staging now holds; a signed one stays. */
  method Discard(d: AppsDirectory, o: Options)
    modifies d`slots, d`discarded
    ensures o.signedCandidate ==> d.slots == old(d.slots) && d.discarded == old(d.discarded)
    ensures !o.signedCandidate ==> d.slots == old(d.slots) - {Staging}
    ensures !o.signedCandidate ==>
              d.discarded == old(d.discarded) + (if Staging in old(d.slots) then {old(d.slots)[Staging]} else {})
  {
    if !o.signedCandidate { d.RemoveStaging(); }
  }

  /** What checking may have done to the slots when nobody else writes them. */
  twostate predicate OnlyDiscarded(d: AppsDirectory, o: Options)
    reads d
  {
    || (d.slots == old(d.slots) && d.discarded == old(d.discarded))
    || (!o.signedCandidate && Staging in old(d.slots) && d.slots == old(d.slots) - {Staging}
        && d.discarded == old(d.discarded) + {old(d.slots)[Staging]})
  }

  /** Startup, pending slots and state compatibility, then both identities and all slots once more. */
  method Check(d: AppsDirectory, o: Options, candidate: Entry, prior: Option<Entry>) returns (refusal: Option<Reason>)
    requires Identity(d.slots, Staging) == Some(candidate)
    modifies d`slots, d`discarded, d`lastHealthy
    ensures refusal.Some? ==> !Late(refusal.value)
    ensures refusal.None? ==> Ready(d.slots, candidate, prior) && d.discarded == old(d.discarded)
    ensures d.quiet ==> OnlyDiscarded(d, o)
    ensures d.quiet && refusal.None? ==> d.slots == old(d.slots)
  {
    var starts := d.CandidateStarts(Staging);
    var sealed: bool := *;
    if !starts || !sealed {
      Discard(d, o);
      return Some(CandidateStartFailed);
    }
    if Occupied(d.slots, Previous) {
      Discard(d, o);
      return Some(RollbackPending);
    }
    if Occupied(d.slots, Failed) {
      Discard(d, o);
      return Some(FailedCandidatePending);
    }
    var continuity: bool := *;
    if o.firstInstall && !continuity { return Some(FirstInstallStateContinuityRequired); }
    var compatible := d.StateCompatible();
    if !compatible {
      Discard(d, o);
      return Some(CandidateStateIncompatible);
    }
    var lateState: bool, lateLegacy: bool := *, *;
    if o.firstInstall && lateState { return Some(FirstInstallStateContinuityRequired); }
    if lateLegacy { return Some(LegacyStateMigrationRequired); }
    if Identity(d.slots, Staging) != Some(candidate)
       || (prior.Some? && Identity(d.slots, App) != prior)
       || (prior.None? && Occupied(d.slots, App))
       || Occupied(d.slots, Previous) || Occupied(d.slots, Failed) {
      return Some(ActivationIdentityChanged);
    }
    var approved: bool, fenced: bool := *, *;
    if !approved { return Some(FirstInstallSourceChanged); }
    if o.firstInstall && prior.Some? { return Some(FirstInstallTargetOccupied); }
    if o.firstInstall && !fenced { return Some(FirstInstallContinuityUnconfirmed); }
    return None;
  }

  /** Both roles in place and no recovery slot in use. */
  predicate RestoreHolds(slots: Slots, candidate: Entry, prior: Option<Entry>) {
    && Identity(slots, App) == prior && Identity(slots, Staging) == Some(candidate)
    && !Occupied(slots, Previous) && !Occupied(slots, Failed)
  }

  /** The two renames and the handler for a failure of either. */
  method Activate(d: AppsDirectory, o: Options, candidate: Entry, prior: Option<Entry>)
    returns (refusal: Option<Reason>, ghost moved: bool)
    requires Ready(d.slots, candidate, prior)
    modifies d`slots, d`discarded, d`lastHealthy, d`renames
    ensures refusal.None? ==> d.discarded == old(d.discarded)
    ensures d.quiet && refusal.None? ==> d.slots == Activated(old(d.slots), prior)
    ensures refusal.Some? ==> refusal.value == ActivationFailed || refusal.value == RollbackRequired
    ensures refusal == Some(ActivationFailed) ==> Restored(d.slots, prior)
    ensures refusal == Some(ActivationFailed) && moved ==> d.lastHealthy == Some(Health(App, prior)) && prior.Some?
    ensures forall e | e in d.discarded && e !in old(d.discarded) :: e == candidate && !o.signedCandidate
    ensures d.quiet && refusal == Some(ActivationFailed) ==> OnlyDiscarded(d, o)
    ensures d.quiet && refusal == Some(RollbackRequired) ==>
              && d.discarded == old(d.discarded)
              && (d.slots == old(d.slots) || (App in old(d.slots) && d.slots == Moved(old(d.slots), App, Previous)))
  {
    moved := false;
    var failed := false;
    if prior.Some? {
      var ok := d.Rename(App, Previous);
      failed := !ok;
    }
    if !failed {
      var ok := d.Rename(Staging, App);
      failed := !ok;
    }
    if !failed { return None, false; }
    refusal, moved := Recover(d, o, candidate, prior);
    assert d.quiet && prior.Some? && App in old(d.slots) ==>
        Moved(Moved(old(d.slots), App, Previous), Previous, App) == old(d.slots);
  }

  /** The handler of an activation failure: it deletes staging only while it still holds the candidate. */
  method Recover(d: AppsDirectory, o: Options, candidate: Entry, prior: Option<Entry>)
    returns (refusal: Option<Reason>, ghost wasMoved: bool)
    modifies d`slots, d`discarded, d`lastHealthy, d`renames
    ensures refusal == Some(ActivationFailed) || refusal == Some(RollbackRequired)
    ensures refusal == Some(ActivationFailed) ==> Restored(d.slots, prior)
    ensures refusal == Some(ActivationFailed) && wasMoved ==>
              d.lastHealthy == Some(Health(App, prior)) && prior.Some?
    ensures forall e | e in d.discarded && e !in old(d.discarded) :: e == candidate && !o.signedCandidate
    ensures d.quiet && refusal == Some(RollbackRequired) ==> d.discarded == old(d.discarded)
    ensures d.quiet && refusal == Some(RollbackRequired) ==>
              || d.slots == old(d.slots)
              || (Previous in old(d.slots) && App !in old(d.slots) && d.slots == Moved(old(d.slots), Previous, App))
    ensures d.quiet && refusal == Some(ActivationFailed) ==>
              var back := if Previous in old(d.slots) then Moved(old(d.slots), Previous, App) else old(d.slots);
              || (d.slots == back && d.discarded == old(d.discarded))
              || (!o.signedCandidate && d.slots == back - {Staging} && d.discarded == old(d.discarded) + {candidate}
                  && Identity(back, Staging) == Some(candidate))
  {
    wasMoved := false;
    var absent := !Occupied(d.slots, App);
    var retainedAbsent := !Occupied(d.slots, Previous);
    var unchangedStaging := Identity(d.slots, Staging) == Some(candidate);
    var unmoved := prior.Some? && retainedAbsent && Identity(d.slots, App) == prior;
    var moved := prior.Some? && absent && Identity(d.slots, Previous) == prior;
    var safe := unchangedStaging && !Occupied(d.slots, Failed)
                && (if prior.Some? then unmoved || moved else absent && retainedAbsent);
    if !safe { return Some(RollbackRequired), false; }
    var restored := prior.None? || unmoved;
    if moved {
      wasMoved := true;
      var ok := d.Rename(Previous, App);
      restored := ok && RestoreHolds(d.slots, candidate, prior) && IsolatedStartup(d.slots, App);
      if restored {
        var healthy := d.CandidateStarts(App);
        restored := healthy && RestoreHolds(d.slots, candidate, prior);
      }
    }
    if !o.signedCandidate && restored && Identity(d.slots, Staging) == Some(candidate) {
      d.RemoveStaging();
    }
    return Some(if restored then ActivationFailed else RollbackRequired), wasMoved;
  }

  /** Health at the final path, and the way back when it fails. */
  method Confirm(d: AppsDirectory, o: Options, candidate: Entry, prior: Option<Entry>) returns (r: Outcome)
    requires d.quiet ==> Confirmed(d.slots, candidate, prior) && Staging !in d.slots
    modifies d`slots, d`lastHealthy, d`renames
    ensures r.Installed? ==> r.replaced == prior.Some? && Confirmed(d.slots, candidate, prior)
                             && d.lastHealthy == Some(Health(App, Some(candidate)))
    ensures r == NotInstalled(PostActivationUnhealthy) && prior.Some? ==>
              && Restored(d.slots, prior) && LocationMatches(d.slots, Failed, candidate)
              && d.lastHealthy == Some(Health(App, prior))
    ensures r == NotInstalled(PostActivationUnhealthy) && prior.None? ==>
              && !Occupied(d.slots, App) && !Occupied(d.slots, Previous)
              && LocationMatches(d.slots, Failed, candidate)
    ensures r.Installed? || r.reason in {FirstInstallActivationUnconfirmed, PostActivationRecoveryRequired,
                                         PostActivationUnhealthy, FirstInstallContinuityUnconfirmed}
    ensures d.quiet ==>
              var away := Moved(old(d.slots), App, Failed);
              var back := if prior.Some? then Moved(away, Previous, App) else away;
              && (r.Installed? ==> d.slots == old(d.slots))
              && (r == NotInstalled(PostActivationUnhealthy) ==> d.slots == back)
              && (d.slots == old(d.slots) || d.slots == away || d.slots == back)
  {
    var healthy := Identity(d.slots, App) == Some(candidate);
    if healthy {
      healthy := d.CandidateStarts(App);
      healthy := healthy && Identity(d.slots, App) == Some(candidate);
    }
    if !healthy {
      r := Withdraw(d, o, candidate, prior);
      return;
    }
    var continuous: bool := *;
    if o.firstInstall && !continuous { return NotInstalled(FirstInstallContinuityUnconfirmed); }
    if (prior.Some? && Identity(d.slots, Previous) != prior)
       || (prior.None? && Occupied(d.slots, Previous)) || Occupied(d.slots, Failed) {
      return NotInstalled(PostActivationRecoveryRequired);
    }
    return Installed(prior.Some?);
  }

  /** Quarantine an unhealthy candidate and bring the prior release back. */
  method Withdraw(d: AppsDirectory, o: Options, candidate: Entry, prior: Option<Entry>) returns (r: Outcome)
    requires d.quiet ==> Confirmed(d.slots, candidate, prior) && Staging !in d.slots
    modifies d`slots, d`lastHealthy, d`renames
    ensures r == NotInstalled(PostActivationUnhealthy) && prior.Some? ==>
              && Restored(d.slots, prior) && LocationMatches(d.slots, Failed, candidate)
              && d.lastHealthy == Some(Health(App, prior))
    ensures r == NotInstalled(PostActivationUnhealthy) && prior.None? ==>
              && !Occupied(d.slots, App) && !Occupied(d.slots, Previous)
              && LocationMatches(d.slots, Failed, candidate)
    ensures r.NotInstalled? && r.reason in {FirstInstallActivationUnconfirmed, PostActivationRecoveryRequired,
                                            PostActivationUnhealthy}
    ensures d.quiet ==>
              var away := Moved(old(d.slots), App, Failed);
              var back := if prior.Some? then Moved(away, Previous, App) else away;
              && (r == NotInstalled(PostActivationUnhealthy) ==> d.slots == back)
              && (d.slots == old(d.slots) || d.slots == away || d.slots == back)
  {
    if o.firstInstall { return NotInstalled(FirstInstallActivationUnconfirmed); }
    if !LocationMatches(d.slots, App, candidate) || Occupied(d.slots, Failed)
       || (prior.Some? && Identity(d.slots, Previous) != prior)
       || (prior.None? && Occupied(d.slots, Previous)) {
      return NotInstalled(PostActivationRecoveryRequired);
    }
    var ok := d.Rename(App, Failed);
    if ok {
      if Occupied(d.slots, App) || !LocationMatches(d.slots, Failed, candidate)
         || (prior.Some? && Identity(d.slots, Previous) != prior)
         || (prior.None? && Occupied(d.slots, Previous)) {
        return NotInstalled(PostActivationRecoveryRequired);
      }
      if prior.Some? { ok := d.Rename(Previous, App); }
    }
    if !ok {
      if !Occupied(d.slots, App) && LocationMatches(d.slots, Failed, candidate) {
        var _ := d.Rename(Failed, App);
        assert d.quiet ==> Moved(Moved(old(d.slots), App, Failed), Failed, App) == old(d.slots);
      }
      return NotInstalled(PostActivationRecoveryRequired);
    }
    if prior.Some? {
      var proven := Identity(d.slots, App) == prior && LocationMatches(d.slots, Failed, candidate)
                    && !Occupied(d.slots, Previous) && IsolatedStartup(d.slots, App);
      if proven && HasRuntime(d.slots, App) { proven := d.CandidateStarts(App); }
      if !proven || Identity(d.slots, App) != prior || !LocationMatches(d.slots, Failed, candidate)
         || Occupied(d.slots, Previous) {
        return NotInstalled(PostActivationRecoveryRequired);
      }
    }
    return NotInstalled(PostActivationUnhealthy);
  }

  ghost function WorldOf(d: AppsDirectory): World
    reads d
  {
    World(d.slots, d.discarded)
  }

  /** The slots of a quiet directory after a confirmed installation. */
  function InstalledSlots(slots: Slots, candidate: Entry): Slots {
    (if App in slots then slots[Previous := slots[App]] else slots)[App := candidate]
  }

  lemma ActivatedConserves(w: World, prior: Option<Entry>)
    requires Sound(w) && Staging in w.slots && (prior.Some? ==> App in w.slots) && (prior.None? ==> App !in w.slots)
    requires Previous !in w.slots
    ensures Conserves(w, {}, World(Activated(w.slots, prior), w.discarded))
  {
    if prior.Some? {
      var v := World(Moved(w.slots, App, Previous), w.discarded);
      MovedConserves(w, App, Previous);
      MovedConserves(v, Staging, App);
      ConservesTrans(w, {}, v, {}, World(Activated(w.slots, prior), w.discarded));
    } else {
      MovedConserves(w, Staging, App);
    }
  }

  lemma WithdrawnConserves(w: World, prior: Option<Entry>)
    requires Sound(w) && App in w.slots && Failed !in w.slots && (prior.Some? ==> Previous in w.slots)
    ensures var away := Moved(w.slots, App, Failed);
            && Conserves(w, {}, World(away, w.discarded))
            && (prior.Some? ==> Conserves(w, {}, World(Moved(away, Previous, App), w.discarded)))
  {
    var v := World(Moved(w.slots, App, Failed), w.discarded);
    MovedConserves(w, App, Failed);
    if prior.Some? {
      MovedConserves(v, Previous, App);
      ConservesTrans(w, {}, v, {}, World(Moved(v.slots, Previous, App), w.discarded));
    }
  }

  /** Every entry is in one slot at most, and the candidate is not there yet, nor anything on its inode. */
  predicate Unseen(w: World, candidate: Entry) {
    Sound(w) && !Known(w, candidate) && forall s | s in w.slots :: w.slots[s].inode != candidate.inode
  }

  /** Staged, then at most discarded. */
  lemma CheckedConserves(w: World, candidate: Entry, v: World)
    requires Unseen(w, candidate) && Staging !in w.slots && candidate.Bundle?
    requires var staged := w.slots[Staging := candidate];
             || v == World(staged, w.discarded)
             || (!candidate.content.signed && v == World(staged - {Staging}, w.discarded + {candidate}))
    ensures Conserves(w, {candidate}, v)
  {
    assert w.slots[Staging := candidate] - {Staging} == w.slots;
    if v.slots == w.slots {
      DiscardedConserves(w, candidate);
    } else {
      StagedConserves(w, candidate);
    }
  }

  /** What an attempt from a checked candidate may promise. */
  method Proceed(d: AppsDirectory, o: Options, candidate: Entry, prior: Option<Entry>)
    returns (r: Outcome, ghost moved: bool)
    requires Ready(d.slots, candidate, prior)
    requires d.quiet ==> Sound(WorldOf(d))
    requires candidate.content.signed == o.signedCandidate
    modifies d
    ensures r.Installed? ==> r.replaced == prior.Some? && Confirmed(d.slots, candidate, prior)
                             && d.lastHealthy == Some(Health(App, Some(candidate)))
    ensures r == NotInstalled(ActivationFailed) ==>
              && Restored(d.slots, prior) && (moved ==> d.lastHealthy == Some(Health(App, prior)))
    ensures r == NotInstalled(PostActivationUnhealthy) ==>
              && Restored(d.slots, prior) && LocationMatches(d.slots, Failed, candidate)
              && (prior.Some? ==> d.lastHealthy == Some(Health(App, prior)))
    ensures d.quiet && r.Installed? ==> d.slots == Activated(old(d.slots), prior) && d.discarded == old(d.discarded)
    ensures d.quiet && r == NotInstalled(PostActivationUnhealthy) ==>
              d.slots == (old(d.slots) - {Staging})[Failed := candidate]
    ensures d.quiet ==> OnlyDiscarded(d, o) || Conserves(old(WorldOf(d)), {}, WorldOf(d))
  {
    hide Conserves, Sound, LocationMatches;
    ghost var w1 := WorldOf(d);
    var refused;
    refused, moved := Activate(d, o, candidate, prior);
    if refused.Some? {
      if d.quiet {
        if App in w1.slots && d.slots == Moved(w1.slots, App, Previous) { MovedConserves(w1, App, Previous); }
      }
      return NotInstalled(refused.value), moved;
    }
    ghost var w2 := WorldOf(d);
    if d.quiet { ActivatedConserves(w1, prior); ActivatedPlaces(w1.slots, candidate, prior); }
    r := Confirm(d, o, candidate, prior);
    if d.quiet && WorldOf(d) != w2 {
      ConservesSound(w1, {}, w2);
      WithdrawnConserves(w2, prior);
      ghost var none: set<Entry> := {};
      ConservesTrans(w1, none, w2, none, WorldOf(d));
      assert none + none == none;
    }
  }

  lemma ConservesSound(w: World, added: set<Entry>, v: World)
    requires Conserves(w, added, v)
    ensures Sound(v)
  {
  }

  /** The slots after both renames, and after a withdrawal from them. */
  lemma ActivatedPlaces(slots: Slots, candidate: Entry, prior: Option<Entry>)
    requires Ready(slots, candidate, prior)
    ensures var after := Activated(slots, prior);
            && Confirmed(after, candidate, prior) && Staging !in after
            && var away := Moved(after, App, Failed);
               (if prior.Some? then Moved(away, Previous, App) else away) == (slots - {Staging})[Failed := candidate]
  {
  }

  /** Activation as seen from before the candidate was staged. */
  method ProceedChecked(d: AppsDirectory, o: Options, candidate: Entry, prior: Option<Entry>, ghost w0: World)
    returns (r: Outcome, ghost moved: bool)
    requires Ready(d.slots, candidate, prior) && candidate.content.signed == o.signedCandidate
    requires d.quiet ==> Unseen(w0, candidate) && Staging !in w0.slots
    requires d.quiet ==> WorldOf(d) == World(w0.slots[Staging := candidate], w0.discarded)
    modifies d
    ensures r.Installed? ==> r.replaced == prior.Some? && Confirmed(d.slots, candidate, prior)
                             && d.lastHealthy == Some(Health(App, Some(candidate)))
    ensures r == NotInstalled(ActivationFailed) ==>
              && Restored(d.slots, prior) && (moved ==> d.lastHealthy == Some(Health(App, prior)))
    ensures r == NotInstalled(PostActivationUnhealthy) ==>
              && Restored(d.slots, prior) && LocationMatches(d.slots, Failed, candidate)
              && (prior.Some? ==> d.lastHealthy == Some(Health(App, prior)))
    ensures d.quiet && r.Installed? ==> d.slots == InstalledSlots(w0.slots, candidate) && d.discarded == w0.discarded
    ensures d.quiet && r == NotInstalled(PostActivationUnhealthy) ==> d.slots == w0.slots[Failed := candidate]
    ensures d.quiet ==> Conserves(w0, {candidate}, WorldOf(d))
  {
    hide Conserves, LocationMatches;
    ghost var w1 := WorldOf(d);
    if d.quiet {
      StagedConserves(w0, candidate);
      ConservesSound(w0, {candidate}, w1);
      assert w1.slots - {Staging} == w0.slots;
      assert Activated(w1.slots, prior) == InstalledSlots(w0.slots, candidate);
    }
    r, moved := Proceed(d, o, candidate, prior);
    if d.quiet {
      if Conserves(w1, {}, WorldOf(d)) {
        ConservesTrans(w0, {candidate}, w1, {}, WorldOf(d));
        assert {candidate} + {} == {candidate};
      } else {
        CheckedConserves(w0, candidate, WorldOf(d));
      }
    }
  }

  /** _install_macos_app_unlocked */
  method Install(d: AppsDirectory, o: Options, candidate: Entry)
    returns (r: Outcome, ghost moved: bool, ghost staged: bool)
    requires candidate.Bundle? && candidate.content.signed == o.signedCandidate
    requires d.quiet ==> Unseen(WorldOf(d), candidate)
    modifies d
    ensures r.Installed? ==> r.replaced == old(Exists(d.slots, App))
                             && Confirmed(d.slots, candidate, old(Identity(d.slots, App)))
                             && d.lastHealthy == Some(Health(App, Some(candidate)))
    ensures r == NotInstalled(ActivationFailed) ==>
              && Restored(d.slots, old(Identity(d.slots, App)))
              && (moved ==> d.lastHealthy == Some(Health(App, old(Identity(d.slots, App)))))
    ensures r == NotInstalled(PostActivationUnhealthy) ==>
              && Restored(d.slots, old(Identity(d.slots, App))) && LocationMatches(d.slots, Failed, candidate)
              && (old(Occupied(d.slots, App)) ==> d.lastHealthy == Some(Health(App, old(Identity(d.slots, App)))))
    ensures d.quiet && r.Installed? ==>
              d.slots == InstalledSlots(old(d.slots), candidate) && d.discarded == old(d.discarded)
    ensures d.quiet && r == NotInstalled(PostActivationUnhealthy) ==> d.slots == old(d.slots)[Failed := candidate]
    ensures d.quiet ==> Conserves(old(WorldOf(d)), if staged then {candidate} else {}, WorldOf(d))
  {
    hide Conserves, Sound, LocationMatches, Known;
    moved, staged := false, false;
    ghost var w0 := WorldOf(d);
    var refused := Admit(d, o);
    if refused.Some? {
      if d.quiet { ConservesRefl(w0); }
      return NotInstalled(refused.value), false, false;
    }
    var prior := if Exists(d.slots, App) then Identity(d.slots, App) else None;
    refused, staged := Stage(d, o, candidate);
    if refused.Some? {
      if d.quiet {
        if staged { CheckedConserves(w0, candidate, WorldOf(d)); } else { ConservesRefl(w0); }
      }
      return NotInstalled(refused.value), false, staged;
    }
    refused := Check(d, o, candidate, prior);
    if refused.Some? {
      if d.quiet { CheckedConserves(w0, candidate, WorldOf(d)); }
      return NotInstalled(refused.value), false, true;
    }
    r, moved := ProceedChecked(d, o, candidate, prior, w0);
    staged := true;
  }
}
