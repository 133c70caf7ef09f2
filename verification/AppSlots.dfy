/** The four bundle slots of the applications directory, shared with other writers. */
module AppSlots {
  import opened Results

  datatype Slot = App | Staging | Previous | Failed

  /** What verification reads from a bundle's files. */
  datatype Content = Content(payload: nat, trusted: bool, signed: bool, hasRuntime: bool, isolatedLauncher: bool)

  /** A directory entry. A bundle is never empty; a dangling link is occupied without existing. */
  datatype Entry =
    | Bundle(inode: nat, content: Content)
    | EmptyDirectory(inode: nat)
    | DanglingLink(inode: nat)

  type Slots = map<Slot, Entry>

  /** Something is at this path, a dangling link included. */
  predicate Occupied(slots: Slots, s: Slot) {
    s in slots
  }

  /** Something that can be followed is at this path. */
  predicate Exists(slots: Slots, s: Slot) {
    s in slots && !slots[s].DanglingLink?
  }

  /** _bundle_transaction_identity: the owned inode and its verified payload, captured at once. */
  function Identity(slots: Slots, s: Slot): Option<Entry> {
    if s in slots && slots[s].Bundle? && slots[s].content.trusted then Some(slots[s]) else None
  }

  /** _bundle_location_matches: only the directory inode. */
  predicate LocationMatches(slots: Slots, s: Slot, identity: Entry) {
    Exists(slots, s) && slots[s].inode == identity.inode
  }

  /** _isolated_bundle_startup requires a runtime directory and a known launcher. */
  predicate IsolatedStartup(slots: Slots, s: Slot) {
    s in slots && slots[s].Bundle? && slots[s].content.hasRuntime && slots[s].content.isolatedLauncher
  }

  predicate HasRuntime(slots: Slots, s: Slot) {
    s in slots && slots[s].Bundle? && slots[s].content.hasRuntime
  }

  predicate Trusted(slots: Slots, s: Slot) {
    s in slots && slots[s].Bundle? && slots[s].content.trusted
  }

  predicate Signed(slots: Slots, s: Slot) {
    s in slots && slots[s].Bundle? && slots[s].content.signed
  }

  // ----- where an entry is

  predicate Holds(slots: Slots, e: Entry) {
    || (App in slots && slots[App] == e)
    || (Staging in slots && slots[Staging] == e)
    || (Previous in slots && slots[Previous] == e)
    || (Failed in slots && slots[Failed] == e)
  }

  /** No inode is in two slots. */
  predicate Injective(slots: Slots) {
    forall s, t | s in slots && t in slots && s != t :: slots[s].inode != slots[t].inode
  }

  function Moved(slots: Slots, src: Slot, dst: Slot): Slots
    requires src in slots
  {
    slots[dst := slots[src]] - {src}
  }

  lemma MovedKeeps(slots: Slots, src: Slot, dst: Slot)
    requires src in slots && dst !in slots && Injective(slots)
    ensures Injective(Moved(slots, src, dst))
    ensures forall e :: Holds(Moved(slots, src, dst), e) <==> Holds(slots, e)
  {
  }

  // ----- conservation when nobody else writes

  /** The slots and what has been removed so far. */
  datatype World = World(slots: Slots, discarded: set<Entry>)

  predicate Known(w: World, e: Entry) {
    Holds(w.slots, e) || e in w.discarded
  }

  /** No inode is in two slots, and nothing removed is still in a slot. */
  predicate Sound(w: World) {
    Injective(w.slots) && forall e | e in w.discarded :: !Holds(w.slots, e)
  }

  /** Nothing is lost or duplicated; only new unsigned candidates are ever removed. */
  ghost predicate Conserves(pre: World, added: set<Entry>, post: World) {
    && Sound(post)
    && (forall e :: Known(post, e) <==> Known(pre, e) || e in added)
    && (forall e | e in post.discarded && e !in pre.discarded ::
          e in added && e.Bundle? && !e.content.signed)
    && pre.discarded <= post.discarded
  }

  lemma ConservesRefl(w: World)
    requires Sound(w)
    ensures Conserves(w, {}, w)
  {
  }

  lemma ConservesTrans(a: World, x: set<Entry>, b: World, y: set<Entry>, c: World)
    requires Conserves(a, x, b) && Conserves(b, y, c)
    ensures Conserves(a, x + y, c)
  {
  }

  /** Staging a candidate whose inode is new. */
  lemma StagedConserves(w: World, candidate: Entry)
    requires Sound(w) && Staging !in w.slots && !Known(w, candidate)
    requires forall s | s in w.slots :: w.slots[s].inode != candidate.inode
    ensures Conserves(w, {candidate}, World(w.slots[Staging := candidate], w.discarded))
  {
  }

  lemma MovedConserves(w: World, src: Slot, dst: Slot)
    requires Sound(w) && src in w.slots && dst !in w.slots
    ensures Conserves(w, {}, World(Moved(w.slots, src, dst), w.discarded))
  {
    MovedKeeps(w.slots, src, dst);
  }

  /** Discarding the staged candidate, as seen from before it was staged. */
  lemma DiscardedConserves(w: World, candidate: Entry)
    requires Sound(w) && Staging !in w.slots && !Known(w, candidate) && candidate.Bundle? && !candidate.content.signed
    ensures Conserves(w, {candidate}, World(w.slots, w.discarded + {candidate}))
  {
  }

  function Union(sets: seq<set<Entry>>): set<Entry> {
    if sets == [] then {} else sets[0] + Union(sets[1..])
  }

  /** Over any run of conserving transactions: what was ever present is in exactly one slot, or was an unsigned
      candidate that some transaction removed. */
  lemma {:induction false} RunConserves(worlds: seq<World>, added: seq<set<Entry>>)
    requires |worlds| == |added| + 1 && Sound(worlds[0])
    requires forall i | 0 <= i < |added| :: Conserves(worlds[i], added[i], worlds[i + 1])
    ensures Conserves(worlds[0], Union(added), worlds[|added|])
  {
    if added == [] {
      ConservesRefl(worlds[0]);
    } else {
      forall i | 0 <= i < |added| - 1 ensures Conserves(worlds[1..][i], added[1..][i], worlds[1..][i + 1]) {
        assert Conserves(worlds[i + 1], added[i + 1], worlds[i + 2]);
      }
      RunConserves(worlds[1..], added[1..]);
      ConservesTrans(worlds[0], added[0], worlds[1], Union(added[1..]), worlds[|added|]);
    }
  }

  /** A bundle that no run staged can only move: it ends in exactly one slot. */
  lemma OriginalStaysInOneSlot(worlds: seq<World>, added: seq<set<Entry>>, e: Entry) returns (s: Slot)
    requires |worlds| == |added| + 1 && Sound(worlds[0])
    requires forall i | 0 <= i < |added| :: Conserves(worlds[i], added[i], worlds[i + 1])
    requires Holds(worlds[0].slots, e) && e !in Union(added)
    ensures var slots := worlds[|added|].slots;
            && s in slots && slots[s] == e
            && forall t | t in slots && slots[t].inode == e.inode :: t == s
  {
    RunConserves(worlds, added);
    var slots := worlds[|added|].slots;
    assert Known(worlds[0], e) && Known(worlds[|added|], e);
    s :| s in slots && slots[s] == e;
  }

  /** A completed health check: the slot, what it held when the check began, and the answer. */
  datatype Health = Health(slot: Slot, bundle: Option<Entry>)

  /** One rename as it happened: the slots at that moment, its source and its destination. */
  datatype RenameRecord = RenameRecord(at: Slots, src: Slot, dst: Slot)

  /** The destination was free, or an empty directory, which the file system lets a rename replace. */
  predicate ReplacesNothing(r: RenameRecord) {
    r.src in r.at && (r.dst in r.at ==> r.at[r.dst].EmptyDirectory?)
  }

  type HarmlessRename = r: RenameRecord | ReplacesNothing(r)
    witness RenameRecord(map[App := EmptyDirectory(0)], App, Previous)

  class AppsDirectory {
    var slots: Slots
    /** No other actor writes the slots. */
    const quiet: bool
    /** Entries removed by rmtree. */
    ghost var discarded: set<Entry>
    /** The last health check that passed. */
    ghost var lastHealthy: Option<Health>
    /** The renames that succeeded; by their type none of them replaced a bundle or a link. */
    ghost var renames: seq<HarmlessRename>

    constructor (slots: Slots, quiet: bool)
      ensures this.slots == slots && this.quiet == quiet && discarded == {} && lastHealthy == None
      ensures renames == []
    {
      this.slots, this.quiet, this.discarded, this.lastHealthy := slots, quiet, {}, None;
      renames := [];
    }

    /** Another actor may replace any slot whenever this process waits. */
    method Yield()
      modifies this`slots
      ensures quiet ==> slots == old(slots)
    {
      if !quiet {
        slots := *;
      }
    }

    /** Path.rename of one slot onto another. It can fail for any reason, cannot replace a bundle or a link,
        and other actors run around it. */
    method Rename(src: Slot, dst: Slot) returns (ok: bool)
      requires src != dst
      requires quiet ==> src in slots && dst !in slots
      modifies this`slots, this`renames
      ensures ok ==> exists at :: renames == old(renames) + [RenameRecord(at, src, dst)]
      ensures !ok ==> renames == old(renames)
      ensures quiet && ok ==> renames == old(renames) + [RenameRecord(old(slots), src, dst)]
      ensures quiet && ok ==> slots == Moved(old(slots), src, dst)
      ensures quiet && !ok ==> slots == old(slots)
    {
      Yield();
      var refused: bool := *;
      if refused || src !in slots || (dst in slots && !slots[dst].EmptyDirectory?) {
        Yield();
        return false;
      }
      renames := renames + [RenameRecord(slots, src, dst)];
      slots := Moved(slots, src, dst);
      Yield();
      return true;
    }

    /** _candidate_starts on the bundle in a slot: runs its code and answers anything. */
    method CandidateStarts(s: Slot) returns (healthy: bool)
      modifies this`slots, this`lastHealthy
      ensures quiet ==> slots == old(slots)
      ensures healthy ==> lastHealthy == Some(Health(s, old(Identity(slots, s))))
      ensures !healthy ==> lastHealthy == old(lastHealthy)
    {
      ghost var started := Identity(slots, s);
      Yield();
      healthy := *;
      if healthy { lastHealthy := Some(Health(s, started)); }
    }

    /** _prepare_task_state_release: the compatibility proof on a copy of the journal. */
    method StateCompatible() returns (ok: bool)
      modifies this`slots
      ensures quiet ==> slots == old(slots)
    {
      Yield();
      ok := *;
    }

    /** shutil.rmtree of the staging directory. */
    method RemoveStaging()
      modifies this`slots, this`discarded
      ensures slots == old(slots) - {Staging}
      ensures discarded == old(discarded) + if Staging in old(slots) then {old(slots)[Staging]} else {}
    {
      if Staging in slots { discarded := discarded + {slots[Staging]}; }
      slots := slots - {Staging};
    }
  }
}
