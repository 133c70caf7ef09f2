/** aggregate: three receipts are accepted together or not at all. */
module Receipts {
  import opened Results
  import opened CollectionInventory
  import opened SuiteReports

  datatype EventOutcome = SkippedEvent | ErrorEvent

  datatype Event = Event(path: string, node: Digest, outcome: EventOutcome)

  datatype Execution = Execution(count: int, digest: Digest)

  datatype Runtime = Runtime(python: string, pytest: string, platform: string, image: string)

  /** A receipt of the right shape. */
  datatype Receipt = Receipt(
    format: string, shard: Shard, source: string, runtime: Runtime, universe: Inventory, plan: map<Shard, Inventory>,
    selected: Inventory, started: Execution, finished: Execution, exitStatus: int,
    outcomes: Counts, subtests: Counts, teardown: Counts, all: seq<Event>, owned: seq<Event>)

  const FORMAT := "jae-full-suite-three-shards-v1"

  datatype Summary = Summary(universe: Inventory, outcomes: Counts, subtests: Counts, teardown: Counts,
                             skippedEvents: int, errorEvents: int)

  // ----- shapes

  /** The parts of the path between slashes. */
  function Components(path: string): seq<string>
    decreases path
  {
    if path == "" then [""]
    else
      var rest := Components(path[1..]);
      if path[0] == '/' then [""] + rest
      else if rest == [] then [[path[0]]]
      else [[path[0]] + rest[0]] + rest[1..]
  }

  predicate ValidPath(path: string) {
    path != "" && path[0] != '/' && forall c | c in Components(path) :: c != "" && c != "." && c != ".."
  }

  /** validate_inventory */
  predicate ValidInventory(v: Inventory) {
    v.count >= 1 && v.files != [] && (forall p | p in v.files :: ValidPath(p)) && Increasing(v.files)
  }

  function OwnedEvents(events: seq<Event>, s: Shard): seq<Event> {
    if events == [] then []
    else OwnedEvents(events[..|events| - 1], s)
         + (if Owner(events[|events| - 1].path) == s then [events[|events| - 1]] else [])
  }

  predicate ThreeShards(plan: map<Shard, Inventory>) {
    plan.Keys == {Consumer, BrowserContract, Remainder}
  }

  predicate ValidRuntime(r: Runtime) {
    r.python != "" && r.pytest != "" && r.image != "" && r.platform == "linux"
  }

  predicate EventsPass(r: Receipt, shard: Shard) {
    (forall e | e in r.all :: ValidPath(e.path) && e.outcome.SkippedEvent?) && r.owned == OwnedEvents(r.all, shard)
  }

  predicate OwnFiles(plan: map<Shard, Inventory>) {
    forall s | s in plan :: ValidInventory(plan[s]) && forall p | p in plan[s].files :: Owner(p) == s
  }

  /** The partition is a disjoint complete union of the universe; sorted, the files are its files. */
  predicate PlanCovers(r: Receipt)
    requires ThreeShards(r.plan)
  {
    && NoRepeats(AllFiles(r.plan)) && multiset(AllFiles(r.plan)) == multiset(r.universe.files)
    && r.plan[Consumer].count + r.plan[BrowserContract].count + r.plan[Remainder].count == r.universe.count
    && CollectionRoot(r.plan) == r.universe.digest
  }

  predicate Executed(r: Receipt, shard: Shard)
    requires shard in r.plan
  {
    var selected := r.plan[shard];
    && ValidInventory(r.selected) && r.started.count >= 1 && r.finished.count >= 1
    && r.selected == selected && r.started == Execution(selected.count, selected.digest) && r.finished == r.started
  }

  predicate CountsPass(r: Receipt, shard: Shard)
    requires shard in r.plan
  {
    && Passing(r.outcomes) && Passing(r.subtests) && Passing(r.teardown)
    && Total(r.outcomes) == r.plan[shard].count
  }

  /** All checks of one receipt, in the order of the source. */
  predicate ReceiptPasses(r: Receipt, shard: Shard, source: string) {
    && r.format == FORMAT && r.shard == shard && r.source == source && r.exitStatus == 0
    && EventsPass(r, shard) && ValidInventory(r.universe) && ThreeShards(r.plan) && OwnFiles(r.plan) && PlanCovers(r)
    && shard in r.plan && Executed(r, shard) && ValidRuntime(r.runtime) && CountsPass(r, shard)
  }

  datatype Identity = Identity(source: string, runtime: Runtime, universe: Inventory, plan: map<Shard, Inventory>,
                               all: seq<Event>)

  function IdentityOf(r: Receipt): Identity {
    Identity(r.source, r.runtime, r.universe, r.plan, r.all)
  }

  // ----- aggregate

  /** A shard that is missing or whose receipt does not decode to the right shape is not in the map. */
  predicate Accepted(outputs: map<Shard, Receipt>, source: string, success: bool) {
    && success && outputs.Keys == {Consumer, BrowserContract, Remainder}
    && (forall s | s in outputs :: ReceiptPasses(outputs[s], s, source))
    && (forall s | s in outputs :: IdentityOf(outputs[s]) == IdentityOf(outputs[Consumer]))
  }

  method Aggregate(outputs: map<Shard, Receipt>, source: string, success: bool) returns (r: Option<Summary>)
    ensures r.Some? <==> Accepted(outputs, source, success)
    ensures r.Some? ==>
              var a, b, c := outputs[Consumer], outputs[BrowserContract], outputs[Remainder];
              && r.value.universe == a.universe
              && r.value.outcomes == Plus(Plus(a.outcomes, b.outcomes), c.outcomes)
              && r.value.subtests == Plus(Plus(a.subtests, b.subtests), c.subtests)
              && r.value.teardown == Plus(Plus(a.teardown, b.teardown), c.teardown)
              && r.value.errorEvents == 0
              && r.value.skippedEvents == |a.owned| + |b.owned| + |c.owned|
  {
    hide ReceiptPasses;
    if !success || outputs.Keys != {Consumer, BrowserContract, Remainder} { return None; }
    var common: Option<Identity> := None;
    var outcomes, subtests, teardown, skipped, errors := ZERO, ZERO, ZERO, 0, 0;
    for n := 0 to |SHARDS|
      invariant forall m | 0 <= m < n :: ReceiptPasses(outputs[SHARDS[m]], SHARDS[m], source)
      invariant n == 0 <==> common == None
      invariant forall m | 0 <= m < n :: Some(IdentityOf(outputs[SHARDS[m]])) == common
      invariant outcomes == SumTo(outputs, n).outcomes && subtests == SumTo(outputs, n).subtests
      invariant teardown == SumTo(outputs, n).teardown && skipped == SumTo(outputs, n).skippedEvents && errors == 0
    {
      var shard := SHARDS[n];
      var receipt := outputs[shard];
      if !ReceiptPasses(receipt, shard, source) {
        return None;
      }
      var counted, failed := CountEvents(receipt, shard, source);
      skipped, errors := skipped + counted, errors + failed;
      var identity := IdentityOf(receipt);
      if common.Some? && identity != common.value {
        assert IdentityOf(outputs[SHARDS[0]]) == common.value;
        return None;
      }
      common := Some(identity);
      outcomes, subtests := Plus(outcomes, receipt.outcomes), Plus(subtests, receipt.subtests);
      teardown := Plus(teardown, receipt.teardown);
    }
    ThreeSums(outputs);
    assert ReceiptPasses(outputs[SHARDS[0]], SHARDS[0], source);
    assert ReceiptPasses(outputs[SHARDS[1]], SHARDS[1], source);
    assert ReceiptPasses(outputs[SHARDS[2]], SHARDS[2], source);
    assert Some(IdentityOf(outputs[SHARDS[0]])) == Some(IdentityOf(outputs[SHARDS[1]])) == common;
    assert Some(IdentityOf(outputs[SHARDS[2]])) == common;
    return Some(Summary(common.value.universe, outcomes, subtests, teardown, skipped, errors));
  }

  /** The loop over the owned events of one passing receipt. */
  method CountEvents(r: Receipt, shard: Shard, source: string) returns (skipped: int, errors: int)
    requires ReceiptPasses(r, shard, source)
    ensures skipped == |r.owned| && errors == 0
  {
    skipped, errors := 0, 0;
    OwnedEventsIn(r.all, shard);
    for i := 0 to |r.owned|
      invariant skipped == i && errors == 0
    {
      assert r.owned[i] in r.all;
      match r.owned[i].outcome {
        case SkippedEvent => skipped := skipped + 1;
        case ErrorEvent => errors := errors + 1;
      }
    }
  }

  lemma {:induction false} OwnedEventsIn(events: seq<Event>, s: Shard)
    ensures forall e | e in OwnedEvents(events, s) :: e in events && Owner(e.path) == s
  {
    hide Owner;
    if events != [] { OwnedEventsIn(events[..|events| - 1], s); }
  }

  /** The running totals of the loop. */
  function SumTo(outputs: map<Shard, Receipt>, n: nat): Summary
    requires n <= |SHARDS| && outputs.Keys == {Consumer, BrowserContract, Remainder}
  {
    if n == 0 then Summary(Inventory([], 0, OtherHex("")), ZERO, ZERO, ZERO, 0, 0)
    else
      var before, r := SumTo(outputs, n - 1), outputs[SHARDS[n - 1]];
      Summary(before.universe, Plus(before.outcomes, r.outcomes), Plus(before.subtests, r.subtests),
              Plus(before.teardown, r.teardown), before.skippedEvents + |r.owned|, 0)
  }

  lemma ThreeSums(outputs: map<Shard, Receipt>)
    requires outputs.Keys == {Consumer, BrowserContract, Remainder}
    ensures var t, a, b, c := SumTo(outputs, |SHARDS|), outputs[Consumer], outputs[BrowserContract], outputs[Remainder];
            && t.outcomes == Plus(Plus(a.outcomes, b.outcomes), c.outcomes)
            && t.subtests == Plus(Plus(a.subtests, b.subtests), c.subtests)
            && t.teardown == Plus(Plus(a.teardown, b.teardown), c.teardown)
            && t.skippedEvents == |a.owned| + |b.owned| + |c.owned|
  {
    assert SumTo(outputs, 1).outcomes == outputs[Consumer].outcomes;
    assert SumTo(outputs, 2) == SumTo(outputs, 2);
  }

  // ----- what acceptance means

  lemma {:induction false} EventsSplit(events: seq<Event>)
    ensures |OwnedEvents(events, Consumer)| + |OwnedEvents(events, BrowserContract)| + |OwnedEvents(events, Remainder)|
            == |events|
  {
    hide Owner;
    if events != [] { EventsSplit(events[..|events| - 1]); }
  }

  /** The terminal outcomes add up to the full collection, and every collection event is counted once. */
  lemma AcceptedAddsUp(outputs: map<Shard, Receipt>, source: string)
    requires Accepted(outputs, source, true)
    ensures var a, b, c := outputs[Consumer], outputs[BrowserContract], outputs[Remainder];
            && Total(Plus(Plus(a.outcomes, b.outcomes), c.outcomes)) == a.universe.count
            && |a.owned| + |b.owned| + |c.owned| == |a.all|
  {
    hide OwnFiles, ValidInventory, Executed, OwnedEvents;
    var a, b, c := outputs[Consumer], outputs[BrowserContract], outputs[Remainder];
    assert IdentityOf(b) == IdentityOf(a) && IdentityOf(c) == IdentityOf(a);
    EventsSplit(a.all);
  }

  /** Every file of the universe belongs to exactly one plan, the one of its owner. */
  lemma AcceptedCoversFiles(outputs: map<Shard, Receipt>, source: string, file: string, s: Shard)
    requires Accepted(outputs, source, true) && s in outputs
    ensures var u := outputs[Consumer].universe;
            && ThreeShards(outputs[Consumer].plan)
            && (file in outputs[Consumer].plan[s].files <==> file in u.files && Owner(file) == s)
            && outputs[s].selected.files == outputs[Consumer].plan[s].files
  {
    hide EventsPass, ValidInventory, CountsPass, Owner, CollectionRoot, NoRepeats;
    var a := outputs[Consumer];
    assert IdentityOf(outputs[s]) == IdentityOf(a);
    assert ReceiptPasses(a, Consumer, source);
    var all := AllFiles(a.plan);
    assert file in multiset(all) <==> file in multiset(a.universe.files);
    assert file in all <==> file in a.plan[Consumer].files || file in a.plan[BrowserContract].files
                            || file in a.plan[Remainder].files;
  }

  /** The executed node ids are bound to the collection: the universe digest is the root of what the shards ran. */
  lemma AcceptedRanCollection(outputs: map<Shard, Receipt>, source: string)
    requires Accepted(outputs, source, true)
    ensures var a, b, c := outputs[Consumer], outputs[BrowserContract], outputs[Remainder];
            a.universe.digest == Root([(Consumer, a.finished.count, a.finished.digest),
                                       (BrowserContract, b.finished.count, b.finished.digest),
                                       (Remainder, c.finished.count, c.finished.digest)])
  {
    hide EventsPass, ValidInventory, OwnFiles, CountsPass, NoRepeats, AllFiles;
    var a, b, c := outputs[Consumer], outputs[BrowserContract], outputs[Remainder];
    assert IdentityOf(b) == IdentityOf(a) && IdentityOf(c) == IdentityOf(a);
  }

  // ----- honest owners

  /** One owner's run of a collection: the reports of each test, and how the session ended. */
  datatype Run = Run(tests: seq<seq<Report>>, exitStatus: int)

  /** pytest_sessionfinish after a run that started and finished exactly the selected tests, in their order. */
  function HonestReceipt(records: seq<Record>, events: seq<Event>, shard: Shard, source: string, runtime: Runtime,
                         run: Run): Receipt
  {
    var plan := PlanOf(records);
    var ran := Execution(|Owned(records, shard)|, DigestOf(Nodes(Owned(records, shard))));
    var totals := TalliedTests(NO_TALLIES, run.tests);
    Receipt(FORMAT, shard, source, runtime, UniverseOf(records), plan, InventoryOf(Owned(records, shard)),
            ran, ran, run.exitStatus, totals.outcomes, totals.subtests, totals.teardown, events,
            OwnedEvents(events, shard))
  }

  predicate NothingFailed(run: Run) {
    forall test | test in run.tests :: NoneFailed(test)
  }

  /** The runner reports every selected test by its protocol and ends well when nothing failed. */
  predicate HonestRun(records: seq<Record>, shard: Shard, run: Run) {
    && |run.tests| == |Owned(records, shard)| && (forall test | test in run.tests :: FollowsProtocol(test))
    && (NothingFailed(run) ==> run.exitStatus == 0)
  }

  /** The paths of the collected tests are relative to the root of the repository. */
  predicate RelativePaths(records: seq<Record>) {
    forall r | r in records :: ValidPath(r.path)
  }

  /** Every owner has a test, and every collection report that was kept is of a skip with a relative path. */
  predicate GoodCollection(records: seq<Record>, events: seq<Event>) {
    && Owned(records, Consumer) != [] && Owned(records, BrowserContract) != [] && Owned(records, Remainder) != []
    && (forall e | e in events :: ValidPath(e.path) && e.outcome.SkippedEvent?)
  }

  lemma HonestInventory(records: seq<Record>)
    requires records != [] && forall r | r in records :: ValidPath(r.path)
    ensures ValidInventory(InventoryOf(records))
  {
    SortedFilesAre(records);
    hide ValidPath, SortedFiles;
    assert records[0] in records && records[0].path in SortedFiles(records);
    forall p | p in SortedFiles(records) ensures ValidPath(p) { var r: Record :| r in records && r.path == p; }
  }

  lemma HonestPlan(records: seq<Record>, events: seq<Event>, s: Shard)
    requires GoodCollection(records, events) && RelativePaths(records) && s in PlanOf(records)
    ensures ValidInventory(PlanOf(records)[s]) && PlanOf(records)[s] == InventoryOf(Owned(records, s))
    ensures forall p | p in PlanOf(records)[s].files :: Owner(p) == s
  {
    hide Owner, ValidPath;
    OwnedIn(records, s);
    HonestInventory(Owned(records, s));
    SortedFilesAre(Owned(records, s));
  }

  /** Two sequences without repeats hold the same elements exactly when they are permutations of each other. */
  lemma {:induction false} NoRepeatsIsSet(files: seq<string>)
    requires NoRepeats(files)
    ensures multiset(files) == multiset(set f | f in files)
  {
    if files != [] {
      var init, last := files[..|files| - 1], files[|files| - 1];
      NoRepeatsIsSet(init);
      assert files == init + [last];
      assert last !in init;
      assert (set f | f in files) == (set f | f in init) + {last};
    }
  }

  lemma SameElements(a: seq<string>, b: seq<string>)
    requires NoRepeats(a) && NoRepeats(b) && forall x :: x in a <==> x in b
    ensures multiset(a) == multiset(b)
  {
    NoRepeatsIsSet(a);
    NoRepeatsIsSet(b);
    assert (set f | f in a) == (set f | f in b);
  }

  lemma HonestCovers(records: seq<Record>)
    ensures multiset(AllFiles(PlanOf(records))) == multiset(SortedFiles(records))
  {
    hide SortedFiles, Owner, Owned, NoRepeats, AllFiles, InventoryOf, Increasing;
    var all, sorted := AllFiles(PlanOf(records)), SortedFiles(records);
    PlanFilesApart(records);
    SortedFilesAre(records);
    IncreasingNoRepeats(sorted);
    forall file ensures file in all <==> file in sorted { FileIsCovered(records, file); }
    SameElements(all, sorted);
  }

  lemma FileIsCovered(records: seq<Record>, file: string)
    ensures file in AllFiles(PlanOf(records)) <==> file in SortedFiles(records)
  {
    SortedFilesAre(records);
    SortedFilesAre(Owned(records, Consumer));
    SortedFilesAre(Owned(records, BrowserContract));
    SortedFilesAre(Owned(records, Remainder));
    OwnedIn(records, Consumer);
    OwnedIn(records, BrowserContract);
    OwnedIn(records, Remainder);
    hide SortedFiles, Owner, Owned;
    if file in SortedFiles(records) {
      var r: Record :| r in records && r.path == file;
      match Owner(file) {
        case Consumer => assert r in Owned(records, Consumer);
        case BrowserContract => assert r in Owned(records, BrowserContract);
        case Remainder => assert r in Owned(records, Remainder);
      }
    }
  }

  lemma HonestOwnFiles(records: seq<Record>, events: seq<Event>)
    requires GoodCollection(records, events) && RelativePaths(records)
    ensures ThreeShards(PlanOf(records)) && OwnFiles(PlanOf(records))
  {
    hide GoodCollection, ValidInventory, Owner;
    forall s | s in PlanOf(records)
      ensures ValidInventory(PlanOf(records)[s]) && forall p | p in PlanOf(records)[s].files :: Owner(p) == s
    {
      HonestPlan(records, events, s);
    }
  }

  lemma HonestPlanCovers(records: seq<Record>, events: seq<Event>, shard: Shard, source: string, runtime: Runtime,
                         run: Run)
    ensures var r := HonestReceipt(records, events, shard, source, runtime, run); ThreeShards(r.plan) && PlanCovers(r)
  {
    HonestCovers(records);
    PlanFilesApart(records);
    AllocationIsComplete(records);
    hide Owner, SortedFiles, Owned, NoRepeats, OwnedEvents, Increasing, AllFiles;
  }

  lemma HonestExecutes(records: seq<Record>, events: seq<Event>, shard: Shard, source: string, runtime: Runtime,
                       run: Run)
    requires GoodCollection(records, events) && RelativePaths(records)
    ensures var r := HonestReceipt(records, events, shard, source, runtime, run);
            shard in r.plan && Executed(r, shard)
  {
    assert shard == Consumer || shard == BrowserContract || shard == Remainder;
    HonestPlan(records, events, shard);
    hide Owner, SortedFiles, Owned, OwnedEvents, TalliedTests, ValidInventory, UniverseOf;
  }

  /** The counters of an honest run add up, and pass exactly when nothing failed. */
  lemma HonestCounts(records: seq<Record>, events: seq<Event>, shard: Shard, source: string, runtime: Runtime, run: Run)
    requires HonestRun(records, shard, run)
    ensures var r := HonestReceipt(records, events, shard, source, runtime, run);
            shard in r.plan && (CountsPass(r, shard) <==> NothingFailed(run))
  {
    hide Owner, SortedFiles, Owned, OwnedEvents, TalliedTests, ValidInventory, UniverseOf, FollowsProtocol, NoneFailed,
      Passing;
    WholeRunIsCounted(run.tests);
    PlanCounts(records, shard);
  }

  lemma PlanCounts(records: seq<Record>, shard: Shard)
    ensures shard in PlanOf(records) && PlanOf(records)[shard].count == |Owned(records, shard)|
  {
    hide Owner, SortedFiles, Owned;
    assert shard == Consumer || shard == BrowserContract || shard == Remainder;
  }

  /** The receipt of an honest run passes exactly when nothing failed, in the collection or in a test. */
  lemma HonestPasses(records: seq<Record>, events: seq<Event>, shard: Shard, source: string, runtime: Runtime, run: Run)
    requires RelativePaths(records) && HonestRun(records, shard, run)
    ensures ReceiptPasses(HonestReceipt(records, events, shard, source, runtime, run), shard, source)
            <==> GoodCollection(records, events) && ValidRuntime(runtime) && NothingFailed(run)
  {
    var r := HonestReceipt(records, events, shard, source, runtime, run);
    HonestCounts(records, events, shard, source, runtime, run);
    if GoodCollection(records, events) {
      HonestShape(records, events, shard, source, runtime, run);
    } else if ReceiptPasses(r, shard, source) {
      HonestNeeds(records, events, shard, source, runtime, run);
    }
    hide EventsPass, ValidInventory, OwnFiles, PlanCovers, Executed, CountsPass, ValidRuntime, UniverseOf, PlanOf,
      NothingFailed, GoodCollection, OwnedEvents, TalliedTests;
  }

  lemma HonestShape(records: seq<Record>, events: seq<Event>, shard: Shard, source: string, runtime: Runtime, run: Run)
    requires RelativePaths(records) && GoodCollection(records, events)
    ensures var r := HonestReceipt(records, events, shard, source, runtime, run);
            && EventsPass(r, shard) && ValidInventory(r.universe) && ThreeShards(r.plan) && OwnFiles(r.plan)
            && PlanCovers(r) && shard in r.plan && Executed(r, shard)
  {
    HonestOwnFiles(records, events);
    HonestPlanCovers(records, events, shard, source, runtime, run);
    HonestExecutes(records, events, shard, source, runtime, run);
    assert records != [];
    assert ValidInventory(UniverseOf(records)) by {
      HonestInventory(records);
      UniverseIsValid(records);
    }
    assert EventsPass(HonestReceipt(records, events, shard, source, runtime, run), shard);
    hide EventsPass, ValidInventory, OwnFiles, PlanCovers, Executed, UniverseOf, PlanOf, TalliedTests;
  }

  lemma HonestNeeds(records: seq<Record>, events: seq<Event>, shard: Shard, source: string, runtime: Runtime, run: Run)
    requires ReceiptPasses(HonestReceipt(records, events, shard, source, runtime, run), shard, source)
    ensures GoodCollection(records, events)
  {
    var r := HonestReceipt(records, events, shard, source, runtime, run);
    hide PlanCovers, Executed, CountsPass, ValidRuntime, ValidPath, OwnedEvents, TalliedTests, Owned, SortedFiles,
      Owner, Increasing, UniverseOf;
    assert Consumer in r.plan && BrowserContract in r.plan && Remainder in r.plan;
  }

  lemma UniverseIsValid(records: seq<Record>)
    requires ValidInventory(InventoryOf(records))
    ensures ValidInventory(UniverseOf(records))
  {
    hide ValidPath, Increasing;
  }

  /** Three honest receipts of one collection are accepted exactly when nothing failed in any of them. */
  lemma HonestIsAccepted(records: seq<Record>, events: seq<Event>, source: string, runtime: Runtime,
                         runs: map<Shard, Run>)
    requires RelativePaths(records) && runs.Keys == {Consumer, BrowserContract, Remainder}
    requires forall s | s in runs :: HonestRun(records, s, runs[s])
    ensures Accepted(map s | s in runs :: HonestReceipt(records, events, s, source, runtime, runs[s]), source, true)
            <==> GoodCollection(records, events) && ValidRuntime(runtime)
                 && forall s | s in runs :: NothingFailed(runs[s])
  {
    hide ReceiptPasses, GoodCollection, HonestRun, ValidRuntime, NothingFailed;
    var outputs := map s | s in runs :: HonestReceipt(records, events, s, source, runtime, runs[s]);
    assert outputs.Keys == runs.Keys && Consumer in runs;
    forall s | s in runs
      ensures ReceiptPasses(outputs[s], s, source)
              <==> GoodCollection(records, events) && ValidRuntime(runtime) && NothingFailed(runs[s])
    {
      HonestPasses(records, events, s, source, runtime, runs[s]);
    }
  }
}
