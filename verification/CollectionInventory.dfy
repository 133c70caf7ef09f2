/** owner, inventory, collection_root and partition of the full-suite plugin. */
module CollectionInventory {
  import opened Results

  datatype Shard = Consumer | BrowserContract | Remainder

  const SHARDS: seq<Shard> := [Consumer, BrowserContract, Remainder]

  const CONSUMER_FILES := {
    "tests/test_consumer_entry_v1.py", "tests/test_consumer_recovery_transactions_v1.py",
    "tests/test_task_state_compatibility_v1.py"
  }
  const BROWSER_FILES := {"tests/test_field_action_journal_v1.py", "tests/test_generic_browser_v1.py"}
  const JCR_PREFIX := "tests/test_jcr"
  const PYTHON_SUFFIX := ".py"

  /** One collected test: its file and its node id. */
  datatype Record = Record(path: string, node: string)

  /** SHA-256 is injective: a digest is modelled by what it digests. A sorted list stands for its multiset. */
  datatype Digest = Leaf(nodes: multiset<string>) | Root(leaves: seq<(Shard, int, Digest)>) | OtherHex(hex: string)

  datatype Inventory = Inventory(files: seq<string>, count: int, digest: Digest)

  function Slashes(path: string): nat {
    if path == "" then 0 else Slashes(path[1..]) + (if path[0] == '/' then 1 else 0)
  }

  function Owner(path: string): Shard {
    if path in CONSUMER_FILES then Consumer
    else if path in BROWSER_FILES
            || (JCR_PREFIX <= path && |path| >= |PYTHON_SUFFIX| && path[|path| - |PYTHON_SUFFIX|..] == PYTHON_SUFFIX
                && Slashes(path) == 1)
    then BrowserContract
    else Remainder
  }

  // ----- sorted files

  /** The order of Python's strings. */
  predicate Before(a: string, b: string) {
    if b == "" then false
    else if a == "" then true
    else a[0] < b[0] || (a[0] == b[0] && Before(a[1..], b[1..]))
  }

  predicate Increasing(files: seq<string>) {
    forall i, j | 0 <= i < j < |files| :: Before(files[i], files[j])
  }

  lemma {:induction false} BeforeChains(a: string, b: string, c: string)
    requires Before(a, b) && Before(b, c)
    ensures Before(a, c)
  {
    if a != "" && a[0] == b[0] && b[0] == c[0] { BeforeChains(a[1..], b[1..], c[1..]); }
  }

  lemma {:induction false} BeforeTotal(a: string, b: string)
    ensures !Before(a, a) && (a != b ==> Before(a, b) || Before(b, a))
    decreases |a|
  {
    if a != "" {
      assert a == [a[0]] + a[1..];
      if b != "" {
        assert b == [b[0]] + b[1..];
        BeforeTotal(a[1..], b[1..]);
      } else {
        BeforeTotal(a[1..], b);
      }
    }
  }

  function Insert(files: seq<string>, x: string): seq<string> {
    if files == [] then [x]
    else if files[0] == x then files
    else if Before(x, files[0]) then [x] + files
    else [files[0]] + Insert(files[1..], x)
  }

  lemma {:induction false} InsertKeeps(files: seq<string>, x: string)
    requires Increasing(files)
    ensures Increasing(Insert(files, x))
    ensures forall y :: y in Insert(files, x) <==> y in files || y == x
  {
    if files != [] && files[0] != x {
      var head, tail := files[0], files[1..];
      BeforeTotal(x, head);
      if Before(x, head) {
        forall j | 0 < j < |files| ensures Before(x, files[j]) { BeforeChains(x, head, files[j]); }
      } else {
        InsertKeeps(tail, x);
        var rest := Insert(tail, x);
        forall j | 0 <= j < |rest| ensures Before(head, rest[j]) {
          if rest[j] != x {
            assert rest[j] in rest && rest[j] in tail;
            var i :| 0 <= i < |tail| && tail[i] == rest[j];
            assert files[i + 1] == rest[j];
          }
        }
        assert files == [head] + tail;
      }
    } else if files != [] {
      assert x in files;
    }
  }

  /** The files of the records, each once and in order. */
  function SortedFiles(records: seq<Record>): seq<string> {
    if records == [] then []
    else Insert(SortedFiles(records[..|records| - 1]), records[|records| - 1].path)
  }

  lemma {:induction false} SortedFilesAre(records: seq<Record>)
    ensures Increasing(SortedFiles(records))
    ensures forall y :: y in SortedFiles(records) <==> exists r | r in records :: r.path == y
  {
    if records != [] {
      var init, last := records[..|records| - 1], records[|records| - 1];
      SortedFilesAre(init);
      InsertKeeps(SortedFiles(init), last.path);
      assert records == init + [last];
      assert last in records;
      forall y ensures y in SortedFiles(records) <==> exists r | r in records :: r.path == y {
        if r: Record :| r in records && r.path == y { assert r in init || r == last; }
      }
    }
  }

  // ----- inventories

  function Nodes(records: seq<Record>): seq<string> {
    seq(|records|, i requires 0 <= i < |records| => records[i].node)
  }

  /** digest */
  function DigestOf(nodes: seq<string>): Digest {
    Leaf(multiset(nodes))
  }

  /** inventory */
  function InventoryOf(records: seq<Record>): Inventory {
    Inventory(SortedFiles(records), |records|, DigestOf(Nodes(records)))
  }

  /** collection_root */
  function CollectionRoot(plan: map<Shard, Inventory>): Digest
    requires plan.Keys == {Consumer, BrowserContract, Remainder}
  {
    Root([(Consumer, plan[Consumer].count, plan[Consumer].digest),
          (BrowserContract, plan[BrowserContract].count, plan[BrowserContract].digest),
          (Remainder, plan[Remainder].count, plan[Remainder].digest)])
  }

  function Owned(records: seq<Record>, s: Shard): seq<Record> {
    if records == [] then []
    else
      var last := records[|records| - 1];
      Owned(records[..|records| - 1], s) + (if Owner(last.path) == s then [last] else [])
  }

  function PlanOf(records: seq<Record>): map<Shard, Inventory> {
    map[Consumer := InventoryOf(Owned(records, Consumer)),
        BrowserContract := InventoryOf(Owned(records, BrowserContract)),
        Remainder := InventoryOf(Owned(records, Remainder))]
  }

  /** universe_inventory */
  function UniverseOf(records: seq<Record>): Inventory {
    InventoryOf(records).(digest := CollectionRoot(PlanOf(records)))
  }

  lemma {:induction false} OwnedIn(records: seq<Record>, s: Shard)
    ensures forall r :: r in Owned(records, s) <==> r in records && Owner(r.path) == s
  {
    hide Owner;
    if records != [] {
      var init, last := records[..|records| - 1], records[|records| - 1];
      OwnedIn(init, s);
      assert records == init + [last];
    }
  }

  lemma OwnedStep(records: seq<Record>, s: Shard)
    requires records != []
    ensures var init, last := records[..|records| - 1], records[|records| - 1];
            && multiset(Owned(records, s))
               == multiset(Owned(init, s)) + (if Owner(last.path) == s then multiset{last} else multiset{})
            && |Owned(records, s)| == |Owned(init, s)| + (if Owner(last.path) == s then 1 else 0)
  {
    hide Owner;
  }

  /** The records of the three groups together. */
  function Allocated(records: seq<Record>): multiset<Record> {
    multiset(Owned(records, Consumer)) + multiset(Owned(records, BrowserContract)) + multiset(Owned(records, Remainder))
  }

  function AllocatedCount(records: seq<Record>): nat {
    |Owned(records, Consumer)| + |Owned(records, BrowserContract)| + |Owned(records, Remainder)|
  }

  /** The three groups grow by exactly the last record. */
  lemma OneMore(records: seq<Record>)
    requires records != []
    ensures var init, last := records[..|records| - 1], records[|records| - 1];
            && Allocated(records) == Allocated(init) + multiset{last}
            && AllocatedCount(records) == AllocatedCount(init) + 1
  {
    hide Owner, Owned;
    OwnedStep(records, Consumer);
    OwnedStep(records, BrowserContract);
    OwnedStep(records, Remainder);
    match Owner(records[|records| - 1].path) {
      case Consumer =>
      case BrowserContract =>
      case Remainder =>
    }
  }

  /** No record is lost or duplicated by the allocation. */
  lemma {:induction false} AllocationIsComplete(records: seq<Record>)
    ensures Allocated(records) == multiset(records) && AllocatedCount(records) == |records|
  {
    hide Allocated, AllocatedCount;
    if records == [] {
      NothingAllocated();
    } else {
      AllocationIsComplete(records[..|records| - 1]);
      OneMore(records);
      LastJoins(records);
    }
  }

  lemma NothingAllocated()
    ensures Allocated([]) == multiset{} && AllocatedCount([]) == 0
  {
  }

  lemma LastJoins(records: seq<Record>)
    requires records != []
    ensures multiset(records) == multiset(records[..|records| - 1]) + multiset{records[|records| - 1]}
  {
    assert records == records[..|records| - 1] + [records[|records| - 1]];
  }

  /** No file is split between owners, as the owner is a function of the file. */
  lemma FilesAreApart(records: seq<Record>, s: Shard, t: Shard, file: string)
    requires file in SortedFiles(Owned(records, s)) && file in SortedFiles(Owned(records, t))
    ensures s == t
  {
    OwnedIn(records, s);
    OwnedIn(records, t);
    SortedFilesAre(Owned(records, s));
    SortedFilesAre(Owned(records, t));
    hide Owner;
    var a: Record :| a in Owned(records, s) && a.path == file;
    var b: Record :| b in Owned(records, t) && b.path == file;
  }

  datatype Refusal = Incomplete | FileSplit | EmptyOwner

  predicate NoRepeats(files: seq<string>) {
    forall i, j | 0 <= i < j < |files| :: files[i] != files[j]
  }

  function AllFiles(plan: map<Shard, Inventory>): seq<string>
    requires plan.Keys == {Consumer, BrowserContract, Remainder}
  {
    plan[Consumer].files + plan[BrowserContract].files + plan[Remainder].files
  }

  /** An inventory's files never repeat within a shard or across shards. */
  lemma PlanFilesApart(records: seq<Record>)
    ensures NoRepeats(AllFiles(PlanOf(records)))
  {
    var plan := PlanOf(records);
    var a, b, c := plan[Consumer].files, plan[BrowserContract].files, plan[Remainder].files;
    SortedFilesAre(Owned(records, Consumer));
    SortedFilesAre(Owned(records, BrowserContract));
    SortedFilesAre(Owned(records, Remainder));
    IncreasingNoRepeats(a);
    IncreasingNoRepeats(b);
    IncreasingNoRepeats(c);
    forall x | x in a ensures x !in b && x !in c {
      if x in b { FilesAreApart(records, Consumer, BrowserContract, x); }
      if x in c { FilesAreApart(records, Consumer, Remainder, x); }
    }
    forall x | x in b ensures x !in c { if x in c { FilesAreApart(records, BrowserContract, Remainder, x); } }
    NoRepeatsJoin(a, b);
    NoRepeatsJoin(a + b, c);
  }

  lemma IncreasingNoRepeats(files: seq<string>)
    requires Increasing(files)
    ensures NoRepeats(files)
  {
    forall i, j | 0 <= i < j < |files| ensures files[i] != files[j] { BeforeTotal(files[i], files[j]); }
  }

  lemma NoRepeatsJoin(a: seq<string>, b: seq<string>)
    requires NoRepeats(a) && NoRepeats(b) && forall x | x in a :: x !in b
    ensures NoRepeats(a + b)
  {
    var all := a + b;
    forall i, j | 0 <= i < j < |all| ensures all[i] != all[j] {
      if i < |a| <= j { assert a[i] in a && b[j - |a|] in b; }
    }
  }

  function GroupsOf(records: seq<Record>): map<Shard, seq<Record>> {
    map[Consumer := Owned(records, Consumer), BrowserContract := Owned(records, BrowserContract),
        Remainder := Owned(records, Remainder)]
  }

  lemma OwnedGrows(records: seq<Record>, t: Shard)
    requires records != []
    ensures var init, last := records[..|records| - 1], records[|records| - 1];
            Owned(records, t) == if Owner(last.path) == t then Owned(init, t) + [last] else Owned(init, t)
  {
    hide Owner;
  }

  lemma GroupsStep(records: seq<Record>)
    requires records != []
    ensures var init, last := records[..|records| - 1], records[|records| - 1];
            var s := Owner(last.path);
            s in GroupsOf(init) && GroupsOf(records) == GroupsOf(init)[s := GroupsOf(init)[s] + [last]]
  {
    hide Owner, Owned;
    OwnedGrows(records, Consumer);
    OwnedGrows(records, BrowserContract);
    OwnedGrows(records, Remainder);
    match Owner(records[|records| - 1].path) {
      case Consumer =>
      case BrowserContract =>
      case Remainder =>
    }
  }

  /** partition: the loop fills the three groups; of its refusals only the empty owner can occur. */
  method Partition(records: seq<Record>, collectionFailed: bool) returns (r: Result<map<Shard, seq<Record>>, Refusal>)
    ensures r.Ok? <==> collectionFailed || (Owned(records, Consumer) != [] && Owned(records, BrowserContract) != []
                                            && Owned(records, Remainder) != [])
    ensures r.Ok? ==> r.value == GroupsOf(records)
    ensures r.Refused? ==> r.reason == EmptyOwner
  {
    hide Owner, SortedFiles, NoRepeats, Owned;
    var groups: map<Shard, seq<Record>> := map[Consumer := [], BrowserContract := [], Remainder := []];
    assert groups == GroupsOf([]) by { NoGroups(); }
    for i := 0 to |records|
      invariant groups == GroupsOf(records[..i])
    {
      GroupsStep(records[..i + 1]);
      assert records[..i + 1][..i] == records[..i];
      var s := Owner(records[i].path);
      groups := groups[s := groups[s] + [records[i]]];
    }
    assert records[..|records|] == records;
    AllocationIsComplete(records);
    PlanFilesApart(records);
    var covered := groups[Consumer] + groups[BrowserContract] + groups[Remainder];
    if multiset(covered) != multiset(records) { return Refused(Incomplete); }
    var files := SortedFiles(groups[Consumer]) + SortedFiles(groups[BrowserContract]) + SortedFiles(groups[Remainder]);
    assert files == AllFiles(PlanOf(records));
    if !NoRepeats(files) { return Refused(FileSplit); }
    if !collectionFailed && (groups[Consumer] == [] || groups[BrowserContract] == [] || groups[Remainder] == []) {
      return Refused(EmptyOwner);
    }
    return Ok(groups);
  }

  lemma NoGroups()
    ensures GroupsOf([]) == map[Consumer := [], BrowserContract := [], Remainder := []]
  {
  }
}
