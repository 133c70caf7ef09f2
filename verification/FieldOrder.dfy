/** The parent-first ordering of a batch of fills in apply_resolutions. */
module FieldOrder {
  import opened Results
  import opened FillIdentity

  /** One resolution of the batch; the wanted value in the three forms in which a control can take it. */
  datatype Item = Item(fieldId: string, selector: string, resolved: bool, text: string, flag: bool,
                       targets: set<string>)

  /** What was discovered about a control: the selector that it depends on ("" for none) and its contract. */
  datatype Observed = Observed(fieldId: string, selector: string, dependsOn: string, contract: string)

  datatype Ordering =
    | Ordered(items: seq<Item>)
    | Cyclic(pending: seq<Item>)
    | MissingDependency(item: Item)
    | UnresolvedDependency(item: Item)

  function ItemIdentities(items: seq<Item>): seq<Identity> {
    seq(|items|, i requires 0 <= i < |items| => Identity(items[i].selector, items[i].fieldId))
  }

  function ObservedIdentities(observed: seq<Observed>): seq<Identity> {
    seq(|observed|, i requires 0 <= i < |observed| => Identity(observed[i].selector, observed[i].fieldId))
  }

  /** What admission has established before the ordering: unique identities, every selector observed. */
  predicate Admitted(items: seq<Item>, seen: map<string, Observed>) {
    && (forall i, j | 0 <= i < j < |items| :: items[i].selector != items[j].selector)
    && (forall x | x in items :: x.selector != "" && x.selector in seen)
  }

  function Selectors(items: seq<Item>): set<string> {
    set x | x in items :: x.selector
  }

  function DependsOn(seen: map<string, Observed>, selector: string): string
    requires selector in seen
  {
    seen[selector].dependsOn
  }

  /** The in-batch parent of a selector, if it has one. */
  function Parent(batch: set<string>, seen: map<string, Observed>, selector: string): Option<string> {
    if selector in seen && seen[selector].dependsOn != "" && seen[selector].dependsOn in batch
    then Some(seen[selector].dependsOn) else None
  }

  /** The k-th ancestor. */
  function Climb(batch: set<string>, seen: map<string, Observed>, selector: string, k: nat): Option<string>
    decreases k
  {
    if k == 0 then Some(selector)
    else
      match Parent(batch, seen, selector)
      case None => None
      case Some(up) => Climb(batch, seen, up, k - 1)
  }

  ghost predicate HasCycle(batch: set<string>, seen: map<string, Observed>) {
    exists x, k: nat | x in batch && k > 0 :: Climb(batch, seen, x, k) == Some(x)
  }

  /** The ancestors of the selector come to an end. */
  ghost predicate Grounded(batch: set<string>, seen: map<string, Observed>, selector: string) {
    exists k: nat :: Climb(batch, seen, selector, k) == None
  }

  /** The item depends on a control that was not observed. */
  predicate Missing(seen: map<string, Observed>, x: Item)
    requires x.selector in seen
  {
    DependsOn(seen, x.selector) != "" && DependsOn(seen, x.selector) !in seen
  }

  /** The item is resolved and its in-batch parent is not. */
  predicate OrphanedBy(items: seq<Item>, seen: map<string, Observed>, x: Item) {
    && x.resolved
    && exists p | p in items :: Parent(Selectors(items), seen, x.selector) == Some(p.selector) && !p.resolved
  }

  predicate Defective(items: seq<Item>, seen: map<string, Observed>, x: Item)
    requires x.selector in seen
  {
    Missing(seen, x) || OrphanedBy(items, seen, x)
  }

  function IndexOf(items: seq<Item>, selector: string): (i: nat)
    requires selector in Selectors(items)
    ensures i < |items| && items[i].selector == selector
    ensures forall j | 0 <= j < i :: items[j].selector != selector
  {
    if items[0].selector == selector then 0 else 1 + IndexOf(items[1..], selector)
  }

  /** Every in-batch parent comes before its children. */
  predicate ParentsFirst(items: seq<Item>, seen: map<string, Observed>, batch: set<string>) {
    forall j | 0 <= j < |items| ::
      Parent(batch, seen, items[j].selector).Some? ==>
        exists i | 0 <= i < j :: Parent(batch, seen, items[j].selector) == Some(items[i].selector)
  }

  // ----- climbing

  lemma {:induction false} ClimbAdds(batch: set<string>, seen: map<string, Observed>, x: string, j: nat, k: nat)
    requires Climb(batch, seen, x, j).Some?
    ensures Climb(batch, seen, x, j + k) == Climb(batch, seen, Climb(batch, seen, x, j).value, k)
    decreases j
  {
    if j > 0 { ClimbAdds(batch, seen, Parent(batch, seen, x).value, j - 1, k); }
  }

  lemma {:induction false} ClimbStops(batch: set<string>, seen: map<string, Observed>, x: string, j: nat, k: nat)
    requires j <= k && Climb(batch, seen, x, j).None?
    ensures Climb(batch, seen, x, k).None?
    decreases j
  {
    if j > 0 && Parent(batch, seen, x).Some? { ClimbStops(batch, seen, Parent(batch, seen, x).value, j - 1, k - 1); }
  }

  /** A selector is grounded exactly when it has no parent or its parent is grounded. */
  lemma GroundedByParent(batch: set<string>, seen: map<string, Observed>, x: string)
    ensures Grounded(batch, seen, x) <==>
            Parent(batch, seen, x).None? || Grounded(batch, seen, Parent(batch, seen, x).value)
  {
    if Parent(batch, seen, x).None? {
      assert Climb(batch, seen, x, 1) == None;
    } else {
      var up := Parent(batch, seen, x).value;
      if Grounded(batch, seen, x) {
        var k: nat :| Climb(batch, seen, x, k) == None;
        assert Climb(batch, seen, up, k - 1) == None;
      }
      if Grounded(batch, seen, up) {
        var k: nat :| Climb(batch, seen, up, k) == None;
        assert Climb(batch, seen, x, k + 1) == None;
      }
    }
  }

  /** A member of a cycle climbs for ever. */
  lemma {:induction false} CycleNeverEnds(batch: set<string>, seen: map<string, Observed>, x: string, period: nat,
                                          k: nat)
    requires period > 0 && Climb(batch, seen, x, period) == Some(x)
    ensures Climb(batch, seen, x, k).Some?
    decreases k
  {
    if k < period {
      if Climb(batch, seen, x, k).None? { ClimbStops(batch, seen, x, k, period); }
    } else {
      ClimbAdds(batch, seen, x, period, k - period);
      CycleNeverEnds(batch, seen, x, period, k - period);
    }
  }

  /** More steps than members: two of them coincide. */
  lemma {:induction false} Pigeonhole(steps: seq<string>, members: set<string>) returns (i: nat, j: nat)
    requires |steps| > |members| && forall x | x in steps :: x in members
    ensures i < j < |steps| && steps[i] == steps[j]
    decreases |steps|
  {
    var n := |steps| - 1;
    var rest := steps[..n];
    if steps[n] in rest {
      i :| 0 <= i < n && rest[i] == steps[n];
      j := n;
    } else {
      assert steps[n] in members;
      i, j := Pigeonhole(rest, members - {steps[n]});
    }
  }

  /** A selector whose ancestors never end leads into a cycle of the batch. */
  lemma UngroundedMeansCycle(batch: set<string>, seen: map<string, Observed>, x: string)
    requires x in batch && !Grounded(batch, seen, x)
    ensures HasCycle(batch, seen)
  {
    var n := |batch| + 1;
    forall k: nat ensures Climb(batch, seen, x, k).Some? {
      if Climb(batch, seen, x, k).None? { assert Grounded(batch, seen, x); }
    }
    var steps := seq(n, k requires 0 <= k < n => Climb(batch, seen, x, k).value);
    forall k: nat | k < n ensures steps[k] in batch { AncestorInBatch(batch, seen, x, k); }
    var i, j := Pigeonhole(steps, batch);
    ClimbAdds(batch, seen, x, i, j - i);
    assert Climb(batch, seen, steps[i], j - i) == Some(steps[i]);
  }

  lemma {:induction false} AncestorInBatch(batch: set<string>, seen: map<string, Observed>, x: string, k: nat)
    requires x in batch && Climb(batch, seen, x, k).Some?
    ensures Climb(batch, seen, x, k).value in batch
    decreases k
  {
    if k > 0 { AncestorInBatch(batch, seen, Parent(batch, seen, x).value, k - 1); }
  }

  /** The batch has a cycle exactly when some member is not grounded. */
  lemma CycleIffUngrounded(batch: set<string>, seen: map<string, Observed>)
    ensures HasCycle(batch, seen) <==> exists x | x in batch :: !Grounded(batch, seen, x)
  {
    if HasCycle(batch, seen) {
      var x, period: nat :| x in batch && period > 0 && Climb(batch, seen, x, period) == Some(x);
      forall k: nat ensures Climb(batch, seen, x, k).Some? { CycleNeverEnds(batch, seen, x, period, k); }
      assert !Grounded(batch, seen, x);
    }
    if x :| x in batch && !Grounded(batch, seen, x) { UngroundedMeansCycle(batch, seen, x); }
  }

  /** A set of members each of whose parents is again in the set has no grounded member. */
  lemma {:induction false} ClosedIsUngrounded(batch: set<string>, seen: map<string, Observed>, closed: set<string>,
                                              x: string, k: nat)
    requires x in closed
    requires forall y | y in closed :: Parent(batch, seen, y).Some? && Parent(batch, seen, y).value in closed
    ensures Climb(batch, seen, x, k).Some?
    decreases k
  {
    if k > 0 { ClosedIsUngrounded(batch, seen, closed, Parent(batch, seen, x).value, k - 1); }
  }

  // ----- the loop

  predicate Ready(x: Item, seen: map<string, Observed>, batch: set<string>, completed: set<string>)
    requires x.selector in seen
  {
    var d := DependsOn(seen, x.selector);
    d == "" || d in completed || d !in batch
  }

  /** The items of pending that are ready, in their order. */
  method FindReady(pending: seq<Item>, seen: map<string, Observed>, batch: set<string>, completed: set<string>)
    returns (ready: seq<Item>)
    requires Admitted(pending, seen)
    ensures forall x :: x in ready <==> x in pending && Ready(x, seen, batch, completed)
    ensures forall i, j | 0 <= i < j < |ready| :: ready[i].selector != ready[j].selector
  {
    ready := [];
    for n := 0 to |pending|
      invariant forall x :: x in ready <==> x in pending[..n] && Ready(x, seen, batch, completed)
      invariant forall i, j | 0 <= i < j < |ready| :: ready[i].selector != ready[j].selector
    {
      if Ready(pending[n], seen, batch, completed) {
        assert forall x | x in ready :: x.selector != pending[n].selector;
        ready := ready + [pending[n]];
      }
      assert pending[..n + 1] == pending[..n] + [pending[n]];
    }
    assert pending[..|pending|] == pending;
  }

  function Find(pending: seq<Item>, x: Item): (i: nat)
    requires x in pending
    ensures i < |pending| && pending[i] == x
  {
    if pending[0] == x then 0 else 1 + Find(pending[1..], x)
  }

  /** The pending items once this one is removed. */
  function Without(pending: seq<Item>, x: Item): (rest: seq<Item>)
    requires x in pending
  {
    var i := Find(pending, x);
    pending[..i] + pending[i + 1..]
  }

  lemma WithoutRemoves(pending: seq<Item>, x: Item)
    requires x in pending
    ensures multiset(Without(pending, x)) + multiset{x} == multiset(pending)
    ensures |Without(pending, x)| == |pending| - 1
    ensures forall y | y in pending && y != x :: y in Without(pending, x)
    ensures forall y | y in Without(pending, x) :: y in pending
  {
    var i := Find(pending, x);
    var head, tail := pending[..i], pending[i + 1..];
    assert pending == head + [x] + tail;
    hide Find, Without;
    assert Without(pending, x) == head + tail;
  }

  lemma WithoutAdmitted(pending: seq<Item>, x: Item, seen: map<string, Observed>)
    requires x in pending && Admitted(pending, seen)
    ensures Admitted(Without(pending, x), seen)
  {
    WithoutRemoves(pending, x);
    var i, rest := Find(pending, x), Without(pending, x);
    hide Find;
    assert rest == pending[..i] + pending[i + 1..];
    hide Without;
    forall j, k | 0 <= j < k < |rest| ensures rest[j].selector != rest[k].selector {
      assert rest[j] == pending[if j < i then j else j + 1] && rest[k] == pending[if k < i then k else k + 1];
    }
  }

  /** What the ordering has established of the items that it has placed. */
  ghost predicate Placed(items: seq<Item>, seen: map<string, Observed>, ordered: seq<Item>) {
    && ParentsFirst(ordered, seen, Selectors(items))
    && forall x | x in ordered :: x in items && x.selector in seen && Grounded(Selectors(items), seen, x.selector)
                                  && !Defective(items, seen, x)
  }

  /** A ready item is grounded, because its in-batch parent has been placed. */
  lemma ReadyIsGrounded(items: seq<Item>, seen: map<string, Observed>, ordered: seq<Item>, x: Item)
    requires Placed(items, seen, ordered) && x in items && x.selector in seen
    requires Ready(x, seen, Selectors(items), Selectors(ordered))
    ensures Grounded(Selectors(items), seen, x.selector)
    ensures Parent(Selectors(items), seen, x.selector).Some? ==>
              Parent(Selectors(items), seen, x.selector).value in Selectors(ordered)
  {
    hide Grounded, Climb, Defective;
    GroundedByParent(Selectors(items), seen, x.selector);
  }

  lemma PlaceKeeps(items: seq<Item>, seen: map<string, Observed>, ordered: seq<Item>, x: Item)
    requires Placed(items, seen, ordered) && x in items && x.selector in seen && !Defective(items, seen, x)
    requires Ready(x, seen, Selectors(items), Selectors(ordered))
    ensures Placed(items, seen, ordered + [x]) && Selectors(ordered + [x]) == Selectors(ordered) + {x.selector}
  {
    ReadyIsGrounded(items, seen, ordered, x);
    hide Grounded, Defective, Ready;
    var batch, longer := Selectors(items), ordered + [x];
    forall j | 0 <= j < |longer| && Parent(batch, seen, longer[j].selector).Some?
      ensures exists i | 0 <= i < j :: Parent(batch, seen, longer[j].selector) == Some(longer[i].selector)
    {
      if j < |ordered| {
        var i :| 0 <= i < j && Parent(batch, seen, ordered[j].selector) == Some(ordered[i].selector);
        assert longer[i] == ordered[i];
      } else {
        var i := IndexOf(ordered, Parent(batch, seen, x.selector).value);
        assert longer[i] == ordered[i];
      }
    }
  }

  predicate Stuck(items: seq<Item>, seen: map<string, Observed>, ordered: seq<Item>, pending: seq<Item>) {
    && pending != [] && multiset(ordered) + multiset(pending) == multiset(items)
    && forall x | x in pending :: x.selector in seen && !Ready(x, seen, Selectors(items), Selectors(ordered))
  }

  lemma Split(items: seq<Item>, ordered: seq<Item>, pending: seq<Item>)
    requires multiset(ordered) + multiset(pending) == multiset(items)
    ensures forall x :: x in items <==> x in ordered || x in pending
  {
    forall x ensures x in items <==> x in ordered || x in pending {
      assert x in multiset(items) <==> x in multiset(ordered) || x in multiset(pending);
    }
  }

  /** When nothing is ready, every pending item waits for another pending item. */
  lemma StuckIsClosed(items: seq<Item>, seen: map<string, Observed>, ordered: seq<Item>, pending: seq<Item>, x: Item)
    requires Stuck(items, seen, ordered, pending) && x in pending
    ensures var up := Parent(Selectors(items), seen, x.selector); up.Some? && up.value in Selectors(pending)
  {
    Split(items, ordered, pending);
    var up: Item :| up in items && up.selector == DependsOn(seen, x.selector);
    assert up.selector !in Selectors(ordered);
  }

  lemma PendingNeverEnds(items: seq<Item>, seen: map<string, Observed>, ordered: seq<Item>, pending: seq<Item>, x: Item)
    requires Stuck(items, seen, ordered, pending) && x in pending
    ensures !Grounded(Selectors(items), seen, x.selector)
  {
    var batch, closed := Selectors(items), Selectors(pending);
    forall y | y in closed ensures Parent(batch, seen, y).Some? && Parent(batch, seen, y).value in closed {
      var z: Item :| z in pending && z.selector == y;
      StuckIsClosed(items, seen, ordered, pending, z);
    }
    hide Parent, Stuck, Ready;
    forall k: nat ensures Climb(batch, seen, x.selector, k).Some? {
      ClosedIsUngrounded(batch, seen, closed, x.selector, k);
    }
  }

  /** When nothing is ready, the pending items are exactly those whose ancestors never end. */
  lemma StuckIsUngrounded(items: seq<Item>, seen: map<string, Observed>, ordered: seq<Item>, pending: seq<Item>)
    requires Placed(items, seen, ordered) && Stuck(items, seen, ordered, pending)
    ensures HasCycle(Selectors(items), seen)
    ensures forall x :: x in pending <==> x in items && !Grounded(Selectors(items), seen, x.selector)
  {
    assert pending != [] && pending[0] in pending;
    Split(items, ordered, pending);
    hide Defective, ParentsFirst, HasCycle, Stuck, Grounded;
    forall x | x in pending ensures !Grounded(Selectors(items), seen, x.selector) {
      PendingNeverEnds(items, seen, ordered, pending, x);
    }
    assert pending[0].selector in Selectors(items);
    CycleIffUngrounded(Selectors(items), seen);
  }

  /** The exact outcome: a refusal if some grounded item is defective; otherwise a cycle if the batch has one;
      otherwise a permutation with every parent before its children. */
  ghost predicate Decides(items: seq<Item>, seen: map<string, Observed>, r: Ordering)
    requires Admitted(items, seen)
  {
    var batch := Selectors(items);
    match r
    case Ordered(o) =>
      && multiset(o) == multiset(items) && ParentsFirst(o, seen, batch) && !HasCycle(batch, seen)
      && forall x | x in items :: !Defective(items, seen, x)
    case Cyclic(pending) =>
      && HasCycle(batch, seen)
      && (forall x :: x in pending <==> x in items && !Grounded(batch, seen, x.selector))
      && forall x | x in items && Grounded(batch, seen, x.selector) :: !Defective(items, seen, x)
    case MissingDependency(x) => x in items && Grounded(batch, seen, x.selector) && Missing(seen, x)
    case UnresolvedDependency(x) => x in items && Grounded(batch, seen, x.selector) && OrphanedBy(items, seen, x)
  }

  lemma OrderedDecides(items: seq<Item>, seen: map<string, Observed>, ordered: seq<Item>)
    requires Admitted(items, seen) && Placed(items, seen, ordered) && multiset(ordered) == multiset(items)
    ensures Decides(items, seen, Ordered(ordered))
  {
    hide Defective, ParentsFirst, HasCycle, Grounded;
    assert forall x | x in items :: x in multiset(ordered);
    CycleIffUngrounded(Selectors(items), seen);
  }

  lemma StuckDecides(items: seq<Item>, seen: map<string, Observed>, ordered: seq<Item>, pending: seq<Item>)
    requires Admitted(items, seen) && Placed(items, seen, ordered) && Stuck(items, seen, ordered, pending)
    ensures Decides(items, seen, Cyclic(pending))
  {
    StuckIsUngrounded(items, seen, ordered, pending);
    assert multiset(ordered) + multiset(pending) == multiset(items);
    hide Defective, ParentsFirst, HasCycle, Grounded, Ready, Stuck;
    Split(items, ordered, pending);
  }

  /** The refusal of one ready item, if any: its dependency is unobserved, or resolved nowhere in the batch. */
  function Refusal(items: seq<Item>, seen: map<string, Observed>, x: Item): Option<Ordering>
    requires Admitted(items, seen) && x in items
  {
    var d := DependsOn(seen, x.selector);
    if d != "" && d !in seen then Some(MissingDependency(x))
    else if d in Selectors(items) && x.resolved && !items[IndexOf(items, d)].resolved then Some(UnresolvedDependency(x))
    else None
  }

  lemma RefusalIsDefect(items: seq<Item>, seen: map<string, Observed>, x: Item)
    requires Admitted(items, seen) && x in items
    ensures Refusal(items, seen, x).Some? <==> Defective(items, seen, x)
    ensures Refusal(items, seen, x) == Some(MissingDependency(x)) ==> Missing(seen, x)
    ensures Refusal(items, seen, x) == Some(UnresolvedDependency(x)) ==> OrphanedBy(items, seen, x)
  {
    var d := DependsOn(seen, x.selector);
    if d in Selectors(items) {
      var i := IndexOf(items, d);
      assert items[i] in items && d != "";
      assert Parent(Selectors(items), seen, x.selector) == Some(d);
      forall p | p in items && p.selector == d ensures p == items[i] {
        var j :| 0 <= j < |items| && items[j] == p;
        assert j < i || i < j || i == j;
      }
    }
  }

  /** One round: the ready items are placed one by one, unless one of them is refused. */
  method PlaceReady(items: seq<Item>, seen: map<string, Observed>, before: seq<Item>, waiting: seq<Item>,
                    ready: seq<Item>)
    returns (refusal: Option<Ordering>, ordered: seq<Item>, pending: seq<Item>)
    requires Admitted(items, seen) && Admitted(waiting, seen) && Placed(items, seen, before)
    requires multiset(before) + multiset(waiting) == multiset(items)
    requires forall i, j | 0 <= i < j < |ready| :: ready[i].selector != ready[j].selector
    requires forall x | x in ready ::
               x in waiting && x.selector in seen && Ready(x, seen, Selectors(items), Selectors(before))
    ensures refusal.Some? ==> Decides(items, seen, refusal.value)
    ensures refusal.None? ==>
              && multiset(ordered) + multiset(pending) == multiset(items) && Placed(items, seen, ordered)
              && Admitted(pending, seen) && |pending| == |waiting| - |ready|
  {
    hide Defective, ParentsFirst, HasCycle, Grounded, Placed, Ready, Decides, Without, Refusal;
    var batch, completed := Selectors(items), Selectors(before);
    ordered, pending, refusal := before, waiting, None;
    assert forall m | 0 <= m < |ready| :: ready[m] in ready;
    for n := 0 to |ready|
      invariant multiset(ordered) + multiset(pending) == multiset(items)
      invariant Placed(items, seen, ordered) && completed == Selectors(ordered) && Admitted(pending, seen)
      invariant forall m | n <= m < |ready| :: ready[m] in pending && Ready(ready[m], seen, batch, completed)
      invariant |pending| == |waiting| - n && refusal.None?
    {
      var x := ready[n];
      Split(items, ordered, pending);
      refusal := Refusal(items, seen, x);
      RefusalIsDefect(items, seen, x);
      ReadyIsGrounded(items, seen, ordered, x);
      if refusal.Some? {
        RefusalDecides(items, seen, x);
        return;
      }
      PlaceKeeps(items, seen, ordered, x);
      WithoutRemoves(pending, x);
      WithoutAdmitted(pending, x, seen);
      forall m | n < m < |ready| ensures Ready(ready[m], seen, batch, completed + {x.selector}) {
        ReadyStays(ready[m], seen, batch, completed, x.selector);
      }
      ordered, completed, pending := ordered + [x], completed + {x.selector}, Without(pending, x);
    }
  }

  /** The ordering loop of apply_resolutions: it runs before any write and always ends. */
  method Order(items: seq<Item>, seen: map<string, Observed>) returns (r: Ordering)
    requires Admitted(items, seen)
    ensures Decides(items, seen, r)
  {
    hide Defective, ParentsFirst, HasCycle, Grounded, Placed, Decides;
    var ordered: seq<Item>, pending := [], items;
    NothingPlaced(items, seen);
    while pending != []
      invariant multiset(ordered) + multiset(pending) == multiset(items)
      invariant Placed(items, seen, ordered) && Admitted(pending, seen)
      decreases |pending|
    {
      var ready := FindReady(pending, seen, Selectors(items), Selectors(ordered));
      if ready == [] {
        assert forall x | x in pending :: !(x in ready);
        StuckDecides(items, seen, ordered, pending);
        return Cyclic(pending);
      }
      var refusal;
      refusal, ordered, pending := PlaceReady(items, seen, ordered, pending, ready);
      if refusal.Some? { return refusal.value; }
    }
    assert multiset(ordered) == multiset(items);
    OrderedDecides(items, seen, ordered);
    r := Ordered(ordered);
  }

  lemma ReadyStays(x: Item, seen: map<string, Observed>, batch: set<string>, completed: set<string>, added: string)
    requires x.selector in seen && Ready(x, seen, batch, completed)
    ensures Ready(x, seen, batch, completed + {added})
  {
  }

  lemma NothingPlaced(items: seq<Item>, seen: map<string, Observed>)
    ensures Placed(items, seen, []) && Selectors([]) == {}
  {
  }

  lemma RefusalDecides(items: seq<Item>, seen: map<string, Observed>, x: Item)
    requires Admitted(items, seen) && x in items && Grounded(Selectors(items), seen, x.selector)
    requires Refusal(items, seen, x).Some?
    ensures Decides(items, seen, Refusal(items, seen, x).value)
  {
    hide Grounded;
    RefusalIsDefect(items, seen, x);
  }

  /** With no missing and no unresolved parent, a cycle is reported exactly when the batch has one. */
  lemma CycleReportedIff(items: seq<Item>, seen: map<string, Observed>, r: Ordering)
    requires Admitted(items, seen) && Decides(items, seen, r)
    requires forall x | x in items :: !Defective(items, seen, x)
    ensures r.Cyclic? <==> HasCycle(Selectors(items), seen)
    ensures r.Cyclic? || r.Ordered?
  {
    hide HasCycle, ParentsFirst, Grounded;
  }

  /** In general an item is refused exactly when a defective item has no cycle above it. */
  lemma RefusedIff(items: seq<Item>, seen: map<string, Observed>, r: Ordering)
    requires Admitted(items, seen) && Decides(items, seen, r)
    ensures r.MissingDependency? || r.UnresolvedDependency? <==>
            exists x | x in items :: Grounded(Selectors(items), seen, x.selector) && Defective(items, seen, x)
  {
    hide HasCycle, ParentsFirst, Grounded, OrphanedBy, Missing;
  }
}
