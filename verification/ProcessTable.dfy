/** The kernel's process table around an owner that is a subreaper, and the moves of the other processes. */
module ProcessTable {
  /** A handle names one process for ever, as a pidfd does; a PID is free again once its process is reaped. */
  type Handle = nat

  datatype Process = Process(pid: int, parent: Handle, zombie: bool, start: int)

  /** owned collects every process that ever descended from the owner. */
  datatype Kernel = Kernel(owner: Handle, table: map<Handle, Process>, next: Handle, owned: set<Handle>)

  /** One atomic step of another process. An exit hands the children over to an ancestor. */
  datatype Move =
    | Fork(parent: Handle, pid: int, start: int)
    | Exit(handle: Handle, adopter: Handle)
    | Reap(handle: Handle)

  predicate IsChild(k: Kernel, h: Handle) {
    h in k.table && k.table[h].parent == k.owner
  }

  /** An owned process hangs below the owner through older processes that are still there. */
  predicate Hangs(k: Kernel, h: Handle)
    requires h in k.table
  {
    var up := k.table[h].parent;
    k.owner < h && up < h && (up == k.owner || (up in k.owned && up in k.table))
  }

  predicate Numbered(k: Kernel) {
    && (forall h | h in k.table :: h < k.next && k.table[h].parent < k.next && k.table[h].pid > 0)
    && (forall h | h in k.owned :: h < k.next)
    && (forall g, h | g in k.table && h in k.table && k.table[g].pid == k.table[h].pid :: g == h)
  }

  /** Where a process may stand: nothing that is not owned is below the owner, and no parent is a zombie. */
  predicate Placed(k: Kernel, h: Handle)
    requires h in k.table
  {
    var up := k.table[h].parent;
    && (if h in k.owned then Hangs(k, h) else up != k.owner && up !in k.owned)
    && up != h && (up in k.table ==> !k.table[up].zombie)
  }

  predicate Rooted(k: Kernel) {
    && k.owner in k.table && k.owner !in k.owned && !k.table[k.owner].zombie
    && forall h | h in k.table :: Placed(k, h)
  }

  predicate Valid(k: Kernel) {
    Numbered(k) && Rooted(k)
  }

  predicate Possible(k: Kernel, m: Move) {
    match m
    case Fork(parent, pid, _) =>
      && parent in k.table && !k.table[parent].zombie && parent != k.owner
      && pid > 0 && forall h | h in k.table :: k.table[h].pid != pid
    case Exit(h, a) =>
      && h in k.table && !k.table[h].zombie && h != k.owner && a in k.table && !k.table[a].zombie && a != h
      && k.table[a].parent != h
      && (if h in k.owned then (a == k.owner || a in k.owned) && a < h else a != k.owner && a !in k.owned)
    case Reap(h) => h in k.table && k.table[h].zombie && k.table[h].parent != k.owner
  }

  function Exited(k: Kernel, h: Handle, a: Handle): map<Handle, Process> {
    map g | g in k.table ::
      if g == h then k.table[g].(zombie := true)
      else if k.table[g].parent == h then k.table[g].(parent := a)
      else k.table[g]
  }

  function Apply(k: Kernel, m: Move): Kernel {
    if !Possible(k, m) then k
    else
      match m
      case Fork(parent, pid, start) =>
        Kernel(k.owner, k.table[k.next := Process(pid, parent, false, start)], k.next + 1,
               if parent in k.owned then k.owned + {k.next} else k.owned)
      case Exit(h, a) => k.(table := Exited(k, h, a))
      case Reap(h) => k.(table := k.table - {h})
  }

  /** What the owner's waitpid removes. */
  predicate Waitable(k: Kernel, h: Handle) {
    IsChild(k, h) && k.table[h].zombie
  }

  function Reaped(k: Kernel, h: Handle): Kernel {
    k.(table := k.table - {h})
  }

  /** What holds between two moments. A child stays a child as long as the owner does not reap it. */
  ghost predicate Later(a: Kernel, b: Kernel) {
    && b.owner == a.owner && a.next <= b.next && a.owned <= b.owned
    && (forall h | h in b.table :: h in a.table || h >= a.next)
    && (forall h | h in a.table && h in b.table ::
          b.table[h].pid == a.table[h].pid && b.table[h].start == a.table[h].start)
    && (forall h: Handle | IsChild(a, h) && h in b.table :: IsChild(b, h))
  }

  /** Nothing was reaped by the owner in between. */
  ghost predicate KeepsChildren(a: Kernel, b: Kernel) {
    forall h: Handle | IsChild(a, h) :: IsChild(b, h)
  }

  lemma ForkRooted(k: Kernel, m: Move, h: Handle)
    requires Valid(k) && m.Fork? && Possible(k, m) && h in Apply(k, m).table
    ensures Placed(Apply(k, m), h)
  {
    if h == k.next {
      assert m.parent in k.owned ==> Placed(k, m.parent);
    } else {
      assert Placed(k, h);
    }
  }

  lemma ForkNumbered(k: Kernel, m: Move)
    requires Numbered(k) && m.Fork? && Possible(k, m)
    ensures Numbered(Apply(k, m)) && |Apply(k, m).table| == |k.table| + 1
  {
    var b := Apply(k, m);
    assert b.table.Keys == k.table.Keys + {k.next} && |b.table| == |b.table.Keys|;
    assert forall h | h in k.table :: b.table[h] == k.table[h];
  }

  lemma ForkLater(k: Kernel, m: Move)
    requires Numbered(k) && m.Fork? && Possible(k, m)
    ensures Later(k, Apply(k, m)) && KeepsChildren(k, Apply(k, m))
  {
    assert forall h | h in k.table :: h < k.next;
    hide Numbered;
  }

  lemma ForkKeeps(k: Kernel, m: Move)
    requires Valid(k) && m.Fork? && Possible(k, m)
    ensures Valid(Apply(k, m)) && Later(k, Apply(k, m)) && KeepsChildren(k, Apply(k, m))
    ensures |Apply(k, m).table| == |k.table| + 1
  {
    ForkNumbered(k, m);
    ForkLater(k, m);
    hide Placed, Hangs, Numbered, Later, KeepsChildren;
    forall h | h in Apply(k, m).table ensures Placed(Apply(k, m), h) { ForkRooted(k, m, h); }
  }

  lemma ExitRooted(k: Kernel, m: Move, h: Handle)
    requires Valid(k) && m.Exit? && Possible(k, m) && h in k.table
    ensures Placed(Apply(k, m), h)
  {
    hide Numbered;
    assert Placed(k, h);
  }

  lemma ExitNumbered(k: Kernel, m: Move)
    requires Numbered(k) && m.Exit? && Possible(k, m)
    ensures Numbered(Apply(k, m)) && |Apply(k, m).table| == |k.table|
  {
    var b := Apply(k, m);
    assert b.table.Keys == k.table.Keys && |b.table| == |b.table.Keys|;
  }

  lemma ExitLater(k: Kernel, m: Move)
    requires m.Exit? && Possible(k, m)
    ensures Later(k, Apply(k, m)) && KeepsChildren(k, Apply(k, m))
  {
  }

  lemma ExitKeeps(k: Kernel, m: Move)
    requires Valid(k) && m.Exit? && Possible(k, m)
    ensures Valid(Apply(k, m)) && Later(k, Apply(k, m)) && KeepsChildren(k, Apply(k, m))
    ensures |Apply(k, m).table| == |k.table|
  {
    ExitNumbered(k, m);
    ExitLater(k, m);
    hide Placed, Hangs, Numbered, Later, KeepsChildren;
    forall h | h in Apply(k, m).table ensures Placed(Apply(k, m), h) { ExitRooted(k, m, h); }
  }

  lemma RemoveNumbered(k: Kernel, h: Handle)
    requires Numbered(k) && h in k.table
    ensures Numbered(Reaped(k, h)) && |Reaped(k, h).table| == |k.table| - 1
    ensures Later(k, Reaped(k, h))
    ensures k.table[h].parent != k.owner ==> KeepsChildren(k, Reaped(k, h))
  {
    OneFewer(k.table, h);
    ReapedIsLater(k, h);
    hide Later, KeepsChildren;
  }

  lemma OneFewer(table: map<Handle, Process>, h: Handle)
    requires h in table
    ensures |table - {h}| == |table| - 1
  {
    assert (table - {h}).Keys == table.Keys - {h} && |table - {h}| == |(table - {h}).Keys| && |table| == |table.Keys|;
  }

  lemma ReapedIsLater(k: Kernel, h: Handle)
    requires Numbered(k) && h in k.table
    ensures Later(k, Reaped(k, h))
    ensures k.table[h].parent != k.owner ==> KeepsChildren(k, Reaped(k, h))
  {
    hide Numbered;
  }

  lemma RemoveKeeps(k: Kernel, h: Handle)
    requires Valid(k) && h in k.table && k.table[h].zombie
    ensures Valid(Reaped(k, h)) && Later(k, Reaped(k, h)) && |Reaped(k, h).table| == |k.table| - 1
    ensures k.table[h].parent != k.owner ==> KeepsChildren(k, Reaped(k, h))
  {
    RemoveNumbered(k, h);
    hide Numbered, Later, KeepsChildren;
    forall g | g in Reaped(k, h).table ensures Placed(Reaped(k, h), g) { assert Placed(k, g); }
  }

  /** Every move of another process keeps the tree below the owner: nothing that descended from it escapes. */
  lemma ApplyKeeps(k: Kernel, m: Move)
    requires Valid(k)
    ensures Valid(Apply(k, m)) && Later(k, Apply(k, m)) && KeepsChildren(k, Apply(k, m))
    ensures |Apply(k, m).table| <= |k.table| + 1
  {
    hide Numbered, Rooted;
    if Possible(k, m) {
      match m {
        case Fork(_, _, _) => ForkKeeps(k, m);
        case Exit(_, _) => ExitKeeps(k, m);
        case Reap(h) => RemoveKeeps(k, h);
      }
    }
  }

  lemma LaterChains(a: Kernel, b: Kernel, c: Kernel)
    requires Numbered(a) && Numbered(b) && Later(a, b) && Later(b, c)
    ensures Later(a, c)
  {
    forall h: Handle | IsChild(a, h) && h in c.table ensures IsChild(c, h) {
      assert h < a.next && h in b.table && IsChild(b, h);
    }
  }

  lemma LaterSelf(k: Kernel)
    ensures Later(k, k) && KeepsChildren(k, k)
  {
  }

  // ----- descendants

  /** The n-th ancestor, as long as the chain stays in the table. */
  function Up(k: Kernel, h: Handle, n: nat): Handle
    decreases n
  {
    if n == 0 || h !in k.table then h else Up(k, k.table[h].parent, n - 1)
  }

  ghost predicate Descends(k: Kernel, h: Handle) {
    h in k.table && h != k.owner && exists n: nat :: Up(k, h, n) == k.owner
  }

  lemma {:induction false} OwnedClimbs(k: Kernel, h: Handle) returns (n: nat)
    requires Valid(k) && h in k.owned && h in k.table
    ensures Up(k, h, n) == k.owner
  {
    hide Numbered;
    assert Placed(k, h);
    var up := k.table[h].parent;
    if up == k.owner {
      n := 1;
      assert Up(k, up, 0) == up;
    } else {
      var m := OwnedClimbs(k, up);
      n := m + 1;
    }
  }

  lemma {:induction false} OthersNeverClimb(k: Kernel, h: Handle, n: nat)
    requires Valid(k) && h !in k.owned && h != k.owner
    ensures Up(k, h, n) != k.owner
    decreases n
  {
    hide Numbered;
    if n > 0 && h in k.table { OthersNeverClimb(k, k.table[h].parent, n - 1); }
  }

  /** In every reachable table the owned processes that are still there are exactly the owner's descendants. */
  lemma OwnedAreDescendants(k: Kernel, h: Handle)
    requires Valid(k) && h in k.table
    ensures Descends(k, h) <==> h in k.owned
  {
    if h in k.owned {
      var n := OwnedClimbs(k, h);
    } else {
      forall n: nat | h != k.owner ensures Up(k, h, n) != k.owner { OthersNeverClimb(k, h, n); }
    }
  }

  /** With no child left, reaped or not, nothing below the owner is left. */
  lemma {:induction false} ChildlessMeansAlone(k: Kernel, h: Handle)
    requires Valid(k) && (forall g | g in k.table :: !IsChild(k, g)) && h in k.owned
    ensures h !in k.table
  {
    hide Numbered;
    if h in k.table {
      assert Placed(k, h);
      assert !IsChild(k, h);
      ChildlessMeansAlone(k, k.table[h].parent);
    }
  }
}
