/** apply_resolutions: a batch of writes on a page where every write may change every control. */
module FieldBatch {
  import opened Results
  import opened FillIdentity
  import opened FieldOrder

  datatype Kind = FileInput | Combobox | Select | Checkable | TextInput

  /** A value read back from a control. */
  datatype Value = Checked(flag: bool) | Combo(text: string) | Selected(value: string, index: int) | Typed(text: string)

  /** An option with the normalised texts by which it can be chosen. */
  datatype Choice = Choice(names: set<string>, value: string)

  /** A control that its selector locates exactly once. */
  datatype Element = Element(kind: Kind, signature: string, contract: string, visible: bool, checked: bool,
                             text: string, value: string, index: int, choices: seq<Choice>)

  datatype Bounds = Bounds(complete: bool, unsupported: bool, ambiguousFields: bool, ambiguousRows: bool)

  function Read(e: Element, kind: Kind): Value {
    match kind
    case Checkable => Checked(e.checked)
    case Combobox => Combo(e.text)
    case Select => Selected(e.value, e.index)
    case _ => Typed(e.text)
  }

  /** What a write was bound to: the control's signature and kind as they were before the journal intent, and the
      options as they were when the choice was made. */
  datatype Target = Target(signature: string, kind: Kind, choices: seq<Choice>)

  predicate Chosen(choices: seq<Choice>, x: Item, i: int) {
    0 <= i < |choices| && choices[i].names * x.targets != {}
  }

  /** The only option that the item names, if there is exactly one. */
  predicate OnlyChoice(choices: seq<Choice>, x: Item, i: int) {
    Chosen(choices, x, i) && forall j | 0 <= j < |choices| && Chosen(choices, x, j) :: j == i
  }

  /** The value is what the item asks of this control. */
  predicate Wanted(t: Target, x: Item, v: Value) {
    match t.kind
    case Checkable => v == Checked(x.flag)
    case Combobox => v == Combo(x.text) && x.text != ""
    case Select => v.Selected? && OnlyChoice(t.choices, x, v.index) && v.value == t.choices[v.index].value
    case TextInput => v == Typed(x.text)
    case FileInput => false
  }

  datatype Action = Action(fieldId: string, ok: bool)

  datatype Thrown = GuardRefused | RenderFailed | CollectionUnreadable | PageUnreadable | ContractChanged
                  | OutcomeUnknown | LimitUnknown

  datatype Ending = Returned(actions: seq<Action>) | Threw(why: Thrown)

  /** A readback that is kept for the rest of the batch. */
  datatype Retained = Retained(selector: string, signature: string, kind: Kind, expected: Value)

  /** How one field ended. */
  datatype Step = Confirmed(kept: Retained) | Declined | Overflow | Stopped(why: Thrown)

  datatype Journal = NoJournal | HalfJournal | FullJournal

  /** The browser page. It changes on every write, click, render and callback, in any way. */
  class Page {
    var epoch: int
    var controls: map<string, Element>
    var bounds: Bounds
    ghost var writes: nat

    constructor ()
      ensures writes == 0
    {
      epoch, controls := 0, map[];
      bounds := Bounds(true, false, false, false);
      writes := 0;
    }

    /** Anything may change; fails tells whether the call that let it change raised. */
    method Change() returns (fails: bool)
      modifies `epoch, `controls, `bounds
    {
      epoch, controls, bounds := *, *, *;
      fails := *;
    }

    /** A dispatched value. */
    method Write() returns (fails: bool)
      modifies this
      ensures writes == old(writes) + 1
    {
      writes := writes + 1;
      fails := Change();
    }
  }

  predicate Holds(controls: map<string, Element>, r: Retained) {
    && r.selector in controls && controls[r.selector].visible
    && controls[r.selector].signature == r.signature && Read(controls[r.selector], r.kind) == r.expected
  }

  predicate AllHold(controls: map<string, Element>, retained: seq<Retained>) {
    forall r | r in retained :: Holds(controls, r)
  }

  class GenericAdapter {
    const page: Page
    const journal: Journal
    var outcomeUnknown: bool
    var limitUnknown: bool
    /** Writes whose readback has not succeeded. */
    ghost var unconfirmed: nat
    /** Journal intents that have begun and not finished. */
    ghost var openIntents: nat
    /** The control that each confirmed write was bound to. */
    ghost var bound: map<string, Target>

    constructor (p: Page, j: Journal)
      ensures page == p && journal == j && !outcomeUnknown && Sound()
    {
      page, journal := p, j;
      outcomeUnknown, limitUnknown := false, false;
      unconfirmed, openIntents, bound := 0, 0, map[];
    }

    /** A write that was not confirmed has set the sticky flag. */
    predicate Settled()
      reads this
    {
      limitUnknown ==> outcomeUnknown
    }

    ghost predicate Sound()
      reads this
    {
      Settled() && (!outcomeUnknown ==> unconfirmed == 0) && openIntents == 0
    }

    method MarkUnknown()
      modifies `outcomeUnknown
      ensures outcomeUnknown
    {
      outcomeUnknown := true;
    }

    /** verify_retained: the whole retained set in one atomic read. */
    method VerifyRetained(epoch: int, retained: seq<Retained>) returns (ok: bool)
      modifies `outcomeUnknown, page`epoch, page`controls, page`bounds
      ensures ok ==> outcomeUnknown == old(outcomeUnknown) && AllHold(page.controls, retained)
      ensures !ok ==> outcomeUnknown && retained != []
      ensures retained == [] ==> ok && page.controls == old(page.controls)
    {
      if retained == [] { return true; }
      var fails := page.Change();
      var unreadable := *;
      if fails || unreadable || page.epoch != epoch || !AllHold(page.controls, retained) {
        MarkUnknown();
        return false;
      }
      ok := true;
    }

    /** verify_form_structure reads the page and changes nothing there. */
    method VerifyStructure(retained: seq<Retained>) returns (ok: bool)
      modifies `outcomeUnknown, `limitUnknown
      ensures ok ==> outcomeUnknown == old(outcomeUnknown) && limitUnknown == old(limitUnknown)
      ensures ok && retained != [] ==> page.bounds == Bounds(true, false, false, false)
      ensures !ok ==> outcomeUnknown && (limitUnknown != old(limitUnknown) ==> !page.bounds.complete)
    {
      if retained == [] { return true; }
      var unreadable := *;
      if !unreadable && !page.bounds.complete { limitUnknown := true; }
      if unreadable || page.bounds != Bounds(true, false, false, false) {
        MarkUnknown();
        return false;
      }
      ok := true;
    }

    /** verify_target_contract: outside of a write only an earlier readback makes the outcome unknown. */
    method VerifyContract(epoch: int, contract: string, selector: string, retained: seq<Retained>) returns (ok: bool)
      modifies `outcomeUnknown
      ensures ok ==> && outcomeUnknown == old(outcomeUnknown) && page.epoch == epoch && selector in page.controls
                     && page.controls[selector].visible && page.controls[selector].contract == contract
      ensures !ok ==> outcomeUnknown == (old(outcomeUnknown) || retained != [])
    {
      var unreadable := *;
      if unreadable || contract == "" || page.epoch != epoch || selector !in page.controls
         || !page.controls[selector].visible || page.controls[selector].contract != contract
      {
        if retained != [] { MarkUnknown(); }
        return false;
      }
      ok := true;
    }

    /** The except clause of one field: the flag is set and the intent is closed as unknown. */
    method Abandon(begun: bool)
      requires openIntents == (if begun then 1 else 0)
      modifies `outcomeUnknown, `openIntents
      ensures outcomeUnknown && openIntents == 0
    {
      MarkUnknown();
      openIntents := 0;
    }

    /** The choice of a select: read after one more guard, and still the same options at the write. */
    method ChooseOption(x: Item, epoch: int, contract: string, retained: seq<Retained>)
      returns (choice: Option<Value>, options: seq<Choice>, fails: bool)
      modifies `outcomeUnknown, page`epoch, page`controls, page`bounds
      ensures !fails ==> outcomeUnknown == old(outcomeUnknown)
      ensures !fails && choice.Some? ==> Wanted(Target("", Select, options), x, choice.value)
      ensures !fails && choice.Some? ==> x.selector in page.controls && page.controls[x.selector].choices == options
    {
      choice, options := None, [];
      fails := page.Change();
      if fails { return; }
      if x.selector !in page.controls { return None, [], true; }
      options := page.controls[x.selector].choices;
      var i := *;
      if !OnlyChoice(options, x, i) { return; }
      fails := page.Change();
      if fails { return; }
      var ok := VerifyContract(epoch, contract, x.selector, retained);
      if !ok { return None, options, true; }
      if page.controls[x.selector].choices != options { return None, options, false; }
      choice := Some(Selected(options[i].value, i));
    }

    /** The primitive of one kind of control, on the control as it is now. NoChoice leaves the value alone, though a
        combobox may have been opened. */
    method Dispatch(x: Item, kind: Kind, epoch: int, contract: string, retained: seq<Retained>)
      returns (choice: Option<Value>, options: seq<Choice>, fails: bool)
      requires kind != FileInput && x.selector in page.controls
      modifies `outcomeUnknown, `unconfirmed, page
      ensures !fails && choice.Some? ==> Wanted(Target("", kind, options), x, choice.value)
      ensures !fails && choice.None? ==> page.writes == old(page.writes) && unconfirmed == old(unconfirmed)
      ensures page.writes - old(page.writes) == unconfirmed - old(unconfirmed)
      ensures 0 <= unconfirmed - old(unconfirmed) <= 1
      ensures !fails ==> outcomeUnknown == old(outcomeUnknown)
    {
      choice, options, fails := None, [], false;
      if kind == Select {
        choice, options, fails := ChooseOption(x, epoch, contract, retained);
        if fails || choice.None? { return; }
      } else {
        var now := page.controls[x.selector];
        if kind == Combobox {
          if x.text == "" { return; }
          choice := Some(Combo(x.text));
        } else if kind == Checkable {
          choice := Some(Checked(x.flag));
          if now.checked == x.flag { return; }
        } else {
          choice := Some(Typed(x.text));
          if now.text == x.text { return; }
        }
        fails := page.Change();
        if fails { return; }
        var unavailable := *;
        if kind == Combobox && unavailable { return None, [], false; }
        var ok := VerifyContract(epoch, contract, x.selector, retained);
        if !ok { return choice, [], true; }
      }
      unconfirmed := unconfirmed + 1;
      fails := page.Write();
    }

    /** One field, from the bound control to its readback. Before the intent only the kind and the signature are taken
        from the control; its state and its options are read again after the second contract check. */
    method WriteField(x: Item, e: Element, epoch: int, contract: string, retained: seq<Retained>) returns (step: Step)
      requires !outcomeUnknown && Sound()
      modifies `outcomeUnknown, `unconfirmed, `openIntents, `bound, page
      ensures Sound() && !step.Overflow?
      ensures step.Confirmed? ==>
                && !outcomeUnknown && x.selector in bound && bound == old(bound)[x.selector := bound[x.selector]]
                && bound[x.selector].signature == e.signature && bound[x.selector].kind == e.kind
                && Fits(step.kept, x, bound[x.selector])
      ensures !step.Confirmed? ==> bound == old(bound)
      ensures step.Declined? ==> !outcomeUnknown && page.writes == old(page.writes)
      ensures step.Stopped? ==> outcomeUnknown && step.why == OutcomeUnknown
    {
      var unreadable := *;
      var precise := *;
      if unreadable { Abandon(false); return Stopped(OutcomeUnknown); }
      if e.kind == FileInput || !precise { return Declined; }
      if journal == HalfJournal { Abandon(false); return Stopped(OutcomeUnknown); }
      var begun := journal == FullJournal;
      if begun {
        var refused := page.Change();
        if refused { Abandon(false); return Stopped(OutcomeUnknown); }
        openIntents := 1;
      }
      var ok := VerifyContract(epoch, contract, x.selector, retained);
      if !ok { Abandon(begun); return Stopped(OutcomeUnknown); }
      var choice, options, fails := Dispatch(x, e.kind, epoch, contract, retained);
      if fails || (choice.None? && begun) { Abandon(begun); return Stopped(OutcomeUnknown); }
      if choice.None? { return Declined; }
      var target := Target(e.signature, e.kind, options);
      ok := Confirm(x, target, choice.value, epoch, retained);
      if !ok { Abandon(begun); return Stopped(OutcomeUnknown); }
      if begun {
        var finish := page.Change();
        openIntents := 0;
      }
      bound := bound[x.selector := target];
      step := Confirmed(Retained(x.selector, e.signature, e.kind, choice.value));
    }

    /** The readback of the newly rendered control, and of everything that was kept before. */
    method Confirm(x: Item, target: Target, expected: Value, epoch: int, retained: seq<Retained>) returns (ok: bool)
      modifies `outcomeUnknown, `unconfirmed, page`epoch, page`controls, page`bounds
      ensures ok ==> unconfirmed == 0 && outcomeUnknown == old(outcomeUnknown)
      ensures !ok ==> unconfirmed == old(unconfirmed) || outcomeUnknown
    {
      var renderFails := page.Change();
      var guardFails := page.Change();
      if renderFails || guardFails || x.selector !in page.controls || !page.controls[x.selector].visible
         || page.controls[x.selector].signature != target.signature
         || Read(page.controls[x.selector], target.kind) != expected
      {
        return false;
      }
      unconfirmed := 0;
      ok := VerifyRetained(epoch, retained);
    }

    /** One iteration of the write loop, up to the field's step. */
    method VisitField(x: Item, o: Observed, epoch: int, retained: seq<Retained>) returns (step: Step)
      requires !outcomeUnknown && Sound()
      modifies this, page
      ensures Sound()
      ensures step.Confirmed? ==>
                && !outcomeUnknown && x.selector in bound && bound == old(bound)[x.selector := bound[x.selector]]
                && Fits(step.kept, x, bound[x.selector])
      ensures !step.Confirmed? ==> bound == old(bound)
      ensures step.Declined? || step.Overflow? ==> !outcomeUnknown && page.writes == old(page.writes)
      ensures step.Stopped? && step.why in {RenderFailed, CollectionUnreadable, PageUnreadable} ==>
                !outcomeUnknown && page.writes == old(page.writes)
      ensures step.Stopped? ==> step.why != LimitUnknown && step.why != GuardRefused
      ensures step.Stopped? && step.why == OutcomeUnknown ==> outcomeUnknown
      ensures step.Stopped? && step.why == ContractChanged ==>
                outcomeUnknown == (retained != []) && page.writes == old(page.writes)
    {
      if o.dependsOn != "" {
        var fails := page.Change();
        if fails { return Stopped(RenderFailed); }
      }
      var ok := VerifyRetained(epoch, retained);
      if !ok { return Stopped(OutcomeUnknown); }
      var unreadable := *;
      if unreadable { return Stopped(CollectionUnreadable); }
      if !page.bounds.complete { return Overflow; }
      ok := VerifyStructure(retained);
      if !ok { return Stopped(OutcomeUnknown); }
      unreadable := *;
      if unreadable { return Stopped(PageUnreadable); }
      if x.selector !in page.controls || !page.controls[x.selector].visible { return Declined; }
      ok := VerifyContract(epoch, o.contract, x.selector, retained);
      if !ok { return Stopped(ContractChanged); }
      step := WriteField(x, page.controls[x.selector], epoch, o.contract, retained);
    }

    /** The write loop over the ordered batch, and the last two checks. */
    method WriteBatch(items: seq<Item>, seen: map<string, Observed>, ordered: seq<Item>) returns (r: Ending)
      requires !outcomeUnknown && Sound()
      requires Admitted(items, seen) && Distinct(items) && Decides(items, seen, Ordered(ordered))
      modifies this, page
      ensures Sound()
      ensures r.Returned? ==> !outcomeUnknown && Together(items, r.actions, bound, page.controls)
      ensures r.Returned? && (forall a | a in r.actions :: a.ok) ==>
                forall x | x in items && x.resolved :: Action(x.fieldId, true) in r.actions
      ensures r.Returned? ==> ParentsOk(items, seen, r.actions)
      ensures r == Threw(CollectionUnreadable) ==> !outcomeUnknown
      ensures r.Returned? && (forall a | a in r.actions :: !a.ok) ==> page.writes == old(page.writes)
    {
      hide Decides, Defective, Progress, Together, ParentsOk, Fits, HoldsWanted, AllHold, Admitted, Distinct;
      PermutationDistinct(items, seen, ordered);
      var unreadable := *;
      if unreadable { return Threw(PageUnreadable); }
      var epoch, retained: seq<Retained>, actions: seq<Action>, n, over := page.epoch, [], [], 0, false;
      NoProgress(items, seen, ordered, bound);
      while n < |ordered| && !over
        invariant n <= |ordered| && Sound() && !outcomeUnknown
        invariant Progress(items, seen, ordered, n, actions, retained, bound)
        invariant over ==> exists a | a in actions :: !a.ok
        invariant page.writes == old(page.writes) || exists a | a in actions :: a.ok
        decreases |ordered| - n, !over
      {
        var refused := page.Change();
        if refused { return Threw(GuardRefused); }
        var x := ordered[n];
        InBatch(items, seen, ordered, n);
        if !x.resolved {
          ProgressSkips(items, seen, ordered, n, actions, retained, bound);
        } else if FailedParent(items, actions, seen[x.selector].dependsOn) {
          ProgressFails(items, seen, ordered, n, actions, retained, bound);
          actions := actions + [Action(x.fieldId, false)];
        } else {
          ghost var before := bound;
          var step := VisitField(x, seen[x.selector], epoch, retained);
          match step {
            case Stopped(why) => return Threw(why);
            case Confirmed(kept) =>
              ProgressConfirms(items, seen, ordered, n, actions, retained, before, kept, bound[x.selector]);
              retained := retained + [kept];
              actions := actions + [Action(x.fieldId, true)];
              assert actions[|actions| - 1] in actions;
            case _ =>
              ProgressFails(items, seen, ordered, n, actions, retained, bound);
              actions := actions + [Action(x.fieldId, false)];
              assert actions[|actions| - 1] in actions;
              over := step.Overflow?;
          }
        }
        n := n + 1;
      }
      var ok := VerifyRetained(epoch, retained);
      if !ok { return Threw(OutcomeUnknown); }
      ok := VerifyStructure(retained);
      if !ok { return Threw(OutcomeUnknown); }
      ProgressMeans(items, seen, ordered, n, actions, retained, bound, page.controls, over);
      r := Returned(actions);
    }

    /** apply_resolutions */
    method Apply(items: seq<Item>) returns (r: Ending, ghost seen: map<string, Observed>)
      requires Sound()
      modifies this, page
      ensures Sound()
      ensures old(outcomeUnknown) ==>
                r.Threw? && outcomeUnknown && page.writes == old(page.writes) && page.controls == old(page.controls)
      ensures r.Returned? ==> !outcomeUnknown && unconfirmed == 0
      ensures r.Returned? ==> Together(items, r.actions, bound, page.controls)
      ensures r.Returned? && (forall a | a in r.actions :: a.ok) ==>
                forall x | x in items && x.resolved :: Action(x.fieldId, true) in r.actions
      ensures r.Returned? ==> ParentsOk(items, seen, r.actions)
      ensures r == Threw(CollectionUnreadable) ==> !outcomeUnknown
      ensures r.Returned? && (forall a | a in r.actions :: !a.ok) ==> page.writes == old(page.writes)
    {
      seen := map[];
      if outcomeUnknown { return Threw(if limitUnknown then LimitUnknown else OutcomeUnknown), seen; }
      var refused := page.Change();
      if refused { return Threw(GuardRefused), seen; }
      if !UniqueFillIdentity(ItemIdentities(items)) { return Returned(Refusals(items)), seen; }
      var observed: seq<Observed>, unreadable := *, *;
      if unreadable { return Threw(PageUnreadable), seen; }
      if !UniqueFillIdentity(ObservedIdentities(observed)) { return Returned(Refusals(items)), seen; }
      var known := SeenMap(observed);
      if exists x | x in items :: x.selector !in known { return Returned(Refusals(items)), seen; }
      seen := known;
      UniqueItems(items, known);
      var ordering := Order(items, known);
      match ordering {
        case Cyclic(pending) =>
          PendingIn(items, known, pending);
          assert Refusals(pending)[0] in Refusals(pending);
          return Returned(Refusals(pending)), seen;
        case MissingDependency(x) => return Returned([Action(x.fieldId, false)]), seen;
        case UnresolvedDependency(x) => return Returned([Action(x.fieldId, false)]), seen;
        case Ordered(ordered) => r := WriteBatch(items, known, ordered);
      }
    }
  }

  // ----- what a returned batch says

  /** The readback is what the item asks of the control that it was bound to. */
  predicate Fits(r: Retained, x: Item, e: Target) {
    r.selector == x.selector && r.signature == e.signature && r.kind == e.kind && Wanted(e, x, r.expected)
  }

  /** The control that the item was bound to is still there and holds what the item asks. */
  predicate HoldsWanted(controls: map<string, Element>, x: Item, e: Target) {
    && x.selector in controls && controls[x.selector].visible && controls[x.selector].signature == e.signature
    && Wanted(e, x, Read(controls[x.selector], e.kind))
  }

  /** Every field that is reported ok holds its wanted value on this one page state. */
  predicate Together(items: seq<Item>, actions: seq<Action>, bound: map<string, Target>,
                     controls: map<string, Element>) {
    forall x | x in items && Action(x.fieldId, true) in actions ::
      x.resolved && x.selector in bound && HoldsWanted(controls, x, bound[x.selector])
  }

  /** A field is reported ok only if its in-batch parent is. */
  predicate ParentsOk(items: seq<Item>, seen: map<string, Observed>, actions: seq<Action>) {
    forall x, p | x in items && p in items && Action(x.fieldId, true) in actions
                  && Parent(Selectors(items), seen, x.selector) == Some(p.selector) ::
                     Action(p.fieldId, true) in actions
  }

  function Refusals(items: seq<Item>): (actions: seq<Action>)
    ensures |actions| == |items| && forall i | 0 <= i < |items| :: actions[i] == Action(items[i].fieldId, false)
  {
    seq(|items|, i requires 0 <= i < |items| => Action(items[i].fieldId, false))
  }

  function SeenMap(observed: seq<Observed>): map<string, Observed> {
    if observed == [] then map[]
    else SeenMap(observed[..|observed| - 1])[observed[|observed| - 1].selector := observed[|observed| - 1]]
  }

  // ----- the invariant of the write loop

  predicate Distinct(items: seq<Item>) {
    forall x, y | x in items && y in items && (x.selector == y.selector || x.fieldId == y.fieldId) :: x == y
  }

  /** by_selector[dependency] has an action that is not ok. */
  predicate FailedParent(items: seq<Item>, actions: seq<Action>, dependsOn: string) {
    exists p | p in items :: p.selector == dependsOn && Action(p.fieldId, false) in actions
  }

  /** The first n items have their actions; the ok ones have a kept readback and ok parents. */
  predicate Progress(items: seq<Item>, seen: map<string, Observed>, ordered: seq<Item>, n: nat, actions: seq<Action>,
                     retained: seq<Retained>, bound: map<string, Target>)
    requires n <= |ordered|
  {
    && (forall i | 0 <= i < n && ordered[i].resolved ::
          Action(ordered[i].fieldId, true) in actions || Action(ordered[i].fieldId, false) in actions)
    && (forall a | a in actions :: exists i | 0 <= i < n :: ordered[i].resolved && ordered[i].fieldId == a.fieldId)
    && (forall x | x in items && Action(x.fieldId, true) in actions ::
          x.selector in bound && exists r | r in retained :: Fits(r, x, bound[x.selector]))
    && ParentsOk(items, seen, actions)
  }

  lemma NoProgress(items: seq<Item>, seen: map<string, Observed>, ordered: seq<Item>, bound: map<string, Target>)
    ensures Progress(items, seen, ordered, 0, [], [], bound)
  {
  }

  predicate DistinctSelectors(s: seq<Item>) {
    forall i, j | 0 <= i < j < |s| :: s[i].selector != s[j].selector
  }

  lemma {:induction false} DistinctBySize(s: seq<Item>)
    ensures |Selectors(s)| <= |s|
    ensures DistinctSelectors(s) <==> |Selectors(s)| == |s|
  {
    if s != [] {
      var n := |s| - 1;
      var init := s[..n];
      DistinctBySize(init);
      assert s == init + [s[n]];
      assert Selectors(s) == Selectors(init) + {s[n].selector};
      LastIsDistinct(s);
      hide DistinctSelectors, Selectors;
    }
  }

  lemma LastIsDistinct(s: seq<Item>)
    requires s != []
    ensures var init, last := s[..|s| - 1], s[|s| - 1];
            DistinctSelectors(s) <==> DistinctSelectors(init) && last.selector !in Selectors(init)
  {
    var n := |s| - 1;
    var init := s[..n];
    assert forall i | 0 <= i < n :: init[i] == s[i] && init[i] in init;
    assert s[n].selector in Selectors(init) ==> exists i | 0 <= i < n :: init[i].selector == s[n].selector;
  }

  lemma PermutationDistinct(items: seq<Item>, seen: map<string, Observed>, ordered: seq<Item>)
    requires Admitted(items, seen) && Decides(items, seen, Ordered(ordered))
    ensures multiset(ordered) == multiset(items) && DistinctSelectors(ordered)
    ensures forall x :: x in items <==> x in ordered
  {
    hide Defective, ParentsFirst, HasCycle;
    assert multiset(ordered) == multiset(items);
    forall x ensures x in items <==> x in ordered { assert x in multiset(items) <==> x in multiset(ordered); }
    assert Selectors(ordered) == Selectors(items);
    assert |multiset(ordered)| == |ordered| && |multiset(items)| == |items|;
    DistinctBySize(items);
    DistinctBySize(ordered);
  }

  lemma InBatch(items: seq<Item>, seen: map<string, Observed>, ordered: seq<Item>, n: nat)
    requires Admitted(items, seen) && n < |ordered| && forall x :: x in items <==> x in ordered
    ensures ordered[n] in items && ordered[n].selector in seen
  {
    assert ordered[n] in ordered;
  }

  lemma ProgressSkips(items: seq<Item>, seen: map<string, Observed>, ordered: seq<Item>, n: nat, actions: seq<Action>,
                      retained: seq<Retained>, bound: map<string, Target>)
    requires n < |ordered| && !ordered[n].resolved && Progress(items, seen, ordered, n, actions, retained, bound)
    ensures Progress(items, seen, ordered, n + 1, actions, retained, bound)
  {
    hide ParentsOk, Fits;
    forall a | a in actions
      ensures exists i | 0 <= i < n + 1 :: ordered[i].resolved && ordered[i].fieldId == a.fieldId
    {
      var i :| 0 <= i < n && ordered[i].resolved && ordered[i].fieldId == a.fieldId;
    }
  }

  /** The actions of the first n + 1 items once the last of them has its own. */
  lemma Accounts(ordered: seq<Item>, n: nat, actions: seq<Action>, ok: bool)
    requires n < |ordered| && ordered[n].resolved
    requires forall i | 0 <= i < n && ordered[i].resolved ::
               Action(ordered[i].fieldId, true) in actions || Action(ordered[i].fieldId, false) in actions
    requires forall a | a in actions :: exists i | 0 <= i < n :: ordered[i].resolved && ordered[i].fieldId == a.fieldId
    ensures var longer := actions + [Action(ordered[n].fieldId, ok)];
            && (forall i | 0 <= i < n + 1 && ordered[i].resolved ::
                  Action(ordered[i].fieldId, true) in longer || Action(ordered[i].fieldId, false) in longer)
            && (forall a | a in longer ::
                  exists i | 0 <= i < n + 1 :: ordered[i].resolved && ordered[i].fieldId == a.fieldId)
  {
    var longer := actions + [Action(ordered[n].fieldId, ok)];
    assert Action(ordered[n].fieldId, ok) in longer;
    forall a | a in longer ensures exists i | 0 <= i < n + 1 :: ordered[i].resolved && ordered[i].fieldId == a.fieldId {
      if a in actions {
        var i :| 0 <= i < n && ordered[i].resolved && ordered[i].fieldId == a.fieldId;
      } else {
        assert ordered[n].resolved && ordered[n].fieldId == a.fieldId;
      }
    }
  }

  lemma ProgressFails(items: seq<Item>, seen: map<string, Observed>, ordered: seq<Item>, n: nat, actions: seq<Action>,
                      retained: seq<Retained>, bound: map<string, Target>)
    requires n < |ordered| && ordered[n].resolved && Progress(items, seen, ordered, n, actions, retained, bound)
    ensures Progress(items, seen, ordered, n + 1, actions + [Action(ordered[n].fieldId, false)], retained, bound)
  {
    hide Fits;
    Accounts(ordered, n, actions, false);
  }

  /** The parent of the item has an ok action: it comes first, is resolved, and has not failed. */
  lemma ParentIsOk(items: seq<Item>, seen: map<string, Observed>, ordered: seq<Item>, n: nat, actions: seq<Action>,
                   retained: seq<Retained>, bound: map<string, Target>, p: Item)
    requires Admitted(items, seen) && Distinct(items) && Decides(items, seen, Ordered(ordered))
    requires forall x :: x in items <==> x in ordered
    requires n < |ordered| && ordered[n].resolved && Progress(items, seen, ordered, n, actions, retained, bound)
    requires ordered[n].selector in seen && !FailedParent(items, actions, seen[ordered[n].selector].dependsOn)
    requires p in items && Parent(Selectors(items), seen, ordered[n].selector) == Some(p.selector)
    ensures Action(p.fieldId, true) in actions
  {
    hide HasCycle, ParentsOk, Fits;
    var x := ordered[n];
    assert x in items && !Defective(items, seen, x);
    assert p.resolved;
    var i :| 0 <= i < n && Parent(Selectors(items), seen, x.selector) == Some(ordered[i].selector);
    assert ordered[i] in items && ordered[i] == p;
  }

  /** A new readback leaves the earlier ones bound to their own controls. */
  lemma KeepsReadbacks(items: seq<Item>, seen: map<string, Observed>, ordered: seq<Item>, n: nat,
                       actions: seq<Action>, retained: seq<Retained>, bound: map<string, Target>,
                       kept: Retained, e: Target, y: Item)
    requires Distinct(items) && DistinctSelectors(ordered) && forall x :: x in items <==> x in ordered
    requires n < |ordered| && Progress(items, seen, ordered, n, actions, retained, bound)
    requires Fits(kept, ordered[n], e) && y in items
    requires y == ordered[n] || Action(y.fieldId, true) in actions
    ensures var rebound := bound[ordered[n].selector := e];
            y.selector in rebound && exists r | r in retained + [kept] :: Fits(r, y, rebound[y.selector])
  {
    hide Fits, ParentsOk;
    if y == ordered[n] {
      assert kept in retained + [kept];
    } else {
      var i :| 0 <= i < n && ordered[i].resolved && ordered[i].fieldId == y.fieldId;
      assert ordered[i] in items && ordered[i] == y;
      var r: Retained :| r in retained && Fits(r, y, bound[y.selector]);
      assert r in retained + [kept];
    }
  }

  lemma ParentsStayOk(items: seq<Item>, seen: map<string, Observed>, ordered: seq<Item>, n: nat,
                      actions: seq<Action>, retained: seq<Retained>, bound: map<string, Target>)
    requires Admitted(items, seen) && Distinct(items) && Decides(items, seen, Ordered(ordered))
    requires forall x :: x in items <==> x in ordered
    requires n < |ordered| && ordered[n].resolved && Progress(items, seen, ordered, n, actions, retained, bound)
    requires ordered[n].selector in seen && !FailedParent(items, actions, seen[ordered[n].selector].dependsOn)
    ensures ParentsOk(items, seen, actions + [Action(ordered[n].fieldId, true)])
  {
    var x := ordered[n];
    var longer := actions + [Action(x.fieldId, true)];
    assert ParentsOk(items, seen, actions) && x in items;
    hide Fits, Decides, Admitted, FailedParent, Progress;
    forall y, p | y in items && p in items && Action(y.fieldId, true) in longer
                  && Parent(Selectors(items), seen, y.selector) == Some(p.selector)
      ensures Action(p.fieldId, true) in longer
    {
      if y == x {
        ParentIsOk(items, seen, ordered, n, actions, retained, bound, p);
      } else {
        assert Action(y.fieldId, true) in actions;
      }
    }
  }

  lemma ProgressConfirms(items: seq<Item>, seen: map<string, Observed>, ordered: seq<Item>, n: nat,
                         actions: seq<Action>, retained: seq<Retained>, bound: map<string, Target>,
                         kept: Retained, e: Target)
    requires Admitted(items, seen) && Distinct(items) && Decides(items, seen, Ordered(ordered))
    requires DistinctSelectors(ordered) && forall x :: x in items <==> x in ordered
    requires n < |ordered| && ordered[n].resolved && Progress(items, seen, ordered, n, actions, retained, bound)
    requires ordered[n].selector in seen && !FailedParent(items, actions, seen[ordered[n].selector].dependsOn)
    requires Fits(kept, ordered[n], e)
    ensures Progress(items, seen, ordered, n + 1, actions + [Action(ordered[n].fieldId, true)], retained + [kept],
                     bound[ordered[n].selector := e])
  {
    var x := ordered[n];
    var longer, rebound := actions + [Action(x.fieldId, true)], bound[x.selector := e];
    Accounts(ordered, n, actions, true);
    assert x in items;
    hide Fits, Decides, Admitted, FailedParent, DistinctSelectors, ParentsOk;
    forall y | y in items && Action(y.fieldId, true) in longer
      ensures y.selector in rebound && exists r | r in retained + [kept] :: Fits(r, y, rebound[y.selector])
    {
      assert y == x || Action(y.fieldId, true) in actions;
      KeepsReadbacks(items, seen, ordered, n, actions, retained, bound, kept, e, y);
    }
    ParentsStayOk(items, seen, ordered, n, actions, retained, bound);
  }

  /** At the end: the kept readbacks hold together on the page as it is now. */
  lemma ProgressMeans(items: seq<Item>, seen: map<string, Observed>, ordered: seq<Item>, n: nat, actions: seq<Action>,
                      retained: seq<Retained>, bound: map<string, Target>, controls: map<string, Element>, over: bool)
    requires Distinct(items) && n <= |ordered| && Progress(items, seen, ordered, n, actions, retained, bound)
    requires forall x :: x in items <==> x in ordered
    requires AllHold(controls, retained) && (n == |ordered| || over)
    requires over ==> exists a | a in actions :: !a.ok
    ensures Together(items, actions, bound, controls) && ParentsOk(items, seen, actions)
    ensures (forall a | a in actions :: a.ok) ==>
              forall x | x in items && x.resolved :: Action(x.fieldId, true) in actions
  {
    hide ParentsOk, Wanted, Read;
    forall x | x in items && Action(x.fieldId, true) in actions
      ensures x.resolved && x.selector in bound && HoldsWanted(controls, x, bound[x.selector])
    {
      var i :| 0 <= i < n && ordered[i].resolved && ordered[i].fieldId == x.fieldId;
      assert ordered[i] in items && ordered[i] == x;
      var r: Retained :| r in retained && Fits(r, x, bound[x.selector]);
      assert Holds(controls, r);
    }
    if forall a | a in actions :: a.ok {
      forall x | x in items && x.resolved ensures Action(x.fieldId, true) in actions {
        var i :| 0 <= i < |ordered| && ordered[i] == x;
        assert Action(x.fieldId, false) in actions ==> !Action(x.fieldId, false).ok;
      }
    }
  }

  // ----- admission

  lemma UniqueItems(items: seq<Item>, seen: map<string, Observed>)
    requires UniqueFillIdentity(ItemIdentities(items)) && forall x | x in items :: x.selector in seen
    ensures Admitted(items, seen) && Distinct(items)
  {
    var ids := ItemIdentities(items);
    forall i | 0 <= i < |items| ensures items[i].selector != "" {
      assert ids[i] == Identity(items[i].selector, items[i].fieldId) && !Blank(ids[i].selector);
    }
    forall i, j | 0 <= i < j < |items|
      ensures items[i].selector != items[j].selector && items[i].fieldId != items[j].fieldId
    {
      assert ids[i].selector != ids[j].selector && ids[i].fieldId != ids[j].fieldId;
    }
    forall x, y | x in items && y in items && (x.selector == y.selector || x.fieldId == y.fieldId) ensures x == y {
      var i :| 0 <= i < |items| && items[i] == x;
      var j :| 0 <= j < |items| && items[j] == y;
      assert i < j || j < i || i == j;
    }
  }

  lemma PendingIn(items: seq<Item>, seen: map<string, Observed>, pending: seq<Item>)
    requires Admitted(items, seen) && Decides(items, seen, Cyclic(pending))
    ensures pending != []
  {
    hide Defective, Grounded, HasCycle;
    CycleIffUngrounded(Selectors(items), seen);
  }
}
