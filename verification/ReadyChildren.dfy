/** The fields that the fills of a page reveal: which of them the run resolves, and when it misses one. */
module ReadyChildren {
  import opened Results
  import opened ReviewCertificate
  import opened FillIdentity
  import opened OtpChallenge
  import opened ReadyRun
  import opened ReadyTheorems
  import opened ReadyMirror
  import opened ReadyRevisions

  /** Every field of the form has a resolution under its selector. */
  predicate Covered(form: Form, resolutions: seq<Field>) {
    !form.Unobservable? && forall f | f in form.fields :: f.selector in Selectors(resolutions)
  }

  /** How many re-observations bind new fields before the loop over the revealed fields ends. */
  function Consumed(f: Filled, known: set<string>, rounds: seq<Round>, left: nat): nat
    decreases left
  {
    if left == 0 || !f.ok || rounds == [] || !Supported(rounds[0].form) || rounds[0].filled.None? then 0
    else
      var added := Added(rounds[0].form.fields, known);
      if added == [] || !Bindable(rounds[0].form, added) then 0
      else
        1 + Consumed(Filled(Extend(f.state, added), f.resolutions + added, rounds[0].filled.value),
                     known + Selectors(added), rounds[1..], left - 1)
  }

  lemma {:induction false} AddedCovers(fields: seq<Field>, known: set<string>)
    ensures forall f | f in fields :: f.selector in known + Selectors(Added(fields, known))
    ensures forall f | f in Added(fields, known) :: f in fields && f.selector !in known
  {
    if fields != [] {
      AddedCovers(fields[1..], known);
      forall f | f in fields ensures f.selector in known + Selectors(Added(fields, known)) {
        if f == fields[0] && f.selector !in known {
          assert f in Added(fields, known);
        } else {
          assert f.selector !in known ==> f in fields[1..];
          assert f.selector in known + Selectors(Added(fields[1..], known));
          SelectorsGrow(Added(fields[1..], known), Added(fields, known), f.selector);
        }
      }
    }
  }

  lemma SelectorsGrow(a: seq<Field>, b: seq<Field>, selector: string)
    requires forall f | f in a :: f in b
    ensures selector in Selectors(a) ==> selector in Selectors(b)
  {
  }

  lemma SelectorsJoin(a: seq<Field>, b: seq<Field>)
    ensures Selectors(a + b) == Selectors(a) + Selectors(b)
  {
  }

  /** The loop resolves every field of every re-observation that it binds, under its selector; what it knows at the end
      is what it has resolved. */
  lemma {:induction false} ConsumedIsCovered(f: Filled, known: set<string>, rounds: seq<Round>, left: nat, k: nat)
    requires known == Selectors(f.resolutions) && FillChildren(f, known, rounds, left).Ok?
    requires k < Consumed(f, known, rounds, left)
    ensures k < |rounds| && Covered(rounds[k].form, FillChildren(f, known, rounds, left).value.resolutions)
    decreases left
  {
    hide Supported, Bindable, Extend, Added, Selectors;
    var added := Added(rounds[0].form.fields, known);
    var next := Filled(Extend(f.state, added), f.resolutions + added, rounds[0].filled.value);
    var done := FillChildren(f, known, rounds, left).value;
    AddedCovers(rounds[0].form.fields, known);
    SelectorsJoin(f.resolutions, added);
    assert rounds[0].form.Observation? by { SupportedIsObservation(rounds[0].form); }
    if k == 0 {
      ResolutionsGrow(next, known + Selectors(added), rounds[1..], left - 1);
      forall g | g in rounds[0].form.fields ensures g.selector in Selectors(done.resolutions) {
        SelectorsGrow(next.resolutions, done.resolutions, g.selector);
      }
    } else {
      ConsumedIsCovered(next, known + Selectors(added), rounds[1..], left - 1, k - 1);
    }
  }

  lemma SupportedIsObservation(form: Form)
    requires Supported(form)
    ensures form.Observation?
  {
  }

  lemma {:induction false} ResolutionsGrow(f: Filled, known: set<string>, rounds: seq<Round>, left: nat)
    requires FillChildren(f, known, rounds, left).Ok?
    ensures f.resolutions <= FillChildren(f, known, rounds, left).value.resolutions
    decreases left
  {
    hide Supported, Bindable, Extend, Added;
    if left > 0 && f.ok {
      var added := Added(rounds[0].form.fields, known);
      if Supported(rounds[0].form) && added != [] {
        ResolutionsGrow(Filled(Extend(f.state, added), f.resolutions + added, rounds[0].filled.value),
                        known + Selectors(added), rounds[1..], left - 1);
      }
    }
  }

  /** How the loop ended: the last re-observation was supported and added nothing; it was not supported; or the fourth
      round was used up and nothing was observed after it. */
  datatype Stop = AddsNothing | NotSupported | RoundsUsed

  function StopOf(page: Page, n: nat): Stop {
    if n >= CHILD_ROUNDS then RoundsUsed
    else if n < |page.rounds| && Supported(page.rounds[n].form) then AddsNothing
    else NotSupported
  }

  function FirstFill(s: State, page: Page): Filled
    requires !page.form.Unobservable? && page.filled.Some?
  {
    Filled(Extend(s, page.form.fields), page.form.fields, page.filled.value)
  }

  function ConsumedOn(s: State, page: Page): nat
    requires !page.form.Unobservable? && page.filled.Some?
  {
    Consumed(FirstFill(s, page), Selectors(page.form.fields), page.rounds, CHILD_ROUNDS)
  }

  /** The re-observation after the last one that was bound, if the page would give one. */
  predicate NextAddsNothing(page: Page, n: nat, resolutions: seq<Field>) {
    n < |page.rounds| && page.rounds[n].form.Observation? ==>
      Added(page.rounds[n].form.fields, Selectors(resolutions)) == []
  }

  /** Every re-observation of the page is covered, up to the one after the last that was bound. */
  predicate RoundsCovered(page: Page, n: nat, resolutions: seq<Field>) {
    forall k | 0 <= k <= n && k < |page.rounds| && page.rounds[k].form.Observation? ::
      Covered(page.rounds[k].form, resolutions)
  }

  lemma {:induction false} AddedNothing(fields: seq<Field>, known: set<string>)
    ensures Added(fields, known) == [] <==> forall f | f in fields :: f.selector in known
  {
    if fields != [] { AddedNothing(fields[1..], known); }
  }

  /** Where the loop ends: at the limit, at an unsupported form, or at a supported one that adds nothing. */
  lemma {:induction false} StopIsNamed(f: Filled, known: set<string>, rounds: seq<Round>, left: nat)
    requires known == Selectors(f.resolutions) && FillChildren(f, known, rounds, left).Ok?
    requires FillChildren(f, known, rounds, left).value.ok
    ensures var n := Consumed(f, known, rounds, left);
            && n <= left && n <= |rounds|
            && (n < left ==>
                  && n < |rounds| && rounds[n].form.Observation?
                  && (Supported(rounds[n].form) ==>
                        Added(rounds[n].form.fields,
                              Selectors(FillChildren(f, known, rounds, left).value.resolutions)) == []))
    decreases left
  {
    hide Bindable, Extend, Added, Selectors;
    if left > 0 {
      var added := Added(rounds[0].form.fields, known);
      if Supported(rounds[0].form) && added != [] {
        SelectorsJoin(f.resolutions, added);
        StopIsNamed(Filled(Extend(f.state, added), f.resolutions + added, rounds[0].filled.value),
                    known + Selectors(added), rounds[1..], left - 1);
      }
    }
  }

  /** A page that passes has filled its first form and has left the loop with every fill confirmed. */
  lemma PassedFill(t: Task, s: State, page: Page)
    requires page.form.Observation? && FillPage(t, s, page).Ok?
    ensures page.filled.Some?
    ensures FillChildren(FirstFill(s, page), Selectors(page.form.fields), page.rounds, CHILD_ROUNDS)
            == FillPage(t, s, page)
    ensures FillPage(t, s, page).value.ok
  {
    hide FillChildren, Bindable, Reselects, Selectors, Extend;
  }

  /** For a page that passes: every field of every re-observation that was bound is resolved; all that the page would
      show next is resolved exactly if the next re-observation adds nothing; and a loop that ends at a supported form
      has seen that it adds nothing. */
  lemma RevealedIsResolvedIff(t: Task, s: State, page: Page)
    requires page.form.Observation? && FillPage(t, s, page).Ok?
    ensures page.filled.Some?
    ensures var n, resolutions := ConsumedOn(s, page), FillPage(t, s, page).value.resolutions;
            && n <= CHILD_ROUNDS && n <= |page.rounds|
            && (forall k | 0 <= k < n :: Covered(page.rounds[k].form, resolutions))
            && (RoundsCovered(page, n, resolutions) <==> NextAddsNothing(page, n, resolutions))
            && (StopOf(page, n).AddsNothing? ==> RoundsCovered(page, n, resolutions))
  {
    PassedFill(t, s, page);
    var first, known := FirstFill(s, page), Selectors(page.form.fields);
    var n, resolutions := ConsumedOn(s, page), FillPage(t, s, page).value.resolutions;
    hide FillChildren, Consumed, FillPage, Added, Selectors, Extend, Supported, Covered, FirstFill;
    StopIsNamed(first, known, page.rounds, CHILD_ROUNDS);
    forall k: nat | k < n ensures Covered(page.rounds[k].form, resolutions) {
      ConsumedIsCovered(first, known, page.rounds, CHILD_ROUNDS, k);
    }
    LastIsCoveredIff(page, n, resolutions);
  }

  lemma LastIsCoveredIff(page: Page, n: nat, resolutions: seq<Field>)
    requires n <= |page.rounds| && forall k | 0 <= k < n :: Covered(page.rounds[k].form, resolutions)
    ensures RoundsCovered(page, n, resolutions) <==> NextAddsNothing(page, n, resolutions)
  {
    hide Selectors;
    if n < |page.rounds| && page.rounds[n].form.Observation? {
      AddedNothing(page.rounds[n].form.fields, Selectors(resolutions));
    }
  }

  /** READY settles what a visited page revealed: every field of every re-observation that was bound, or that ended the
      loop without adding anything, has a settled resolution under its selector in the plan, with its planned value on
      the server in both snapshots unless it is a file. */
  lemma ReadySettlesRevealed(t: Task, pages: seq<Page>, maxPages: nat, i: nat, k: nat, g: Field)
    returns (f: Field, at: nat)
    requires RunSpec(t, pages, maxPages).Ok? && StateAt(t, StartState(t).value, pages, maxPages, i).Some?
    requires i < |pages|
    requires var s := StateAt(t, StartState(t).value, pages, maxPages, i).value;
             && pages[i].form.Observation? && ResolvedOn(t, s, pages[i]).Some?
             && BindRows(t, s, pages[i].offer).Ok? && pages[i].filled.Some?
             && var n := ConsumedOn(BindRows(t, s, pages[i].offer).value, pages[i]);
                && k < |pages[i].rounds| && (k < n || (k == n && StopOf(pages[i], n).AddsNothing?))
                && pages[i].rounds[k].form.Observation? && g in pages[i].rounds[k].form.fields
    ensures f.selector == g.selector && Settled(f.status)
    ensures var (s, p) := RunSpec(t, pages, maxPages).value;
            && f in s.fields && p.first.fields.Some? && p.second.fields.Some?
            && |p.first.fields.value| == |p.second.fields.value|
            && (f.asset.None? ==> && at < |p.first.fields.value| && FieldMatches(f, p.first.fields.value[at], at)
                                  && FieldMatches(f, p.second.fields.value[at], at))
  {
    var s := StateAt(t, StartState(t).value, pages, maxPages, i).value;
    var bound := BindRows(t, s, pages[i].offer).value;
    hide RunFrom, StateAt, FillChildren, Consumed, BindRows, FieldMatches, Bindable, Reselects, OpenFields, ConsumedOn,
      StartState;
    assert FillPage(t, bound, pages[i]).Ok?;
    var resolved := ResolvedOn(t, s, pages[i]).value;
    RevealedIsResolvedIff(t, bound, pages[i]);
    assert Covered(pages[i].rounds[k].form, resolved);
    f :| f in resolved && f.selector == g.selector;
    StartKept(t);
    VisitedIsPlanned(t, StartState(t).value, pages, maxPages, i);
    at := ReadySettlesEveryPage(t, pages, maxPages, i, f);
  }

  // ----- the two ends of the loop that can miss a field

  /** Settled fields without files, with identities that a fill plan accepts. */
  predicate Plain(fields: seq<Field>) {
    && UniqueFillIdentity(Identities(fields))
    && forall f | f in fields :: Settled(f.status) && f.asset.None?
  }

  function Shows(fields: seq<Field>, unsupported: bool): Form {
    Observation(fields, true, false, unsupported, false, false)
  }

  /** A page that shows a form, reveals more in the rounds and then offers the final control. */
  ghost function RevealingPage(otp: OtpAnswers, fields: seq<Field>, rounds: seq<Round>, f: FinalAnswers): Page {
    Page(true, NoAuth, otp, true, NoBuilder, Shows(fields, false), false, Some(false), false, Some(false), Some(true),
         rounds, None, true, Some(true), true, Some(true), Some(f), None, None, 0, None)
  }

  lemma {:induction false} PlainSelectsNothing(fields: seq<Field>)
    requires forall f | f in fields :: f.asset.None? && Settled(f.status)
    ensures SelectedSlots(fields) == [] && OpenFields(fields) == []
  {
    if fields != [] {
      assert fields[0] in fields;
      PlainSelectsNothing(fields[1..]);
    }
  }

  lemma PlainPart(fields: seq<Field>, from: nat, to: nat)
    requires Plain(fields) && from <= to <= |fields|
    ensures Plain(fields[from..to])
  {
    var part, ids := fields[from..to], Identities(fields);
    assert forall i | 0 <= i < |part| :: Identities(part)[i] == ids[from + i];
  }

  lemma RevealingPageFills(t: Task, s: State, otp: OtpAnswers, shown: seq<Field>, fields: seq<Field>,
                           rounds: seq<Round>, f: FinalAnswers)
    requires Plain(fields)
    requires FillChildren(Filled(Extend(s, fields), fields, true), Selectors(fields), rounds, CHILD_ROUNDS)
             == Ok(Filled(Extend(s, shown), shown, true))
    ensures FillPage(t, s, RevealingPage(otp, fields, rounds, f)) == Ok(Filled(Extend(s, shown), shown, true))
  {
    hide FillChildren, UniqueFillIdentity, Extend, Selectors, Identities;
  }

  lemma PlainPasses(shown: seq<Field>, page: Page)
    requires Plain(shown) && page.valid == Some(true) && page.consistent
    ensures SelectedSlots(shown) == [] && CheckPage(shown, page).Pass?
  {
    hide UniqueFillIdentity, Identities;
    PlainSelectsNothing(shown);
  }

  lemma RevealingPageCompletes(t: Task, s: State, otp: OtpAnswers, shown: seq<Field>, fields: seq<Field>,
                               rounds: seq<Round>, f: FinalAnswers)
    requires Plain(shown)
    requires FillPage(t, s, RevealingPage(otp, fields, rounds, f)) == Ok(Filled(Extend(s, shown), shown, true))
    ensures CompletePage(t, s, RevealingPage(otp, fields, rounds, f)) == Ok(Extend(s, shown))
  {
    PlainPasses(shown, RevealingPage(otp, fields, rounds, f));
    hide FillPage, Plain, Extend, SelectedSlots, CheckPage;
  }

  /** When the loop over the revealed fields has resolved exactly these fields, the page ends in the final review. */
  lemma RevealingPageReviews(t: Task, s: State, otp: OtpAnswers, shown: seq<Field>, fields: seq<Field>,
                             rounds: seq<Round>, f: FinalAnswers)
    requires Plain(shown) && Plain(fields)
    requires FillChildren(Filled(Extend(s, fields), fields, true), Selectors(fields), rounds, CHILD_ROUNDS)
             == Ok(Filled(Extend(s, shown), shown, true))
    ensures PageStep(t, s, RevealingPage(otp, fields, rounds, f)) == FinalReview(t, Extend(s, shown), f)
  {
    hide FinalReview, FillChildren, Extend, Selectors, CompletePage, FillPage, Plain;
    RevealingPageFills(t, s, otp, shown, fields, rounds, f);
    RevealingPageCompletes(t, s, otp, shown, fields, rounds, f);
  }

  lemma ExtendedIsReviewable(t: Task, s: State, shown: seq<Field>)
    requires Reviewable(t, s) && s.fields == [] && Plain(shown)
    ensures Reviewable(t, Extend(s, shown)) && Extend(s, shown).fields == shown
  {
    hide ExpectedRows, Projects, UniqueFillIdentity;
    PlainSelectsNothing(shown);
    assert s.fields + shown == shown && s.unresolved + [] == s.unresolved;
  }

  lemma UniqueSelectors(fields: seq<Field>)
    requires UniqueFillIdentity(Identities(fields))
    ensures forall i, j | 0 <= i < j < |fields| :: fields[i].selector != fields[j].selector
  {
    var ids := Identities(fields);
    forall i, j | 0 <= i < j < |fields| ensures fields[i].selector != fields[j].selector {
      assert ids[i].selector != ids[j].selector;
    }
  }

  /** One page that ends in a review which succeeds is a whole run. */
  lemma OnePageIsReady(t: Task, page: Page, s: State, f: FinalAnswers)
    requires StartState(t).Ok? && PageStep(t, StartState(t).value, page) == FinalReview(t, s, f)
    requires FinalReview(t, s, f).Ok? && FinalReview(t, s, f).value.Done?
    ensures RunSpec(t, [page], 1).Ok? && RunSpec(t, [page], 1).value.0 == FinalReview(t, s, f).value.state
  {
    hide PageStep, FinalReview, StartState;
  }

  lemma StartsEmpty(t: Task)
    requires StartState(t).Ok?
    ensures StartState(t).value.fields == [] && StartState(t).value.rows == [] && OneDraft(StartState(t).value)
  {
  }

  /** A plain form on top of a reviewable start is READY for the mirroring answers. */
  lemma PlainIsReady(t: Task, page: Page, shown: seq<Field>, revision: int)
    requires StartState(t).Ok? && Reviewable(t, StartState(t).value) && Plain(shown) && revision >= 1
    requires var s := Extend(StartState(t).value, shown);
             SlotsKnown(t, s.slots)
             && PageStep(t, StartState(t).value, page) == FinalReview(t, s, MirrorAnswers(t, s, revision))
    ensures RunSpec(t, [page], 1).Ok? && RunSpec(t, [page], 1).value.0.fields == shown
  {
    var start := StartState(t).value;
    StartsEmpty(t);
    ExtendedIsReviewable(t, start, shown);
    ReviewableIsReady(t, Extend(start, shown), revision);
    OnePageIsReady(t, page, Extend(start, shown), MirrorAnswers(t, Extend(start, shown), revision));
    hide FinalReview, PageStep, Reviewable, MirrorAnswers, Plain, StartState, RunSpec;
  }

  /** A re-observation that is not supported ends the loop without an error: for every task and every plain form there
      are answers that make the run READY although that re-observation shows one more field, which the plan does not
      have. */
  lemma UnsupportedMayBeReady(t: Task, otp: OtpAnswers, shown: seq<Field>, hidden: Field, revision: int)
    returns (page: Page)
    requires StartState(t).Ok? && Reviewable(t, StartState(t).value) && Plain(shown) && revision >= 1
    requires hidden.selector !in Selectors(shown)
    ensures RunSpec(t, [page], 1).Ok? && RunSpec(t, [page], 1).value.0.fields == shown
    ensures page.form == Shows(shown, false) && page.filled == Some(true) && page.rounds != []
    ensures ConsumedOn(StartState(t).value, page) == 0 && StopOf(page, 0).NotSupported?
    ensures page.rounds[0].form.Observation? && hidden in page.rounds[0].form.fields
  {
    var s := StartState(t).value;
    var f := MirrorAnswers(t, Extend(s, shown), revision);
    var rounds := [Round(Shows(shown + [hidden], true), Some(true))];
    page := RevealingPage(otp, shown, rounds, f);
    RevealingPageReviews(t, s, otp, shown, shown, rounds, f);
    assert page.rounds == rounds && page.form == Shows(shown, false) && page.filled == Some(true);
    hide FinalReview, PageStep, Reviewable, MirrorAnswers, Extend, Plain, StartState, RunSpec, RevealingPage, Mirror;
    PlainIsReady(t, page, shown, revision);
  }

  /** Round k of a page that reveals its last fields one by one. */
  function OneByOne(shown: seq<Field>, left: nat): seq<Round>
    requires left <= |shown|
  {
    seq(left, k requires 0 <= k < left => Round(Shows(shown[..|shown| - left + k + 1], false), Some(true)))
  }

  lemma {:induction false} AddedOne(known: seq<Field>, last: Field)
    requires last.selector !in Selectors(known)
    ensures Added(known + [last], Selectors(known)) == [last]
  {
    AddedPrefix(known, [last], Selectors(known));
    assert Added([last], Selectors(known)) == [last] by { assert [last][1..] == []; }
  }

  lemma {:induction false} AddedPrefix(a: seq<Field>, b: seq<Field>, known: set<string>)
    requires forall f | f in a :: f.selector in known
    ensures Added(a + b, known) == Added(b, known)
  {
    if a == [] {
      assert a + b == b;
    } else {
      assert (a + b)[0] == a[0] && a[0] in a && (a + b)[1..] == a[1..] + b;
      AddedPrefix(a[1..], b, known);
    }
  }

  /** The loop's state when it has resolved the first m of these fields. */
  function FilledTo(s: State, shown: seq<Field>, m: nat): Filled
    requires m <= |shown|
  {
    Filled(Extend(s, shown[..m]), shown[..m], true)
  }

  function KnownTo(shown: seq<Field>, m: nat): set<string>
    requires m <= |shown|
  {
    Selectors(shown[..m])
  }

  /** One round of the loop that reveals the next field. */
  lemma FillsOne(s: State, shown: seq<Field>, m: nat, rounds: seq<Round>, left: nat)
    requires Plain(shown) && m < |shown| && left > 0 && rounds != []
    requires rounds[0] == Round(Shows(shown[..m + 1], false), Some(true))
    ensures && FillChildren(FilledTo(s, shown, m), KnownTo(shown, m), rounds, left)
               == FillChildren(FilledTo(s, shown, m + 1), KnownTo(shown, m + 1), rounds[1..], left - 1)
            && Consumed(FilledTo(s, shown, m), KnownTo(shown, m), rounds, left)
               == 1 + Consumed(FilledTo(s, shown, m + 1), KnownTo(shown, m + 1), rounds[1..], left - 1)
  {
    OneRound(s, shown, m);
    hide Bindable, Added, Selectors, Extend, Plain;
  }

  lemma NoRoundLeft(f: Filled, known: set<string>, rounds: seq<Round>)
    ensures FillChildren(f, known, rounds, 0) == Ok(f) && Consumed(f, known, rounds, 0) == 0
  {
  }

  /** Revealing one field in each round, the loop resolves them all and uses up its rounds. */
  lemma {:induction false} OneByOneFills(s: State, shown: seq<Field>, rest: seq<Round>, left: nat)
    requires Plain(shown) && left <= |shown|
    ensures var m, rounds := |shown| - left, OneByOne(shown, left) + rest;
            && FillChildren(FilledTo(s, shown, m), KnownTo(shown, m), rounds, left)
               == Ok(FilledTo(s, shown, |shown|))
            && Consumed(FilledTo(s, shown, m), KnownTo(shown, m), rounds, left) == left
    decreases left
  {
    hide FillChildren, Consumed, FilledTo, KnownTo, Plain, OneByOne;
    if left == 0 {
      NoRoundLeft(FilledTo(s, shown, |shown|), KnownTo(shown, |shown|), OneByOne(shown, left) + rest);
    } else {
      OneByOneTail(shown, rest, left);
      FillsOne(s, shown, |shown| - left, OneByOne(shown, left) + rest, left);
      OneByOneFills(s, shown, rest, left - 1);
    }
  }

  lemma OneByOneTail(shown: seq<Field>, rest: seq<Round>, left: nat)
    requires 0 < left <= |shown|
    ensures var rounds := OneByOne(shown, left) + rest;
            && rounds != [] && rounds[0] == Round(Shows(shown[..|shown| - left + 1], false), Some(true))
            && rounds[1..] == OneByOne(shown, left - 1) + rest
  {
    var longer, shorter := OneByOne(shown, left), OneByOne(shown, left - 1);
    assert longer[1..] == shorter;
  }

  lemma OneRound(s: State, shown: seq<Field>, m: nat)
    requires Plain(shown) && m < |shown|
    ensures var known, more := shown[..m], shown[..m + 1];
            && Added(more, Selectors(known)) == [shown[m]] && Bindable(Shows(more, false), [shown[m]])
            && Selectors(known) + Selectors([shown[m]]) == Selectors(more) && known + [shown[m]] == more
            && Extend(Extend(s, known), [shown[m]]) == Extend(s, more)
  {
    hide Added, Selectors, Bindable, Extend, Plain;
    assert shown[..m + 1] == shown[..m] + [shown[m]];
    RoundAdds(shown, m);
    RoundBinds(shown, m);
    ExtendTwice(s, shown[..m], [shown[m]]);
    SelectorsJoin(shown[..m], [shown[m]]);
  }

  lemma RoundAdds(shown: seq<Field>, m: nat)
    requires Plain(shown) && m < |shown|
    ensures Added(shown[..m + 1], Selectors(shown[..m])) == [shown[m]]
  {
    var known, last := shown[..m], shown[m];
    UniqueSelectors(shown);
    hide Plain, Added;
    assert shown[..m + 1] == known + [last];
    forall f | f in known ensures f.selector != last.selector {
      var i :| 0 <= i < m && shown[i] == f;
    }
    AddedOne(known, last);
  }

  lemma RoundBinds(shown: seq<Field>, m: nat)
    requires Plain(shown) && m < |shown|
    ensures Bindable(Shows(shown[..m + 1], false), [shown[m]])
  {
    hide UniqueFillIdentity, Identities;
    PlainPart(shown, 0, m + 1);
    PlainPart(shown, m, m + 1);
    assert shown[0..m + 1] == shown[..m + 1] && shown[m..m + 1] == [shown[m]] && shown[m] == shown[..m + 1][m];
  }

  lemma ExtendTwice(s: State, known: seq<Field>, more: seq<Field>)
    ensures Extend(Extend(s, known), more) == Extend(s, known + more)
  {
    hide OpenFields;
    OpenFieldsSplit(known, more);
    assert s.fields + known + more == s.fields + (known + more);
    assert s.unresolved + OpenFields(known) + OpenFields(more) == s.unresolved + OpenFields(known + more);
  }

  /** A page whose last four fields are revealed one by one, with one more field revealed by the fourth fill. */
  ghost function LatePage(otp: OtpAnswers, shown: seq<Field>, hidden: Field, f: FinalAnswers): Page
    requires |shown| >= CHILD_ROUNDS
  {
    RevealingPage(otp, shown[..|shown| - CHILD_ROUNDS], LateRounds(shown, hidden), f)
  }

  function LateRounds(shown: seq<Field>, hidden: Field): seq<Round>
    requires |shown| >= CHILD_ROUNDS
  {
    OneByOne(shown, CHILD_ROUNDS) + [Round(Shows(shown + [hidden], false), Some(true))]
  }

  lemma LateRoundsFill(s: State, shown: seq<Field>, hidden: Field)
    requires Plain(shown) && |shown| >= CHILD_ROUNDS
    ensures var known := shown[..|shown| - CHILD_ROUNDS];
            var first := Filled(Extend(s, known), known, true);
            && FillChildren(first, Selectors(known), LateRounds(shown, hidden), CHILD_ROUNDS)
               == Ok(Filled(Extend(s, shown), shown, true))
            && Consumed(first, Selectors(known), LateRounds(shown, hidden), CHILD_ROUNDS) == CHILD_ROUNDS
  {
    hide Extend, Plain, OneByOne, Consumed, FillChildren, Selectors, Shows;
    OneByOneFills(s, shown, [Round(Shows(shown + [hidden], false), Some(true))], CHILD_ROUNDS);
    assert shown[..|shown|] == shown;
  }

  lemma LatePageReviews(t: Task, s: State, otp: OtpAnswers, shown: seq<Field>, hidden: Field, f: FinalAnswers)
    requires Plain(shown) && |shown| >= CHILD_ROUNDS
    ensures PageStep(t, s, LatePage(otp, shown, hidden, f)) == FinalReview(t, Extend(s, shown), f)
  {
    LateRoundsFill(s, shown, hidden);
    FirstIsPlain(shown);
    hide FinalReview, PageStep, Extend, Plain, LateRounds, Consumed, FillChildren, RevealingPage, Selectors;
    RevealingPageReviews(t, s, otp, shown, shown[..|shown| - CHILD_ROUNDS], LateRounds(shown, hidden), f);
  }

  /** The fourth round ends the loop without another look: for every task and every plain form of four fields or more
      there are answers that make the run READY although the fourth fill has revealed one more field, which the plan
      does not have. */
  lemma RoundsUsedMayBeReady(t: Task, otp: OtpAnswers, shown: seq<Field>, hidden: Field, revision: int)
    returns (page: Page)
    requires StartState(t).Ok? && Reviewable(t, StartState(t).value) && Plain(shown) && revision >= 1
    requires hidden.selector !in Selectors(shown) && |shown| >= CHILD_ROUNDS
    ensures RunSpec(t, [page], 1).Ok? && RunSpec(t, [page], 1).value.0.fields == shown
    ensures page.form == Shows(shown[..|shown| - CHILD_ROUNDS], false) && page.filled == Some(true)
    ensures ConsumedOn(StartState(t).value, page) == CHILD_ROUNDS && StopOf(page, CHILD_ROUNDS).RoundsUsed?
    ensures |page.rounds| == CHILD_ROUNDS + 1 && Supported(page.rounds[CHILD_ROUNDS].form)
    ensures hidden in page.rounds[CHILD_ROUNDS].form.fields
  {
    StartsEmpty(t);
    ExtendedIsReviewable(t, StartState(t).value, shown);
    var s := StartState(t).value;
    var f := MirrorAnswers(t, Extend(s, shown), revision);
    page := LatePage(otp, shown, hidden, f);
    LateRoundsFill(s, shown, hidden);
    LatePageReviews(t, s, otp, shown, hidden, f);
    hide FinalReview, PageStep, Reviewable, MirrorAnswers, Extend, Plain, Consumed, FillChildren, StartState, RunSpec,
      Mirror, Selectors;
    assert page.rounds == LateRounds(shown, hidden);
    PlainIsReady(t, page, shown, revision);
  }

  lemma FirstIsPlain(shown: seq<Field>)
    requires Plain(shown) && |shown| >= CHILD_ROUNDS
    ensures Plain(shown[..|shown| - CHILD_ROUNDS])
  {
    PlainPart(shown, 0, |shown| - CHILD_ROUNDS);
    assert shown[0..|shown| - CHILD_ROUNDS] == shown[..|shown| - CHILD_ROUNDS];
  }
}
