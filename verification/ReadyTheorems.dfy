/** What READY means, for every run of the adapter. */
module ReadyTheorems {
  import opened Results
  import opened ReviewCertificate
  import opened RowContract
  import opened OtpChallenge
  import opened ReadyRun

  /** Every binding of the run names one draft. */
  predicate OneDraft(s: State) {
    && (forall r | r in s.rows :: r.draft == s.rows[0].draft)
    && (s.rows != [] && s.attachment.Some? ==> s.attachment.value.draft == s.rows[0].draft)
  }

  predicate RowsCanonical(t: Task, s: State) {
    forall r | r in s.rows :: CanonicalRows(t.profile, r.collection, DesiredMap(r.desired))
  }

  /** The invariant of the page loop. */
  predicate Kept(t: Task, s: State) {
    OneDraft(s) && RowsCanonical(t, s) && s.unresolved == OpenFields(s.fields)
  }

  /** A step may only add fields and row bindings. */
  predicate Grows(s: State, s': State) {
    s.fields <= s'.fields && s.rows <= s'.rows
  }

  lemma {:induction false} ReconcileBinds(contracts: seq<Contract>, receipts: seq<Receipt>, i: nat,
                                          rows: seq<RowBinding>)
    requires i <= |contracts| && Reconcile(contracts, receipts, i, rows).Ok?
    ensures i < |contracts| ==> |receipts| >= |contracts|
    ensures var bound := Reconcile(contracts, receipts, i, rows).value;
            && |bound| == |rows| + |contracts| - i && rows <= bound
            && (forall k | i <= k < |contracts| ::
                  receipts[k].Reconciled? && bound[|rows| + k - i] == BindingOf(contracts[k], receipts[k].observed))
            && (forall r | r in bound :: r in rows || exists c | c in contracts :: r == BindingOf(c, r.observed))
    decreases |contracts| - i
  {
    if i < |contracts| {
      var next := rows + [BindingOf(contracts[i], receipts[i].observed)];
      ReconcileBinds(contracts, receipts, i + 1, next);
      var bound := Reconcile(contracts, receipts, i, rows).value;
      assert bound[|rows|] == next[|rows|] == BindingOf(contracts[i], receipts[i].observed);
      forall k | i <= k < |contracts|
        ensures receipts[k].Reconciled? && bound[|rows| + k - i] == BindingOf(contracts[k], receipts[k].observed)
      {
        assert k > i ==> bound[|next| + k - (i + 1)] == BindingOf(contracts[k], receipts[k].observed);
      }
    }
  }

  lemma BindKeeps(t: Task, s: State, offer: Offer)
    requires Kept(t, s) && BindRows(t, s, offer).Ok?
    ensures Kept(t, BindRows(t, s, offer).value) && Grows(s, BindRows(t, s, offer).value)
    ensures BindRows(t, s, offer).value.fields == s.fields
  {
    hide ValidateContract, CanonicalRows, DesiredMap, OpenFields;
    if offer.Offered? {
      var contracts := offer.contracts;
      ReconcileBinds(contracts, offer.receipts, 0, s.rows);
      var s' := BindRows(t, s, offer).value;
      forall r | r in s'.rows
        ensures r.draft == contracts[0].draft && CanonicalRows(t.profile, r.collection, DesiredMap(r.desired))
      {
        if r !in s.rows {
          var c: Contract :| c in contracts && r == BindingOf(c, r.observed);
          ValidatedIsCanonical(t.profile, c);
        }
      }
      assert s'.rows[0] in s'.rows;
    }
  }

  lemma {:induction false} OpenFieldsSplit(a: seq<Field>, b: seq<Field>)
    ensures OpenFields(a + b) == OpenFields(a) + OpenFields(b)
  {
    hide Open;
    if a == [] {
      assert a + b == b;
    } else {
      OpenFieldsSplit(a[1..], b);
      assert (a + b)[1..] == a[1..] + b && (a + b)[0] == a[0];
      var head := if Open(a[0]) then [a[0]] else [];
      assert OpenFields(a + b) == head + OpenFields(a[1..] + b);
    }
  }

  lemma ExtendKeeps(t: Task, s: State, added: seq<Field>)
    requires Kept(t, s)
    ensures Kept(t, Extend(s, added)) && Grows(s, Extend(s, added)) && Extend(s, added).rows == s.rows
    ensures Extend(s, added).attachment == s.attachment
  {
    OpenFieldsSplit(s.fields, added);
  }

  /** The page's resolutions are the end of the plan's fields. */
  predicate PageFields(before: State, f: Filled) {
    f.state == before.(fields := before.fields + f.resolutions, unresolved := f.state.unresolved)
  }

  lemma ExtendPage(before: State, f: Filled, added: seq<Field>, ok: bool)
    requires PageFields(before, f)
    ensures PageFields(before, Filled(Extend(f.state, added), f.resolutions + added, ok))
  {
    hide OpenFields;
    assert before.fields + f.resolutions + added == before.fields + (f.resolutions + added);
  }

  lemma {:induction false} ChildrenKeep(t: Task, before: State, f: Filled, known: set<string>, rounds: seq<Round>,
                                        left: nat)
    requires Kept(t, f.state) && PageFields(before, f) && FillChildren(f, known, rounds, left).Ok?
    ensures var done := FillChildren(f, known, rounds, left).value;
            Kept(t, done.state) && PageFields(before, done) && f.resolutions <= done.resolutions
    decreases left
  {
    hide Kept, Supported, Bindable, Added, Extend, PageFields, OpenFields;
    if left > 0 && f.ok {
      var added := Added(rounds[0].form.fields, known);
      if Supported(rounds[0].form) && added != [] {
        var next := Filled(Extend(f.state, added), f.resolutions + added, rounds[0].filled.value);
        ExtendKeeps(t, f.state, added);
        ExtendPage(before, f, added, rounds[0].filled.value);
        ChildrenKeep(t, before, next, known + Selectors(added), rounds[1..], left - 1);
      }
    }
  }

  lemma FillKeeps(t: Task, s: State, page: Page)
    requires Kept(t, s) && !page.form.Unobservable? && FillPage(t, s, page).Ok?
    ensures var f := FillPage(t, s, page).value;
            Kept(t, f.state) && PageFields(s, f) && f.ok && page.form.fields <= f.resolutions
  {
    hide Kept, Bindable, Reselects, FillChildren;
    ExtendKeeps(t, s, page.form.fields);
    var first := Filled(Extend(s, page.form.fields), page.form.fields, page.filled.value);
    if page.form.Observation? {
      ChildrenKeep(t, s, first, Selectors(page.form.fields), page.rounds, CHILD_ROUNDS);
    }
  }

  lemma CompleteKeeps(t: Task, s: State, page: Page)
    requires Kept(t, s) && !page.form.Unobservable? && CompletePage(t, s, page).Ok?
    ensures FillPage(t, s, page).Ok?
    ensures var s', resolutions := CompletePage(t, s, page).value, FillPage(t, s, page).value.resolutions;
            && Kept(t, s') && Grows(s, s') && s'.rows == s.rows
            && page.form.fields <= resolutions && forall f | f in resolutions :: f in s'.fields
  {
    hide FillPage, CanonicalRows, DesiredMap, OpenFields;
    FillKeeps(t, s, page);
  }

  /** What a page has resolved by the end of its fills, the revealed fields included; None when it only opened the
      application. */
  function ResolvedOn(t: Task, s: State, page: Page): Option<seq<Field>> {
    var bound := BindRows(t, s, page.offer);
    if bound.Refused? || page.form.Unobservable? || (OnlyStarts(page) && page.started == Some(true)) then None
    else
      match FillPage(t, bound.value, page)
      case Ok(f) => Some(f.resolutions)
      case Refused(_) => None
  }

  /** One page keeps the invariant, forgets nothing and puts every field that it has resolved into the plan, the ones
      that its fills revealed included. */
  lemma StepKeeps(t: Task, s: State, page: Page)
    requires Kept(t, s) && PageStep(t, s, page).Ok?
    ensures var s' := PageStep(t, s, page).value.state;
            && Kept(t, s') && Grows(s, s') && !page.form.Unobservable?
            && (ResolvedOn(t, s, page).None? ==> page.form.fields == [])
            && (ResolvedOn(t, s, page).Some? ==>
                  var resolved := ResolvedOn(t, s, page).value;
                  page.form.fields <= resolved && forall f | f in resolved :: f in s'.fields)
  {
    hide EnterPage, BindRows, CompletePage, FillPage, ReadBack, Review, DraftProved, CheckStructure, CanonicalRows,
      DesiredMap, OpenFields;
    BindKeeps(t, s, page.offer);
    var bound := BindRows(t, s, page.offer).value;
    if OnlyStarts(page) && page.started.value {
    } else {
      CompleteKeeps(t, bound, page);
      var complete := CompletePage(t, bound, page).value;
      if page.finalControl.value { ReadBackKeeps(t, complete, page.final.value); }
    }
  }

  lemma ReadBackKeeps(t: Task, s: State, f: FinalAnswers)
    requires Kept(t, s) && ReadBack(t, s, f).Ok?
    ensures var (s', revisions) := ReadBack(t, s, f).value;
            && Kept(t, s') && s'.fields == s.fields && s'.rows == s.rows && s'.slots == s.slots
            && s'.attachment.Some? == s.attachment.Some? && Prior(t) <= Keys(s'.rows)
            && |revisions| == |s'.rows| && NotBelowObserved(s'.rows, revisions)
            && (s'.attachment.Some? || s'.rows != [] ==>
                  f.verifier && DraftProved(s', if revisions == [] then 0 else Highest(revisions), f.evidence))
  {
    hide DraftProved, CanonicalRows, DesiredMap, OpenFields;
  }

  // ----- READY

  /** No row collection was read again at a revision below the latest that its reconciler had observed. */
  predicate NotBelowObserved(rows: seq<RowBinding>, revisions: seq<int>) {
    |revisions| == |rows|
    && forall i | 0 <= i < |rows| && rows[i].observed.Some? :: revisions[i] >= rows[i].observed.value
  }

  /** The two certifications and the read-backs on which a READY state rests. */
  predicate Proved(t: Task, s: State, p: Proof) {
    && Kept(t, s) && Prior(t) <= Keys(s.rows) && NotBelowObserved(s.rows, p.revisions) && SlotsKnown(t, s.slots)
    && p.expected == ExpectationOf(t, s, p.revisions)
    && Certify(PlanOf(t, s), Some(p.first), p.expected) == Ok(p.certificate)
    && Recheck(p.certificate, PlanOf(t, s), Some(p.second), p.expected).Ok?
    && (s.attachment.Some? || s.rows != [] ==>
          DraftProved(s, if p.revisions == [] then 0 else Highest(p.revisions), p.evidence))
  }

  lemma FinalProves(t: Task, s: State, f: FinalAnswers)
    requires Kept(t, s) && FinalReview(t, s, f).Ok?
    ensures FinalReview(t, s, f).value.Done?
    ensures Proved(t, FinalReview(t, s, f).value.state, FinalReview(t, s, f).value.proof)
  {
    hide DraftProved, ReadBack, Certify, Recheck, ExpectationOf, CanonicalRows, DesiredMap, OpenFields, Kept;
    ReadBackKeeps(t, s, f);
  }

  lemma StepProves(t: Task, s: State, page: Page)
    requires Kept(t, s) && PageStep(t, s, page).Ok? && PageStep(t, s, page).value.Done?
    ensures Proved(t, PageStep(t, s, page).value.state, PageStep(t, s, page).value.proof)
  {
    hide EnterPage, BindRows, CompletePage, FinalReview, DraftProved, CheckStructure, Kept, Proved;
    BindKeeps(t, s, page.offer);
    var bound := BindRows(t, s, page.offer).value;
    CompleteKeeps(t, bound, page);
    FinalProves(t, CompletePage(t, bound, page).value, page.final.value);
  }

  /** From any state that keeps the invariant, a run that becomes READY has proved the final state. */
  lemma {:induction false} RunProves(t: Task, s: State, pages: seq<Page>, left: nat)
    requires Kept(t, s) && RunFrom(t, s, pages, left).Ok?
    ensures Proved(t, RunFrom(t, s, pages, left).value.0, RunFrom(t, s, pages, left).value.1)
    ensures Grows(s, RunFrom(t, s, pages, left).value.0)
    decreases left
  {
    hide PageStep, Kept, Proved;
    StepKeeps(t, s, pages[0]);
    var move := PageStep(t, s, pages[0]).value;
    if move.Done? {
      StepProves(t, s, pages[0]);
    } else {
      RunProves(t, move.state, pages[1..], left - 1);
    }
  }

  lemma StartKept(t: Task)
    requires StartState(t).Ok?
    ensures Kept(t, StartState(t).value)
  {
  }

  /** READY names one draft: the bindings, the draft receipt and both snapshots agree on it, and the certified revision
      is no lower than any bound row or attachment revision. */
  lemma ReadyNamesOneDraft(t: Task, pages: seq<Page>, maxPages: nat)
    requires RunSpec(t, pages, maxPages).Ok?
    ensures var (s, p) := RunSpec(t, pages, maxPages).value;
            var draft, revision := p.certificate.draft, p.certificate.revision;
            && p.first.draft == Some(draft) && p.second.draft == Some(draft)
            && p.first.revision == Some(revision) && p.second.revision == Some(revision)
            && (forall r | r in s.rows :: r.draft == draft)
            && |p.revisions| == |s.rows| && (forall v | v in p.revisions :: v <= revision)
            && (forall r | r in s.rows && r.observed.Some? :: r.observed.value <= revision)
            && (s.attachment.Some? ==> s.attachment.value.draft == draft && s.attachment.value.revision <= revision)
            && (s.rows != [] || s.attachment.Some? ==>
                  && p.evidence.Some? && p.evidence.value.verified && p.evidence.value.serverReadback
                  && p.evidence.value.draft == Some(draft) && p.evidence.value.revision.Some?
                  && (forall v | v in p.revisions :: v <= p.evidence.value.revision.value))
  {
    hide RunFrom, Certify, Recheck, RowsCanonical, OpenFields, ExpectedRows, ExpectedAttachments, Projects, Carries;
    StartKept(t);
    RunProves(t, StartState(t).value, pages, maxPages);
    var (s, p) := RunSpec(t, pages, maxPages).value;
    CertifiedCarries(PlanOf(t, s), Some(p.first), p.expected);
    RecheckBinds(p.certificate, PlanOf(t, s), Some(p.second), p.expected);
    CertifiedCarries(PlanOf(t, s), Some(p.second),
                     p.expected.(draft := Some(p.certificate.draft), minimumRevision := p.certificate.revision));
    var all := p.revisions + [if s.attachment.Some? then s.attachment.value.revision else 0];
    assert forall v | v in p.revisions :: v in all;
    assert all[|p.revisions|] in all;
    forall r | r in s.rows && r.observed.Some? ensures r.observed.value <= p.certificate.revision {
      var i :| 0 <= i < |s.rows| && s.rows[i] == r;
      assert p.revisions[i] in all;
    }
  }

  /** READY rests on one set of values: both snapshots carry the whole plan, every field of which is settled. */
  lemma ReadyCarriesPlan(t: Task, pages: seq<Page>, maxPages: nat)
    requires RunSpec(t, pages, maxPages).Ok?
    ensures var (s, p) := RunSpec(t, pages, maxPages).value;
            && SameDraft(p.first, p.second)
            && Carries(p.first, PlanOf(t, s), p.expected) && Carries(p.second, PlanOf(t, s), p.expected)
            && (forall f | f in s.fields :: Settled(f.status))
            && p.first.account == t.account && p.second.account == t.account
            && Prior(t) <= Keys(s.rows)
  {
    hide RunFrom, Certify, Recheck, Kept, Carries, SameDraft, DraftProved, ExpectedRows, ExpectedAttachments, Projects;
    StartKept(t);
    RunProves(t, StartState(t).value, pages, maxPages);
    var (s, p) := RunSpec(t, pages, maxPages).value;
    var plan := PlanOf(t, s);
    var g := p.expected.(draft := Some(p.certificate.draft), minimumRevision := p.certificate.revision);
    CertifiedCarries(plan, Some(p.first), p.expected);
    RecheckBinds(p.certificate, plan, Some(p.second), p.expected);
    CertifiedCarries(plan, Some(p.second), g);
    assert Carries(p.second, plan, p.expected) by { CarriesIgnoresIdentity(p.second, plan, p.expected, g); }
    RecheckSeesSameDraft(plan, Some(p.first), p.expected, plan, Some(p.second), p.expected);
  }

  lemma CarriesIgnoresIdentity(s: Snapshot, plan: Plan, e: Expected, g: Expected)
    requires Carries(s, plan, g) && g == e.(draft := g.draft, minimumRevision := g.minimumRevision)
    ensures Carries(s, plan, e)
  {
  }

  lemma {:induction false} ExpectedRowsAre(t: Task, rows: seq<RowBinding>, key: string)
    requires forall r | r in rows :: CanonicalRows(t.profile, r.collection, DesiredMap(r.desired))
    ensures key in ExpectedRows(rows) <==> key in Keys(rows)
    ensures key in ExpectedRows(rows) ==> CanonicalRows(t.profile, key, ExpectedRows(rows)[key])
  {
    hide CanonicalRows, DesiredMap;
    if rows != [] {
      var init, last := rows[..|rows| - 1], rows[|rows| - 1];
      assert rows == init + [last];
      ExpectedRowsAre(t, init, key);
      assert Keys(rows) == Keys(init) + {last.collection};
      assert last in rows;
    }
  }

  /** On READY the server holds, for every reconciled collection, one row per canonical record that is not excluded,
      with exactly the record's known values, in both snapshots. */
  lemma ReadyRowsAreCanonical(t: Task, pages: seq<Page>, maxPages: nat, key: string)
    requires RunSpec(t, pages, maxPages).Ok?
    ensures var (s, p) := RunSpec(t, pages, maxPages).value;
            && p.first.rows.Some? && p.second.rows.Some?
            && (key in p.first.rows.value <==> key in Keys(s.rows))
            && (key in p.second.rows.value <==> key in Keys(s.rows))
            && (key in Keys(s.rows) ==>
                  && CanonicalRows(t.profile, key, RowMap(p.first.rows.value[key]))
                  && CanonicalRows(t.profile, key, RowMap(p.second.rows.value[key])))
  {
    ReadyCarriesPlan(t, pages, maxPages);
    assert Proved(t, RunSpec(t, pages, maxPages).value.0, RunSpec(t, pages, maxPages).value.1) by {
      hide RunFrom, Proved, Kept;
      StartKept(t);
      RunProves(t, StartState(t).value, pages, maxPages);
    }
    hide RunFrom, Certify, Recheck, CanonicalRows, DesiredMap, RowMap, SameDraft, ExpectedRows, DraftProved,
      ExpectedAttachments, Projects, ProjectsCovered, FieldMatches, OpenFields, ExpectedFields;
    var (s, p) := RunSpec(t, pages, maxPages).value;
    ExpectedRowsAre(t, s.rows, key);
  }

  // ----- every field of every page

  /** The state in which the run reaches its i-th page, if it does. */
  function StateAt(t: Task, s: State, pages: seq<Page>, left: nat, i: nat): Option<State>
    decreases left
  {
    if left == 0 || pages == [] then None
    else if i == 0 then Some(s)
    else
      match PageStep(t, s, pages[0])
      case Ok(Turn(s')) => StateAt(t, s', pages[1..], left - 1, i - 1)
      case _ => None
  }

  lemma {:induction false} VisitedIsPlanned(t: Task, s: State, pages: seq<Page>, left: nat, i: nat)
    requires Kept(t, s) && RunFrom(t, s, pages, left).Ok? && StateAt(t, s, pages, left, i).Some?
    ensures i < |pages| && !pages[i].form.Unobservable?
    ensures var resolved := ResolvedOn(t, StateAt(t, s, pages, left, i).value, pages[i]);
            && (resolved.None? ==> pages[i].form.fields == [])
            && (resolved.Some? ==>
                  && pages[i].form.fields <= resolved.value
                  && forall f | f in resolved.value :: f in RunFrom(t, s, pages, left).value.0.fields)
    decreases left
  {
    hide PageStep, Kept, Proved, ResolvedOn;
    StepKeeps(t, s, pages[0]);
    var move := PageStep(t, s, pages[0]).value;
    if i > 0 {
      VisitedIsPlanned(t, move.state, pages[1..], left - 1, i - 1);
    } else if move.Turn? {
      RunProves(t, move.state, pages[1..], left - 1);
    }
  }

  lemma {:induction false} ExpectedFieldsHas(fields: seq<Field>, f: Field) returns (k: nat)
    requires f in fields && IsExpectedField(f)
    ensures k < |ExpectedFields(fields)| && ExpectedFields(fields)[k] == f
  {
    if fields[0] == f {
      k := 0;
    } else {
      var rest := ExpectedFieldsHas(fields[1..], f);
      k := if IsExpectedField(fields[0]) then rest + 1 else rest;
    }
  }

  /** Every field that any visited page has resolved, on its first observation or after a fill, is settled, and a field
      that is no file has its planned value on the server in both snapshots. */
  lemma ReadySettlesEveryPage(t: Task, pages: seq<Page>, maxPages: nat, i: nat, f: Field) returns (k: nat)
    requires RunSpec(t, pages, maxPages).Ok? && StateAt(t, StartState(t).value, pages, maxPages, i).Some?
    requires i < |pages|
    requires var resolved := ResolvedOn(t, StateAt(t, StartState(t).value, pages, maxPages, i).value, pages[i]);
             resolved.Some? && f in resolved.value
    ensures Settled(f.status)
    ensures var (s, p) := RunSpec(t, pages, maxPages).value;
            && p.first.fields.Some? && p.second.fields.Some? && |p.first.fields.value| == |p.second.fields.value|
            && (f.asset.None? ==> && k < |p.first.fields.value| && FieldMatches(f, p.first.fields.value[k], k)
                                  && FieldMatches(f, p.second.fields.value[k], k))
  {
    StartKept(t);
    VisitedIsPlanned(t, StartState(t).value, pages, maxPages, i);
    ReadyCarriesPlan(t, pages, maxPages);
    hide RunFrom, Certify, Recheck, SameDraft, FieldMatches, RowsMatch, ProjectsCovered, StateAt, ResolvedOn;
    var (s, p) := RunSpec(t, pages, maxPages).value;
    k := 0;
    if f.asset.None? { k := ExpectedFieldsHas(s.fields, f); }
  }
}
