/** The counters of one owner's run: what the report hook makes of the reports of each test. */
module SuiteReports {
  /** Counters per terminal outcome. */
  datatype Counts = Counts(passed: int, skipped: int, xfailed: int, xpassed: int, failed: int, errors: int)

  const ZERO := Counts(0, 0, 0, 0, 0, 0)

  function Plus(a: Counts, b: Counts): Counts {
    Counts(a.passed + b.passed, a.skipped + b.skipped, a.xfailed + b.xfailed, a.xpassed + b.xpassed,
           a.failed + b.failed, a.errors + b.errors)
  }

  function Total(c: Counts): int {
    c.passed + c.skipped + c.xfailed + c.xpassed + c.failed + c.errors
  }

  predicate NonNegative(c: Counts) {
    c.passed >= 0 && c.skipped >= 0 && c.xfailed >= 0 && c.xpassed >= 0 && c.failed >= 0 && c.errors >= 0
  }

  predicate Passing(c: Counts) {
    NonNegative(c) && c.failed == 0 && c.errors == 0
  }

  datatype Phase = Setup | Call | Teardown

  datatype Ending = Passed | Failed | Skipped

  /** What the hook reads of a report; a subtest's report has a context. */
  datatype Report = Report(when: Phase, ending: Ending, wasxfail: bool, context: bool)

  datatype Tallies = Tallies(outcomes: Counts, subtests: Counts, teardown: Counts)

  const NO_TALLIES := Tallies(ZERO, ZERO, ZERO)

  function Counted(c: Counts, r: Report): Counts {
    if r.ending.Failed? then
      if r.when.Call? then c.(failed := c.failed + 1) else c.(errors := c.errors + 1)
    else if r.wasxfail then
      if r.ending.Skipped? then c.(xfailed := c.xfailed + 1) else c.(xpassed := c.xpassed + 1)
    else if r.ending.Skipped? then c.(skipped := c.skipped + 1)
    else if r.when.Setup? then c
    else c.(passed := c.passed + 1)
  }

  function Tallied(t: Tallies, r: Report): Tallies {
    if r.context then t.(subtests := Counted(t.subtests, r))
    else if r.when.Teardown? then t.(teardown := Counted(t.teardown, r))
    else t.(outcomes := Counted(t.outcomes, r))
  }

  class FullSuite {
    var outcomes: Counts
    var subtests: Counts
    var teardown: Counts

    constructor ()
      ensures Totals() == NO_TALLIES
    {
      outcomes, subtests, teardown := ZERO, ZERO, ZERO;
    }

    function Totals(): Tallies
      reads this
    {
      Tallies(outcomes, subtests, teardown)
    }

    /** pytest_runtest_logreport */
    method LogReport(r: Report)
      modifies this
      ensures Totals() == Tallied(old(Totals()), r)
    {
      var counts := if r.context then subtests else if r.when.Teardown? then teardown else outcomes;
      if r.ending.Failed? {
        if r.when.Call? {
          counts := counts.(failed := counts.failed + 1);
        } else {
          counts := counts.(errors := counts.errors + 1);
        }
      } else if r.wasxfail {
        if r.ending.Skipped? {
          counts := counts.(xfailed := counts.xfailed + 1);
        } else {
          counts := counts.(xpassed := counts.xpassed + 1);
        }
      } else if r.ending.Skipped? {
        counts := counts.(skipped := counts.skipped + 1);
      } else if r.when.Call? || r.when.Teardown? {
        counts := counts.(passed := counts.passed + 1);
      }
      if r.context {
        subtests := counts;
      } else if r.when.Teardown? {
        teardown := counts;
      } else {
        outcomes := counts;
      }
    }
  }

  // ----- the reports of a test and of a run

  function TalliedAll(t: Tallies, reports: seq<Report>): Tallies
    decreases |reports|
  {
    if reports == [] then t else TalliedAll(Tallied(t, reports[0]), reports[1..])
  }

  function TalliedTests(t: Tallies, tests: seq<seq<Report>>): Tallies
    decreases |tests|
  {
    if tests == [] then t else TalliedTests(TalliedAll(t, tests[0]), tests[1..])
  }

  /** The reports of the test itself, without those of its subtests. */
  function Own(reports: seq<Report>): (own: seq<Report>)
    ensures forall r | r in own :: r in reports && !r.context
    decreases |reports|
  {
    if reports == [] then []
    else if reports[0].context then Own(reports[1..])
    else [reports[0]] + Own(reports[1..])
  }

  /** How the runner reports one test: its set-up, its call exactly if the set-up passed, and its teardown, with the
      subtests' reports anywhere. Only a set-up that ends skipped can be an expected failure. */
  predicate FollowsProtocol(reports: seq<Report>) {
    var own := Own(reports);
    && (|own| == 2 || |own| == 3) && own[0].when.Setup? && own[|own| - 1].when.Teardown?
    && (|own| == 3 <==> own[0].ending.Passed?)
    && (|own| == 3 ==> own[1].when.Call? && !own[0].wasxfail)
  }

  predicate NoneFailed(reports: seq<Report>) {
    forall r | r in reports :: !r.ending.Failed?
  }

  /** The outcome counters see only the reports of the tests themselves. */
  lemma {:induction false} OwnDecide(t: Tallies, u: Tallies, reports: seq<Report>)
    requires t.outcomes == u.outcomes
    ensures TalliedAll(t, reports).outcomes == TalliedAll(u, Own(reports)).outcomes
    decreases |reports|
  {
    hide Counted;
    if reports != [] {
      var own := Own(reports);
      if reports[0].context {
        OwnDecide(Tallied(t, reports[0]), u, reports[1..]);
      } else {
        assert own[0] == reports[0] && own[1..] == Own(reports[1..]);
        OwnDecide(Tallied(t, reports[0]), Tallied(u, reports[0]), reports[1..]);
      }
    }
  }

  /** Every test, whatever its fate, is counted in exactly one terminal outcome. */
  lemma {:induction false} OneTerminalOutcome(t: Tallies, reports: seq<Report>)
    requires FollowsProtocol(reports)
    ensures Total(TalliedAll(t, reports).outcomes) == Total(t.outcomes) + 1
  {
    OwnDecide(t, t, reports);
    var own := Own(reports);
    assert forall i | 0 <= i < |own| :: own[i] in own;
    if |own| == 3 {
      ThreeReports(t, own);
    } else {
      TwoReports(t, own);
    }
  }

  lemma ThreeReports(t: Tallies, own: seq<Report>)
    requires |own| == 3
    ensures TalliedAll(t, own) == Tallied(Tallied(Tallied(t, own[0]), own[1]), own[2])
  {
    hide Tallied;
    assert own[1..][1..] == [own[2]] && own[1..][0] == own[1];
    TwoReports(Tallied(t, own[0]), own[1..]);
  }

  lemma TwoReports(t: Tallies, own: seq<Report>)
    requires |own| == 2
    ensures TalliedAll(t, own) == Tallied(Tallied(t, own[0]), own[1])
  {
    hide Tallied;
    assert own[1..] == [own[1]] && own[1..][1..] == [];
    assert TalliedAll(Tallied(t, own[0]), own[1..]) == TalliedAll(Tallied(Tallied(t, own[0]), own[1]), own[1..][1..]);
  }

  predicate Sane(t: Tallies) {
    NonNegative(t.outcomes) && NonNegative(t.subtests) && NonNegative(t.teardown)
  }

  predicate AllPassing(t: Tallies) {
    Passing(t.outcomes) && Passing(t.subtests) && Passing(t.teardown)
  }

  /** A failed report is never lost: the counters pass exactly when no report failed. */
  lemma {:induction false} FailuresAreKept(t: Tallies, reports: seq<Report>)
    requires Sane(t)
    ensures Sane(TalliedAll(t, reports))
    ensures AllPassing(TalliedAll(t, reports)) <==> AllPassing(t) && NoneFailed(reports)
    decreases |reports|
  {
    if reports != [] {
      FailuresAreKept(Tallied(t, reports[0]), reports[1..]);
      assert forall r :: r in reports <==> r == reports[0] || r in reports[1..];
    }
  }

  /** One terminal outcome per test of the run, and passing counters exactly when nothing failed. */
  lemma {:induction false} RunIsCounted(t: Tallies, tests: seq<seq<Report>>)
    requires Sane(t) && forall test | test in tests :: FollowsProtocol(test)
    ensures Total(TalliedTests(t, tests).outcomes) == Total(t.outcomes) + |tests|
    ensures AllPassing(TalliedTests(t, tests)) <==> AllPassing(t) && forall test | test in tests :: NoneFailed(test)
    decreases |tests|
  {
    hide FollowsProtocol, TalliedAll, AllPassing, Sane, NoneFailed, Total;
    if tests != [] {
      assert tests[0] in tests;
      OneTerminalOutcome(t, tests[0]);
      FailuresAreKept(t, tests[0]);
      RunIsCounted(TalliedAll(t, tests[0]), tests[1..]);
      assert forall test :: test in tests <==> test == tests[0] || test in tests[1..];
    }
  }

  /** The same from the empty counters of a session. */
  lemma WholeRunIsCounted(tests: seq<seq<Report>>)
    requires forall test | test in tests :: FollowsProtocol(test)
    ensures Total(TalliedTests(NO_TALLIES, tests).outcomes) == |tests|
    ensures AllPassing(TalliedTests(NO_TALLIES, tests)) <==> forall test | test in tests :: NoneFailed(test)
  {
    hide FollowsProtocol, TalliedTests, NoneFailed;
    RunIsCounted(NO_TALLIES, tests);
  }
}
