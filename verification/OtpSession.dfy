/** The challenge with the durable journal behind it: BrokerBridge, prepare_one_time_code_auth and the attempt store. */
module OtpSession {
  import opened Results
  import opened AuthJournal
  import opened AuthAttempts
  import opened OtpChallenge
  import AuthRuns

  /** The task that a challenge belongs to, as the bridge was built for it. */
  datatype Bridge = Bridge(task: Option<Task>, taskId: string, owner: string, host: Option<string>,
                           returnTarget: string)

  /** What the page and the guard answer while a send is prepared; planned is Requested when the send control was
      proved. */
  datatype Sending = Sending(planned: Prepare, guard: bool, clickFails: bool, waitFails: bool,
                             resultWait: real)

  datatype ChallengeCall = ChallengeCall(bridge: Bridge, newId: string, prefer: int, waits: Waits, sending: Sending,
                                         sendWaits: Waits, observeWaits: Waits, wait: real, answers: OtpAnswers)

  datatype Step = StoreStep(call: AuthRuns.Call) | ChallengeStep(challenge: ChallengeCall)

  /** How many send controls of the task were clicked. */
  function Clicks(clicks: seq<string>, task: string): nat {
    if clicks == [] then 0
    else Clicks(clicks[..|clicks| - 1], task) + if clicks[|clicks| - 1] == task then 1 else 0
  }

  lemma ClickAppend(clicks: seq<string>, task: string, other: string)
    ensures Clicks(clicks + [task], other) == Clicks(clicks, other) + if task == other then 1 else 0
  {
    assert (clicks + [task])[..|clicks|] == clicks;
  }

  lemma {:induction false} SendsGrow(log: Log, longer: Log, task: string)
    requires log <= longer
    ensures Sends(log, task) <= Sends(longer, task)
    decreases |longer|
  {
    if |log| < |longer| {
      SendsGrow(log, longer[..|longer| - 1], task);
    } else {
      assert log == longer;
    }
  }

  ghost predicate Backed(clicks: seq<string>, log: Log) {
    forall task :: Clicks(clicks, task) <= Sends(log, task)
  }

  lemma BackedGrows(clicks: seq<string>, log: Log, longer: Log)
    requires Backed(clicks, log) && log <= longer
    ensures Backed(clicks, longer)
  {
    forall task ensures Clicks(clicks, task) <= Sends(longer, task) { SendsGrow(log, longer, task); }
  }

  /** A click after its own recorded intent. */
  lemma BackedClick(clicks: seq<string>, log: Log, e: Event)
    requires Backed(clicks, log) && e.Sent?
    ensures Backed(clicks + [e.taskId], log + [e])
  {
    forall task ensures Clicks(clicks + [e.taskId], task) <= Sends(log + [e], task) {
      ClickAppend(clicks, e.taskId, task);
      CountAppend(log, e, task);
    }
  }

  class Session {
    const store: AuthAttemptStore
    /** The task of every send control that the page has clicked. */
    ghost var clicks: seq<string>

    ghost predicate Valid()
      reads this, store
    {
      store.Valid() && Backed(clicks, store.log)
    }

    constructor (seconds: int, start: real)
      ensures Valid() && fresh(store) && clicks == [] && store.log == [] && store.rows == []
    {
      store := new AuthAttemptStore(seconds, start);
      clicks := [];
    }

    /** prepare_one_time_code_auth for a PREPARED attempt: the intent is committed before the click, or there is no
        click. */
    method PrepareSend(b: Bridge, attemptId: string, s: Sending, waits: Waits) returns (status: Prepare)
      requires Valid()
      modifies this`clicks, store
      ensures Valid() && old(store.log) <= store.log
      ensures clicks == old(clicks) ==> store.log == old(store.log) && store.rows == old(store.rows)
      ensures clicks != old(clicks) ==>
                && clicks == old(clicks) + [b.taskId] && s.planned == Requested && s.guard
                && |store.log| == |old(store.log)| + 1
                && var e := store.log[|old(store.log)|]; e.Sent? && e.taskId == b.taskId && e.attemptId == attemptId
      ensures status == Requested ==> clicks != old(clicks)
      ensures status == NotNeeded ==> s.planned == NotNeeded
    {
      hide AuthAttemptStore.Valid, Backed;
      if s.planned != Requested { return s.planned; }
      if !s.guard { return Unavailable; }
      ghost var before := store.log;
      var intent := store.RecordSendIntent(b.task, attemptId, b.taskId, b.owner, waits);
      if intent.Refused? { return Unavailable; }
      BackedClick(clicks, before, store.log[|before|]);
      clicks := clicks + [b.taskId];
      if s.clickFails { return Lost; }
      var result := store.RecordSendResult(attemptId, ClickObserved, s.resultWait);
      if result.Refused? || s.waitFails { return Lost; }
      return Requested;
    }

    /** The answers that _resolve_otp_challenge sees: the journal decides the attempt, the preparation and the wait. */
    method AskJournal(c: ChallengeCall) returns (answers: OtpAnswers, attemptId: string)
      requires Valid()
      modifies this`clicks, store
      ensures Valid() && old(store.log) <= store.log
      ensures answers == c.answers.(attempt := answers.attempt, prepare := answers.prepare,
                                    observed := answers.observed)
      ensures forall k | |old(store.log)| <= k < |store.log| :: store.log[k].Sent?
      ensures |clicks| <= |old(clicks)| + 1
    {
      hide AuthAttemptStore.Valid, Backed;
      answers, attemptId := c.answers.(attempt := BeginRefused), "";
      if !c.answers.enabled || !c.answers.hostname { return; }
      var b := c.bridge;
      var begun := store.Begin(b.task, b.taskId, b.owner, b.host, b.returnTarget, c.newId, c.prefer, c.waits);
      if begun.Refused? { return; }
      attemptId := begun.value.attemptId;
      var prepared := begun.value.outcome.Prepared?;
      answers := answers.(attempt := Began(prepared));
      if !c.answers.fieldUnique || !prepared { return; }
      var status := PrepareSend(b, attemptId, c.sending, c.sendWaits);
      answers := answers.(prepare := status, observed := false);
      if status == NotNeeded && !c.answers.live {
        var seen := store.ObserveExternalWait(b.task, attemptId, b.taskId, b.owner, c.observeWaits);
        answers := answers.(observed := seen.Ok?);
      }
    }

    /** One challenge on one page: at most one click, after its intent; the attempt is closed as AUTHENTICATED only when
        the run goes on, with no challenge left and the return target verified. */
    method Resolve(c: ChallengeCall) returns (run: OtpRun)
      requires Valid()
      modifies this`clicks, store
      ensures Valid() && old(store.log) <= store.log && |clicks| <= |old(clicks)| + 1
      ensures (exists k | |old(store.log)| <= k < |store.log| :: store.log[k].AuthenticatedClose?) ==>
                run.verdict.Pass? && run.last == NoAuth && c.answers.returned && run.completed
      ensures run.verdict.Pass? ==> run.last == NoAuth
    {
      hide AuthAttemptStore.Valid, Backed, ResolveOtp;
      var answers, attemptId := AskJournal(c);
      run := ResolveOtp(answers);
      OtpPasses(answers);
      if run.completed {
        ghost var before := store.log;
        var refused := store.Close(c.bridge.taskId, attemptId, Authenticated, c.wait);
        BackedGrows(clicks, before, store.log);
      }
    }

    /** Any sequence of challenges and store calls: what the pages click for a task whose attempts were created at
        distinct instants is within the journal's bound. */
    method RunSteps(steps: seq<Step>)
      requires Valid()
      modifies this`clicks, store
      ensures Valid()
      ensures forall task | DistinctCreation(store.rows, task) :: Clicks(clicks, task) <= 1 + Credits(store.log, task)
      ensures forall task :: Clicks(clicks, task) <= 1 + Credits(store.log, task) + store.misread[task]
    {
      hide AuthAttemptStore.Valid, Backed, TaskOk, DistinctCreation, Credits, Sends, Clicks;
      for i := 0 to |steps|
        invariant Valid()
      {
        match steps[i] {
          case StoreStep(call) =>
            ghost var before := store.log;
            AuthRuns.Perform(store, call);
            BackedGrows(clicks, before, store.log);
          case ChallengeStep(challenge) => var run := Resolve(challenge);
        }
      }
      forall task | DistinctCreation(store.rows, task) ensures Clicks(clicks, task) <= 1 + Credits(store.log, task) {
        WithinJournal(store, clicks, task);
      }
      forall task ensures Clicks(clicks, task) <= 1 + Credits(store.log, task) + store.misread[task] {
        WithinStale(store, clicks, task);
      }
    }
  }

  lemma WithinStale(store: AuthAttemptStore, clicks: seq<string>, task: string)
    requires store.Valid() && Backed(clicks, store.log)
    ensures Clicks(clicks, task) <= 1 + Credits(store.log, task) + store.misread[task]
  {
    StaleBound(store.rows, store.log, store.time, task, store.misread[task]);
  }

  lemma WithinJournal(store: AuthAttemptStore, clicks: seq<string>, task: string)
    requires store.Valid() && Backed(clicks, store.log) && DistinctCreation(store.rows, task)
    ensures Clicks(clicks, task) <= 1 + Credits(store.log, task)
  {
    TaskWithinBound(store.rows, store.log, store.time, task);
  }
}
