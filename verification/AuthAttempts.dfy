/** AuthAttemptStore: the durable SMS attempt journal, one transaction per method. */
module AuthAttempts {
  import opened Results
  import opened AuthJournal

  /** The queue row that a transaction reads. */
  datatype Task = Task(owner: Option<string>, leaseUntil: real, targetUrl: string, targetHost: Option<string>,
                       revision: int, otpWaiting: bool)

  datatype Refusal =
    | InvalidOrigin | LeaseLost | TargetUnverified | TargetChanged | PreviousSendUnreconciled | AttemptIdTaken
    | SendAlreadyAttempted | InvalidCommand | RevisionRequired | CommandReused | StaleWait | ResendUnavailable
    | ResumeFailed | InvalidResult | NoDurableIntent | InvalidOutcome

  type Reply = Result<Row, Refusal>

  /** How long the caller waited before the two clock readings of one call. */
  type Waits = (real, real)

  function After(time: real, wait: real): real {
    if wait > 0.0 then time + wait else time
  }

  predicate Leased(task: Option<Task>, owner: string, at: real) {
    task.Some? && task.value.owner == Some(owner) && task.value.leaseUntil > at
  }

  class AuthAttemptStore {
    var rows: Rows
    /** queue.clock(); it never runs backwards. */
    var time: real
    const ttl: real
    /** Every effect committed so far. */
    ghost var log: Log
    /** How often a begin of each task opened an attempt although the last one was sent and not authenticated. */
    ghost var misread: multiset<string>

    ghost predicate Valid()
      reads this
    {
      && 30.0 <= ttl <= 300.0
      && RowsOk(rows, time) && SendsOnce(rows, log)
      && (forall task :: TaskOk(rows, log, time, task, misread[task]))
      && (forall task | task in misread :: !DistinctCreation(rows, task))
    }

    constructor (seconds: int, start: real)
      ensures Valid() && rows == [] && log == [] && misread == multiset{} && time == start
    {
      ttl := if seconds < 30 then 30.0 else if seconds > 300 then 300.0 else seconds as real;
      rows, time, log, misread := [], start, [], multiset{};
    }

    /** One reading of the clock. */
    method Now(wait: real) returns (now: real)
      requires Valid()
      modifies this`time
      ensures Valid() && now == time == After(old(time), wait)
    {
      hide RowsOk, TaskOk, SendsOnce, DistinctCreation;
      if wait > 0.0 {
        LaterRowsOk(rows, time, time + wait);
        forall task ensures TaskOk(rows, log, time + wait, task, misread[task]) {
          LaterTask(rows, log, time, time + wait, task, misread[task]);
        }
        time := time + wait;
      }
      now := time;
    }

    /** The query for the newest attempt: some row that no row of the task is newer than. The database may prefer any
        of them. */
    method SelectNewest(task: string, prefer: int) returns (pick: int)
      ensures -1 <= pick < |rows| && (pick == -1 || MayBeNewest(rows, task, pick))
      ensures pick == -1 <==> LastIndex(rows, task) < 0
      ensures MayBeNewest(rows, task, prefer) ==> pick == prefer
    {
      pick := -1;
      var i := 0;
      while i < |rows|
        invariant 0 <= i <= |rows| && -1 <= pick < i
        invariant pick >= 0 ==> rows[pick].taskId == task
        invariant forall k | 0 <= k < i && rows[k].taskId == task :: pick >= 0 && rows[k].created <= rows[pick].created
        invariant MayBeNewest(rows, task, prefer) && prefer < i ==> pick == prefer
      {
        if rows[i].taskId == task
           && (pick < 0 || rows[i].created > rows[pick].created
               || (pick != prefer && rows[i].created == rows[pick].created)) {
          pick := i;
        }
        i := i + 1;
      }
    }

    /** begin */
    method Begin(task: Option<Task>, taskId: string, owner: string, host: Option<string>, returnTarget: string,
                 newId: string, prefer: int, waits: Waits)
      returns (r: Reply)
      requires Valid()
      modifies this
      ensures Valid() && log == old(log) && time >= old(time)
      ensures r.Refused? ==> rows == old(rows) && misread == old(misread)
      ensures r.Ok? ==>
                var i := IndexOfCurrent(old(rows), taskId);
                || (i >= 0 && rows == old(rows) && r.value == old(rows)[i] && misread == old(misread)
                    && host == Some(r.value.origin) && r.value.returnTarget == returnTarget)
                || (i < 0 && r.value == Fresh(newId, taskId, r.value.origin, returnTarget, None, None, time)
                    && host == Some(r.value.origin) && time == After(After(old(time), waits.0), waits.1)
                    && IndexOfAttempt(old(rows), r.value.attemptId) < 0 && rows == old(rows) + [r.value])
      ensures r.Ok? && rows != old(rows) ==>
                misread == if CanSend(old(rows), taskId) then old(misread) else old(misread) + multiset{taskId}
      ensures !StaleChoice(old(rows), taskId) ==> misread == old(misread)
      ensures (host.Some? && Leased(task, owner, After(old(time), waits.0))
               && task.value.targetUrl == returnTarget && task.value.targetHost == host
               && IndexOfCurrent(old(rows), taskId) < 0 && IndexOfAttempt(old(rows), newId) < 0
               && (LastIndex(old(rows), taskId) < 0
                   || (MayBeNewest(old(rows), taskId, prefer) && Permits(old(rows)[prefer])))) ==>
                r.Ok? && rows == old(rows) + [r.value]
    {
      hide RowsOk, TaskOk, SendsOnce, MayBeNewest, DistinctCreation;
      if host.None? { return Refused(InvalidOrigin); }
      var checked := Now(waits.0);
      if !Leased(task, owner, checked) { return Refused(LeaseLost); }
      if task.value.targetUrl != returnTarget || task.value.targetHost != host { return Refused(TargetUnverified); }
      var i := IndexOfCurrent(rows, taskId);
      if i >= 0 {
        if rows[i].origin != host.value || rows[i].returnTarget != returnTarget { return Refused(TargetChanged); }
        return Ok(rows[i]);
      }
      var pick := SelectNewest(taskId, prefer);
      if pick >= 0 && rows[pick].requestedAt.Some? && !rows[pick].outcome.Authenticated? {
        return Refused(PreviousSendUnreconciled);
      }
      var now := Now(waits.1);
      if IndexOfAttempt(rows, newId) >= 0 { return Refused(AttemptIdTaken); }
      var row := Fresh(newId, taskId, host.value, returnTarget, None, None, now);
      assert pick >= 0 && !CanSend(rows, taskId) ==> StaleChoice(rows, taskId);
      ghost var added := if CanSend(rows, taskId) then multiset{} else multiset{taskId};
      OpenedKeeps(rows, log, time, row, misread, added);
      assert misread + multiset{} == misread;
      misread := misread + added;
      rows := rows + [row];
      return Ok(row);
    }

    /** record_send_intent */
    method RecordSendIntent(task: Option<Task>, attemptId: string, taskId: string, owner: string, waits: Waits)
      returns (r: Reply)
      requires Valid()
      modifies this
      ensures Valid() && misread == old(misread)
      ensures r.Ok? <==>
              var i := IndexOfAttempt(old(rows), attemptId);
              && Leased(task, owner, After(old(time), waits.0))
              && i >= 0 && old(rows)[i].taskId == taskId && old(rows)[i].current && old(rows)[i].outcome.Prepared?
      ensures r.Refused? ==> rows == old(rows) && log == old(log)
      ensures r.Ok? ==>
                var i := IndexOfAttempt(old(rows), attemptId);
                && i >= 0 && old(rows)[i].taskId == taskId && old(rows)[i].current && old(rows)[i].outcome.Prepared?
                && time == After(After(old(time), waits.0), waits.1) && r.value == SentRow(old(rows)[i], time, ttl)
                && rows == old(rows)[i := r.value] && log == old(log) + [Sent(taskId, attemptId, time)]
    {
      hide RowsOk, TaskOk, SendsOnce, DistinctCreation;
      var checked := Now(waits.0);
      if !Leased(task, owner, checked) { return Refused(LeaseLost); }
      var i := IndexOfAttempt(rows, attemptId);
      if i < 0 || rows[i].taskId != taskId || !rows[i].current || !rows[i].outcome.Prepared? {
        return Refused(SendAlreadyAttempted);
      }
      var now := Now(waits.1);
      var row := SentRow(rows[i], now, ttl);
      ghost var event := Sent(taskId, attemptId, now);
      forall t ensures TaskOk(rows[i := row], log + [event], time, t, misread[t]) {
        SendTask(rows, log, time, i, ttl, t, misread[t]);
      }
      AllTiesStay(rows, i, row, misread);
      RowIsOk(rows, time, i);
      UpdateRowsOk(rows, time, i, row);
      SendsOnceUpdate(rows, log, i, row);
      DistinctIds(rows, time);
      SentOnce(rows, log, i, row, event);
      rows, log := rows[i := row], log + [event];
      return Ok(row);
    }

    /** authorize_resend */
    method AuthorizeResend(task: Option<Task>, taskId: string, commandId: string, wellFormed: bool,
                           expectedRevision: int, newId: string, resumed: bool, wait: real) returns (r: Reply)
      requires Valid()
      modifies this
      ensures Valid() && misread == old(misread)
      ensures r.Refused? ==> rows == old(rows) && log == old(log)
      ensures IndexOfCommand(old(rows), commandId) >= 0 ==> rows == old(rows) && log == old(log)
      ensures r.Ok? && IndexOfCommand(old(rows), commandId) >= 0 ==>
                r.value == old(rows)[IndexOfCommand(old(rows), commandId)] && r.value.taskId == taskId
      ensures r.Ok? && IndexOfCommand(old(rows), commandId) < 0 ==>
                var i := IndexOfCurrent(old(rows), taskId);
                && i >= 0 && SendPending(old(rows)[i].outcome)
                && old(rows)[i].cooldownUntil.Some? && old(rows)[i].cooldownUntil.value <= time
                && r.value.outcome.Prepared? && r.value.current && r.value.resendCommand == Some(commandId)
                && r.value.resendParent == Some(old(rows)[i].attemptId)
                && rows == old(rows)[i := old(rows)[i].(current := false, updated := time)] + [r.value]
                && log == old(log) + [ResendAuthorized(taskId, commandId)]
    {
      hide RowsOk, TaskOk, SendsOnce, MayBeNewest, DistinctCreation;
      if !wellFormed { return Refused(InvalidCommand); }
      if expectedRevision < 0 { return Refused(RevisionRequired); }
      var existing := IndexOfCommand(rows, commandId);
      if existing >= 0 {
        if rows[existing].taskId != taskId { return Refused(CommandReused); }
        return Ok(rows[existing]);
      }
      if task.None? || task.value.revision != expectedRevision || task.value.owner.Some? || !task.value.otpWaiting {
        return Refused(StaleWait);
      }
      var i := IndexOfCurrent(rows, taskId);
      var now := Now(wait);
      if i < 0 || !SendPending(rows[i].outcome) || rows[i].cooldownUntil.None?
         || rows[i].cooldownUntil.value == 0.0 || rows[i].cooldownUntil.value > now {
        return Refused(ResendUnavailable);
      }
      if IndexOfAttempt(rows, newId) >= 0 { return Refused(AttemptIdTaken); }
      if !resumed { return Refused(ResumeFailed); }
      var retired := rows[i].(current := false, updated := now);
      var row := Fresh(newId, taskId, rows[i].origin, rows[i].returnTarget, Some(rows[i].attemptId), Some(commandId),
                       now);
      ghost var event := ResendAuthorized(taskId, commandId);
      ResentKeeps(rows, log, time, i, row, commandId, misread);
      rows, log := rows[i := retired] + [row], log + [event];
      return Ok(row);
    }

    /** record_send_result */
    method RecordSendResult(attemptId: string, outcome: SendOutcome, wait: real) returns (r: Reply)
      requires Valid()
      modifies this
      ensures Valid() && log == old(log) && misread == old(misread)
      ensures r.Refused? ==> rows == old(rows)
      ensures r.Ok? ==>
                var i := IndexOfAttempt(old(rows), attemptId);
                && i >= 0 && SendPending(outcome) && SendPending(old(rows)[i].outcome)
                && r.value == old(rows)[i].(outcome := outcome, updated := time) && rows == old(rows)[i := r.value]
    {
      hide RowsOk, TaskOk, SendsOnce, DistinctCreation;
      if !SendPending(outcome) { return Refused(InvalidResult); }
      var i := IndexOfAttempt(rows, attemptId);
      if i < 0 || !(rows[i].outcome.SendUnknown? || rows[i].outcome == outcome) { return Refused(NoDurableIntent); }
      var now := Now(wait);
      var row := rows[i].(outcome := outcome, updated := now);
      RowIsOk(rows, time, i);
      UpdateRowsOk(rows, time, i, row);
      forall t ensures TaskOk(rows[i := row], log, time, t, misread[t]) {
        QuietUpdate(rows, log, time, i, row, t, misread[t]);
      }
      AllTiesStay(rows, i, row, misread);
      SendsOnceUpdate(rows, log, i, row);
      rows := rows[i := row];
      return Ok(row);
    }

    /** observe_external_wait; it does not ask whether the row is current, and every prepared row is. */
    method ObserveExternalWait(task: Option<Task>, attemptId: string, taskId: string, owner: string, waits: Waits)
      returns (r: Reply)
      requires Valid()
      modifies this
      ensures Valid() && log == old(log) && misread == old(misread)
      ensures r.Refused? ==> rows == old(rows)
      ensures r.Ok? ==>
                var i := IndexOfAttempt(old(rows), attemptId);
                && i >= 0 && i == IndexOfCurrent(old(rows), taskId)
                && r.value == ObservedRow(old(rows)[i], time, ttl) && rows == old(rows)[i := r.value]
    {
      hide RowsOk, TaskOk, SendsOnce, DistinctCreation;
      var checked := Now(waits.0);
      if !Leased(task, owner, checked) { return Refused(LeaseLost); }
      var i := IndexOfAttempt(rows, attemptId);
      if i < 0 || rows[i].taskId != taskId || !rows[i].outcome.Prepared? { return Refused(SendAlreadyAttempted); }
      var now := Now(waits.1);
      var row := ObservedRow(rows[i], now, ttl);
      RowIsOk(rows, time, i);
      UpdateRowsOk(rows, time, i, row);
      CurrentIsNewest(rows, time, i);
      forall t ensures TaskOk(rows[i := row], log, time, t, misread[t]) {
        ObserveTask(rows, log, time, i, ttl, t, misread[t]);
      }
      AllTiesStay(rows, i, row, misread);
      SendsOnceUpdate(rows, log, i, row);
      rows := rows[i := row];
      return Ok(row);
    }

    /** valid_wait */
    method ValidWait(taskId: string, attemptId: Option<string>, host: Option<string>, wait: real)
      returns (r: Option<Row>)
      requires Valid()
      modifies this`time
      ensures Valid()
      ensures r.Some? <==>
              var i := IndexOfCurrent(rows, taskId);
              && i >= 0 && rows[i].outcome in {SendUnknown, ClickObserved, ExternalObserved}
              && rows[i].deadline.Some? && rows[i].deadline.value != 0.0
              && rows[i].deadline.value > After(old(time), wait)
              && (attemptId.Some? ==> rows[i].attemptId == attemptId.value)
              && (host.Some? ==> rows[i].origin == host.value)
      ensures r.Some? ==> r.value == rows[IndexOfCurrent(rows, taskId)] && r.value.requestedAt.Some?
    {
      hide RowsOk, TaskOk, SendsOnce;
      var i := IndexOfCurrent(rows, taskId);
      if i >= 0 { RowIsOk(rows, time, i); }
      if i < 0 || rows[i].outcome.Prepared? || rows[i].deadline.None? || rows[i].deadline.value == 0.0 { return None; }
      var now := Now(wait);
      if rows[i].deadline.value <= now { return None; }
      if attemptId.Some? && rows[i].attemptId != attemptId.value { return None; }
      if host.Some? && rows[i].origin != host.value { return None; }
      return Some(rows[i]);
    }

    /** close */
    method Close(taskId: string, attemptId: string, outcome: SendOutcome, wait: real) returns (refused: bool)
      requires Valid()
      modifies this
      ensures Valid() && misread == old(misread)
      ensures refused <==> Active(outcome)
      ensures time == if refused then old(time) else After(old(time), wait)
      ensures var i := IndexOfAttempt(old(rows), attemptId);
              if !refused && i >= 0 && old(rows)[i].taskId == taskId && old(rows)[i].current then
                && rows == old(rows)[i := ClosedRow(old(rows)[i], outcome, time)]
                && log == old(log) + if outcome.Authenticated? then [AuthenticatedClose(taskId)] else []
              else rows == old(rows) && log == old(log)
    {
      hide RowsOk, TaskOk, SendsOnce, DistinctCreation;
      if Active(outcome) { return true; }
      var now := Now(wait);
      var i := IndexOfAttempt(rows, attemptId);
      if i >= 0 && rows[i].taskId == taskId && rows[i].current {
        var row := ClosedRow(rows[i], outcome, now);
        RowIsOk(rows, time, i);
        UpdateRowsOk(rows, time, i, row);
        SendsOnceUpdate(rows, log, i, row);
        AllTiesStay(rows, i, row, misread);
        if outcome.Authenticated? {
          forall t ensures TaskOk(rows[i := row], log + [AuthenticatedClose(taskId)], time, t, misread[t]) {
            AuthenticatedTask(rows, log, time, i, t, misread[t]);
          }
          NotASend(rows[i := row], log, AuthenticatedClose(taskId));
          log := log + [AuthenticatedClose(taskId)];
        } else {
          forall t ensures TaskOk(rows[i := row], log, time, t, misread[t]) {
            QuietUpdate(rows, log, time, i, row, t, misread[t]);
          }
        }
        rows := rows[i := row];
      }
      return false;
    }
  }

  // ----- structural steps

  lemma AllRowsOk(rows: Rows, time: real)
    requires RowsOk(rows, time)
    ensures forall k | 0 <= k < |rows| :: RowOk(rows[k])
  {
  }

  /** A fresh attempt keeps the store valid; it is misread only over a stale choice. */
  lemma OpenedKeeps(rows: Rows, log: Log, time: real, row: Row, misread: multiset<string>,
                    added: multiset<string>)
    requires RowsOk(rows, time) && SendsOnce(rows, log)
    requires forall task :: TaskOk(rows, log, time, task, misread[task])
    requires forall task | task in misread :: !DistinctCreation(rows, task)
    requires row == Fresh(row.attemptId, row.taskId, row.origin, row.returnTarget, None, None, time)
    requires IndexOfAttempt(rows, row.attemptId) < 0 && IndexOfCurrent(rows, row.taskId) < 0
    requires added == (if CanSend(rows, row.taskId) then multiset{} else multiset{row.taskId})
    requires added != multiset{} ==> StaleChoice(rows, row.taskId)
    ensures RowsOk(rows + [row], time) && SendsOnce(rows + [row], log)
    ensures forall task :: TaskOk(rows + [row], log, time, task, (misread + added)[task])
    ensures forall task | task in misread + added :: !DistinctCreation(rows + [row], task)
  {
    hide RowsOk, TaskOk, SendsOnce, DistinctCreation, StaleChoice, CanSend;
    AppendRowsOk(rows, time, row);
    SendsOnceAppend(rows, log, row);
    AllRowsOk(rows, time);
    if DistinctCreation(rows, row.taskId) { DistinctIsNeverStale(rows, time, row.taskId); }
    forall task | task in misread + added ensures !DistinctCreation(rows + [row], task) { TiesGrow(rows, row, task); }
    forall task ensures TaskOk(rows + [row], log, time, task, (misread + added)[task]) {
      BeginTask(rows, log, time, row, task, misread[task]);
    }
  }

  /** A resend keeps the store valid. */
  lemma ResentKeeps(rows: Rows, log: Log, time: real, i: nat, row: Row, command: string, misread: multiset<string>)
    requires RowsOk(rows, time) && SendsOnce(rows, log) && i < |rows|
    requires forall task :: TaskOk(rows, log, time, task, misread[task])
    requires forall task | task in misread :: !DistinctCreation(rows, task)
    requires rows[i].current && SendPending(rows[i].outcome)
    requires rows[i].cooldownUntil.Some? && rows[i].cooldownUntil.value <= time
    requires IndexOfAttempt(rows, row.attemptId) < 0 && IndexOfCommand(rows, command) < 0
    requires row == Fresh(row.attemptId, rows[i].taskId, row.origin, row.returnTarget, row.resendParent, Some(command),
                          time)
    ensures var retired, event := rows[i].(current := false, updated := time),
            ResendAuthorized(rows[i].taskId, command);
            var changed := rows[i := retired] + [row];
            && RowsOk(changed, time) && SendsOnce(changed, log + [event])
            && (forall task :: TaskOk(changed, log + [event], time, task, misread[task]))
            && (forall task | task in misread :: !DistinctCreation(changed, task))
  {
    hide RowsOk, TaskOk, SendsOnce, MayBeNewest, DistinctCreation, IndexOfAttempt, IndexOfCommand;
    var retired, event := rows[i].(current := false, updated := time), ResendAuthorized(rows[i].taskId, command);
    var changed := rows[i := retired] + [row];
    forall task ensures TaskOk(changed, log + [event], time, task, misread[task]) {
      ResendTask(rows, log, time, i, row, command, task, misread[task]);
    }
    AllTiesStay(rows, i, retired, misread);
    forall task | task in misread ensures !DistinctCreation(changed, task) {
      TiesGrow(rows[i := retired], row, task);
    }
    SendsOnceUpdate(rows, log, i, retired);
    StillAbsent(rows, i, retired, row.attemptId);
    SendsOnceAppend(rows[i := retired], log, row);
    NotASend(changed, log, event);
    ResendRowsOk(rows, time, i, retired, row);
  }

  lemma AllTiesStay(rows: Rows, i: nat, r: Row, tasks: multiset<string>)
    requires i < |rows| && r.taskId == rows[i].taskId && r.created == rows[i].created
    requires forall task | task in tasks :: !DistinctCreation(rows, task)
    ensures forall task | task in tasks :: !DistinctCreation(rows[i := r], task)
  {
    forall task | task in tasks ensures !DistinctCreation(rows[i := r], task) { TiesStay(rows, i, r, task); }
  }

  lemma DistinctIds(rows: Rows, time: real)
    requires RowsOk(rows, time)
    ensures forall j, k | 0 <= j < k < |rows| :: rows[j].attemptId != rows[k].attemptId
  {
  }

  lemma SentOnce(rows: Rows, log: Log, i: nat, row: Row, event: Event)
    requires i < |rows| && SendsOnce(rows, log) && rows[i].outcome.Prepared? && !row.outcome.Prepared?
    requires SendsOnce(rows[i := row], log) && event.Sent? && event.attemptId == rows[i].attemptId == row.attemptId
    requires forall j, k | 0 <= j < k < |rows| :: rows[j].attemptId != rows[k].attemptId
    ensures SendsOnce(rows[i := row], log + [event])
  {
    var changed, grown := rows[i := row], log + [event];
    forall k | 0 <= k < |log| && log[k].Sent? ensures log[k].attemptId != event.attemptId {
      assert !(rows[i].attemptId == log[k].attemptId);
    }
    forall k | 0 <= k < |grown| && grown[k].Sent? ensures IndexOfAttempt(changed, grown[k].attemptId) >= 0 {
      if k == |log| { assert changed[i].attemptId == event.attemptId; }
    }
    forall k, j | 0 <= k < |grown| && 0 <= j < |changed| && grown[k].Sent? && changed[j].attemptId == grown[k].attemptId
      ensures !changed[j].outcome.Prepared?
    {
      if k == |log| { assert j == i; }
    }
  }

  lemma NotASend(rows: Rows, log: Log, event: Event)
    requires SendsOnce(rows, log) && !event.Sent?
    ensures SendsOnce(rows, log + [event])
  {
    var grown := log + [event];
    assert forall k | 0 <= k < |grown| && grown[k].Sent? :: k < |log| && grown[k] == log[k];
  }

  lemma StillAbsent(rows: Rows, i: nat, row: Row, id: string)
    requires i < |rows| && row.attemptId == rows[i].attemptId && IndexOfAttempt(rows, id) < 0
    ensures IndexOfAttempt(rows[i := row], id) < 0
  {
    var changed := rows[i := row];
    assert forall k | 0 <= k < |rows| :: changed[k].attemptId == rows[k].attemptId;
  }

  lemma ResendRowsOk(rows: Rows, time: real, i: nat, retired: Row, row: Row)
    requires RowsOk(rows, time) && i < |rows| && rows[i].current && SendPending(rows[i].outcome)
    requires retired == rows[i].(current := false, updated := time)
    requires IndexOfAttempt(rows, row.attemptId) < 0 && row.resendCommand.Some?
    requires IndexOfCommand(rows, row.resendCommand.value) < 0
    requires row.taskId == rows[i].taskId && row.current && row.outcome.Prepared? && row.requestedAt.None?
    requires row.cooldownUntil.None? && row.created == time
    ensures RowsOk(rows[i := retired] + [row], time)
  {
    hide RowsOk, MayBeNewest, IndexOfAttempt, IndexOfCurrent, IndexOfCommand;
    RowIsOk(rows, time, i);
    UpdateRowsOk(rows, time, i, retired);
    StillAbsent(rows, i, retired, row.attemptId);
    RetiredLeavesNone(rows, time, i, retired, row.resendCommand.value);
    AppendRowsOk(rows[i := retired], time, row);
  }

  /** Retiring the current row of a task leaves it without one, and takes no command. */
  lemma RetiredLeavesNone(rows: Rows, time: real, i: nat, retired: Row, command: string)
    requires RowsOk(rows, time) && i < |rows| && rows[i].current
    requires retired == rows[i].(current := false, updated := time)
    requires IndexOfCommand(rows, command) < 0
    ensures IndexOfCurrent(rows[i := retired], rows[i].taskId) < 0 && IndexOfCommand(rows[i := retired], command) < 0
  {
    hide RowsOk, MayBeNewest;
    CurrentIsNewest(rows, time, i);
    var changed := rows[i := retired];
    assert forall k | 0 <= k < |rows| :: changed[k].resendCommand == rows[k].resendCommand;
    assert forall k | 0 <= k < |rows| && changed[k].taskId == rows[i].taskId :: !changed[k].current;
  }
}
