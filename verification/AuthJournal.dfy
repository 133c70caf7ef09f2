/** Rows of auth_attempts, the history they leave, and what every reachable journal keeps. */
module AuthJournal {
  import opened Results

  datatype SendOutcome =
    | Prepared | SendUnknown | ClickObserved | ExternalObserved
    | Authenticated | Expired | Cancelled | Unverified

  datatype Row = Row(
    attemptId: string, taskId: string, origin: string, returnTarget: string,
    outcome: SendOutcome, requestedAt: Option<real>, deadline: Option<real>, cooldownUntil: Option<real>,
    resendParent: Option<string>, resendCommand: Option<string>,
    current: bool, created: real, updated: real)

  /** The history of committed effects that the bounds are about. */
  datatype Event =
    | Sent(taskId: string, attemptId: string, at: real)
    | ResendAuthorized(taskId: string, commandId: string)
    | AuthenticatedClose(taskId: string)

  type Rows = seq<Row>
  type Log = seq<Event>

  predicate Active(o: SendOutcome) {
    o.Prepared? || o.SendUnknown? || o.ClickObserved? || o.ExternalObserved?
  }

  predicate SendPending(o: SendOutcome) {
    o.SendUnknown? || o.ClickObserved?
  }

  // ----- selections

  /** The row with this attempt id. */
  function IndexOfAttempt(rows: Rows, id: string): (i: int)
    ensures -1 <= i < |rows| && (i >= 0 ==> rows[i].attemptId == id)
    ensures i < 0 ==> forall k | 0 <= k < |rows| :: rows[k].attemptId != id
  {
    if rows == [] then -1
    else if rows[|rows| - 1].attemptId == id then |rows| - 1
    else IndexOfAttempt(rows[..|rows| - 1], id)
  }

  function IndexOfCurrent(rows: Rows, task: string): (i: int)
    ensures -1 <= i < |rows| && (i >= 0 ==> rows[i].taskId == task && rows[i].current)
    ensures i < 0 ==> forall k | 0 <= k < |rows| && rows[k].taskId == task :: !rows[k].current
  {
    if rows == [] then -1
    else if rows[|rows| - 1].taskId == task && rows[|rows| - 1].current then |rows| - 1
    else IndexOfCurrent(rows[..|rows| - 1], task)
  }

  function IndexOfCommand(rows: Rows, command: string): (i: int)
    ensures -1 <= i < |rows| && (i >= 0 ==> rows[i].resendCommand == Some(command))
    ensures i < 0 ==> forall k | 0 <= k < |rows| :: rows[k].resendCommand != Some(command)
  {
    if rows == [] then -1
    else if rows[|rows| - 1].resendCommand == Some(command) then |rows| - 1
    else IndexOfCommand(rows[..|rows| - 1], command)
  }

  /** The row of this task that was inserted last. */
  function LastIndex(rows: Rows, task: string): (i: int)
    ensures -1 <= i < |rows| && (i >= 0 ==> rows[i].taskId == task)
    ensures forall k | i < k < |rows| :: rows[k].taskId != task
  {
    if rows == [] then -1
    else if rows[|rows| - 1].taskId == task then |rows| - 1
    else LastIndex(rows[..|rows| - 1], task)
  }

  /** A row that the query for the newest attempt may return: no row of the task was created later. */
  predicate MayBeNewest(rows: Rows, task: string, i: int) {
    && 0 <= i < |rows| && rows[i].taskId == task
    && forall k | 0 <= k < |rows| && rows[k].taskId == task :: rows[k].created <= rows[i].created
  }

  /** No two attempts of the task were created at one instant, so the newest one is unambiguous. */
  predicate DistinctCreation(rows: Rows, task: string) {
    forall j, k | 0 <= j < k < |rows| && rows[j].taskId == task && rows[k].taskId == task ::
      rows[j].created < rows[k].created
  }

  // ----- counting

  function Sends(log: Log, task: string): nat {
    if log == [] then 0
    else Sends(log[..|log| - 1], task)
         + if log[|log| - 1].Sent? && log[|log| - 1].taskId == task then 1 else 0
  }

  /** Authorized resends and AUTHENTICATED closes. */
  function Credits(log: Log, task: string): nat {
    if log == [] then 0
    else Credits(log[..|log| - 1], task)
         + if !log[|log| - 1].Sent? && log[|log| - 1].taskId == task then 1 else 0
  }

  lemma CountAppend(log: Log, e: Event, task: string)
    ensures Sends(log + [e], task) == Sends(log, task) + if e.Sent? && e.taskId == task then 1 else 0
    ensures Credits(log + [e], task) == Credits(log, task) + if !e.Sent? && e.taskId == task then 1 else 0
  {
    assert (log + [e])[..|log|] == log;
  }

  // ----- the invariant

  /** A further send needs no new authorization: the last attempt was never sent, or ended authenticated. */
  predicate CanSend(rows: Rows, task: string) {
    var i := LastIndex(rows, task);
    i < 0 || Permits(rows[i])
  }

  predicate RowOk(r: Row) {
    && (r.outcome.Prepared? ==> r.current && r.requestedAt.None?)
    && (SendPending(r.outcome) ==> r.requestedAt.Some? && r.cooldownUntil.Some?)
    && (r.outcome.ExternalObserved? ==> r.requestedAt.Some?)
    && (r.cooldownUntil.Some? ==> r.requestedAt.Some?)
    && (r.current ==> Active(r.outcome))
  }

  /** Structure of the table: identifiers, the partial unique indexes, insertion order and states. */
  predicate RowsOk(rows: Rows, time: real) {
    && (forall i, j | 0 <= i < j < |rows| :: rows[i].attemptId != rows[j].attemptId)
    && (forall i, j | 0 <= i < j < |rows| && rows[i].taskId == rows[j].taskId :: !rows[i].current)
    && (forall i, j | 0 <= i < j < |rows| :: rows[i].created <= rows[j].created)
    && (forall i, j | 0 <= i < j < |rows| && rows[i].resendCommand.Some? ::
          rows[i].resendCommand != rows[j].resendCommand)
    && (forall i | 0 <= i < |rows| :: rows[i].created <= time && RowOk(rows[i]))
  }

  /** A send that no AUTHENTICATED close of its task has followed. */
  predicate OpenSend(log: Log, k: int, task: string) {
    && 0 <= k < |log| && log[k].Sent? && log[k].taskId == task
    && forall m | k < m < |log| :: log[m] != AuthenticatedClose(task)
  }

  /** Every open send of the task is at least a minute before the instant. */
  ghost predicate Cooled(log: Log, task: string, instant: real) {
    forall k | OpenSend(log, k, task) :: log[k].at + 60.0 <= instant
  }

  predicate NoCloseBetween(log: Log, k: int, l: int, task: string)
    requires 0 <= k && l <= |log|
  {
    forall m | k < m < l :: log[m] != AuthenticatedClose(task)
  }

  /** Two sends of the task with no AUTHENTICATED close between them are a minute apart. */
  predicate Spaced(log: Log, task: string) {
    forall k, l | 0 <= k < l < |log| && log[k].Sent? && log[l].Sent? && log[k].taskId == log[l].taskId == task
               && NoCloseBetween(log, k, l, task) :: log[k].at + 60.0 <= log[l].at
  }

  /** Each attempt appears in at most one send, and a sent attempt is no longer prepared. */
  predicate SendsOnce(rows: Rows, log: Log) {
    && (forall k, l | 0 <= k < l < |log| && log[k].Sent? && log[l].Sent? :: log[k].attemptId != log[l].attemptId)
    && (forall k, i | 0 <= k < |log| && 0 <= i < |rows| && log[k].Sent? && rows[i].attemptId == log[k].attemptId ::
          !rows[i].outcome.Prepared?)
    && (forall k | 0 <= k < |log| && log[k].Sent? :: IndexOfAttempt(rows, log[k].attemptId) >= 0)
  }

  /** A permission that was spent without a send: an external wait, or the close of an attempt that was never sent. */
  predicate SpentUnsent(r: Row) {
    (r.requestedAt.Some? && r.cooldownUntil.None?) || (r.outcome.Authenticated? && r.requestedAt.None?)
  }

  /** How many permissions the attempts of the task have spent without a send. */
  function Spare(rows: Rows, task: string): nat {
    if rows == [] then 0
    else
      var last := rows[|rows| - 1];
      Spare(rows[..|rows| - 1], task) + if last.taskId == task && SpentUnsent(last) then 1 else 0
  }

  /** Every permission of the task is either used by a send, spent without one, or still there. A stale begin is one
      that opened an attempt although the last one forbade it; it has added a permission. */
  predicate Accounted(rows: Rows, log: Log, task: string, stale: nat) {
    Sends(log, task) + (if CanSend(rows, task) then 1 else 0) + Spare(rows, task) == 1 + Credits(log, task) + stale
  }

  /** The last attempt of the task was sent and not authenticated: its cooldown is the one of the open send. */
  predicate Cooling(rows: Rows, task: string) {
    var i := LastIndex(rows, task);
    i >= 0 && rows[i].cooldownUntil.Some? && !rows[i].outcome.Authenticated?
  }

  function CooldownEnd(rows: Rows, task: string): real
    requires Cooling(rows, task)
  {
    rows[LastIndex(rows, task)].cooldownUntil.value
  }

  /** The cooldown of one task, as the rows have it, is the one of the log. */
  ghost predicate CooldownOk(rows: Rows, log: Log, time: real, task: string) {
    if Cooling(rows, task) then
      && Cooled(log, task, CooldownEnd(rows, task))
      && exists k :: OpenSend(log, k, task) && log[k].at + 60.0 == CooldownEnd(rows, task)
    else Cooled(log, task, time)
  }

  /** What holds of one task after so many stale begins. */
  ghost predicate TaskOk(rows: Rows, log: Log, time: real, task: string, stale: nat) {
    Accounted(rows, log, task, stale) && (stale == 0 ==> Spaced(log, task) && CooldownOk(rows, log, time, task))
  }

  // ----- the answer of the query

  /** The code takes this row as permission for another attempt. */
  predicate Permits(r: Row) {
    r.requestedAt.None? || r.outcome.Authenticated?
  }

  /** The query may return an attempt that permits a send although the last one does not. */
  ghost predicate StaleChoice(rows: Rows, task: string) {
    (exists i :: MayBeNewest(rows, task, i) && Permits(rows[i])) && !CanSend(rows, task)
  }

  // ----- the row changes that the store makes

  function Fresh(id: string, task: string, origin: string, target: string, parent: Option<string>,
                 command: Option<string>, now: real): Row {
    Row(id, task, origin, target, Prepared, None, None, None, parent, command, true, now, now)
  }

  function SentRow(r: Row, now: real, ttl: real): Row {
    r.(outcome := SendUnknown, requestedAt := Some(now), deadline := Some(now + ttl),
       cooldownUntil := Some(now + 60.0), updated := now)
  }

  function ObservedRow(r: Row, now: real, ttl: real): Row {
    r.(outcome := ExternalObserved, requestedAt := Some(now), deadline := Some(now + ttl), updated := now)
  }

  function ClosedRow(r: Row, outcome: SendOutcome, now: real): Row {
    r.(current := false, outcome := outcome, updated := now)
  }

  /** Changing a row in place leaves the positions of every task as they were. */
  lemma {:induction false} SameLast(rows: Rows, i: nat, r: Row, task: string)
    requires i < |rows| && r.taskId == rows[i].taskId
    ensures LastIndex(rows[i := r], task) == LastIndex(rows, task)
  {
    var n := |rows| - 1;
    if i < n {
      assert rows[i := r][..n] == rows[..n][i := r];
      SameLast(rows[..n], i, r, task);
    } else {
      assert rows[i := r][..n] == rows[..n];
    }
  }

  lemma AppendLast(rows: Rows, r: Row, task: string)
    ensures LastIndex(rows + [r], task) == if r.taskId == task then |rows| else LastIndex(rows, task)
  {
    assert (rows + [r])[..|rows|] == rows;
  }

  /** A current row is the last row of its task. */
  lemma CurrentIsLast(rows: Rows, time: real, i: nat)
    requires RowsOk(rows, time) && i < |rows| && rows[i].current
    ensures LastIndex(rows, rows[i].taskId) == i
  {
    var last := LastIndex(rows, rows[i].taskId);
    assert !(i < last);
  }

  /** A current row may be the newest, and it is unique. */
  lemma CurrentIsNewest(rows: Rows, time: real, i: nat)
    requires RowsOk(rows, time) && i < |rows| && rows[i].current
    ensures MayBeNewest(rows, rows[i].taskId, i)
    ensures forall k | 0 <= k < |rows| && rows[k].taskId == rows[i].taskId && rows[k].current :: k == i
  {
    CurrentIsLast(rows, time, i);
    forall k | 0 <= k < |rows| && rows[k].taskId == rows[i].taskId && rows[k].current ensures k == i {
      CurrentIsLast(rows, time, k);
    }
  }

  /** With no two rows created at once, only the last row can be returned as the newest. */
  lemma NewestIsLast(rows: Rows, time: real, task: string, i: int)
    requires RowsOk(rows, time) && MayBeNewest(rows, task, i)
    requires DistinctCreation(rows, task)
    ensures i == LastIndex(rows, task)
  {
    var last := LastIndex(rows, task);
    assert rows[last].created <= rows[i].created;
  }

  // ----- preservation

  lemma RowIsOk(rows: Rows, time: real, i: nat)
    requires RowsOk(rows, time) && i < |rows|
    ensures RowOk(rows[i]) && rows[i].created <= time
  {
  }

  lemma LaterRowsOk(rows: Rows, time: real, later: real)
    requires RowsOk(rows, time) && time <= later
    ensures RowsOk(rows, later)
  {
  }

  /** A row changed in place keeps its identity and never becomes current again. */
  lemma UpdateRowsOk(rows: Rows, time: real, i: nat, r: Row)
    requires RowsOk(rows, time) && i < |rows| && RowOk(r) && (r.current ==> rows[i].current)
    requires r.attemptId == rows[i].attemptId && r.taskId == rows[i].taskId
    requires r.created == rows[i].created && r.resendCommand == rows[i].resendCommand
    ensures RowsOk(rows[i := r], time)
  {
  }

  /** A new row needs a new identity and no current row of its task. */
  lemma AppendRowsOk(rows: Rows, time: real, r: Row)
    requires RowsOk(rows, time) && RowOk(r) && r.created == time
    requires IndexOfAttempt(rows, r.attemptId) < 0 && IndexOfCurrent(rows, r.taskId) < 0
    requires r.resendCommand.Some? ==> IndexOfCommand(rows, r.resendCommand.value) < 0
    ensures RowsOk(rows + [r], time)
  {
    hide IndexOfAttempt, IndexOfCurrent, IndexOfCommand, RowOk;
    var grown := rows + [r];
    assert forall i | 0 <= i < |rows| :: grown[i] == rows[i];
    assert grown[|rows|] == r;
  }

  lemma SendsOnceUpdate(rows: Rows, log: Log, i: nat, r: Row)
    requires SendsOnce(rows, log) && i < |rows| && r.attemptId == rows[i].attemptId
    requires r.outcome.Prepared? ==> rows[i].outcome.Prepared?
    ensures SendsOnce(rows[i := r], log)
  {
    var changed := rows[i := r];
    forall k | 0 <= k < |log| && log[k].Sent? ensures IndexOfAttempt(changed, log[k].attemptId) >= 0 {
      var j := IndexOfAttempt(rows, log[k].attemptId);
      assert changed[j].attemptId == log[k].attemptId;
    }
  }

  lemma SendsOnceAppend(rows: Rows, log: Log, r: Row)
    requires SendsOnce(rows, log) && IndexOfAttempt(rows, r.attemptId) < 0
    ensures SendsOnce(rows + [r], log)
  {
    var grown := rows + [r];
    forall k | 0 <= k < |log| && log[k].Sent? ensures IndexOfAttempt(grown, log[k].attemptId) >= 0 {
      var j := IndexOfAttempt(rows, log[k].attemptId);
      assert grown[j].attemptId == log[k].attemptId;
    }
    assert forall k | 0 <= k < |log| && log[k].Sent? :: log[k].attemptId != r.attemptId;
    assert forall i | 0 <= i < |rows| :: grown[i] == rows[i];
  }

  /** Appending an event that is not a close keeps open sends open. */
  lemma OpenAppend(log: Log, e: Event, k: int, task: string)
    requires e != AuthenticatedClose(task)
    ensures OpenSend(log + [e], k, task) <==>
              OpenSend(log, k, task) || (k == |log| && e.Sent? && e.taskId == task)
  {
    var grown := log + [e];
    if OpenSend(log, k, task) {
      forall m | k < m < |grown| ensures grown[m] != AuthenticatedClose(task) {
        if m < |log| { assert grown[m] == log[m]; }
      }
    }
    if OpenSend(grown, k, task) && k < |log| {
      forall m | k < m < |log| ensures log[m] != AuthenticatedClose(task) { assert grown[m] == log[m]; }
    }
  }

  lemma CooledAppend(log: Log, e: Event, task: string, instant: real)
    requires e != AuthenticatedClose(task) && Cooled(log, task, instant)
    requires e.Sent? && e.taskId == task ==> e.at + 60.0 <= instant
    ensures Cooled(log + [e], task, instant)
  {
    forall k | OpenSend(log + [e], k, task) ensures (log + [e])[k].at + 60.0 <= instant {
      OpenAppend(log, e, k, task);
    }
  }

  lemma SpacedAppend(log: Log, e: Event, task: string)
    requires Spaced(log, task) && (e.Sent? && e.taskId == task ==> Cooled(log, task, e.at))
    ensures Spaced(log + [e], task)
  {
    var grown := log + [e];
    forall k, l | 0 <= k < l < |grown| && grown[k].Sent? && grown[l].Sent? && grown[k].taskId == grown[l].taskId == task
               && NoCloseBetween(grown, k, l, task)
      ensures grown[k].at + 60.0 <= grown[l].at
    {
      forall m | k < m < l && m < |log| ensures log[m] != AuthenticatedClose(task) { assert grown[m] == log[m]; }
      if l < |log| {
        assert NoCloseBetween(log, k, l, task);
      } else {
        assert OpenSend(log, k, task);
      }
    }
  }

  lemma {:induction false} SpareUpdate(rows: Rows, i: nat, r: Row, task: string)
    requires i < |rows| && r.taskId == rows[i].taskId
    ensures var counts := (q: Row) => if q.taskId == task && SpentUnsent(q) then 1 else 0;
            Spare(rows[i := r], task) == Spare(rows, task) - counts(rows[i]) + counts(r)
  {
    var n := |rows| - 1;
    if i < n {
      assert rows[i := r][..n] == rows[..n][i := r];
      SpareUpdate(rows[..n], i, r, task);
    } else {
      assert rows[i := r][..n] == rows[..n];
    }
  }

  lemma SpareAppend(rows: Rows, r: Row, task: string)
    ensures Spare(rows + [r], task) == Spare(rows, task) + if r.taskId == task && SpentUnsent(r) then 1 else 0
  {
    assert (rows + [r])[..|rows|] == rows;
  }

  /** Time may pass. */
  lemma LaterTask(rows: Rows, log: Log, time: real, later: real, task: string, stale: nat)
    requires TaskOk(rows, log, time, task, stale) && time <= later
    ensures TaskOk(rows, log, later, task, stale)
  {
  }

  /** An event of another task changes nothing. */
  lemma ElsewhereLog(rows: Rows, log: Log, time: real, e: Event, task: string, stale: nat)
    requires TaskOk(rows, log, time, task, stale) && e.taskId != task
    ensures TaskOk(rows, log + [e], time, task, stale)
  {
    CountAppend(log, e, task);
    if stale == 0 { SpacedAppend(log, e, task); }
    if stale > 0 {
    } else if Cooling(rows, task) {
      CooledAppend(log, e, task, CooldownEnd(rows, task));
      var k :| OpenSend(log, k, task) && log[k].at + 60.0 == CooldownEnd(rows, task);
      OpenAppend(log, e, k, task);
    } else {
      CooledAppend(log, e, task, time);
    }
  }

  /** A change to one row that sends nothing and permits nothing, or that belongs to another task. */
  lemma QuietUpdate(rows: Rows, log: Log, time: real, i: nat, r: Row, task: string, stale: nat)
    requires TaskOk(rows, log, time, task, stale) && i < |rows| && r.taskId == rows[i].taskId
    requires r.taskId == task ==>
               && r.requestedAt == rows[i].requestedAt && r.cooldownUntil == rows[i].cooldownUntil
               && (r.outcome.Authenticated? <==> rows[i].outcome.Authenticated?)
    ensures TaskOk(rows[i := r], log, time, task, stale)
  {
    SameLast(rows, i, r, task);
    SpareUpdate(rows, i, r, task);
  }

  /** A fresh attempt: of a task that can already send, of another task, or a stale one. */
  lemma BeginTask(rows: Rows, log: Log, time: real, r: Row, task: string, stale: nat)
    requires TaskOk(rows, log, time, task, stale)
    requires r.requestedAt.None? && r.cooldownUntil.None? && r.outcome.Prepared?
    requires forall k | 0 <= k < |rows| :: RowOk(rows[k])
    ensures TaskOk(rows + [r], log, time, task, stale + if r.taskId == task && !CanSend(rows, task) then 1 else 0)
  {
    AppendLast(rows, r, task);
    SpareAppend(rows, r, task);
  }

  /** The intent commits one send on the prepared current row. */
  lemma SendTask(rows: Rows, log: Log, time: real, i: nat, ttl: real, task: string, stale: nat)
    requires TaskOk(rows, log, time, task, stale) && RowsOk(rows, time) && i < |rows| && rows[i].outcome.Prepared?
    ensures TaskOk(rows[i := SentRow(rows[i], time, ttl)],
                   log + [Sent(rows[i].taskId, rows[i].attemptId, time)], time, task, stale)
  {
    var r, e := SentRow(rows[i], time, ttl), Sent(rows[i].taskId, rows[i].attemptId, time);
    if task == rows[i].taskId {
      CurrentIsLast(rows, time, i);
      SameLast(rows, i, r, task);
      SpareUpdate(rows, i, r, task);
      CountAppend(log, e, task);
      if stale == 0 {
        SpacedAppend(log, e, task);
        assert Cooled(log, task, time + 60.0);
        CooledAppend(log, e, task, time + 60.0);
        OpenAppend(log, e, |log|, task);
        assert OpenSend(log + [e], |log|, task);
      }
    } else {
      QuietUpdate(rows, log, time, i, r, task, stale);
      ElsewhereLog(rows[i := r], log, time, e, task, stale);
    }
  }

  /** An external wait spends the permitted send without recording one. */
  lemma ObserveTask(rows: Rows, log: Log, time: real, i: nat, ttl: real, task: string, stale: nat)
    requires TaskOk(rows, log, time, task, stale) && RowsOk(rows, time) && i < |rows| && rows[i].outcome.Prepared?
    ensures TaskOk(rows[i := ObservedRow(rows[i], time, ttl)], log, time, task, stale)
  {
    var r := ObservedRow(rows[i], time, ttl);
    CurrentIsLast(rows, time, i);
    SameLast(rows, i, r, task);
    SpareUpdate(rows, i, r, task);
  }

  /** A resend retires the cooled current attempt and opens a new one. */
  lemma ResendTask(rows: Rows, log: Log, time: real, i: nat, replacement: Row, command: string, task: string,
                   stale: nat)
    requires TaskOk(rows, log, time, task, stale) && RowsOk(rows, time) && i < |rows|
    requires rows[i].current && SendPending(rows[i].outcome)
    requires rows[i].cooldownUntil.Some? && rows[i].cooldownUntil.value <= time
    requires replacement.taskId == rows[i].taskId && replacement.outcome.Prepared?
    requires replacement.requestedAt.None? && replacement.cooldownUntil.None?
    ensures TaskOk(rows[i := rows[i].(current := false, updated := time)] + [replacement],
                   log + [ResendAuthorized(rows[i].taskId, command)], time, task, stale)
  {
    var r, e := rows[i].(current := false, updated := time), ResendAuthorized(rows[i].taskId, command);
    var changed := rows[i := r];
    SameLast(rows, i, r, task);
    SpareUpdate(rows, i, r, task);
    AppendLast(changed, replacement, task);
    SpareAppend(changed, replacement, task);
    if task == rows[i].taskId {
      CurrentIsLast(rows, time, i);
      CountAppend(log, e, task);
      if stale == 0 {
        SpacedAppend(log, e, task);
        CooledAppend(log, e, task, rows[i].cooldownUntil.value);
      }
    } else {
      ElsewhereLog(changed + [replacement], log, time, e, task, stale);
    }
  }

  /** An AUTHENTICATED close settles every open send of its task. */
  lemma AuthenticatedTask(rows: Rows, log: Log, time: real, i: nat, task: string, stale: nat)
    requires TaskOk(rows, log, time, task, stale) && RowsOk(rows, time) && i < |rows| && rows[i].current
    ensures TaskOk(rows[i := ClosedRow(rows[i], Authenticated, time)],
                   log + [AuthenticatedClose(rows[i].taskId)], time, task, stale)
  {
    var r, e := ClosedRow(rows[i], Authenticated, time), AuthenticatedClose(rows[i].taskId);
    if task == rows[i].taskId {
      CurrentIsLast(rows, time, i);
      SameLast(rows, i, r, task);
      SpareUpdate(rows, i, r, task);
      CountAppend(log, e, task);
      if stale == 0 { SpacedAppend(log, e, task); }
      assert (log + [e])[|log|] == AuthenticatedClose(task);
    } else {
      QuietUpdate(rows, log, time, i, r, task, stale);
      ElsewhereLog(rows[i := r], log, time, e, task, stale);
    }
  }

  // ----- what the history promises, and when it breaks

  /** Recorded sends never exceed one plus the authorized resends and AUTHENTICATED closes. */
  predicate WithinBound(log: Log, task: string) {
    Sends(log, task) <= 1 + Credits(log, task)
  }

  /** With stale begins, each of them adds at most one send. */
  lemma StaleBound(rows: Rows, log: Log, time: real, task: string, stale: nat)
    requires TaskOk(rows, log, time, task, stale)
    ensures Sends(log, task) <= 1 + Credits(log, task) + stale
  {
  }

  lemma TaskWithinBound(rows: Rows, log: Log, time: real, task: string)
    requires TaskOk(rows, log, time, task, 0)
    ensures WithinBound(log, task) && Spaced(log, task)
  {
  }

  /** When the query returned a permitting attempt: opening a fresh attempt and sending it keeps the bound exactly if
      the last attempt permits it or a permission was spent without a send, and keeps the spacing exactly if the last
      attempt permits it or its cooldown is over. Both conditions are on the rows that begin reads. */
  lemma {:induction false} BeginThenSendIff(rows: Rows, log: Log, time: real, r: Row, at: real)
    requires TaskOk(rows, log, time, r.taskId, 0) && time <= at && r.requestedAt.None? && r.outcome.Prepared?
    requires forall k | 0 <= k < |rows| :: RowOk(rows[k])
    ensures var task, grown := r.taskId, log + [Sent(r.taskId, r.attemptId, at)];
            && (WithinBound(grown, task) <==> CanSend(rows, task) || Spare(rows, task) > 0)
            && (Spaced(grown, task) <==>
                  CanSend(rows, task) || (Cooling(rows, task) ==> CooldownEnd(rows, task) <= at))
  {
    var task, e := r.taskId, Sent(r.taskId, r.attemptId, at);
    var grown := log + [e];
    CountAppend(log, e, task);
    if Cooling(rows, task) && CooldownEnd(rows, task) > at {
      var k :| OpenSend(log, k, task) && log[k].at + 60.0 == CooldownEnd(rows, task);
      forall m | k < m < |log| ensures grown[m] != AuthenticatedClose(task) { assert grown[m] == log[m]; }
      assert NoCloseBetween(grown, k, |log|, task) && grown[k] == log[k] && grown[|log|] == e;
    } else {
      SpacedAppend(log, e, task);
    }
  }

  /** The query is stale only if two attempts of the task were created at one instant. */
  lemma DistinctIsNeverStale(rows: Rows, time: real, task: string)
    requires RowsOk(rows, time) && DistinctCreation(rows, task)
    ensures !StaleChoice(rows, task)
  {
    forall i | MayBeNewest(rows, task, i) ensures i == LastIndex(rows, task) { NewestIsLast(rows, time, task, i); }
  }

  lemma TiesStay(rows: Rows, i: nat, r: Row, task: string)
    requires i < |rows| && r.taskId == rows[i].taskId && r.created == rows[i].created
    ensures DistinctCreation(rows[i := r], task) <==> DistinctCreation(rows, task)
  {
    var changed := rows[i := r];
    assert forall k | 0 <= k < |rows| :: changed[k].taskId == rows[k].taskId && changed[k].created == rows[k].created;
  }

  lemma TiesGrow(rows: Rows, r: Row, task: string)
    ensures DistinctCreation(rows + [r], task) ==> DistinctCreation(rows, task)
  {
    var grown := rows + [r];
    assert forall k | 0 <= k < |rows| :: grown[k] == rows[k];
  }
}
