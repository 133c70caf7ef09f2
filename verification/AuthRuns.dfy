/** Whole runs of the SMS attempt journal. */
module AuthRuns {
  import opened Results
  import opened AuthJournal
  import opened AuthAttempts

  /** One call of the store with everything that decides its outcome. */
  datatype Call =
    | BeginCall(task: Option<Task>, taskId: string, owner: string, host: Option<string>, returnTarget: string,
                newId: string, prefer: int, waits: Waits)
    | IntentCall(task: Option<Task>, attemptId: string, taskId: string, owner: string, waits: Waits)
    | ResendCall(task: Option<Task>, taskId: string, commandId: string, wellFormed: bool, revision: int,
                 newId: string, resumed: bool, wait: real)
    | ResultCall(attemptId: string, outcome: SendOutcome, wait: real)
    | ObserveCall(task: Option<Task>, attemptId: string, taskId: string, owner: string, waits: Waits)
    | ValidCall(taskId: string, expectedId: Option<string>, expectedHost: Option<string>, wait: real)
    | CloseCall(taskId: string, attemptId: string, outcome: SendOutcome, wait: real)

  method Perform(store: AuthAttemptStore, c: Call)
    requires store.Valid()
    modifies store
    ensures store.Valid() && old(store.log) <= store.log
  {
    match c {
      case BeginCall(task, taskId, owner, host, target, newId, prefer, waits) =>
        var r := store.Begin(task, taskId, owner, host, target, newId, prefer, waits);
      case IntentCall(task, attemptId, taskId, owner, waits) =>
        var r := store.RecordSendIntent(task, attemptId, taskId, owner, waits);
      case ResendCall(task, taskId, commandId, wellFormed, revision, newId, resumed, wait) =>
        var r := store.AuthorizeResend(task, taskId, commandId, wellFormed, revision, newId, resumed, wait);
      case ResultCall(attemptId, outcome, wait) =>
        var r := store.RecordSendResult(attemptId, outcome, wait);
      case ObserveCall(task, attemptId, taskId, owner, waits) =>
        var r := store.ObserveExternalWait(task, attemptId, taskId, owner, waits);
      case ValidCall(taskId, attemptId, host, wait) =>
        var r := store.ValidWait(taskId, attemptId, host, wait);
      case CloseCall(taskId, attemptId, outcome, wait) =>
        var r := store.Close(taskId, attemptId, outcome, wait);
    }
  }

  /** Any sequence of calls: every task whose attempts were created at distinct instants has its sends within the bound
      and spaced; for every task each begin that opened an attempt over an open send adds at most one send; and every
      attempt of every task sends at most once. */
  method RunCalls(calls: seq<Call>, seconds: int, start: real) returns (store: AuthAttemptStore)
    ensures store.Valid() && fresh(store)
    ensures forall task | DistinctCreation(store.rows, task) ::
              WithinBound(store.log, task) && Spaced(store.log, task)
    ensures forall task :: Sends(store.log, task) <= 1 + Credits(store.log, task) + store.misread[task]
    ensures SendsOnce(store.rows, store.log)
  {
    store := new AuthAttemptStore(seconds, start);
    for i := 0 to |calls|
      invariant store.Valid() && fresh(store)
    {
      Perform(store, calls[i]);
    }
    forall task | DistinctCreation(store.rows, task)
      ensures WithinBound(store.log, task) && Spaced(store.log, task)
    {
      TaskWithinBound(store.rows, store.log, store.time, task);
    }
    forall task ensures Sends(store.log, task) <= 1 + Credits(store.log, task) + store.misread[task] {
      StaleBound(store.rows, store.log, store.time, task, store.misread[task]);
    }
  }

  method OpenAndSend(store: AuthAttemptStore, task: Option<Task>, taskId: string, owner: string, host: string,
                     returnTarget: string, newId: string, prefer: int, waits: Waits, sending: Waits)
    requires store.Valid() && taskId !in store.misread
    requires Leased(task, owner, After(store.time, waits.0)) && task.value.targetUrl == returnTarget
    requires task.value.targetHost == Some(host)
    requires Leased(task, owner, After(After(After(store.time, waits.0), waits.1), sending.0))
    requires IndexOfCurrent(store.rows, taskId) < 0 && IndexOfAttempt(store.rows, newId) < 0
    requires MayBeNewest(store.rows, taskId, prefer) && Permits(store.rows[prefer])
    modifies store
    ensures store.Valid()
    ensures store.time == After(After(After(After(old(store.time), waits.0), waits.1), sending.0), sending.1)
    ensures store.log == old(store.log) + [Sent(taskId, newId, store.time)]
  {
    hide RowsOk, TaskOk, SendsOnce, DistinctCreation, StaleChoice, CanSend, IndexOfAttempt, IndexOfCurrent, LastIndex;
    ghost var rows := store.rows;
    MayBeNewestLast(rows, taskId, prefer);
    hide MayBeNewest;
    var begun := store.Begin(task, taskId, owner, Some(host), returnTarget, newId, prefer, waits);
    OnlyAttempt(rows, begun.value);
    var r := store.RecordSendIntent(task, newId, taskId, owner, sending);
  }

  lemma MayBeNewestLast(rows: Rows, task: string, i: int)
    requires MayBeNewest(rows, task, i)
    ensures LastIndex(rows, task) >= 0
  {
  }

  /** A begin for which the query prefers a permitting attempt, and the send of the attempt that it opens. The send
      keeps the bound and the spacing exactly under conditions on the rows that begin has read. */
  method BeginThenSend(store: AuthAttemptStore, task: Option<Task>, taskId: string, owner: string, host: string,
                       returnTarget: string, newId: string, prefer: int, waits: Waits, sending: Waits)
    requires store.Valid() && taskId !in store.misread
    requires Leased(task, owner, After(store.time, waits.0)) && task.value.targetUrl == returnTarget
    requires task.value.targetHost == Some(host)
    requires Leased(task, owner, After(After(After(store.time, waits.0), waits.1), sending.0))
    requires IndexOfCurrent(store.rows, taskId) < 0 && IndexOfAttempt(store.rows, newId) < 0
    requires MayBeNewest(store.rows, taskId, prefer) && Permits(store.rows[prefer])
    modifies store
    ensures store.Valid()
    ensures store.time == After(After(After(After(old(store.time), waits.0), waits.1), sending.0), sending.1)
    ensures store.log == old(store.log) + [Sent(taskId, newId, store.time)]
    ensures WithinBound(store.log, taskId) <==>
            !StaleChoice(old(store.rows), taskId) || Spare(old(store.rows), taskId) > 0
    ensures Spaced(store.log, taskId) <==>
            !StaleChoice(old(store.rows), taskId)
            || (Cooling(old(store.rows), taskId) ==> CooldownEnd(old(store.rows), taskId) <= store.time)
  {
    ghost var rows, log, time := store.rows, store.log, store.time;
    assert StaleChoice(rows, taskId) <==> !CanSend(rows, taskId);
    AllRowsOk(rows, time);
    OpenAndSend(store, task, taskId, owner, host, returnTarget, newId, prefer, waits, sending);
    BeginThenSendIff(rows, log, time, Fresh(newId, taskId, host, returnTarget, None, None, time), store.time);
    hide RowsOk, TaskOk, SendsOnce, DistinctCreation, StaleChoice, MayBeNewest, CanSend, Spaced, WithinBound, Cooling,
      RowOk, Spare;
  }

  lemma OnlyAttempt(rows: Rows, row: Row)
    requires IndexOfAttempt(rows, row.attemptId) < 0
    ensures IndexOfAttempt(rows + [row], row.attemptId) == |rows|
  {
  }

  const STOPPED: Waits := (0.0, 0.0)
  const LEASED := Task(Some("o"), 100.0, "u", Some("h"), 0, false)

  const OLDER := ClosedRow(Fresh("a", "t", "h", "u", None, None, 5.0), Cancelled, 5.0)
  const NEWER := Fresh("b", "t", "h", "u", None, None, 5.0)

  /** The first attempt is cancelled before it was sent. */
  method OlderRow() returns (store: AuthAttemptStore)
    ensures fresh(store) && store.Valid() && store.misread == multiset{} && store.time == 5.0
    ensures store.rows == [OLDER] && store.log == []
  {
    hide RowsOk, TaskOk, SendsOnce, DistinctCreation, StaleChoice;
    store := new AuthAttemptStore(300, 5.0);
    var older := store.Begin(Some(LEASED), "t", "o", Some("h"), "u", "a", -1, STOPPED);
    assert store.rows == [Fresh("a", "t", "h", "u", None, None, 5.0)];
    var cancelled := store.Close("t", "a", Cancelled, 0.0);
  }

  /** The second attempt, begun at the same instant. */
  method NewerRow() returns (store: AuthAttemptStore)
    ensures fresh(store) && store.Valid() && store.misread == multiset{} && store.time == 5.0
    ensures store.rows == [OLDER, NEWER] && store.log == []
  {
    hide RowsOk, TaskOk, SendsOnce, DistinctCreation, StaleChoice, MayBeNewest, CanSend, IndexOfAttempt, IndexOfCurrent,
      LastIndex, Spare;
    store := OlderRow();
    OneRow(OLDER);
    var newer := store.Begin(Some(LEASED), "t", "o", Some("h"), "u", "b", 0, STOPPED);
  }

  /** It is sent. */
  method NewerSent() returns (store: AuthAttemptStore)
    ensures fresh(store) && store.Valid() && store.misread == multiset{} && store.time == 5.0
    ensures store.rows == [OLDER, SentRow(NEWER, 5.0, store.ttl)] && store.log == [Sent("t", "b", 5.0)]
  {
    hide RowsOk, TaskOk, SendsOnce, DistinctCreation, StaleChoice, MayBeNewest, CanSend, IndexOfAttempt, IndexOfCurrent,
      LastIndex, Spare;
    store := NewerRow();
    TwoRows(OLDER, NEWER);
    var sent := store.RecordSendIntent(Some(LEASED), "b", "t", "o", STOPPED);
  }

  /** And it expires. */
  method TiedRows() returns (store: AuthAttemptStore)
    ensures fresh(store) && store.Valid() && store.misread == multiset{} && store.time == 5.0
    ensures store.rows == [OLDER, ClosedRow(SentRow(NEWER, 5.0, store.ttl), Expired, 5.0)]
    ensures store.log == [Sent("t", "b", 5.0)]
  {
    hide RowsOk, TaskOk, SendsOnce, DistinctCreation, StaleChoice, MayBeNewest, CanSend, IndexOfAttempt, IndexOfCurrent,
      LastIndex, Spare;
    store := NewerSent();
    TwoRows(OLDER, SentRow(NEWER, 5.0, store.ttl));
    var expired := store.Close("t", "b", Expired, 0.0);
  }

  lemma OneRow(first: Row)
    requires first.attemptId == "a" && first.taskId == "t" && !first.current
    ensures IndexOfCurrent([first], "t") < 0 && IndexOfAttempt([first], "b") < 0
    ensures MayBeNewest([first], "t", 0) && LastIndex([first], "t") == 0 && CanSend([first], "t") == Permits(first)
  {
    assert [first][..0] == [] && "a"[0] != "b"[0];
  }

  lemma TwoRows(first: Row, second: Row)
    requires first.attemptId == "a" && second.attemptId == "b" && first.taskId == second.taskId == "t"
    ensures IndexOfAttempt([first, second], "b") == 1 && IndexOfAttempt([first, second], "c") < 0
    ensures first.created == second.created ==> MayBeNewest([first, second], "t", 0)
    ensures LastIndex([first, second], "t") == 1
    ensures !first.current && !second.current ==> IndexOfCurrent([first, second], "t") < 0
    ensures !SpentUnsent(first) && !SpentUnsent(second) ==> Spare([first, second], "t") == 0
  {
    assert [first, second][..1] == [first] && [first][..0] == [];
    assert "a"[0] != "b"[0] && "a"[0] != "c"[0] && "b"[0] != "c"[0];
    assert IndexOfAttempt([first], "c") < 0 && IndexOfCurrent([], "t") < 0 && Spare([], "t") == 0;
    assert !SpentUnsent(first) ==> Spare([first], "t") == 0;
    assert !first.current ==> IndexOfCurrent([first], "t") < 0;
  }

  /** A run of store calls with a stopped clock in which a task sends twice, with no resend and no authentication, and
      with no time between the sends. */
  method TiedRun() returns (store: AuthAttemptStore)
    ensures fresh(store) && store.Valid() && store.log == [Sent("t", "b", 5.0), Sent("t", "c", 5.0)]
    ensures !WithinBound(store.log, "t") && !Spaced(store.log, "t")
  {
    store := TiedRows();
    TwoRows(store.rows[0], store.rows[1]);
    BeginThenSend(store, Some(LEASED), "t", "o", "h", "u", "c", 0, STOPPED, STOPPED);
  }
}
