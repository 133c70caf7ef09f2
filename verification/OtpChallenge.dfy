/** ApplicationExecutor._resolve_otp_challenge: one SMS challenge on one page. */
module OtpChallenge {
  import opened Results

  /** What a challenge check of the adapter reports; AuthLost is a lost browser. */
  datatype Auth = NoAuth | OneTimeCode | OtherAuth | AuthLost

  /** The block reasons of a run. */
  datatype Why =
    | HumanHandling | HostnameUnavailable | AttemptUnverified | JournalUnavailable | OtpFieldUnavailable
    | ReturnTargetUnverified | ConfirmationUnavailable | ChallengeRemains | RelayFailed | PhoneRequiredFirst
    | ConsentRequiredFirst | SmsControlsUnavailable
    | AccountUnverified | RowsUnverified | ManifestUnverified | ObservationUnavailable | AuthenticationField
    | StructureUnsupported | AttachmentUnverified | FillPlanUnverified | FillFailed | UserInputRequired
    | ValidationFailed | ConsistencyFailed | DraftUnverified | ProjectCoverageUnproven | ReviewFailed
    | NoControl | PageLimit

  /** How a run ends without READY. */
  datatype Halt = Blocked(reason: Why) | Raised

  /** The journal's answer to begin_attempt. */
  datatype Attempt = NoJournal | BeginRefused | NoAttempt | Began(prepared: bool)

  datatype Prepare =
    | NotNeeded | Requested | AlreadyRequested | PhoneRequired | ConsentRequired | Unavailable | Lost

  datatype Code = NoCode | Malformed | Digits

  /** The answers of the bridge, the journal and the adapter, in the order in which they are asked. */
  datatype OtpAnswers = OtpAnswers(
    enabled: bool, hostname: bool, attempt: Attempt, live: bool, fieldUnique: bool,
    prepare: Prepare, observed: bool, afterPrepare: Auth, code: Code, entry: Option<bool>,
    afterEntry: Auth, confirmation: Option<bool>, afterConfirmation: Auth, returned: bool)

  /** The verdict and the effects on the way to it. */
  datatype OtpRun = OtpRun(verdict: Outcome<Halt>, asked: bool, entered: bool, confirmed: bool, completed: bool,
                           last: Auth)

  predicate HasAttempt(a: OtpAnswers) {
    a.attempt.Began?
  }

  /** The answer of prepare_one_time_code_auth, asked only while the attempt is PREPARED. */
  function Prepared(a: OtpAnswers): Prepare {
    if HasAttempt(a) && !a.attempt.prepared then AlreadyRequested
    else if HasAttempt(a) && a.prepare == NotNeeded && (a.live || !a.observed) then Unavailable
    else a.prepare
  }

  /** Everything up to the first challenge check after the send. */
  function Admission(a: OtpAnswers): Outcome<Halt> {
    if !a.enabled then Fail(Blocked(HumanHandling))
    else if !a.hostname then Fail(Blocked(HostnameUnavailable))
    else if a.attempt.BeginRefused? then Fail(Blocked(AttemptUnverified))
    else if a.attempt.NoJournal? && a.live then Fail(Blocked(JournalUnavailable))
    else Need(a.fieldUnique, Blocked(OtpFieldUnavailable))
  }

  function Finish(a: OtpAnswers, before: OtpRun): OtpRun {
    if HasAttempt(a) && !a.returned
    then before.(verdict := Fail(Blocked(ReturnTargetUnverified)))
    else before.(verdict := Pass, completed := HasAttempt(a))
  }

  function Confirm(a: OtpAnswers, before: OtpRun): OtpRun {
    if a.confirmation.None? then before.(verdict := Fail(Raised))
    else if !a.confirmation.value
    then before.(verdict := Fail(Blocked(ConfirmationUnavailable)))
    else
      var done := before.(confirmed := true, last := a.afterConfirmation);
      match a.afterConfirmation
      case NoAuth => Finish(a, done)
      case AuthLost => done.(verdict := Fail(Raised))
      case _ => done.(verdict := Fail(Blocked(ChallengeRemains)))
  }

  function Enter(a: OtpAnswers, before: OtpRun): OtpRun {
    if a.code.NoCode? then before.(verdict := Fail(Blocked(RelayFailed)))
    else if a.code.Digits? && a.entry.None? then before.(verdict := Fail(Raised))
    else if a.code.Malformed? || !a.entry.value
    then before.(verdict := Fail(Blocked(OtpFieldUnavailable)))
    else
      var done := before.(entered := true, last := a.afterEntry);
      match a.afterEntry
      case NoAuth => Finish(a, done)
      case OneTimeCode => Confirm(a, done)
      case OtherAuth => done.(verdict := Fail(Blocked(ChallengeRemains)))
      case AuthLost => done.(verdict := Fail(Raised))
  }

  function ResolveOtp(a: OtpAnswers): OtpRun {
    var start := OtpRun(Pass, false, false, false, false, OneTimeCode);
    if Admission(a).Fail? then start.(verdict := Admission(a))
    else
      var begun := start.(asked := !(HasAttempt(a) && !a.attempt.prepared));
      var prepare := Prepared(a);
      if prepare == Lost then begun.(verdict := Fail(Raised))
      else if prepare == PhoneRequired
      then begun.(verdict := Fail(Blocked(PhoneRequiredFirst)))
      else if prepare == ConsentRequired
      then begun.(verdict := Fail(Blocked(ConsentRequiredFirst)))
      else if prepare == Unavailable
      then begun.(verdict := Fail(Blocked(SmsControlsUnavailable)))
      else
        var seen := begun.(last := a.afterPrepare);
        match a.afterPrepare
        case NoAuth => Finish(a, seen)
        case OneTimeCode => Enter(a, seen)
        case OtherAuth => seen.(verdict := Fail(Blocked(HumanHandling)))
        case AuthLost => seen.(verdict := Fail(Raised))
  }

  /** No challenge is left when the run goes on; a journal attempt is completed only then, on the verified return
      target; a confirmation follows an entered code. */
  predicate Sound(a: OtpAnswers, r: OtpRun) {
    && (r.verdict.Pass? ==> r.last == NoAuth && (HasAttempt(a) ==> r.completed && a.returned))
    && (r.completed ==> r.verdict.Pass? && HasAttempt(a))
    && (r.confirmed ==> r.entered)
    && (r.entered ==> a.code.Digits?)
  }

  lemma EnterSound(a: OtpAnswers, before: OtpRun)
    requires !before.completed && !before.confirmed && !before.entered
    ensures Sound(a, Enter(a, before)) && Enter(a, before).asked == before.asked
  {
    hide Sound;
    if a.code.Digits? && a.entry == Some(true) {
      var done := before.(entered := true, last := a.afterEntry);
      if a.afterEntry == OneTimeCode {
        assert Enter(a, before) == Confirm(a, done);
        ConfirmSound(a, done);
      } else {
        assert Sound(a, Enter(a, before)) by { PlainEntrySound(a, before); }
      }
    } else {
      PlainEntrySound(a, before);
    }
  }

  lemma PlainEntrySound(a: OtpAnswers, before: OtpRun)
    requires !before.completed && !before.confirmed && !before.entered
    requires a.code.Digits? && a.entry == Some(true) ==> a.afterEntry != OneTimeCode
    ensures Sound(a, Enter(a, before)) && Enter(a, before).asked == before.asked
  {
    hide Confirm;
  }

  lemma ConfirmSound(a: OtpAnswers, before: OtpRun)
    requires a.code.Digits? && !before.completed && before.entered
    ensures Sound(a, Confirm(a, before)) && Confirm(a, before).asked == before.asked
  {
  }

  /** Whatever the bridge, the journal and the page answer, the challenge is resolved soundly; no send is prepared for
      an attempt that may already have sent, and none on a live site without the journal. */
  lemma OtpPasses(a: OtpAnswers)
    ensures Sound(a, ResolveOtp(a))
    ensures HasAttempt(a) && !a.attempt.prepared ==> !ResolveOtp(a).asked
    ensures a.live && ResolveOtp(a).asked ==> HasAttempt(a) || a.attempt.NoAttempt?
  {
    hide Enter, Prepared;
    if Admission(a).Pass? {
      var begun := OtpRun(Pass, !(HasAttempt(a) && !a.attempt.prepared), false, false, false, OneTimeCode);
      EnterSound(a, begun.(last := a.afterPrepare));
    }
  }
}
