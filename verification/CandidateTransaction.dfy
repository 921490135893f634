/** One complete candidate transaction: open, lock, load, diff, check or commit, then
    revert and unlock, under a deadline and a cancellation, against a device that may
    answer, refuse, lose a reply or hang at every RPC. */
module CandidateTransaction {
  import opened Prelude

  datatype Mode = DryRun | CommitCheck | CommitWithComment | CommitConfirmed | Discard

  /** What is loaded; a rollback archive takes precedence over a payload. */
  datatype Request = Request(mode: Mode, payload: bool, rollbackSource: bool)

  // ----- errors -----

  datatype ErrorTag =
    | OperationFailed | InvalidValue | MissingElement | BadElement | UnknownElement
    | MissingAttribute | BadAttribute | UnknownAttribute | DataMissing | DataExists
    | AccessDenied | LockDenied | ResourceDenied | OperationNotSupported | InUse
    | TooBig | MalformedMessage | RollbackFailed | UnknownNamespace | OtherTag

  datatype DeviceError = ServerError(tag: ErrorTag) | Inconclusive

  datatype Error =
    | Cancelled
    | Timeout
    | Validation
    | Device(cause: DeviceError)
    | CandidateCleanupFailed(primary: Primary, rollback: Option<CleanupError>, unlock: Option<CleanupError>)

  /** What the caller is told of the operation whose cleanup failed. */
  datatype Primary = Nothing | CommitSucceeded | Failed(cause: Error) | Reported(error: DeviceError)

  datatype CleanupError = TimedOut | Answered(error: DeviceError)

  datatype CheckOutcome = Valid | Invalid(error: DeviceError) | CheckFailed(error: DeviceError)

  datatype CandidateResult =
    | DryRunDone
    | CommitChecked(outcome: CheckOutcome)
    | Committed
    | CommitFailed(error: DeviceError)
    | Discarded

  predicate IsConfigRejection(tag: ErrorTag) {
    match tag
    case OperationFailed => true
    case InvalidValue => true
    case MissingElement => true
    case BadElement => true
    case UnknownElement => true
    case MissingAttribute => true
    case BadAttribute => true
    case UnknownAttribute => true
    case DataMissing => true
    case DataExists => true
    case _ => false
  }

  function ClassifyCheckError(e: DeviceError): CheckOutcome {
    if e.ServerError? && IsConfigRejection(e.tag) then Invalid(e) else CheckFailed(e)
  }

  predicate Interrupted(e: Error) { e.Cancelled? || e.Timeout? }

  // ----- what goes over the wire -----

  datatype Op = OpenOp | LockOp | LoadOp | DiffOp | CheckOp | CommitOp | RollbackOp | UnlockOp | CloseOp

  /** An RPC that was sent and what the caller learned: an acknowledgement, an error
      reply, or nothing because the call was dropped by a deadline or cancellation. */
  datatype Answer = Acked | Refused(error: DeviceError) | Dropped

  datatype Sent = Sent(op: Op, answer: Answer)

  function Times(op: Op, log: seq<Sent>): nat {
    if log == [] then 0 else Times(op, log[..|log| - 1]) + (if log[|log| - 1].op == op then 1 else 0)
  }

  lemma {:induction false} TimesAppend(op: Op, a: seq<Sent>, b: seq<Sent>)
    ensures Times(op, a + b) == Times(op, a) + Times(op, b)
  {
    if b == [] {
      assert a + b == a;
    } else {
      TimesAppend(op, a, b[..|b| - 1]);
      assert (a + b)[..|a + b| - 1] == a + b[..|b| - 1];
    }
  }

  lemma {:induction false} TimesZero(op: Op, log: seq<Sent>)
    requires forall x :: x in log ==> x.op != op
    ensures Times(op, log) == 0
  {
    if log != [] {
      assert forall x :: x in log[..|log| - 1] ==> x in log;
      TimesZero(op, log[..|log| - 1]);
    }
  }

  /** The device as this transaction's session can affect it. `locked` and `ours` say
      whether our lock and our uncommitted change are there; `dirty` whether the
      candidate is modified by anyone; `published` whether we changed the running
      configuration. */
  datatype DeviceState = DeviceState(locked: bool, ours: bool, dirty: bool, published: bool)

  /** An RPC that reaches the device. Any load may dirty the candidate even when it is
      then refused. The lock is granted only on an unmodified, unlocked candidate. */
  predicate CanTakeEffect(d: DeviceState, op: Op) {
    op == LockOp ==> !d.locked && !d.dirty && !d.ours
  }

  function Effect(d: DeviceState, op: Op): DeviceState
    requires CanTakeEffect(d, op)
  {
    match op
    case LockOp => d.(locked := true)
    case LoadOp => d.(ours := true, dirty := true)
    case CommitOp => d.(ours := false, dirty := false, published := true)
    case RollbackOp => d.(ours := false, dirty := false)
    case UnlockOp => d.(locked := false)
    case CloseOp => d.(locked := false, ours := false)
    case _ => d
  }

  datatype Execution = Execution(result: Result<CandidateResult, Error>, reusable: bool)

  datatype CleanupFailures = CleanupFailures(rollback: Option<CleanupError>, unlock: Option<CleanupError>)

  predicate CleanedUp(c: CleanupFailures) { c.rollback.None? && c.unlock.None? }

  function Combine(outcome: Result<CandidateResult, Error>, cleanup: CleanupFailures,
                   reported: Primary): Result<CandidateResult, Error> {
    if CleanedUp(cleanup) then outcome
    else
      Err(CandidateCleanupFailed(if outcome.Err? then Failed(outcome.error) else reported, cleanup.rollback, cleanup.unlock))
  }

  function ReportedPrimary(outcome: Result<CandidateResult, Error>): Primary {
    match outcome
    case Ok(Committed) => CommitSucceeded
    case Ok(CommitChecked(Invalid(e))) => Reported(e)
    case Ok(CommitChecked(CheckFailed(e))) => Reported(e)
    case Ok(CommitFailed(e)) => Reported(e)
    case _ => Nothing
  }

  /** Number of cleanup budgets the advertised worst case allows for. */
  const CLEANUP_PHASES: nat := 4

  function WorstCaseDuration(operationTimeout: nat, cleanupTimeout: nat): (d: nat)
    ensures d == operationTimeout + 4 * cleanupTimeout
  {
    operationTimeout + cleanupTimeout * CLEANUP_PHASES
  }

  // ----- the session's armed discard -----

  /** Whether the session carries an armed discard after these RPCs: from the first load or
      revert sent on, until a commit that was acknowledged, if that clears it. */
  function Armed(log: seq<Sent>, clears: bool): bool {
    if log == [] then false
    else
      var last := log[|log| - 1];
      if last.op == LoadOp || last.op == RollbackOp then true
      else if last == Sent(CommitOp, Acked) && clears then false
      else Armed(log[..|log| - 1], clears)
  }

  /** It takes a load or a revert to arm it. */
  lemma {:induction false} ArmedByALoad(log: seq<Sent>, clears: bool)
    requires Armed(log, clears)
    ensures exists s :: s in log && (s.op == LoadOp || s.op == RollbackOp)
  {
    var last := log[|log| - 1];
    if last.op != LoadOp && last.op != RollbackOp {
      ArmedByALoad(log[..|log| - 1], clears);
    }
  }

  /** The discard is armed at the end, unless a commit was acknowledged and cleared it. */
  ghost predicate EndsArmed(log: seq<Sent>) {
    forall clears :: Armed(log, clears) <==> !(clears && Sent(CommitOp, Acked) in log)
  }

  lemma ArmedSnoc(log: seq<Sent>, s: Sent, clears: bool)
    ensures Armed(log + [s], clears) ==
            if s.op == LoadOp || s.op == RollbackOp then true
            else if s == Sent(CommitOp, Acked) && clears then false
            else Armed(log, clears)
  {
    assert (log + [s])[..|log|] == log;
  }

  /** A locked execution: a commit is followed by the unlock only, anything else by a revert. */
  lemma LockedEndsArmed(primary: seq<Sent>, cleaned: seq<Sent>, committed: bool)
    requires committed <==> Sent(CommitOp, Acked) in primary
    requires committed ==> primary == [Sent(LoadOp, Acked), Sent(DiffOp, Acked), Sent(CommitOp, Acked)]
    requires |cleaned| == (if committed then 1 else 2) && cleaned[|cleaned| - 1].op == UnlockOp
    requires !committed ==> cleaned[0].op == RollbackOp
    ensures EndsArmed([Sent(LockOp, Acked)] + primary + cleaned)
  {
    var lock, unlock := [Sent(LockOp, Acked)], cleaned[|cleaned| - 1];
    forall clears
      ensures Armed(lock + primary + cleaned, clears) <==> !(clears && Sent(CommitOp, Acked) in lock + primary + cleaned)
    {
      if committed {
        assert lock + primary + cleaned == lock + [Sent(LoadOp, Acked)] + [Sent(DiffOp, Acked)] + [Sent(CommitOp, Acked)] + [unlock];
        ArmedSnoc(lock, Sent(LoadOp, Acked), clears);
        ArmedSnoc(lock + [Sent(LoadOp, Acked)], Sent(DiffOp, Acked), clears);
        ArmedSnoc(lock + [Sent(LoadOp, Acked)] + [Sent(DiffOp, Acked)], Sent(CommitOp, Acked), clears);
        ArmedSnoc(lock + [Sent(LoadOp, Acked)] + [Sent(DiffOp, Acked)] + [Sent(CommitOp, Acked)], unlock, clears);
        assert (lock + primary + cleaned)[3] == Sent(CommitOp, Acked);
      } else {
        assert cleaned == [cleaned[0]] + [unlock];
        assert lock + primary + cleaned == lock + primary + [cleaned[0]] + [unlock];
        ArmedSnoc(lock + primary, cleaned[0], clears);
        ArmedSnoc(lock + primary + [cleaned[0]], unlock, clears);
      }
    }
  }

  // ----- what a finished execution may look like -----

  predicate IsCommit(m: Mode) { m.CommitWithComment? || m.CommitConfirmed? }

  /** Our lock may be at the device: it was acknowledged, or the lock step was cut off
      by the deadline or a cancellation and nothing is known. */
  predicate LockAcquiredOrUnknown(log: seq<Sent>) {
    !(|log| == 1 && log[0].op == LockOp && log[0].answer.Refused?)
  }

  /** The history of one locking execution and what it must imply. */
  ghost predicate LockingHistory(m: Mode, log: seq<Sent>, x: Execution) {
    SentOnce(log) && Verdict(m, log, x) && Told(m, log, x.result)
  }

  /** One unlock exactly when our lock may be there, and at most one commit. */
  predicate SentOnce(log: seq<Sent>) {
    && Times(UnlockOp, log) == (if LockAcquiredOrUnknown(log) then 1 else 0)
    && Times(CommitOp, log) <= 1
  }

  ghost predicate Verdict(m: Mode, log: seq<Sent>, x: Execution) {
    && (Sent(CommitOp, Acked) in log ==> forall s :: s in log ==> s.op != RollbackOp)
    && (x.result == Ok(Committed) <==> Sent(CommitOp, Acked) in log && Sent(UnlockOp, Acked) in log)
    && (x.reusable ==>
          && Sent(LockOp, Acked) in log
          && (Sent(CommitOp, Acked) in log || Sent(RollbackOp, Acked) in log)
          && Sent(UnlockOp, Acked) in log
          && !exists s :: s in log && s.answer == Dropped)
    && (x.result.Ok? ==> x.reusable)
    && (!IsCommit(m) ==> forall s :: s in log ==> s.op != CommitOp)
    && x.result != Ok(Discarded)
  }

  // ----- what the caller is told -----

  /** The answers to a check that are about the configuration itself. */
  const CONTENT_TAGS: set<ErrorTag> :=
    {OperationFailed, InvalidValue, MissingElement, BadElement, UnknownElement, MissingAttribute, BadAttribute,
     UnknownAttribute, DataMissing, DataExists}

  predicate ContentRejected(e: DeviceError) { e.ServerError? && e.tag in CONTENT_TAGS }

  predicate Fits(m: Mode, c: CandidateResult) {
    match m
    case DryRun => c.DryRunDone?
    case CommitCheck => c.CommitChecked?
    case Discard => c.Discarded?
    case _ => c.Committed? || c.CommitFailed?
  }

  /** Setting up was refused with this error. */
  predicate SetUpRefused(log: seq<Sent>, e: DeviceError) {
    Sent(LockOp, Refused(e)) in log || Sent(LoadOp, Refused(e)) in log || Sent(DiffOp, Refused(e)) in log
  }

  /** A result says what the device answered: which check passed, which was a rejection of
      the configuration and which settled nothing, and what refused a commit or the steps
      before it. */
  ghost predicate ResultTold(m: Mode, log: seq<Sent>, r: Result<CandidateResult, Error>) {
    && (r.Ok? ==> Fits(m, r.value))
    && (r == Ok(DryRunDone) <==> m == DryRun && Sent(DiffOp, Acked) in log)
    && (r == Ok(CommitChecked(Valid)) <==> Sent(CheckOp, Acked) in log)
    && (forall e :: r == Ok(CommitChecked(Invalid(e))) <==> Sent(CheckOp, Refused(e)) in log && ContentRejected(e))
    && (forall e :: r == Ok(CommitChecked(CheckFailed(e))) <==> Sent(CheckOp, Refused(e)) in log && !ContentRejected(e))
    && (r == Ok(Committed) <==> Sent(CommitOp, Acked) in log)
    && (forall e :: r == Ok(CommitFailed(e)) <==> Sent(CommitOp, Refused(e)) in log)
    && (forall e :: r == Err(Device(e)) <==> SetUpRefused(log, e))
  }

  /** The same answers, as they are told beside a failed cleanup. */
  ghost predicate PrimaryTold(m: Mode, log: seq<Sent>, p: Primary) {
    && (p == CommitSucceeded <==> Sent(CommitOp, Acked) in log)
    && (p == Nothing <==> Sent(CheckOp, Acked) in log || (m == DryRun && Sent(DiffOp, Acked) in log))
    && (forall e :: p == Reported(e) <==> Sent(CheckOp, Refused(e)) in log || Sent(CommitOp, Refused(e)) in log)
    && (forall e :: p == Failed(Device(e)) <==> SetUpRefused(log, e))
  }

  /** One cleanup phase: nothing if it was acknowledged, or not needed. */
  ghost predicate PhaseTold(op: Op, log: seq<Sent>, failure: Option<CleanupError>) {
    && (failure == Some(TimedOut) <==> Sent(op, Dropped) in log)
    && (forall e :: failure == Some(Answered(e)) <==> Sent(op, Refused(e)) in log)
  }

  predicate StepTold(failure: Option<CleanupError>, a: Answer) {
    match a
    case Acked => failure.None?
    case Refused(e) => failure == Some(Answered(e))
    case Dropped => failure == Some(TimedOut)
  }

  /** Some cleanup phase was not acknowledged. */
  ghost predicate CleanupFell(log: seq<Sent>) {
    exists s :: s in log && (s.op == RollbackOp || s.op == UnlockOp) && s.answer != Acked
  }

  /** A failed cleanup takes the place of the result and carries it, with each phase's
      failure; any other result is told as it is. */
  ghost predicate Told(m: Mode, log: seq<Sent>, r: Result<CandidateResult, Error>) {
    && (r.Err? && r.error.CandidateCleanupFailed? <==> CleanupFell(log))
    && (if r.Err? && r.error.CandidateCleanupFailed? then
          && PrimaryTold(m, log, r.error.primary)
          && PhaseTold(RollbackOp, log, r.error.rollback) && PhaseTold(UnlockOp, log, r.error.unlock)
        else ResultTold(m, log, r))
  }

  /** Lock, operation and cleanup each answer for their own. */
  predicate Parts(lock: seq<Sent>, primary: seq<Sent>, cleaned: seq<Sent>) {
    && (forall s | s in lock :: s.op == LockOp && !s.answer.Refused?)
    && (forall s | s in primary :: s.op == LoadOp || s.op == DiffOp || s.op == CheckOp || s.op == CommitOp)
    && 1 <= |cleaned| <= 2 && cleaned[|cleaned| - 1].op == UnlockOp && (|cleaned| == 2 ==> cleaned[0].op == RollbackOp)
  }

  lemma PartsTold(m: Mode, lock: seq<Sent>, primary: seq<Sent>, cleaned: seq<Sent>,
                  outcome: Result<CandidateResult, Error>, cleanup: CleanupFailures)
    requires Parts(lock, primary, cleaned) && ResultTold(m, primary, outcome)
    requires outcome.Err? ==> !outcome.error.CandidateCleanupFailed?
    requires outcome != Ok(Discarded)
    requires if |cleaned| == 2 then StepTold(cleanup.rollback, cleaned[0].answer) else cleanup.rollback.None?
    requires StepTold(cleanup.unlock, cleaned[|cleaned| - 1].answer)
    ensures Told(m, lock + primary + cleaned, Combine(outcome, cleanup, ReportedPrimary(outcome)))
  {
    var sent := lock + primary + cleaned;
    var r := Combine(outcome, cleanup, ReportedPrimary(outcome));
    PartsSent(lock, primary, cleaned, sent);
    assert CleanupFell(sent) <==> !CleanedUp(cleanup) by {
      CleanupFalls(cleaned, sent, cleanup);
    }
    if CleanedUp(cleanup) {
      SameResultTold(m, primary, sent, outcome);
    } else {
      PhasesTold(cleaned, sent, cleanup);
      SameResultTold(m, primary, sent, outcome);
      ResultAsPrimary(m, sent, outcome);
    }
  }

  lemma PartsSent(lock: seq<Sent>, primary: seq<Sent>, cleaned: seq<Sent>, sent: seq<Sent>)
    requires Parts(lock, primary, cleaned) && sent == lock + primary + cleaned
    ensures forall s :: s in primary ==> s in sent
    ensures forall s :: s in cleaned ==> s in sent
    ensures forall s :: s in sent && (s.op == LoadOp || s.op == DiffOp || s.op == CheckOp || s.op == CommitOp) ==> s in primary
    ensures forall s :: s in sent && (s.op == RollbackOp || s.op == UnlockOp) ==> s in cleaned
    ensures forall s :: s in sent && s.op == LockOp ==> !s.answer.Refused?
  {
    forall s | s in sent ensures s in lock || s in primary || s in cleaned {}
    assert forall s :: s in cleaned ==> s == cleaned[0] || s == cleaned[|cleaned| - 1];
  }

  lemma SameResultTold(m: Mode, primary: seq<Sent>, sent: seq<Sent>, r: Result<CandidateResult, Error>)
    requires ResultTold(m, primary, r) && forall s :: s in primary ==> s in sent
    requires forall s :: s in sent && (s.op == LoadOp || s.op == DiffOp || s.op == CheckOp || s.op == CommitOp) ==> s in primary
    requires forall s :: s in sent && s.op == LockOp ==> !s.answer.Refused?
    requires forall s :: s in primary ==> s.op != LockOp
    ensures ResultTold(m, sent, r)
  {
    forall e ensures SetUpRefused(sent, e) <==> SetUpRefused(primary, e) {}
  }

  lemma ResultAsPrimary(m: Mode, sent: seq<Sent>, outcome: Result<CandidateResult, Error>)
    requires ResultTold(m, sent, outcome) && outcome != Ok(Discarded)
    ensures PrimaryTold(m, sent, if outcome.Err? then Failed(outcome.error) else ReportedPrimary(outcome))
  {}

  lemma CleanupFalls(cleaned: seq<Sent>, sent: seq<Sent>, cleanup: CleanupFailures)
    requires 1 <= |cleaned| <= 2 && cleaned[|cleaned| - 1].op == UnlockOp && (|cleaned| == 2 ==> cleaned[0].op == RollbackOp)
    requires forall s :: s in cleaned ==> s in sent
    requires forall s :: s in sent && (s.op == RollbackOp || s.op == UnlockOp) ==> s in cleaned
    requires if |cleaned| == 2 then StepTold(cleanup.rollback, cleaned[0].answer) else cleanup.rollback.None?
    requires StepTold(cleanup.unlock, cleaned[|cleaned| - 1].answer)
    ensures CleanupFell(sent) <==> !CleanedUp(cleanup)
  {
    assert cleaned[0] in cleaned && cleaned[|cleaned| - 1] in cleaned;
    assert forall s :: s in cleaned ==> s == cleaned[0] || s == cleaned[|cleaned| - 1];
  }

  lemma PhasesTold(cleaned: seq<Sent>, sent: seq<Sent>, cleanup: CleanupFailures)
    requires 1 <= |cleaned| <= 2 && cleaned[|cleaned| - 1].op == UnlockOp && (|cleaned| == 2 ==> cleaned[0].op == RollbackOp)
    requires forall s :: s in cleaned ==> s in sent
    requires forall s :: s in sent && (s.op == RollbackOp || s.op == UnlockOp) ==> s in cleaned
    requires if |cleaned| == 2 then StepTold(cleanup.rollback, cleaned[0].answer) else cleanup.rollback.None?
    requires StepTold(cleanup.unlock, cleaned[|cleaned| - 1].answer)
    ensures PhaseTold(RollbackOp, sent, cleanup.rollback) && PhaseTold(UnlockOp, sent, cleanup.unlock)
  {
    assert cleaned[0] in cleaned && cleaned[|cleaned| - 1] in cleaned;
    assert forall s :: s in cleaned ==> s == cleaned[0] || s == cleaned[|cleaned| - 1];
  }

  /** The history of a discard: one revert, no lock, nothing else. */
  ghost predicate DiscardHistory(log: seq<Sent>, x: Execution) {
    && (log == [] || (|log| == 1 && log[0].op == RollbackOp))
    && (x.result == Ok(Discarded) <==> log == [Sent(RollbackOp, Acked)])
    && (x.result.Ok? ==> x.result == Ok(Discarded))
    && (forall e :: x.result == Err(Device(e)) <==> log == [Sent(RollbackOp, Refused(e))])
    && (x.reusable <==> x.result.Ok?)
  }

  /** The possible answers to a commit check, and to a commit. */
  ghost predicate CheckAnswer(r: Result<CandidateResult, Error>, sent: seq<Sent>) {
    || (r.Err? && Interrupted(r.error) && (sent == [] || sent == [Sent(CheckOp, Dropped)]))
    || (r == Ok(CommitChecked(Valid)) && sent == [Sent(CheckOp, Acked)])
    || (exists e :: sent == [Sent(CheckOp, Refused(e))]
                    && r == Ok(CommitChecked(if ContentRejected(e) then Invalid(e) else CheckFailed(e))))
  }

  ghost predicate CommitAnswer(r: Result<CandidateResult, Error>, sent: seq<Sent>) {
    || (r.Err? && Interrupted(r.error) && sent == [])
    || (r == Ok(Committed) && sent == [Sent(CommitOp, Acked)])
    || (exists e :: sent == [Sent(CommitOp, Refused(e))] && r == Ok(CommitFailed(e)))
  }

  /** What an operation sent, and what it told of it. */
  ghost predicate OperationDone(m: Mode, sent: seq<Sent>, r: Result<CandidateResult, Error>) {
    && (forall s :: s in sent ==> s.op == LoadOp || s.op == DiffOp || s.op == CheckOp || s.op == CommitOp)
    && Times(CommitOp, sent) <= 1 && (!IsCommit(m) ==> forall s :: s in sent ==> s.op != CommitOp)
    && (r == Ok(Committed) <==> Sent(CommitOp, Acked) in sent)
    && (r == Ok(Committed) ==> sent == [Sent(LoadOp, Acked), Sent(DiffOp, Acked), Sent(CommitOp, Acked)])
    && r != Ok(Discarded) && ResultTold(m, sent, r)
    && (r.Err? ==> !r.error.CandidateCleanupFailed?)
    && ((r.Err? && Interrupted(r.error)) || forall s :: s in sent ==> s.answer != Dropped)
  }

  lemma CheckTold(prepared: seq<Sent>, sent: seq<Sent>, r: Result<CandidateResult, Error>)
    requires prepared == [Sent(LoadOp, Acked), Sent(DiffOp, Acked)] && CheckAnswer(r, sent)
    ensures OperationDone(CommitCheck, prepared + sent, r)
  {
    PreparedAnd(prepared, sent);
    assert ResultTold(CommitCheck, prepared + sent, r);
    TimesZero(CommitOp, prepared + sent);
  }

  lemma CommitTold(m: Mode, prepared: seq<Sent>, sent: seq<Sent>, r: Result<CandidateResult, Error>)
    requires IsCommit(m) && prepared == [Sent(LoadOp, Acked), Sent(DiffOp, Acked)] && CommitAnswer(r, sent)
    ensures OperationDone(m, prepared + sent, r)
    ensures sent == [] ==> forall s :: s in prepared + sent ==> s.op != CommitOp
  {
    PreparedAnd(prepared, sent);
    CommitResultTold(m, sent, prepared + sent, r);
    assert Times(CommitOp, prepared + sent) <= 1 by {
      TimesAppend(CommitOp, prepared, sent);
      TimesZero(CommitOp, prepared);
    }
  }

  lemma PreparedAnd(prepared: seq<Sent>, sent: seq<Sent>)
    requires prepared == [Sent(LoadOp, Acked), Sent(DiffOp, Acked)]
    ensures forall s :: s in prepared + sent <==> s == Sent(LoadOp, Acked) || s == Sent(DiffOp, Acked) || s in sent
  {}

  lemma CommitResultTold(m: Mode, sent: seq<Sent>, all: seq<Sent>, r: Result<CandidateResult, Error>)
    requires IsCommit(m) && CommitAnswer(r, sent)
    requires forall s :: s in all <==> s == Sent(LoadOp, Acked) || s == Sent(DiffOp, Acked) || s in sent
    ensures ResultTold(m, all, r)
  {}

  lemma DryRunTold()
    ensures OperationDone(DryRun, [Sent(LoadOp, Acked), Sent(DiffOp, Acked)], Ok(DryRunDone))
  {
    var prepared := [Sent(LoadOp, Acked), Sent(DiffOp, Acked)];
    TimesZero(CommitOp, prepared);
    assert prepared[1] in prepared;
  }

  lemma NotPrepared(m: Mode, sent: seq<Sent>, e: Error)
    requires forall s :: s in sent ==> s.op == LoadOp || s.op == DiffOp
    requires !e.CandidateCleanupFailed? && Sent(DiffOp, Acked) !in sent
    requires Interrupted(e) || forall s :: s in sent ==> s.answer != Dropped
    requires forall d :: e == Device(d) <==> SetUpRefused(sent, d)
    ensures OperationDone(m, sent, Err(e))
  {
    TimesZero(CommitOp, sent);
  }

  /** What an operation and its cleanup promise together. */
  ghost predicate LockedParts(m: Mode, primary: seq<Sent>, cleaned: seq<Sent>,
                              outcome: Result<CandidateResult, Error>, committed: bool, cleanup: CleanupFailures) {
    // the operation
    && OperationDone(m, primary, outcome) && committed == (outcome == Ok(Committed))
    // the cleanup
    && |cleaned| == (if committed then 1 else 2) && cleaned[|cleaned| - 1].op == UnlockOp
    && (if committed then cleanup.rollback.None?
        else cleaned[0].op == RollbackOp && StepTold(cleanup.rollback, cleaned[0].answer))
    && StepTold(cleanup.unlock, cleaned[|cleaned| - 1].answer)
  }

  class Backend {
    var device: DeviceState
    var log: seq<Sent>
    var now: nat
    var commitTime: nat
    /** When a commit was last sent. */
    var commitSentAt: Option<nat>
    /** When the caller cancels, if ever. */
    const cancelAt: Option<nat>
    const cleanupTimeout: nat

    constructor (device: DeviceState, now: nat, cancelAt: Option<nat>, cleanupTimeout: nat)
      ensures this.device == device && log == [] && this.now == now && commitTime == 0 && commitSentAt == None
      ensures this.cancelAt == cancelAt && this.cleanupTimeout == cleanupTimeout
    {
      this.device, this.now, this.cancelAt, this.cleanupTimeout := device, now, cancelAt, cleanupTimeout;
      log, commitTime, commitSentAt := [], 0, None;
    }

    /** The caller has cancelled by this time. */
    predicate CancelledBy(time: nat) { cancelAt.Some? && cancelAt.value <= time }

    /** An operation that reports an interruption was interrupted: by the caller, or by the
        deadline. */
    ghost predicate Blames(e: Error, deadline: nat)
      reads this`now
    {
      && (e == Cancelled ==> CancelledBy(now)) && (e == Timeout ==> now >= deadline)
      && (e.CandidateCleanupFailed? ==>
            && (e.primary == Failed(Cancelled) ==> CancelledBy(now))
            && (e.primary == Failed(Timeout) ==> now >= deadline))
    }

    /** The commit was sent before the deadline and before the caller cancelled. */
    ghost predicate SentInTime(deadline: nat)
      reads this`commitSentAt
    {
      commitSentAt.Some? && commitSentAt.value < deadline && !CancelledBy(commitSentAt.value)
    }

    function EnsureActive(deadline: nat): Option<Error>
      reads this`now
    {
      if cancelAt.Some? && cancelAt.value <= now then Some(Cancelled)
      else if now >= deadline then Some(Timeout)
      else None
    }

    /** Send `op` and wait at most until `limit`, or until the cancellation if the step
        heeds it. The device acts or not, and answers after any latency or never; an
        acknowledgement means it acted, a cut-off call may land all the same. */
    method Send(op: Op, limit: nat, heedsCancel: bool) returns (answer: Answer, cause: DeviceError, cancelled: bool)
      requires now <= limit
      modifies this`device, this`log, this`now
      ensures log == old(log) + [Sent(op, answer)]
      ensures old(now) <= now <= limit
      ensures cancelled ==> answer == Dropped && heedsCancel && CancelledBy(now)
      ensures answer == Dropped && !cancelled ==> now == limit
      ensures answer.Refused? ==> cause == answer.error
      ensures answer == Acked ==> CanTakeEffect(old(device), op) && device == Effect(old(device), op)
      ensures device == old(device) || (CanTakeEffect(old(device), op) && device == Effect(old(device), op))
    {
      var acts: bool, answers: bool, ok: bool, latency: nat := *, *, *, *;
      cause := *;
      var effective := acts && CanTakeEffect(device, op);
      if effective { device := Effect(device, op); }
      var cut := if heedsCancel && cancelAt.Some? && now <= cancelAt.value <= limit then cancelAt.value else limit;
      var cancelFirst := heedsCancel && cancelAt.Some? && now <= cancelAt.value <= limit;
      cancelled := false;
      if answers && (if cancelFirst then now + latency < cut else now + latency <= cut) {
        now := now + latency;
        answer := if ok && effective then Acked else Refused(cause);
      } else {
        now := cut;
        answer, cancelled := Dropped, cancelFirst;
      }
      log := log + [Sent(op, answer)];
    }

    /** A step of the operation proper, bounded by the deadline and the cancellation. */
    method RunStep(op: Op, deadline: nat) returns (r: Result<(), Error>, ghost sent: seq<Sent>)
      modifies this`device, this`log, this`now
      ensures log == old(log) + sent
      ensures old(now) <= now && (now <= deadline || now == old(now))
      ensures r.Ok? ==> sent == [Sent(op, Acked)] && CanTakeEffect(old(device), op) && device == Effect(old(device), op)
      ensures r.Err? && Interrupted(r.error) ==> sent == [] || sent == [Sent(op, Dropped)]
      ensures r.Err? && !Interrupted(r.error) ==> r.error.Device? && sent == [Sent(op, Refused(r.error.cause))]
      ensures sent == [] ==> device == old(device)
      ensures device == old(device) || (CanTakeEffect(old(device), op) && device == Effect(old(device), op))
      // nothing is sent once the caller has cancelled or the deadline is over
      ensures sent == [] <==> CancelledBy(old(now)) || old(now) >= deadline
      ensures sent == [] ==> r == Err(if CancelledBy(old(now)) then Cancelled else Timeout)
      ensures r.Err? ==> Blames(r.error, deadline)
    {
      var idle := EnsureActive(deadline);
      if idle.Some? {
        return Err(idle.value), [];
      }
      var answer, cause, cancelled := Send(op, deadline, true);
      sent := [Sent(op, answer)];
      r := match answer
        case Acked => Ok(())
        case Refused(_) => Err(Device(cause))
        case Dropped => Err(if cancelled then Cancelled else Timeout);
    }

    /** A cleanup phase, bounded by its own budget only. */
    method CleanupStep(op: Op) returns (failure: Option<CleanupError>, ghost answer: Answer)
      modifies this`device, this`log, this`now
      ensures log == old(log) + [Sent(op, answer)]
      ensures old(now) <= now <= old(now) + cleanupTimeout
      ensures StepTold(failure, answer)
      ensures answer == Acked ==> CanTakeEffect(old(device), op) && device == Effect(old(device), op)
      ensures device == old(device) || (CanTakeEffect(old(device), op) && device == Effect(old(device), op))
    {
      var a, cause, _ := Send(op, now + cleanupTimeout, false);
      answer := a;
      failure := match a
        case Acked => None
        case Refused(_) => Some(Answered(cause))
        case Dropped => Some(TimedOut);
    }

    /** The commit RPC: once sent it is waited for, however long the device takes. */
    method SendCommit() returns (r: Result<(), DeviceError>)
      modifies this`device, this`log, this`now, this`commitTime, this`commitSentAt
      ensures log == old(log) + [Sent(CommitOp, if r.Ok? then Acked else Refused(r.error))]
      ensures old(now) <= now && commitTime >= old(commitTime) && now - old(now) == commitTime - old(commitTime)
      ensures commitSentAt == Some(old(now))
      ensures r.Ok? ==> device == Effect(old(device), CommitOp)
      ensures device == old(device) || device == Effect(old(device), CommitOp)
    {
      var acts: bool, ok: bool, latency: nat, cause: DeviceError := *, *, *, *;
      if acts { device := Effect(device, CommitOp); }
      commitSentAt := Some(now);
      now, commitTime := now + latency, commitTime + latency;
      r := if ok && acts then Ok(()) else Err(cause);
      log := log + [Sent(CommitOp, if r.Ok? then Acked else Refused(r.error))];
    }

    method Cleanup(rollbackRequired: bool) returns (c: CleanupFailures, ghost sent: seq<Sent>)
      modifies this`device, this`log, this`now
      ensures log == old(log) + sent
      ensures old(now) <= now <= old(now) + 2 * cleanupTimeout
      ensures |sent| == (if rollbackRequired then 2 else 1) && sent[|sent| - 1].op == UnlockOp
      ensures if rollbackRequired then sent[0].op == RollbackOp && StepTold(c.rollback, sent[0].answer) else c.rollback.None?
      ensures StepTold(c.unlock, sent[|sent| - 1].answer)
      ensures c.unlock.None? ==> !device.locked
      ensures rollbackRequired && c.rollback.None? ==> !device.ours
      ensures !old(device).ours ==> !device.ours
      ensures device.published == old(device).published
    {
      var rollback := None;
      sent := [];
      if rollbackRequired {
        ghost var a;
        rollback, a := CleanupStep(RollbackOp);
        sent := [Sent(RollbackOp, a)];
      }
      ghost var b;
      var unlock;
      unlock, b := CleanupStep(UnlockOp);
      sent := sent + [Sent(UnlockOp, b)];
      c := CleanupFailures(rollback, unlock);
    }

    /** Load, diff, and whatever the mode asks for. `committed` is set by an
        acknowledged commit and by nothing else. */
    method PrimaryOperation(request: Request, deadline: nat)
      returns (r: Result<CandidateResult, Error>, committed: bool, ghost sent: seq<Sent>)
      requires request.mode != Discard
      modifies this`device, this`log, this`now, this`commitTime, this`commitSentAt
      ensures log == old(log) + sent
      ensures OperationDone(request.mode, sent, r) && committed == (r == Ok(Committed))
      ensures r == Err(Validation) <==> !request.rollbackSource && !request.payload
      ensures r.Err? ==> Blames(r.error, deadline)
      ensures forall s :: s in sent && s.op == CommitOp ==> SentInTime(deadline)
      ensures committed ==> !device.ours
      ensures device.locked == old(device).locked
      ensures !IsCommit(request.mode) ==> device.published == old(device).published
      ensures old(now) <= now && commitTime >= old(commitTime)
      ensures now <= (if old(now) < deadline then deadline else old(now)) + (commitTime - old(commitTime))
      ensures !IsCommit(request.mode) ==> commitTime == old(commitTime)
    {
      committed := false;
      var failure, prepared := Prepare(request, deadline);
      sent := prepared;
      if failure.Some? {
        NotPrepared(request.mode, sent, failure.value);
        return Err(failure.value), false, sent;
      }
      if request.mode == DryRun {
        r := Ok(DryRunDone);
        DryRunTold();
      } else if request.mode == CommitCheck {
        var checked, sentCheck := CommitCheckStep(deadline);
        r, sent := checked, prepared + sentCheck;
        CheckTold(prepared, sentCheck, r);
      } else {
        var answered, sentCommit := CommitStep(deadline);
        r, committed, sent := answered, answered == Ok(Committed), prepared + sentCommit;
        CommitTold(request.mode, prepared, sentCommit, r);
      }
    }

    /** The commit check. A refusal is an answer like any other; only an interruption leaves
        the operation without one. */
    method CommitCheckStep(deadline: nat) returns (r: Result<CandidateResult, Error>, ghost sent: seq<Sent>)
      modifies this`device, this`log, this`now
      ensures log == old(log) + sent && CheckAnswer(r, sent)
      ensures r.Err? ==> Blames(r.error, deadline)
      ensures device.locked == old(device).locked && device.published == old(device).published
      ensures old(now) <= now && (now <= deadline || now == old(now))
    {
      var checked, sentCheck := RunStep(CheckOp, deadline);
      sent := sentCheck;
      if checked.Err? && Interrupted(checked.error) { return Err(checked.error), sent; }
      r := Ok(CommitChecked(if checked.Ok? then Valid else ClassifyCheckError(checked.error.cause)));
    }

    /** A commit is only sent while the operation is active, and then waited for. */
    method CommitStep(deadline: nat) returns (r: Result<CandidateResult, Error>, ghost sent: seq<Sent>)
      modifies this`device, this`log, this`now, this`commitTime, this`commitSentAt
      ensures log == old(log) + sent && CommitAnswer(r, sent)
      ensures r.Err? ==> Blames(r.error, deadline)
      ensures sent == [] <==> CancelledBy(old(now)) || old(now) >= deadline
      ensures sent != [] ==> commitSentAt == Some(old(now))
      ensures r == Ok(Committed) ==> !device.ours
      ensures device.locked == old(device).locked
      ensures old(now) <= now && commitTime >= old(commitTime) && now - old(now) == commitTime - old(commitTime)
    {
      var idle := EnsureActive(deadline);
      if idle.Some? { return Err(idle.value), []; }
      var answer := SendCommit();
      sent := [Sent(CommitOp, if answer.Ok? then Acked else Refused(answer.error))];
      r := if answer.Ok? then Ok(Committed) else Ok(CommitFailed(answer.error));
    }

    /** Load the archive or the payload, then take the diff. */
    method Prepare(request: Request, deadline: nat) returns (failure: Option<Error>, ghost sent: seq<Sent>)
      modifies this`device, this`log, this`now
      ensures log == old(log) + sent
      ensures forall s :: s in sent ==> s.op == LoadOp || s.op == DiffOp
      ensures failure.None? ==> sent == [Sent(LoadOp, Acked), Sent(DiffOp, Acked)]
      ensures failure == Some(Validation) <==> !request.rollbackSource && !request.payload
      ensures forall e :: failure == Some(Device(e)) <==> SetUpRefused(sent, e)
      ensures failure.Some? ==> Blames(failure.value, deadline)
      ensures failure.Some? ==> !failure.value.CandidateCleanupFailed? && Sent(DiffOp, Acked) !in sent
      ensures (failure.Some? && Interrupted(failure.value)) || forall s :: s in sent ==> s.answer != Dropped
      ensures device.locked == old(device).locked && device.published == old(device).published
      ensures old(now) <= now && (now <= deadline || now == old(now))
    {
      if !request.rollbackSource && !request.payload {
        return Some(Validation), [];
      }
      var loaded, sentLoad := RunStep(LoadOp, deadline);
      if loaded.Err? { return Some(loaded.error), sentLoad; }
      var diffed, sentDiff := RunStep(DiffOp, deadline);
      return if diffed.Err? then Some(diffed.error) else None, sentLoad + sentDiff;
    }

    method Execute(request: Request, deadline: nat) returns (x: Execution, ghost sent: seq<Sent>)
      modifies this`device, this`log, this`now, this`commitTime, this`commitSentAt
      ensures log == old(log) + sent
      ensures request.mode == Discard ==> DiscardHistory(sent, x)
      ensures request.mode != Discard ==> LockingHistory(request.mode, sent, x)
      ensures x.result.Err? ==> Blames(x.result.error, deadline)
      ensures forall s :: s in sent && s.op == CommitOp ==> SentInTime(deadline)
      ensures x.reusable ==> !device.ours && (request.mode == Discard || !device.locked) && EndsArmed(sent)
      ensures request.mode == Discard ==> device.locked == old(device).locked
      ensures !IsCommit(request.mode) ==> device.published == old(device).published && commitTime == old(commitTime)
      ensures old(now) <= now && commitTime >= old(commitTime)
      ensures now <= (if old(now) < deadline then deadline else old(now)) + 2 * cleanupTimeout + (commitTime - old(commitTime))
    {
      if request.mode == Discard {
        x, sent := ExecuteDiscard(deadline);
        return;
      }
      var locked, sentLock := RunStep(LockOp, deadline);
      if locked.Ok? {
        x, sent := ExecuteLocked(request, deadline);
        return;
      }
      if !Interrupted(locked.error) {
        RefusedHistoryHolds(request.mode, locked.error.cause);
        return Execution(Err(locked.error), false), sentLock;
      }
      x, sent := CleanUpAfterLock(request.mode, locked.error, sentLock, deadline);
    }

    /** A discard: one revert, without a lock. */
    method ExecuteDiscard(deadline: nat) returns (x: Execution, ghost sent: seq<Sent>)
      modifies this`device, this`log, this`now
      ensures log == old(log) + sent && DiscardHistory(sent, x)
      ensures x.result.Err? ==> Blames(x.result.error, deadline)
      ensures x.reusable ==> !device.ours && EndsArmed(sent)
      ensures device.locked == old(device).locked && device.published == old(device).published
      ensures old(now) <= now && (now <= deadline || now == old(now))
    {
      var reverted, s := RunStep(RollbackOp, deadline);
      ArmedSnoc([], Sent(RollbackOp, Acked), true);
      ArmedSnoc([], Sent(RollbackOp, Acked), false);
      assert [] + [Sent(RollbackOp, Acked)] == [Sent(RollbackOp, Acked)];
      return if reverted.Ok? then Execution(Ok(Discarded), true) else Execution(Err(reverted.error), false), s;
    }

    /** A lock that was interrupted may be there all the same: the whole cleanup is tried. */
    method CleanUpAfterLock(ghost m: Mode, e: Error, ghost sentLock: seq<Sent>, ghost deadline: nat)
      returns (x: Execution, ghost sent: seq<Sent>)
      requires m != Discard && Interrupted(e) && (sentLock == [] || sentLock == [Sent(LockOp, Dropped)]) && Blames(e, deadline)
      modifies this`device, this`log, this`now
      ensures sentLock <= sent && log == old(log) + sent[|sentLock|..] && LockingHistory(m, sent, x) && !x.reusable
      ensures (forall s :: s in sent ==> s.op != CommitOp) && (x.result.Err? ==> Blames(x.result.error, deadline))
      ensures device.published == old(device).published
      ensures old(now) <= now <= old(now) + 2 * cleanupTimeout
    {
      var cleanup, sentCleanup := Cleanup(true);
      sent := sentLock + sentCleanup;
      x := Execution(Combine(Err(e), cleanup, Nothing), false);
      BehindTheLock(sentLock, sentCleanup);
      assert LockingHistory(m, sent, x) by { InterruptedHistoryHolds(m, e, sentLock, sentCleanup, cleanup); }
    }

    lemma RefusedHistoryHolds(m: Mode, e: DeviceError)
      requires m != Discard
      ensures LockingHistory(m, [Sent(LockOp, Refused(e))], Execution(Err(Device(e)), false))
    {
      var sent := [Sent(LockOp, Refused(e))];
      TimesZero(UnlockOp, sent);
      TimesZero(CommitOp, sent);
      assert sent[0] in sent;
    }

    lemma BehindTheLock(sentLock: seq<Sent>, cleaned: seq<Sent>)
      requires (sentLock == [] || sentLock == [Sent(LockOp, Dropped)])
      requires |cleaned| == 2 && cleaned[0].op == RollbackOp && cleaned[1].op == UnlockOp
      ensures sentLock <= sentLock + cleaned && (sentLock + cleaned)[|sentLock|..] == cleaned
      ensures forall s :: s in sentLock + cleaned ==> s.op != CommitOp
    {}

    lemma InterruptedHistoryHolds(m: Mode, e: Error, sentLock: seq<Sent>, cleaned: seq<Sent>, cleanup: CleanupFailures)
      requires m != Discard && Interrupted(e) && (sentLock == [] || sentLock == [Sent(LockOp, Dropped)])
      requires |cleaned| == 2 && cleaned[0].op == RollbackOp && cleaned[1].op == UnlockOp
      requires StepTold(cleanup.rollback, cleaned[0].answer) && StepTold(cleanup.unlock, cleaned[1].answer)
      ensures LockingHistory(m, sentLock + cleaned, Execution(Combine(Err(e), cleanup, Nothing), false))
    {
      var sent := sentLock + cleaned;
      BehindTheLock(sentLock, cleaned);
      assert sentLock + [] + cleaned == sent;
      assert SentOnce(sent) by {
        UnlockedOnce(sentLock, [], cleaned);
        TimesZero(CommitOp, sent);
      }
      assert Told(m, sent, Combine(Err(e), cleanup, Nothing)) by { PartsTold(m, sentLock, [], cleaned, Err(e), cleanup); }
    }

    /** The rest of an execution whose lock was acknowledged. */
    method ExecuteLocked(request: Request, deadline: nat) returns (x: Execution, ghost sent: seq<Sent>)
      requires request.mode != Discard
      modifies this`device, this`log, this`now, this`commitTime, this`commitSentAt
      ensures [Sent(LockOp, Acked)] <= sent && log == old(log) + sent[1..]
      ensures LockingHistory(request.mode, sent, x)
      ensures x.result.Err? ==> Blames(x.result.error, deadline)
      ensures forall s :: s in sent && s.op == CommitOp ==> SentInTime(deadline)
      ensures x.reusable ==> !device.ours && !device.locked
      ensures EndsArmed(sent)
      ensures !IsCommit(request.mode) ==> device.published == old(device).published && commitTime == old(commitTime)
      ensures old(now) <= now && commitTime >= old(commitTime)
      ensures now <= (if old(now) < deadline then deadline else old(now)) + 2 * cleanupTimeout + (commitTime - old(commitTime))
    {
      var outcome, committed, cleanup;
      ghost var primary, cleaned;
      outcome, committed, cleanup, primary, cleaned := OperateAndCleanUp(request, deadline);
      sent := [Sent(LockOp, Acked)] + primary + cleaned;
      x := Execution(Combine(outcome, cleanup, ReportedPrimary(outcome)),
                     CleanedUp(cleanup) && !(outcome.Err? && Interrupted(outcome.error)));
      assert LockingHistory(request.mode, sent, x) by {
        LockedHistoryHolds(request.mode, primary, cleaned, outcome, committed, cleanup);
      }
      assert EndsArmed(sent) by { LockedEndsArmed(primary, cleaned, committed); }
      AfterTheLock(primary, cleaned);
      CommitsInPrimary(request.mode, primary, cleaned, outcome, committed, cleanup);
    }

    /** The operation and, however it ended, its cleanup. */
    method OperateAndCleanUp(request: Request, deadline: nat)
      returns (outcome: Result<CandidateResult, Error>, committed: bool, cleanup: CleanupFailures,
               ghost primary: seq<Sent>, ghost cleaned: seq<Sent>)
      requires request.mode != Discard
      modifies this`device, this`log, this`now, this`commitTime, this`commitSentAt
      ensures log == old(log) + (primary + cleaned)
      ensures LockedParts(request.mode, primary, cleaned, outcome, committed, cleanup)
      ensures CleanedUp(cleanup) ==> !device.ours && !device.locked
      ensures outcome.Err? ==> Blames(outcome.error, deadline)
      ensures forall s :: s in primary && s.op == CommitOp ==> SentInTime(deadline)
      ensures !IsCommit(request.mode) ==> device.published == old(device).published && commitTime == old(commitTime)
      ensures old(now) <= now && commitTime >= old(commitTime)
      ensures now <= (if old(now) < deadline then deadline else old(now)) + 2 * cleanupTimeout + (commitTime - old(commitTime))
    {
      outcome, committed, primary := PrimaryOperation(request, deadline);
      cleanup, cleaned := Cleanup(!committed);
    }

    /** The judgement of a locked execution follows from what its two parts promise. */
    lemma LockedHistoryHolds(m: Mode, primary: seq<Sent>, cleaned: seq<Sent>,
                             outcome: Result<CandidateResult, Error>, committed: bool, cleanup: CleanupFailures)
      requires LockedParts(m, primary, cleaned, outcome, committed, cleanup)
      ensures LockingHistory(m, [Sent(LockOp, Acked)] + primary + cleaned,
                             Execution(Combine(outcome, cleanup, ReportedPrimary(outcome)),
                                       CleanedUp(cleanup) && !(outcome.Err? && Interrupted(outcome.error))))
    {
      CountsHold(primary, cleaned);
      VerdictHolds(m, primary, cleaned, outcome, committed, cleanup);
      LockedTold(m, primary, cleaned, outcome, committed, cleanup);
    }

    lemma CommitsInPrimary(m: Mode, primary: seq<Sent>, cleaned: seq<Sent>,
                           outcome: Result<CandidateResult, Error>, committed: bool, cleanup: CleanupFailures)
      requires LockedParts(m, primary, cleaned, outcome, committed, cleanup)
      ensures forall s :: s in [Sent(LockOp, Acked)] + primary + cleaned && s.op == CommitOp ==> s in primary
    {
      assert forall s :: s in cleaned ==> s == cleaned[0] || s == cleaned[|cleaned| - 1];
      assert forall s :: s in [Sent(LockOp, Acked)] + primary + cleaned ==> s == Sent(LockOp, Acked) || s in primary || s in cleaned;
    }

    lemma AfterTheLock(primary: seq<Sent>, cleaned: seq<Sent>)
      ensures var sent := [Sent(LockOp, Acked)] + primary + cleaned;
              [Sent(LockOp, Acked)] <= sent && sent[1..] == primary + cleaned
    {}

    lemma LockedTold(m: Mode, primary: seq<Sent>, cleaned: seq<Sent>,
                     outcome: Result<CandidateResult, Error>, committed: bool, cleanup: CleanupFailures)
      requires LockedParts(m, primary, cleaned, outcome, committed, cleanup)
      ensures Told(m, [Sent(LockOp, Acked)] + primary + cleaned, Combine(outcome, cleanup, ReportedPrimary(outcome)))
    {
      assert Parts([Sent(LockOp, Acked)], primary, cleaned);
      PartsTold(m, [Sent(LockOp, Acked)], primary, cleaned, outcome, cleanup);
    }

    lemma CountsHold(primary: seq<Sent>, cleaned: seq<Sent>)
      requires forall s :: s in primary ==> s.op != UnlockOp
      requires Times(CommitOp, primary) <= 1
      requires 1 <= |cleaned| <= 2 && cleaned[|cleaned| - 1].op == UnlockOp && (|cleaned| == 2 ==> cleaned[0].op == RollbackOp)
      ensures SentOnce([Sent(LockOp, Acked)] + primary + cleaned)
    {
      var lock := [Sent(LockOp, Acked)];
      UnlockedOnce(lock, primary, cleaned);
      CommittedAtMostOnce(lock, primary, cleaned);
      assert (lock + primary + cleaned)[0] == Sent(LockOp, Acked);
    }

    lemma VerdictHolds(m: Mode, primary: seq<Sent>, cleaned: seq<Sent>,
                       outcome: Result<CandidateResult, Error>, committed: bool, cleanup: CleanupFailures)
      requires LockedParts(m, primary, cleaned, outcome, committed, cleanup)
      ensures Verdict(m, [Sent(LockOp, Acked)] + primary + cleaned,
                      Execution(Combine(outcome, cleanup, ReportedPrimary(outcome)),
                                CleanedUp(cleanup) && !(outcome.Err? && Interrupted(outcome.error))))
    {
      Outcomes(primary, cleaned);
      if !IsCommit(m) { OnlyCommitInPrimary(primary, cleaned); }
      if CleanedUp(cleanup) && !(outcome.Err? && Interrupted(outcome.error)) {
        NothingDropped(primary, cleaned);
      }
    }

    lemma NothingDropped(primary: seq<Sent>, cleaned: seq<Sent>)
      requires forall s :: s in primary ==> s.answer != Dropped
      requires 1 <= |cleaned| <= 2 && cleaned[0].answer == Acked && cleaned[|cleaned| - 1].answer == Acked
      ensures forall s :: s in [Sent(LockOp, Acked)] + primary + cleaned ==> s.answer != Dropped
    {
      forall s | s in [Sent(LockOp, Acked)] + primary + cleaned ensures s.answer != Dropped {
        assert s == Sent(LockOp, Acked) || s in primary || s == cleaned[0] || s == cleaned[|cleaned| - 1];
      }
    }

    lemma OnlyCommitInPrimary(primary: seq<Sent>, cleaned: seq<Sent>)
      requires (forall s :: s in primary ==> s.op != CommitOp) && forall s :: s in cleaned ==> s.op != CommitOp
      ensures forall s :: s in [Sent(LockOp, Acked)] + primary + cleaned ==> s.op != CommitOp
    {
      forall s | s in [Sent(LockOp, Acked)] + primary + cleaned ensures s.op != CommitOp {
        assert s == Sent(LockOp, Acked) || s in primary || s in cleaned;
      }
    }

    /** What a lock, an operation and a cleanup contain together. */
    lemma Outcomes(primary: seq<Sent>, cleaned: seq<Sent>)
      requires forall s :: s in primary ==> s.op == LoadOp || s.op == DiffOp || s.op == CheckOp || s.op == CommitOp
      requires 1 <= |cleaned| <= 2 && cleaned[|cleaned| - 1].op == UnlockOp && (|cleaned| == 2 ==> cleaned[0].op == RollbackOp)
      ensures var sent := [Sent(LockOp, Acked)] + primary + cleaned;
              && (Sent(CommitOp, Acked) in sent <==> Sent(CommitOp, Acked) in primary)
              && (Sent(UnlockOp, Acked) in sent <==> cleaned[|cleaned| - 1].answer == Acked)
              && (Sent(RollbackOp, Acked) in sent <==> |cleaned| == 2 && cleaned[0].answer == Acked)
              && Sent(LockOp, Acked) in sent && sent[0] == Sent(LockOp, Acked)
              && ((exists s :: s in sent && s.op == RollbackOp) <==> |cleaned| == 2)
    {
      var sent := [Sent(LockOp, Acked)] + primary + cleaned;
      assert sent[0] == Sent(LockOp, Acked);
      assert forall s :: s in sent <==> s == Sent(LockOp, Acked) || s in primary || s in cleaned;
      assert forall s :: s in cleaned <==> s == cleaned[0] || s == cleaned[|cleaned| - 1];
    }

    lemma UnlockedOnce(lock: seq<Sent>, primary: seq<Sent>, cleanup: seq<Sent>)
      requires forall s :: s in lock + primary ==> s.op != UnlockOp
      requires 1 <= |cleanup| <= 2 && cleanup[|cleanup| - 1].op == UnlockOp && (|cleanup| == 2 ==> cleanup[0].op == RollbackOp)
      ensures Times(UnlockOp, lock + primary + cleanup) == 1
    {
      TimesZero(UnlockOp, lock + primary);
      TimesAppend(UnlockOp, lock + primary, cleanup);
      TimesZero(UnlockOp, cleanup[..|cleanup| - 1]);
    }

    lemma CommittedAtMostOnce(lock: seq<Sent>, primary: seq<Sent>, cleanup: seq<Sent>)
      requires forall s :: s in lock + cleanup ==> s.op != CommitOp
      ensures Times(CommitOp, lock + primary + cleanup) == Times(CommitOp, primary)
    {
      TimesZero(CommitOp, lock);
      TimesZero(CommitOp, cleanup);
      TimesAppend(CommitOp, lock + primary, cleanup);
      TimesAppend(CommitOp, lock, primary);
    }
  }

  /** The failed cleanup remembered for the next caller on this router. */
  datatype Taint = Taint(rollback: Option<CleanupError>, unlock: Option<CleanupError>)

  /** Where the session ended up. A closed one takes its lock and its edits with it
      once the close completes, even if only the transport went down. */
  datatype Disposition = NeverOpened | GivenBack | ClosedNow | ClosedByDrop

  function AfterClose(d: DeviceState, where: Disposition): DeviceState {
    if where.ClosedNow? || where.ClosedByDrop? then Effect(d, CloseOp) else d
  }

  /** Open a session, run the transaction, and give the session back only after a
      complete cleanup; otherwise close it.

      Once it has returned and a close has completed, neither our lock nor our
      uncommitted change is at the device: for a discard, which takes no lock, the
      lock state is the one it found. */
  method Run(backend: Backend, request: Request, timeout: nat, configOpens: bool, taint: Option<Taint>)
    returns (r: Result<CandidateResult, Error>, where: Disposition, taint': Option<Taint>, ghost sent: seq<Sent>)
    modifies backend
    ensures !where.NeverOpened? ==> !AfterClose(backend.device, where).ours
    ensures !where.NeverOpened? ==>
              !AfterClose(backend.device, where).locked || (request.mode == Discard && old(backend.device).locked)
    ensures where.NeverOpened? ==> backend.device == old(backend.device) && r.Err?
    // the history judged below is the one that went over the wire
    ensures where == GivenBack ==> backend.log == old(backend.log) + [Sent(OpenOp, Acked)] + sent
    ensures where == ClosedNow ==>
              exists a :: backend.log == old(backend.log) + [Sent(OpenOp, Acked)] + sent + [Sent(CloseOp, a)]
    ensures where != GivenBack && where != ClosedNow ==> sent == []
    // outcomes are what they say
    ensures request.mode != Discard ==>
              (r == Ok(Committed) <==> Sent(CommitOp, Acked) in sent && Sent(UnlockOp, Acked) in sent)
    ensures request.mode == Discard ==> (r == Ok(Discarded) <==> sent == [Sent(RollbackOp, Acked)])
    ensures r.Ok? ==> where == GivenBack
    ensures where == GivenBack ==> (r.Ok? || request.mode != Discard) && !exists s :: s in sent && s.answer == Dropped
    ensures Sent(CommitOp, Acked) in sent ==> forall s :: s in sent ==> s.op != RollbackOp
    ensures request.mode != Discard && (where == GivenBack || where == ClosedNow) ==> Told(request.mode, sent, r)
    // a session given back is unlocked and, unless a commit cleared it, carries its discard
    ensures where == GivenBack ==> EndsArmed(sent)
    ensures request.mode != Discard && (where == GivenBack || where == ClosedNow) ==>
              Times(UnlockOp, sent) == (if LockAcquiredOrUnknown(sent) then 1 else 0)
    ensures !IsCommit(request.mode) ==> backend.device.published == old(backend.device).published
    ensures where == GivenBack ==> !backend.device.ours && (request.mode != Discard ==> !backend.device.locked)
    // interruptions
    ensures r.Err? ==> backend.Blames(r.error, old(backend.now) + timeout)
    ensures forall s :: s in sent && s.op == CommitOp ==> backend.SentInTime(old(backend.now) + timeout)
    // time
    ensures backend.now - old(backend.now) <=
            timeout + 3 * backend.cleanupTimeout + (backend.commitTime - old(backend.commitTime))
    ensures !IsCommit(request.mode) ==>
              backend.commitTime == old(backend.commitTime)
              && backend.now - old(backend.now) <= WorstCaseDuration(timeout, backend.cleanupTimeout)
    // what the next caller is warned of
    ensures taint' == (if r.Err? && r.error.CandidateCleanupFailed? then Some(Taint(r.error.rollback, r.error.unlock))
                       else if where == GivenBack then None else taint)
  {
    var deadline := backend.now + timeout;
    taint', sent := taint, [];
    var session, _ := backend.RunStep(OpenOp, deadline);
    if session.Err? {
      return Err(session.error), NeverOpened, taint, [];
    }
    if !configOpens {
      return Err(Validation), ClosedByDrop, taint, [];
    }
    var x;
    x, sent, where := ExecuteAndSettle(backend, request, deadline);
    r := x.result;
    if where == GivenBack { taint' := None; }
    if r.Err? && r.error.CandidateCleanupFailed? {
      taint' := Some(Taint(r.error.rollback, r.error.unlock));
    }
  }

  /** Run on an open session, and close the session unless its cleanup was complete. */
  method ExecuteAndSettle(backend: Backend, request: Request, deadline: nat)
    returns (x: Execution, ghost sent: seq<Sent>, where: Disposition)
    modifies backend
    ensures where == if x.reusable then GivenBack else ClosedNow
    ensures where == GivenBack ==> EndsArmed(sent)
    ensures request.mode == Discard ==> DiscardHistory(sent, x)
    ensures request.mode != Discard ==> LockingHistory(request.mode, sent, x)
    ensures x.result.Err? ==> backend.Blames(x.result.error, deadline)
    ensures forall s :: s in sent && s.op == CommitOp ==> backend.SentInTime(deadline)
    ensures x.reusable ==> !backend.device.ours && (request.mode != Discard ==> !backend.device.locked)
    ensures !AfterClose(backend.device, where).ours
    ensures !AfterClose(backend.device, where).locked || (request.mode == Discard && old(backend.device).locked)
    ensures where == GivenBack ==> backend.log == old(backend.log) + sent
    ensures where == ClosedNow ==> exists a :: backend.log == old(backend.log) + sent + [Sent(CloseOp, a)]
    ensures !IsCommit(request.mode) ==>
              && backend.device.published == old(backend.device).published
              && backend.commitTime == old(backend.commitTime)
    ensures backend.now <= (if old(backend.now) < deadline then deadline else old(backend.now))
                           + 3 * backend.cleanupTimeout + (backend.commitTime - old(backend.commitTime))
    ensures old(backend.now) <= backend.now && backend.commitTime >= old(backend.commitTime)
  {
    x, sent := backend.Execute(request, deadline);
    where := GivenBack;
    if !x.reusable {
      ghost var a;
      var failure;
      failure, a := backend.CleanupStep(CloseOp);
      assert backend.log == old(backend.log) + sent + [Sent(CloseOp, a)];
      where := ClosedNow;
    }
  }
}
