/**
 Each committed transaction on one execution and its approval, as a function of
 the rows it locks. Every time a worker reads a clock, the reading is a
 parameter, and readings within one transaction may differ.
 */
module ExecutionTransactions {
  import opened Common
  import opened ExecutionRows

  datatype Settings = Settings(leaseSeconds: int, retryBase: int, retryMax: int) {
    /** The configuration validators of the service. */
    predicate Valid() {
      30 <= leaseSeconds <= 3600 && 1 <= retryBase <= retryMax
    }
  }

  datatype Claim = Claim(worker: WorkerName, token: Token)

  /** The two rows a transaction may change, and whether a download job exists. */
  datatype Rows = Rows(execution: Execution, approval: Approval, job: bool)

  // ---- Leases ----------------------------------------------------------------

  predicate OwnsLease(e: Execution, claim: Claim) {
    e.leaseToken == Some(claim.token) && e.lockedBy == Some(claim.worker) && e.lockedAt.Some?
  }

  /** `_require_fresh_matching_lease` does not raise. */
  predicate HasFreshLease(e: Execution, claim: Claim, expected: Option<ExecutionStatus>, now: Time,
                          settings: Settings) {
    && OwnsLease(e, claim)
    && (expected.Some? ==> e.status == expected.value)
    && e.status.Active()
    && e.lockedAt.value + settings.leaseSeconds > now
  }

  /** `_require_execution_lease` does not raise. */
  predicate HasExecutionLease(e: Execution, token: Token, now: Time, settings: Settings) {
    && settings.leaseSeconds > 0
    && e.leaseToken == Some(token) && e.lockedBy.Some? && e.lockedAt.Some?
    && e.lockedAt.value + settings.leaseSeconds > now
  }

  /** The rows that `_recover_stale_executions` selects. */
  predicate IsStale(e: Execution, now: Time, settings: Settings) {
    e.status.Active() && e.lockedAt.Some? && e.lockedAt.value < now - settings.leaseSeconds
  }

  function Power2(n: nat): nat {
    if n == 0 then 1 else 2 * Power2(n - 1)
  }

  function RetryDelay(settings: Settings, attempts: int): int {
    var delay := settings.retryBase * Power2(if attempts - 1 < 0 then 0 else attempts - 1);
    if delay < settings.retryMax then delay else settings.retryMax
  }

  // ---- Worker transactions ----------------------------------------------------

  predicate IsClaimable(e: Execution, now: Time) {
    && (e.status.Pending?
        || (e.status.RetryWait? && (e.nextRetryAt.None? || e.nextRetryAt.value <= now)))
    && e.attempts < e.maxAttempts
  }

  function Claimed(e: Execution, claim: Claim, now: Time): Execution {
    e.(status := Validating, attempts := e.attempts + 1, nextRetryAt := None,
       lockedAt := Some(now), lockedBy := Some(claim.worker), leaseToken := Some(claim.token))
  }

  function CancelledRow(e: Execution): Execution {
    e.Unlocked().(status := Cancelled, nextRetryAt := None)
  }

  function ExpireIfDue(a: Approval, now: Time): Approval {
    if a.status.Approved? && a.expiresAt <= now then a.(status := ApprovalStatus.Expired, decidedAt := Some(now))
    else a
  }

  /**
   What the guard of an external action sees besides the rows: its clock,
   whether plan and preflight policy still verify, and whether the automation
   fence reports an error (only consulted for automatic executions).
   */
  datatype Sight = Sight(now: Time, verifies: bool, fenceBroken: bool)

  datatype Verdict =
    | LeaseLost
    | Raised
    | Refused(rows: Rows)
    | Allowed(rows: Rows)

  function FenceCancelled(r: Rows, now: Time): Rows {
    r.(execution := CancelledRow(r.execution),
       approval := if r.approval.status.Approved? || r.approval.status.Executing?
                   then r.approval.(status := ApprovalStatus.Revoked, decidedAt := Some(now))
                   else r.approval)
  }

  /** `_ensure_external_action_allowed`. */
  function Guard(r: Rows, claim: Claim, expected: ExecutionStatus, writeMayHaveOccurred: bool,
                 sight: Sight, settings: Settings): Verdict
  {
    if !HasFreshLease(r.execution, claim, Some(expected), sight.now, settings) then LeaseLost
    else if !sight.verifies then Raised
    else if r.execution.binding.origin.Automation? && sight.fenceBroken then
      if writeMayHaveOccurred then Raised else Refused(FenceCancelled(r, sight.now))
    else if expected.Validating? then
      var approval := ExpireIfDue(r.approval, sight.now);
      if !approval.status.Approved? then
        Refused(r.(execution := CancelledRow(r.execution), approval := approval))
      else
        Allowed(r.(execution := r.execution.(lockedAt := Some(sight.now)), approval := approval))
    else if !r.approval.status.Executing? then Raised
    else Allowed(r.(execution := r.execution.(lockedAt := Some(sight.now))))
  }

  function Renewed(e: Execution, claim: Claim, now: Time, settings: Settings): Execution {
    if HasFreshLease(e, claim, None, now, settings) then e.(lockedAt := Some(now)) else e
  }

  /** Clock readings of a reservation: two from the database, one from the worker. */
  datatype ReserveClocks = ReserveClocks(first: Time, second: Time, utc: Time)

  datatype Reservation =
    | NotReserved
    | CancelledInstead(rows: Rows)
    | Reserved(rows: Rows)

  function WithBundle(e: Execution, m: Metadata, selected: Hash, now: Time): Execution {
    e.(infoHash := Some(selected), infoHashV1 := m.v1, infoHashV2 := m.v2,
       sizeBytes := Some(m.size), fileCount := Some(m.files),
       validatedAt := Some(now), submittedAt := Some(now))
  }

  predicate SameBundle(e: Execution, m: Metadata)
    requires m.Valid()
  {
    && e.infoHash == Some(m.Selected()) && e.infoHashV1 == m.v1 && e.infoHashV2 == m.v2
    && e.sizeBytes == Some(m.size) && e.fileCount == Some(m.files)
  }

  function ReservedRows(r: Rows, m: Metadata, selected: Hash, utc: Time): Rows {
    r.(execution := WithBundle(r.execution, m, selected, utc).(status := Submitting, nextRetryAt := None),
       approval := r.approval.(status := Executing))
  }

  /** The part of the reservation that starts once the row is known to be VALIDATING under the lease. */
  function StageSubmission(r: Rows, m: Metadata, expectedHash: Option<Hash>, utc: Time): Reservation
    requires m.Valid()
  {
    var approval := ExpireIfDue(r.approval, utc);
    if !approval.status.Approved? then
      CancelledInstead(r.(execution := CancelledRow(r.execution), approval := approval))
    else if expectedHash.Some? && expectedHash.value !in m.IdentityHashes() then NotReserved
    else
      Reserved(ReservedRows(r, m, if expectedHash.Some? then expectedHash.value else m.Selected(), utc))
  }

  /** `persist_info_hash_before_submission`. */
  function Persist(r: Rows, token: Token, m: Metadata, expectedHash: Option<Hash>,
                   second: Time, utc: Time, settings: Settings): Reservation
    requires m.Valid()
  {
    var e := r.execution;
    if !HasExecutionLease(e, token, second, settings) then NotReserved
    else if e.status.Submitting? then (if SameBundle(e, m) then Reserved(r) else NotReserved)
    else if !e.status.Validating? then NotReserved
    else StageSubmission(r, m, expectedHash, utc)
  }

  /** `_reserve_submission`. */
  function Reserve(r: Rows, claim: Claim, m: Metadata, expectedHash: Option<Hash>,
                   clocks: ReserveClocks, settings: Settings): Reservation
    requires m.Valid()
  {
    if !HasFreshLease(r.execution, claim, Some(Validating), clocks.first, settings) then NotReserved
    else Persist(r, claim.token, m, expectedHash, clocks.second, clocks.utc, settings)
  }

  /** One row of `_recover_stale_executions`. */
  function Recovered(e: Execution, now: Time, settings: Settings): Execution {
    if !IsStale(e, now, settings) then e
    else if e.status.Submitting? then
      e.Unlocked().(status := ReconciliationRequired, nextRetryAt := None)
    else if e.attempts < e.maxAttempts then
      e.Unlocked().(status := RetryWait, nextRetryAt := Some(now + RetryDelay(settings, e.attempts)))
    else
      e.Unlocked().(status := Failed, nextRetryAt := None)
  }

  /** `_mark_validation_failure`. */
  function ValidationFailed(e: Execution, claim: Claim, retryable: bool, now: Time, settings: Settings): Execution {
    if !OwnsLease(e, claim) || !e.status.Validating? then e
    else if retryable && e.attempts < e.maxAttempts then
      e.Unlocked().(status := RetryWait, nextRetryAt := Some(now + RetryDelay(settings, e.attempts)))
    else
      e.Unlocked().(status := Failed, nextRetryAt := None)
  }

  /** `mark_outcome_unknown`; raising leaves the row as it is. */
  function MarkOutcomeUnknown(e: Execution, token: Token, now: Time, settings: Settings): Execution {
    if !e.status.Submitting? || !HasExecutionLease(e, token, now, settings) || e.infoHash.None? then e
    else e.Unlocked().(status := OutcomeUnknown, nextRetryAt := None)
  }

  /** `mark_reconciliation_required`; only a SUBMITTING row needs the lease. */
  function MarkReconciliationRequired(e: Execution, token: Option<Token>, now: Time, settings: Settings): Execution {
    if e.status.OutcomeUnknown?
       || (e.status.Submitting? && token.Some? && HasExecutionLease(e, token.value, now, settings))
    then e.Unlocked().(status := ReconciliationRequired, nextRetryAt := None)
    else e
  }

  /** `_mark_reserved_failure`. */
  function ReservedFailed(e: Execution, claim: Claim, addMayHaveOccurred: bool, now: Time,
                          settings: Settings): Execution
  {
    if !OwnsLease(e, claim) || !e.status.Submitting? then e
    else if addMayHaveOccurred then MarkOutcomeUnknown(e, claim.token, now, settings)
    else MarkReconciliationRequired(e, Some(claim.token), now, settings)
  }

  /** `finalize_download_submission`; `matches` stands for its checks of the observed torrent. */
  function Finalize(r: Rows, token: Token, outcome: ExecutionStatus, matches: bool,
                    now: Time, utc: Time, settings: Settings): Rows
    requires outcome.Final()
  {
    var e := r.execution;
    if r.job || !e.status.Submitting? || !HasExecutionLease(e, token, now, settings)
       || !r.approval.status.Executing? || !matches then r
    else
      Rows(
        e.Unlocked().(status := outcome, verifiedAt := Some(utc), nextRetryAt := None),
        r.approval.(status := ApprovalStatus.Consumed, decidedAt := Some(utc)),
        true)
  }

  /** `request_reconciliation`. */
  function RequestReconciliation(e: Execution, actor: string, reason: Option<string>, now: Time): Execution {
    if e.status.OutcomeUnknown? || e.status.ReconciliationRequired? then
      e.(status := ReconciliationPending, reconciliationBy := Some(actor),
         reconciliationAt := Some(now), reconciliationReason := reason)
    else e
  }

  // ---- Approval transactions ---------------------------------------------------

  function StageExpiration(a: Approval, now: Time): Approval {
    if (a.status.Pending? || a.status.Approved?) && a.expiresAt <= now
    then a.(status := ApprovalStatus.Expired, decidedAt := Some(now))
    else a
  }

  /** `approve_request` and `reject_request`; `passable` stands for the preflight checks. */
  function Decide(a: Approval, approve: bool, passable: bool, now: Time): Approval {
    var staged := StageExpiration(a, now);
    if !staged.status.Pending? then staged
    else if approve then
      if passable then staged.(status := Approved, decidedAt := Some(now)) else staged
    else staged.(status := Rejected, decidedAt := Some(now))
  }

  /** `revoke_request`. */
  function Revoke(a: Approval, now: Time): Approval {
    var staged := StageExpiration(a, now);
    if staged.status.Approved? then staged.(status := ApprovalStatus.Revoked, decidedAt := Some(now)) else staged
  }

  /** The row inserted by `execute_approved_plan`. */
  function NewExecution(binding: Binding, maxAttempts: int): Execution {
    Execution(binding, ExecutionStatus.Pending, 0, maxAttempts, None, None, None, None,
              None, None, None, None, None, None, None, None, None, None, None)
  }

  // ---- Facts about single transactions ------------------------------------------

  /** At one clock value a lease is never both accepted as fresh and selected as stale. */
  lemma FreshIsNotStale(e: Execution, claim: Claim, expected: Option<ExecutionStatus>, now: Time, settings: Settings)
    requires IsStale(e, now, settings)
    ensures !HasFreshLease(e, claim, expected, now, settings)
    ensures !HasExecutionLease(e, claim.token, now, settings)
  {
  }

  /** The lease is this claim's, still runs, and the row is in the expected working status. */
  ghost predicate LeaseRuns(e: Execution, claim: Claim, expected: ExecutionStatus, now: Time, settings: Settings) {
    && e.leaseToken == Some(claim.token) && e.lockedBy == Some(claim.worker)
    && e.lockedAt.Some? && now < e.lockedAt.value + settings.leaseSeconds
    && e.status == expected && (e.status.Validating? || e.status.Submitting?)
  }

  /** What has to hold for an external request to be permitted. */
  ghost predicate MayAct(r: Rows, claim: Claim, expected: ExecutionStatus, sight: Sight, settings: Settings) {
    && LeaseRuns(r.execution, claim, expected, sight.now, settings)
    && sight.verifies
    && !(r.execution.binding.origin == Automation && sight.fenceBroken)
    && if expected == Validating then r.approval.status == Approved && sight.now < r.approval.expiresAt
       else r.approval.status == Executing
  }

  /**
   The guard permits exactly what may be done, and then only renews the lease. It
   cancels only before a write, and only for a broken fence or a lapsed approval.
   */
  lemma GuardDecides(r: Rows, claim: Claim, expected: ExecutionStatus, written: bool, sight: Sight, settings: Settings)
    ensures
      var v := Guard(r, claim, expected, written, sight, settings);
      var fenced := r.execution.binding.origin == Automation && sight.fenceBroken;
      var lapsed := r.approval.status != Approved || r.approval.expiresAt <= sight.now;
      && (v.LeaseLost? <==> !LeaseRuns(r.execution, claim, expected, sight.now, settings))
      && (v.Allowed? <==> MayAct(r, claim, expected, sight, settings))
      && (v.Refused? <==>
            && LeaseRuns(r.execution, claim, expected, sight.now, settings) && sight.verifies
            && (if fenced then !written else expected == Validating && lapsed))
      && (v.Allowed? ==> v.rows == r.(execution := r.execution.(lockedAt := Some(sight.now))))
      && (v.Refused? ==>
            && v.rows.execution.status == Cancelled && v.rows.execution.leaseToken.None?
            && v.rows.job == r.job && v.rows.approval.status != Approved
            && (v.rows.approval.status != r.approval.status ==>
                  v.rows.approval.status == if fenced then ApprovalStatus.Revoked else ApprovalStatus.Expired))
  {
  }

  /** What has to hold for a submission to be reserved. */
  ghost predicate MayReserve(r: Rows, claim: Claim, m: Metadata, expectedHash: Option<Hash>, clocks: ReserveClocks,
                             settings: Settings)
    requires m.Valid()
  {
    && LeaseRuns(r.execution, claim, Validating, clocks.first, settings)
    && LeaseRuns(r.execution, claim, Validating, clocks.second, settings)
    && settings.leaseSeconds > 0
    && r.approval.status == Approved && clocks.utc < r.approval.expiresAt
    && (expectedHash.Some? ==> expectedHash.value in m.IdentityHashes())
  }

  /**
   A reservation is made exactly when it may be, and then the row is SUBMITTING with
   everything that was validated about the torrent. Where only the approval has
   lapsed, the execution is cancelled instead.
   */
  lemma ReserveDecides(r: Rows, claim: Claim, m: Metadata, expectedHash: Option<Hash>, clocks: ReserveClocks,
                       settings: Settings)
    requires m.Valid()
    ensures
      var v := Reserve(r, claim, m, expectedHash, clocks, settings);
      var e := r.execution;
      && (v.Reserved? <==> MayReserve(r, claim, m, expectedHash, clocks, settings))
      && (v.CancelledInstead? <==>
            && LeaseRuns(e, claim, Validating, clocks.first, settings)
            && LeaseRuns(e, claim, Validating, clocks.second, settings) && settings.leaseSeconds > 0
            && (r.approval.status != Approved || r.approval.expiresAt <= clocks.utc))
      && (v.CancelledInstead? ==> v.rows.execution.status == Cancelled && v.rows.execution.leaseToken.None?)
      && (v.Reserved? ==>
            && v.rows.execution.status == Submitting && v.rows.approval.status == Executing && v.rows.job == r.job
            && v.rows.execution.sizeBytes == Some(m.size) && v.rows.execution.fileCount == Some(m.files)
            && v.rows.execution.infoHashV1 == m.v1 && v.rows.execution.infoHashV2 == m.v2
            && v.rows.execution.validatedAt == v.rows.execution.submittedAt == Some(clocks.utc)
            && v.rows.execution.infoHash
               == Some(if expectedHash.Some? then expectedHash.value else if m.v1.Some? then m.v1.value else m.v2.value)
            && v.rows.execution.leaseToken == e.leaseToken && v.rows.execution.lockedBy == e.lockedBy
            && v.rows.execution.lockedAt == e.lockedAt && v.rows.execution.attempts == e.attempts)
  {
  }

  /** What has to hold for a submission to be finalized. */
  ghost predicate CanFinalize(r: Rows, token: Token, matches: bool, now: Time, settings: Settings) {
    && !r.job && r.execution.status == Submitting && r.approval.status == Executing && matches
    && r.execution.leaseToken == Some(token) && r.execution.lockedBy.Some? && r.execution.lockedAt.Some?
    && settings.leaseSeconds > 0 && now < r.execution.lockedAt.value + settings.leaseSeconds
  }

  /** Job, approval and execution are closed together, or nothing changes. */
  lemma FinalizeDecides(r: Rows, token: Token, outcome: ExecutionStatus, matches: bool, now: Time, utc: Time,
                        settings: Settings)
    requires outcome.Final()
    ensures
      var after := Finalize(r, token, outcome, matches, now, utc, settings);
      if CanFinalize(r, token, matches, now, settings) then
        && after.job && after.approval.status == ApprovalStatus.Consumed && after.approval.decidedAt == Some(utc)
        && after.execution.status == outcome && after.execution.verifiedAt == Some(utc)
        && after.execution.leaseToken.None? && after.execution.lockedBy.None? && after.execution.lockedAt.None?
        && after.execution.infoHash == r.execution.infoHash && after.execution.attempts == r.execution.attempts
      else after == r
  {
  }

  /** A stale validation is retried while attempts are left, a stale submission never. */
  lemma RecoveryDecides(e: Execution, now: Time, settings: Settings)
    ensures
      var after := Recovered(e, now, settings);
      var stale := (e.status == Validating || e.status == Submitting)
                   && e.lockedAt.Some? && e.lockedAt.value + settings.leaseSeconds < now;
      && (!stale ==> after == e)
      && (stale ==>
            && after.leaseToken.None? && after.lockedBy.None? && after.lockedAt.None?
            && after.attempts == e.attempts && after.infoHash == e.infoHash)
      && (stale && e.status == Submitting ==> after.status == ReconciliationRequired && after.nextRetryAt.None?)
      && (stale && e.status == Validating && e.attempts < e.maxAttempts ==>
            after.status == RetryWait && after.nextRetryAt == Some(now + RetryDelay(settings, e.attempts)))
      && (stale && e.status == Validating && e.attempts >= e.maxAttempts ==>
            after.status == Failed && after.nextRetryAt.None?)
  {
  }

  /** The same for a failed validation, which is only retried when its error is retryable. */
  lemma ValidationFailureDecides(e: Execution, claim: Claim, retryable: bool, now: Time, settings: Settings)
    ensures
      var after := ValidationFailed(e, claim, retryable, now, settings);
      var held := e.leaseToken == Some(claim.token) && e.lockedBy == Some(claim.worker) && e.lockedAt.Some?
                  && e.status == Validating;
      && (!held ==> after == e)
      && (held ==>
            && after.leaseToken.None? && after.lockedBy.None? && after.lockedAt.None? && after.attempts == e.attempts
            && if retryable && e.attempts < e.maxAttempts
               then after.status == RetryWait && after.nextRetryAt == Some(now + RetryDelay(settings, e.attempts))
               else after.status == Failed && after.nextRetryAt.None?)
  {
  }

  /** After the write guard the outcome is unknown, before it reconciliation is required; never a retry. */
  lemma ReservedFailureDecides(e: Execution, claim: Claim, written: bool, now: Time, settings: Settings)
    ensures
      var after := ReservedFailed(e, claim, written, now, settings);
      var held := LeaseRuns(e, claim, Submitting, now, settings) && settings.leaseSeconds > 0
                  && (written ==> e.infoHash.Some?);
      && (!held ==> after == e)
      && (held ==>
            && after.status == (if written then OutcomeUnknown else ReconciliationRequired)
            && after.leaseToken.None? && after.lockedBy.None? && after.lockedAt.None?
            && after.nextRetryAt.None? && after.infoHash == e.infoHash)
  {
  }

  /**
   A row is up for a claim while it has attempts left and no delay to wait for; a
   claim takes one attempt and starts a lease.
   */
  lemma ClaimDecides(e: Execution, claim: Claim, now: Time, settings: Settings)
    requires settings.Valid()
    ensures IsClaimable(e, now) <==>
            && e.attempts < e.maxAttempts
            && (e.status == ExecutionStatus.Pending
                || (e.status == RetryWait && !(e.nextRetryAt.Some? && now < e.nextRetryAt.value)))
    ensures
      var after := Claimed(e, claim, now);
      && after.attempts == e.attempts + 1 && after.maxAttempts == e.maxAttempts && after.nextRetryAt == None
      && after.binding == e.binding && after.infoHash == e.infoHash
      && forall later :: LeaseRuns(after, claim, Validating, later, settings) <==> later < now + settings.leaseSeconds
  {
  }

  /**
   Reconciliation is required of an unknown outcome, or by the holder of a running
   lease; whoever asks for it while it is due is put on record.
   */
  lemma ReconciliationDecides(e: Execution, token: Option<Token>, actor: string, reason: Option<string>, now: Time,
                              settings: Settings)
    ensures
      var after := MarkReconciliationRequired(e, token, now, settings);
      var held := e.status == Submitting && token.Some? && e.leaseToken == token && e.lockedBy.Some?
                  && e.lockedAt.Some? && settings.leaseSeconds > 0 && now < e.lockedAt.value + settings.leaseSeconds;
      if e.status == OutcomeUnknown || held then
        && after.status == ReconciliationRequired && after.nextRetryAt == None && after.leaseToken == None
        && after.lockedBy == None && after.lockedAt == None && after.infoHash == e.infoHash
      else after == e
    ensures
      var after := RequestReconciliation(e, actor, reason, now);
      if e.status == OutcomeUnknown || e.status == ReconciliationRequired then
        && after.status == ReconciliationPending && after.reconciliationBy == Some(actor)
        && after.reconciliationAt == Some(now) && after.reconciliationReason == reason
        && after.infoHash == e.infoHash && after.attempts == e.attempts
      else after == e
  {
  }

  /** Only a pending approval is decided and only an approved one revoked, both before they expire. */
  lemma ApprovalDecides(a: Approval, approve: bool, passable: bool, now: Time)
    ensures
      var due := (a.status == ApprovalStatus.Pending || a.status == Approved) && a.expiresAt <= now;
      var decided, revoked := Decide(a, approve, passable, now), Revoke(a, now);
      && decided.expiresAt == revoked.expiresAt == a.expiresAt
      && (due ==> decided.status == revoked.status == ApprovalStatus.Expired && decided.decidedAt == Some(now))
      && (!due && a.status == ApprovalStatus.Pending && approve && passable ==>
            decided.status == Approved && decided.decidedAt == Some(now))
      && (!due && a.status == ApprovalStatus.Pending && !approve ==>
            decided.status == Rejected && decided.decidedAt == Some(now))
      && (!due && (a.status != ApprovalStatus.Pending || (approve && !passable)) ==> decided == a)
      && (!due && a.status == Approved ==>
            revoked.status == ApprovalStatus.Revoked && revoked.decidedAt == Some(now))
      && (!due && a.status != Approved ==> revoked == a)
  {
  }

  /** The first delay is the base, and each further attempt doubles it up to the maximum. */
  lemma RetryDelayDoubles(settings: Settings, attempts: int)
    requires settings.Valid()
    ensures attempts <= 1 ==> RetryDelay(settings, attempts) == settings.retryBase
    ensures attempts >= 1 ==>
              RetryDelay(settings, attempts + 1)
              == if 2 * RetryDelay(settings, attempts) < settings.retryMax then 2 * RetryDelay(settings, attempts)
                 else settings.retryMax
  {
    if attempts >= 1 {
      var once := settings.retryBase * Power2(attempts - 1);
      assert settings.retryBase * Power2(attempts) == 2 * once by {
        assert Power2(attempts) == 2 * Power2(attempts - 1);
      }
      Power2Grows(0, attempts - 1);
    }
  }

  lemma {:induction false} Power2Grows(m: nat, n: nat)
    requires m <= n
    ensures 1 <= Power2(m) <= Power2(n)
  {
    if m < n {
      Power2Grows(m, n - 1);
    } else if m > 0 {
      Power2Grows(m - 1, m - 1);
    }
  }

  /** The delay starts at the configured base, never shrinks and never exceeds the maximum. */
  lemma RetryDelayIsBoundedAndMonotone(settings: Settings, fewer: int, more: int)
    requires settings.Valid() && fewer <= more
    ensures settings.retryBase <= RetryDelay(settings, fewer) <= RetryDelay(settings, more) <= settings.retryMax
  {
    var m := if fewer - 1 < 0 then 0 else fewer - 1;
    var n := if more - 1 < 0 then 0 else more - 1;
    Power2Grows(m, n);
    Power2Grows(0, m);
    ProductGrows(settings.retryBase, 1, Power2(m));
    ProductGrows(settings.retryBase, Power2(m), Power2(n));
  }

  lemma ProductGrows(b: int, x: int, y: int)
    requires 0 <= b && x <= y
    ensures b * x <= b * y
  {
    assert b * y - b * x == b * (y - x);
  }

  /** A lexicographic measure (attempts left, rank of the status) as one number. */
  function Rank(s: ExecutionStatus): nat {
    match s
    case Validating => 5
    case Submitting => 4
    case OutcomeUnknown => 3
    case ReconciliationRequired => 2
    case ReconciliationPending => 1
    case _ => 0
  }

  function Measure(e: Execution): int {
    (e.maxAttempts - e.attempts) * 8 + Rank(e.status)
  }

  /** A row that waits for a retry can still be claimed. */
  predicate RetriesLeft(e: Execution) {
    && (e.status.RetryWait? ==> e.attempts < e.maxAttempts)
    && (e.status.Pending? ==> e.attempts == 0)
  }

  /** What every transaction on an execution row keeps. */
  predicate Proper(e: Execution) {
    TableConstraints(e) && RetriesLeft(e)
  }

  /** A step a transaction may make on a row. */
  predicate Advances(before: Execution, after: Execution) {
    && Proper(after)
    && UpdateAllowed(before, after)
    && after.maxAttempts == before.maxAttempts
    && (after.status != before.status ==> Measure(after) < Measure(before))
    && (after.status == before.status ==> Measure(after) == Measure(before))
  }

  lemma ClaimAdvances(e: Execution, claim: Claim, now: Time)
    requires Proper(e) && IsClaimable(e, now)
    ensures Advances(e, Claimed(e, claim, now))
  {
  }

  lemma GuardAdvances(r: Rows, claim: Claim, expected: ExecutionStatus, written: bool, sight: Sight, settings: Settings)
    requires Proper(r.execution)
    ensures var v := Guard(r, claim, expected, written, sight, settings);
            (v.Refused? ==> Advances(r.execution, v.rows.execution) && v.rows.execution.status.Cancelled?)
            && (v.Allowed? ==> Advances(r.execution, v.rows.execution) && v.rows.execution.status == expected)
  {
  }

  lemma IdentityHashIsBound(m: Metadata, h: Hash)
    requires m.Valid() && h in m.IdentityHashes()
    ensures HexOfLength(Some(h), {40, 64})
    ensures m.v1 == Some(h) || (m.v2.Some? && (h == m.v2.value || h == m.v2.value[..40]))
  {
    if m.v2.Some? {
      assert forall c | c in m.v2.value[..40] :: c in m.v2.value;
    }
  }

  lemma ReservedRowAdvances(r: Rows, m: Metadata, selected: Hash, utc: Time)
    requires Proper(r.execution) && r.execution.status.Validating?
    requires m.Valid() && selected in m.IdentityHashes()
    ensures Advances(r.execution, ReservedRows(r, m, selected, utc).execution)
  {
    IdentityHashIsBound(m, selected);
  }

  /** A reserved hash is always one of the torrent's identity hashes. */
  lemma ReserveAdvances(r: Rows, claim: Claim, m: Metadata, expectedHash: Option<Hash>, clocks: ReserveClocks,
                        settings: Settings)
    requires Proper(r.execution) && m.Valid()
    ensures var v := Reserve(r, claim, m, expectedHash, clocks, settings);
            && (v.CancelledInstead? ==>
                  Advances(r.execution, v.rows.execution) && v.rows.execution.status.Cancelled?)
            && (v.Reserved? ==>
                  && Advances(r.execution, v.rows.execution) && v.rows.execution.status.Submitting?
                  && v.rows.execution.infoHash.value in m.IdentityHashes()
                  && (expectedHash.Some? ==> v.rows.execution.infoHash == expectedHash))
  {
    if r.execution.status.Validating? && r.execution.lockedAt.Some? {
      StagedSubmissionAdvances(r, m, expectedHash, clocks.utc);
    }
  }

  lemma StagedSubmissionAdvances(r: Rows, m: Metadata, expectedHash: Option<Hash>, utc: Time)
    requires Proper(r.execution) && r.execution.status.Validating? && m.Valid()
    ensures var v := StageSubmission(r, m, expectedHash, utc);
            && (v.CancelledInstead? ==>
                  Advances(r.execution, v.rows.execution) && v.rows.execution.status.Cancelled?)
            && (v.Reserved? ==>
                  && Advances(r.execution, v.rows.execution) && v.rows.execution.status.Submitting?
                  && v.rows.execution.infoHash.value in m.IdentityHashes()
                  && (expectedHash.Some? ==> v.rows.execution.infoHash == expectedHash))
  {
    var selected := if expectedHash.Some? then expectedHash.value else m.Selected();
    assert m.Selected() in m.IdentityHashes();
    if selected in m.IdentityHashes() {
      ReservedRowAdvances(r, m, selected, utc);
    }
  }

  lemma RenewAdvances(e: Execution, claim: Claim, now: Time, settings: Settings)
    requires Proper(e)
    ensures Advances(e, Renewed(e, claim, now, settings))
  {
  }

  lemma RecoverAdvances(e: Execution, now: Time, settings: Settings)
    requires Proper(e)
    ensures Advances(e, Recovered(e, now, settings))
    ensures IsStale(e, now, settings) ==> Recovered(e, now, settings).leaseToken.None?
  {
  }

  lemma FailureAdvances(e: Execution, claim: Claim, retryable: bool, written: bool, now: Time, settings: Settings)
    requires Proper(e)
    ensures Advances(e, ValidationFailed(e, claim, retryable, now, settings))
    ensures Advances(e, ReservedFailed(e, claim, written, now, settings))
  {
  }

  lemma FinalizeAdvances(r: Rows, token: Token, outcome: ExecutionStatus, matches: bool, now: Time, utc: Time,
                         settings: Settings)
    requires Proper(r.execution) && outcome.Final()
    ensures Advances(r.execution, Finalize(r, token, outcome, matches, now, utc, settings).execution)
  {
  }

  lemma ReconciliationAdvances(e: Execution, actor: string, reason: Option<string>, token: Option<Token>, now: Time,
                               settings: Settings)
    requires Proper(e)
    ensures Advances(e, RequestReconciliation(e, actor, reason, now))
    ensures Advances(e, MarkReconciliationRequired(e, token, now, settings))
  {
  }
}
