/**
 The rows of the download control plane: an approval, its execution, and the
 constraints the database puts on an execution row.
 */
module ExecutionRows {
  import opened Common

  type Time = int
  type WorkerName = nat
  type Token = nat
  type Hash = string

  datatype ApprovalStatus = Pending | Approved | Executing | Rejected | Expired | Revoked | Consumed

  datatype ExecutionStatus =
    | Pending
    | RetryWait
    | Validating
    | Submitting
    | Submitted
    | AlreadyPresent
    | OutcomeUnknown
    | ReconciliationRequired
    | ReconciliationPending
    | Failed
    | Cancelled
  {
    predicate Active() {
      Validating? || Submitting?
    }

    /** The states reached only through a reservation. */
    predicate InSubmission() {
      || Submitting? || Submitted? || AlreadyPresent?
      || OutcomeUnknown? || ReconciliationRequired? || ReconciliationPending?
    }

    predicate Final() {
      Submitted? || AlreadyPresent?
    }

    /** The states in which the approval is held in EXECUTING. */
    predicate HoldsApproval() {
      Submitting? || OutcomeUnknown? || ReconciliationRequired? || ReconciliationPending?
    }
  }

  datatype Origin = Manual | Automation
  datatype LaunchMode = AddPaused | StartImmediately

  datatype Approval = Approval(status: ApprovalStatus, expiresAt: Time, decidedAt: Option<Time>)

  /** What a row is bound to when it is created; these columns never change. */
  datatype Binding = Binding(
    intentId: nat,
    requestHash: Hash,
    launchMode: LaunchMode,
    origin: Origin,
    policyRevision: Option<nat>,
    decision: Option<nat>)

  datatype Execution = Execution(
    binding: Binding,
    status: ExecutionStatus,
    attempts: int,
    maxAttempts: int,
    nextRetryAt: Option<Time>,
    lockedAt: Option<Time>,
    lockedBy: Option<WorkerName>,
    leaseToken: Option<Token>,
    infoHash: Option<Hash>,
    infoHashV1: Option<Hash>,
    infoHashV2: Option<Hash>,
    sizeBytes: Option<int>,
    fileCount: Option<int>,
    validatedAt: Option<Time>,
    submittedAt: Option<Time>,
    verifiedAt: Option<Time>,
    reconciliationBy: Option<string>,
    reconciliationAt: Option<Time>,
    reconciliationReason: Option<string>)
  {
    function Unlocked(): Execution {
      this.(lockedAt := None, lockedBy := None, leaseToken := None)
    }
  }

  // ---- Hashes ---------------------------------------------------------------

  predicate IsHex(h: Hash) {
    forall c | c in h :: '0' <= c <= '9' || 'a' <= c <= 'f'
  }

  predicate HexOfLength(h: Option<Hash>, lengths: set<nat>) {
    h.Some? ==> |h.value| in lengths && IsHex(h.value)
  }

  /** The validated torrent that a worker reserves a submission for. */
  datatype Metadata = Metadata(v1: Option<Hash>, v2: Option<Hash>, size: int, files: int) {
    predicate Valid() {
      && HexOfLength(v1, {40}) && HexOfLength(v2, {64})
      && (v1.Some? || v2.Some?)
      && size > 0 && files > 0
    }

    function IdentityHashes(): set<Hash>
      requires v2.Some? ==> |v2.value| == 64
    {
      (if v1.Some? then {v1.value} else {}) + (if v2.Some? then {v2.value, v2.value[..40]} else {})
    }

    function Selected(): Hash
      requires v1.Some? || v2.Some?
    {
      if v1.Some? then v1.value else v2.value
    }
  }

  // ---- Table constraints ----------------------------------------------------

  predicate AttemptsBounded(e: Execution) {
    0 <= e.attempts <= e.maxAttempts && e.maxAttempts >= 1
  }

  predicate HashShapes(e: Execution) {
    && HexOfLength(e.infoHash, {40, 64})
    && HexOfLength(e.infoHashV1, {40})
    && HexOfLength(e.infoHashV2, {64})
  }

  predicate HashBinding(e: Execution) {
    || e.infoHash.None?
    || (e.infoHashV1.Some? && e.infoHash == e.infoHashV1)
    || (e.infoHashV2.Some?
        && (e.infoHash == e.infoHashV2
            || (|e.infoHashV2.value| >= 40 && e.infoHash.value == e.infoHashV2.value[..40])))
  }

  predicate LeaseFields(e: Execution) {
    e.lockedAt.Some? == e.lockedBy.Some? == e.leaseToken.Some?
  }

  predicate LeaseStatus(e: Execution) {
    e.status.Active() <==> e.lockedAt.Some?
  }

  predicate ValidationBundle(e: Execution) {
    if e.infoHash.None? then
      && e.infoHashV1.None? && e.infoHashV2.None? && e.sizeBytes.None? && e.fileCount.None?
      && e.validatedAt.None? && e.submittedAt.None?
    else
      && (e.infoHashV1.Some? || e.infoHashV2.Some?)
      && e.sizeBytes.Some? && e.sizeBytes.value > 0
      && e.fileCount.Some? && e.fileCount.value > 0
      && e.validatedAt.Some? && e.submittedAt.Some?
  }

  predicate SubmissionMetadata(e: Execution) {
    || (e.status.InSubmission() && e.infoHash.Some?)
    || e.status.Cancelled?
    || (!e.status.InSubmission() && !e.status.Cancelled? && e.infoHash.None?)
  }

  predicate VerifiedStatus(e: Execution) {
    e.status.Final() <==> e.verifiedAt.Some?
  }

  predicate ReconciliationFields(e: Execution) {
    && e.reconciliationBy.Some? == e.reconciliationAt.Some?
    && (e.status.ReconciliationPending? ==> e.reconciliationBy.Some?)
    && (e.reconciliationReason.Some? ==> e.reconciliationBy.Some?)
  }

  predicate AutomationBinding(b: Binding) {
    match b.origin
    case Manual => b.policyRevision.None? && b.decision.None?
    case Automation => b.policyRevision.Some? && b.decision.Some? && b.launchMode.AddPaused?
  }

  predicate TableConstraints(e: Execution) {
    && AttemptsBounded(e)
    && HashShapes(e)
    && HashBinding(e)
    && LeaseFields(e)
    && LeaseStatus(e)
    && ValidationBundle(e)
    && SubmissionMetadata(e)
    && VerifiedStatus(e)
    && ReconciliationFields(e)
    && AutomationBinding(e.binding)
  }

  predicate KeptOnceSet<T(==)>(before: Option<T>, after: Option<T>) {
    before.Some? ==> after == before
  }

  /** The before-update guard: bound columns never change, the hash bundle is written once. */
  predicate UpdateAllowed(before: Execution, after: Execution) {
    && after.binding == before.binding
    && KeptOnceSet(before.infoHash, after.infoHash)
    && KeptOnceSet(before.infoHashV1, after.infoHashV1)
    && KeptOnceSet(before.infoHashV2, after.infoHashV2)
    && KeptOnceSet(before.sizeBytes, after.sizeBytes)
    && KeptOnceSet(before.fileCount, after.fileCount)
    && KeptOnceSet(before.validatedAt, after.validatedAt)
    && KeptOnceSet(before.submittedAt, after.submittedAt)
    && KeptOnceSet(before.verifiedAt, after.verifiedAt)
  }
}
