/**
 The rows as objects whose columns are assigned one by one, with the services
 that assign them. Each method is proved to do exactly what the transaction
 function of the protocol says, and to log a change of status as one event that
 continues the audit trail. The environment of the workers runs every
 transaction of the protocol through these objects.
 */
module ExecutionServices {
  import opened Common
  import opened ExecutionRows
  import T = ExecutionTransactions

  class ApprovalRow {
    const expiresAt: Time
    var status: ApprovalStatus
    var decidedAt: Option<Time>

    constructor (expiresAt: Time)
      ensures Value() == Approval(ApprovalStatus.Pending, expiresAt, None)
    {
      this.expiresAt := expiresAt;
      status := ApprovalStatus.Pending;
      decidedAt := None;
    }

    /** The row as a session loads it. */
    constructor Load(a: Approval)
      ensures Value() == a
    {
      expiresAt, status, decidedAt := a.expiresAt, a.status, a.decidedAt;
    }

    function Value(): Approval
      reads this
    {
      Approval(status, expiresAt, decidedAt)
    }

    method Transition(target: ApprovalStatus, now: Time)
      modifies this
      ensures Value() == old(Value()).(status := target, decidedAt := Some(now))
    {
      status := target;
      decidedAt := Some(now);
    }

    method StageExpirationIfNeeded(now: Time) returns (expired: bool)
      modifies this
      ensures Value() == T.StageExpiration(old(Value()), now)
      ensures expired <==> Value() != old(Value())
      ensures expired ==> status.Expired? && !old(status).Expired?
    {
      if status != ApprovalStatus.Pending && status != Approved {
        return false;
      }
      if now < expiresAt {
        return false;
      }
      Transition(ApprovalStatus.Expired, now);
      return true;
    }

    method ExpireIfDue(now: Time)
      modifies this
      ensures Value() == T.ExpireIfDue(old(Value()), now)
    {
      if status == Approved && expiresAt <= now {
        Transition(ApprovalStatus.Expired, now);
      }
    }

    /** `require_pending_approval`: true when it does not raise. */
    method RequirePending(now: Time) returns (pending: bool)
      modifies this
      ensures Value() == T.StageExpiration(old(Value()), now)
      ensures pending <==> old(status).Pending? && now < expiresAt
    {
      if status == ApprovalStatus.Expired {
        return false;
      }
      var expired := StageExpirationIfNeeded(now);
      if expired || status != ApprovalStatus.Pending {
        return false;
      }
      return true;
    }

    /** `passable` stands for the preflight, acknowledgement and plan checks. */
    method Approve(passable: bool, now: Time) returns (ok: bool)
      modifies this
      ensures Value() == T.Decide(old(Value()), true, passable, now)
      ensures ok <==> old(status).Pending? && now < expiresAt && passable
      ensures ok ==> status.Approved?
    {
      var pending := RequirePending(now);
      if !pending || !passable {
        return false;
      }
      Transition(Approved, now);
      return true;
    }

    method Reject(now: Time) returns (ok: bool)
      modifies this
      ensures Value() == T.Decide(old(Value()), false, true, now)
      ensures ok <==> old(status).Pending? && now < expiresAt
      ensures ok ==> status.Rejected?
    {
      var pending := RequirePending(now);
      if !pending {
        return false;
      }
      Transition(Rejected, now);
      return true;
    }

    method Revoke(now: Time) returns (ok: bool)
      modifies this
      ensures Value() == T.Revoke(old(Value()), now)
      ensures ok <==> old(status).Approved? && now < expiresAt
      ensures ok ==> status.Revoked?
    {
      if status == ApprovalStatus.Expired {
        return false;
      }
      var expired := StageExpirationIfNeeded(now);
      if expired || status == Executing || status != Approved {
        return false;
      }
      Transition(ApprovalStatus.Revoked, now);
      return true;
    }

    method Consume(now: Time) returns (ok: bool)
      modifies this
      ensures ok <==> old(status).Executing?
      ensures ok ==> Value() == old(Value()).(status := ApprovalStatus.Consumed, decidedAt := Some(now))
      ensures !ok ==> Value() == T.StageExpiration(old(Value()), now)
    {
      if status == ApprovalStatus.Consumed || status == ApprovalStatus.Expired {
        return false;
      }
      var expired := StageExpirationIfNeeded(now);
      if expired || status != Executing {
        return false;
      }
      Transition(ApprovalStatus.Consumed, now);
      return true;
    }
  }

  /** An audit event records one change of status. */
  datatype Event = Event(from: Option<ExecutionStatus>, to: ExecutionStatus)

  predicate Chained(events: seq<Event>) {
    && events != []
    && events[0].from.None?
    && (forall i | 0 < i < |events| :: events[i].from == Some(events[i - 1].to))
  }

  /** The events spell out every status a row has had, from its creation to the present one. */
  predicate LeadsTo(events: seq<Event>, status: ExecutionStatus) {
    Chained(events) && events[|events| - 1].to == status
  }

  class ExecutionRow {
    const id: nat
    const createdAt: Time
    const binding: Binding
    const maxAttempts: int
    const approval: ApprovalRow
    var status: ExecutionStatus
    var attempts: int
    var nextRetryAt: Option<Time>
    var lockedAt: Option<Time>
    var lockedBy: Option<WorkerName>
    var leaseToken: Option<Token>
    var infoHash: Option<Hash>
    var infoHashV1: Option<Hash>
    var infoHashV2: Option<Hash>
    var sizeBytes: Option<int>
    var fileCount: Option<int>
    var validatedAt: Option<Time>
    var submittedAt: Option<Time>
    var verifiedAt: Option<Time>
    var reconciliationBy: Option<string>
    var reconciliationAt: Option<Time>
    var reconciliationReason: Option<string>
    var hasJob: bool
    var events: seq<Event>

    constructor (id: nat, createdAt: Time, binding: Binding, maxAttempts: int, approval: ApprovalRow)
      ensures this.id == id && this.createdAt == createdAt && this.approval == approval
      ensures Audited() && !hasJob
      ensures Value() == T.NewExecution(binding, maxAttempts)
    {
      this.id, this.createdAt, this.binding, this.maxAttempts := id, createdAt, binding, maxAttempts;
      this.approval := approval;
      status, attempts, nextRetryAt := ExecutionStatus.Pending, 0, None;
      lockedAt, lockedBy, leaseToken := None, None, None;
      infoHash, infoHashV1, infoHashV2, sizeBytes, fileCount := None, None, None, None, None;
      validatedAt, submittedAt, verifiedAt := None, None, None;
      reconciliationBy, reconciliationAt, reconciliationReason := None, None, None;
      hasJob := false;
      events := [Event(None, ExecutionStatus.Pending)];
    }

    /** The row as a session loads it. */
    constructor Load(id: nat, createdAt: Time, rows: T.Rows, approval: ApprovalRow, events: seq<Event>)
      ensures this.id == id && this.createdAt == createdAt && this.approval == approval
      ensures Value() == rows.execution && hasJob == rows.job && this.events == events
    {
      var e := rows.execution;
      this.id, this.createdAt, this.approval, this.events, hasJob := id, createdAt, approval, events, rows.job;
      binding, maxAttempts := e.binding, e.maxAttempts;
      status, attempts, nextRetryAt := e.status, e.attempts, e.nextRetryAt;
      lockedAt, lockedBy, leaseToken := e.lockedAt, e.lockedBy, e.leaseToken;
      infoHash, infoHashV1, infoHashV2 := e.infoHash, e.infoHashV1, e.infoHashV2;
      sizeBytes, fileCount := e.sizeBytes, e.fileCount;
      validatedAt, submittedAt, verifiedAt := e.validatedAt, e.submittedAt, e.verifiedAt;
      reconciliationBy, reconciliationAt := e.reconciliationBy, e.reconciliationAt;
      reconciliationReason := e.reconciliationReason;
    }

    function Value(): Execution
      reads this
    {
      Execution(binding, status, attempts, maxAttempts, nextRetryAt, lockedAt, lockedBy, leaseToken,
                infoHash, infoHashV1, infoHashV2, sizeBytes, fileCount, validatedAt, submittedAt, verifiedAt,
                reconciliationBy, reconciliationAt, reconciliationReason)
    }

    function Rows(): T.Rows
      reads this, approval
    {
      T.Rows(Value(), approval.Value(), hasJob)
    }

    predicate Audited()
      reads this
    {
      LeadsTo(events, status)
    }

    /** A change of status is one event, and nothing else is. */
    twostate predicate ChangeIsLogged()
      reads this
    {
      && Audited()
      && events == old(events) + if status == old(status) then [] else [Event(Some(old(status)), status)]
    }

    method AddEvent(from: ExecutionStatus)
      requires LeadsTo(events, from)
      modifies this`events
      ensures events == old(events) + [Event(Some(from), status)] && Audited()
    {
      events := events + [Event(Some(from), status)];
    }

    method ClearLease()
      modifies this
      ensures Value() == old(Value()).Unlocked() && hasJob == old(hasJob) && events == old(events)
    {
      lockedAt := None;
      lockedBy := None;
      leaseToken := None;
    }

    method CancelInvalidated()
      requires Audited()
      modifies this
      ensures Audited() && events == old(events) + [Event(Some(old(status)), status)]
      ensures Value() == T.CancelledRow(old(Value())) && hasJob == old(hasJob)
    {
      var previous := status;
      status := ExecutionStatus.Cancelled;
      nextRetryAt := None;
      ClearLease();
      AddEvent(previous);
    }

    /** `request_reconciliation`: true when it does not raise. */
    method RequestReconciliation(actor: string, reason: Option<string>, now: Time) returns (ok: bool)
      requires Audited()
      modifies this
      ensures ChangeIsLogged() && hasJob == old(hasJob)
      ensures Value() == T.RequestReconciliation(old(Value()), actor, reason, now)
      ensures ok <==> old(status) in {OutcomeUnknown, ReconciliationRequired, ReconciliationPending}
      ensures ok ==> status.ReconciliationPending?
      ensures old(status).ReconciliationPending? || !ok ==> unchanged(this)
    {
      if status == ReconciliationPending {
        return true;
      }
      if status != OutcomeUnknown && status != ReconciliationRequired {
        return false;
      }
      var previous := status;
      WriteReconciliation(actor, reason, now);
      AddEvent(previous);
      return true;
    }

    method WriteReconciliation(actor: string, reason: Option<string>, now: Time)
      modifies this
      ensures Value() == old(Value()).(status := ReconciliationPending, reconciliationBy := Some(actor),
                                       reconciliationAt := Some(now), reconciliationReason := reason)
      ensures hasJob == old(hasJob) && events == old(events)
    {
      status := ReconciliationPending;
      reconciliationBy := Some(actor);
      reconciliationAt := Some(now);
      reconciliationReason := reason;
    }

    /** `mark_reconciliation_required`: true when it does not raise. */
    method MarkReconciliationRequired(token: Option<Token>, now: Time, settings: T.Settings) returns (ok: bool)
      requires Audited()
      modifies this
      ensures ChangeIsLogged() && hasJob == old(hasJob)
      ensures Value() == T.MarkReconciliationRequired(old(Value()), token, now, settings)
      ensures ok <==> status.ReconciliationRequired?
      ensures ok ==> old(status) in {Submitting, OutcomeUnknown, ReconciliationRequired}
      ensures old(status).ReconciliationRequired? || !ok ==> unchanged(this)
    {
      if status == ReconciliationRequired {
        assert T.MarkReconciliationRequired(Value(), token, now, settings) == Value();
        return true;
      }
      if status != Submitting && status != OutcomeUnknown {
        return false;
      }
      if status == Submitting && (token.None? || !T.HasExecutionLease(Value(), token.value, now, settings)) {
        return false;
      }
      var previous := status;
      status := ReconciliationRequired;
      nextRetryAt := None;
      ClearLease();
      AddEvent(previous);
      return true;
    }

    /** `mark_outcome_unknown`: true when it does not raise. */
    method MarkOutcomeUnknown(token: Token, now: Time, settings: T.Settings) returns (ok: bool)
      requires Audited()
      modifies this
      ensures ChangeIsLogged() && hasJob == old(hasJob)
      ensures Value() == T.MarkOutcomeUnknown(old(Value()), token, now, settings)
      ensures ok <==> status.OutcomeUnknown?
      ensures ok ==> leaseToken.None? || old(status).OutcomeUnknown?
      ensures old(status).OutcomeUnknown? || !ok ==> unchanged(this)
    {
      if status == OutcomeUnknown {
        return true;
      }
      if status != Submitting {
        return false;
      }
      if !T.HasExecutionLease(Value(), token, now, settings) || infoHash.None? {
        return false;
      }
      var previous := status;
      status := OutcomeUnknown;
      nextRetryAt := None;
      ClearLease();
      AddEvent(previous);
      return true;
    }

    /** `persist_info_hash_before_submission`: true when it does not raise. */
    method PersistInfoHashBeforeSubmission(m: Metadata, expectedHash: Option<Hash>, token: Token, second: Time,
                                           utc: Time, settings: T.Settings) returns (ok: bool)
      requires Audited() && m.Valid()
      modifies this, approval
      ensures ChangeIsLogged()
      ensures match T.Persist(old(Rows()), token, m, expectedHash, second, utc, settings)
              case NotReserved => !ok && Rows() == old(Rows())
              case CancelledInstead(rows) => ok && Rows() == rows && status.Cancelled?
              case Reserved(rows) => ok && Rows() == rows && status.Submitting?
    {
      var selected := m.Selected();
      if !T.HasExecutionLease(Value(), token, second, settings) {
        return false;
      }
      if status == Submitting {
        return && infoHash == Some(selected) && infoHashV1 == m.v1 && infoHashV2 == m.v2
               && sizeBytes == Some(m.size) && fileCount == Some(m.files);
      }
      if status != Validating {
        return false;
      }
      ok := StageSubmission(m, expectedHash, utc);
    }

    method StageSubmission(m: Metadata, expectedHash: Option<Hash>, utc: Time) returns (ok: bool)
      requires Audited() && status.Validating? && m.Valid()
      modifies this, approval
      ensures ChangeIsLogged()
      ensures match T.StageSubmission(old(Rows()), m, expectedHash, utc)
              case NotReserved => !ok && Rows() == old(Rows())
              case CancelledInstead(rows) => ok && Rows() == rows && status.Cancelled?
              case Reserved(rows) => ok && Rows() == rows && status.Submitting?
    {
      approval.ExpireIfDue(utc);
      if approval.status != Approved {
        CancelInvalidated();
        return true;
      }
      var selected := m.Selected();
      if expectedHash.Some? {
        if expectedHash.value !in m.IdentityHashes() {
          return false;
        }
        selected := expectedHash.value;
      }
      WriteReservation(m, selected, utc);
      return true;
    }

    method WriteReservation(m: Metadata, selected: Hash, utc: Time)
      requires Audited()
      modifies this, approval
      ensures Audited() && events == old(events) + [Event(Some(old(status)), status)]
      ensures Rows() == T.ReservedRows(old(Rows()), m, selected, utc)
    {
      var previous := status;
      approval.status := Executing;
      WriteBundle(m, selected, utc);
      status := Submitting;
      nextRetryAt := None;
      AddEvent(previous);
    }

    method WriteBundle(m: Metadata, selected: Hash, utc: Time)
      modifies this
      ensures Value() == T.WithBundle(old(Value()), m, selected, utc)
      ensures hasJob == old(hasJob) && events == old(events)
    {
      WriteHashes(m, selected);
      sizeBytes := Some(m.size);
      fileCount := Some(m.files);
      validatedAt := Some(utc);
      submittedAt := Some(utc);
    }

    method WriteHashes(m: Metadata, selected: Hash)
      modifies this
      ensures Value() == old(Value()).(infoHash := Some(selected), infoHashV1 := m.v1, infoHashV2 := m.v2)
      ensures hasJob == old(hasJob) && events == old(events)
    {
      infoHash := Some(selected);
      infoHashV1 := m.v1;
      infoHashV2 := m.v2;
    }

    /**
     `finalize_download_submission`: true when it does not raise. `matches` stands
     for its checks of policy, target, state, hashes and size of the observed torrent.
     */
    method Finalize(outcome: ExecutionStatus, token: Token, matches: bool, now: Time, utc: Time, settings: T.Settings)
      returns (ok: bool)
      requires Audited() && outcome.Final()
      modifies this, approval
      ensures ChangeIsLogged()
      ensures Rows() == T.Finalize(old(Rows()), token, outcome, matches, now, utc, settings)
      ensures ok <==> hasJob && status == outcome
    {
      if status.Final() {
        return hasJob && status == outcome;
      }
      if hasJob || status != Submitting {
        return false;
      }
      if !T.HasExecutionLease(Value(), token, now, settings) || approval.status != Executing || !matches {
        return false;
      }
      hasJob := true;
      var consumed := approval.Consume(utc);
      var previous := status;
      WriteOutcome(outcome, utc);
      AddEvent(previous);
      return true;
    }

    method WriteOutcome(outcome: ExecutionStatus, utc: Time)
      modifies this
      ensures Value() == old(Value()).Unlocked().(status := outcome, verifiedAt := Some(utc), nextRetryAt := None)
      ensures hasJob == old(hasJob) && events == old(events)
    {
      status := outcome;
      verifiedAt := Some(utc);
      nextRetryAt := None;
      ClearLease();
    }
  }
}

/** The worker: how it claims, guards, renews, recovers and fails executions. */
module DownloadExecutors {
  import opened Common
  import opened ExecutionRows
  import opened ExecutionServices
  import T = ExecutionTransactions

  datatype GuardOutcome = LeaseLost | Raised | Denied | Permitted

  predicate Before(a: ExecutionRow, b: ExecutionRow) {
    a.createdAt < b.createdAt || (a.createdAt == b.createdAt && a.id <= b.id)
  }

  const RECOVERY_LIMIT := 50

  predicate LockedNoLater(a: ExecutionRow, b: ExecutionRow)
    reads a, b
  {
    a.lockedAt.Some? && b.lockedAt.Some?
    && (a.lockedAt.value < b.lockedAt.value || (a.lockedAt == b.lockedAt && a.id <= b.id))
  }

  predicate InOrder(rows: seq<ExecutionRow>)
    reads rows
  {
    forall i, j | 0 <= i < j < |rows| :: rows[i] != rows[j] && LockedNoLater(rows[i], rows[j])
  }

  /** The first fifty stale rows in the order of `locked_at`, then of `id`. */
  predicate AreLongestLocked(stale: seq<ExecutionRow>, unlocked: seq<ExecutionRow>, now: Time, settings: T.Settings)
    reads stale, unlocked
  {
    && |stale| <= RECOVERY_LIMIT
    && (forall row | row in stale :: row in unlocked && T.IsStale(row.Value(), now, settings))
    && InOrder(stale)
    && (forall other | other in unlocked && other !in stale && T.IsStale(other.Value(), now, settings) ::
          |stale| == RECOVERY_LIMIT && forall row | row in stale :: LockedNoLater(row, other))
  }

  class DownloadExecutor {
    const worker: WorkerName
    const settings: T.Settings

    constructor (worker: WorkerName, settings: T.Settings)
      ensures this.worker == worker && this.settings == settings
    {
      this.worker, this.settings := worker, settings;
    }

    method RetryDelay(attempts: int) returns (delay: int)
      ensures delay == T.RetryDelay(settings, attempts)
    {
      var doublings := if attempts - 1 > 0 then attempts - 1 else 0;
      delay := settings.retryBase * T.Power2(doublings);
      if settings.retryMax < delay {
        delay := settings.retryMax;
      }
    }

    /** The first claimable row in order of creation among those no other transaction has locked. */
    method SelectClaimable(unlocked: seq<ExecutionRow>, now: Time) returns (first: ExecutionRow?)
      ensures first == null <==> forall row | row in unlocked :: !T.IsClaimable(row.Value(), now)
      ensures first != null ==> first in unlocked && T.IsClaimable(first.Value(), now)
      ensures first != null ==> forall row | row in unlocked && T.IsClaimable(row.Value(), now) :: Before(first, row)
    {
      first := null;
      for i := 0 to |unlocked|
        invariant first == null <==> forall row | row in unlocked[..i] :: !T.IsClaimable(row.Value(), now)
        invariant first != null ==> first in unlocked && T.IsClaimable(first.Value(), now)
        invariant first != null ==>
                    forall row | row in unlocked[..i] && T.IsClaimable(row.Value(), now) :: Before(first, row)
      {
        if T.IsClaimable(unlocked[i].Value(), now) && (first == null || !Before(first, unlocked[i])) {
          first := unlocked[i];
        }
      }
      assert unlocked[..|unlocked|] == unlocked;
    }

    method ClaimNextExecution(unlocked: seq<ExecutionRow>, newToken: Token, now: Time) returns (claimed: ExecutionRow?)
      requires forall row | row in unlocked :: row.Audited()
      modifies unlocked
      ensures claimed == null <==> forall row | row in unlocked :: !T.IsClaimable(old(row.Value()), now)
      ensures claimed != null ==>
                && claimed in unlocked
                && T.IsClaimable(old(claimed.Value()), now)
                && claimed.Value() == T.Claimed(old(claimed.Value()), T.Claim(worker, newToken), now)
                && claimed.ChangeIsLogged()
                && (forall row | row in unlocked && T.IsClaimable(old(row.Value()), now) :: Before(claimed, row))
      ensures forall row | row in unlocked && row != claimed :: unchanged(row)
      ensures forall row | row in unlocked :: row.Audited() && row.hasJob == old(row.hasJob)
    {
      claimed := SelectClaimable(unlocked, now);
      if claimed == null {
        return;
      }
      var previous := claimed.status;
      WriteClaim(claimed, newToken, now);
      claimed.AddEvent(previous);
    }

    method WriteClaim(row: ExecutionRow, newToken: Token, now: Time)
      modifies row
      ensures row.Value() == T.Claimed(old(row.Value()), T.Claim(worker, newToken), now)
      ensures row.hasJob == old(row.hasJob) && row.events == old(row.events)
    {
      row.status := Validating;
      row.attempts := row.attempts + 1;
      row.nextRetryAt := None;
      row.lockedAt := Some(now);
      row.lockedBy := Some(worker);
      row.leaseToken := Some(newToken);
    }

    method CancelByAutomationFence(row: ExecutionRow, now: Time)
      requires row.Audited() && row.status.Active()
      modifies row, row.approval
      ensures row.ChangeIsLogged()
      ensures row.Rows() == T.FenceCancelled(old(row.Rows()), now)
    {
      row.CancelInvalidated();
      if row.approval.status == Approved || row.approval.status == Executing {
        row.approval.Transition(ApprovalStatus.Revoked, now);
      }
    }

    method EnsureExternalActionAllowed(row: ExecutionRow, token: Token, expected: ExecutionStatus,
                                       writeMayHaveOccurred: bool, sight: T.Sight) returns (outcome: GuardOutcome)
      requires row.Audited()
      modifies row, row.approval
      ensures row.ChangeIsLogged()
      ensures match T.Guard(old(row.Rows()), T.Claim(worker, token), expected, writeMayHaveOccurred, sight, settings)
              case LeaseLost => outcome == LeaseLost && row.Rows() == old(row.Rows())
              case Raised => outcome == Raised && row.Rows() == old(row.Rows())
              case Refused(rows) => outcome == Denied && row.Rows() == rows
              case Allowed(rows) => outcome == Permitted && row.Rows() == rows
      ensures outcome == Permitted <==> T.MayAct(old(row.Rows()), T.Claim(worker, token), expected, sight, settings)
      ensures outcome == LeaseLost <==>
                !T.LeaseRuns(old(row.Value()), T.Claim(worker, token), expected, sight.now, settings)
    {
      if !T.HasFreshLease(row.Value(), T.Claim(worker, token), Some(expected), sight.now, settings) {
        return LeaseLost;
      }
      if !sight.verifies {
        return Raised;
      }
      if row.binding.origin.Automation? && sight.fenceBroken {
        if writeMayHaveOccurred {
          return Raised;
        }
        CancelByAutomationFence(row, sight.now);
        return Denied;
      }
      if expected == Validating {
        row.approval.ExpireIfDue(sight.now);
        if row.approval.status != Approved {
          row.CancelInvalidated();
          return Denied;
        }
      } else if row.approval.status != Executing {
        return Raised;
      }
      row.lockedAt := Some(sight.now);
      return Permitted;
    }

    /** False when the reservation raises. */
    method ReserveSubmission(row: ExecutionRow, token: Token, m: Metadata, expectedHash: Option<Hash>,
                             clocks: T.ReserveClocks) returns (ok: bool)
      requires row.Audited() && m.Valid()
      modifies row, row.approval
      ensures row.ChangeIsLogged()
      ensures match T.Reserve(old(row.Rows()), T.Claim(worker, token), m, expectedHash, clocks, settings)
              case NotReserved => !ok && row.Rows() == old(row.Rows())
              case CancelledInstead(rows) => ok && row.Rows() == rows && row.status.Cancelled?
              case Reserved(rows) => ok && row.Rows() == rows && row.status.Submitting?
    {
      if !T.HasFreshLease(row.Value(), T.Claim(worker, token), Some(Validating), clocks.first, settings) {
        return false;
      }
      ok := row.PersistInfoHashBeforeSubmission(m, expectedHash, token, clocks.second, clocks.utc, settings);
    }

    /**
     A renewed lease is good for a whole lease time from `now`: until then its
     holder passes every check and no recovery selects the row. A lease that is
     lost or too old is not revived.
     */
    method RenewLease(row: ExecutionRow, token: Token, now: Time) returns (renewed: bool)
      modifies row
      ensures row.Value() == T.Renewed(old(row.Value()), T.Claim(worker, token), now, settings)
      ensures renewed <==> T.HasFreshLease(old(row.Value()), T.Claim(worker, token), None, now, settings)
      ensures renewed ==> forall later: Time | later < now + settings.leaseSeconds ::
                && T.HasFreshLease(row.Value(), T.Claim(worker, token), Some(row.status), later, settings)
                && !T.IsStale(row.Value(), later, settings)
      ensures !renewed ==> unchanged(row)
      ensures row.hasJob == old(row.hasJob) && row.events == old(row.events)
    {
      if !T.HasFreshLease(row.Value(), T.Claim(worker, token), None, now, settings) {
        return false;
      }
      row.lockedAt := Some(now);
      return true;
    }

    method RecoverRow(row: ExecutionRow, now: Time)
      requires row.Audited() && T.IsStale(row.Value(), now, settings)
      modifies row
      ensures row.ChangeIsLogged() && row.hasJob == old(row.hasJob)
      ensures row.Value() == T.Recovered(old(row.Value()), now, settings) && row.leaseToken.None?
    {
      var previous := row.status;
      var target: ExecutionStatus;
      if previous == Submitting {
        target := ReconciliationRequired;
        row.nextRetryAt := None;
      } else {
        var retry := row.attempts < row.maxAttempts;
        target := if retry then RetryWait else Failed;
        if retry {
          var delay := RetryDelay(row.attempts);
          row.nextRetryAt := Some(now + delay);
        } else {
          row.nextRetryAt := None;
        }
      }
      row.status := target;
      row.ClearLease();
      row.AddEvent(previous);
    }

    /** The stale row that has been locked longest among those not in `taken`. */
    method LongestLocked(unlocked: seq<ExecutionRow>, taken: seq<ExecutionRow>, now: Time)
      returns (first: ExecutionRow?)
      ensures first == null <==>
              forall row | row in unlocked :: row in taken || !T.IsStale(row.Value(), now, settings)
      ensures first != null ==>
                && first in unlocked && first !in taken && T.IsStale(first.Value(), now, settings)
                && forall row | row in unlocked && row !in taken && T.IsStale(row.Value(), now, settings) ::
                     LockedNoLater(first, row)
    {
      first := null;
      for i := 0 to |unlocked|
        invariant first == null <==>
                  forall row | row in unlocked[..i] :: row in taken || !T.IsStale(row.Value(), now, settings)
        invariant first != null ==>
                    && first in unlocked && first !in taken && T.IsStale(first.Value(), now, settings)
                    && forall row | row in unlocked[..i] && row !in taken && T.IsStale(row.Value(), now, settings) ::
                         LockedNoLater(first, row)
      {
        var row := unlocked[i];
        if row !in taken && T.IsStale(row.Value(), now, settings) && (first == null || !LockedNoLater(first, row)) {
          first := row;
        }
      }
      assert unlocked[..|unlocked|] == unlocked;
    }

    /** The query of the recovery: at most fifty stale rows, those locked longest, in that order. */
    method SelectStale(unlocked: seq<ExecutionRow>, now: Time) returns (stale: seq<ExecutionRow>)
      ensures AreLongestLocked(stale, unlocked, now, settings)
    {
      stale := [];
      while |stale| < RECOVERY_LIMIT
        invariant |stale| <= RECOVERY_LIMIT
        invariant forall row | row in stale :: row in unlocked && T.IsStale(row.Value(), now, settings)
        invariant InOrder(stale)
        invariant forall row, other | row in stale && other in unlocked && other !in stale
                                      && T.IsStale(other.Value(), now, settings) :: LockedNoLater(row, other)
      {
        var next := LongestLocked(unlocked, stale, now);
        if next == null {
          return;
        }
        stale := stale + [next];
      }
    }

    /** The loop of `_recover_stale_executions` over the rows that its query, `SelectStale`, returned. */
    method RecoverStaleExecutions(stale: seq<ExecutionRow>, now: Time)
      requires forall row | row in stale :: row.Audited() && T.IsStale(row.Value(), now, settings)
      requires InOrder(stale)
      modifies stale
      ensures forall row | row in stale ::
                && row.Value() == T.Recovered(old(row.Value()), now, settings)
                && row.leaseToken.None? && row.ChangeIsLogged() && row.hasJob == old(row.hasJob)
    {
      assert forall i, j | 0 <= i < j < |stale| :: stale[i] != stale[j];
      for i := 0 to |stale|
        invariant forall k | 0 <= k < i ::
                    && stale[k].Value() == T.Recovered(old(stale[k].Value()), now, settings)
                    && stale[k].leaseToken.None? && stale[k].ChangeIsLogged() && stale[k].hasJob == old(stale[k].hasJob)
        invariant forall k | i <= k < |stale| :: unchanged(stale[k])
      {
        RecoverRow(stale[i], now);
      }
    }

    method MarkValidationFailure(row: ExecutionRow, token: Token, retryable: bool, now: Time)
      requires row.Audited()
      modifies row
      ensures row.ChangeIsLogged() && row.hasJob == old(row.hasJob)
      ensures row.Value() == T.ValidationFailed(old(row.Value()), T.Claim(worker, token), retryable, now, settings)
      // A retry that is scheduled can be claimed once its delay is over; nothing else can.
      ensures row.status.RetryWait? && !old(row.status).RetryWait? ==>
                forall later: Time :: T.IsClaimable(row.Value(), later)
                                      <==> now + T.RetryDelay(settings, old(row.attempts)) <= later
    {
      if !T.OwnsLease(row.Value(), T.Claim(worker, token)) {
        return;
      }
      if row.status != Validating {
        return;
      }
      var retry := retryable && row.attempts < row.maxAttempts;
      var previous := row.status;
      row.status := if retry then RetryWait else Failed;
      var delay := RetryDelay(row.attempts);
      row.nextRetryAt := if retry then Some(now + delay) else None;
      row.ClearLease();
      row.AddEvent(previous);
    }

    method MarkReservedFailure(row: ExecutionRow, token: Token, addMayHaveOccurred: bool, now: Time)
      requires row.Audited()
      modifies row
      ensures row.ChangeIsLogged() && row.hasJob == old(row.hasJob)
      ensures row.Value()
              == T.ReservedFailed(old(row.Value()), T.Claim(worker, token), addMayHaveOccurred, now, settings)
    {
      if !T.OwnsLease(row.Value(), T.Claim(worker, token)) || row.status != Submitting {
        return;
      }
      var marked: bool;
      if addMayHaveOccurred {
        marked := row.MarkOutcomeUnknown(token, now, settings);
      } else {
        marked := row.MarkReconciliationRequired(Some(token), now, settings);
      }
    }
  }
}
