/** What holds over every run of the execution protocol. */
module ExecutionSafety {
  import opened Common
  import opened ExecutionRows
  import opened ExecutionTransactions
  import opened ExecutionProtocol

  lemma InitialStateIsFine()
    ensures Invariant(INITIAL)
  {
  }

  // ---- At most one external add ---------------------------------------------------

  /** The statuses in which qBittorrent may have been told to add the torrent. */
  predicate MayHaveAdded(s: ExecutionStatus) {
    s.Submitted? || s.HoldsApproval()
  }

  /**
   Over every interleaving of workers, crashes, delays, lease expiry and recovery:
   at most one add is issued per approval, whether it arrives or not; none before
   a reservation or of a cancelled execution; exactly one when the outcome is
   SUBMITTED and none when the torrent was already present.
   */
  lemma AtMostOneAdd(actions: seq<Action>, settings: Settings, id: ApprovalId)
    requires id in Run(INITIAL, actions, settings).cases
    ensures
      var c := Run(INITIAL, actions, settings).cases[id];
      && |c.adds| <= 1
      && (c.adds != [] ==> c.execution.Some? && MayHaveAdded(c.execution.value.status))
      && (c.execution.Some? && c.execution.value.status.Submitted? ==> |c.adds| == 1)
  {
    InitialStateIsFine();
    RunKeepsInvariant(INITIAL, actions, settings);
    assert CaseInvariant(Run(INITIAL, actions, settings), Run(INITIAL, actions, settings).cases[id]);
  }

  lemma StepKeepsAdds(s: State, a: Action, settings: Settings, id: ApprovalId)
    requires id in s.cases
    ensures id in Step(s, a, settings).cases && s.cases[id].adds <= Step(s, a, settings).cases[id].adds
  {
    if Target(s, a) != Some(id) {
      OtherCasesAreUnchanged(s, a, settings, id);
    } else if a.OnCase() {
      CaseStepKeepsAdds(s, a, settings);
    } else if !a.ClaimNext? && HasExecution(s, id) {
      WorkerStepKeepsAdds(s, a, settings);
    }
  }

  lemma CaseStepKeepsAdds(s: State, a: Action, settings: Settings)
    requires a.OnCase() && a.id in s.cases
    ensures a.id in CaseAction(s, a, settings).cases
              && CaseAction(s, a, settings).cases[a.id].adds == s.cases[a.id].adds
  {
  }

  lemma WorkerStepKeepsAdds(s: State, a: Action, settings: Settings)
    requires a.ByHolder() && !PhaseOf(s, a.worker).Idle? && HasExecution(s, PhaseOf(s, a.worker).id)
    ensures
      var id := PhaseOf(s, a.worker).id;
      id in WorkerAction(s, a, settings).cases && s.cases[id].adds <= WorkerAction(s, a, settings).cases[id].adds
  {
  }

  /** An issued add stays on record, so the counts of `AtMostOneAdd` are of whole runs. */
  lemma {:induction false} AddsAreNeverForgotten(s: State, actions: seq<Action>, settings: Settings, id: ApprovalId)
    requires id in s.cases
    ensures id in Run(s, actions, settings).cases && s.cases[id].adds <= Run(s, actions, settings).cases[id].adds
    decreases |actions|
  {
    if actions != [] {
      StepKeepsAdds(s, actions[0], settings, id);
      AddsAreNeverForgotten(Step(s, actions[0], settings), actions[1..], settings, id);
    }
  }

  /** Approval, execution and download job always agree. */
  lemma ApprovalExecutionJobCoupling(actions: seq<Action>, settings: Settings, id: ApprovalId)
    requires id in Run(INITIAL, actions, settings).cases
    ensures
      var c := Run(INITIAL, actions, settings).cases[id];
      && (c.approval.status.Executing? <==> c.execution.Some? && c.execution.value.status.HoldsApproval())
      && (c.approval.status.Consumed? <==> c.execution.Some? && c.execution.value.status.Final())
      && (c.job <==> c.approval.status.Consumed?)
  {
    InitialStateIsFine();
    RunKeepsInvariant(INITIAL, actions, settings);
    assert CaseInvariant(Run(INITIAL, actions, settings), Run(INITIAL, actions, settings).cases[id]);
  }

  // ---- One step, seen from one case -----------------------------------------------

  /** The case an action works on. */
  function Target(s: State, a: Action): Option<ApprovalId> {
    if a.OnCase() || a.ClaimNext? then Some(a.id)
    else if a.Stop? || PhaseOf(s, a.worker).Idle? then None
    else Some(PhaseOf(s, a.worker).id)
  }

  lemma OtherCasesAreUnchanged(s: State, a: Action, settings: Settings, id: ApprovalId)
    requires id in s.cases && Target(s, a) != Some(id)
    ensures id in Step(s, a, settings).cases && Step(s, a, settings).cases[id] == s.cases[id]
  {
  }

  lemma CaseStepAdvances(s: State, a: Action, settings: Settings)
    requires a.OnCase() && HasExecution(s, a.id) && Proper(s.cases[a.id].execution.value)
    ensures HasExecution(CaseAction(s, a, settings), a.id)
    ensures Advances(s.cases[a.id].execution.value, CaseAction(s, a, settings).cases[a.id].execution.value)
  {
    var e := s.cases[a.id].execution.value;
    if a.RecoverStale? {
      RecoverAdvances(e, a.now, settings);
    } else if a.AskReconciliation? {
      ReconciliationAdvances(e, a.actor, a.reason, None, a.now, settings);
    } else if a.RequireReconciliation? {
      ReconciliationAdvances(e, "", None, None, a.now, settings);
    }
  }

  lemma ClaimStepAdvances(s: State, w: WorkerName, id: ApprovalId, now: Time, settings: Settings)
    requires HasExecution(s, id) && Proper(s.cases[id].execution.value)
    ensures HasExecution(Step(s, ClaimNext(w, id, now), settings), id)
    ensures Advances(s.cases[id].execution.value,
                     Step(s, ClaimNext(w, id, now), settings).cases[id].execution.value)
  {
    if IsClaimable(s.cases[id].execution.value, now) {
      ClaimAdvances(s.cases[id].execution.value, Claim(w, s.nextToken), now);
    }
  }

  /** No step ever breaks a table constraint or the write-once rule, or undoes progress. */
  lemma StepAdvances(s: State, a: Action, settings: Settings, id: ApprovalId)
    requires Invariant(s) && HasExecution(s, id)
    ensures HasExecution(Step(s, a, settings), id)
    ensures Advances(s.cases[id].execution.value, Step(s, a, settings).cases[id].execution.value)
  {
    assert CaseInvariant(s, s.cases[id]);
    if Target(s, a) != Some(id) {
      OtherCasesAreUnchanged(s, a, settings, id);
    } else if a.OnCase() {
      CaseStepAdvances(s, a, settings);
    } else if a.ClaimNext? {
      ClaimStepAdvances(s, a.worker, id, a.now, settings);
    } else {
      WorkerStepAdvances(s, a, settings);
    }
  }

  lemma WorkerStepAdvances(s: State, a: Action, settings: Settings)
    requires Invariant(s)
    requires a.ByHolder()
    requires !PhaseOf(s, a.worker).Idle? && HasExecution(s, PhaseOf(s, a.worker).id)
    ensures
      var id := PhaseOf(s, a.worker).id;
      && HasExecution(WorkerAction(s, a, settings), id)
      && Advances(s.cases[id].execution.value, WorkerAction(s, a, settings).cases[id].execution.value)
  {
    var p := PhaseOf(s, a.worker);
    assert CaseInvariant(s, s.cases[p.id]);
    if a.CheckValidating? {
      GuardStepAdvances(s, a.worker, Validating, false, a.sight, settings, p);
    } else if a.CheckSubmitting? {
      GuardStepAdvances(s, a.worker, Submitting, !p.Holding?, a.sight, settings, p);
    } else if a.WriteGuard? {
      GuardStepAdvances(s, a.worker, Submitting, false, a.sight, settings, Armed(p.id, p.token));
    } else {
      UnguardedStepAdvances(s, a, settings);
    }
  }

  lemma UnguardedStepAdvances(s: State, a: Action, settings: Settings)
    requires a.ReserveSubmission? || a.SendAdd? || a.RenewLease? || a.FinalizeSubmission? || a.FailValidation?
             || a.FailReserved?
    requires !PhaseOf(s, a.worker).Idle? && HasExecution(s, PhaseOf(s, a.worker).id)
    requires Proper(s.cases[PhaseOf(s, a.worker).id].execution.value)
    ensures
      var id := PhaseOf(s, a.worker).id;
      && HasExecution(WorkerAction(s, a, settings), id)
      && Advances(s.cases[id].execution.value, WorkerAction(s, a, settings).cases[id].execution.value)
  {
    var p := PhaseOf(s, a.worker);
    var c := s.cases[p.id];
    var e := c.execution.value;
    var claim := Claim(a.worker, p.token);
    if a.ReserveSubmission? && a.metadata.Valid() {
      ReserveAdvances(c.ToRows(), claim, a.metadata, a.expectedHash, a.clocks, settings);
    } else if a.RenewLease? {
      RenewAdvances(e, claim, a.now, settings);
    } else if a.FinalizeSubmission? && a.outcome.Final() {
      FinalizeAdvances(c.ToRows(), p.token, a.outcome, a.matches, a.now, a.utc, settings);
    } else if a.FailValidation? {
      FailureAdvances(e, claim, a.retryable, false, a.now, settings);
    } else if a.FailReserved? {
      FailureAdvances(e, claim, false, !p.Holding?, a.now, settings);
    }
  }

  lemma GuardStepAdvances(s: State, w: WorkerName, expected: ExecutionStatus, written: bool, sight: Sight,
                          settings: Settings, next: Phase)
    requires !PhaseOf(s, w).Idle? && HasExecution(s, PhaseOf(s, w).id)
    requires Proper(s.cases[PhaseOf(s, w).id].execution.value)
    ensures
      var id := PhaseOf(s, w).id;
      var after := GuardStep(s, w, expected, written, sight, settings, next);
      HasExecution(after, id) && Advances(s.cases[id].execution.value, after.cases[id].execution.value)
  {
    var p := PhaseOf(s, w);
    GuardAdvances(s.cases[p.id].ToRows(), Claim(w, p.token), expected, written, sight, settings);
  }

  /** Every row of every reachable state satisfies the table constraints. */
  lemma TableConstraintsHold(actions: seq<Action>, settings: Settings, id: ApprovalId)
    requires HasExecution(Run(INITIAL, actions, settings), id)
    ensures TableConstraints(Run(INITIAL, actions, settings).cases[id].execution.value)
  {
    InitialStateIsFine();
    RunKeepsInvariant(INITIAL, actions, settings);
    assert CaseInvariant(Run(INITIAL, actions, settings), Run(INITIAL, actions, settings).cases[id]);
  }

  /** Once a hash bundle has been persisted, no continuation of the run changes it. */
  lemma {:induction false} HashBundleIsWrittenOnce(s: State, actions: seq<Action>, settings: Settings, id: ApprovalId)
    requires Invariant(s) && HasExecution(s, id)
    ensures HasExecution(Run(s, actions, settings), id)
    ensures UpdateAllowed(s.cases[id].execution.value, Run(s, actions, settings).cases[id].execution.value)
    decreases |actions|
  {
    if actions != [] {
      StepAdvances(s, actions[0], settings, id);
      StepKeepsInvariant(s, actions[0], settings);
      HashBundleIsWrittenOnce(Step(s, actions[0], settings), actions[1..], settings, id);
    }
  }

  // ---- Fencing ---------------------------------------------------------------------

  /** A token that has been issued but is not the lease of this case. */
  predicate Fenced(s: State, id: ApprovalId, t: Token) {
    && HasExecution(s, id)
    && t < s.nextToken
    && s.cases[id].execution.value.leaseToken != Some(t)
  }

  /** Nothing but a claim puts a token on a row. */
  predicate TokenKeptOrCleared(before: Execution, after: Execution) {
    after.leaseToken == before.leaseToken || after.leaseToken.None?
  }

  lemma CaseStepKeepsToken(s: State, a: Action, settings: Settings)
    requires a.OnCase() && HasExecution(s, a.id)
    ensures HasExecution(CaseAction(s, a, settings), a.id)
    ensures TokenKeptOrCleared(s.cases[a.id].execution.value, CaseAction(s, a, settings).cases[a.id].execution.value)
    ensures CaseAction(s, a, settings).nextToken == s.nextToken
  {
  }

  lemma WorkerStepKeepsToken(s: State, a: Action, settings: Settings)
    requires a.ByHolder()
    requires !PhaseOf(s, a.worker).Idle? && HasExecution(s, PhaseOf(s, a.worker).id)
    ensures
      var id := PhaseOf(s, a.worker).id;
      && HasExecution(WorkerAction(s, a, settings), id)
      && TokenKeptOrCleared(s.cases[id].execution.value, WorkerAction(s, a, settings).cases[id].execution.value)
      && WorkerAction(s, a, settings).nextToken == s.nextToken
  {
  }

  lemma TokensOnlyGrow(s: State, a: Action, settings: Settings)
    ensures s.nextToken <= Step(s, a, settings).nextToken
  {
  }

  lemma StepKeepsFence(s: State, a: Action, settings: Settings, id: ApprovalId, t: Token)
    requires Fenced(s, id, t)
    ensures Fenced(Step(s, a, settings), id, t)
  {
    TokensOnlyGrow(s, a, settings);
    if Target(s, a) != Some(id) {
      OtherCasesAreUnchanged(s, a, settings, id);
    } else if a.OnCase() {
      CaseStepKeepsToken(s, a, settings);
    } else if !a.ClaimNext? {
      WorkerStepKeepsToken(s, a, settings);
    }
  }

  /** A lost lease is lost for ever, whatever any clock says. */
  lemma {:induction false} LostLeaseStaysLost(s: State, actions: seq<Action>, settings: Settings, id: ApprovalId,
                                              t: Token)
    requires Invariant(s) && Fenced(s, id, t)
    ensures Invariant(Run(s, actions, settings)) && Fenced(Run(s, actions, settings), id, t)
    decreases |actions|
  {
    if actions != [] {
      StepKeepsFence(s, actions[0], settings, id, t);
      StepKeepsInvariant(s, actions[0], settings);
      LostLeaseStaysLost(Step(s, actions[0], settings), actions[1..], settings, id, t);
    }
  }

  /** No database step of a fenced worker changes approval, execution or job. */
  lemma FencedWorkerChangesNothing(s: State, a: Action, settings: Settings)
    requires a.ByHolder()
    requires !PhaseOf(s, a.worker).Idle?
    requires Fenced(s, PhaseOf(s, a.worker).id, PhaseOf(s, a.worker).token)
    ensures
      var id := PhaseOf(s, a.worker).id;
      && HasExecution(Step(s, a, settings), id)
      && Step(s, a, settings).cases[id].ToRows() == s.cases[id].ToRows()
      && (!a.SendAdd? ==> Step(s, a, settings).cases[id].adds == s.cases[id].adds)
  {
  }

  /** Recovery fences the holder it took the lease from, for the rest of the run. */
  lemma RecoveryFencesTheHolder(s: State, now: Time, actions: seq<Action>, settings: Settings, id: ApprovalId, t: Token)
    requires Invariant(s) && HasExecution(s, id)
    requires s.cases[id].execution.value.leaseToken == Some(t)
    requires IsStale(s.cases[id].execution.value, now, settings)
    ensures Fenced(Run(Step(s, RecoverStale(id, now), settings), actions, settings), id, t)
  {
    assert CaseInvariant(s, s.cases[id]);
    RecoverAdvances(s.cases[id].execution.value, now, settings);
    StepKeepsInvariant(s, RecoverStale(id, now), settings);
    LostLeaseStaysLost(Step(s, RecoverStale(id, now), settings), actions, settings, id, t);
  }

  // ---- No add without a guard --------------------------------------------------------

  /** Action `i` is a write guard of this token, and everything it looks at permits the add. */
  ghost predicate GuardPassed(actions: seq<Action>, settings: Settings, id: ApprovalId, w: WorkerName, t: Token,
                              i: int)
  {
    && 0 <= i < |actions| && actions[i].WriteGuard? && actions[i].worker == w
    && var s := Run(INITIAL, actions[..i], settings);
       && PhaseOf(s, w) == Holding(id, t) && HasExecution(s, id)
       && MayAct(s.cases[id].ToRows(), Claim(w, t), Submitting, actions[i].sight, settings)
  }

  /** Action `j` issues the add of this token, after a guard that passed. */
  ghost predicate AddIssued(actions: seq<Action>, settings: Settings, id: ApprovalId, w: WorkerName, t: Token,
                            i: int, j: int)
  {
    && 0 <= i < j < |actions| && actions[j].SendAdd? && actions[j].worker == w
    && GuardPassed(actions, settings, id, w, t, i)
    && PhaseOf(Run(INITIAL, actions[..j], settings), w) == Armed(id, t)
  }

  lemma OnlyGuardsArm(s: State, a: Action, settings: Settings, w: WorkerName, id: ApprovalId, t: Token)
    requires PhaseOf(Step(s, a, settings), w) == Armed(id, t) && PhaseOf(s, w) != Armed(id, t)
    ensures a.WriteGuard? && a.worker == w && PhaseOf(s, w) == Holding(id, t) && HasExecution(s, id)
    ensures MayAct(s.cases[id].ToRows(), Claim(w, t), Submitting, a.sight, settings)
  {
    if a.WriteGuard? && a.worker == w && HasExecution(s, id) {
      GuardDecides(s.cases[id].ToRows(), Claim(w, t), Submitting, false, a.sight, settings);
    }
  }

  lemma OnlySendingAdds(s: State, a: Action, settings: Settings, id: ApprovalId)
    requires id in s.cases && Step(s, a, settings).cases[id].adds != s.cases[id].adds
    ensures a.SendAdd? && PhaseOf(s, a.worker).Armed? && PhaseOf(s, a.worker).id == id
    ensures Step(s, a, settings).cases[id].adds == s.cases[id].adds + [PhaseOf(s, a.worker).token]
  {
    if Target(s, a) != Some(id) {
      OtherCasesAreUnchanged(s, a, settings, id);
    } else if a.OnCase() {
      CaseStepKeepsAdds(s, a, settings);
    }
  }

  lemma LongerRunKeepsGuard(actions: seq<Action>, a: Action, settings: Settings, id: ApprovalId, w: WorkerName,
                            t: Token, i: int)
    requires GuardPassed(actions, settings, id, w, t, i)
    ensures GuardPassed(actions + [a], settings, id, w, t, i)
  {
    assert (actions + [a])[..i] == actions[..i];
  }

  lemma {:induction false} ArmedWorkersPassedTheGuard(actions: seq<Action>, settings: Settings, w: WorkerName,
                                                      id: ApprovalId, t: Token)
    returns (i: int)
    requires PhaseOf(Run(INITIAL, actions, settings), w) == Armed(id, t)
    ensures GuardPassed(actions, settings, id, w, t, i)
    decreases |actions|
  {
    var n := |actions| - 1;
    var before, a := actions[..n], actions[n];
    assert actions == before + [a];
    RunAppend(INITIAL, before, a, settings);
    if PhaseOf(Run(INITIAL, before, settings), w) == Armed(id, t) {
      i := ArmedWorkersPassedTheGuard(before, settings, w, id, t);
      LongerRunKeepsGuard(before, a, settings, id, w, t, i);
    } else {
      i := n;
      OnlyGuardsArm(Run(INITIAL, before, settings), a, settings, w, id, t);
    }
  }

  /** Every add of every run was issued by a worker that had passed the write guard with the same token. */
  lemma {:induction false} AddsFollowTheirGuard(actions: seq<Action>, settings: Settings, id: ApprovalId, t: Token)
    returns (w: WorkerName, i: int, j: int)
    requires id in Run(INITIAL, actions, settings).cases && t in Run(INITIAL, actions, settings).cases[id].adds
    ensures AddIssued(actions, settings, id, w, t, i, j)
    decreases |actions|
  {
    var n := |actions| - 1;
    var before, a := actions[..n], actions[n];
    assert actions == before + [a];
    RunAppend(INITIAL, before, a, settings);
    var s := Run(INITIAL, before, settings);
    if id in s.cases && t in s.cases[id].adds {
      w, i, j := AddsFollowTheirGuard(before, settings, id, t);
      LongerRunKeepsGuard(before, a, settings, id, w, t, i);
      assert actions[..j] == before[..j];
    } else {
      assert id in s.cases;
      OnlySendingAdds(s, a, settings, id);
      w, j := a.worker, n;
      i := ArmedWorkersPassedTheGuard(before, settings, w, id, t);
      LongerRunKeepsGuard(before, a, settings, id, w, t, i);
    }
  }

  // ---- Revocation --------------------------------------------------------------------

  predicate Withdrawn(c: Case) {
    (c.approval.status.Rejected? || c.approval.status.Expired? || c.approval.status.Revoked?)
  }

  lemma CaseStepKeepsWithdrawn(s: State, a: Action, settings: Settings)
    requires a.OnCase() && a.id in s.cases && Withdrawn(s.cases[a.id])
    ensures a.id in CaseAction(s, a, settings).cases && Withdrawn(CaseAction(s, a, settings).cases[a.id])
  {
  }

  lemma WorkerStepKeepsWithdrawn(s: State, a: Action, settings: Settings)
    requires a.ByHolder()
    requires !PhaseOf(s, a.worker).Idle? && HasExecution(s, PhaseOf(s, a.worker).id)
    requires Withdrawn(s.cases[PhaseOf(s, a.worker).id])
    ensures
      var id := PhaseOf(s, a.worker).id;
      id in WorkerAction(s, a, settings).cases && Withdrawn(WorkerAction(s, a, settings).cases[id])
  {
  }

  lemma StepKeepsWithdrawn(s: State, a: Action, settings: Settings, id: ApprovalId)
    requires id in s.cases && Withdrawn(s.cases[id])
    ensures id in Step(s, a, settings).cases && Withdrawn(Step(s, a, settings).cases[id])
  {
    if Target(s, a) != Some(id) {
      OtherCasesAreUnchanged(s, a, settings, id);
    } else if a.OnCase() {
      CaseStepKeepsWithdrawn(s, a, settings);
    } else if !a.ClaimNext? && s.cases[id].execution.Some? {
      WorkerStepKeepsWithdrawn(s, a, settings);
    }
  }

  /**
   A revoked, rejected or expired approval has caused no add and never will: the
   withdrawal either comes before the reservation, or it is refused.
   */
  lemma {:induction false} WithdrawnApprovalNeverAdds(s: State, actions: seq<Action>, settings: Settings,
                                                      id: ApprovalId)
    requires Invariant(s) && id in s.cases && Withdrawn(s.cases[id])
    ensures
      var after := Run(s, actions, settings);
      id in after.cases && Withdrawn(after.cases[id]) && after.cases[id].adds == []
    decreases |actions|
  {
    if actions == [] {
      assert CaseInvariant(s, s.cases[id]);
    } else {
      StepKeepsWithdrawn(s, actions[0], settings, id);
      StepKeepsInvariant(s, actions[0], settings);
      WithdrawnApprovalNeverAdds(Step(s, actions[0], settings), actions[1..], settings, id);
    }
  }

  /** Revoking an approval whose submission is reserved changes nothing. */
  lemma RevocationAfterReservationIsRefused(s: State, id: ApprovalId, now: Time, settings: Settings)
    requires Invariant(s) && HasExecution(s, id)
    requires s.cases[id].execution.value.status.InSubmission()
    ensures Step(s, RevokeApproval(id, now), settings) == s
  {
    assert CaseInvariant(s, s.cases[id]);
    assert s.cases[id := s.cases[id]] == s.cases;
  }

  // ---- Termination ---------------------------------------------------------------------

  /** How often the status of one execution changes along a run. */
  function StatusChanges(s: State, actions: seq<Action>, settings: Settings, id: ApprovalId): nat
    decreases |actions|
  {
    if actions == [] then 0
    else
      var next := Step(s, actions[0], settings);
      (if HasExecution(s, id) && HasExecution(next, id)
          && next.cases[id].execution.value.status != s.cases[id].execution.value.status then 1 else 0)
      + StatusChanges(next, actions[1..], settings, id)
  }

  lemma {:induction false} StatusChangesAreBoundedByMeasure(s: State, actions: seq<Action>, settings: Settings,
                                                            id: ApprovalId)
    requires Invariant(s) && HasExecution(s, id)
    ensures HasExecution(Run(s, actions, settings), id)
    ensures StatusChanges(s, actions, settings, id) + Measure(Run(s, actions, settings).cases[id].execution.value)
            <= Measure(s.cases[id].execution.value)
    decreases |actions|
  {
    if actions != [] {
      StepAdvances(s, actions[0], settings, id);
      StepKeepsInvariant(s, actions[0], settings);
      StatusChangesAreBoundedByMeasure(Step(s, actions[0], settings), actions[1..], settings, id);
    }
  }

  /**
   From its creation on, an execution changes status at most eight times per
   allowed attempt, in any run however long.
   */
  lemma ExecutionsSettle(s: State, actions: seq<Action>, settings: Settings, id: ApprovalId)
    requires Invariant(s) && HasExecution(s, id)
    ensures StatusChanges(s, actions, settings, id)
            <= 8 * (s.cases[id].execution.value.maxAttempts - s.cases[id].execution.value.attempts)
               + Rank(s.cases[id].execution.value.status)
  {
    StatusChangesAreBoundedByMeasure(s, actions, settings, id);
    RunKeepsInvariant(s, actions, settings);
    var after := Run(s, actions, settings);
    assert CaseInvariant(after, after.cases[id]);
  }

  /** A row waiting for its retry is never stranded: once the delay is over it can be claimed. */
  lemma RetryIsNeverStranded(actions: seq<Action>, settings: Settings, id: ApprovalId, now: Time)
    requires HasExecution(Run(INITIAL, actions, settings), id)
    ensures
      var e := Run(INITIAL, actions, settings).cases[id].execution.value;
      e.status.Pending? || (e.status.RetryWait? && (e.nextRetryAt.None? || e.nextRetryAt.value <= now)) ==>
        IsClaimable(e, now)
  {
    InitialStateIsFine();
    RunKeepsInvariant(INITIAL, actions, settings);
    assert CaseInvariant(Run(INITIAL, actions, settings), Run(INITIAL, actions, settings).cases[id]);
  }
}
