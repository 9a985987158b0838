/**
 The whole execution protocol: any number of approvals, workers that may stop or
 be delayed anywhere, clocks that say anything, and an external qBittorrent add
 that happens some time after the write guard that permitted it.
 */
module ExecutionProtocol {
  import opened Common
  import opened ExecutionRows
  import opened ExecutionTransactions

  type ApprovalId = nat

  /**
   An approval with its execution, if one was created. `adds` and `reservedBy` are
   history: the lease tokens under which an external add was issued, whether or
   not the request arrived, and the token under which the submission was reserved.
   */
  datatype Case = Case(
    approval: Approval,
    execution: Option<Execution>,
    job: bool,
    adds: seq<Token>,
    reservedBy: Option<Token>)
  {
    function ToRows(): Rows
      requires execution.Some?
    {
      Rows(execution.value, approval, job)
    }

    function With(r: Rows): Case {
      this.(execution := Some(r.execution), approval := r.approval, job := r.job)
    }
  }

  /** Where a worker is in `_process_claim`; `added` means that its add request arrived. */
  datatype Phase =
    | Idle
    | Checking(id: ApprovalId, token: Token)
    | Holding(id: ApprovalId, token: Token)
    | Armed(id: ApprovalId, token: Token)
    | Sent(id: ApprovalId, token: Token, added: bool)

  datatype State = State(
    cases: map<ApprovalId, Case>,
    workers: map<WorkerName, Phase>,
    nextToken: Token)

  datatype Action =
    // approvals
    | Request(id: ApprovalId, expiresAt: Time)
    | DecideApproval(id: ApprovalId, approve: bool, passable: bool, now: Time)
    | RevokeApproval(id: ApprovalId, now: Time)
    // control plane
    | CreateExecution(id: ApprovalId, binding: Binding, maxAttempts: int, now: Time)
    | AskReconciliation(id: ApprovalId, actor: string, reason: Option<string>, now: Time)
    | RequireReconciliation(id: ApprovalId, now: Time)
    // worker steps
    | ClaimNext(worker: WorkerName, id: ApprovalId, now: Time)
    | CheckValidating(worker: WorkerName, sight: Sight)
    | ReserveSubmission(worker: WorkerName, metadata: Metadata, expectedHash: Option<Hash>, clocks: ReserveClocks)
    | CheckSubmitting(worker: WorkerName, sight: Sight)
    | WriteGuard(worker: WorkerName, sight: Sight)
    | SendAdd(worker: WorkerName, reaches: bool)
    | RenewLease(worker: WorkerName, now: Time)
    | FinalizeSubmission(worker: WorkerName, outcome: ExecutionStatus, matches: bool, now: Time, utc: Time)
    | FailValidation(worker: WorkerName, retryable: bool, now: Time)
    | FailReserved(worker: WorkerName, now: Time)
    | Stop(worker: WorkerName)
    | RecoverStale(id: ApprovalId, now: Time)
  {
    /** Actions that belong to no worker. */
    predicate OnCase() {
      || Request? || DecideApproval? || RevokeApproval? || CreateExecution?
      || AskReconciliation? || RequireReconciliation? || RecoverStale?
    }

    /** Actions of a worker that holds a claim. */
    predicate ByHolder() {
      || CheckValidating? || ReserveSubmission? || CheckSubmitting? || WriteGuard? || SendAdd?
      || RenewLease? || FinalizeSubmission? || FailValidation? || FailReserved?
    }
  }

  function PhaseOf(s: State, w: WorkerName): Phase {
    if w in s.workers then s.workers[w] else Idle
  }

  predicate HasExecution(s: State, id: ApprovalId) {
    id in s.cases && s.cases[id].execution.Some?
  }

  function SetCase(s: State, id: ApprovalId, c: Case): State {
    s.(cases := s.cases[id := c])
  }

  function SetPhase(s: State, w: WorkerName, p: Phase): State {
    s.(workers := s.workers[w := p])
  }

  function SetExecution(s: State, id: ApprovalId, e: Execution): State
    requires id in s.cases
  {
    SetCase(s, id, s.cases[id].(execution := Some(e)))
  }

  /** A guard call: what it commits, and where the worker goes when it is allowed. */
  function GuardStep(s: State, w: WorkerName, expected: ExecutionStatus, written: bool,
                     sight: Sight, settings: Settings, next: Phase): State
    requires !PhaseOf(s, w).Idle? && HasExecution(s, PhaseOf(s, w).id)
  {
    var p := PhaseOf(s, w);
    var c := s.cases[p.id];
    match Guard(c.ToRows(), Claim(w, p.token), expected, written, sight, settings)
    case LeaseLost => SetPhase(s, w, Idle)
    case Raised => s
    case Refused(r) => SetPhase(SetCase(s, p.id, c.With(r)), w, Idle)
    case Allowed(r) => SetPhase(SetCase(s, p.id, c.With(r)), w, next)
  }

  function ReserveStep(s: State, w: WorkerName, m: Metadata, expectedHash: Option<Hash>,
                       clocks: ReserveClocks, settings: Settings): State
    requires !PhaseOf(s, w).Idle? && HasExecution(s, PhaseOf(s, w).id) && m.Valid()
  {
    var p := PhaseOf(s, w);
    var c := s.cases[p.id];
    match Reserve(c.ToRows(), Claim(w, p.token), m, expectedHash, clocks, settings)
    case NotReserved => s
    case CancelledInstead(r) => SetPhase(SetCase(s, p.id, c.With(r)), w, Idle)
    case Reserved(r) =>
      SetPhase(SetCase(s, p.id, c.With(r).(reservedBy := Some(p.token))), w, Holding(p.id, p.token))
  }

  /** Effects of actions that belong to no worker. */
  function CaseAction(s: State, a: Action, settings: Settings): State
    requires a.OnCase()
  {
    if a.Request? then
      if a.id in s.cases then s
      else SetCase(s, a.id, Case(Approval(ApprovalStatus.Pending, a.expiresAt, None), None, false, [], None))
    else if a.id !in s.cases then s
    else
      var c := s.cases[a.id];
      if a.DecideApproval? then
        SetCase(s, a.id, c.(approval := Decide(c.approval, a.approve, a.passable, a.now)))
      else if a.RevokeApproval? then
        SetCase(s, a.id, c.(approval := Revoke(c.approval, a.now)))
      else if a.CreateExecution? then
        var approval := ExpireIfDue(c.approval, a.now);
        if !approval.status.Approved? || c.execution.Some? || a.maxAttempts < 1 || !AutomationBinding(a.binding) then
          SetCase(s, a.id, c.(approval := approval))
        else
          SetExecution(s, a.id, NewExecution(a.binding, a.maxAttempts))
      else if c.execution.None? then s
      else if a.AskReconciliation? then
        SetExecution(s, a.id, RequestReconciliation(c.execution.value, a.actor, a.reason, a.now))
      else if a.RequireReconciliation? then
        SetExecution(s, a.id, MarkReconciliationRequired(c.execution.value, None, a.now, settings))
      else
        SetExecution(s, a.id, Recovered(c.execution.value, a.now, settings))
  }

  /** Effects of the actions of a worker that holds a claim. */
  function WorkerAction(s: State, a: Action, settings: Settings): State
    requires a.ByHolder()
    requires !PhaseOf(s, a.worker).Idle? && HasExecution(s, PhaseOf(s, a.worker).id)
  {
    var p := PhaseOf(s, a.worker);
    var c := s.cases[p.id];
    var e := c.execution.value;
    var claim := Claim(a.worker, p.token);
    match a
    case CheckValidating(w, sight) =>
      if p.Checking? then GuardStep(s, w, Validating, false, sight, settings, p) else s
    case ReserveSubmission(w, m, expectedHash, clocks) =>
      if p.Checking? && m.Valid() then ReserveStep(s, w, m, expectedHash, clocks, settings) else s
    case CheckSubmitting(w, sight) =>
      if p.Checking? then s else GuardStep(s, w, Submitting, !p.Holding?, sight, settings, p)
    case WriteGuard(w, sight) =>
      if p.Holding? then GuardStep(s, w, Submitting, false, sight, settings, Armed(p.id, p.token)) else s
    case SendAdd(w, reaches) =>
      if p.Armed? then
        SetPhase(SetCase(s, p.id, c.(adds := c.adds + [p.token])), w, Sent(p.id, p.token, reaches))
      else s
    case RenewLease(w, now) =>
      SetExecution(s, p.id, Renewed(e, claim, now, settings))
    case FinalizeSubmission(w, outcome, matches, now, utc) =>
      if (outcome.AlreadyPresent? && p.Holding?) || (outcome.Submitted? && p.Sent? && p.added) then
        SetCase(s, p.id, c.With(Finalize(c.ToRows(), p.token, outcome, matches, now, utc, settings)))
      else s
    case FailValidation(w, retryable, now) =>
      if p.Checking? then
        SetPhase(SetExecution(s, p.id, ValidationFailed(e, claim, retryable, now, settings)), w, Idle)
      else s
    case FailReserved(w, now) =>
      if p.Checking? then s
      else SetPhase(SetExecution(s, p.id, ReservedFailed(e, claim, !p.Holding?, now, settings)), w, Idle)
  }

  /** One atomic step; an action that is not enabled changes nothing. */
  function Step(s: State, a: Action, settings: Settings): State {
    if a.OnCase() then CaseAction(s, a, settings)
    else if a.Stop? then SetPhase(s, a.worker, Idle)
    else if a.ClaimNext? then
      if PhaseOf(s, a.worker).Idle? && HasExecution(s, a.id) && IsClaimable(s.cases[a.id].execution.value, a.now) then
        var claim := Claim(a.worker, s.nextToken);
        var claimed := SetExecution(s, a.id, Claimed(s.cases[a.id].execution.value, claim, a.now));
        SetPhase(claimed, a.worker, Checking(a.id, s.nextToken)).(nextToken := s.nextToken + 1)
      else s
    else if PhaseOf(s, a.worker).Idle? || !HasExecution(s, PhaseOf(s, a.worker).id) then s
    else WorkerAction(s, a, settings)
  }

  function Run(s: State, actions: seq<Action>, settings: Settings): State
    decreases |actions|
  {
    if actions == [] then s else Run(Step(s, actions[0], settings), actions[1..], settings)
  }

  lemma {:induction false} RunAppend(s: State, actions: seq<Action>, a: Action, settings: Settings)
    ensures Run(s, actions + [a], settings) == Step(Run(s, actions, settings), a, settings)
    decreases |actions|
  {
    if actions == [] {
      assert ([a])[1..] == [];
      assert Run(Step(s, a, settings), [], settings) == Step(s, a, settings);
      assert actions + [a] == [a];
    } else {
      assert (actions + [a])[1..] == actions[1..] + [a];
      RunAppend(Step(s, actions[0], settings), actions[1..], a, settings);
    }
  }

  const INITIAL := State(map[], map[], 0)

  // ---- The invariant -------------------------------------------------------------

  /** Approval, execution and job move together. */
  predicate Coupled(c: Case) {
    && (c.approval.status.Executing? <==> c.execution.Some? && c.execution.value.status.HoldsApproval())
    && (c.approval.status.Consumed? <==> c.execution.Some? && c.execution.value.status.Final())
    && (c.job <==> c.approval.status.Consumed?)
  }

  predicate CaseInvariant(s: State, c: Case) {
    && Coupled(c)
    && (c.execution.Some? ==> Proper(c.execution.value))
    && (c.execution.None? ==> c.reservedBy.None?)
    && (c.execution.Some? && c.execution.value.leaseToken.Some? ==>
          c.execution.value.leaseToken.value < s.nextToken)
    && (c.reservedBy.Some? ==>
          && c.reservedBy.value < s.nextToken
          && (c.execution.value.status.InSubmission() || c.execution.value.status.Cancelled?))
    && (c.execution.Some? && c.execution.value.status.InSubmission() ==> c.reservedBy.Some?)
    && (c.execution.Some? && c.execution.value.status.Submitting? ==>
          c.reservedBy == c.execution.value.leaseToken)
    // the adds issued so far
    && (c.adds == [] || (c.reservedBy.Some? && c.adds == [c.reservedBy.value]))
    && (c.adds != [] ==> !c.execution.value.status.Cancelled? && !c.execution.value.status.AlreadyPresent?)
    && (c.execution.Some? && c.execution.value.status.Submitted? ==> c.adds != [])
  }

  predicate WorkerInvariant(s: State, w: WorkerName) {
    var p := PhaseOf(s, w);
    p.Idle? ||
    (&& p.token < s.nextToken
     && HasExecution(s, p.id)
     && (var c := s.cases[p.id];
         && (p.Checking? ==> c.reservedBy != Some(p.token))
         && (!p.Checking? ==> c.reservedBy == Some(p.token))
         && (p.Holding? || p.Armed? ==> c.adds == [])
         && (p.Armed? ==> c.execution.value.status.HoldsApproval())
         && (p.Sent? ==> c.execution.value.status.HoldsApproval() || c.execution.value.status.Submitted?)
         && (p.Sent? ==> c.adds != [])))
  }

  predicate TokensDiffer(s: State) {
    forall v, w | v in s.workers && w in s.workers && v != w ::
      s.workers[v].Idle? || s.workers[w].Idle? || s.workers[v].token != s.workers[w].token
  }

  predicate Invariant(s: State) {
    && (forall id | id in s.cases :: CaseInvariant(s, s.cases[id]))
    && (forall w | w in s.workers :: WorkerInvariant(s, w))
    && TokensDiffer(s)
  }

  // ---- Every step keeps the invariant ---------------------------------------------

  /** Changing one case is fine when the case and the workers on it are fine. */
  lemma CaseChangeKeepsInvariant(s: State, id: ApprovalId, c: Case)
    requires Invariant(s) && id in s.cases
    requires c.reservedBy == s.cases[id].reservedBy
    requires CaseInvariant(s, c)
    requires forall w | w in s.workers && !s.workers[w].Idle? && s.workers[w].id == id ::
               WorkerInvariant(SetCase(s, id, c), w)
    ensures Invariant(SetCase(s, id, c))
  {
    var after := SetCase(s, id, c);
    forall other | other in after.cases ensures CaseInvariant(after, after.cases[other]) {
      assert CaseInvariant(s, s.cases[other]);
    }
    forall w | w in after.workers ensures WorkerInvariant(after, w) {
      assert WorkerInvariant(s, w);
    }
  }

  /** Moving a worker on to a phase it is entitled to. */
  lemma PhaseChangeKeepsInvariant(s: State, w: WorkerName, p: Phase)
    requires Invariant(s)
    requires WorkerInvariant(SetPhase(s, w, p), w)
    requires p.Idle? || (w in s.workers && !s.workers[w].Idle? && p.token == s.workers[w].token)
    ensures Invariant(SetPhase(s, w, p))
  {
    var after := SetPhase(s, w, p);
    forall v | v in after.workers ensures WorkerInvariant(after, v) {
      if v != w {
        assert WorkerInvariant(s, v);
      }
    }
    forall id | id in after.cases ensures CaseInvariant(after, after.cases[id]) {
      assert CaseInvariant(s, s.cases[id]);
    }
  }

  /** While a worker's token is the lease, no other worker is past the reservation. */
  lemma LeaseHolderIsAlone(s: State, w: WorkerName, v: WorkerName)
    requires Invariant(s) && w in s.workers && v in s.workers && v != w
    requires !s.workers[w].Idle? && !s.workers[v].Idle? && s.workers[v].id == s.workers[w].id
    requires HasExecution(s, s.workers[w].id)
    requires s.cases[s.workers[w].id].execution.value.leaseToken == Some(s.workers[w].token)
    ensures s.workers[v].Checking?
  {
    var c := s.cases[s.workers[w].id];
    assert CaseInvariant(s, c) && WorkerInvariant(s, v) && WorkerInvariant(s, w);
    assert c.execution.value.status.Active();
  }

  /** A worker that is still checking does not care what happens to the row. */
  lemma CheckersKeepTheirInvariant(s: State, id: ApprovalId, c: Case, v: WorkerName)
    requires Invariant(s) && id in s.cases && v in s.workers && s.workers[v].Checking?
    requires c.execution.Some? && c.reservedBy == s.cases[id].reservedBy
    ensures WorkerInvariant(SetCase(s, id, c), v)
  {
    assert WorkerInvariant(s, v);
  }

  /** Steps that leave an execution where a lease holder of a submission may find it. */
  lemma ExecutionChangeKeepsInvariant(s: State, id: ApprovalId, r: Rows)
    requires Invariant(s) && HasExecution(s, id)
    requires CaseInvariant(s, s.cases[id].With(r))
    requires forall w | w in s.workers && !s.workers[w].Idle? && s.workers[w].id == id && !s.workers[w].Checking? ::
               WorkerInvariant(SetCase(s, id, s.cases[id].With(r)), w)
    ensures Invariant(SetCase(s, id, s.cases[id].With(r)))
  {
    var c := s.cases[id].With(r);
    forall w | w in s.workers && !s.workers[w].Idle? && s.workers[w].id == id
      ensures WorkerInvariant(SetCase(s, id, c), w)
    {
      if s.workers[w].Checking? {
        CheckersKeepTheirInvariant(s, id, c, w);
      }
    }
    CaseChangeKeepsInvariant(s, id, c);
  }

  lemma CaseActionKeepsInvariant(s: State, a: Action, settings: Settings)
    requires Invariant(s)
    requires a.OnCase()
    ensures Invariant(CaseAction(s, a, settings))
  {
    if a.id !in s.cases {
      if a.Request? {
        RequestKeepsInvariant(s, a.id, a.expiresAt);
      }
    } else if !a.Request? {
      var c := s.cases[a.id];
      assert CaseInvariant(s, c);
      if a.CreateExecution? && c.execution.None? && ExpireIfDue(c.approval, a.now).status.Approved?
         && a.maxAttempts >= 1 && AutomationBinding(a.binding) {
        CreateKeepsInvariant(s, a.id, a.binding, a.maxAttempts);
      } else if a.DecideApproval? || a.RevokeApproval? || a.CreateExecution? {
        ApprovalChangeKeepsInvariant(s, a, settings);
      } else if c.execution.Some? && a.RecoverStale? {
        RecoveryKeepsInvariant(s, a.id, a.now, settings);
      } else if c.execution.Some? {
        ReconciliationKeepsInvariant(s, a, settings);
      }
    }
  }

  lemma RequestKeepsInvariant(s: State, id: ApprovalId, expiresAt: Time)
    requires Invariant(s) && id !in s.cases
    ensures Invariant(SetCase(s, id, Case(Approval(ApprovalStatus.Pending, expiresAt, None), None, false, [], None)))
  {
    var after := SetCase(s, id, Case(Approval(ApprovalStatus.Pending, expiresAt, None), None, false, [], None));
    forall other | other in after.cases ensures CaseInvariant(after, after.cases[other]) {
      if other != id {
        assert CaseInvariant(s, s.cases[other]);
      }
    }
    forall w | w in after.workers ensures WorkerInvariant(after, w) {
      assert WorkerInvariant(s, w);
    }
  }

  lemma CreateKeepsInvariant(s: State, id: ApprovalId, binding: Binding, maxAttempts: int)
    requires Invariant(s) && id in s.cases && s.cases[id].execution.None?
    requires s.cases[id].approval.status.Approved? && maxAttempts >= 1 && AutomationBinding(binding)
    ensures Invariant(SetExecution(s, id, NewExecution(binding, maxAttempts)))
  {
    var c := s.cases[id].(execution := Some(NewExecution(binding, maxAttempts)));
    assert CaseInvariant(s, s.cases[id]);
    CaseChangeKeepsInvariant(s, id, c);
  }

  lemma ApprovalChangeKeepsInvariant(s: State, a: Action, settings: Settings)
    requires Invariant(s)
    requires a.DecideApproval? || a.RevokeApproval? || a.CreateExecution?
    requires a.id in s.cases
    requires a.CreateExecution? ==>
               || s.cases[a.id].execution.Some?
               || !ExpireIfDue(s.cases[a.id].approval, a.now).status.Approved?
               || a.maxAttempts < 1 || !AutomationBinding(a.binding)
    ensures Invariant(CaseAction(s, a, settings))
  {
    var c := s.cases[a.id];
    assert CaseInvariant(s, c);
    var after := CaseAction(s, a, settings).cases[a.id];
    forall w | w in s.workers && !s.workers[w].Idle? && s.workers[w].id == a.id
      ensures WorkerInvariant(SetCase(s, a.id, after), w)
    {
      assert WorkerInvariant(s, w);
    }
    CaseChangeKeepsInvariant(s, a.id, after);
  }

  lemma ReconciliationKeepsInvariant(s: State, a: Action, settings: Settings)
    requires Invariant(s)
    requires a.AskReconciliation? || a.RequireReconciliation?
    requires HasExecution(s, a.id)
    ensures Invariant(CaseAction(s, a, settings))
  {
    var c := s.cases[a.id];
    assert CaseInvariant(s, c);
    var after := CaseAction(s, a, settings).cases[a.id].execution.value;
    if a.AskReconciliation? {
      ReconciliationAdvances(c.execution.value, a.actor, a.reason, None, a.now, settings);
    } else {
      ReconciliationAdvances(c.execution.value, "", None, None, a.now, settings);
    }
    var r := c.ToRows().(execution := after);
    forall w | w in s.workers && !s.workers[w].Idle? && s.workers[w].id == a.id && !s.workers[w].Checking?
      ensures WorkerInvariant(SetCase(s, a.id, c.With(r)), w)
    {
      assert WorkerInvariant(s, w);
    }
    ExecutionChangeKeepsInvariant(s, a.id, r);
  }

  lemma RecoveryKeepsInvariant(s: State, id: ApprovalId, now: Time, settings: Settings)
    requires Invariant(s) && HasExecution(s, id)
    ensures Invariant(SetExecution(s, id, Recovered(s.cases[id].execution.value, now, settings)))
  {
    var c := s.cases[id];
    assert CaseInvariant(s, c);
    RecoverAdvances(c.execution.value, now, settings);
    var r := c.ToRows().(execution := Recovered(c.execution.value, now, settings));
    forall w | w in s.workers && !s.workers[w].Idle? && s.workers[w].id == id && !s.workers[w].Checking?
      ensures WorkerInvariant(SetCase(s, id, c.With(r)), w)
    {
      assert WorkerInvariant(s, w);
    }
    ExecutionChangeKeepsInvariant(s, id, r);
  }

  lemma ClaimKeepsInvariant(s: State, w: WorkerName, id: ApprovalId, now: Time, settings: Settings)
    requires Invariant(s) && PhaseOf(s, w).Idle?
    requires HasExecution(s, id) && IsClaimable(s.cases[id].execution.value, now)
    ensures Invariant(Step(s, ClaimNext(w, id, now), settings))
  {
    var c := s.cases[id];
    var after := Step(s, ClaimNext(w, id, now), settings);
    assert CaseInvariant(s, c);
    ClaimAdvances(c.execution.value, Claim(w, s.nextToken), now);
    forall other | other in after.cases ensures CaseInvariant(after, after.cases[other]) {
      assert CaseInvariant(s, s.cases[other]);
    }
    forall v | v in after.workers ensures WorkerInvariant(after, v) {
      if v != w {
        assert WorkerInvariant(s, v);
      }
    }
    forall v, u | v in after.workers && u in after.workers && v != u
      ensures after.workers[v].Idle? || after.workers[u].Idle? || after.workers[v].token != after.workers[u].token
    {
      if v != w {
        assert WorkerInvariant(s, v);
      }
      if u != w {
        assert WorkerInvariant(s, u);
      }
    }
  }

  /** The lease holder changes the row; the others on the same case are only checking. */
  lemma OthersAreChecking(s: State, w: WorkerName, r: Rows, v: WorkerName)
    requires Invariant(s) && w in s.workers && !s.workers[w].Idle?
    requires HasExecution(s, s.workers[w].id)
    requires s.cases[s.workers[w].id].execution.value.leaseToken == Some(s.workers[w].token)
    requires v in s.workers && v != w
    ensures WorkerInvariant(SetCase(s, s.workers[w].id, s.cases[s.workers[w].id].With(r)), v)
  {
    var id := s.workers[w].id;
    assert WorkerInvariant(s, v);
    if !s.workers[v].Idle? && s.workers[v].id == id {
      LeaseHolderIsAlone(s, w, v);
      CheckersKeepTheirInvariant(s, id, s.cases[id].With(r), v);
    }
  }

  lemma HolderChangeKeepsInvariant(s: State, w: WorkerName, r: Rows, p: Phase)
    requires Invariant(s) && w in s.workers && !s.workers[w].Idle?
    requires HasExecution(s, s.workers[w].id)
    requires s.cases[s.workers[w].id].execution.value.leaseToken == Some(s.workers[w].token)
    requires CaseInvariant(s, s.cases[s.workers[w].id].With(r))
    requires WorkerInvariant(SetPhase(SetCase(s, s.workers[w].id, s.cases[s.workers[w].id].With(r)), w, p), w)
    requires p.Idle? || p.token == s.workers[w].token
    ensures Invariant(SetPhase(SetCase(s, s.workers[w].id, s.cases[s.workers[w].id].With(r)), w, p))
  {
    var id := s.workers[w].id;
    var middle := SetCase(s, id, s.cases[id].With(r));
    var after := SetPhase(middle, w, p);
    forall v | v in after.workers ensures WorkerInvariant(after, v) {
      if v != w {
        OthersAreChecking(s, w, r, v);
        assert PhaseOf(after, v) == PhaseOf(middle, v);
      }
    }
    forall other | other in after.cases ensures CaseInvariant(after, after.cases[other]) {
      assert CaseInvariant(s, s.cases[other]);
    }
  }

  lemma GuardKeepsInvariant(s: State, w: WorkerName, expected: ExecutionStatus, written: bool,
                            sight: Sight, settings: Settings, next: Phase)
    requires Invariant(s) && !PhaseOf(s, w).Idle? && HasExecution(s, PhaseOf(s, w).id)
    requires expected.Validating? || expected.Submitting?
    requires written <==> !PhaseOf(s, w).Checking? && !PhaseOf(s, w).Holding?
    requires next == PhaseOf(s, w)
             || (PhaseOf(s, w).Holding? && expected.Submitting? && next == Armed(PhaseOf(s, w).id, PhaseOf(s, w).token))
    ensures Invariant(GuardStep(s, w, expected, written, sight, settings, next))
  {
    var p := PhaseOf(s, w);
    var c := s.cases[p.id];
    var claim := Claim(w, p.token);
    assert CaseInvariant(s, c) && WorkerInvariant(s, w);
    var verdict := Guard(c.ToRows(), claim, expected, written, sight, settings);
    GuardAdvances(c.ToRows(), claim, expected, written, sight, settings);
    match verdict
    case LeaseLost => PhaseChangeKeepsInvariant(s, w, Idle);
    case Raised =>
    case Refused(r) => HolderChangeKeepsInvariant(s, w, r, Idle);
    case Allowed(r) => HolderChangeKeepsInvariant(s, w, r, next);
  }

  lemma ReserveKeepsInvariant(s: State, w: WorkerName, m: Metadata, expectedHash: Option<Hash>,
                              clocks: ReserveClocks, settings: Settings)
    requires Invariant(s) && PhaseOf(s, w).Checking? && HasExecution(s, PhaseOf(s, w).id) && m.Valid()
    ensures Invariant(ReserveStep(s, w, m, expectedHash, clocks, settings))
  {
    var p := PhaseOf(s, w);
    var c := s.cases[p.id];
    var claim := Claim(w, p.token);
    assert CaseInvariant(s, c) && WorkerInvariant(s, w);
    ReserveAdvances(c.ToRows(), claim, m, expectedHash, clocks, settings);
    match Reserve(c.ToRows(), claim, m, expectedHash, clocks, settings)
    case NotReserved =>
    case CancelledInstead(r) => HolderChangeKeepsInvariant(s, w, r, Idle);
    case Reserved(r) => ReservationKeepsInvariant(s, w, r);
  }

  /** Taking the reservation: the token becomes the case's one and only `reservedBy`. */
  lemma ReservationKeepsInvariant(s: State, w: WorkerName, r: Rows)
    requires Invariant(s) && w in s.workers && s.workers[w].Checking?
    requires HasExecution(s, s.workers[w].id)
    requires var e := s.cases[s.workers[w].id].execution.value;
             e.leaseToken == Some(s.workers[w].token) && e.status.Validating?
    requires Proper(r.execution) && r.execution.status.Submitting?
    requires r.execution.leaseToken == Some(s.workers[w].token)
    requires r.approval.status.Executing? && r.job == s.cases[s.workers[w].id].job && !r.job
    ensures
      var p := s.workers[w];
      var c := s.cases[p.id].With(r).(reservedBy := Some(p.token));
      Invariant(SetPhase(SetCase(s, p.id, c), w, Holding(p.id, p.token)))
  {
    var p := s.workers[w];
    var c := s.cases[p.id].With(r).(reservedBy := Some(p.token));
    var after := SetPhase(SetCase(s, p.id, c), w, Holding(p.id, p.token));
    assert CaseInvariant(s, s.cases[p.id]) && WorkerInvariant(s, w);
    forall v | v in after.workers ensures WorkerInvariant(after, v) {
      if v != w {
        assert WorkerInvariant(s, v);
      }
    }
    forall other | other in after.cases
      ensures CaseInvariant(after, after.cases[other])
    {
      assert CaseInvariant(s, s.cases[other]);
    }
  }

  lemma SendKeepsInvariant(s: State, w: WorkerName, reaches: bool, settings: Settings)
    requires Invariant(s) && PhaseOf(s, w).Armed? && HasExecution(s, PhaseOf(s, w).id)
    ensures Invariant(WorkerAction(s, SendAdd(w, reaches), settings))
  {
    var p := PhaseOf(s, w);
    var c := s.cases[p.id];
    var after := WorkerAction(s, SendAdd(w, reaches), settings);
    assert CaseInvariant(s, c) && WorkerInvariant(s, w);
    forall v | v in after.workers ensures WorkerInvariant(after, v) {
      if v != w {
        assert WorkerInvariant(s, v);
      }
    }
    forall other | other in after.cases ensures CaseInvariant(after, after.cases[other]) {
      assert CaseInvariant(s, s.cases[other]);
    }
  }

  lemma RenewKeepsInvariant(s: State, w: WorkerName, now: Time, settings: Settings)
    requires Invariant(s) && !PhaseOf(s, w).Idle? && HasExecution(s, PhaseOf(s, w).id)
    ensures Invariant(WorkerAction(s, RenewLease(w, now), settings))
  {
    var p := PhaseOf(s, w);
    var c := s.cases[p.id];
    var claim := Claim(w, p.token);
    assert CaseInvariant(s, c);
    RenewAdvances(c.execution.value, claim, now, settings);
    var r := c.ToRows().(execution := Renewed(c.execution.value, claim, now, settings));
    forall v | v in s.workers && !s.workers[v].Idle? && s.workers[v].id == p.id && !s.workers[v].Checking?
      ensures WorkerInvariant(SetCase(s, p.id, c.With(r)), v)
    {
      assert WorkerInvariant(s, v);
    }
    ExecutionChangeKeepsInvariant(s, p.id, r);
  }

  lemma FinalizeKeepsInvariant(s: State, a: Action, settings: Settings)
    requires Invariant(s) && a.FinalizeSubmission?
    requires !PhaseOf(s, a.worker).Idle? && HasExecution(s, PhaseOf(s, a.worker).id)
    ensures Invariant(WorkerAction(s, a, settings))
  {
    var p := PhaseOf(s, a.worker);
    var c := s.cases[p.id];
    if (a.outcome.AlreadyPresent? && p.Holding?) || (a.outcome.Submitted? && p.Sent? && p.added) {
      assert CaseInvariant(s, c) && WorkerInvariant(s, a.worker);
      FinalizeAdvances(c.ToRows(), p.token, a.outcome, a.matches, a.now, a.utc, settings);
      var r := Finalize(c.ToRows(), p.token, a.outcome, a.matches, a.now, a.utc, settings);
      var after := SetCase(s, p.id, c.With(r));
      if r == c.ToRows() {
        assert after.cases == s.cases;
      } else {
        HolderChangeKeepsInvariant(s, a.worker, r, p);
        assert SetPhase(after, a.worker, p).workers == after.workers;
      }
    }
  }

  /** A failure mark frees the row if it was still held, and the worker is done. */
  lemma FailureKeepsInvariant(s: State, w: WorkerName, after: Execution)
    requires Invariant(s) && !PhaseOf(s, w).Idle? && HasExecution(s, PhaseOf(s, w).id)
    requires
      var e := s.cases[PhaseOf(s, w).id].execution.value;
      && Advances(e, after)
      && (e.leaseToken != Some(PhaseOf(s, w).token) ==> after == e)
      && (after != e ==>
            && after.leaseToken.None?
            && (if e.status.Submitting? then after.status.OutcomeUnknown? || after.status.ReconciliationRequired?
                else e.status.Validating? && (after.status.RetryWait? || after.status.Failed?)))
    ensures Invariant(SetPhase(SetExecution(s, PhaseOf(s, w).id, after), w, Idle))
  {
    var p := PhaseOf(s, w);
    var c := s.cases[p.id];
    if c.execution.value == after {
      assert SetExecution(s, p.id, after).cases == s.cases;
      PhaseChangeKeepsInvariant(s, w, Idle);
    } else {
      var r := c.ToRows().(execution := after);
      assert CaseInvariant(s, c) && WorkerInvariant(s, w);
      assert c.With(r) == c.(execution := Some(after));
      HolderChangeKeepsInvariant(s, w, r, Idle);
    }
  }

  lemma FailValidationKeepsInvariant(s: State, a: Action, settings: Settings)
    requires Invariant(s) && a.FailValidation?
    requires !PhaseOf(s, a.worker).Idle? && HasExecution(s, PhaseOf(s, a.worker).id)
    ensures Invariant(WorkerAction(s, a, settings))
  {
    var p := PhaseOf(s, a.worker);
    var e := s.cases[p.id].execution.value;
    assert CaseInvariant(s, s.cases[p.id]);
    if p.Checking? {
      FailureAdvances(e, Claim(a.worker, p.token), a.retryable, false, a.now, settings);
      FailureKeepsInvariant(s, a.worker, ValidationFailed(e, Claim(a.worker, p.token), a.retryable, a.now, settings));
    }
  }

  lemma FailReservedKeepsInvariant(s: State, a: Action, settings: Settings)
    requires Invariant(s) && a.FailReserved?
    requires !PhaseOf(s, a.worker).Idle? && HasExecution(s, PhaseOf(s, a.worker).id)
    ensures Invariant(WorkerAction(s, a, settings))
  {
    var p := PhaseOf(s, a.worker);
    var e := s.cases[p.id].execution.value;
    assert CaseInvariant(s, s.cases[p.id]);
    if !p.Checking? {
      FailureAdvances(e, Claim(a.worker, p.token), false, !p.Holding?, a.now, settings);
      FailureKeepsInvariant(s, a.worker, ReservedFailed(e, Claim(a.worker, p.token), !p.Holding?, a.now, settings));
    }
  }

  /** The invariant is inductive: every step of every participant keeps it. */
  lemma StepKeepsInvariant(s: State, a: Action, settings: Settings)
    requires Invariant(s)
    ensures Invariant(Step(s, a, settings))
  {
    if a.OnCase() {
      CaseActionKeepsInvariant(s, a, settings);
    } else if a.Stop? {
      PhaseChangeKeepsInvariant(s, a.worker, Idle);
    } else if a.ClaimNext? {
      if PhaseOf(s, a.worker).Idle? && HasExecution(s, a.id) && IsClaimable(s.cases[a.id].execution.value, a.now) {
        ClaimKeepsInvariant(s, a.worker, a.id, a.now, settings);
      }
    } else if !PhaseOf(s, a.worker).Idle? && HasExecution(s, PhaseOf(s, a.worker).id) {
      WorkerActionKeepsInvariant(s, a, settings);
    }
  }

  lemma WorkerActionKeepsInvariant(s: State, a: Action, settings: Settings)
    requires Invariant(s)
    requires a.ByHolder()
    requires !PhaseOf(s, a.worker).Idle? && HasExecution(s, PhaseOf(s, a.worker).id)
    ensures Invariant(WorkerAction(s, a, settings))
  {
    var p := PhaseOf(s, a.worker);
    match a
    case CheckValidating(w, sight) =>
      if p.Checking? {
        GuardKeepsInvariant(s, w, Validating, false, sight, settings, p);
      }
    case ReserveSubmission(w, m, expectedHash, clocks) =>
      if p.Checking? && m.Valid() {
        ReserveKeepsInvariant(s, w, m, expectedHash, clocks, settings);
      }
    case CheckSubmitting(w, sight) =>
      if !p.Checking? {
        GuardKeepsInvariant(s, w, Submitting, !p.Holding?, sight, settings, p);
      }
    case WriteGuard(w, sight) =>
      if p.Holding? {
        GuardKeepsInvariant(s, w, Submitting, false, sight, settings, Armed(p.id, p.token));
      }
    case SendAdd(w, reaches) =>
      if p.Armed? {
        SendKeepsInvariant(s, w, reaches, settings);
      }
    case RenewLease(w, now) => RenewKeepsInvariant(s, w, now, settings);
    case FinalizeSubmission(_, _, _, _, _) => FinalizeKeepsInvariant(s, a, settings);
    case FailValidation(_, _, _) => FailValidationKeepsInvariant(s, a, settings);
    case FailReserved(_, _) => FailReservedKeepsInvariant(s, a, settings);
  }

  lemma {:induction false} RunKeepsInvariant(s: State, actions: seq<Action>, settings: Settings)
    requires Invariant(s)
    ensures Invariant(Run(s, actions, settings))
    decreases |actions|
  {
    if actions != [] {
      StepKeepsInvariant(s, actions[0], settings);
      RunKeepsInvariant(Step(s, actions[0], settings), actions[1..], settings);
    }
  }
}
