/**
 Execution intents and idempotent creation of download executions: one-time
 nonces, idempotency keys and the bindings that tie approval, intent and
 execution together.
 */
module ExecutionIntents {
  import opened Common
  import opened ExecutionRows

  type ApprovalId = nat
  type IntentId = nat
  type ExecutionId = nat

  /** A SHA-256 digest; the hash is taken to be injective. */
  datatype Digest = Digest(text: string)

  datatype Provenance = Provenance(origin: Origin, policyRevision: Option<nat>, decision: Option<nat>)

  /** The canonical payload of a request, which stands for its hash. */
  datatype RequestHash =
    | ManualRequest(approval: ApprovalId, intent: IntentId, nonce: Digest, key: Digest)
    | AutomaticRequest(approval: ApprovalId, intent: IntentId, nonce: Digest, key: Digest,
                       policyRevision: Option<nat>, decision: Option<nat>)

  datatype ApprovalRecord = ApprovalRecord(
    status: ApprovalStatus, expiresAt: Time, snapshotHash: Hash, planHash: Option<Hash>)

  datatype IntentStatus = Active | Used | Lapsed

  datatype Intent = Intent(
    approvalId: ApprovalId, nonce: Digest, snapshotHash: Hash, planHash: Hash, target: Hash,
    launchMode: LaunchMode, provenance: Provenance, status: IntentStatus, expiresAt: Time)

  datatype ExecutionRecord = ExecutionRecord(
    approvalId: ApprovalId, intentId: IntentId, key: Digest, requestHash: RequestHash,
    snapshotHash: Hash, planHash: Hash, target: Hash, launchMode: LaunchMode, provenance: Provenance)

  /** The three tables; intents and executions are numbered in order of insertion. */
  datatype Store = Store(
    approvals: map<ApprovalId, ApprovalRecord>, intents: seq<Intent>, executions: seq<ExecutionRecord>)

  datatype Error =
    | ControlPlaneDisabled | OriginBindingInvalid | ApprovalNotFound | ApprovalExpired | ApprovalNotExecutable
    | PlanNotFound | PolicyChanged | ExecutionAlreadyExists | IntentAlreadyActive | TtlTooLong | Conflict
    | IdempotencyKeyInvalid | IdempotencyKeyReused | ExecutionBindingInvalid | IntentNotFound | IntentAlreadyUsed
    | IntentExpired | IntentNotActive | NonceInvalid | AutomationBindingMismatch | IntentBindingMismatch

  /** What an operation commits, and what it answers. */
  datatype Outcome<R> = Outcome(store: Store, result: Result<R, Error>)

  /** The clock and configuration an operation finds. */
  datatype Context = Context(
    now: Time, enabled: bool, policyCurrent: bool, targetPaused: Hash, targetStarted: Hash,
    defaultTtl: int, maxTtl: int)
  {
    function Target(mode: LaunchMode): Hash {
      if mode.AddPaused? then targetPaused else targetStarted
    }
  }

  datatype ExecuteRequest = ExecuteRequest(
    approvalId: ApprovalId, intentId: IntentId, nonce: string, key: string, provenance: Provenance)
  {
    function Hashed(): RequestHash {
      HashOf(approvalId, intentId, Digest(nonce), Digest(key), provenance)
    }
  }

  /** `_execution_request_hash`. */
  function HashOf(approval: ApprovalId, intent: IntentId, nonce: Digest, key: Digest, p: Provenance): RequestHash {
    if p.origin.Automation? then AutomaticRequest(approval, intent, nonce, key, p.policyRevision, p.decision)
    else ManualRequest(approval, intent, nonce, key)
  }

  /** `_require_origin_binding` does not raise. */
  predicate OriginBindingFits(p: Provenance, mode: Option<LaunchMode>) {
    if p.origin.Manual? then p.policyRevision.None? && p.decision.None?
    else mode == Some(AddPaused) && p.policyRevision.Some? && p.decision.Some?
  }

  predicate IsAlphanumeric(c: char) {
    'A' <= c <= 'Z' || 'a' <= c <= 'z' || '0' <= c <= '9'
  }

  predicate IsIdempotencyKey(key: string) {
    && 16 <= |key| <= 200
    && IsAlphanumeric(key[0])
    && (forall c | c in key :: IsAlphanumeric(c) || c in "._~-")
  }

  /** The position of the first row that satisfies a condition. */
  function Find<T>(rows: seq<T>, condition: T -> bool): (r: Option<nat>)
    ensures r.Some? ==> r.value < |rows| && condition(rows[r.value])
    ensures r.None? ==> forall i | 0 <= i < |rows| :: !condition(rows[i])
  {
    if rows == [] then None
    else if condition(rows[0]) then Some(0)
    else
      match Find(rows[1..], condition)
      case None => None
      case Some(i) => assert rows[1..][i] == rows[i + 1]; Some(i + 1)
  }

  function ByKey(s: Store, key: Digest): (r: Option<nat>)
    ensures r.Some? ==> r.value < |s.executions| && s.executions[r.value].key == key
    ensures r.None? ==> forall e | e in s.executions :: e.key != key
  {
    Find(s.executions, (e: ExecutionRecord) => e.key == key)
  }

  function ByApproval(s: Store, id: ApprovalId): (r: Option<nat>)
    ensures r.Some? ==> r.value < |s.executions| && s.executions[r.value].approvalId == id
    ensures r.None? ==> forall e | e in s.executions :: e.approvalId != id
  {
    Find(s.executions, (e: ExecutionRecord) => e.approvalId == id)
  }

  function ByIntent(s: Store, id: IntentId): (r: Option<nat>)
    ensures r.Some? ==> r.value < |s.executions| && s.executions[r.value].intentId == id
    ensures r.None? ==> forall e | e in s.executions :: e.intentId != id
  {
    Find(s.executions, (e: ExecutionRecord) => e.intentId == id)
  }

  function ActiveIntent(s: Store, id: ApprovalId): (r: Option<nat>)
    ensures r.Some? ==>
              r.value < |s.intents| && s.intents[r.value].approvalId == id && s.intents[r.value].status.Active?
    ensures r.None? ==> forall i | i in s.intents :: i.approvalId == id ==> !i.status.Active?
  {
    Find(s.intents, (i: Intent) => i.approvalId == id && i.status.Active?)
  }

  function SetApproval(s: Store, id: ApprovalId, a: ApprovalRecord): Store {
    s.(approvals := s.approvals[id := a])
  }

  function SetIntent(s: Store, id: IntentId, status: IntentStatus): Store
    requires id < |s.intents|
  {
    s.(intents := s.intents[id := s.intents[id].(status := status)])
  }

  /** The approval, if `_get_locked_approval`, `_require_approved`, the plan and the policy checks pass. */
  function Executable(s: Store, id: ApprovalId, c: Context): Outcome<ApprovalRecord> {
    if id !in s.approvals then Outcome(s, Err(ApprovalNotFound))
    else
      var a := s.approvals[id];
      if a.status.Approved? && a.expiresAt <= c.now then
        Outcome(SetApproval(s, id, a.(status := ApprovalStatus.Expired)), Err(ApprovalExpired))
      else if a.status.Expired? then Outcome(s, Err(ApprovalExpired))
      else if !a.status.Approved? then Outcome(s, Err(ApprovalNotExecutable))
      else if a.planHash.None? then Outcome(s, Err(PlanNotFound))
      else if !c.policyCurrent then Outcome(s, Err(PolicyChanged))
      else Outcome(s, Ok(a))
  }

  /** `create_execution_intent`, given the nonce it draws. */
  function CreateIntent(s: Store, id: ApprovalId, mode: LaunchMode, ttl: Option<int>, p: Provenance,
                        nonce: string, c: Context): Outcome<IntentId>
  {
    if !c.enabled then Outcome(s, Err(ControlPlaneDisabled))
    else if !OriginBindingFits(p, Some(mode)) then Outcome(s, Err(OriginBindingInvalid))
    else
      var checked := Executable(s, id, c);
      if checked.result.Err? then Outcome(checked.store, Err(checked.result.error))
      else if ByApproval(s, id).Some? then Outcome(s, Err(ExecutionAlreadyExists))
      else
        var active := ActiveIntent(s, id);
        if active.Some? && c.now < s.intents[active.value].expiresAt then Outcome(s, Err(IntentAlreadyActive))
        else
          var seconds := if ttl.Some? then ttl.value else c.defaultTtl;
          if seconds > c.maxTtl then Outcome(s, Err(TtlTooLong))
          else if Find(s.intents, (i: Intent) => i.nonce == Digest(nonce)).Some? then Outcome(s, Err(Conflict))
          else
            var a := checked.result.value;
            var cleared := if active.Some? then SetIntent(s, active.value, Lapsed) else s;
            var intent := Intent(id, Digest(nonce), a.snapshotHash, a.planHash.value, c.Target(mode), mode, p, Active,
                                 c.now + seconds);
            Outcome(cleared.(intents := cleared.intents + [intent]), Ok(|s.intents|))
  }

  /** `verify_download_execution`, as far as it compares stored rows. */
  predicate Verifies(s: Store, e: ExecutionRecord) {
    && e.approvalId in s.approvals
    && e.intentId < |s.intents|
    && (var a := s.approvals[e.approvalId];
        var i := s.intents[e.intentId];
        && OriginBindingFits(e.provenance, Some(e.launchMode))
        && OriginBindingFits(i.provenance, Some(i.launchMode))
        && e.snapshotHash == a.snapshotHash == i.snapshotHash
        && Some(e.planHash) == a.planHash && e.planHash == i.planHash
        && e.target == i.target && e.launchMode == i.launchMode && e.provenance == i.provenance
        && e.requestHash == HashOf(e.approvalId, e.intentId, i.nonce, e.key, e.provenance))
  }

  /** `_require_same_idempotent_request`. */
  function SameRequest(s: Store, n: ExecutionId, approvalId: ApprovalId, intentId: IntentId, hash: RequestHash)
    : Result<ExecutionId, Error>
    requires n < |s.executions|
  {
    var e := s.executions[n];
    if e.approvalId != approvalId || e.intentId != intentId || e.requestHash != hash then Err(IdempotencyKeyReused)
    else if !Verifies(s, e) then Err(ExecutionBindingInvalid)
    else Ok(n)
  }

  /** The intent can be used up by this request. */
  function UsableIntent(s: Store, r: ExecuteRequest, a: ApprovalRecord, c: Context): Outcome<Intent> {
    if r.intentId >= |s.intents| || s.intents[r.intentId].approvalId != r.approvalId then
      Outcome(s, Err(IntentNotFound))
    else
      var i := s.intents[r.intentId];
      if ByIntent(s, r.intentId).Some? then Outcome(s, Err(IntentAlreadyUsed))
      else if i.status.Active? && i.expiresAt <= c.now then
        Outcome(SetIntent(s, r.intentId, Lapsed), Err(IntentExpired))
      else if !i.status.Active? then Outcome(s, Err(IntentNotActive))
      else if i.nonce != Digest(r.nonce) then Outcome(s, Err(NonceInvalid))
      else if i.provenance != r.provenance then Outcome(s, Err(AutomationBindingMismatch))
      else if i.snapshotHash != a.snapshotHash || Some(i.planHash) != a.planHash || i.target != c.Target(i.launchMode)
      then Outcome(s, Err(IntentBindingMismatch))
      else Outcome(s, Ok(i))
  }

  /** `execute_approved_plan`. */
  function Execute(s: Store, r: ExecuteRequest, c: Context): Outcome<ExecutionId> {
    if !OriginBindingFits(r.provenance, Some(AddPaused)) then Outcome(s, Err(OriginBindingInvalid))
    else if !IsIdempotencyKey(r.key) then Outcome(s, Err(IdempotencyKeyInvalid))
    else
      var existing := ByKey(s, Digest(r.key));
      if existing.Some? then
        Outcome(s, SameRequest(s, existing.value, r.approvalId, r.intentId, r.Hashed()))
      else if !c.enabled then Outcome(s, Err(ControlPlaneDisabled))
      else
        var checked := Executable(s, r.approvalId, c);
        if checked.result.Err? then Outcome(checked.store, Err(checked.result.error))
        else if ByApproval(s, r.approvalId).Some? then Outcome(s, Err(ExecutionAlreadyExists))
        else
          var usable := UsableIntent(s, r, checked.result.value, c);
          if usable.result.Err? then Outcome(usable.store, Err(usable.result.error))
          else
            Outcome(SetIntent(s, r.intentId, Used).(
                      executions := s.executions + [NewRecord(r, usable.result.value)]),
                    Ok(|s.executions|))
  }

  function NewRecord(r: ExecuteRequest, i: Intent): ExecutionRecord {
    ExecutionRecord(r.approvalId, r.intentId, Digest(r.key), r.Hashed(), i.snapshotHash, i.planHash, i.target,
                    i.launchMode, r.provenance)
  }

  /** `recover_idempotent_execution`, which takes every request for a manual one. */
  function Recover(s: Store, r: ExecuteRequest): Result<ExecutionId, Error> {
    if !IsIdempotencyKey(r.key) then Err(IdempotencyKeyInvalid)
    else
      var existing := ByKey(s, Digest(r.key));
      if existing.Some? then
        SameRequest(s, existing.value, r.approvalId, r.intentId,
                    ManualRequest(r.approvalId, r.intentId, Digest(r.nonce), Digest(r.key)))
      else if ByApproval(s, r.approvalId).Some? then Err(ExecutionAlreadyExists)
      else if ByIntent(s, r.intentId).Some? then Err(IntentAlreadyUsed)
      else Err(Conflict)
  }

  // ---- Runs ------------------------------------------------------------------------

  datatype Action =
    | AddApproval(id: ApprovalId, expiresAt: Time, snapshotHash: Hash)
    | ApproveWithPlan(id: ApprovalId, planHash: Hash)
    | ChangeStatus(id: ApprovalId, status: ApprovalStatus)
    | DoCreateIntent(id: ApprovalId, mode: LaunchMode, ttl: Option<int>, provenance: Provenance, nonce: string,
                     context: Context)
    | DoExecute(request: ExecuteRequest, context: Context)

  function Step(s: Store, a: Action): Store {
    match a
    case AddApproval(id, expiresAt, snapshotHash) =>
      if id in s.approvals then s
      else SetApproval(s, id, ApprovalRecord(ApprovalStatus.Pending, expiresAt, snapshotHash, None))
    case ApproveWithPlan(id, planHash) =>
      if id in s.approvals && s.approvals[id].status.Pending? && s.approvals[id].planHash.None? then
        SetApproval(s, id, s.approvals[id].(status := Approved, planHash := Some(planHash)))
      else s
    case ChangeStatus(id, status) =>
      if id in s.approvals then SetApproval(s, id, s.approvals[id].(status := status)) else s
    case DoCreateIntent(id, mode, ttl, p, nonce, c) => CreateIntent(s, id, mode, ttl, p, nonce, c).store
    case DoExecute(r, c) => Execute(s, r, c).store
  }

  function Run(s: Store, actions: seq<Action>): Store
    decreases |actions|
  {
    if actions == [] then s else Run(Step(s, actions[0]), actions[1..])
  }

  const EMPTY := Store(map[], [], [])

  predicate ExecutionsDiffer(s: Store) {
    forall m, n | 0 <= m < n < |s.executions| ::
      && s.executions[m].approvalId != s.executions[n].approvalId
      && s.executions[m].intentId != s.executions[n].intentId
      && s.executions[m].key != s.executions[n].key
  }

  predicate IntentFits(s: Store, n: IntentId)
    requires n < |s.intents|
  {
    var i := s.intents[n];
    && i.approvalId in s.approvals
    && s.approvals[i.approvalId].snapshotHash == i.snapshotHash
    && s.approvals[i.approvalId].planHash == Some(i.planHash)
    && OriginBindingFits(i.provenance, Some(i.launchMode))
    && (i.status.Used? <==> ByIntent(s, n).Some?)
    && (i.status.Active? ==> ByApproval(s, i.approvalId).None?)
  }

  predicate Invariant(s: Store) {
    && ExecutionsDiffer(s)
    && (forall e | e in s.executions :: Verifies(s, e) && s.intents[e.intentId].approvalId == e.approvalId)
    && (forall n | 0 <= n < |s.intents| :: IntentFits(s, n))
    && (forall m, n | 0 <= m < n < |s.intents| && s.intents[m].status.Active? && s.intents[n].status.Active? ::
          s.intents[m].approvalId != s.intents[n].approvalId)
  }

  // ---- Every step keeps the invariant ------------------------------------------------

  lemma ApprovalStatusChangeKeepsInvariant(s: Store, id: ApprovalId, a: ApprovalRecord)
    requires Invariant(s)
    requires id in s.approvals ==>
               && a.snapshotHash == s.approvals[id].snapshotHash
               && (s.approvals[id].planHash.Some? ==> a.planHash == s.approvals[id].planHash)
    ensures Invariant(SetApproval(s, id, a))
  {
    var t := SetApproval(s, id, a);
    forall e | e in t.executions ensures Verifies(t, e) && t.intents[e.intentId].approvalId == e.approvalId {
      assert Verifies(s, e);
    }
    forall n | 0 <= n < |t.intents| ensures IntentFits(t, n) {
      assert IntentFits(s, n);
    }
  }

  lemma ExecutableKeepsInvariant(s: Store, id: ApprovalId, c: Context)
    requires Invariant(s)
    ensures Invariant(Executable(s, id, c).store)
    ensures Executable(s, id, c).result.Ok? ==> Executable(s, id, c).store == s
  {
    if id in s.approvals {
      ApprovalStatusChangeKeepsInvariant(s, id, s.approvals[id].(status := ApprovalStatus.Expired));
    }
  }

  lemma LapseKeepsInvariant(s: Store, n: IntentId)
    requires Invariant(s) && n < |s.intents| && s.intents[n].status.Active?
    ensures Invariant(SetIntent(s, n, Lapsed))
  {
    var t := SetIntent(s, n, Lapsed);
    assert IntentFits(s, n);
    forall e | e in t.executions ensures Verifies(t, e) && t.intents[e.intentId].approvalId == e.approvalId {
      assert Verifies(s, e);
    }
    forall m | 0 <= m < |t.intents| ensures IntentFits(t, m) {
      assert IntentFits(s, m);
    }
  }

  lemma AddIntentKeepsInvariant(s: Store, i: Intent)
    requires Invariant(s)
    requires i.status.Active? && ByApproval(s, i.approvalId).None? && ActiveIntent(s, i.approvalId).None?
    requires i.approvalId in s.approvals
    requires s.approvals[i.approvalId].snapshotHash == i.snapshotHash
    requires s.approvals[i.approvalId].planHash == Some(i.planHash)
    requires OriginBindingFits(i.provenance, Some(i.launchMode))
    ensures Invariant(s.(intents := s.intents + [i]))
  {
    var t := s.(intents := s.intents + [i]);
    forall e | e in t.executions ensures Verifies(t, e) && t.intents[e.intentId].approvalId == e.approvalId {
      assert Verifies(s, e);
    }
    forall n | 0 <= n < |t.intents| ensures IntentFits(t, n) {
      if n < |s.intents| {
        assert IntentFits(s, n);
      }
    }
  }

  lemma CreateIntentKeepsInvariant(s: Store, id: ApprovalId, mode: LaunchMode, ttl: Option<int>, p: Provenance,
                                   nonce: string, c: Context)
    requires Invariant(s)
    ensures Invariant(CreateIntent(s, id, mode, ttl, p, nonce, c).store)
  {
    ExecutableKeepsInvariant(s, id, c);
    var out := CreateIntent(s, id, mode, ttl, p, nonce, c);
    if out.result.Ok? {
      var active := ActiveIntent(s, id);
      var cleared := s;
      if active.Some? {
        LapseKeepsInvariant(s, active.value);
        cleared := SetIntent(s, active.value, Lapsed);
        assert forall n | 0 <= n < |s.intents| && n != active.value && s.intents[n].status.Active? ::
            s.intents[n].approvalId != id;
      }
      AddIntentKeepsInvariant(cleared, out.store.intents[|s.intents|]);
    }
  }

  /** Using up an intent for a new execution. */
  lemma ConsumeKeepsInvariant(s: Store, e: ExecutionRecord)
    requires Invariant(s)
    requires e.intentId < |s.intents| && s.intents[e.intentId].status.Active?
    requires s.intents[e.intentId].approvalId == e.approvalId
    requires Verifies(s, e)
    requires ByKey(s, e.key).None? && ByApproval(s, e.approvalId).None? && ByIntent(s, e.intentId).None?
    ensures Invariant(SetIntent(s, e.intentId, Used).(executions := s.executions + [e]))
  {
    var t := SetIntent(s, e.intentId, Used).(executions := s.executions + [e]);
    assert e in t.executions && forall x | x in s.executions :: x in t.executions;
    forall x | x in t.executions ensures Verifies(t, x) && t.intents[x.intentId].approvalId == x.approvalId {
      assert x == e || x in s.executions;
      assert Verifies(s, x);
    }
    forall n | 0 <= n < |t.intents| ensures IntentFits(t, n) {
      UsedIntentsFit(s, e, n);
    }
  }

  lemma UsedIntentsFit(s: Store, e: ExecutionRecord, n: IntentId)
    requires Invariant(s) && n < |s.intents|
    requires e.intentId < |s.intents| && s.intents[e.intentId].status.Active?
    requires s.intents[e.intentId].approvalId == e.approvalId
    ensures IntentFits(SetIntent(s, e.intentId, Used).(executions := s.executions + [e]), n)
  {
    var t := SetIntent(s, e.intentId, Used).(executions := s.executions + [e]);
    assert IntentFits(s, n);
    assert e in t.executions;
    assert forall x | x in t.executions :: x == e || x in s.executions;
    assert forall x | x in s.executions :: x in t.executions;
    if n != e.intentId {
      assert ByIntent(t, n).Some? <==> ByIntent(s, n).Some?;
      if s.intents[n].status.Active? {
        assert s.intents[n].approvalId != e.approvalId;
      }
    }
  }

  lemma StepKeepsInvariant(s: Store, a: Action)
    requires Invariant(s)
    ensures Invariant(Step(s, a))
  {
    match a
    case AddApproval(id, expiresAt, snapshotHash) =>
      if id !in s.approvals {
        ApprovalStatusChangeKeepsInvariant(s, id, Step(s, a).approvals[id]);
      }
    case ApproveWithPlan(id, _) =>
      if id in s.approvals {
        ApprovalStatusChangeKeepsInvariant(s, id, Step(s, a).approvals[id]);
      }
    case ChangeStatus(id, _) =>
      if id in s.approvals {
        ApprovalStatusChangeKeepsInvariant(s, id, Step(s, a).approvals[id]);
      }
    case DoCreateIntent(id, mode, ttl, p, nonce, c) => CreateIntentKeepsInvariant(s, id, mode, ttl, p, nonce, c);
    case DoExecute(r, c) => ExecuteKeepsInvariant(s, r, c);
  }

  lemma ExecuteKeepsInvariant(s: Store, r: ExecuteRequest, c: Context)
    requires Invariant(s)
    ensures Invariant(Execute(s, r, c).store)
  {
    ExecutableKeepsInvariant(s, r.approvalId, c);
    if Execute(s, r, c).result.Ok? {
      if ByKey(s, Digest(r.key)).None? {
        assert IntentFits(s, r.intentId);
        ConsumeKeepsInvariant(s, NewRecord(r, s.intents[r.intentId]));
      }
    } else if Execute(s, r, c).result == Err(IntentExpired) {
      LapseKeepsInvariant(s, r.intentId);
    }
  }

  lemma {:induction false} RunKeepsInvariant(s: Store, actions: seq<Action>)
    requires Invariant(s)
    ensures Invariant(Run(s, actions))
    decreases |actions|
  {
    if actions != [] {
      StepKeepsInvariant(s, actions[0]);
      RunKeepsInvariant(Step(s, actions[0]), actions[1..]);
    }
  }

  // ---- What holds over every run -------------------------------------------------------

  lemma Reachable(actions: seq<Action>)
    ensures Invariant(Run(EMPTY, actions))
  {
    assert Invariant(EMPTY);
    RunKeepsInvariant(EMPTY, actions);
  }

  /** An intent is consumed if and only if exactly one execution references it. */
  lemma IntentIsConsumedExactlyOnce(actions: seq<Action>, n: IntentId)
    requires n < |Run(EMPTY, actions).intents|
    ensures
      var s := Run(EMPTY, actions);
      s.intents[n].status.Used? <==>
        exists m :: 0 <= m < |s.executions| && s.executions[m].intentId == n
                    && forall k | 0 <= k < |s.executions| && s.executions[k].intentId == n :: k == m
  {
    Reachable(actions);
    var s := Run(EMPTY, actions);
    assert IntentFits(s, n);
    if s.intents[n].status.Used? {
      var m := ByIntent(s, n).value;
      assert s.executions[m].intentId == n;
      assert forall k | 0 <= k < |s.executions| && s.executions[k].intentId == n :: k == m;
    }
  }

  /** An approval has at most one active intent, at most one execution, and never both. */
  lemma OneActiveIntentOneExecution(actions: seq<Action>)
    ensures
      var s := Run(EMPTY, actions);
      && (forall m, n | 0 <= m < n < |s.intents| && s.intents[m].status.Active? && s.intents[n].status.Active? ::
            s.intents[m].approvalId != s.intents[n].approvalId)
      && (forall m, n | 0 <= m < n < |s.executions| :: s.executions[m].approvalId != s.executions[n].approvalId)
      && (forall i, e | i in s.intents && e in s.executions && i.status.Active? :: i.approvalId != e.approvalId)
  {
    Reachable(actions);
    var s := Run(EMPTY, actions);
    forall i, e | i in s.intents && e in s.executions && i.status.Active? ensures i.approvalId != e.approvalId {
      var n :| 0 <= n < |s.intents| && s.intents[n] == i;
      assert IntentFits(s, n);
    }
  }

  /** Every stored execution passes its integrity verification for ever. */
  lemma StoredExecutionsVerify(actions: seq<Action>)
    ensures forall e | e in Run(EMPTY, actions).executions :: Verifies(Run(EMPTY, actions), e)
  {
    Reachable(actions);
  }

  lemma StepAppendsExecutions(s: Store, a: Action)
    ensures s.executions <= Step(s, a).executions
  {
  }

  lemma {:induction false} RunAppendsExecutions(s: Store, actions: seq<Action>)
    ensures s.executions <= Run(s, actions).executions
    decreases |actions|
  {
    if actions != [] {
      StepAppendsExecutions(s, actions[0]);
      RunAppendsExecutions(Step(s, actions[0]), actions[1..]);
    }
  }

  predicate SameAsFirst(first: ExecuteRequest, r: ExecuteRequest) {
    && r.approvalId == first.approvalId && r.intentId == first.intentId
    && r.nonce == first.nonce && r.provenance == first.provenance
  }

  /** The row a successful request is answered with carries that request. */
  lemma AnswerCarriesRequest(s: Store, r: ExecuteRequest, c: Context)
    requires Invariant(s) && Execute(s, r, c).result.Ok?
    ensures
      var out := Execute(s, r, c);
      && out.result.value < |out.store.executions|
      && out.store.executions[out.result.value].key == Digest(r.key)
      && out.store.executions[out.result.value].approvalId == r.approvalId
      && out.store.executions[out.result.value].intentId == r.intentId
      && out.store.executions[out.result.value].requestHash == r.Hashed()
      && OriginBindingFits(r.provenance, Some(AddPaused))
  {
  }

  lemma KeyFindsItsExecution(s: Store, n: ExecutionId)
    requires Invariant(s) && n < |s.executions|
    ensures ByKey(s, s.executions[n].key) == Some(n)
  {
    assert s.executions[n] in s.executions;
  }

  /**
   After a request has succeeded, and after anything else has happened since, the
   same key with the same request is answered with the same execution, and with
   any other request it fails. Neither changes anything, under any configuration.
   */
  lemma ReplayIsIdempotent(before: seq<Action>, first: ExecuteRequest, c: Context, between: seq<Action>,
                           again: ExecuteRequest, later: Context)
    requires Execute(Run(EMPTY, before), first, c).result.Ok?
    requires again.key == first.key
    ensures
      var made := Execute(Run(EMPTY, before), first, c);
      var s := Run(made.store, between);
      var out := Execute(s, again, later);
      && out.store == s
      && (out.result == Ok(made.result.value) <==> SameAsFirst(first, again))
      && (out.result.Err? <==> !SameAsFirst(first, again))
  {
    Reachable(before);
    var start := Run(EMPTY, before);
    AnswerCarriesRequest(start, first, c);
    ExecuteKeepsInvariant(start, first, c);
    var made := Execute(start, first, c);
    RunKeepsInvariant(made.store, between);
    RunAppendsExecutions(made.store, between);
    var s := Run(made.store, between);
    var n := made.result.value;
    assert s.executions[n] == made.store.executions[n];
    KeyFindsItsExecution(s, n);
    assert s.executions[n] in s.executions;
    assert Verifies(s, s.executions[n]);
  }

  /**
   Recovery after a conflict finds the execution of a manual request, and refuses
   an automatic one, because the request hashes of the two origins differ.
   */
  lemma RecoveryAgreesForManualRequests(s: Store, r: ExecuteRequest, c: Context)
    requires Invariant(s) && Execute(s, r, c).result.Ok?
    ensures
      var out := Execute(s, r, c);
      Recover(out.store, r) == if r.provenance.origin.Manual? then out.result else Err(IdempotencyKeyReused)
  {
    AnswerCarriesRequest(s, r, c);
    ExecuteKeepsInvariant(s, r, c);
    var out := Execute(s, r, c);
    KeyFindsItsExecution(out.store, out.result.value);
    assert out.store.executions[out.result.value] in out.store.executions;
  }

  // ---- When a request succeeds, and what it changes ------------------------------------

  /** The request names a policy revision and a decision exactly when it comes from automation. */
  predicate NamesItsOrigin(p: Provenance) {
    && (p.origin.Manual? ==> p.policyRevision == None && p.decision == None)
    && (p.origin.Automation? ==> p.policyRevision.Some? && p.decision.Some?)
  }

  /** The approval is waiting for its only execution, under its plan and the policy of that plan. */
  predicate IsReady(s: Store, id: ApprovalId, c: Context) {
    && c.enabled && c.policyCurrent
    && id in s.approvals
    && s.approvals[id].status == Approved
    && c.now < s.approvals[id].expiresAt
    && s.approvals[id].planHash.Some?
    && (forall e | e in s.executions :: e.approvalId != id)
  }

  /** The approval counts as approved although its time is over. */
  predicate IsOverdue(s: Store, id: ApprovalId, c: Context) {
    c.enabled && id in s.approvals && s.approvals[id].status == Approved && s.approvals[id].expiresAt <= c.now
  }

  /** An active intent of this approval which no execution has used. */
  predicate IsOpen(s: Store, n: IntentId, id: ApprovalId) {
    && n < |s.intents|
    && s.intents[n].approvalId == id
    && s.intents[n].status == Active
    && (forall e | e in s.executions :: e.intentId != n)
  }

  /** What the intent was made with is what the request and the tables still say. */
  predicate StillMatches(i: Intent, a: ApprovalRecord, r: ExecuteRequest, c: Context) {
    && i.nonce.text == r.nonce
    && i.provenance == r.provenance
    && i.snapshotHash == a.snapshotHash
    && a.planHash == Some(i.planHash)
    && i.target == (match i.launchMode case AddPaused => c.targetPaused case AddStarted => c.targetStarted)
  }

  predicate WellFormed(r: ExecuteRequest) {
    && NamesItsOrigin(r.provenance)
    && 16 <= |r.key| <= 200
    && IsAlphanumeric(r.key[0])
    && (forall i | 0 <= i < |r.key| :: IsAlphanumeric(r.key[i]) || r.key[i] in {'.', '_', '~', '-'})
  }

  /** A request under a key that no execution has is carried out. */
  predicate CanExecute(s: Store, r: ExecuteRequest, c: Context) {
    && WellFormed(r)
    && IsReady(s, r.approvalId, c)
    && IsOpen(s, r.intentId, r.approvalId)
    && c.now < s.intents[r.intentId].expiresAt
    && StillMatches(s.intents[r.intentId], s.approvals[r.approvalId], r, c)
  }

  /** One execution with these columns is appended, and its intent is used up. */
  predicate Executed(s: Store, t: Store, r: ExecuteRequest)
    requires r.intentId < |s.intents|
  {
    var i := s.intents[r.intentId];
    && t.approvals == s.approvals
    && t.intents == s.intents[r.intentId := i.(status := Used)]
    && |t.executions| == |s.executions| + 1
    && t.executions[..|s.executions|] == s.executions
    && var e := t.executions[|s.executions|];
       && e.approvalId == r.approvalId && e.intentId == r.intentId
       && e.key.text == r.key
       && e.snapshotHash == i.snapshotHash && e.planHash == i.planHash
       && e.target == i.target && e.launchMode == i.launchMode
       && e.provenance == r.provenance
       && e.requestHash == (
            match r.provenance.origin
            case Manual => ManualRequest(r.approvalId, r.intentId, Digest(r.nonce), Digest(r.key))
            case Automation => AutomaticRequest(r.approvalId, r.intentId, Digest(r.nonce), Digest(r.key),
                                                r.provenance.policyRevision, r.provenance.decision))
  }

  /** The approval becomes expired, and nothing else changes. */
  predicate OnlyExpires(s: Store, t: Store, id: ApprovalId)
    requires id in s.approvals
  {
    && t.approvals == s.approvals[id := s.approvals[id].(status := ApprovalStatus.Expired)]
    && t.intents == s.intents && t.executions == s.executions
  }

  /** The intent becomes expired, and nothing else changes. */
  predicate OnlyLapses(s: Store, t: Store, n: IntentId)
    requires n < |s.intents|
  {
    && t.intents == s.intents[n := s.intents[n].(status := Lapsed)]
    && t.approvals == s.approvals && t.executions == s.executions
  }

  /** What `execute_approved_plan` does with a key that no execution has. */
  predicate ExecutedAs(s: Store, r: ExecuteRequest, c: Context, t: Store, answer: Result<ExecutionId, Error>) {
    && (answer.Ok? <==> CanExecute(s, r, c))
    && (answer.Ok? ==> answer.value == |s.executions| && Executed(s, t, r))
    && (answer.Err? ==>
          if WellFormed(r) && IsOverdue(s, r.approvalId, c) then
            answer == Err(ApprovalExpired) && OnlyExpires(s, t, r.approvalId)
          else if && WellFormed(r) && IsReady(s, r.approvalId, c) && IsOpen(s, r.intentId, r.approvalId)
                  && s.intents[r.intentId].expiresAt <= c.now
          then
            answer == Err(IntentExpired) && OnlyLapses(s, t, r.intentId)
          else t == s)
  }

  lemma ExecuteDecides(s: Store, r: ExecuteRequest, c: Context)
    requires forall e | e in s.executions :: e.key != Digest(r.key)
    ensures ExecutedAs(s, r, c, Execute(s, r, c).store, Execute(s, r, c).result)
  {
    assert ByKey(s, Digest(r.key)).None?;
    assert WellFormed(r) <==> OriginBindingFits(r.provenance, Some(AddPaused)) && IsIdempotencyKey(r.key) by {
      KeyFormat(r.key);
    }
    if c.enabled && WellFormed(r) {
      ExecutableDecides(s, r.approvalId, c);
      if IsReady(s, r.approvalId, c) {
        UsableDecides(s, r, c);
      }
    }
  }

  lemma KeyFormat(key: string)
    ensures IsIdempotencyKey(key) <==>
            && 16 <= |key| <= 200
            && IsAlphanumeric(key[0])
            && forall i | 0 <= i < |key| :: IsAlphanumeric(key[i]) || key[i] in {'.', '_', '~', '-'}
  {
    assert forall i | 0 <= i < |key| :: key[i] in key;
    assert forall d: char :: d in "._~-" <==> d in {'.', '_', '~', '-'};
  }

  lemma ExecutableDecides(s: Store, id: ApprovalId, c: Context)
    requires c.enabled
    ensures
      var out := Executable(s, id, c);
      && (out.result.Ok? && ByApproval(s, id).None? <==> IsReady(s, id, c))
      && (out.result.Ok? ==> id in s.approvals && out.result.value == s.approvals[id] && out.store == s)
      && (IsOverdue(s, id, c) ==> out.result == Err(ApprovalExpired) && OnlyExpires(s, out.store, id))
      && (!IsOverdue(s, id, c) ==> out.store == s)
  {
  }

  lemma UsableDecides(s: Store, r: ExecuteRequest, c: Context)
    requires IsReady(s, r.approvalId, c)
    ensures
      var a := s.approvals[r.approvalId];
      var out := UsableIntent(s, r, a, c);
      && (out.result.Ok? <==>
            && IsOpen(s, r.intentId, r.approvalId) && c.now < s.intents[r.intentId].expiresAt
            && StillMatches(s.intents[r.intentId], a, r, c))
      && (out.result.Ok? ==> out.result.value == s.intents[r.intentId])
      && (if IsOpen(s, r.intentId, r.approvalId) && s.intents[r.intentId].expiresAt <= c.now then
            out.result == Err(IntentExpired) && OnlyLapses(s, out.store, r.intentId)
          else out.store == s)
  {
  }

  /** An approval that is ready gets this intent. */
  predicate CanCreate(s: Store, id: ApprovalId, mode: LaunchMode, seconds: int, p: Provenance, nonce: string,
                      c: Context)
  {
    && NamesItsOrigin(p) && (p.origin.Automation? ==> mode == AddPaused)
    && IsReady(s, id, c)
    && (forall i | i in s.intents && i.approvalId == id && i.status == Active :: i.expiresAt <= c.now)
    && seconds <= c.maxTtl
    && (forall i | i in s.intents :: i.nonce.text != nonce)
  }

  /** Active intents of the approval lapse, one intent with these columns is appended. */
  predicate Created(s: Store, t: Store, id: ApprovalId, mode: LaunchMode, seconds: int, p: Provenance, nonce: string,
                    c: Context)
    requires id in s.approvals
  {
    && t.approvals == s.approvals && t.executions == s.executions
    && |t.intents| == |s.intents| + 1
    && (forall n | 0 <= n < |s.intents| ::
          t.intents[n] == if s.intents[n].approvalId == id && s.intents[n].status == Active
                          then s.intents[n].(status := Lapsed) else s.intents[n])
    && var i := t.intents[|s.intents|];
       && i.approvalId == id && i.nonce.text == nonce
       && i.snapshotHash == s.approvals[id].snapshotHash && Some(i.planHash) == s.approvals[id].planHash
       && i.target == (match mode case AddPaused => c.targetPaused case AddStarted => c.targetStarted)
       && i.launchMode == mode && i.provenance == p
       && i.status == Active && i.expiresAt == c.now + seconds
  }

  /** What `create_execution_intent` does. */
  predicate CreatedAs(s: Store, id: ApprovalId, mode: LaunchMode, ttl: Option<int>, p: Provenance, nonce: string,
                      c: Context, t: Store, answer: Result<IntentId, Error>)
  {
    var seconds := if ttl.Some? then ttl.value else c.defaultTtl;
    && (answer.Ok? <==> CanCreate(s, id, mode, seconds, p, nonce, c))
    && (answer.Ok? ==> answer.value == |s.intents| && Created(s, t, id, mode, seconds, p, nonce, c))
    && (answer.Err? ==>
          if && NamesItsOrigin(p) && (p.origin.Automation? ==> mode == AddPaused)
             && IsOverdue(s, id, c)
          then
            answer == Err(ApprovalExpired) && OnlyExpires(s, t, id)
          else t == s)
  }

  lemma CreateIntentDecides(s: Store, id: ApprovalId, mode: LaunchMode, ttl: Option<int>, p: Provenance,
                            nonce: string, c: Context)
    requires Invariant(s)
    ensures
      var out := CreateIntent(s, id, mode, ttl, p, nonce, c);
      CreatedAs(s, id, mode, ttl, p, nonce, c, out.store, out.result)
  {
    if c.enabled && OriginBindingFits(p, Some(mode)) {
      ExecutableDecides(s, id, c);
      if IsReady(s, id, c) {
        ActiveIntentIsTheOnlyOne(s, id);
        NonceIsFresh(s, nonce);
      }
    }
  }

  lemma ActiveIntentIsTheOnlyOne(s: Store, id: ApprovalId)
    requires Invariant(s)
    ensures forall n | 0 <= n < |s.intents| && s.intents[n].approvalId == id ::
              s.intents[n].status == Active <==> ActiveIntent(s, id) == Some(n)
    ensures ActiveIntent(s, id).Some? ==>
              var i := s.intents[ActiveIntent(s, id).value];
              && i in s.intents
              && forall j | j in s.intents && j.approvalId == id && j.status == Active :: j == i
  {
    forall n | 0 <= n < |s.intents| && s.intents[n].approvalId == id
      ensures s.intents[n].status == Active <==> ActiveIntent(s, id) == Some(n)
    {
      assert s.intents[n] in s.intents;
    }
  }

  lemma NonceIsFresh(s: Store, nonce: string)
    ensures Find(s.intents, (i: Intent) => i.nonce == Digest(nonce)).None? <==>
            forall i | i in s.intents :: i.nonce.text != nonce
  {
    var found := Find(s.intents, (i: Intent) => i.nonce == Digest(nonce));
    if found.Some? {
      assert s.intents[found.value] in s.intents;
    } else {
      forall i | i in s.intents ensures i.nonce.text != nonce {
        var n :| 0 <= n < |s.intents| && s.intents[n] == i;
        assert i.nonce != Digest(nonce);
      }
    }
  }

  // ---- The service ------------------------------------------------------------------------

  /** The service over its tables, updated statement by statement. */
  class ControlPlane {
    var approvals: map<ApprovalId, ApprovalRecord>
    var intents: seq<Intent>
    var executions: seq<ExecutionRecord>

    constructor ()
      ensures Tables() == EMPTY
    {
      approvals, intents, executions := map[], [], [];
    }

    function Tables(): Store
      reads this
    {
      Store(approvals, intents, executions)
    }

    predicate IsNewKey(r: ExecuteRequest)
      reads this
    {
      forall e | e in executions :: e.key != Digest(r.key)
    }

    /** The approval is expired when it is due; the answer tells whether it is executable. */
    method RequireApproved(id: ApprovalId, c: Context) returns (r: Result<ApprovalRecord, Error>)
      modifies this`approvals
      ensures Outcome(Tables(), r) == Executable(old(Tables()), id, c)
    {
      if id !in approvals {
        return Err(ApprovalNotFound);
      }
      var a := approvals[id];
      if a.status == Approved && a.expiresAt <= c.now {
        approvals := approvals[id := a.(status := ApprovalStatus.Expired)];
        return Err(ApprovalExpired);
      }
      if a.status == ApprovalStatus.Expired {
        return Err(ApprovalExpired);
      }
      if a.status != Approved {
        return Err(ApprovalNotExecutable);
      }
      if a.planHash == None {
        return Err(PlanNotFound);
      }
      if !c.policyCurrent {
        return Err(PolicyChanged);
      }
      return Ok(a);
    }

    method CreateExecutionIntent(id: ApprovalId, mode: LaunchMode, ttl: Option<int>, p: Provenance, nonce: string,
                                 c: Context) returns (r: Result<IntentId, Error>)
      modifies this
      ensures Outcome(Tables(), r) == CreateIntent(old(Tables()), id, mode, ttl, p, nonce, c)
      ensures old(Invariant(Tables())) ==>
                && Invariant(Tables())
                && CreatedAs(old(Tables()), id, mode, ttl, p, nonce, c, Tables(), r)
    {
      CreateIntentKeeps(id, mode, ttl, p, nonce, c);
      if !c.enabled {
        return Err(ControlPlaneDisabled);
      }
      if !OriginBindingFits(p, Some(mode)) {
        return Err(OriginBindingInvalid);
      }
      var checked := RequireApproved(id, c);
      if checked.Err? {
        return Err(checked.error);
      }
      if ByApproval(Tables(), id).Some? {
        return Err(ExecutionAlreadyExists);
      }
      var seconds := if ttl.Some? then ttl.value else c.defaultTtl;
      r := InsertIntent(id, mode, seconds, p, nonce, c, checked.value);
    }

    /** Retires a lapsed intent and adds the new one, or leaves everything as it was. */
    method InsertIntent(id: ApprovalId, mode: LaunchMode, seconds: int, p: Provenance, nonce: string, c: Context,
                        a: ApprovalRecord) returns (r: Result<IntentId, Error>)
      requires a.planHash.Some?
      modifies this`intents
      ensures
        var s := old(Tables());
        var active := ActiveIntent(s, id);
        if active.Some? && c.now < s.intents[active.value].expiresAt then
          r == Err(IntentAlreadyActive) && Tables() == s
        else if seconds > c.maxTtl then
          r == Err(TtlTooLong) && Tables() == s
        else if Find(s.intents, (i: Intent) => i.nonce == Digest(nonce)).Some? then
          r == Err(Conflict) && Tables() == s
        else
          && r == Ok(|s.intents|)
          && Tables().intents == (if active.Some? then SetIntent(s, active.value, Lapsed) else s).intents
                                 + [Intent(id, Digest(nonce), a.snapshotHash, a.planHash.value, c.Target(mode), mode, p,
                                           Active, c.now + seconds)]
    {
      var saved := intents;
      var active := ActiveIntent(Tables(), id);
      if active.Some? {
        if intents[active.value].expiresAt <= c.now {
          intents := intents[active.value := intents[active.value].(status := Lapsed)];
        } else {
          return Err(IntentAlreadyActive);
        }
      }
      if seconds > c.maxTtl {
        intents := saved;
        return Err(TtlTooLong);
      }
      if Find(saved, (i: Intent) => i.nonce == Digest(nonce)).Some? {
        intents := saved;
        return Err(Conflict);
      }
      intents := intents + [Intent(id, Digest(nonce), a.snapshotHash, a.planHash.value, c.Target(mode), mode, p, Active,
                                   c.now + seconds)];
      return Ok(|saved|);
    }

    lemma CreateIntentKeeps(id: ApprovalId, mode: LaunchMode, ttl: Option<int>, p: Provenance, nonce: string,
                            c: Context)
      ensures
        var out := CreateIntent(Tables(), id, mode, ttl, p, nonce, c);
        Invariant(Tables()) ==>
          Invariant(out.store) && CreatedAs(Tables(), id, mode, ttl, p, nonce, c, out.store, out.result)
    {
      if Invariant(Tables()) {
        CreateIntentDecides(Tables(), id, mode, ttl, p, nonce, c);
        CreateIntentKeepsInvariant(Tables(), id, mode, ttl, p, nonce, c);
      }
    }

    lemma ExecuteKeeps(r: ExecuteRequest, c: Context)
      ensures Invariant(Tables()) ==> Invariant(Execute(Tables(), r, c).store)
      ensures
        var out := Execute(Tables(), r, c);
        IsNewKey(r) ==> ExecutedAs(Tables(), r, c, out.store, out.result)
    {
      if IsNewKey(r) {
        ExecuteDecides(Tables(), r, c);
      }
      if Invariant(Tables()) {
        ExecuteKeepsInvariant(Tables(), r, c);
      }
    }

    method ExecuteApprovedPlan(r: ExecuteRequest, c: Context) returns (answer: Result<ExecutionId, Error>)
      modifies this
      ensures Outcome(Tables(), answer) == Execute(old(Tables()), r, c)
      ensures old(IsNewKey(r)) ==> ExecutedAs(old(Tables()), r, c, Tables(), answer)
      ensures old(Invariant(Tables())) ==> Invariant(Tables())
    {
      ExecuteKeeps(r, c);
      if !OriginBindingFits(r.provenance, Some(AddPaused)) {
        return Err(OriginBindingInvalid);
      }
      if !IsIdempotencyKey(r.key) {
        return Err(IdempotencyKeyInvalid);
      }
      var existing := ByKey(Tables(), Digest(r.key));
      if existing.Some? {
        return SameRequest(Tables(), existing.value, r.approvalId, r.intentId, r.Hashed());
      }
      if !c.enabled {
        return Err(ControlPlaneDisabled);
      }
      var checked := RequireApproved(r.approvalId, c);
      if checked.Err? {
        return Err(checked.error);
      }
      if ByApproval(Tables(), r.approvalId).Some? {
        return Err(ExecutionAlreadyExists);
      }
      var usable := RequireUsableIntent(r, checked.value, c);
      if usable.Err? {
        return Err(usable.error);
      }
      answer := Ok(|executions|);
      executions := executions + [NewRecord(r, usable.value)];
      intents := intents[r.intentId := intents[r.intentId].(status := Used)];
    }

    method RequireUsableIntent(r: ExecuteRequest, a: ApprovalRecord, c: Context) returns (i: Result<Intent, Error>)
      modifies this`intents
      ensures Outcome(Tables(), i) == UsableIntent(old(Tables()), r, a, c)
    {
      if r.intentId >= |intents| || intents[r.intentId].approvalId != r.approvalId {
        return Err(IntentNotFound);
      }
      var intent := intents[r.intentId];
      if ByIntent(Tables(), r.intentId).Some? {
        return Err(IntentAlreadyUsed);
      }
      if intent.status == Active && intent.expiresAt <= c.now {
        intents := intents[r.intentId := intent.(status := Lapsed)];
        return Err(IntentExpired);
      }
      if intent.status != Active {
        return Err(IntentNotActive);
      }
      if intent.nonce != Digest(r.nonce) {
        return Err(NonceInvalid);
      }
      if intent.provenance != r.provenance {
        return Err(AutomationBindingMismatch);
      }
      if || intent.snapshotHash != a.snapshotHash
         || Some(intent.planHash) != a.planHash
         || intent.target != c.Target(intent.launchMode)
      {
        return Err(IntentBindingMismatch);
      }
      return Ok(intent);
    }
  }
}
