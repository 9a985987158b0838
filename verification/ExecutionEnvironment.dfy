/**
 The database and qBittorrent as the workers share them. Every step that anybody
 takes loads rows, runs a service or an executor method that assigns their
 columns, and commits; each commit is proved to be one step of the protocol. So
 the safety results are about the column-assigning code.
 */
module ExecutionEnvironment {
  import opened Common
  import opened ExecutionRows
  import opened ExecutionTransactions
  import opened ExecutionProtocol
  import opened ExecutionServices
  import D = DownloadExecutors

  /** What may happen at any time while `w` is between two steps; its own heartbeat included. */
  predicate Foreign(a: Action, w: WorkerName) {
    a.OnCase() || a.RenewLease? || a.worker != w
  }

  lemma ForeignStepKeepsPhase(s: State, a: Action, w: WorkerName, settings: Settings)
    requires Foreign(a, w)
    ensures PhaseOf(Step(s, a, settings), w) == PhaseOf(s, w)
  {
  }

  /** What a worker has done to rows and to qBittorrent, without the checks and renewals in between. */
  datatype Write =
    | Reservation(metadata: Metadata, expectedHash: Option<Hash>)
    | Add
    | Finalization(outcome: ExecutionStatus)
    | ValidationFailure(retryable: bool)
    | ReservedFailure

  function WriteOf(a: Action, w: WorkerName): seq<Write> {
    if a.OnCase() || a.worker != w then []
    else if a.ReserveSubmission? then [Reservation(a.metadata, a.expectedHash)]
    else if a.SendAdd? then [Add]
    else if a.FinalizeSubmission? then [Finalization(a.outcome)]
    else if a.FailValidation? then [ValidationFailure(a.retryable)]
    else if a.FailReserved? then [ReservedFailure]
    else []
  }

  function Writes(trace: seq<Action>, w: WorkerName): seq<Write>
    decreases |trace|
  {
    if trace == [] then [] else Writes(trace[..|trace| - 1], w) + WriteOf(trace[|trace| - 1], w)
  }

  lemma WritesAppend(trace: seq<Action>, a: Action, w: WorkerName)
    ensures Writes(trace + [a], w) == Writes(trace, w) + WriteOf(a, w)
  {
    assert (trace + [a])[..|trace|] == trace;
  }

  /** Every execution has a gapless audit trail that ends in its present status. */
  predicate AuditComplete(cases: map<ApprovalId, Case>, audit: map<ApprovalId, seq<Event>>) {
    forall id | id in cases && cases[id].execution.Some? ::
      id in audit && LeadsTo(audit[id], cases[id].execution.value.status)
  }

  lemma FinalizeIsStep(s: State, w: WorkerName, outcome: ExecutionStatus, matches: bool, now: Time, utc: Time,
                       settings: Settings)
    requires !PhaseOf(s, w).Idle? && HasExecution(s, PhaseOf(s, w).id) && MayFinalize(PhaseOf(s, w), outcome)
    ensures
      var p := PhaseOf(s, w);
      var c := s.cases[p.id];
      Step(s, FinalizeSubmission(w, outcome, matches, now, utc), settings)
      == SetCase(s, p.id, c.With(Finalize(c.ToRows(), p.token, outcome, matches, now, utc, settings)))
  {
  }

  lemma FailReservedIsStep(s: State, w: WorkerName, now: Time, settings: Settings)
    requires !PhaseOf(s, w).Idle? && HasExecution(s, PhaseOf(s, w).id) && !PhaseOf(s, w).Checking?
    ensures
      var p := PhaseOf(s, w);
      var failed := ReservedFailed(s.cases[p.id].execution.value, Claim(w, p.token), !p.Holding?, now, settings);
      Step(s, FailReserved(w, now), settings) == SetPhase(SetExecution(s, p.id, failed), w, Idle)
  {
  }

  predicate MayFinalize(p: Phase, outcome: ExecutionStatus) {
    (outcome.AlreadyPresent? && p.Holding?) || (outcome.Submitted? && p.Sent? && p.added)
  }

  /** The rows of a permitted guard: only the lease is newer. */
  function Renewal(r: Rows, now: Time): Rows {
    r.(execution := r.execution.(lockedAt := Some(now)))
  }

  /** What a guard's outcome does to the state. */
  lemma GuardOutcomeIsStep(s: State, w: WorkerName, expected: ExecutionStatus, written: bool, sight: Sight,
                           settings: Settings, next: Phase)
    requires !PhaseOf(s, w).Idle? && HasExecution(s, PhaseOf(s, w).id)
    ensures
      var p := PhaseOf(s, w);
      var c := s.cases[p.id];
      var after := GuardStep(s, w, expected, written, sight, settings, next);
      match Guard(c.ToRows(), Claim(w, p.token), expected, written, sight, settings)
      case LeaseLost => after == State(s.cases[p.id := c.With(c.ToRows())], s.workers[w := Idle], s.nextToken)
      case Raised => after == s
      case Refused(r) => after == State(s.cases[p.id := c.With(r)], s.workers[w := Idle], s.nextToken)
      case Allowed(r) => after == State(s.cases[p.id := c.With(r)], s.workers[w := next], s.nextToken)
  {
    var c := s.cases[PhaseOf(s, w).id];
    assert c.With(c.ToRows()) == c;
    assert s.cases[PhaseOf(s, w).id := c] == s.cases;
  }

  /** What a recovery is about to commit for one row. */
  datatype Freed = Freed(id: ApprovalId, execution: Execution, events: seq<Event>)

  predicate IsRecovered(cases: map<ApprovalId, Case>, f: Freed, now: Time, settings: Settings) {
    && f.id in cases && cases[f.id].execution.Some? && LeadsTo(f.events, f.execution.status)
    && f.execution == Recovered(cases[f.id].execution.value, now, settings)
    && f.execution.leaseToken.None? && !f.execution.status.Active()
  }

  ghost function AllFreed(cases: map<ApprovalId, Case>, freed: seq<Freed>): map<ApprovalId, Case>
    decreases |freed|
  {
    if freed == [] then cases
    else if freed[0].id !in cases then cases
    else AllFreed(cases[freed[0].id := cases[freed[0].id].(execution := Some(freed[0].execution))], freed[1..])
  }

  /** Freed rows are no longer active, the others are as they were. */
  lemma {:induction false} AllFreedAt(cases: map<ApprovalId, Case>, freed: seq<Freed>, id: ApprovalId)
    requires forall f | f in freed :: f.id in cases && !f.execution.status.Active()
    ensures AllFreed(cases, freed).Keys == cases.Keys
    ensures id in cases ==>
              var after := AllFreed(cases, freed)[id];
              after.approval == cases[id].approval
    ensures id in cases ==>
              var after := AllFreed(cases, freed)[id];
              after == cases[id] || (after.execution.Some? && !after.execution.value.status.Active())
    ensures id in cases && (exists f :: f in freed && f.id == id) ==>
              AllFreed(cases, freed)[id].execution.Some? && !AllFreed(cases, freed)[id].execution.value.status.Active()
    decreases |freed|
  {
    if freed != [] {
      var next := cases[freed[0].id := cases[freed[0].id].(execution := Some(freed[0].execution))];
      assert forall f | f in freed[1..] :: f in freed;
      AllFreedAt(next, freed[1..], id);
      assert forall f | f in freed :: f == freed[0] || f in freed[1..];
    }
  }

  /** Every stale row that nobody else has locked is among the freed ones. */
  ghost predicate CoversStale(cases: map<ApprovalId, Case>, freed: seq<Freed>, lockedByOthers: set<ApprovalId>,
                              now: Time, settings: Settings)
  {
    forall id | id in cases && cases[id].execution.Some? && IsStale(cases[id].execution.value, now, settings) ::
      id in lockedByOthers || exists f :: f in freed && f.id == id
  }

  lemma FreedIdsCoverStale(cases: map<ApprovalId, Case>, freed: seq<Freed>, ids: seq<ApprovalId>,
                           lockedByOthers: set<ApprovalId>, now: Time, settings: Settings)
    requires |freed| == |ids| && forall i | 0 <= i < |ids| :: freed[i].id == ids[i]
    requires forall id | id in cases && cases[id].execution.Some?
                         && IsStale(cases[id].execution.value, now, settings) ::
               id in lockedByOthers || id in ids
    ensures CoversStale(cases, freed, lockedByOthers, now, settings)
  {
    forall id | id in ids ensures exists f :: f in freed && f.id == id {
      var i :| 0 <= i < |ids| && ids[i] == id;
      assert freed[i] in freed;
    }
  }

  lemma AllStaleAreFreed(cases: map<ApprovalId, Case>, freed: seq<Freed>, lockedByOthers: set<ApprovalId>,
                         now: Time, settings: Settings)
    requires CoversStale(cases, freed, lockedByOthers, now, settings)
    requires forall i | 0 <= i < |freed| :: IsRecovered(cases, freed[i], now, settings)
    ensures NothingStale(AllFreed(cases, freed), lockedByOthers, now, settings)
  {
    var after := AllFreed(cases, freed);
    forall id | id in after && after[id].execution.Some? && IsStale(after[id].execution.value, now, settings)
      ensures id in lockedByOthers
    {
      AllFreedAt(cases, freed, id);
    }
  }

  predicate NothingStale(cases: map<ApprovalId, Case>, lockedByOthers: set<ApprovalId>, now: Time, settings: Settings) {
    forall id | id in cases && cases[id].execution.Some? && IsStale(cases[id].execution.value, now, settings) ::
      id in lockedByOthers
  }

  predicate NothingClaimable(cases: map<ApprovalId, Case>, lockedByOthers: set<ApprovalId>, now: Time) {
    forall id | id in cases && cases[id].execution.Some? && IsClaimable(cases[id].execution.value, now) ::
      id in lockedByOthers
  }

  class Environment {
    const settings: Settings
    var cases: map<ApprovalId, Case>
    var audit: map<ApprovalId, seq<Event>>
    var createdAt: map<ApprovalId, Time>
    var nextToken: Token
    /** Where each worker is; only the other workers' steps are computed from it. */
    var workers: map<WorkerName, Phase>
    /** What everybody else will do between this worker's steps, batch by batch. */
    var schedule: seq<seq<Action>>
    ghost const start: State
    ghost var trace: seq<Action>

    constructor (start: State, audit: map<ApprovalId, seq<Event>>, createdAt: map<ApprovalId, Time>,
                 schedule: seq<seq<Action>>, settings: Settings)
      requires Invariant(start) && AuditComplete(start.cases, audit)
      ensures Valid() && Model() == start
      ensures this.start == start && this.settings == settings && trace == []
    {
      this.settings, this.start, this.schedule := settings, start, schedule;
      this.audit, this.createdAt := audit, createdAt;
      cases, nextToken, workers, trace := start.cases, start.nextToken, start.workers, [];
    }

    function Model(): State
      reads this
    {
      State(cases, workers, nextToken)
    }

    /** The present state is the result of a run of the protocol, and audited. */
    ghost predicate Valid()
      reads this
    {
      && Invariant(start) && Invariant(Model()) && Model() == Run(start, trace, settings)
      && AuditComplete(cases, audit)
    }

    twostate predicate Took(a: Action)
      reads this
    {
      && Model() == Step(old(Model()), a, settings)
      && trace == old(trace) + [a] && schedule == old(schedule)
    }

    /** Extends the recorded run by the action that has just been taken. */
    ghost method Record(a: Action, before: State)
      requires Invariant(start) && Invariant(before) && before == Run(start, trace, settings)
      requires Model() == Step(before, a, settings) && AuditComplete(cases, audit)
      modifies this`trace
      ensures Valid() && trace == old(trace) + [a]
    {
      RunAppend(start, trace, a, settings);
      StepKeepsInvariant(before, a, settings);
      trace := trace + [a];
    }

    // ---- Sessions ------------------------------------------------------------

    predicate IsLoaded(row: ExecutionRow)
      reads this, row, row.approval
    {
      && HasExecution(Model(), row.id)
      && row.Rows() == cases[row.id].ToRows()
      && row.id in audit && row.events == audit[row.id] && row.Audited()
      && row.createdAt == CreatedAt(row.id)
    }

    function CreatedAt(id: ApprovalId): Time
      reads this
    {
      if id in createdAt then createdAt[id] else 0
    }

    method Load(id: ApprovalId) returns (row: ExecutionRow)
      requires Valid() && HasExecution(Model(), id)
      ensures fresh(row) && fresh(row.approval) && row.id == id && IsLoaded(row)
    {
      var c := cases[id];
      var approval := new ApprovalRow.Load(c.approval);
      row := new ExecutionRow.Load(id, CreatedAt(id), c.ToRows(), approval, audit[id]);
    }

    /** A locking query that skips the rows others have locked. */
    method Unlocked(lockedByOthers: set<ApprovalId>) returns (rows: seq<ExecutionRow>)
      requires Valid()
      ensures forall i | 0 <= i < |rows| :: fresh(rows[i]) && fresh(rows[i].approval) && IsLoaded(rows[i])
      ensures forall i | 0 <= i < |rows| :: rows[i].id !in lockedByOthers
      ensures forall i, j | 0 <= i < j < |rows| :: rows[i].id != rows[j].id
      ensures forall id | HasExecution(Model(), id) ::
                id in lockedByOthers || exists i :: 0 <= i < |rows| && rows[i].id == id
    {
      var ids := UnlockedIds(lockedByOthers);
      rows := LoadAll(ids);
      forall id | HasExecution(Model(), id) && id !in lockedByOthers
        ensures exists i :: 0 <= i < |rows| && rows[i].id == id
      {
        var i :| 0 <= i < |ids| && ids[i] == id;
        assert rows[i].id == id;
      }
    }

    method LoadAll(ids: seq<ApprovalId>) returns (rows: seq<ExecutionRow>)
      requires Valid()
      requires forall id | id in ids :: HasExecution(Model(), id)
      ensures |rows| == |ids|
      ensures forall i | 0 <= i < |rows| :: fresh(rows[i]) && fresh(rows[i].approval) && IsLoaded(rows[i])
      ensures forall i | 0 <= i < |rows| :: rows[i].id == ids[i]
    {
      rows := [];
      while |rows| < |ids|
        invariant |rows| <= |ids|
        invariant forall i | 0 <= i < |rows| :: fresh(rows[i]) && fresh(rows[i].approval) && IsLoaded(rows[i])
        invariant forall i | 0 <= i < |rows| :: rows[i].id == ids[i]
        decreases |ids| - |rows|
      {
        var row := Load(ids[|rows|]);
        rows := rows + [row];
      }
    }

    method UnlockedIds(lockedByOthers: set<ApprovalId>) returns (ids: seq<ApprovalId>)
      ensures Distinct(ids)
      ensures forall id | id in ids :: HasExecution(Model(), id) && id !in lockedByOthers
      ensures forall id | HasExecution(Model(), id) :: id in lockedByOthers || id in ids
    {
      ids := [];
      var left := cases.Keys - lockedByOthers;
      while left != {}
        invariant left <= cases.Keys - lockedByOthers && Distinct(ids)
        invariant forall id | id in ids :: HasExecution(Model(), id) && id !in lockedByOthers && id !in left
        invariant forall id | HasExecution(Model(), id) :: id in lockedByOthers || id in left || id in ids
        decreases left
      {
        var id := Pick(left);
        left := left - {id};
        if cases[id].execution.Some? {
          ids := ids + [id];
        }
      }
    }

    /** Commits a case, with the audit trail that its row now has. */
    method Commit(id: ApprovalId, c: Case, events: seq<Event>, phases: map<WorkerName, Phase>, next: Token,
                  ghost a: Action)
      requires Valid()
      requires c.execution.Some? ==> LeadsTo(events, c.execution.value.status)
      requires Step(Model(), a, settings) == State(cases[id := c], phases, next)
      modifies this
      ensures Valid() && Took(a) && workers == phases && createdAt == old(createdAt)
      ensures cases == old(cases)[id := c] && audit == old(audit)[id := events]
    {
      ghost var before := Model();
      cases, audit, workers, nextToken := cases[id := c], audit[id := events], phases, next;
      Record(a, before);
    }

    /** An action that is not enabled, or a transaction that writes nothing. */
    method Nothing(ghost a: Action)
      requires Valid() && Step(Model(), a, settings) == Model()
      modifies this
      ensures Valid() && Took(a) && createdAt == old(createdAt) && cases == old(cases) && workers == old(workers)
    {
      Record(a, Model());
    }

    // ---- Transactions of a worker that holds a claim ---------------------------

    lemma HolderHasRow(w: WorkerName)
      requires Valid() && !PhaseOf(Model(), w).Idle?
      ensures HasExecution(Model(), PhaseOf(Model(), w).id)
    {
      assert WorkerInvariant(Model(), w);
    }

    ghost predicate Ready(x: D.DownloadExecutor, p: Phase)
      reads this
    {
      Valid() && x.settings == settings && !p.Idle? && PhaseOf(Model(), x.worker) == p && HasExecution(Model(), p.id)
    }

    method EnsureAllowed(x: D.DownloadExecutor, p: Phase, expected: ExecutionStatus, written: bool, sight: Sight,
                         next: Phase, ghost a: Action) returns (outcome: D.GuardOutcome)
      requires Ready(x, p)
      requires Step(Model(), a, settings) == GuardStep(Model(), x.worker, expected, written, sight, settings, next)
      modifies this
      ensures Valid() && Took(a)
      ensures PhaseOf(Model(), x.worker)
              == if outcome.Permitted? then next else if outcome.Raised? then p else Idle
      ensures outcome.Permitted? <==>
                old(MayAct(cases[p.id].ToRows(), Claim(x.worker, p.token), expected, sight, settings))
      ensures outcome.Permitted? ==>
                HasExecution(Model(), p.id)
                && cases[p.id].ToRows() == Renewal(old(cases[p.id].ToRows()), sight.now)
    {
      GuardOutcomeIsStep(Model(), x.worker, expected, written, sight, settings, next);
      GuardDecides(cases[p.id].ToRows(), Claim(x.worker, p.token), expected, written, sight, settings);
      var rows, events;
      outcome, rows, events := RunGuard(x, p, expected, written, sight);
      if outcome.Raised? {
        Nothing(a);
        return;
      }
      Commit(p.id, cases[p.id].With(rows), events, workers[x.worker := if outcome.Permitted? then next else Idle],
             nextToken, a);
    }

    /** The guard on the loaded rows, and what it leaves to commit. */
    method RunGuard(x: D.DownloadExecutor, p: Phase, expected: ExecutionStatus, written: bool, sight: Sight)
      returns (outcome: D.GuardOutcome, rows: Rows, events: seq<Event>)
      requires Ready(x, p)
      ensures LeadsTo(events, rows.execution.status)
      ensures match Guard(cases[p.id].ToRows(), Claim(x.worker, p.token), expected, written, sight, settings)
              case LeaseLost => outcome == D.GuardOutcome.LeaseLost && rows == cases[p.id].ToRows()
              case Raised => outcome == D.GuardOutcome.Raised
              case Refused(r) => outcome == D.GuardOutcome.Denied && rows == r
              case Allowed(r) => outcome == D.GuardOutcome.Permitted && rows == r
    {
      var row := Load(p.id);
      outcome := x.EnsureExternalActionAllowed(row, p.token, expected, written, sight);
      rows, events := row.Rows(), row.events;
    }

    /** `reserved` and `cancelled` tell how the transaction ended; neither means that it raised. */
    method Reserve(x: D.DownloadExecutor, p: Phase, m: Metadata, expectedHash: Option<Hash>, clocks: ReserveClocks)
      returns (reserved: bool, cancelled: bool)
      requires Ready(x, p) && p.Checking? && m.Valid()
      modifies this
      ensures Valid() && Took(ReserveSubmission(x.worker, m, expectedHash, clocks))
      ensures PhaseOf(Model(), x.worker) == if reserved then Holding(p.id, p.token) else if cancelled then Idle else p
      ensures reserved <==>
                old(MayReserve(cases[p.id].ToRows(), Claim(x.worker, p.token), m, expectedHash, clocks, settings))
      ensures reserved ==>
                && HasExecution(Model(), p.id)
                && var e, was := cases[p.id].execution.value, old(cases[p.id].execution.value);
                   && e.status == Submitting && cases[p.id].approval.status == Executing
                   && cases[p.id].job == old(cases[p.id].job)
                   && e.leaseToken == was.leaseToken && e.lockedBy == was.lockedBy && e.lockedAt == was.lockedAt
    {
      ReserveDecides(cases[p.id].ToRows(), Claim(x.worker, p.token), m, expectedHash, clocks, settings);
      var row := Load(p.id);
      ghost var a := ReserveSubmission(x.worker, m, expectedHash, clocks);
      var ok := x.ReserveSubmission(row, p.token, m, expectedHash, clocks);
      reserved, cancelled := ok && row.status.Submitting?, ok && row.status.Cancelled?;
      if reserved {
        Commit(p.id, cases[p.id].With(row.Rows()).(reservedBy := Some(p.token)), row.events,
               workers[x.worker := Holding(p.id, p.token)], nextToken, a);
      } else if cancelled {
        Commit(p.id, cases[p.id].With(row.Rows()), row.events, workers[x.worker := Idle], nextToken, a);
      } else {
        Nothing(a);
      }
    }

    /** The add request leaves the worker, and `reaches` qBittorrent or not. */
    method SendAdd(x: D.DownloadExecutor, p: Phase, reaches: bool)
      requires Ready(x, p) && p.Armed?
      modifies this
      ensures Valid() && Took(ExecutionProtocol.SendAdd(x.worker, reaches))
      ensures PhaseOf(Model(), x.worker) == Sent(p.id, p.token, reaches)
      ensures HasExecution(Model(), p.id) && cases[p.id].ToRows() == old(cases[p.id].ToRows())
    {
      var c := cases[p.id];
      Commit(p.id, c.(adds := c.adds + [p.token]), audit[p.id], workers[x.worker := Sent(p.id, p.token, reaches)],
             nextToken, ExecutionProtocol.SendAdd(x.worker, reaches));
    }

    method RenewLease(x: D.DownloadExecutor, p: Phase, now: Time) returns (renewed: bool)
      requires Ready(x, p)
      modifies this
      ensures Valid() && Took(ExecutionProtocol.RenewLease(x.worker, now))
      ensures renewed ==> forall later: Time | later < now + settings.leaseSeconds ::
                !IsStale(cases[p.id].execution.value, later, settings)
      ensures !renewed ==> cases == old(cases)
    {
      var row := Load(p.id);
      renewed := x.RenewLease(row, p.token, now);
      var c := cases[p.id].(execution := Some(row.Value()));
      assert !renewed ==> cases[p.id := c] == cases;
      Commit(p.id, c, row.events, workers, nextToken, ExecutionProtocol.RenewLease(x.worker, now));
    }

    method FinalizeSubmission(x: D.DownloadExecutor, p: Phase, outcome: ExecutionStatus, matches: bool, now: Time,
                              utc: Time)
      returns (ok: bool)
      requires Ready(x, p) && MayFinalize(p, outcome)
      modifies this
      ensures Valid() && Took(ExecutionProtocol.FinalizeSubmission(x.worker, outcome, matches, now, utc))
      ensures PhaseOf(Model(), x.worker) == p
      ensures old(CanFinalize(cases[p.id].ToRows(), p.token, matches, now, settings)) ==> ok
      ensures ok ==> HasExecution(Model(), p.id) && cases[p.id].job && cases[p.id].execution.value.status == outcome
    {
      FinalizeIsStep(Model(), x.worker, outcome, matches, now, utc, settings);
      FinalizeDecides(cases[p.id].ToRows(), p.token, outcome, matches, now, utc, settings);
      var row := Load(p.id);
      ok := row.Finalize(outcome, p.token, matches, now, utc, settings);
      Commit(p.id, cases[p.id].With(row.Rows()), row.events, workers, nextToken,
             ExecutionProtocol.FinalizeSubmission(x.worker, outcome, matches, now, utc));
    }

    method FailValidation(x: D.DownloadExecutor, p: Phase, retryable: bool, now: Time)
      requires Ready(x, p) && p.Checking?
      modifies this
      ensures Valid() && Took(ExecutionProtocol.FailValidation(x.worker, retryable, now))
      ensures PhaseOf(Model(), x.worker).Idle?
    {
      var row := Load(p.id);
      x.MarkValidationFailure(row, p.token, retryable, now);
      Commit(p.id, cases[p.id].(execution := Some(row.Value())), row.events, workers[x.worker := Idle], nextToken,
             ExecutionProtocol.FailValidation(x.worker, retryable, now));
    }

    method FailReserved(x: D.DownloadExecutor, p: Phase, addMayHaveOccurred: bool, now: Time)
      requires Ready(x, p) && !p.Checking? && (addMayHaveOccurred <==> !p.Holding?)
      modifies this
      ensures Valid() && Took(ExecutionProtocol.FailReserved(x.worker, now))
      ensures PhaseOf(Model(), x.worker).Idle?
    {
      FailReservedIsStep(Model(), x.worker, now, settings);
      var row := Load(p.id);
      x.MarkReservedFailure(row, p.token, addMayHaveOccurred, now);
      Commit(p.id, cases[p.id].(execution := Some(row.Value())), row.events, workers[x.worker := Idle], nextToken,
             ExecutionProtocol.FailReserved(x.worker, now));
    }

    // ---- Claiming and recovering ------------------------------------------------

    predicate CreatedNoLater(a: ApprovalId, b: ApprovalId)
      reads this
    {
      CreatedAt(a) < CreatedAt(b) || (CreatedAt(a) == CreatedAt(b) && a <= b)
    }

    ghost predicate IsOldestClaimable(id: ApprovalId, lockedByOthers: set<ApprovalId>, now: Time)
      reads this
    {
      && HasExecution(Model(), id) && IsClaimable(cases[id].execution.value, now) && id !in lockedByOthers
      && forall other | HasExecution(Model(), other) && IsClaimable(cases[other].execution.value, now) ::
           other in lockedByOthers || CreatedNoLater(id, other)
    }

    method Candidates(lockedByOthers: set<ApprovalId>) returns (rows: seq<ExecutionRow>)
      requires Valid()
      ensures forall row | row in rows ::
                && fresh(row) && row.Audited() && HasExecution(Model(), row.id) && row.id !in lockedByOthers
                && row.Value() == cases[row.id].execution.value && row.createdAt == CreatedAt(row.id)
      ensures forall id | HasExecution(Model(), id) :: id in lockedByOthers || exists row :: row in rows && row.id == id
    {
      rows := Unlocked(lockedByOthers);
      forall id | HasExecution(Model(), id) && id !in lockedByOthers ensures exists row :: row in rows && row.id == id {
        var i :| 0 <= i < |rows| && rows[i].id == id;
        assert rows[i] in rows;
      }
    }

    /** The claiming transaction up to its commit. */
    method ClaimUnlocked(x: D.DownloadExecutor, lockedByOthers: set<ApprovalId>, now: Time) returns (row: ExecutionRow?)
      requires Valid()
      ensures row == null ==>
                forall id | HasExecution(Model(), id) && IsClaimable(cases[id].execution.value, now) ::
                  id in lockedByOthers
      ensures row != null ==>
                && fresh(row) && IsOldestClaimable(row.id, lockedByOthers, now)
                && row.Value() == Claimed(cases[row.id].execution.value, Claim(x.worker, nextToken), now)
                && row.Audited()
    {
      var rows := Candidates(lockedByOthers);
      assert forall i | 0 <= i < |rows| :: rows[i] in rows;
      row := x.ClaimNextExecution(rows, nextToken, now);
    }

    /** `_claim_next_execution` on the rows that nobody else has locked: the oldest claimable one, if any. */
    method ClaimNext(x: D.DownloadExecutor, lockedByOthers: set<ApprovalId>, now: Time)
      returns (claimed: Option<ApprovalId>)
      requires Valid() && PhaseOf(Model(), x.worker).Idle?
      modifies this
      ensures Valid()
      ensures claimed.None? ==>
                && Model() == old(Model()) && trace == old(trace) && schedule == old(schedule)
                && NothingClaimable(cases, lockedByOthers, now)
      ensures claimed.Some? ==>
                && old(IsOldestClaimable(claimed.value, lockedByOthers, now))
                && Took(ExecutionProtocol.ClaimNext(x.worker, claimed.value, now))
                && PhaseOf(Model(), x.worker) == Checking(claimed.value, old(nextToken))
    {
      var row := ClaimUnlocked(x, lockedByOthers, now);
      if row == null {
        return None;
      }
      claimed := Some(row.id);
      var c := cases[row.id].(execution := Some(row.Value()));
      Commit(row.id, c, row.events, workers[x.worker := Checking(row.id, nextToken)], nextToken + 1,
             ExecutionProtocol.ClaimNext(x.worker, row.id, now));
    }

    /** The query of the recovery on the rows that nobody else has locked. */
    method SelectStale(x: D.DownloadExecutor, lockedByOthers: set<ApprovalId>, now: Time)
      returns (stale: seq<ExecutionRow>, ghost ids: seq<ApprovalId>)
      requires Valid() && x.settings == settings
      ensures |stale| <= D.RECOVERY_LIMIT && D.InOrder(stale)
      ensures forall row | row in stale :: fresh(row) && IsLoaded(row) && IsStale(row.Value(), now, settings)
      ensures |ids| == |stale| && forall i | 0 <= i < |ids| :: stale[i].id == ids[i]
      ensures forall i, j | 0 <= i < j < |ids| :: ids[i] != ids[j]
      ensures forall id | HasExecution(Model(), id) && IsStale(cases[id].execution.value, now, settings) ::
                id in lockedByOthers || |stale| == D.RECOVERY_LIMIT || id in ids
    {
      var rows := Unlocked(lockedByOthers);
      stale := x.SelectStale(rows, now);
      ids := seq(|stale|, i requires 0 <= i < |stale| => stale[i].id);
      forall i, j | 0 <= i < j < |ids| ensures ids[i] != ids[j] {
        assert stale[i] in stale && stale[j] in stale && stale[i] != stale[j];
      }
      forall id | HasExecution(Model(), id) && IsStale(cases[id].execution.value, now, settings)
                  && id !in lockedByOthers && |stale| != D.RECOVERY_LIMIT
        ensures id in ids
      {
        var i :| 0 <= i < |rows| && rows[i].id == id;
        assert rows[i] in rows && IsLoaded(rows[i]) && rows[i] in stale;
        var k :| 0 <= k < |stale| && stale[k] == rows[i];
        assert ids[k] == id;
      }
    }

    /** The loop of the recovery, and what it is about to commit. */
    method RecoverSelected(x: D.DownloadExecutor, stale: seq<ExecutionRow>, now: Time) returns (freed: seq<Freed>)
      requires Valid() && x.settings == settings && D.InOrder(stale)
      requires forall row | row in stale :: IsLoaded(row) && IsStale(row.Value(), now, settings)
      modifies stale
      ensures |freed| == |stale|
      ensures forall i | 0 <= i < |stale| :: freed[i].id == stale[i].id && IsRecovered(cases, freed[i], now, settings)
    {
      ghost var was := cases;
      forall row | row in stale ensures row.id in was && was[row.id].execution == Some(row.Value()) {
        assert IsLoaded(row);
      }
      x.RecoverStaleExecutions(stale, now);
      freed := Snapshot(stale);
      forall i | 0 <= i < |stale| ensures IsRecovered(cases, freed[i], now, settings) {
        assert stale[i] in stale;
      }
    }

    method Snapshot(rows: seq<ExecutionRow>) returns (taken: seq<Freed>)
      ensures |taken| == |rows|
      ensures forall i | 0 <= i < |rows| :: taken[i] == Freed(rows[i].id, rows[i].Value(), rows[i].events)
    {
      taken := seq(|rows|, i requires 0 <= i < |rows| reads rows => Freed(rows[i].id, rows[i].Value(), rows[i].events));
    }

    /**
     One round of recovery: the rows locked longest are freed one after the other;
     when fewer than fifty were stale, no unlocked row is stale afterwards.
     */
    method RecoverStale(x: D.DownloadExecutor, lockedByOthers: set<ApprovalId>, now: Time) returns (count: nat)
      requires Valid() && x.settings == settings
      modifies this
      ensures Valid() && old(trace) <= trace && schedule == old(schedule) && workers == old(workers)
      ensures |trace| == |old(trace)| + count && Writes(trace, x.worker) == old(Writes(trace, x.worker))
      ensures forall id | id in cases :: id in old(cases) && cases[id].approval == old(cases)[id].approval
      ensures count <= D.RECOVERY_LIMIT
      ensures count < D.RECOVERY_LIMIT ==> NothingStale(cases, lockedByOthers, now, settings)
    {
      ghost var was := cases;
      var freed := RecoverUnlocked(x, lockedByOthers, now);
      count := |freed|;
      FreeAll(freed, now, x.worker);
      forall id ensures id in cases ==> id in was && cases[id].approval == was[id].approval {
        AllFreedAt(was, freed, id);
      }
      if count < D.RECOVERY_LIMIT {
        AllStaleAreFreed(was, freed, lockedByOthers, now, settings);
      }
    }

    /** The recovering transaction up to its commit. */
    method RecoverUnlocked(x: D.DownloadExecutor, lockedByOthers: set<ApprovalId>, now: Time)
      returns (freed: seq<Freed>)
      requires Valid() && x.settings == settings
      ensures |freed| <= D.RECOVERY_LIMIT
      ensures forall i | 0 <= i < |freed| :: IsRecovered(cases, freed[i], now, settings)
      ensures forall i, j | 0 <= i < j < |freed| :: freed[i].id != freed[j].id
      ensures |freed| < D.RECOVERY_LIMIT ==> CoversStale(cases, freed, lockedByOthers, now, settings)
    {
      var stale;
      ghost var ids;
      stale, ids := SelectStale(x, lockedByOthers, now);
      assert forall i | 0 <= i < |stale| :: stale[i] in stale;
      freed := RecoverSelected(x, stale, now);
      if |freed| < D.RECOVERY_LIMIT {
        FreedIdsCoverStale(cases, freed, ids, lockedByOthers, now, settings);
      }
    }

    method FreeAll(freed: seq<Freed>, now: Time, ghost w: WorkerName)
      requires Valid()
      requires forall i | 0 <= i < |freed| :: IsRecovered(cases, freed[i], now, settings)
      requires forall i, j | 0 <= i < j < |freed| :: freed[i].id != freed[j].id
      modifies this
      ensures Valid() && old(trace) <= trace && schedule == old(schedule) && workers == old(workers)
      ensures cases == AllFreed(old(cases), freed)
      ensures |trace| == |old(trace)| + |freed| && Writes(trace, w) == old(Writes(trace, w))
    {
      if freed == [] {
        return;
      }
      ghost var was := cases;
      WritesAppend(trace, ExecutionProtocol.RecoverStale(freed[0].id, now), w);
      FreeRow(freed[0], now);
      forall i | 0 <= i < |freed[1..]| ensures IsRecovered(cases, freed[1..][i], now, settings) {
        assert freed[1..][i] == freed[i + 1] && freed[i + 1].id != freed[0].id;
        assert IsRecovered(was, freed[i + 1], now, settings);
      }
      FreeAll(freed[1..], now, w);
    }

    method FreeRow(f: Freed, now: Time)
      requires Valid() && IsRecovered(cases, f, now, settings)
      modifies this
      ensures Valid() && Took(ExecutionProtocol.RecoverStale(f.id, now)) && workers == old(workers)
      ensures cases == old(cases)[f.id := old(cases)[f.id].(execution := Some(f.execution))]
    {
      Commit(f.id, cases[f.id].(execution := Some(f.execution)), f.events, workers, nextToken,
             ExecutionProtocol.RecoverStale(f.id, now));
    }

    // ---- Transactions that belong to no worker ----------------------------------

    /** A decision on an approval; `row` stands for what the services find and write. */
    method CommitApproval(id: ApprovalId, approval: Approval, ghost a: Action)
      requires Valid() && id in cases
      requires Step(Model(), a, settings) == SetCase(Model(), id, cases[id].(approval := approval))
      modifies this
      ensures Valid() && Took(a)
    {
      var c := cases[id].(approval := approval);
      Commit(id, c, if id in audit then audit[id] else [], workers, nextToken, a);
    }

    method DecideApproval(id: ApprovalId, approve: bool, passable: bool, now: Time)
      requires Valid() && id in cases
      modifies this
      ensures Valid() && Took(ExecutionProtocol.DecideApproval(id, approve, passable, now))
    {
      var row := new ApprovalRow.Load(cases[id].approval);
      var ok: bool;
      if approve {
        ok := row.Approve(passable, now);
      } else {
        ok := row.Reject(now);
      }
      CommitApproval(id, row.Value(), ExecutionProtocol.DecideApproval(id, approve, passable, now));
    }

    method RevokeApproval(id: ApprovalId, now: Time)
      requires Valid() && id in cases
      modifies this
      ensures Valid() && Took(ExecutionProtocol.RevokeApproval(id, now))
    {
      var row := new ApprovalRow.Load(cases[id].approval);
      var ok := row.Revoke(now);
      CommitApproval(id, row.Value(), ExecutionProtocol.RevokeApproval(id, now));
    }

    method CreateExecution(id: ApprovalId, binding: Binding, maxAttempts: int, now: Time)
      requires Valid() && id in cases
      modifies this
      ensures Valid() && Took(ExecutionProtocol.CreateExecution(id, binding, maxAttempts, now))
    {
      ghost var a := ExecutionProtocol.CreateExecution(id, binding, maxAttempts, now);
      var approval := new ApprovalRow.Load(cases[id].approval);
      approval.ExpireIfDue(now);
      if approval.status != Approved || cases[id].execution.Some? || maxAttempts < 1 || !AutomationBinding(binding) {
        CommitApproval(id, approval.Value(), a);
        return;
      }
      var row := new ExecutionRow(id, now, binding, maxAttempts, approval);
      Commit(id, cases[id].(execution := Some(row.Value())), row.events, workers, nextToken, a);
      createdAt := createdAt[id := now];
    }

    method AskReconciliation(id: ApprovalId, actor: string, reason: Option<string>, now: Time)
      requires Valid() && HasExecution(Model(), id)
      modifies this
      ensures Valid() && Took(ExecutionProtocol.AskReconciliation(id, actor, reason, now))
    {
      var row := Load(id);
      var ok := row.RequestReconciliation(actor, reason, now);
      Commit(id, cases[id].(execution := Some(row.Value())), row.events, workers, nextToken,
             ExecutionProtocol.AskReconciliation(id, actor, reason, now));
    }

    method RequireReconciliation(id: ApprovalId, now: Time)
      requires Valid() && HasExecution(Model(), id)
      modifies this
      ensures Valid() && Took(ExecutionProtocol.RequireReconciliation(id, now))
    {
      var row := Load(id);
      var ok := row.MarkReconciliationRequired(None, now, settings);
      Commit(id, cases[id].(execution := Some(row.Value())), row.events, workers, nextToken,
             ExecutionProtocol.RequireReconciliation(id, now));
    }

    method RecoverOne(x: D.DownloadExecutor, id: ApprovalId, now: Time)
      requires Valid() && x.settings == settings && HasExecution(Model(), id)
      modifies this
      ensures Valid() && Took(ExecutionProtocol.RecoverStale(id, now))
    {
      var row := Load(id);
      if IsStale(row.Value(), now, settings) {
        x.RecoverRow(row, now);
      }
      Commit(id, cases[id].(execution := Some(row.Value())), row.events, workers, nextToken,
             ExecutionProtocol.RecoverStale(id, now));
    }

    // ---- Everybody ----------------------------------------------------------------

    /** Takes any action, through the rows. */
    method Perform(a: Action)
      requires Valid()
      modifies this
      ensures Valid() && Took(a)
    {
      if a.OnCase() {
        PerformOnCase(a);
      } else if a.Stop? {
        StopWorker(a.worker);
      } else if a.ClaimNext? {
        PerformClaim(a.worker, a.id, a.now);
      } else if PhaseOf(Model(), a.worker).Idle? {
        Nothing(a);
      } else {
        PerformByHolder(a);
      }
    }

    method StopWorker(w: WorkerName)
      requires Valid()
      modifies this
      ensures Valid() && Took(Stop(w)) && PhaseOf(Model(), w).Idle? && cases == old(cases)
    {
      ghost var before := Model();
      workers := workers[w := Idle];
      Record(Stop(w), before);
    }

    method Request(id: ApprovalId, expiresAt: Time)
      requires Valid() && id !in cases
      modifies this
      ensures Valid() && Took(ExecutionProtocol.Request(id, expiresAt))
    {
      var row := new ApprovalRow(expiresAt);
      Commit(id, Case(row.Value(), None, false, [], None), [], workers, nextToken,
             ExecutionProtocol.Request(id, expiresAt));
    }

    method PerformOnCase(a: Action)
      requires Valid() && a.OnCase()
      modifies this
      ensures Valid() && Took(a)
    {
      if a.id !in cases {
        if a.Request? {
          Request(a.id, a.expiresAt);
        } else {
          Nothing(a);
        }
      } else if a.DecideApproval? {
        DecideApproval(a.id, a.approve, a.passable, a.now);
      } else if a.RevokeApproval? {
        RevokeApproval(a.id, a.now);
      } else if a.CreateExecution? {
        CreateExecution(a.id, a.binding, a.maxAttempts, a.now);
      } else if a.Request? || cases[a.id].execution.None? {
        Nothing(a);
      } else {
        PerformOnExecution(a);
      }
    }

    method PerformOnExecution(a: Action)
      requires Valid() && (a.AskReconciliation? || a.RequireReconciliation? || a.RecoverStale?)
      requires HasExecution(Model(), a.id)
      modifies this
      ensures Valid() && Took(a)
    {
      match a
      case AskReconciliation(id, actor, reason, now) => AskReconciliation(id, actor, reason, now);
      case RequireReconciliation(id, now) => RequireReconciliation(id, now);
      case RecoverStale(id, now) =>
        var x := new D.DownloadExecutor(0, settings);
        RecoverOne(x, id, now);
    }

    /** Somebody else claims a given row, which may not be theirs to claim. */
    method PerformClaim(w: WorkerName, id: ApprovalId, now: Time)
      requires Valid()
      modifies this
      ensures Valid() && Took(ExecutionProtocol.ClaimNext(w, id, now))
    {
      var enabled := PhaseOf(Model(), w).Idle? && HasExecution(Model(), id);
      if !enabled || !IsClaimable(cases[id].execution.value, now) {
        Nothing(ExecutionProtocol.ClaimNext(w, id, now));
        return;
      }
      var x := new D.DownloadExecutor(w, settings);
      var claimed := ClaimNext(x, cases.Keys - {id}, now);
      assert claimed == Some(id);
    }

    method PerformByHolder(a: Action)
      requires Valid() && a.ByHolder() && !PhaseOf(Model(), a.worker).Idle?
      modifies this
      ensures Valid() && Took(a)
    {
      HolderHasRow(a.worker);
      var p := PhaseOf(Model(), a.worker);
      var x := new D.DownloadExecutor(a.worker, settings);
      if a.CheckValidating? || a.CheckSubmitting? || a.WriteGuard? {
        PerformGuard(x, a, p);
      } else if a.RenewLease? {
        var renewed := RenewLease(x, p, a.now);
      } else if a.ReserveSubmission? && p.Checking? && a.metadata.Valid() {
        var reserved, cancelled := Reserve(x, p, a.metadata, a.expectedHash, a.clocks);
      } else if a.SendAdd? && p.Armed? {
        SendAdd(x, p, a.reaches);
      } else {
        PerformEnding(x, a, p);
      }
    }

    method PerformGuard(x: D.DownloadExecutor, a: Action, p: Phase)
      requires Ready(x, p) && (a.CheckValidating? || a.CheckSubmitting? || a.WriteGuard?) && a.worker == x.worker
      modifies this
      ensures Valid() && Took(a)
    {
      var outcome: D.GuardOutcome;
      if a.CheckValidating? && p.Checking? {
        outcome := EnsureAllowed(x, p, Validating, false, a.sight, p, a);
      } else if a.CheckSubmitting? && !p.Checking? {
        outcome := EnsureAllowed(x, p, Submitting, !p.Holding?, a.sight, p, a);
      } else if a.WriteGuard? && p.Holding? {
        outcome := EnsureAllowed(x, p, Submitting, false, a.sight, Armed(p.id, p.token), a);
      } else {
        Nothing(a);
      }
    }

    method PerformEnding(x: D.DownloadExecutor, a: Action, p: Phase)
      requires Ready(x, p) && a.ByHolder() && a.worker == x.worker
      requires !a.CheckValidating? && !a.CheckSubmitting? && !a.WriteGuard? && !a.RenewLease?
      requires a.ReserveSubmission? ==> !p.Checking? || !a.metadata.Valid()
      requires a.SendAdd? ==> !p.Armed?
      modifies this
      ensures Valid() && Took(a)
    {
      if a.FinalizeSubmission? && MayFinalize(p, a.outcome) {
        var ok := FinalizeSubmission(x, p, a.outcome, a.matches, a.now, a.utc);
      } else if a.FailValidation? && p.Checking? {
        FailValidation(x, p, a.retryable, a.now);
      } else if a.FailReserved? && !p.Checking? {
        FailReserved(x, p, !p.Holding?, a.now);
      } else {
        Nothing(a);
      }
    }

    /** Everybody but `w` runs for a while, and so does the heartbeat of `w`. */
    method Others(w: WorkerName)
      requires Valid()
      modifies this
      ensures Valid() && old(trace) <= trace
      ensures PhaseOf(Model(), w) == old(PhaseOf(Model(), w))
      ensures Writes(trace, w) == old(Writes(trace, w))
      ensures old(schedule) == [] ==> schedule == [] && Model() == old(Model()) && trace == old(trace)
    {
      if schedule == [] {
        return;
      }
      var batch := schedule[0];
      schedule := schedule[1..];
      for i := 0 to |batch|
        invariant Valid() && old(trace) <= trace
        invariant PhaseOf(Model(), w) == old(PhaseOf(Model(), w))
        invariant Writes(trace, w) == old(Writes(trace, w))
      {
        if Foreign(batch[i], w) {
          PerformForeign(batch[i], w);
        }
      }
    }

    method PerformForeign(a: Action, w: WorkerName)
      requires Valid() && Foreign(a, w)
      modifies this
      ensures Valid() && old(trace) <= trace && PhaseOf(Model(), w) == old(PhaseOf(Model(), w))
      ensures Writes(trace, w) == old(Writes(trace, w))
    {
      ForeignStepKeepsPhase(Model(), a, w, settings);
      WritesAppend(trace, a, w);
      Perform(a);
    }
  }
}
