/**
 The control flow of one worker, `_process_claim`, against an environment that
 everybody else keeps using between any two of its steps, and against a world that
 answers its questions in any way. Every run of the worker is a run of the
 protocol, so the safety results apply to it; its contracts say besides what it
 does, and that in a calm world it gets the torrent submitted.
 */
module ExecutionWorker {
  import opened Common
  import opened ExecutionRows
  import opened ExecutionTransactions
  import opened ExecutionProtocol
  import opened ExecutionEnvironment
  import D = DownloadExecutors

  /** How a piece of the worker ends: normally, by returning, or by raising. */
  datatype Signal = Continue | Returned | RaisedLeaseLost | RaisedOther(retryable: bool) {
    predicate IsFailure() {
      !Continue?
    }

    function PropagateFailure(): Signal
      requires IsFailure()
    {
      this
    }
  }

  predicate HasClaim(s: State, w: WorkerName, id: ApprovalId, token: Token) {
    var p := PhaseOf(s, w);
    !p.Idle? && p.id == id && p.token == token
  }

  /** The two flags of the worker tell which phase of the protocol it is in. */
  predicate FlagsFit(p: Phase, reserved: bool, written: bool) {
    && (p.Checking? <==> !reserved && !written)
    && (p.Holding? <==> reserved && !written)
    && (p.Armed? || p.Sent? <==> reserved && written)
  }

  /** What a request, a read or a check of its result answers. */
  datatype Answer = Fine | LosesLease | Fails(retryable: bool)

  /**
   Everything outside the database: the clocks, the policy checks and the adapters.
   Each question has an answer of its own, so any two readings may disagree.
   */
  class World {
    const clock: nat -> Time
    const verifies: nat -> bool
    const fenceBroken: nat -> bool
    const answers: nat -> Answer
    var asked: nat

    constructor (clock: nat -> Time, verifies: nat -> bool, fenceBroken: nat -> bool, answers: nat -> Answer)
      ensures this.clock == clock && this.verifies == verifies
      ensures this.fenceBroken == fenceBroken && this.answers == answers
    {
      this.clock, this.verifies, this.fenceBroken, this.answers := clock, verifies, fenceBroken, answers;
      asked := 0;
    }

    method Clock() returns (now: Time)
      modifies this
      ensures now == clock(old(asked)) && asked == old(asked) + 1
    {
      now := clock(asked);
      asked := asked + 1;
    }

    /** What a guard finds when it looks. */
    method See() returns (sight: Sight)
      modifies this
      ensures sight == Sight(clock(old(asked)), verifies(old(asked)), fenceBroken(old(asked)))
      ensures asked == old(asked) + 1
    {
      sight := Sight(clock(asked), verifies(asked), fenceBroken(asked));
      asked := asked + 1;
    }

    /** A read, a check or a request that may raise, and leaves the rows alone. */
    method Ask() returns (signal: Signal)
      modifies this
      ensures asked == old(asked) + 1
      ensures signal == match answers(old(asked))
                        case Fine => Continue
                        case LosesLease => RaisedLeaseLost
                        case Fails(retryable) => RaisedOther(retryable)
    {
      signal := match answers(asked)
                case Fine => Continue
                case LosesLease => RaisedLeaseLost
                case Fails(retryable) => RaisedOther(retryable);
      asked := asked + 1;
    }

    /** Nothing fails, and from `base` on less than a lease time passes. */
    ghost predicate Calm(base: Time, settings: Settings) {
      forall k: nat ::
        IsCalm(clock(k), base, settings) && verifies(k) && !fenceBroken(k) && answers(k) == Fine
    }
  }

  ghost predicate IsSteady(c: Case, claim: Claim, status: ExecutionStatus, base: Time, settings: Settings) {
    && c.execution.Some? && !c.job
    && IsHeld(c.execution.value, claim, status, base)
    && if status == Validating
       then c.approval.status == Approved && base + settings.leaseSeconds <= c.approval.expiresAt
       else c.approval.status == Executing
  }

  ghost predicate IsHeld(e: Execution, claim: Claim, status: ExecutionStatus, base: Time) {
    && e.status == status && e.leaseToken == Some(claim.token) && e.lockedBy == Some(claim.worker)
    && e.lockedAt.Some? && base <= e.lockedAt.value
  }

  /** A reading of a calm world. */
  ghost predicate IsCalm(now: Time, base: Time, settings: Settings) {
    base <= now < base + settings.leaseSeconds
  }

  lemma SteadyMayAct(c: Case, claim: Claim, status: ExecutionStatus, sight: Sight, base: Time, settings: Settings)
    requires IsSteady(c, claim, status, base, settings) && (status.Validating? || status.Submitting?)
    requires IsCalm(sight.now, base, settings) && sight.verifies && !sight.fenceBroken
    ensures MayAct(c.ToRows(), claim, status, sight, settings)
    ensures forall after: Case | after.execution.Some? && after.ToRows() == Renewal(c.ToRows(), sight.now) ::
              IsSteady(after, claim, status, base, settings)
  {
  }

  lemma SteadyMayReserve(c: Case, claim: Claim, m: Metadata, expectedHash: Option<Hash>, clocks: ReserveClocks,
                         base: Time, settings: Settings)
    requires IsSteady(c, claim, Validating, base, settings) && m.Valid()
    requires IsCalm(clocks.first, base, settings) && IsCalm(clocks.second, base, settings)
    requires IsCalm(clocks.utc, base, settings)
    requires expectedHash.Some? ==> expectedHash.value in m.IdentityHashes()
    ensures MayReserve(c.ToRows(), claim, m, expectedHash, clocks, settings)
  {
  }

  lemma SteadyCanFinalize(c: Case, claim: Claim, now: Time, base: Time, settings: Settings)
    requires IsSteady(c, claim, Submitting, base, settings) && IsCalm(now, base, settings)
    ensures CanFinalize(c.ToRows(), claim.token, true, now, settings)
  {
  }

  lemma CheckIsGuardStep(s: State, w: WorkerName, expected: ExecutionStatus, written: bool, sight: Sight,
                         settings: Settings)
    requires !PhaseOf(s, w).Idle? && HasExecution(s, PhaseOf(s, w).id)
    requires (expected.Validating? && PhaseOf(s, w).Checking?) || (expected.Submitting? && !PhaseOf(s, w).Checking?)
    requires written <==> !PhaseOf(s, w).Checking? && !PhaseOf(s, w).Holding?
    ensures
      var a := if expected.Validating? then CheckValidating(w, sight) else CheckSubmitting(w, sight);
      Step(s, a, settings) == GuardStep(s, w, expected, written, sight, settings, PhaseOf(s, w))
      && WriteOf(a, w) == []
  {
  }

  class Worker {
    const name: WorkerName
    const id: ApprovalId
    const token: Token
    const env: Environment
    const world: World
    const executor: D.DownloadExecutor

    constructor (executor: D.DownloadExecutor, id: ApprovalId, token: Token, env: Environment, world: World)
      ensures this.name == executor.worker && this.id == id && this.token == token && this.env == env
      ensures this.executor == executor && this.world == world
    {
      this.executor, this.name, this.id, this.token := executor, executor.worker, id, token;
      this.env, this.world := env, world;
    }

    ghost predicate At(p: Phase)
      reads env
    {
      && env.Valid() && PhaseOf(env.Model(), name) == p && HasClaim(env.Model(), name, id, token)
      && executor.worker == name && executor.settings == env.settings
    }

    /** What this worker has done so far. */
    ghost function Done(): seq<Write>
      reads env
    {
      Writes(env.trace, name)
    }

    /** Everybody else is quiet, and the worker holds its row in this status, with a lease and an approval that last. */
    ghost predicate Undisturbed(status: ExecutionStatus, base: Time)
      reads env
    {
      && env.schedule == [] && id in env.cases
      && IsSteady(env.cases[id], Claim(name, token), status, base, env.settings)
    }

    /** The world is calm, and nobody disturbs the worker. */
    ghost predicate Smooth(status: ExecutionStatus, base: Time)
      reads env, world
    {
      world.Calm(base, env.settings) && Undisturbed(status, base)
    }

    /** A step has run: nothing is lost from the trace, and its signal tells where the worker is. */
    twostate predicate Stepped(signal: Signal, before: Phase, next: Phase)
      reads env
    {
      && env.Valid() && old(env.trace) <= env.trace
      && (signal.Continue? ==> At(next))
      && (signal.RaisedOther? ==> At(before))
    }

    /** The others run; after that the worker can open a session on its row. */
    method Wait(p: Phase)
      requires At(p)
      modifies env
      ensures At(p) && env.Ready(executor, p) && old(env.trace) <= env.trace
      ensures Done() == old(Done())
      ensures old(env.schedule) == [] ==> env.schedule == [] && env.Model() == old(env.Model())
    {
      env.Others(name);
      env.HolderHasRow(name);
    }

    /** One guarded transaction of this worker. */
    method Guard(expected: ExecutionStatus, written: bool, sight: Sight, p: Phase, next: Phase, ghost a: Action,
                 ghost base: Time)
      returns (outcome: D.GuardOutcome)
      requires At(p) && env.Ready(executor, p) && (expected.Validating? || expected.Submitting?)
      requires !next.Idle? && next.id == id && next.token == token
      requires WriteOf(a, name) == []
      requires Step(env.Model(), a, env.settings)
               == GuardStep(env.Model(), name, expected, written, sight, env.settings, next)
      modifies env
      ensures env.Valid() && old(env.trace) <= env.trace && Done() == old(Done())
      ensures outcome.Permitted? ==> At(next)
      ensures outcome.Raised? ==> At(p)
      ensures && old(Undisturbed(expected, base))
              && IsCalm(sight.now, base, env.settings) && sight.verifies && !sight.fenceBroken
              ==> outcome.Permitted? && Undisturbed(expected, base)
    {
      WritesAppend(env.trace, a, name);
      ghost var c := env.cases[id];
      if Undisturbed(expected, base) && IsCalm(sight.now, base, env.settings) && sight.verifies && !sight.fenceBroken {
        SteadyMayAct(c, Claim(name, token), expected, sight, base, env.settings);
      }
      outcome := env.EnsureAllowed(executor, p, expected, written, sight, next, a);
    }

    /** `_ensure_external_action_allowed` before an external read. */
    method EnsureAllowed(expected: ExecutionStatus, written: bool, p: Phase, asRequestGuard: bool, ghost base: Time)
      returns (signal: Signal)
      requires At(p)
      requires (expected.Validating? && p.Checking?) || (expected.Submitting? && !p.Checking?)
      requires FlagsFit(p, expected.Submitting?, written)
      modifies env, world
      ensures Stepped(signal, p, p) && Done() == old(Done())
      ensures old(Smooth(expected, base)) ==> signal.Continue? && Smooth(expected, base)
    {
      var sight := world.See();
      Wait(p);
      ghost var a := if expected.Validating? then CheckValidating(name, sight) else CheckSubmitting(name, sight);
      CheckIsGuardStep(env.Model(), name, expected, written, sight, env.settings);
      var outcome := Guard(expected, written, sight, p, p, a, base);
      match outcome
      case Permitted => return Continue;
      case Denied => return if asRequestGuard then RaisedLeaseLost else Returned;
      case LeaseLost => return RaisedLeaseLost;
      case Raised => return RaisedOther(false);
    }

    /** Any number of external requests, each behind the per-request guard; each may fail by itself. */
    method Requests(count: nat, expected: ExecutionStatus, written: bool, p: Phase, ghost base: Time)
      returns (signal: Signal)
      requires At(p)
      requires (expected.Validating? && p.Checking?) || (expected.Submitting? && !p.Checking?)
      requires FlagsFit(p, expected.Submitting?, written)
      modifies env, world
      ensures Stepped(signal, p, p) && Done() == old(Done())
      ensures old(Smooth(expected, base)) ==> signal.Continue? && Smooth(expected, base)
    {
      signal := Continue;
      for i := 0 to count
        invariant At(p) && old(env.trace) <= env.trace && signal.Continue? && Done() == old(Done())
        invariant old(Smooth(expected, base)) ==> Smooth(expected, base)
      {
        :- EnsureAllowed(expected, written, p, true, base);
        :- world.Ask();
      }
    }

    /** The requests of one read, and the checks of its result. */
    method Inquire(requests: nat, expected: ExecutionStatus, written: bool, p: Phase, ghost base: Time)
      returns (signal: Signal)
      requires At(p)
      requires (expected.Validating? && p.Checking?) || (expected.Submitting? && !p.Checking?)
      requires FlagsFit(p, expected.Submitting?, written)
      modifies env, world
      ensures Stepped(signal, p, p) && Done() == old(Done())
      ensures old(Smooth(expected, base)) ==> signal.Continue? && Smooth(expected, base)
    {
      signal := Requests(requests, expected, written, p, base);
      if signal.Continue? {
        signal := world.Ask();
      }
    }

    /** One external read of the validation: its guard, its requests, the checks of its result. */
    method Read(requests: nat, p: Phase, ghost base: Time) returns (signal: Signal)
      requires At(p) && p.Checking?
      modifies env, world
      ensures Stepped(signal, p, p) && Done() == old(Done())
      ensures old(Smooth(Validating, base)) ==> signal.Continue? && Smooth(Validating, base)
    {
      signal := Continue;
      :- EnsureAllowed(Validating, false, p, false, base);
      :- Inquire(requests, Validating, false, p, base);
    }

    /**
     Load the binding; search; fetch and check the torrent, sign in to qBittorrent,
     look for the torrent there, and prepare the category when it is not there.
     */
    method Validate(searches: nat, requests: nat, existing: bool, p: Phase, ghost base: Time) returns (signal: Signal)
      requires At(p) && p.Checking?
      modifies env, world
      ensures Stepped(signal, p, p) && Done() == old(Done())
      ensures old(Smooth(Validating, base)) ==> signal.Continue? && Smooth(Validating, base)
    {
      var rounds := searches + if existing then 3 else 4;
      :- Read(0, p, base);
      for i := 0 to rounds
        invariant At(p) && old(env.trace) <= env.trace && Done() == old(Done())
        invariant old(Smooth(Validating, base)) ==> Smooth(Validating, base)
      {
        :- Read(requests, p, base);
      }
      return Continue;
    }

    method Reserve(m: Metadata, expectedHash: Option<Hash>, clocks: ReserveClocks, ghost base: Time)
      returns (reserved: bool, cancelled: bool)
      requires At(Checking(id, token)) && env.Ready(executor, Checking(id, token)) && m.Valid()
      modifies env
      ensures env.Valid() && old(env.trace) <= env.trace
      ensures Done() == old(Done()) + [Reservation(m, expectedHash)]
      ensures reserved ==> At(Holding(id, token))
      ensures !reserved && !cancelled ==> At(Checking(id, token))
      ensures && old(Undisturbed(Validating, base))
              && IsCalm(clocks.first, base, env.settings) && IsCalm(clocks.second, base, env.settings)
              && IsCalm(clocks.utc, base, env.settings)
              && (expectedHash.Some? ==> expectedHash.value in m.IdentityHashes())
              ==> reserved && Undisturbed(Submitting, base)
    {
      WritesAppend(env.trace, ExecutionProtocol.ReserveSubmission(name, m, expectedHash, clocks), name);
      if && Undisturbed(Validating, base)
         && IsCalm(clocks.first, base, env.settings) && IsCalm(clocks.second, base, env.settings)
         && IsCalm(clocks.utc, base, env.settings)
         && (expectedHash.Some? ==> expectedHash.value in m.IdentityHashes()) {
        SteadyMayReserve(env.cases[id], Claim(name, token), m, expectedHash, clocks, base, env.settings);
      }
      reserved, cancelled := env.Reserve(executor, Checking(id, token), m, expectedHash, clocks);
    }

    /** `_reserve_submission`: it reads the database clock twice and its own clock once. */
    method ReserveSubmission(m: Metadata, expectedHash: Option<Hash>, ghost base: Time) returns (signal: Signal)
      requires At(Checking(id, token)) && m.Valid()
      modifies env, world
      ensures Stepped(signal, Checking(id, token), Holding(id, token))
      ensures Done() == old(Done()) + [Reservation(m, expectedHash)]
      ensures && old(Smooth(Validating, base))
              && (expectedHash.Some? ==> expectedHash.value in m.IdentityHashes())
              ==> signal.Continue? && Smooth(Submitting, base)
    {
      var first := world.Clock();
      var second := world.Clock();
      var utc := world.Clock();
      var answer := world.Ask();
      Wait(Checking(id, token));
      var reserved, cancelled := Reserve(m, expectedHash, ReserveClocks(first, second, utc), base);
      if reserved {
        return Continue;
      }
      return if cancelled then Returned else if answer.RaisedLeaseLost? then RaisedLeaseLost else RaisedOther(false);
    }

    /** `add_torrent`, which looks once more for the torrent; `written` is set by its write guard. */
    method AddTorrent(requests: nat, appeared: bool, ghost base: Time)
      returns (signal: Signal, outcome: ExecutionStatus, written: bool)
      requires At(Holding(id, token))
      modifies env, world
      ensures env.Valid() && old(env.trace) <= env.trace
      ensures signal.Continue? || signal.RaisedOther? ==> At(PhaseOf(env.Model(), name))
      ensures signal.Continue? || signal.RaisedOther? ==> FlagsFit(PhaseOf(env.Model(), name), true, written)
      ensures signal.Continue? ==>
                if appeared then outcome.AlreadyPresent? && At(Holding(id, token))
                else outcome.Submitted? && At(Sent(id, token, true))
      ensures Done() == old(Done()) || (!appeared && Done() == old(Done()) + [Add])
      ensures signal.Continue? ==> Done() == old(Done()) + if appeared then [] else [Add]
      ensures old(Smooth(Submitting, base)) ==> signal.Continue? && Smooth(Submitting, base)
    {
      outcome, written := AlreadyPresent, false;
      :- Requests(requests, Submitting, false, Holding(id, token), base);
      if appeared {
        return Continue, AlreadyPresent, false;
      }
      outcome := Submitted;
      signal, written := Post(base);
    }

    /** The request of the add: its request guard, its write guard, and out it goes. */
    method Post(ghost base: Time) returns (signal: Signal, written: bool)
      requires At(Holding(id, token))
      modifies env, world
      ensures env.Valid() && old(env.trace) <= env.trace
      ensures signal.RaisedOther? ==>
                At(PhaseOf(env.Model(), name)) && FlagsFit(PhaseOf(env.Model(), name), true, written)
      ensures signal.Continue? ==> written && At(Sent(id, token, true))
      ensures Done() == old(Done()) + if written then [Add] else []
      ensures old(Smooth(Submitting, base)) ==> signal.Continue? && Smooth(Submitting, base)
    {
      written := false;
      :- EnsureAllowed(Submitting, false, Holding(id, token), true, base);
      signal, written := GuardAndSend(base);
    }

    method GuardAndSend(ghost base: Time) returns (signal: Signal, written: bool)
      requires At(Holding(id, token))
      modifies env, world
      ensures env.Valid() && old(env.trace) <= env.trace
      ensures signal.RaisedOther? ==>
                At(PhaseOf(env.Model(), name)) && FlagsFit(PhaseOf(env.Model(), name), true, written)
      ensures signal.Continue? ==> written && At(Sent(id, token, true))
      ensures Done() == old(Done()) + if written then [Add] else []
      ensures old(Smooth(Submitting, base)) ==> signal.Continue? && Smooth(Submitting, base)
    {
      written := false;
      :- WriteGuard(base);
      written := true;
      signal := SendAdd(base);
    }

    /** `_write_guard`: the last look before the write. */
    method WriteGuard(ghost base: Time) returns (signal: Signal)
      requires At(Holding(id, token))
      modifies env, world
      ensures Stepped(signal, Holding(id, token), Armed(id, token)) && Done() == old(Done())
      ensures old(Smooth(Submitting, base)) ==> signal.Continue? && Smooth(Submitting, base)
    {
      var sight := world.See();
      Wait(Holding(id, token));
      var outcome := Guard(Submitting, false, sight, Holding(id, token), Armed(id, token),
                           ExecutionProtocol.WriteGuard(name, sight), base);
      match outcome
      case Permitted => return Continue;
      case Denied => return RaisedLeaseLost;
      case LeaseLost => return RaisedLeaseLost;
      case Raised => return RaisedOther(false);
    }

    /**
     The request leaves. It may never arrive, its answer may be lost, and anything may
     have happened since the guard; only an answer lets the worker go on.
     */
    method SendAdd(ghost base: Time) returns (signal: Signal)
      requires At(Armed(id, token))
      modifies env, world
      ensures env.Valid() && old(env.trace) <= env.trace
      ensures signal.Continue? || signal.RaisedOther?
      ensures At(PhaseOf(env.Model(), name)) && PhaseOf(env.Model(), name).Sent?
      ensures signal.Continue? ==> At(Sent(id, token, true))
      ensures Done() == old(Done()) + [Add]
      ensures old(Smooth(Submitting, base)) ==> signal.Continue? && Smooth(Submitting, base)
    {
      var arrival := world.Ask();
      var answer := world.Ask();
      Wait(Armed(id, token));
      Issue(arrival.Continue?, base);
      return if arrival.Continue? && answer.Continue? then Continue else RaisedOther(false);
    }

    method Issue(reaches: bool, ghost base: Time)
      requires At(Armed(id, token)) && env.Ready(executor, Armed(id, token))
      modifies env
      ensures At(Sent(id, token, reaches)) && old(env.trace) <= env.trace
      ensures Done() == old(Done()) + [Add]
      ensures old(Undisturbed(Submitting, base)) ==> Undisturbed(Submitting, base)
    {
      WritesAppend(env.trace, ExecutionProtocol.SendAdd(name, reaches), name);
      env.SendAdd(executor, Armed(id, token), reaches);
    }

    /** `finalize_download_submission`; when it raises, nothing is committed. */
    method FinalizeSubmission(outcome: ExecutionStatus, matches: bool, p: Phase, ghost base: Time)
      returns (signal: Signal)
      requires At(p) && MayFinalize(p, outcome)
      modifies env, world
      ensures Stepped(signal, p, p) && (signal.Continue? || signal.RaisedOther?)
      ensures Done() == old(Done()) + [Finalization(outcome)]
      ensures signal.Continue? ==> IsClosed(outcome)
      ensures old(Smooth(Submitting, base)) && matches ==> signal.Continue?
    {
      var now := world.Clock();
      var utc := world.Clock();
      Wait(p);
      var ok := Finalize(outcome, matches, now, utc, p, base);
      return if ok then Continue else RaisedOther(false);
    }

    method Finalize(outcome: ExecutionStatus, matches: bool, now: Time, utc: Time, p: Phase, ghost base: Time)
      returns (ok: bool)
      requires At(p) && env.Ready(executor, p) && MayFinalize(p, outcome)
      modifies env
      ensures At(p) && old(env.trace) <= env.trace
      ensures Done() == old(Done()) + [Finalization(outcome)]
      ensures ok ==> IsClosed(outcome)
      ensures old(Undisturbed(Submitting, base)) && IsCalm(now, base, env.settings) && matches ==> ok
    {
      WritesAppend(env.trace, ExecutionProtocol.FinalizeSubmission(name, outcome, matches, now, utc), name);
      if IsCalm(now, base, env.settings) && Undisturbed(Submitting, base) {
        SteadyCanFinalize(env.cases[id], Claim(name, token), now, base, env.settings);
      }
      ok := env.FinalizeSubmission(executor, p, outcome, matches, now, utc);
    }

    /** The execution has this outcome, and its download job exists. */
    ghost predicate IsClosed(outcome: ExecutionStatus)
      reads env
    {
      HasExecution(env.Model(), id) && env.cases[id].job && env.cases[id].execution.value.status == outcome
    }

    method MarkValidationFailure(retryable: bool)
      requires At(Checking(id, token))
      modifies env, world
      ensures env.Valid() && old(env.trace) <= env.trace
      ensures Done() == old(Done()) + [ValidationFailure(retryable)]
    {
      var now := world.Clock();
      Wait(Checking(id, token));
      WritesAppend(env.trace, FailValidation(name, retryable, now), name);
      env.FailValidation(executor, Checking(id, token), retryable, now);
    }

    method MarkReservedFailure(written: bool, p: Phase)
      requires At(p) && FlagsFit(p, true, written)
      modifies env, world
      ensures env.Valid() && old(env.trace) <= env.trace
      ensures Done() == old(Done()) + [ReservedFailure]
    {
      var now := world.Clock();
      Wait(p);
      WritesAppend(env.trace, FailReserved(name, now), name);
      env.FailReserved(executor, p, written, now);
    }

    /** After the reservation: add the torrent unless it is there already, then verify and finalize. */
    method Submit(existing: bool, appeared: bool, requests: nat, matches: bool, ghost base: Time)
      returns (signal: Signal, written: bool)
      requires At(Holding(id, token))
      modifies env, world
      ensures env.Valid() && old(env.trace) <= env.trace
      ensures signal.RaisedOther? ==>
                At(PhaseOf(env.Model(), name)) && FlagsFit(PhaseOf(env.Model(), name), true, written)
      ensures SubmittedAs(old(Done()), Done(), existing || appeared, signal)
      ensures signal.Continue? ==> IsClosed(if existing || appeared then AlreadyPresent else Submitted)
      ensures old(Smooth(Submitting, base)) && matches ==> signal.Continue?
    {
      var outcome := AlreadyPresent;
      written := false;
      if !existing {
        signal, outcome, written := AddTorrent(requests, appeared, base);
        if signal.IsFailure() {
          return;
        }
      }
      signal := Verify(if outcome.Submitted? then Sent(id, token, true) else Holding(id, token), outcome, written,
                       requests, matches, base);
    }

    /** Observe the torrent in qBittorrent once more and finalize. */
    method Verify(p: Phase, outcome: ExecutionStatus, written: bool, requests: nat, matches: bool, ghost base: Time)
      returns (signal: Signal)
      requires At(p) && FlagsFit(p, true, written) && MayFinalize(p, outcome)
      modifies env, world
      ensures Stepped(signal, p, p)
      ensures Done() == old(Done()) || Done() == old(Done()) + [Finalization(outcome)]
      ensures signal.Continue? ==> Done() == old(Done()) + [Finalization(outcome)] && IsClosed(outcome)
      ensures old(Smooth(Submitting, base)) && matches ==> signal.Continue?
    {
      signal := Continue;
      :- Observe(p, written, requests, base);
      signal := Conclude(p, outcome, written, matches, base);
    }

    method Conclude(p: Phase, outcome: ExecutionStatus, written: bool, matches: bool, ghost base: Time)
      returns (signal: Signal)
      requires At(p) && FlagsFit(p, true, written) && MayFinalize(p, outcome)
      modifies env, world
      ensures Stepped(signal, p, p)
      ensures Done() == old(Done()) || Done() == old(Done()) + [Finalization(outcome)]
      ensures signal.Continue? ==> Done() == old(Done()) + [Finalization(outcome)] && IsClosed(outcome)
      ensures old(Smooth(Submitting, base)) && matches ==> signal.Continue?
    {
      signal := Continue;
      :- EnsureAllowed(Submitting, written, p, false, base);
      signal := FinalizeSubmission(outcome, matches, p, base);
    }

    method Observe(p: Phase, written: bool, requests: nat, ghost base: Time) returns (signal: Signal)
      requires At(p) && !p.Checking? && FlagsFit(p, true, written)
      modifies env, world
      ensures Stepped(signal, p, p) && Done() == old(Done())
      ensures old(Smooth(Submitting, base)) ==> signal.Continue? && Smooth(Submitting, base)
    {
      signal := Continue;
      :- EnsureAllowed(Submitting, written, p, false, base);
      :- Inquire(requests, Submitting, written, p, base);
    }

    /**
     `_process_claim`. Whatever the world answers and whatever everybody else does in
     between, what this worker does to the rows and to qBittorrent is a run of the
     protocol, so there is never a second add. `signal` is how the work ended before
     errors were handled. A torrent that is there already is never added; an error
     other than a lost lease is recorded once, in the way that fits how far the work
     got; and in a calm world the execution is closed with the outcome that is due.
     */
    method ProcessClaim(m: Metadata, expectedHash: Option<Hash>, searches: nat, requests: nat,
                        existing: bool, appeared: bool, matches: bool, ghost base: Time)
      returns (signal: Signal, ghost reserved: bool)
      requires At(Checking(id, token)) && m.Valid()
      modifies env, world
      ensures env.Valid() && old(env.trace) <= env.trace
      ensures PhaseOf(env.Model(), name).Idle?
      ensures AddsAccountedFor(env.cases)
      ensures ProcessedAs(old(Done()), Done(), Reservation(m, expectedHash), existing || appeared, reserved, signal)
      ensures signal.Continue? ==> reserved && IsClosed(if existing || appeared then AlreadyPresent else Submitted)
      ensures && old(Smooth(Validating, base)) && matches
              && (expectedHash.Some? ==> expectedHash.value in m.IdentityHashes())
              ==> signal.Continue?
    {
      var reservationCommitted, written;
      signal, reservationCommitted, written :=
        Work(m, expectedHash, searches, requests, existing, appeared, matches, base);
      reserved := reservationCommitted;
      ghost var worked := Done();
      Handle(signal, reservationCommitted, written);
      ProcessedWith(old(Done()), worked, Reservation(m, expectedHash), existing || appeared, reserved, signal);
      Retire();
    }

    /** The worker forgets its claim. */
    method Retire()
      requires env.Valid()
      modifies env
      ensures env.Valid() && old(env.trace) <= env.trace && Done() == old(Done()) && env.cases == old(env.cases)
      ensures PhaseOf(env.Model(), name).Idle? && AddsAccountedFor(env.cases)
    {
      WritesAppend(env.trace, Stop(name), name);
      env.StopWorker(name);
      AddsAreAccountedFor(env.Model());
    }

    /** The body of the try statement. */
    method Work(m: Metadata, expectedHash: Option<Hash>, searches: nat, requests: nat,
                existing: bool, appeared: bool, matches: bool, ghost base: Time)
      returns (signal: Signal, reserved: bool, written: bool)
      requires At(Checking(id, token)) && m.Valid()
      modifies env, world
      ensures env.Valid() && old(env.trace) <= env.trace
      ensures signal.RaisedOther? ==>
                At(PhaseOf(env.Model(), name)) && FlagsFit(PhaseOf(env.Model(), name), reserved, written)
      ensures if reserved
              then SubmittedAs(old(Done()) + [Reservation(m, expectedHash)], Done(), existing || appeared, signal)
              else && signal != Continue
                   && (Done() == old(Done()) || Done() == old(Done()) + [Reservation(m, expectedHash)])
      ensures signal.Continue? ==> reserved && IsClosed(if existing || appeared then AlreadyPresent else Submitted)
      ensures && old(Smooth(Validating, base)) && matches
              && (expectedHash.Some? ==> expectedHash.value in m.IdentityHashes())
              ==> signal.Continue?
    {
      reserved, written := false, false;
      signal := Validate(searches, requests, existing, Checking(id, token), base);
      if signal.IsFailure() {
        return;
      }
      signal, reserved, written := ReserveAndSubmit(m, expectedHash, requests, existing, appeared, matches, base);
    }

    method ReserveAndSubmit(m: Metadata, expectedHash: Option<Hash>, requests: nat,
                            existing: bool, appeared: bool, matches: bool, ghost base: Time)
      returns (signal: Signal, reserved: bool, written: bool)
      requires At(Checking(id, token)) && m.Valid()
      modifies env, world
      ensures env.Valid() && old(env.trace) <= env.trace
      ensures signal.RaisedOther? ==>
                At(PhaseOf(env.Model(), name)) && FlagsFit(PhaseOf(env.Model(), name), reserved, written)
      ensures if reserved
              then SubmittedAs(old(Done()) + [Reservation(m, expectedHash)], Done(), existing || appeared, signal)
              else signal != Continue && Done() == old(Done()) + [Reservation(m, expectedHash)]
      ensures signal.Continue? ==> reserved && IsClosed(if existing || appeared then AlreadyPresent else Submitted)
      ensures && old(Smooth(Validating, base)) && matches
              && (expectedHash.Some? ==> expectedHash.value in m.IdentityHashes())
              ==> signal.Continue?
    {
      reserved, written := false, false;
      signal := ReserveSubmission(m, expectedHash, base);
      if signal.IsFailure() {
        return;
      }
      reserved := true;
      signal, written := Submit(existing, appeared, requests, matches, base);
    }

    /** The except clauses: a lost lease is left alone, any other error is recorded. */
    method Handle(signal: Signal, reserved: bool, written: bool)
      requires env.Valid()
      requires signal.RaisedOther? ==>
                 At(PhaseOf(env.Model(), name)) && FlagsFit(PhaseOf(env.Model(), name), reserved, written)
      modifies env, world
      ensures env.Valid() && old(env.trace) <= env.trace
      ensures Done() == old(Done()) + Marks(reserved, signal)
      ensures !signal.RaisedOther? ==> unchanged(env)
    {
      if signal.RaisedOther? {
        if reserved {
          MarkReservedFailure(written, PhaseOf(env.Model(), name));
        } else {
          MarkValidationFailure(signal.retryable);
        }
      }
    }
  }

  /** What a submission adds to the writes of a worker: at most one add, none if the torrent is there. */
  ghost predicate SubmittedAs(before: seq<Write>, after: seq<Write>, present: bool, signal: Signal) {
    var outcome := if present then AlreadyPresent else Submitted;
    || (signal == Continue && after == before + (if present then [] else [Add]) + [Finalization(outcome)])
    || (signal != Continue && after == before)
    || (signal != Continue && after == before + [Finalization(outcome)] && present)
    || (signal != Continue && after == before + [Add] && !present)
    || (signal != Continue && after == before + [Add, Finalization(outcome)] && !present)
  }

  /** What processing a claim adds: the reservation, the submission, and at most one failure mark. */
  ghost predicate ProcessedAs(before: seq<Write>, after: seq<Write>, reservation: Write, present: bool, reserved: bool,
                              signal: Signal)
  {
    if reserved then
      exists submitted: seq<Write> ::
        && SubmittedAs(before + [reservation], submitted, present, signal)
        && after == submitted + Marks(true, signal)
    else
      && signal != Continue
      && (after == before + Marks(false, signal) || after == before + [reservation] + Marks(false, signal))
  }

  ghost function Marks(reserved: bool, signal: Signal): seq<Write> {
    if !signal.RaisedOther? then []
    else if reserved then [ReservedFailure]
    else [ValidationFailure(signal.retryable)]
  }

  lemma ProcessedWith(before: seq<Write>, worked: seq<Write>, reservation: Write, present: bool, reserved: bool,
                      signal: Signal)
    requires if reserved then SubmittedAs(before + [reservation], worked, present, signal)
             else signal != Continue && (worked == before || worked == before + [reservation])
    ensures ProcessedAs(before, worked + Marks(reserved, signal), reservation, present, reserved, signal)
  {
  }

  /** A row that has just been claimed is held, if its approval lasts. */
  lemma ClaimedIsSteady(s: State, w: WorkerName, id: ApprovalId, now: Time, base: Time, settings: Settings)
    requires Invariant(s) && PhaseOf(s, w).Idle? && HasExecution(s, id)
    requires IsClaimable(s.cases[id].execution.value, now)
    ensures
      var after := Step(s, ClaimNext(w, id, now), settings);
      && id in after.cases
      && (base <= now && ApprovalLasts(s.cases[id].approval, base, settings) ==>
            IsSteady(after.cases[id], Claim(w, s.nextToken), Validating, base, settings))
  {
    assert CaseInvariant(s, s.cases[id]);
  }

  predicate ApprovalLasts(a: Approval, base: Time, settings: Settings) {
    a.status == Approved && base + settings.leaseSeconds <= a.expiresAt
  }

  /** What one round finds of the torrents: what it fetches, and how qBittorrent answers. */
  datatype Findings = Findings(metadata: Metadata, expectedHash: Option<Hash>, searches: nat, requests: nat,
                               existing: bool, appeared: bool, matches: bool)
  {
    /** The torrent has a hash that the plan allows, and qBittorrent shows it as expected. */
    predicate Good()
      requires metadata.Valid()
    {
      matches && (expectedHash.Some? ==> expectedHash.value in metadata.IdentityHashes())
    }

    /** What the worker did for these findings. */
    ghost predicate Processed(before: seq<Write>, after: seq<Write>, signal: Signal, reserved: bool) {
      ProcessedAs(before, after, Reservation(metadata, expectedHash), existing || appeared, reserved, signal)
    }

    /** The execution has the outcome that is due, and its download job exists. */
    predicate Closed(cases: map<ApprovalId, Case>, id: ApprovalId) {
      && id in cases && cases[id].job && cases[id].execution.Some?
      && cases[id].execution.value.status == if existing || appeared then AlreadyPresent else Submitted
    }
  }

  /** Claim the row that is next. */
  method ClaimRow(executor: D.DownloadExecutor, env: Environment, lockedByOthers: set<ApprovalId>, now: Time,
                  ghost base: Time)
    returns (claimed: Option<ApprovalId>, token: Token)
    requires env.Valid() && PhaseOf(env.Model(), executor.worker).Idle?
    modifies env
    ensures env.Valid() && old(env.trace) <= env.trace && env.schedule == old(env.schedule)
    ensures Writes(env.trace, executor.worker) == old(Writes(env.trace, executor.worker))
    ensures claimed.None? ==>
              && env.Model() == old(env.Model()) && env.trace == old(env.trace)
              && NothingClaimable(env.cases, lockedByOthers, now)
    ensures claimed.Some? ==>
              && PhaseOf(env.Model(), executor.worker) == Checking(claimed.value, token)
              && old(env.IsOldestClaimable(claimed.value, lockedByOthers, now))
              && (base <= now && old(ApprovalLasts(env.cases[claimed.value].approval, base, env.settings)) ==>
                    && claimed.value in env.cases
                    && IsSteady(env.cases[claimed.value], Claim(executor.worker, token), Validating, base,
                                env.settings))
  {
    token := env.nextToken;
    ghost var before, trace := env.Model(), env.trace;
    claimed := env.ClaimNext(executor, lockedByOthers, now);
    if claimed.Some? {
      WritesAppend(trace, ClaimNext(executor.worker, claimed.value, now), executor.worker);
      ClaimedIsSteady(before, executor.worker, claimed.value, now, base, env.settings);
    }
  }

  /** Claim the row that is next and process the claim. */
  method ClaimAndProcess(executor: D.DownloadExecutor, env: Environment, world: World,
                         lockedByOthers: set<ApprovalId>, f: Findings, ghost base: Time)
    returns (claimed: Option<ApprovalId>, ghost signal: Signal, ghost reserved: bool)
    requires env.Valid() && PhaseOf(env.Model(), executor.worker).Idle? && f.metadata.Valid()
    requires executor.settings == env.settings
    modifies env, world
    ensures env.Valid() && old(env.trace) <= env.trace && PhaseOf(env.Model(), executor.worker).Idle?
    ensures AddsAccountedFor(env.cases)
    ensures claimed.None? ==>
              && env.Model() == old(env.Model()) && env.trace == old(env.trace)
              && NothingClaimable(env.cases, lockedByOthers, world.clock(old(world.asked)))
    ensures claimed.Some? ==>
              && claimed.value !in lockedByOthers && claimed.value in old(env.cases)
              && f.Processed(old(Writes(env.trace, executor.worker)), Writes(env.trace, executor.worker), signal,
                             reserved)
    ensures && claimed.Some? && old(env.schedule) == [] && world.Calm(base, env.settings) && f.Good()
            && old(ApprovalLasts(env.cases[claimed.value].approval, base, env.settings))
            ==> signal.Continue?
    ensures claimed.Some? && signal.Continue? ==> f.Closed(env.cases, claimed.value)
  {
    var now := world.Clock();
    var token;
    claimed, token := ClaimRow(executor, env, lockedByOthers, now, base);
    signal, reserved := Returned, false;
    RoundAccountsForAdds(env);
    if claimed.None? {
      return;
    }
    var worker := new Worker(executor, claimed.value, token, env, world);
    signal, reserved := worker.ProcessClaim(f.metadata, f.expectedHash, f.searches, f.requests,
                                            f.existing, f.appeared, f.matches, base);
  }

  lemma RoundAccountsForAdds(env: Environment)
    requires env.Valid()
    ensures AddsAccountedFor(env.cases)
  {
    AddsAreAccountedFor(env.Model());
  }

  /** Recover what is stale; then everybody else runs. */
  method Recover(executor: D.DownloadExecutor, env: Environment, lockedByOthers: set<ApprovalId>, now: Time)
    returns (recovered: nat)
    requires env.Valid() && PhaseOf(env.Model(), executor.worker).Idle? && executor.settings == env.settings
    modifies env
    ensures env.Valid() && old(env.trace) <= env.trace && PhaseOf(env.Model(), executor.worker).Idle?
    ensures Writes(env.trace, executor.worker) == old(Writes(env.trace, executor.worker))
    ensures old(env.schedule) == [] ==>
              && env.schedule == [] && |env.trace| == |old(env.trace)| + recovered
              && (forall id | id in env.cases ::
                    id in old(env.cases) && env.cases[id].approval == old(env.cases)[id].approval)
              && (recovered < D.RECOVERY_LIMIT ==> NothingStale(env.cases, lockedByOthers, now, env.settings))
  {
    recovered := env.RecoverStale(executor, lockedByOthers, now);
    env.Others(executor.worker);
  }

  /**
   `run_once`: recover what the worker finds stale, claim the row it selects, and
   process the claim. It can be called again and again, on any schedule of the others.
   It makes progress exactly when it recovers or claims something. A round that
   claims nothing finds nothing claimable, and in a calm world the claimed row is
   closed with the outcome that is due.
   */
  method RunOnce(executor: D.DownloadExecutor, env: Environment, world: World, lockedByOthers: set<ApprovalId>,
                 f: Findings, ghost base: Time)
    returns (progress: bool, recovered: nat, claimed: Option<ApprovalId>, ghost signal: Signal, ghost reserved: bool)
    requires env.Valid() && PhaseOf(env.Model(), executor.worker).Idle? && f.metadata.Valid()
    requires executor.settings == env.settings
    modifies env, world
    ensures env.Valid() && old(env.trace) <= env.trace
    ensures PhaseOf(env.Model(), executor.worker).Idle?
    ensures AddsAccountedFor(env.cases)
    ensures progress <==> recovered > 0 || claimed.Some?
    ensures claimed.None? ==> Writes(env.trace, executor.worker) == old(Writes(env.trace, executor.worker))
    ensures claimed.None? && old(env.schedule) == [] ==>
              && |env.trace| == |old(env.trace)| + recovered
              && NothingClaimable(env.cases, lockedByOthers, world.clock(old(world.asked) + 1))
              && (recovered < D.RECOVERY_LIMIT ==>
                    NothingStale(env.cases, lockedByOthers, world.clock(old(world.asked)), env.settings))
    ensures claimed.Some? ==>
              && claimed.value !in lockedByOthers
              && f.Processed(old(Writes(env.trace, executor.worker)), Writes(env.trace, executor.worker), signal,
                             reserved)
    ensures && claimed.Some? && old(env.schedule) == [] && world.Calm(base, env.settings) && f.Good()
            && claimed.value in old(env.cases)
            && old(ApprovalLasts(env.cases[claimed.value].approval, base, env.settings))
            ==> signal.Continue?
    ensures claimed.Some? && signal.Continue? ==> f.Closed(env.cases, claimed.value)
  {
    var now := world.Clock();
    recovered := Recover(executor, env, lockedByOthers, now);
    claimed, signal, reserved := ClaimAndProcess(executor, env, world, lockedByOthers, f, base);
    progress := recovered > 0 || claimed.Some?;
  }

  /** At most one add was issued per approval, and none without its approval being used. */
  predicate AddsAccountedFor(cases: map<ApprovalId, Case>) {
    forall id | id in cases ::
      && |cases[id].adds| <= 1
      && (cases[id].adds != [] ==> cases[id].approval.status.Executing? || cases[id].approval.status.Consumed?)
  }

  lemma AddsAreAccountedFor(s: State)
    requires Invariant(s)
    ensures AddsAccountedFor(s.cases)
  {
    forall id | id in s.cases
      ensures |s.cases[id].adds| <= 1
      ensures s.cases[id].adds != [] ==>
                s.cases[id].approval.status.Executing? || s.cases[id].approval.status.Consumed?
    {
      assert CaseInvariant(s, s.cases[id]);
    }
  }
}
