/** The store as an object: single transactions, retry loops and recovery from
    ambiguous commits, under every failure schedule and any interference
    (crates/w9pt-fs-state-postgres/src/commit.rs:67-371,
    crates/w9pt-fs-state-postgres/src/lease.rs:279-382). */
module Server {
  import opened Values
  import opened Records
  import opened Requests
  import opened Leases
  import opened Authority
  import opened Invariants
  import opened Ledger
  import opened LeaseReplay
  import opened Calls
  import Polling

  class Store {
    const filesystem: nat
    var state: State
    /** The COMMITs under way. */
    var pending: seq<Late>
    /** The transactions applied so far. */
    ghost var run: seq<Step>

    ghost predicate Valid()
      reads this
    {
      Runs(FRESH, run) && state == End(FRESH, run)
    }

    constructor (filesystem: nat)
      ensures Valid() && run == [] && state == FRESH && pending == [] && this.filesystem == filesystem
    {
      this.filesystem := filesystem;
      state := FRESH;
      pending := [];
      run := [];
    }

    lemma Holds()
      requires Valid()
      ensures Inv(state)
    {
      hide Inv, Enabled, Next;
      InvAlways(run, |run|);
    }

    /** Applies one enabled transaction. */
    method Apply(step: Step)
      requires Valid() && Enabled(state, step)
      modifies this
      ensures Valid() && run == old(run) + [step] && state == Next(old(state), step) && pending == old(pending)
    {
      hide Enabled, Next;
      RunExtends(FRESH, run, step);
      state := Next(state, step);
      run := run + [step];
    }

    /** `execute_once`: one serializable transaction and its fate. */
    method ExecuteOnce(q: Request, now: nat, depth: nat, limit: nat, fate: Fate) returns (a: Attempt)
      requires Valid() && PreflightOk(q) && KeysWithin(q, SCHEMA_KEYS)
      modifies this
      ensures Valid()
      ensures run == old(run) || AppendsCommit(old(run), q, run)
      ensures pending == old(pending) || (a.Unacknowledged? && fate.LostPending?
              && run == old(run) && pending == old(pending) + [LateCommit(q, now, depth, limit)])
      ensures a.Settles? ==> Tells(a.outcome, state.table, q.mutation) && !a.outcome.AmbiguousOutcome?
      ensures a.Settles? && a.outcome.Committed? ==>
        run != old(run) && a.outcome == Committed(old(state.current) + 1, q.result)
      ensures !(a.Settles? && a.outcome.Committed?) && !a.Unacknowledged? ==> run == old(run)
      ensures a.Settles? && Definite(a.outcome) ==>
        forall files, keys :: !Enabled(old(state), Commit(q, now, depth, limit, files, keys))
      ensures a.Unacknowledged? ==> (fate.LostApplied? <==> run != old(run))
      ensures Executes(old(state), q, now, depth, limit, fate, a)
    {
      hide Inv, Enabled, Next, PreflightOk, Runs, KeysWithin, Refuses;
      if fate.Aborts? {
        return RolledBack(fate.retryable);
      }
      Holds();
      var plan := PlanCommit(state, q, now, depth, limit);
      match plan
      case Answer(outcome) => return Settles(outcome);
      case Give(retryable) => return RolledBack(retryable);
      case Ready(step) =>
        if fate.LostRolledBack? {
          return Unacknowledged;
        }
        if fate.LostPending? {
          pending := pending + [LateCommit(q, now, depth, limit)];
          return Unacknowledged;
        }
        CommitTells(state, step);
        var revision := state.current + 1;
        Apply(step);
        return if fate.LostApplied? then Unacknowledged else Settles(Committed(revision, q.result));
    }

    lemma Shaped()
      requires Valid()
      ensures OperationsShaped(state)
    {
      hide Enabled, Next, ShapeOk;
      forall id | id in state.operations ensures ShapeOk(state.operations[id]) {
        NeverCorrupt(run, |run|, id);
      }
    }

    /** One lease transaction and its fate. */
    method LeaseOnce(r: LeaseRequest, now: nat, limits: LeaseLimits, fate: Fate) returns (a: LeaseAttempt)
      requires Valid()
      modifies this
      ensures Valid()
      ensures run == old(run) || run == old(run) + [Lease(r, filesystem, now, limits.history)]
      ensures old(r.id in state.operations) ==> run == old(run)
      ensures pending == old(pending)
              || (fate.LostPending? && run == old(run) && pending == old(pending) + [LateLease(r, now, limits)])
      ensures a.LeaseSettles? ==> LeaseTells(a.outcome, state, r, filesystem)
      ensures a.LeaseRolledBack? ==> run == old(run)
      ensures LeaseExecutes(old(state), filesystem, r, now, limits, fate, a)
      ensures a.LeaseSettles? && run == old(run) ==> !First(a.outcome)
      ensures a.LeaseSettles? && run != old(run) ==> a.outcome == OutcomeOf(r, DecisionAt(old(state), r, now))
      ensures run != old(run) ==> Evaluates(old(state), r, limits)
    {
      hide Enabled, Next, Runs, LeaseTells, LeaseReports, OutcomeOf, DecisionAt;
      if fate.Aborts? {
        return LeaseRolledBack(fate.retryable);
      }
      Shaped();
      var plan := PlanLease(state, r, filesystem, now, limits);
      match plan
      case LeaseGives => return LeaseRolledBack(false);
      case LeaseFault => assert false;
      case LeaseAnswer(outcome) =>
        NotEvaluatedFirst(state, filesystem, r, now, limits, outcome);
        return if fate.Acknowledged? then LeaseSettles(outcome) else LeaseUnacknowledged;
      case LeaseReady(step) =>
        if fate.LostRolledBack? {
          return LeaseUnacknowledged;
        }
        if fate.LostPending? {
          pending := pending + [LateLease(r, now, limits)];
          return LeaseUnacknowledged;
        }
        LeaseStepTells(state, step);
        var outcome := OutcomeOf(r, DecisionAt(state, r, now));
        DecidedReports(state, filesystem, r, now, limits);
        Apply(step);
        return if fate.Acknowledged? then LeaseSettles(outcome) else LeaseUnacknowledged;
    }

    /** A commit that passed some client's preflight, and its fate. */
    method RunCommit(q: Request, now: nat, depth: nat, limit: nat, fate: Fate)
      requires Valid()
      modifies this
      ensures Valid() && (run == old(run) || AppendsCommit(old(run), q, run))
      ensures pending == old(pending) || pending == old(pending) + [LateCommit(q, now, depth, limit)]
    {
      hide Enabled, Next, Runs, PreflightOk, KeysWithin;
      var error := ValidatePreflight(q, SCHEMA_KEYS);
      if error.None? {
        var _ := ExecuteOnce(q, now, depth, limit, fate);
      }
    }

    /** One thing that happens beside a call. */
    method RunOne(o: Operation, ghost id: MutationId, ghost lease: OperationId)
      requires Valid()
      modifies this
      ensures Valid() && old(run) <= run
      ensures !Carries(o, id) && !PendingCarries(old(pending), id) ==>
        Silent(run, |old(run)|, id) && !PendingCarries(pending, id)
      ensures !Submits(o, lease) && !PendingSubmits(old(pending), lease) ==>
        LeaseSilent(run, |old(run)|, lease) && !PendingSubmits(pending, lease)
    {
      hide Enabled, Next, Runs;
      match o
      case OtherCommit(q, now, depth, limit, fate) => RunCommit(q, now, depth, limit, fate);
      case OtherLease(r, now, limits, fate) =>
        var _ := LeaseOnce(r, now, limits, fate);
      case Lands(n) =>
        if n < |pending| {
          var late := pending[n];
          assert late in pending;
          pending := pending[..n] + pending[n + 1..];
          assert forall p | p in pending :: p in old(pending);
          match late
          case LateCommit(q, now, depth, limit) => RunCommit(q, now, depth, limit, LostApplied);
          case LateLease(r, now, limits) =>
            var _ := LeaseOnce(r, now, limits, LostApplied);
        }
    }

    /** Transactions of other clients, and landings. */
    method RunOthers(operations: seq<Operation>, ghost id: MutationId, ghost lease: OperationId)
      requires Valid()
      modifies this
      ensures Valid() && old(run) <= run
      ensures (forall o | o in operations :: !Carries(o, id)) && !PendingCarries(old(pending), id) ==>
        Silent(run, |old(run)|, id) && !PendingCarries(pending, id)
      ensures (forall o | o in operations :: !Submits(o, lease)) && !PendingSubmits(old(pending), lease) ==>
        LeaseSilent(run, |old(run)|, lease) && !PendingSubmits(pending, lease)
      ensures operations == [] ==> run == old(run) && state == old(state) && pending == old(pending)
    {
      hide Enabled, Next, Runs, PendingCarries, PendingSubmits;
      for i := 0 to |operations|
        invariant Valid() && old(run) <= run
        invariant (forall o | o in operations :: !Carries(o, id)) && !PendingCarries(old(pending), id) ==>
          Silent(run, |old(run)|, id) && !PendingCarries(pending, id)
        invariant (forall o | o in operations :: !Submits(o, lease)) && !PendingSubmits(old(pending), lease) ==>
          LeaseSilent(run, |old(run)|, lease) && !PendingSubmits(pending, lease)
        invariant i == 0 ==> run == old(run) && state == old(state) && pending == old(pending)
      {
        ghost var before := run;
        assert operations[i] in operations;
        RunOne(operations[i], id, lease);
        StillSilent(before, run, |old(run)|, id);
        StillLeaseSilent(before, run, |old(run)|, lease);
      }
    }

    /** `recover_ambiguous_commit`: probes the ledger until a probe answers. */
    method RecoverAmbiguous(q: Request, config: Config, env: Environment, used: nat, tick: nat)
      returns (resolution: Recovery, attempts: nat)
      requires Valid() && used <= config.recovery
      modifies this
      ensures Valid() && old(run) <= run
      ensures !Contested(env, old(pending), q.mutation.id) ==>
        Silent(run, |old(run)|, q.mutation.id) && !PendingCarries(pending, q.mutation.id)
      ensures used <= attempts <= config.recovery
      ensures resolution.Resolved? ==> Tells(resolution.outcome, state.table, q.mutation)
      ensures resolution.Resolved? ==> !Definite(resolution.outcome) && !resolution.outcome.Committed?
      ensures resolution.Resolved? ==> !resolution.outcome.AmbiguousOutcome?
      ensures resolution.Absent? ==> MutationKey(q.mutation.id) !in state.table
      ensures resolution.Resolved? ==> Answered(state, q.mutation, resolution.outcome)
      ensures !resolution.Exhausted? ==> used < attempts && Probed(env, tick, used, attempts)
      ensures resolution.Exhausted? ==> Unanswered(env, tick, used, config.recovery)
    {
      hide Enabled, Next, Runs, Inv, Tells, PendingCarries, Answered;
      attempts := used;
      while attempts < config.recovery
        invariant Valid() && old(run) <= run && used <= attempts <= config.recovery
        invariant !Contested(env, old(pending), q.mutation.id) ==>
          Silent(run, |old(run)|, q.mutation.id) && !PendingCarries(pending, q.mutation.id)
        invariant forall n | used < n <= attempts :: ProbeFails(env, tick, n)
      {
        attempts := attempts + 1;
        ghost var before := run;
        RunOthers(env.others(tick + attempts), q.mutation.id, 0);
        StillSilent(before, run, |old(run)|, q.mutation.id);
        if !env.probeFails(tick + attempts) {
          Holds();
          var found := ProbeLedger(state, q.mutation);
          return if found.Some? then Resolved(found.value) else Absent, attempts;
        }
      }
      return Exhausted, attempts;
    }

    /** `commit_request`: under every failure schedule and any interference the
        outcome is what the ledger says, a definite rejection means the run does not
        hold the mutation, and the number of executions is bounded. `own` are the
        positions of the commits applied at a turn of this call: at most one, one when it
        reports a commit, none when it fails. Without contest nothing of the mutation is
        under way afterwards either. `log` says how the call went, execution by execution,
        and why it ended. */
    method CommitRequest(q: Request, config: Config, env: Environment)
      returns (r: CallResult, executions: nat, ghost own: set<nat>, ghost log: CallLog)
      requires Valid()
      modifies this
      ensures Valid() && old(run) <= run
      ensures executions == |log.tries| <= 1 + config.definitive + config.recovery
      ensures r.Returned? ==> Tells(r.outcome, state.table, q.mutation)
      ensures r.Returned? && Definite(r.outcome) ==> Silent(run, 0, q.mutation.id)
      ensures Account(old(run), run, own, q, Contested(env, old(pending), q.mutation.id))
      ensures !Contested(env, old(pending), q.mutation.id) ==> !Contested(env, pending, q.mutation.id)
      ensures r.Failed? || (r.Returned? && Definite(r.outcome)) ==> own == {}
      ensures r.Returned? && r.outcome.Committed? ==> own != {}
      ensures Proceeds(q, config, env, log, r)
      ensures env.others(0) == [] ==> log.start == old(state)
      ensures env.others(1) == [] && log.tries != [] ==> log.tries[0].state == log.start
    {
      hide Enabled, Next, Runs, Inv, Tells, PreflightOk, KeysWithin, Account, Silent, PendingCarries, Contested;
      hide Tried, Concludes, Answered;
      ghost var contested := Contested(env, pending, q.mutation.id);
      own := {};
      AccountStarts(run, q, contested);
      BesideTurn(q, env, 0, own, contested, run, pending);
      executions := 0;
      log := CallLog(state, []);
      if env.probeFails(0) {
        return Failed, executions, own, log;
      }
      Holds();
      var found := ProbeLedger(state, q.mutation);
      if found.Some? {
        return Returned(found.value), executions, own, log;
      }
      var error := ValidatePreflight(q, config.keys);
      if error.Some? {
        NotCommitted(q.mutation.id);
        RejectionTells(MalformedOutcome(error.value), q.mutation);
        return Returned(MalformedOutcome(error.value)), executions, own, log;
      }
      WiderKeys(q, config.keys);
      r, executions, own, log := Attempts(q, config, env, contested, old(run));
    }

    /** The loop of `commit_request`. */
    method Attempts(q: Request, config: Config, env: Environment, ghost contested: bool, ghost was: seq<Step>)
      returns (r: CallResult, executions: nat, ghost own: set<nat>, ghost log: CallLog)
      requires Valid() && PreflightOk(q) && KeysWithin(q, SCHEMA_KEYS) && was <= run
      requires Account(was, run, {}, q, contested)
      requires !contested ==> !Contested(env, pending, q.mutation.id)
      modifies this
      ensures Valid() && was <= run
      ensures executions == |log.tries| <= 1 + config.definitive + config.recovery
      ensures r.Returned? ==> Tells(r.outcome, state.table, q.mutation)
      ensures r.Returned? && Definite(r.outcome) ==> Silent(run, 0, q.mutation.id)
      ensures Account(was, run, own, q, contested) && (!contested ==> !Contested(env, pending, q.mutation.id))
      ensures r.Failed? || (r.Returned? && Definite(r.outcome)) ==> own == {}
      ensures r.Returned? && r.outcome.Committed? ==> own != {}
      ensures log.start == old(state) && Tried(q, config, env, log.tries) && Concludes(config, env, log.tries, r)
      ensures env.others(1) == [] && log.tries != [] ==> log.tries[0].state == log.start
    {
      hide Enabled, Next, Runs, Inv, Tells, PreflightOk, KeysWithin, Account, Silent, PendingCarries, Contested;
      hide Tried, Executes, Answered, Probed, Unanswered;
      executions, own := 0, {};
      var definitive, recovery := 0, 0;
      ghost var tries: seq<Try> := [];
      ghost var before, under := run, pending;
      TriesStart(q, config, env);
      while true
        invariant Valid() && was <= run
        invariant definitive <= config.definitive && recovery <= config.recovery
        invariant executions <= definitive + recovery
        invariant own == {} && Account(was, run, own, q, contested)
        invariant !contested ==> !Contested(env, pending, q.mutation.id)
        invariant executions == |tries| && Tried(q, config, env, tries)
        invariant if tries == [] then definitive == 0 && recovery == 0 && state == old(state)
                  else Continues(env, |tries| - 1, tries[|tries| - 1], Try(state, definitive, recovery, Unacknowledged))
        invariant env.others(1) == [] && tries != [] ==> tries[0].state == old(state)
        decreases config.definitive - definitive + config.recovery - recovery
      {
        var tick := executions + recovery + 1;
        var attempt;
        ghost var from;
        attempt, own, from := Turn(q, config, env, tick, contested, was);
        ghost var next := Try(from, definitive, recovery, attempt);
        TriesGrow(q, config, env, tries, next);
        tries := tries + [next];
        executions := executions + 1;
        log := CallLog(old(state), tries);
        match attempt
        case Settles(outcome) =>
          if Definite(outcome) {
            DefiniteTells(outcome, q.mutation);
            NotCommitted(q.mutation.id);
          }
          return Returned(outcome), executions, own, log;
        case RolledBack(retryable) =>
          if !retryable || definitive == config.definitive {
            return Failed, executions, own, log;
          }
          definitive := definitive + 1;
        case Unacknowledged =>
          before, under := run, pending;
          var resolution, attempts := RecoverAmbiguous(q, config, env, recovery, tick);
          KeptBeside(env, was, before, under, own, q, contested);
          match resolution
          case Resolved(outcome) => return Returned(outcome), executions, own, log;
          case Exhausted =>
            AmbiguityTells(q.mutation);
            return Returned(AmbiguousOutcome), executions, own, log;
          case Absent =>
            NotCommitted(q.mutation.id);
            NothingOwned(was, run, own, q, contested);
            recovery := attempts;
      }
    }

    /** What stays true of the account beside a call's own turns. */
    lemma KeptBeside(env: Environment, was: seq<Step>, before: seq<Step>, under: seq<Late>, own: set<nat>, q: Request,
                     contested: bool)
      requires Account(was, before, own, q, contested) && before <= run
      requires !contested ==> !Contested(env, under, q.mutation.id)
      requires !contested ==> Silent(run, |before|, q.mutation.id) && !PendingCarries(pending, q.mutation.id)
      ensures Account(was, run, own, q, contested) && (!contested ==> !Contested(env, pending, q.mutation.id))
    {
      hide Account, Contested, PendingCarries, Silent;
      OthersKeepAccount(was, before, run, own, q, contested);
      if !contested {
        StillUncontested(env, under, pending, q.mutation.id);
      }
    }

    /** What happens beside the call at one tick. */
    method BesideTurn(q: Request, env: Environment, tick: nat, ghost own: set<nat>, ghost contested: bool,
                      ghost was: seq<Step>, ghost under: seq<Late>)
      requires Valid() && was <= run && under == pending
      requires Account(was, run, own, q, contested)
      requires !contested ==> !Contested(env, pending, q.mutation.id)
      modifies this
      ensures Valid() && old(run) <= run && was <= run
      ensures Account(was, run, own, q, contested) && (!contested ==> !Contested(env, pending, q.mutation.id))
      ensures env.others(tick) == [] ==> state == old(state)
    {
      hide Enabled, Next, Runs, Account, Contested, PendingCarries, Silent;
      if !contested {
        Uncontested(env, pending, q.mutation.id, tick);
      }
      RunOthers(env.others(tick), q.mutation.id, 0);
      KeptBeside(env, was, old(run), under, own, q, contested);
    }

    /** One turn of the loop: what happens beside the call, then one execution. */
    method Turn(q: Request, config: Config, env: Environment, tick: nat, ghost contested: bool, ghost was: seq<Step>)
      returns (a: Attempt, ghost own: set<nat>, ghost from: State)
      requires Valid() && PreflightOk(q) && KeysWithin(q, SCHEMA_KEYS) && was <= run
      requires Account(was, run, {}, q, contested)
      requires !contested ==> !Contested(env, pending, q.mutation.id)
      modifies this
      ensures Valid() && old(run) <= run && was <= run
      ensures Account(was, run, own, q, contested) && (!contested ==> !Contested(env, pending, q.mutation.id))
      ensures a.Settles? ==> Tells(a.outcome, state.table, q.mutation) && !a.outcome.AmbiguousOutcome?
      ensures own != {} ==> a.Unacknowledged? || (a.Settles? && a.outcome.Committed?)
      ensures a.Settles? && a.outcome.Committed? ==> own != {}
      ensures Executes(from, q, env.clock(tick), config.depth, config.limit, env.fate(tick), a)
      ensures env.others(tick) == [] ==> from == old(state)
    {
      hide Enabled, Next, Runs, Tells, PreflightOk, KeysWithin, Account, Contested, PendingCarries, Silent, Executes;
      own := {};
      BesideTurn(q, env, tick, own, contested, was, pending);
      from := state;
      ghost var before := run;
      if !contested {
        Uncontested(env, pending, q.mutation.id, tick);
      }
      a := ExecuteOnce(q, env.clock(tick), config.depth, config.limit, env.fate(tick));
      if run != before {
        CommitAccount(was, before, run, q, contested);
        own := {|before|};
      }
    }

    /** A call and whatever happens after it: the mutation is applied at most once, late
        landings included, and a definite rejection is final unless a commit of the
        mutation is under way at the return or is submitted again. */
    method CommitThenOthers(q: Request, config: Config, env: Environment, later: seq<Operation>)
      returns (r: CallResult, ghost underWay: bool)
      requires Valid()
      modifies this
      ensures Valid() && old(run) <= run && OneCommit(run, q.mutation.id)
      ensures underWay ==> Contested(env, old(pending), q.mutation.id)
      ensures r.Returned? && Definite(r.outcome) && !underWay && (forall o | o in later :: !Carries(o, q.mutation.id))
        ==> Silent(run, 0, q.mutation.id)
    {
      hide Enabled, Next, Runs, Inv, Tells, Account, Silent, PendingCarries, OneCommit, Contested;
      var executions: nat;
      ghost var own: set<nat>;
      ghost var log: CallLog;
      r, executions, own, log := CommitRequest(q, config, env);
      underWay := PendingCarries(pending, q.mutation.id);
      if !Contested(env, old(pending), q.mutation.id) {
        Uncontested(env, pending, q.mutation.id, 0);
      }
      ghost var before := run;
      RunOthers(later, q.mutation.id, 0);
      StillSilent(before, run, 0, q.mutation.id);
      CommittedOnce(q.mutation.id);
    }

    /** `poll_changes` on this store. */
    method PollChanges(after: Revision, maxEvents: nat, maxKeys: nat, limits: Polling.ChangeLimits)
      returns (p: Polling.PollOutcome)
      requires Valid()
      ensures p != Polling.Corrupted
      ensures 0 < maxEvents <= limits.history && 0 < maxKeys <= limits.keys
              && state.oldest <= after <= state.current ==>
        Polling.Answers(state, after, maxEvents, maxKeys, limits, p)
    {
      hide Enabled, Next, Polling.Answers, Polling.Pollable;
      Polling.AlwaysPollable(run, |run|);
      p := Polling.Poll(state, after, maxEvents, maxKeys, limits);
    }

    lemma CommittedOnce(id: MutationId)
      requires Valid()
      ensures OneCommit(run, id)
    {
      hide Enabled, Next;
      forall x, y | 0 <= x < y < |run| ensures !(Commits(run[x], id) && Commits(run[y], id)) {
        if Commits(run[x], id) && Commits(run[y], id) {
          AtMostOnce(run, x, y, id);
        }
      }
    }

    /** Without a ledger row the run holds no commit of the mutation. */
    lemma NotCommitted(id: MutationId)
      requires Valid() && MutationKey(id) !in state.table
      ensures Silent(run, 0, id)
    {
      hide Enabled, Next;
      RowIffCommitted(run, |run|, id);
    }

    lemma RejectionTells(o: Outcome, c: MutationContext)
      requires Definite(o) && MutationKey(c.id) !in state.table
      ensures Tells(o, state.table, c)
    {
    }

    lemma DefiniteTells(o: Outcome, c: MutationContext)
      requires Definite(o) && Tells(o, state.table, c)
      ensures MutationKey(c.id) !in state.table
    {
    }

    lemma AmbiguityTells(c: MutationContext)
      ensures Tells(AmbiguousOutcome, state.table, c)
    {
    }

    /** `execute_with_retries` of the lease operations: bounded, its answer is what the
        operation ledger replays, and `own` are the positions of the transactions this
        call applied, at most one and none when the operation was retained before. A first
        success is reported only for a transaction of this call. `tries` says how the call
        went and why it ended. */
    method LeaseRequestCall(r: LeaseRequest, limits: LeaseLimits, config: Config, env: Environment)
      returns (outcome: Option<LeaseOutcome>, executions: nat, ghost own: set<nat>, ghost tries: seq<LeaseTry>)
      requires Valid()
      modifies this
      ensures Valid() && old(run) <= run
      ensures executions == |tries| <= 1 + config.definitive + config.recovery
      ensures outcome.Some? ==> LeaseTells(outcome.value, state, r, filesystem)
      ensures LeaseAccount(old(run), run, own, r, LeaseContested(env, old(pending), r.id))
      ensures !LeaseContested(env, old(pending), r.id) ==> !LeaseContested(env, pending, r.id)
      ensures old(r.id in state.operations) ==> own == {}
      ensures own != {} ==> r.id in state.operations
      ensures outcome.Some? && own == {} && !LeaseContested(env, old(pending), r.id)
              && !old(r.id in state.operations) ==>
        outcome == Some(LeaseRejected(HistoryFull)) || outcome == Some(LeaseRejected(InvalidDuration))
      ensures outcome.Some? && First(outcome.value) ==> own != {}
      ensures LeaseTried(filesystem, r, limits, config, env, tries) && LeaseConcludes(config, tries, outcome)
      ensures env.others(0) == [] ==> tries[0].state == old(state)
    {
      hide Enabled, Next, Runs, LeaseTells, LeaseAccount, LeaseContested;
      hide LeaseTried, LeaseExecutes, OutcomeOf, DecisionAt, First;
      ghost var contested := LeaseContested(env, pending, r.id);
      executions, own, tries := 0, {}, [];
      LeaseAccountStarts(run, r, contested);
      LeaseTriesStart(r, limits, config, env);
      var definitive, recovery := 0, 0;
      while true
        invariant Valid() && old(run) <= run
        invariant definitive <= config.definitive && recovery <= config.recovery
        invariant executions == definitive + recovery == |tries|
        invariant LeaseAccount(old(run), run, own, r, contested)
        invariant own != {} || old(r.id in state.operations) ==> r.id in state.operations
        invariant old(r.id in state.operations) ==> own == {}
        invariant own == {} && !contested && !old(r.id in state.operations) ==> r.id !in state.operations
        invariant !contested ==> !LeaseContested(env, pending, r.id)
        invariant LeaseTried(filesystem, r, limits, config, env, tries)
        invariant tries != [] ==>
          LeaseContinues(tries[|tries| - 1], LeaseTry(state, definitive, recovery, LeaseUnacknowledged))
        invariant tries == [] ==> definitive == 0 && recovery == 0 && state == old(state)
        invariant env.others(0) == [] && tries != [] ==> tries[0].state == old(state)
        decreases config.definitive - definitive + config.recovery - recovery
      {
        ghost var from;
        var attempt;
        attempt, own, from := LeaseTurn(r, limits, env, executions, own, contested, old(run));
        ghost var next := LeaseTry(from, definitive, recovery, attempt);
        LeaseTriesGrow(filesystem, r, limits, config, env, tries, next);
        tries := tries + [next];
        executions := executions + 1;
        match attempt
        case LeaseSettles(o) =>
          if r.id !in state.operations {
            UnretainedAnswer(o, r);
          }
          return Some(o), executions, own, tries;
        case LeaseRolledBack(retryable) =>
          if !retryable || definitive == config.definitive {
            return None, executions, own, tries;
          }
          definitive := definitive + 1;
        case LeaseUnacknowledged =>
          if recovery == config.recovery {
            return None, executions, own, tries;
          }
          recovery := recovery + 1;
      }
    }

    /** One turn of the lease loop: what happens beside the call, then one execution. */
    method LeaseTurn(r: LeaseRequest, limits: LeaseLimits, env: Environment, tick: nat, ghost before: set<nat>,
                     ghost contested: bool, ghost was: seq<Step>)
      returns (a: LeaseAttempt, ghost own: set<nat>, ghost from: State)
      requires Valid() && was <= run && LeaseAccount(was, run, before, r, contested)
      requires !contested ==> !LeaseContested(env, pending, r.id)
      requires before != {} ==> r.id in state.operations
      modifies this
      ensures Valid() && was <= run && LeaseAccount(was, run, own, r, contested)
      ensures !contested ==> !LeaseContested(env, pending, r.id)
      ensures old(r.id in state.operations) ==> own == before && r.id in state.operations
      ensures own != {} ==> r.id in state.operations
      ensures own == {} && !contested && !old(r.id in state.operations) ==> r.id !in state.operations
      ensures a.LeaseSettles? ==> LeaseTells(a.outcome, state, r, filesystem) && (First(a.outcome) ==> own != {})
      ensures LeaseExecutes(from, filesystem, r, env.clock(tick), limits, env.fate(tick), a)
      ensures env.others(tick) == [] ==> from == old(state)
    {
      hide Enabled, Next, Runs, LeaseTells, LeaseAccount, LeaseSilent, PendingSubmits;
      hide LeaseExecutes, OutcomeOf, DecisionAt, First;
      ghost var earlier := run;
      RunOthers(env.others(tick), 0, r.id);
      OthersKeepLease(was, earlier, run, before, r, contested);
      StillRetained(earlier, r.id);
      StillUnretained(earlier, r.id, contested);
      earlier, from, own := run, state, before;
      a := LeaseOnce(r, env.clock(tick), limits, env.fate(tick));
      assert !contested ==> !env.fate(tick).LostPending?;
      StillRetained(earlier, r.id);
      if run != earlier {
        OneLease(was, earlier, run, own, r, contested);
        own := {|earlier|};
        LeaseRetained(|earlier|);
      }
    }

    lemma LeaseTriesStart(r: LeaseRequest, limits: LeaseLimits, config: Config, env: Environment)
      ensures LeaseTried(filesystem, r, limits, config, env, [])
    {
    }

    /** An operation retained after a prefix of the run is retained now. */
    lemma StillRetained(before: seq<Step>, id: OperationId)
      requires Valid() && before <= run
      ensures id in End(FRESH, before).operations ==> id in state.operations
    {
      hide Enabled, Next;
      if id in End(FRESH, before).operations {
        AtPrefix(FRESH, before, run[|before|..], |before|);
        assert run == before + run[|before|..];
        RetainedForever(run, |before|, |run|, id);
      }
    }

    lemma LeaseRetained(x: nat)
      requires Valid() && x < |run| && run[x].Lease?
      ensures run[x].operation.id in state.operations
    {
      hide Enabled, Next;
      assert Takes(FRESH, run, x);
      StoredAfter(At(FRESH, run, x), run[x]);
      RetainedForever(run, x + 1, |run|, run[x].operation.id);
    }

    lemma StillUnretained(before: seq<Step>, id: OperationId, contested: bool)
      requires Valid() && before <= run && Runs(FRESH, before)
      requires !contested ==> LeaseSilent(run, |before|, id)
      ensures !contested && id !in End(FRESH, before).operations ==> id !in state.operations
    {
      if !contested && id !in End(FRESH, before).operations {
        AtPrefix(FRESH, before, run[|before|..], |before|);
        assert run == before + run[|before|..];
        NeverRetained(|before|, |run|, id);
      }
    }

    lemma {:induction false} NeverRetained(m: nat, n: nat, id: OperationId)
      requires Valid() && m <= n <= |run| && LeaseSilent(run, m, id) && id !in At(FRESH, run, m).operations
      ensures id !in At(FRESH, run, n).operations
      decreases n
    {
      hide Enabled, Next;
      if m < n {
        NeverRetained(m, n - 1, id);
        if id in At(FRESH, run, n).operations {
          OperationsFrom(At(FRESH, run, n - 1), run[n - 1], id);
        }
      }
    }

    lemma UnretainedAnswer(o: LeaseOutcome, r: LeaseRequest)
      requires LeaseTells(o, state, r, filesystem) && r.id !in state.operations
      ensures o == LeaseRejected(HistoryFull) || o == LeaseRejected(InvalidDuration)
    {
    }
  }
}
