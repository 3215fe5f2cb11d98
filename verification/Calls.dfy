/** What one call of the store does: its outcomes, the failures around it, single
    transactions up to their COMMIT, and the log of its executions
    (crates/w9pt-fs-state-postgres/src/commit.rs:67-371,
    crates/w9pt-fs-state-postgres/src/lease.rs:279-495). */
module Calls {
  import opened Values
  import opened Records
  import opened Requests
  import opened Applying
  import opened Admission
  import opened Leases
  import opened Authority
  import opened Invariants
  import opened Ledger
  import opened LeaseReplay
  import opened EventOrder

  datatype Outcome =
    | Committed(revision: Revision, result: Bytes)
    | AlreadyCommitted(revision: Revision, result: Bytes)
    | MutationMismatch(why: Replay)
    | StaleFenceOutcome
    | ExpiredLeaseOutcome
    | ConflictOutcome(index: nat, kind: ConflictKind)
    | MalformedOutcome(error: Requests.Malformed)
    | AmbiguousOutcome

  /** What the database does to one transaction: it aborts, or its COMMIT is
      acknowledged, applied without acknowledgement, rolled back without, or still
      under way when the connection is lost. */
  datatype Fate = Acknowledged | LostApplied | LostRolledBack | LostPending | Aborts(retryable: bool)

  /** A COMMIT under way; where it lands it is one transaction like any other. */
  datatype Late =
    | LateCommit(request: Request, now: nat, depth: nat, limit: nat)
    | LateLease(operation: LeaseRequest, leaseNow: nat, limits: LeaseLimits)

  datatype Attempt = Settles(outcome: Outcome) | RolledBack(retryable: bool) | Unacknowledged

  datatype CallResult = Returned(outcome: Outcome) | Failed

  datatype ConfigValues = ConfigValues(definitive: nat, recovery: nat, depth: nat, limit: nat, keys: nat)

  const MAX_RETRIES: nat := 64

  /** What `PostgresStateConfig::new` accepts. */
  type Config = c: ConfigValues | c.definitive <= MAX_RETRIES && 0 < c.recovery <= MAX_RETRIES
                                  && 0 < c.keys <= SCHEMA_KEYS
    witness ConfigValues(0, 1, 0, 0, 1)

  /** What happens beside a call: a transaction of another client, or the landing of a
      COMMIT under way. */
  datatype Operation =
    | OtherCommit(request: Request, now: nat, depth: nat, limit: nat, fate: Fate)
    | OtherLease(operation: LeaseRequest, leaseNow: nat, limits: LeaseLimits, leaseFate: Fate)
    | Lands(position: nat)

  datatype Recovery = Resolved(outcome: Outcome) | Absent | Exhausted

  /** The environment of one call: for the n-th transaction its clock reading and
      fate, what others run before it, and which ledger probes fail. */
  datatype Environment = Environment(
    clock: nat -> nat, fate: nat -> Fate, others: nat -> seq<Operation>, probeFails: nat -> bool)

  /** The operation commits the mutation `id`. */
  predicate Carries(o: Operation, id: MutationId)
  {
    o.OtherCommit? && o.request.mutation.id == id
  }

  /** A commit of the mutation `id` is under way. */
  ghost predicate PendingCarries(pending: seq<Late>, id: MutationId)
  {
    exists p :: p in pending && p.LateCommit? && p.request.mutation.id == id
  }

  ghost predicate PendingSubmits(pending: seq<Late>, id: OperationId)
  {
    exists p :: p in pending && p.LateLease? && p.operation.id == id
  }

  ghost predicate MayLinger(env: Environment)
  {
    exists n :: env.fate(n).LostPending?
  }

  /** The mutation `id` may be applied by something else than a turn of the call: by
      another client, or by a COMMIT under way. */
  ghost predicate Contested(env: Environment, pending: seq<Late>, id: MutationId)
  {
    || (exists n, o :: o in env.others(n) && Carries(o, id))
    || PendingCarries(pending, id) || MayLinger(env)
  }

  /** No step from position `from` on commits the mutation `id`. */
  ghost predicate Silent(run: seq<Step>, from: nat, id: MutationId)
  {
    forall x | from <= x < |run| :: !Commits(run[x], id)
  }

  /** A lease operation under `id` may be applied by something else than a turn of the
      call. */
  ghost predicate LeaseContested(env: Environment, pending: seq<Late>, id: OperationId)
  {
    || (exists n, o :: o in env.others(n) && Submits(o, id))
    || PendingSubmits(pending, id) || MayLinger(env)
  }

  predicate Submits(o: Operation, id: OperationId)
  {
    o.OtherLease? && o.operation.id == id
  }

  /** No step from position `from` on is a lease operation under `id`. */
  ghost predicate LeaseSilent(run: seq<Step>, from: nat, id: OperationId)
  {
    forall x | from <= x < |run| :: !(run[x].Lease? && run[x].operation.id == id)
  }

  /** `own` are the positions of at most one transaction of `r` past `was`; unless others
      submit under its identity there is no further one. */
  ghost predicate LeaseAccount(was: seq<Step>, run: seq<Step>, own: set<nat>, r: LeaseRequest, contested: bool)
  {
    && was <= run && |own| <= 1
    && (forall x | x in own :: |was| <= x < |run| && run[x].Lease? && run[x].operation == r)
    && (!contested ==>
          forall x | |was| <= x < |run| && run[x].Lease? && run[x].operation.id == r.id :: x in own)
  }

  lemma LeaseAccountStarts(run: seq<Step>, r: LeaseRequest, contested: bool)
    ensures LeaseAccount(run, run, {}, r, contested)
  {
  }

  lemma OthersKeepLease(was: seq<Step>, before: seq<Step>, after: seq<Step>, own: set<nat>, r: LeaseRequest,
                        contested: bool)
    requires LeaseAccount(was, before, own, r, contested) && before <= after
    requires !contested ==> LeaseSilent(after, |before|, r.id)
    ensures LeaseAccount(was, after, own, r, contested)
  {
  }

  lemma OneLease(was: seq<Step>, before: seq<Step>, after: seq<Step>, own: set<nat>, r: LeaseRequest,
                 contested: bool)
    requires LeaseAccount(was, before, own, r, contested) && own == {}
    requires |after| == |before| + 1 && before <= after && after[|before|].Lease? && after[|before|].operation == r
    ensures LeaseAccount(was, after, {|before|}, r, contested)
  {
  }

  lemma StillLeaseSilent(before: seq<Step>, after: seq<Step>, from: nat, id: OperationId)
    requires before <= after
    ensures LeaseSilent(before, from, id) && LeaseSilent(after, |before|, id) ==> LeaseSilent(after, from, id)
  {
  }

  /** A rejection that settles the call without applying anything. */
  predicate Definite(o: Outcome)
  {
    o.StaleFenceOutcome? || o.ExpiredLeaseOutcome? || o.ConflictOutcome? || o.MalformedOutcome?
  }

  /** The ledger row of a mutation. */
  function RowOf(t: Table, id: MutationId): Option<Mutation>
  {
    var k := MutationKey(id);
    if k in t && t[k].MutationRecord? then Some(t[k].mutation) else None
  }

  function ReplayOutcome(c: MutationContext, row: Mutation): Outcome
  {
    var replay := Classify(c, row);
    if replay.ExactReplay? then AlreadyCommitted(replay.revision, replay.result) else MutationMismatch(replay)
  }

  /** What a returned outcome tells about the ledger. */
  ghost predicate Tells(o: Outcome, t: Table, c: MutationContext)
  {
    match o
    case Committed(revision, result) =>
      RowOf(t, c.id).Some? && Classify(c, RowOf(t, c.id).value) == ExactReplay(revision, result)
    case AlreadyCommitted(revision, result) =>
      RowOf(t, c.id).Some? && Classify(c, RowOf(t, c.id).value) == ExactReplay(revision, result)
    case MutationMismatch(why) =>
      RowOf(t, c.id).Some? && Classify(c, RowOf(t, c.id).value) == why && !why.ExactReplay?
    case AmbiguousOutcome => true
    case _ => MutationKey(c.id) !in t
  }

  lemma LedgerKeyHoldsRow(s: State, id: MutationId)
    requires Inv(s) && MutationKey(id) in s.table
    ensures s.table[MutationKey(id)].MutationRecord? && s.table[MutationKey(id)].mutation.id == id
  {
    hide Accounting.Accounted, LockTable.ConflictFree, ContentHistory.Matched, ConstraintsHold;
    assert Names(s.table[MutationKey(id)], MutationKey(id));
  }

  /** The ledger answers the mutation with `o`. */
  predicate Answered(s: State, c: MutationContext, o: Outcome)
  {
    RowOf(s.table, c.id).Some? && o == ReplayOutcome(c, RowOf(s.table, c.id).value)
  }

  /** `probe_ledger`. */
  method ProbeLedger(s: State, c: MutationContext) returns (found: Option<Outcome>)
    requires Inv(s)
    ensures found.None? <==> MutationKey(c.id) !in s.table
    ensures found.Some? ==> Tells(found.value, s.table, c) && !Definite(found.value)
    ensures found.Some? ==> !found.value.Committed? && !found.value.AmbiguousOutcome?
    ensures found.Some? ==> Answered(s, c, found.value)
  {
    hide Inv;
    if MutationKey(c.id) !in s.table {
      return None;
    }
    LedgerKeyHoldsRow(s, c.id);
    return Some(ReplayOutcome(c, s.table[MutationKey(c.id)].mutation));
  }

  /** What one transaction is about to do. */
  datatype Plan = Answer(outcome: Outcome) | Give(retryable: bool) | Ready(step: Step)

  lemma InvWellKeyed(s: State)
    requires Inv(s)
    ensures WellKeyed(s.table)
  {
    hide Accounting.Accounted, LockTable.ConflictFree, ContentHistory.Matched, ConstraintsHold;
  }

  ghost predicate Inadmissible(t: Table, q: Request, revision: Revision, depth: nat)
  {
    forall files :: !Admitted(t, q, revision, depth, files)
  }

  /** Some check of the transaction fails. */
  ghost predicate Blocks(s: State, q: Request, now: nat, depth: nat)
  {
    || MutationKey(q.mutation.id) in s.table
    || !ValidateFence(q.fence, LeaseAt(s.table, q.fence.scope), now).Current?
    || CheckedNext(s.current).None?
    || Inadmissible(s.table, q, s.current + 1, depth)
  }

  lemma BlockedCommit(s: State, q: Request, now: nat, depth: nat, limit: nat)
    requires Blocks(s, q, now, depth)
    ensures forall files, keys :: !Enabled(s, Commit(q, now, depth, limit, files, keys))
  {
    hide Admitted, EventKeys;
  }

  lemma ReadyCommit(s: State, q: Request, now: nat, depth: nat, limit: nat, files: Table, keys: seq<Key>)
    requires MutationKey(q.mutation.id) !in s.table
    requires ValidateFence(q.fence, LeaseAt(s.table, q.fence.scope), now).Current? && CheckedNext(s.current).Some?
    requires Admitted(s.table, q, s.current + 1, depth, files) && EventKeys(q, keys) && |keys| <= SCHEMA_KEYS
    ensures Enabled(s, Commit(q, now, depth, limit, files, keys))
  {
    hide Admitted, EventKeys;
  }

  lemma AbsentTells(s: State, c: MutationContext)
    requires MutationKey(c.id) !in s.table
    ensures forall o: Outcome | Definite(o) :: Tells(o, s.table, c)
  {
  }

  /** The request could commit in this state. */
  ghost predicate CanCommit(s: State, q: Request, now: nat, depth: nat, limit: nat)
  {
    exists files, keys :: Enabled(s, Commit(q, now, depth, limit, files, keys))
  }

  /** The end of an execution whose request cannot commit, check by check: the ledger
      answers; the presented fence is not the stored one, or it is and its deadline has
      passed; the revisions are used up; or the body refuses. */
  ghost predicate Refuses(s: State, q: Request, now: nat, depth: nat, a: Attempt)
  {
    var lease := LeaseAt(s.table, q.fence.scope);
    if MutationKey(q.mutation.id) in s.table then a.Settles? && Answered(s, q.mutation, a.outcome)
    else if !exists l :: lease == Some(l) && FenceOf(l) == q.fence then a == Settles(StaleFenceOutcome)
    else if lease.value.deadline <= now then a == Settles(ExpiredLeaseOutcome)
    else if s.current >= U64_MAX then a == RolledBack(false)
    else
      match a
      case Settles(ConflictOutcome(index, kind)) =>
        Judges(s.table, q, s.current + 1, depth, Conflicting(index, kind))
      case Settles(MalformedOutcome(error)) => Judges(s.table, q, s.current + 1, depth, Verdict.Malformed(error))
      case RolledBack(retryable) => Judges(s.table, q, s.current + 1, depth, Aborted(retryable))
      case _ => false
  }

  /** How one execution ends, from the state it starts in and its fate. */
  ghost predicate Executes(s: State, q: Request, now: nat, depth: nat, limit: nat, fate: Fate, a: Attempt)
  {
    if fate.Aborts? then a == RolledBack(fate.retryable)
    else if CanCommit(s, q, now, depth, limit)
      then a == if fate.Acknowledged? then Settles(Committed(s.current + 1, q.result)) else Unacknowledged
    else Refuses(s, q, now, depth, a)
  }

  function Ends(p: Plan): Attempt
    requires !p.Ready?
  {
    if p.Answer? then Settles(p.outcome) else RolledBack(p.retryable)
  }

  /** The fence check decides as the stored lease says. */
  lemma FenceDecides(s: State, q: Request, now: nat)
    ensures var lease := LeaseAt(s.table, q.fence.scope);
            match ValidateFence(q.fence, lease, now)
            case Stale => !exists l :: lease == Some(l) && FenceOf(l) == q.fence
            case Expired => lease.Some? && FenceOf(lease.value) == q.fence && lease.value.deadline <= now
            case Current => lease.Some? && FenceOf(lease.value) == q.fence && now < lease.value.deadline
  {
    FenceIsExact(q.fence, LeaseAt(s.table, q.fence.scope), now);
  }

  /** `execute_once` up to its COMMIT: either a step that may be taken, or an answer;
      a definite answer means no such step exists. */
  method PlanCommit(s: State, q: Request, now: nat, depth: nat, limit: nat) returns (p: Plan)
    requires Inv(s) && PreflightOk(q) && KeysWithin(q, SCHEMA_KEYS)
    ensures p.Ready? ==> Enabled(s, p.step) && p.step.Commit? && p.step.request == q
    ensures p.Ready? ==> p.step.now == now && p.step.depth == depth && p.step.limit == limit
    ensures p.Answer? ==> Tells(p.outcome, s.table, q.mutation)
    ensures p.Answer? ==> !p.outcome.AmbiguousOutcome? && !p.outcome.Committed?
    ensures !p.Ready? ==> forall files, keys :: !Enabled(s, Commit(q, now, depth, limit, files, keys))
    ensures !p.Ready? ==> Refuses(s, q, now, depth, Ends(p))
  {
    hide Inv, Admitted, PreflightOk, EventKeys, Enabled, Tells, Claimed, Judges, ValidateFence, Answered;
    FenceDecides(s, q, now);
    if Blocks(s, q, now, depth) {
      BlockedCommit(s, q, now, depth, limit);
    }
    var found := ProbeLedger(s, q.mutation);
    if found.Some? {
      return Answer(found.value);
    }
    AbsentTells(s, q.mutation);
    var validation := ValidateFence(q.fence, LeaseAt(s.table, q.fence.scope), now);
    if validation.Stale? {
      return Answer(StaleFenceOutcome);
    }
    if validation.Expired? {
      return Answer(ExpiredLeaseOutcome);
    }
    if CheckedNext(s.current).None? {
      return Give(false);
    }
    InvWellKeyed(s);
    var verdict := Evaluate(s.table, q, s.current + 1, depth);
    match verdict
    case Malformed(error) => return Answer(MalformedOutcome(error));
    case Conflicting(index, kind) => return Answer(ConflictOutcome(index, kind));
    case Aborted(recheck) => return Give(recheck);
    case Accepted(files) =>
      var keys := ChangedKeys(q);
      assert Enabled(s, Commit(q, now, depth, limit, files, keys)) by {
        ReadyCommit(s, q, now, depth, limit, files, keys);
      }
      return Ready(Commit(q, now, depth, limit, files, keys));
  }

  lemma CommitTells(s: State, step: Step)
    requires Inv(s) && step.Commit? && Enabled(s, step)
    ensures Tells(Committed(s.current + 1, step.request.result), Next(s, step).table, step.request.mutation)
  {
    hide Inv, Enabled, Next;
    StepLedgerRow(s, step, step.request.mutation.id);
  }

  /** `after` is `before` followed by one commit of `q`. */
  ghost predicate AppendsCommit(before: seq<Step>, q: Request, after: seq<Step>)
  {
    && |after| == |before| + 1 && before <= after
    && after[|before|].Commit? && after[|before|].request == q
  }

  /** `own` are the positions of at most one commit of `q` past `was`; unless others
      commit the same mutation there is no further one. */
  ghost predicate Account(was: seq<Step>, run: seq<Step>, own: set<nat>, q: Request, contested: bool)
  {
    && was <= run && |own| <= 1
    && (forall x | x in own :: |was| <= x < |run| && run[x].Commit? && run[x].request == q)
    && (!contested ==> forall x | |was| <= x < |run| && Commits(run[x], q.mutation.id) :: x in own)
  }

  lemma Uncontested(env: Environment, pending: seq<Late>, id: MutationId, n: nat)
    requires !Contested(env, pending, id)
    ensures (forall o | o in env.others(n) :: !Carries(o, id)) && !PendingCarries(pending, id)
    ensures !env.fate(n).LostPending?
  {
  }

  lemma StillUncontested(env: Environment, before: seq<Late>, after: seq<Late>, id: MutationId)
    requires !Contested(env, before, id) && !PendingCarries(after, id)
    ensures !Contested(env, after, id)
  {
  }

  ghost predicate OneCommit(run: seq<Step>, id: MutationId)
  {
    forall x, y | 0 <= x < y < |run| :: !(Commits(run[x], id) && Commits(run[y], id))
  }

  lemma WiderKeys(q: Request, maxKeys: nat)
    requires KeysWithin(q, maxKeys) && maxKeys <= SCHEMA_KEYS
    ensures KeysWithin(q, SCHEMA_KEYS)
  {
  }

  lemma AccountStarts(run: seq<Step>, q: Request, contested: bool)
    ensures Account(run, run, {}, q, contested)
  {
  }

  lemma OthersKeepAccount(was: seq<Step>, before: seq<Step>, after: seq<Step>, own: set<nat>, q: Request,
                          contested: bool)
    requires Account(was, before, own, q, contested) && before <= after
    requires !contested ==> Silent(after, |before|, q.mutation.id)
    ensures Account(was, after, own, q, contested)
  {
  }

  lemma CommitAccount(was: seq<Step>, before: seq<Step>, after: seq<Step>, q: Request, contested: bool)
    requires Account(was, before, {}, q, contested) && AppendsCommit(before, q, after)
    ensures Account(was, after, {|before|}, q, contested)
  {
  }

  lemma NothingOwned(was: seq<Step>, run: seq<Step>, own: set<nat>, q: Request, contested: bool)
    requires Account(was, run, own, q, contested) && Silent(run, 0, q.mutation.id)
    ensures own == {}
  {
  }

  lemma StillSilent(before: seq<Step>, after: seq<Step>, from: nat, id: MutationId)
    requires before <= after
    ensures Silent(before, from, id) && Silent(after, |before|, id) ==> Silent(after, from, id)
  {
  }

  // ------------------------------------------------------------ the retry loop

  /** One execution of a call: the state it started in, the executions rolled back and
      the recovery probes used before it, and its end. */
  datatype Try = Try(state: State, definitive: nat, probes: nat, attempt: Attempt)

  /** What a call saw: the state of its first probe, and its executions. */
  datatype CallLog = CallLog(start: State, tries: seq<Try>)

  predicate ProbeFails(env: Environment, tick: nat, n: nat)
  {
    env.probeFails(tick + n)
  }

  /** Of the probes after the `used` first ones, number `attempts` is the first to
      answer. */
  ghost predicate Probed(env: Environment, tick: nat, used: nat, attempts: nat)
  {
    && used < attempts && !ProbeFails(env, tick, attempts)
    && forall n | used < n < attempts :: ProbeFails(env, tick, n)
  }

  /** None of the probes after the `used` first ones answers. */
  ghost predicate Unanswered(env: Environment, tick: nat, used: nat, maximum: nat)
  {
    forall n | used < n <= maximum :: ProbeFails(env, tick, n)
  }

  ghost predicate Answers(env: Environment, tick: nat, used: nat, maximum: nat)
  {
    exists n: nat :: n <= maximum && Probed(env, tick, used, n)
  }

  /** The tick of execution `x`. */
  function TickOf(x: nat, try: Try): nat
  {
    x + try.probes + 1
  }

  /** Execution `x` of the call is one transaction at its tick. */
  ghost predicate Executed(q: Request, config: Config, env: Environment, x: nat, try: Try)
  {
    var tick := TickOf(x, try);
    && try.definitive <= config.definitive && try.probes <= config.recovery
    && Executes(try.state, q, env.clock(tick), config.depth, config.limit, env.fate(tick), try.attempt)
  }

  /** Execution `x` is followed by another one: it was rolled back for a retryable
      reason, or lost and then found absent from the ledger. */
  ghost predicate Continues(env: Environment, x: nat, try: Try, next: Try)
  {
    match try.attempt
    case Settles(_) => false
    case RolledBack(retryable) => retryable && next.definitive == try.definitive + 1 && next.probes == try.probes
    case Unacknowledged =>
      next.definitive == try.definitive && Probed(env, TickOf(x, try), try.probes, next.probes)
  }

  /** The executions of one call, each following from the one before. */
  ghost predicate Tried(q: Request, config: Config, env: Environment, tries: seq<Try>)
  {
    && (tries != [] ==> tries[0].definitive == 0 && tries[0].probes == 0)
    && (forall x | 0 <= x < |tries| :: Executed(q, config, env, x, tries[x]))
    && (forall x, y | 0 <= x && y == x + 1 && y < |tries| :: Continues(env, x, tries[x], tries[y]))
  }

  /** Why the call ends with its last execution: it settled; it was rolled back, and not
      retryably or once too often; or it was lost and the probes answer or are used up. */
  ghost predicate Concludes(config: Config, env: Environment, tries: seq<Try>, r: CallResult)
  {
    tries != [] &&
    var x := |tries| - 1;
    var last := tries[x];
    match last.attempt
    case Settles(outcome) => r == Returned(outcome)
    case RolledBack(retryable) => r == Failed && (retryable ==> last.definitive == config.definitive)
    case Unacknowledged =>
      && r.Returned?
      && if r.outcome.AmbiguousOutcome?
         then Unanswered(env, TickOf(x, last), last.probes, config.recovery)
         else !Definite(r.outcome) && !r.outcome.Committed?
              && Answers(env, TickOf(x, last), last.probes, config.recovery)
  }

  /** A call from its first probe to its result. */
  ghost predicate Proceeds(q: Request, config: Config, env: Environment, log: CallLog, r: CallResult)
  {
    if env.probeFails(0) then log.tries == [] && r == Failed
    else if MutationKey(q.mutation.id) in log.start.table
      then log.tries == [] && r.Returned? && Answered(log.start, q.mutation, r.outcome)
    else if !(PreflightOk(q) && KeysWithin(q, config.keys))
      then log.tries == [] && r.Returned? && r.outcome.MalformedOutcome?
    else Tried(q, config, env, log.tries) && Concludes(config, env, log.tries, r)
  }

  function Rollbacks(tries: seq<Try>): nat
  {
    if tries == [] then 0
    else Rollbacks(tries[..|tries| - 1]) + if tries[|tries| - 1].attempt.RolledBack? then 1 else 0
  }

  lemma {:induction false} RollbacksCounted(q: Request, config: Config, env: Environment, tries: seq<Try>, n: nat)
    requires Tried(q, config, env, tries) && n < |tries|
    ensures tries[n].definitive == Rollbacks(tries[..n])
    decreases n
  {
    hide Executed, Probed;
    if n > 0 {
      RollbacksCounted(q, config, env, tries, n - 1);
      assert tries[..n][..n - 1] == tries[..n - 1];
      assert Continues(env, n - 1, tries[n - 1], tries[n]);
    }
  }

  /** A call fails only when its first probe fails, when its last execution was rolled
      back for a reason not worth a retry, or when one execution more than the configured
      retries was rolled back; and it stays ambiguous only when every probe left after a
      lost execution failed, down to the last configured one. */
  lemma WhyGivenUp(q: Request, config: Config, env: Environment, log: CallLog, r: CallResult)
    requires Proceeds(q, config, env, log, r)
    ensures r.Failed? ==>
      || env.probeFails(0)
      || (&& log.tries != [] && log.tries[|log.tries| - 1].attempt.RolledBack?
          && (!log.tries[|log.tries| - 1].attempt.retryable || Rollbacks(log.tries) == config.definitive + 1))
    ensures r == Returned(AmbiguousOutcome) ==>
      && log.tries != []
      && var x := |log.tries| - 1;
         && log.tries[x].attempt.Unacknowledged?
         && Unanswered(env, TickOf(x, log.tries[x]), log.tries[x].probes, config.recovery)
  {
    hide Executed, Executes, Continues, Unanswered, Answers, KeysWithin, PreflightOk;
    if log.tries != [] && Tried(q, config, env, log.tries) {
      var x := |log.tries| - 1;
      RollbacksCounted(q, config, env, log.tries, x);
      SettlesKnown(q, config, env, log.tries, x);
    }
  }

  lemma SettlesKnown(q: Request, config: Config, env: Environment, tries: seq<Try>, x: nat)
    requires Tried(q, config, env, tries) && x < |tries|
    ensures tries[x].attempt.Settles? ==> !tries[x].attempt.outcome.AmbiguousOutcome?
  {
    hide Judges, Continues, CanCommit;
    assert Executed(q, config, env, x, tries[x]);
  }

  /** What is known of execution `x`, and that it is the last if it settles. */
  lemma TriesAre(q: Request, config: Config, env: Environment, tries: seq<Try>, x: nat)
    requires Tried(q, config, env, tries) && x < |tries|
    ensures Executed(q, config, env, x, tries[x])
    ensures x + 1 < |tries| ==> Continues(env, x, tries[x], tries[x + 1])
    ensures tries[x].attempt.Settles? ==> |tries| == x + 1
  {
    hide Executed;
    if x + 1 < |tries| {
      assert Continues(env, x, tries[x], tries[x + 1]);
    }
  }

  /** While its transactions abort retryably and the budget lasts, the call executes
      again at the next tick. */
  lemma {:induction false} AbortsAreRetried(q: Request, config: Config, env: Environment, tries: seq<Try>,
                                            r: CallResult, k: nat)
    requires Tried(q, config, env, tries) && Concludes(config, env, tries, r)
    requires k <= config.definitive && forall n | 1 <= n <= k :: env.fate(n) == Aborts(true)
    ensures k < |tries| && tries[k].definitive == k && tries[k].probes == 0
    decreases k
  {
    hide Refuses, CanCommit;
    if k > 0 {
      AbortsAreRetried(q, config, env, tries, r, k - 1);
      assert Executed(q, config, env, k - 1, tries[k - 1]);
      assert env.fate(k) == Aborts(true);
      if k < |tries| {
        assert Continues(env, k - 1, tries[k - 1], tries[k]);
      }
    }
  }

  /** An execution that is acknowledged where the request can commit ends the call with
      the commit at the next revision. */
  lemma AcknowledgedCommits(q: Request, config: Config, env: Environment, tries: seq<Try>, r: CallResult, x: nat)
    requires Tried(q, config, env, tries) && Concludes(config, env, tries, r) && x < |tries|
    requires var tick := TickOf(x, tries[x]);
             env.fate(tick).Acknowledged? && CanCommit(tries[x].state, q, env.clock(tick), config.depth, config.limit)
    ensures r == Returned(Committed(tries[x].state.current + 1, q.result)) && |tries| == x + 1
  {
    hide Refuses, CanCommit, Tried;
    TriesAre(q, config, env, tries, x);
  }

  /** Progress: a well-formed request not in the ledger whose first `k` transactions
      abort retryably, within the budget, and whose next one is acknowledged where it can
      commit, is reported as committed. */
  lemma CommitProgress(q: Request, config: Config, env: Environment, log: CallLog, r: CallResult, k: nat)
    requires Proceeds(q, config, env, log, r) && !env.probeFails(0) && MutationKey(q.mutation.id) !in log.start.table
    requires PreflightOk(q) && KeysWithin(q, config.keys)
    requires k <= config.definitive && forall n | 1 <= n <= k :: env.fate(n) == Aborts(true)
    requires env.fate(k + 1).Acknowledged?
    ensures k < |log.tries|
    ensures CanCommit(log.tries[k].state, q, env.clock(k + 1), config.depth, config.limit) ==>
      r == Returned(Committed(log.tries[k].state.current + 1, q.result))
  {
    hide Tried, Concludes, PreflightOk, KeysWithin, CanCommit;
    AbortsAreRetried(q, config, env, log.tries, r, k);
    if CanCommit(log.tries[k].state, q, env.clock(k + 1), config.depth, config.limit) {
      AcknowledgedCommits(q, config, env, log.tries, r, k);
    }
  }

  lemma TriesStart(q: Request, config: Config, env: Environment)
    ensures Tried(q, config, env, [])
  {
  }

  lemma TriesGrow(q: Request, config: Config, env: Environment, tries: seq<Try>, next: Try)
    requires Tried(q, config, env, tries) && Executed(q, config, env, |tries|, next)
    requires if tries == [] then next.definitive == 0 && next.probes == 0
             else Continues(env, |tries| - 1, tries[|tries| - 1], next)
    ensures Tried(q, config, env, tries + [next])
  {
    hide Executed, Continues;
    var all := tries + [next];
    forall x, y | 0 <= x && y == x + 1 && y < |all| ensures Continues(env, x, all[x], all[y]) {
      if y < |tries| {
        assert Continues(env, x, tries[x], tries[y]);
      }
    }
  }

  // ----------------------------------------------------------------- leases

  datatype LeaseAttempt = LeaseSettles(outcome: LeaseOutcome) | LeaseRolledBack(retryable: bool) | LeaseUnacknowledged

  datatype LeasePlan = LeaseAnswer(outcome: LeaseOutcome) | LeaseGives | LeaseFault | LeaseReady(step: Step)

  datatype LeaseLimits = LeaseLimits(maxDuration: nat, capacity: nat, history: nat)

  predicate TooLong(r: LeaseRequest, maximum: nat)
  {
    !r.Release? && r.duration > maximum
  }

  /** What an outcome tells about the operation ledger: it is retained and replays
      as reported, or it was turned away before evaluation and is not retained. */
  ghost predicate LeaseTells(o: LeaseOutcome, s: State, r: LeaseRequest, filesystem: nat)
  {
    if r.id in s.operations then Replayed(r, filesystem, s.operations[r.id]) == Some(Leases.Settled(o))
    else o == LeaseRejected(HistoryFull) || o == LeaseRejected(InvalidDuration)
  }

  ghost predicate OperationsShaped(s: State)
  {
    forall id | id in s.operations :: ShapeOk(s.operations[id])
  }

  /** A first success, which no replay and no rejection reports. */
  predicate First(o: LeaseOutcome)
  {
    o.Granted? || o.Renewed? || o.Released?
  }

  /** The operation is evaluated: not retained, not too long, and there is room. */
  predicate Evaluates(s: State, r: LeaseRequest, limits: LeaseLimits)
  {
    r.id !in s.operations && (r.Release? || r.duration <= limits.maxDuration) && |s.operations| < limits.capacity
  }

  /** The one outcome a lease transaction can report in state `s`: a retained operation
      is replayed, an excessive or surplus one rejected unseen, any other decided. */
  predicate LeaseReports(s: State, filesystem: nat, r: LeaseRequest, now: nat, limits: LeaseLimits, o: LeaseOutcome)
  {
    if r.id in s.operations then Replayed(r, filesystem, s.operations[r.id]) == Some(o) && !First(o)
    else if !r.Release? && r.duration > limits.maxDuration then o == LeaseRejected(InvalidDuration)
    else if |s.operations| >= limits.capacity then o == LeaseRejected(HistoryFull)
    else o == OutcomeOf(r, DecisionAt(s, r, now)) && (First(o) <==> !DecisionAt(s, r, now).Refuse?)
  }

  /** How one lease transaction ends, from the state it starts in and its fate. */
  ghost predicate LeaseExecutes(s: State, filesystem: nat, r: LeaseRequest, now: nat, limits: LeaseLimits, fate: Fate,
                                a: LeaseAttempt)
  {
    if fate.Aborts? then a == LeaseRolledBack(fate.retryable)
    else if Evaluates(s, r, limits) && !Enabled(s, Lease(r, filesystem, now, limits.history))
      then a == LeaseRolledBack(false)
    else if fate.Acknowledged? then a.LeaseSettles? && LeaseReports(s, filesystem, r, now, limits, a.outcome)
    else a == LeaseUnacknowledged
  }

  lemma ReplayIsNotFirst(r: LeaseRequest, filesystem: nat, stored: StoredOperation)
    requires Replayed(r, filesystem, stored).Some?
    ensures !First(Replayed(r, filesystem, stored).value)
  {
    hide Fingerprint;
  }

  lemma DecidedFirst(s: State, r: LeaseRequest, now: nat)
    ensures First(OutcomeOf(r, DecisionAt(s, r, now))) <==> !DecisionAt(s, r, now).Refuse?
  {
    hide DecisionAt;
  }

  lemma DecidedReports(s: State, filesystem: nat, r: LeaseRequest, now: nat, limits: LeaseLimits)
    requires Evaluates(s, r, limits)
    ensures LeaseReports(s, filesystem, r, now, limits, OutcomeOf(r, DecisionAt(s, r, now)))
  {
    hide DecisionAt, OutcomeOf;
    DecidedFirst(s, r, now);
  }

  lemma NotEvaluatedFirst(s: State, filesystem: nat, r: LeaseRequest, now: nat, limits: LeaseLimits, o: LeaseOutcome)
    requires !Evaluates(s, r, limits) && LeaseReports(s, filesystem, r, now, limits, o)
    ensures !First(o)
  {
    hide DecisionAt, OutcomeOf, Replayed;
  }

  // ------------------------------------------------------ the lease retry loop

  datatype LeaseTry = LeaseTry(state: State, definitive: nat, recovery: nat, attempt: LeaseAttempt)

  ghost predicate LeaseExecuted(filesystem: nat, r: LeaseRequest, limits: LeaseLimits, config: Config, env: Environment,
                                x: nat, try: LeaseTry)
  {
    && try.definitive <= config.definitive && try.recovery <= config.recovery && x == try.definitive + try.recovery
    && LeaseExecutes(try.state, filesystem, r, env.clock(x), limits, env.fate(x), try.attempt)
  }

  /** The attempt is followed by another one. */
  predicate LeaseContinues(try: LeaseTry, next: LeaseTry)
  {
    match try.attempt
    case LeaseSettles(_) => false
    case LeaseRolledBack(retryable) =>
      retryable && next.definitive == try.definitive + 1 && next.recovery == try.recovery
    case LeaseUnacknowledged => next.definitive == try.definitive && next.recovery == try.recovery + 1
  }

  /** The executions of one lease call: `definitive` and `recovery` count those rolled
      back and those lost before. */
  ghost predicate LeaseTried(filesystem: nat, r: LeaseRequest, limits: LeaseLimits, config: Config, env: Environment,
                             tries: seq<LeaseTry>)
  {
    && (tries != [] ==> tries[0].definitive == 0 && tries[0].recovery == 0)
    && (forall x | 0 <= x < |tries| :: LeaseExecuted(filesystem, r, limits, config, env, x, tries[x]))
    && (forall x, y | 0 <= x && y == x + 1 && y < |tries| :: LeaseContinues(tries[x], tries[y]))
  }

  /** The call answers what its last execution settled; it gives up when that was rolled
      back not retryably, or when one of the two budgets is used up. */
  predicate LeaseConcludes(config: Config, tries: seq<LeaseTry>, outcome: Option<LeaseOutcome>)
  {
    tries != [] &&
    var last := tries[|tries| - 1];
    match last.attempt
    case LeaseSettles(o) => outcome == Some(o)
    case LeaseRolledBack(retryable) => outcome == None && (retryable ==> last.definitive == config.definitive)
    case LeaseUnacknowledged => outcome == None && last.recovery == config.recovery
  }

  lemma LeaseTriesGrow(filesystem: nat, r: LeaseRequest, limits: LeaseLimits, config: Config, env: Environment,
                       tries: seq<LeaseTry>, next: LeaseTry)
    requires LeaseTried(filesystem, r, limits, config, env, tries)
    requires LeaseExecuted(filesystem, r, limits, config, env, |tries|, next)
    requires if tries == [] then next.definitive == 0 && next.recovery == 0
             else LeaseContinues(tries[|tries| - 1], next)
    ensures LeaseTried(filesystem, r, limits, config, env, tries + [next])
  {
    hide LeaseExecuted, LeaseContinues;
    var all := tries + [next];
    forall x, y | 0 <= x && y == x + 1 && y < |all| ensures LeaseContinues(all[x], all[y]) {
      if y < |tries| {
        assert LeaseContinues(tries[x], tries[y]);
      }
    }
  }

  /** Progress: retryable aborts within the budget are retried, and an acknowledged
      execution ends the call with what its state reports. */
  lemma {:induction false} LeaseProgress(filesystem: nat, r: LeaseRequest, limits: LeaseLimits, config: Config,
                                         env: Environment, tries: seq<LeaseTry>, outcome: Option<LeaseOutcome>, k: nat)
    requires LeaseTried(filesystem, r, limits, config, env, tries) && LeaseConcludes(config, tries, outcome)
    requires k <= config.definitive && forall n | 0 <= n < k :: env.fate(n) == Aborts(true)
    ensures k < |tries| && tries[k].definitive == k
    ensures env.fate(k).Acknowledged?
            && (Evaluates(tries[k].state, r, limits)
                ==> Enabled(tries[k].state, Lease(r, filesystem, env.clock(k), limits.history))) ==>
      outcome.Some? && LeaseReports(tries[k].state, filesystem, r, env.clock(k), limits, outcome.value)
    decreases k
  {
    hide LeaseReports, Enabled;
    if k > 0 {
      LeaseProgress(filesystem, r, limits, config, env, tries, outcome, k - 1);
      assert LeaseExecuted(filesystem, r, limits, config, env, k - 1, tries[k - 1]);
      assert env.fate(k - 1) == Aborts(true);
      if k < |tries| {
        assert LeaseContinues(tries[k - 1], tries[k]);
      }
    }
    assert LeaseExecuted(filesystem, r, limits, config, env, k, tries[k]);
    if k + 1 < |tries| {
      assert LeaseContinues(tries[k], tries[k + 1]);
    }
  }

  /** The lease `execute_once` up to its COMMIT. */
  method PlanLease(s: State, r: LeaseRequest, filesystem: nat, now: nat, limits: LeaseLimits)
    returns (p: LeasePlan)
    requires OperationsShaped(s)
    ensures p.LeaseReady? <==> Evaluates(s, r, limits) && Enabled(s, Lease(r, filesystem, now, limits.history))
    ensures p.LeaseReady? ==> p.step == Lease(r, filesystem, now, limits.history)
    ensures p.LeaseAnswer? <==> !Evaluates(s, r, limits)
    ensures p.LeaseAnswer? ==> LeaseTells(p.outcome, s, r, filesystem)
    ensures p.LeaseAnswer? ==> LeaseReports(s, filesystem, r, now, limits, p.outcome)
    ensures !p.LeaseFault?
    ensures p.LeaseGives? ==> CheckedNext(s.current).None?
  {
    hide Replayed, Decide, Stage;
    if r.id in s.operations {
      ShapeReplays(r, filesystem, s.operations[r.id]);
      ReplayIsSettled(r, filesystem, s.operations[r.id]);
      ReplayIsNotFirst(r, filesystem, s.operations[r.id]);
      return LeaseAnswer(Replayed(r, filesystem, s.operations[r.id]).value);
    }
    if TooLong(r, limits.maxDuration) {
      return LeaseAnswer(LeaseRejected(InvalidDuration));
    }
    if |s.operations| >= limits.capacity {
      return LeaseAnswer(LeaseRejected(HistoryFull));
    }
    var scope := ScopeOf(r);
    var greatest := if scope in s.tokens then Some(s.tokens[scope]) else None;
    var staged := Stage(r, LeaseAt(s.table, scope), greatest, now, s.current);
    StagedOnce(r, LeaseAt(s.table, scope), greatest, now, s.current);
    match staged
    case RevisionExhausted => return LeaseGives;
    case OutcomeChanged => return LeaseFault;
    case Stages(_) => return LeaseReady(Lease(r, filesystem, now, limits.history));
  }

  lemma ReplayIsSettled(r: LeaseRequest, filesystem: nat, stored: StoredOperation)
    requires Replayed(r, filesystem, stored).Some?
    ensures Leases.Settled(Replayed(r, filesystem, stored).value) == Replayed(r, filesystem, stored).value
  {
    hide Fingerprint;
  }

  lemma LeaseStepTells(s: State, step: Step)
    requires step.Lease? && Enabled(s, step)
    ensures LeaseTells(OutcomeOf(step.operation, DecisionAt(s, step.operation, step.leaseNow)),
                       Next(s, step), step.operation, step.filesystem)
  {
    hide Next, Enabled, Decide, Replayed, Retained, Leases.Store;
    StoredAfter(s, step);
  }
}
