/** The state of one filesystem authority and its two kinds of transaction:
    commits and lease operations, each publishing at one new revision
    (crates/w9pt-fs-state-postgres/src/commit.rs `execute_once`, `publish_change`;
    crates/w9pt-fs-state-postgres/src/lease.rs `execute_once`, `publish_lease_revision`). */
module Authority {
  import opened Values
  import opened Records
  import opened Requests
  import opened Effects
  import opened Admission
  import opened Leases

  datatype Origin = FromMutation(mutation: MutationId) | FromLease(operation: OperationId)

  /** One row of the change log. */
  datatype CommitRow = CommitRow(origin: Origin, keyCount: nat)

  /** `table` holds every readable record: active leases sit under their lease key,
      ledger rows under their mutation key. `tokens` is the greatest-token column of
      the fence rows; a released scope keeps its row. */
  datatype State = State(
    table: Table, tokens: map<ScopeId, nat>, operations: map<OperationId, StoredOperation>,
    commits: map<Revision, CommitRow>, keys: map<Revision, seq<Key>>,
    current: Revision, oldest: Revision)

  const FRESH := State(map[], map[], map[], map[], map[], 1, 1)

  // ------------------------------------------------------------ change log

  function Oldest(revision: Revision, limit: nat): (r: nat)
  {
    if revision <= limit + 1 then 1 else revision - limit
  }

  function Larger(a: nat, b: nat): (r: nat)
    ensures r >= a && r >= b && (r == a || r == b)
  {
    if a < b then b else a
  }

  /** Appends one event and compacts: rows up to the computed bound are deleted. */
  function Publish(s: State, origin: Origin, keys: seq<Key>, limit: nat): State
  {
    var revision := s.current + 1;
    var bound := Oldest(revision, limit);
    var commits := s.commits[revision := CommitRow(origin, |keys|)];
    var rows := s.keys[revision := keys];
    s.(commits := map r | r in commits && r > bound :: commits[r],
       keys := map r | r in rows && r > bound :: rows[r],
       current := revision,
       oldest := Larger(s.oldest, bound))
  }

  // -------------------------------------------------------------- commits

  function LeaseAt(t: Table, scope: ScopeId): Option<WriterLease>
  {
    var k := WriterLeaseKey(scope);
    if k in t && t[k].WriterLeaseRecord? then Some(t[k].lease) else None
  }

  function LedgerRow(q: Request, revision: Revision): Mutation
  {
    Mutation(q.mutation.id, q.mutation.fingerprint, q.mutation.client, q.fence.scope, q.fence.holder,
             q.fence.token, q.result, revision, q.mutation.retention, revision)
  }

  ghost predicate Canonical(keys: seq<Key>)
  {
    forall x, y | 0 <= x < y < |keys| :: KeyLess(keys[x], keys[y])
  }

  /** The sorted event keys: everything the changes declare, and the ledger row. */
  ghost predicate EventKeys(q: Request, keys: seq<Key>)
  {
    && Canonical(keys)
    && (forall k :: k in keys <==> Touched(q.changes, k) || k == MutationKey(q.mutation.id))
  }

  /** The CHECK on the key count of a logged event; no configured limit exceeds it. */
  const SCHEMA_KEYS: nat := 16385

  datatype Step =
    | Commit(request: Request, now: nat, depth: nat, limit: nat, files: Table, keys: seq<Key>)
    | Lease(operation: LeaseRequest, filesystem: nat, leaseNow: nat, leaseLimit: nat)

  function DecisionAt(s: State, r: LeaseRequest, now: nat): Decision
  {
    var scope := ScopeOf(r);
    Decide(r, LeaseAt(s.table, scope), if scope in s.tokens then Some(s.tokens[scope]) else None, now,
           s.current + 1)
  }

  /** A transaction that commits in state `s`. */
  ghost predicate Enabled(s: State, step: Step)
  {
    match step
    case Commit(q, now, depth, _, files, keys) =>
      && MutationKey(q.mutation.id) !in s.table
      && ValidateFence(q.fence, LeaseAt(s.table, q.fence.scope), now).Current?
      && CheckedNext(s.current).Some?
      && Admitted(s.table, q, s.current + 1, depth, files)
      && EventKeys(q, keys) && |keys| <= SCHEMA_KEYS
    case Lease(r, _, now, _) =>
      && r.id !in s.operations
      && (!DecisionAt(s, r, now).Refuse? ==> CheckedNext(s.current).Some?)
  }

  /** The state after the transaction. */
  function Next(s: State, step: Step): State
  {
    match step
    case Commit(q, _, _, limit, files, keys) =>
      var row := MutationRecord(LedgerRow(q, s.current + 1));
      Publish(s.(table := files[MutationKey(q.mutation.id) := row]), FromMutation(q.mutation.id), keys, limit)
    case Lease(r, filesystem, now, limit) =>
      var decision := DecisionAt(s, r, now);
      DecisionIsRetained(r, LeaseAt(s.table, ScopeOf(r)),
                         if ScopeOf(r) in s.tokens then Some(s.tokens[ScopeOf(r)]) else None,
                         now, s.current + 1);
      var stored := s.(operations := s.operations[r.id := Store(r, filesystem, OutcomeOf(r, decision))]);
      var k := WriterLeaseKey(ScopeOf(r));
      match decision
      case Refuse(_) => stored
      case Activate(l) =>
        Publish(stored.(table := s.table[k := WriterLeaseRecord(l)],
                        tokens := if r.Acquire? then s.tokens[ScopeOf(r) := l.token] else s.tokens),
                FromLease(r.id), [k], limit)
      case Deactivate =>
        Publish(stored.(table := s.table - {k}), FromLease(r.id), [k], limit)
  }

  /** The keys the event of a step names; empty for a refused lease operation. */
  function Named(s: State, step: Step): seq<Key>
  {
    match step
    case Commit(_, _, _, _, _, keys) => keys
    case Lease(r, _, now, _) => if DecisionAt(s, r, now).Refuse? then [] else [WriterLeaseKey(ScopeOf(r))]
  }

  // ------------------------------------------------------------------ runs

  /** State after the first `n` steps. */
  function At(start: State, run: seq<Step>, n: nat): State
    requires n <= |run|
  {
    if n == 0 then start else Next(At(start, run, n - 1), run[n - 1])
  }

  /** Step `n` of the run may be taken where it is taken. */
  ghost predicate Takes(start: State, run: seq<Step>, n: nat)
    requires n < |run|
  {
    Enabled(At(start, run, n), run[n])
  }

  ghost predicate Runs(start: State, run: seq<Step>)
  {
    forall n: nat | n < |run| :: Takes(start, run, n)
  }

  function End(start: State, run: seq<Step>): State
  {
    At(start, run, |run|)
  }

  lemma {:induction false} AtPrefix(start: State, run: seq<Step>, more: seq<Step>, n: nat)
    requires n <= |run|
    ensures At(start, run + more, n) == At(start, run, n)
  {
    if n > 0 {
      AtPrefix(start, run, more, n - 1);
    }
  }

  lemma RunExtends(start: State, run: seq<Step>, step: Step)
    requires Runs(start, run) && Enabled(End(start, run), step)
    ensures Runs(start, run + [step])
    ensures End(start, run + [step]) == Next(End(start, run), step)
  {
    var longer := run + [step];
    hide Enabled, Next;
    forall n: nat | n < |longer| ensures Takes(start, longer, n) {
      AtPrefix(start, run, [step], n);
      if n < |run| {
        assert Takes(start, run, n);
      }
    }
    AtPrefix(start, run, [step], |run|);
  }
}
