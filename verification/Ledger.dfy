/** The idempotency ledger over whole runs: effects at most once, replay forever
    (crates/w9pt-fs-state-postgres/src/commit.rs:129-186, 312-343;
    crates/w9pt-fs-state/src/commit.rs:81-95). */
module Ledger {
  import opened Values
  import opened Records
  import opened Requests
  import opened Admission
  import opened Authority
  import opened Invariants
  import opened Coherence

  predicate Commits(step: Step, id: MutationId)
  {
    step.Commit? && step.request.mutation.id == id
  }

  lemma CommitLedgerRows(s: State, step: Step, id: MutationId)
    requires Inv(s) && step.Commit? && Enabled(s, step)
    ensures Lookup(Next(s, step).table, MutationKey(id)) ==
            if Commits(step, id) then Some(MutationRecord(LedgerRow(step.request, s.current + 1)))
            else Lookup(s.table, MutationKey(id))
  {
    hide Inv, Admitted, Stepped;
    assert TableInv(s.table) by { InvTable(s); }
    hide TableInv;
    TableInvPreserved(s.table, step.request, s.current + 1, step.depth, step.files);
    CommitOwnedRows(s.table, step.request, s.current + 1, step.files, MutationKey(id));
  }

  /** A step writes the ledger row of its own mutation and no other. */
  lemma StepLedgerRow(s: State, step: Step, id: MutationId)
    requires Inv(s) && Enabled(s, step)
    ensures Lookup(Next(s, step).table, MutationKey(id)) ==
            if Commits(step, id) then Some(MutationRecord(LedgerRow(step.request, s.current + 1)))
            else Lookup(s.table, MutationKey(id))
    ensures Commits(step, id) ==> MutationKey(id) !in s.table
  {
    hide Inv, Admitted;
    if step.Commit? {
      CommitLedgerRows(s, step, id);
    } else {
      LeaseKeepsRows(s, step, MutationKey(id));
    }
  }

  /** Step `m` committed mutation `id`, and its row stands in state `n`. */
  ghost predicate CommittedBy(run: seq<Step>, m: nat, n: nat, id: MutationId)
    requires m < n <= |run|
  {
    && Commits(run[m], id)
    && Lookup(At(FRESH, run, n).table, MutationKey(id))
       == Some(MutationRecord(LedgerRow(run[m].request, At(FRESH, run, m).current + 1)))
  }

  /** A ledger row stands exactly when a step of the run committed its mutation, and
      then it is that step's row for the rest of the run. */
  lemma {:induction false} RowIffCommitted(run: seq<Step>, n: nat, id: MutationId)
    requires Runs(FRESH, run) && n <= |run|
    ensures MutationKey(id) in At(FRESH, run, n).table <==> exists m :: 0 <= m < n && Commits(run[m], id)
    ensures forall m | 0 <= m < n && Commits(run[m], id) :: CommittedBy(run, m, n, id)
    decreases n
  {
    hide Inv, Enabled, Next;
    if n > 0 {
      var s := At(FRESH, run, n - 1);
      InvAlways(run, n - 1);
      RowIffCommitted(run, n - 1, id);
      StepLedgerRow(s, run[n - 1], id);
      forall m | 0 <= m < n && Commits(run[m], id) ensures CommittedBy(run, m, n, id) {
        if m < n - 1 {
          assert CommittedBy(run, m, n - 1, id);
        }
      }
    }
  }

  /** No run commits one mutation twice. */
  lemma AtMostOnce(run: seq<Step>, m: nat, n: nat, id: MutationId)
    requires Runs(FRESH, run) && m < |run| && n < |run| && Commits(run[m], id) && Commits(run[n], id)
    ensures m == n
  {
    hide Inv, Next, Admitted;
    assert Takes(FRESH, run, m) && Takes(FRESH, run, n);
    RowIffCommitted(run, m, id);
    RowIffCommitted(run, n, id);
  }

  /** The ledger row of a commit keeps its mutation context, the fence it was made under
      and its result, at the revision it took. */
  lemma RowColumns(run: seq<Step>, m: nat, n: nat)
    requires Runs(FRESH, run) && m < n <= |run| && run[m].Commit?
    ensures var q := run[m].request;
            var k := MutationKey(q.mutation.id);
            && k in At(FRESH, run, n).table && At(FRESH, run, n).table[k].MutationRecord?
            && var row := At(FRESH, run, n).table[k].mutation;
               && row.id == q.mutation.id && row.fingerprint == q.mutation.fingerprint
               && row.client == q.mutation.client && row.retention == q.mutation.retention
               && row.scope == q.fence.scope && row.writer == q.fence.holder && row.token == q.fence.token
               && row.result == q.result
               && row.committedRevision == row.revision == At(FRESH, run, m).current + 1
  {
    hide Enabled, Next;
    RowIffCommitted(run, n, run[m].request.mutation.id);
    assert CommittedBy(run, m, n, run[m].request.mutation.id);
  }

  /** In every later state an exact retry classifies as committed at the same
      revision with the same result, and any other use of the identity as a
      mismatch; the presented fence plays no part. */
  lemma RetryReplays(run: seq<Step>, m: nat, n: nat, c: MutationContext)
    requires Runs(FRESH, run) && m < n <= |run| && Commits(run[m], c.id)
    ensures var k := MutationKey(c.id);
            && k in At(FRESH, run, n).table && At(FRESH, run, n).table[k].MutationRecord?
            && var replay := Classify(c, At(FRESH, run, n).table[k].mutation);
               if c == run[m].request.mutation
               then replay == ExactReplay(At(FRESH, run, m).current + 1, run[m].request.result)
               else match replay
                    case MismatchFingerprint => c.fingerprint != run[m].request.mutation.fingerprint
                    case MismatchClient => c.client != run[m].request.mutation.client
                    case MismatchRetention => c.retention != run[m].request.mutation.retention
                    case _ => false
  {
    hide Enabled, Next;
    RowIffCommitted(run, n, c.id);
    assert CommittedBy(run, m, n, c.id);
  }
}
