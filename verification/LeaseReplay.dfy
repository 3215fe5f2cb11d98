/** Lease operations are idempotent over whole runs
    (crates/w9pt-fs-state-postgres/src/lease.rs:325-382, 568-630, 894-974). */
module LeaseReplay {
  import opened Values
  import opened Records
  import opened Leases
  import opened Authority

  lemma OperationsGrow(s: State, step: Step, id: OperationId)
    requires Enabled(s, step) && id in s.operations
    ensures id in Next(s, step).operations && Next(s, step).operations[id] == s.operations[id]
  {
    hide Admission.Admitted;
  }

  /** A retained lease operation is never dropped or rewritten. */
  lemma {:induction false} RetainedForever(run: seq<Step>, m: nat, n: nat, id: OperationId)
    requires Runs(FRESH, run) && m <= n <= |run| && id in At(FRESH, run, m).operations
    ensures id in At(FRESH, run, n).operations
    ensures At(FRESH, run, n).operations[id] == At(FRESH, run, m).operations[id]
    decreases n
  {
    hide Enabled, Next;
    if m < n {
      RetainedForever(run, m, n - 1, id);
      assert Takes(FRESH, run, n - 1);
      OperationsGrow(At(FRESH, run, n - 1), run[n - 1], id);
    }
  }

  lemma StoredAfter(s: State, step: Step)
    requires step.Lease? && Enabled(s, step)
    ensures var r := step.operation;
            var outcome := OutcomeOf(r, DecisionAt(s, r, step.leaseNow));
            && Retained(r, outcome).Some? && r.id in Next(s, step).operations
            && Next(s, step).operations[r.id] == Store(r, step.filesystem, outcome)
            && Replayed(r, step.filesystem, Store(r, step.filesystem, outcome)) == Some(Settled(outcome))
  {
    hide Enabled, Decide, Fingerprint, Replayed, Retained, Settled, OutcomeOf;
    var r := step.operation;
    var greatest := if ScopeOf(r) in s.tokens then Some(s.tokens[ScopeOf(r)]) else None;
    ReplayReturnsRetained(r, step.filesystem, LeaseAt(s.table, ScopeOf(r)), greatest, step.leaseNow, s.current + 1);
  }

  /** A request under a retained identity with any other operand is a mismatch. */
  lemma OtherOperandsMismatch(r: LeaseRequest, original: LeaseRequest, filesystem: nat, outcome: LeaseOutcome)
    requires RequestOk(r) && RequestOk(original) && IdOk(filesystem) && r != original
    requires Retained(original, outcome).Some?
    ensures Replayed(r, filesystem, Store(original, filesystem, outcome)) == Some(LeaseRejected(OperationMismatch))
  {
    hide Fingerprint, RequestOk, Retained;
    if Fingerprint(r, filesystem) == Fingerprint(original, filesystem) {
      FingerprintInjective(r, original, filesystem, filesystem);
    }
  }

  /** After operation `m`, a resubmission under its identity returns in every later
      state the retained outcome when all operands agree, and a mismatch otherwise. */
  lemma ResubmissionReplays(run: seq<Step>, m: nat, n: nat, r: LeaseRequest)
    requires Runs(FRESH, run) && m < n <= |run| && run[m].Lease? && run[m].operation.id == r.id
    requires RequestOk(r) && RequestOk(run[m].operation) && IdOk(run[m].filesystem)
    ensures r.id in At(FRESH, run, n).operations
    ensures Replayed(r, run[m].filesystem, At(FRESH, run, n).operations[r.id]) ==
            Some(if r == run[m].operation
                 then Settled(OutcomeOf(r, DecisionAt(At(FRESH, run, m), r, run[m].leaseNow)))
                 else LeaseRejected(OperationMismatch))
  {
    hide Next, DecisionAt, Enabled, Replayed, Store, Retained, RequestOk, OutcomeOf, Settled;
    var s := At(FRESH, run, m);
    assert Takes(FRESH, run, m);
    StoredAfter(s, run[m]);
    RetainedForever(run, m + 1, n, r.id);
    if r != run[m].operation {
      var original := run[m].operation;
      var outcome := OutcomeOf(original, DecisionAt(s, original, run[m].leaseNow));
      OtherOperandsMismatch(r, original, run[m].filesystem, outcome);
    }
  }

  // ------------------------------------------------------ stored shapes

  /** Tag and grant columns a stored operation of each kind can have. */
  predicate ShapeOk(stored: StoredOperation)
  {
    match stored.kind
    case 1 => if stored.grant.Some? then 1 <= stored.tag <= 2 else 3 <= stored.tag <= 5
    case 2 => if stored.grant.Some? then stored.tag == 1 else 2 <= stored.tag <= 5
    case 3 => stored.grant.None? && 1 <= stored.tag <= 4
    case _ => false
  }

  lemma RetainedShape(r: LeaseRequest, filesystem: nat, outcome: LeaseOutcome)
    requires Retained(r, outcome).Some?
    ensures ShapeOk(Store(r, filesystem, outcome))
  {
    hide Fingerprint;
  }

  /** Replaying a well-shaped row never reports corruption. */
  lemma ShapeReplays(r: LeaseRequest, filesystem: nat, stored: StoredOperation)
    requires ShapeOk(stored)
    ensures Replayed(r, filesystem, stored).Some?
  {
    hide Fingerprint;
  }

  /** In every reachable state the corruption branch of the replay is unreachable. */
  lemma {:induction false} NeverCorrupt(run: seq<Step>, n: nat, id: OperationId)
    requires Runs(FRESH, run) && n <= |run| && id in At(FRESH, run, n).operations
    ensures ShapeOk(At(FRESH, run, n).operations[id])
    decreases n
  {
    hide Enabled, Next, ShapeOk, Store, Retained, Replayed;
    if n > 0 {
      var s, step := At(FRESH, run, n - 1), run[n - 1];
      assert Takes(FRESH, run, n - 1);
      if id in s.operations {
        NeverCorrupt(run, n - 1, id);
        OperationsGrow(s, step, id);
      } else {
        OperationsFrom(s, step, id);
        StoredAfter(s, step);
        var outcome := OutcomeOf(step.operation, DecisionAt(s, step.operation, step.leaseNow));
        RetainedShape(step.operation, step.filesystem, outcome);
      }
    }
  }

  lemma OperationsFrom(s: State, step: Step, id: OperationId)
    requires id in Next(s, step).operations && id !in s.operations
    ensures step.Lease? && step.operation.id == id
  {
    hide Decide, Store, Retained, OutcomeOf, Publish;
    forall before: State, origin, keys, limit
      ensures Publish(before, origin, keys, limit).operations == before.operations
    {
      PublishKeepsOperations(before, origin, keys, limit);
    }
  }

  lemma PublishKeepsOperations(s: State, origin: Origin, keys: seq<Key>, limit: nat)
    ensures Publish(s, origin, keys, limit).operations == s.operations
  {
  }
}
