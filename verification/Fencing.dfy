/** Fencing tokens over whole runs (crates/w9pt-fs-state/src/lease.rs:54-155;
    crates/w9pt-fs-state-postgres/src/lease.rs:255-277, 384-495, 691-849). */
module Fencing {
  import opened Values
  import opened Records
  import opened Requests
  import opened Admission
  import opened Leases
  import opened Authority
  import opened Invariants
  import opened Coherence

  /** The step grants a new lease in `scope`. */
  predicate Grants(s: State, step: Step, scope: ScopeId)
  {
    step.Lease? && step.operation.Acquire? && ScopeOf(step.operation) == scope
    && DecisionAt(s, step.operation, step.leaseNow).Activate?
  }

  function TokenOf(s: State, scope: ScopeId): nat
  {
    if scope in s.tokens then s.tokens[scope] else 0
  }

  lemma ActiveToken(s: State, scope: ScopeId)
    requires FencesExact(s)
    ensures LeaseAt(s.table, scope).Some? ==> LeaseAt(s.table, scope).value.token == TokenOf(s, scope)
  {
  }

  /** A grant strictly raises its scope's token, every other step keeps all tokens. */
  lemma StepTokens(s: State, step: Step, scope: ScopeId)
    requires FencesExact(s)
    ensures Grants(s, step, scope) ==> TokenOf(s, scope) < TokenOf(Next(s, step), scope)
    ensures !Grants(s, step, scope) ==> TokenOf(s, scope) == TokenOf(Next(s, step), scope)
  {
    hide FencesExact;
    ActiveToken(s, scope);
  }

  /** A commit presents the greatest token its scope ever granted. */
  lemma CommitPresentsGreatest(s: State, step: Step)
    requires FencesExact(s) && step.Commit? && Enabled(s, step)
    ensures step.request.fence.token == TokenOf(s, step.request.fence.scope)
  {
    hide FencesExact, Admitted, ValidateFence;
    var fence := step.request.fence;
    FenceIsExact(fence, LeaseAt(s.table, fence.scope), step.now);
    ActiveToken(s, fence.scope);
  }

  /** Without a grant an active lease stays with its holder or disappears. */
  lemma HolderKept(s: State, step: Step, scope: ScopeId)
    requires Inv(s) && Enabled(s, step) && !Grants(s, step, scope)
    requires LeaseAt(Next(s, step).table, scope).Some?
    ensures LeaseAt(s.table, scope).Some?
    ensures LeaseAt(s.table, scope).value.holder == LeaseAt(Next(s, step).table, scope).value.holder
    ensures LeaseAt(s.table, scope).value.lease == LeaseAt(Next(s, step).table, scope).value.lease
  {
    hide Inv, Admitted;
    var k := WriterLeaseKey(scope);
    if step.Commit? {
      CommitLeaseRow(s, step, scope);
    } else if scope != ScopeOf(step.operation) {
      LeaseKeepsRows(s, step, k);
    }
  }

  lemma CommitLeaseRow(s: State, step: Step, scope: ScopeId)
    requires Inv(s) && step.Commit? && Enabled(s, step)
    ensures Lookup(Next(s, step).table, WriterLeaseKey(scope)) == Lookup(s.table, WriterLeaseKey(scope))
  {
    hide Inv, Admitted, Stepped;
    assert TableInv(s.table) by { InvTable(s); }
    hide TableInv;
    TableInvPreserved(s.table, step.request, s.current + 1, step.depth, step.files);
    CommitOwnedRows(s.table, step.request, s.current + 1, step.files, WriterLeaseKey(scope));
  }

  /** A granted or renewed lease is the one its fence validates against, until its
      deadline; after a release no fence of the scope is current. */
  lemma LeaseTakesEffect(s: State, step: Step, now: nat, fence: Fence)
    requires step.Lease? && Enabled(s, step) && fence.scope == ScopeOf(step.operation)
    ensures var d := DecisionAt(s, step.operation, step.leaseNow);
            var valid := ValidateFence(fence, LeaseAt(Next(s, step).table, fence.scope), now).Current?;
            && (d.Activate? ==>
                  && OutcomeOf(step.operation, d).grant == Grant(FenceOf(d.lease), d.lease.deadline)
                  && (valid <==> fence == FenceOf(d.lease) && now < d.lease.deadline))
            && (d.Deactivate? ==> !valid)
            && (d.Refuse? ==> Next(s, step).table == s.table && Next(s, step).tokens == s.tokens)
  {
    hide Decide, Store, Retained, Fingerprint, Admitted, ValidateFence;
    FenceIsExact(fence, LeaseAt(Next(s, step).table, fence.scope), now);
  }

  lemma InvFences(s: State)
    requires Inv(s)
    ensures FencesExact(s)
  {
  }

  // ------------------------------------------------------------------- runs

  /** The step grants, renews or releases the lease of `scope`. */
  predicate Moves(s: State, step: Step, scope: ScopeId)
  {
    step.Lease? && ScopeOf(step.operation) == scope && !DecisionAt(s, step.operation, step.leaseNow).Refuse?
  }

  /** The lease a step that moves its scope leaves there. */
  function Left(s: State, step: Step): Option<WriterLease>
  {
    if step.Lease? && DecisionAt(s, step.operation, step.leaseNow).Activate?
      then Some(DecisionAt(s, step.operation, step.leaseNow).lease) else None
  }

  lemma StepLease(s: State, step: Step, scope: ScopeId)
    requires Inv(s) && Enabled(s, step)
    ensures LeaseAt(Next(s, step).table, scope) ==
            if Moves(s, step, scope) then Left(s, step) else LeaseAt(s.table, scope)
  {
    hide Inv, Admitted, Decide;
    if step.Commit? {
      CommitLeaseRow(s, step, scope);
    } else if scope != ScopeOf(step.operation) {
      LeaseKeepsRows(s, step, WriterLeaseKey(scope));
    }
  }

  /** Step `m` granted or renewed `l`, and no step up to `n` moved its scope again. */
  ghost predicate Standing(run: seq<Step>, m: nat, n: nat, l: WriterLease)
    requires n <= |run|
  {
    && m < n && Moves(At(FRESH, run, m), run[m], l.scope) && Left(At(FRESH, run, m), run[m]) == Some(l)
    && forall x | m < x < n :: !Moves(At(FRESH, run, x), run[x], l.scope)
  }

  lemma StandsOn(run: seq<Step>, m: nat, n: nat, l: WriterLease)
    requires 0 < n <= |run| && !Moves(At(FRESH, run, n - 1), run[n - 1], l.scope)
    ensures Standing(run, m, n - 1, l) <==> Standing(run, m, n, l)
  {
    hide Moves, Left, At;
  }

  /** The stored lease of a scope is the one its last lease transition left. */
  lemma {:induction false} LeaseIsStanding(run: seq<Step>, n: nat, l: WriterLease)
    requires Runs(FRESH, run) && n <= |run|
    ensures LeaseAt(At(FRESH, run, n).table, l.scope) == Some(l) <==> exists m: nat :: Standing(run, m, n, l)
    decreases n
  {
    hide Inv, Enabled, Next, Moves, Left, Runs;
    if n > 0 {
      var s, step := At(FRESH, run, n - 1), run[n - 1];
      InvAlways(run, n - 1);
      assert Enabled(s, step) by { StepTaken(run, n - 1); }
      StepLease(s, step, l.scope);
      if Moves(s, step, l.scope) {
        assert Left(s, step) == Some(l) ==> Standing(run, n - 1, n, l);
      } else {
        var before := n - 1;
        LeaseIsStanding(run, before, l);
        if m: nat :| Standing(run, m, before, l) {
          StandsOn(run, m, n, l);
        }
        if m: nat :| Standing(run, m, n, l) {
          StandsOn(run, m, n, l);
        }
      }
    }
  }

  lemma StepTaken(run: seq<Step>, n: nat)
    requires Runs(FRESH, run) && n < |run|
    ensures Enabled(At(FRESH, run, n), run[n])
  {
    hide Enabled;
    assert Takes(FRESH, run, n);
  }

  /** A fence is current in a reachable state exactly when the last transition of its
      scope granted or renewed this fence to a deadline that has not passed. */
  lemma CurrentIffStanding(run: seq<Step>, n: nat, fence: Fence, now: nat)
    requires Runs(FRESH, run) && n <= |run|
    ensures ValidateFence(fence, LeaseAt(At(FRESH, run, n).table, fence.scope), now).Current? <==>
            exists m: nat, l :: Standing(run, m, n, l) && FenceOf(l) == fence && now < l.deadline
  {
    hide Runs, At, Standing, ValidateFence;
    var lease := LeaseAt(At(FRESH, run, n).table, fence.scope);
    FenceIsExact(fence, lease, now);
    if lease.Some? && lease.value.scope == fence.scope {
      LeaseIsStanding(run, n, lease.value);
    }
    forall m: nat, l | Standing(run, m, n, l) && l.scope == fence.scope ensures lease == Some(l) {
      LeaseIsStanding(run, n, l);
    }
  }

  /** Every mutation commits under the lease the last transition of its scope left,
      before that lease's deadline. */
  lemma CommitHoldsLease(run: seq<Step>, n: nat)
    requires Runs(FRESH, run) && n < |run| && run[n].Commit?
    ensures exists m: nat, l :: Standing(run, m, n, l) && FenceOf(l) == run[n].request.fence
                                && run[n].now < l.deadline
  {
    hide Runs, At, Standing, ValidateFence, Admitted;
    StepTaken(run, n);
    CurrentIffStanding(run, n, run[n].request.fence, run[n].now);
  }

  /** Tokens never fall over a run, whatever the clock readings. */
  lemma {:induction false} TokensMonotone(run: seq<Step>, m: nat, n: nat, scope: ScopeId)
    requires Runs(FRESH, run) && m <= n <= |run|
    ensures TokenOf(At(FRESH, run, m), scope) <= TokenOf(At(FRESH, run, n), scope)
    decreases n
  {
    hide Inv, Enabled, Next, FencesExact, Grants;
    if m < n {
      TokensMonotone(run, m, n - 1, scope);
      InvAlways(run, n - 1);
      InvFences(At(FRESH, run, n - 1));
      StepTokens(At(FRESH, run, n - 1), run[n - 1], scope);
    }
  }

  /** Granted tokens of one scope strictly increase across expiry, release and takeover. */
  lemma GrantsIncrease(run: seq<Step>, m: nat, n: nat, scope: ScopeId)
    requires Runs(FRESH, run) && m < n < |run|
    requires Grants(At(FRESH, run, m), run[m], scope) && Grants(At(FRESH, run, n), run[n], scope)
    ensures TokenOf(At(FRESH, run, m + 1), scope) < TokenOf(At(FRESH, run, n + 1), scope)
  {
    hide Inv, Enabled, Next, FencesExact, Grants;
    TokensMonotone(run, m + 1, n, scope);
    InvAlways(run, n);
    InvFences(At(FRESH, run, n));
    StepTokens(At(FRESH, run, n), run[n], scope);
  }

  /** Committed mutations of one scope carry non-decreasing tokens in revision order. */
  lemma CommitTokensOrdered(run: seq<Step>, m: nat, n: nat)
    requires Runs(FRESH, run) && m <= n < |run| && run[m].Commit? && run[n].Commit?
    requires run[m].request.fence.scope == run[n].request.fence.scope
    ensures run[m].request.fence.token <= run[n].request.fence.token
  {
    hide Inv, Enabled, Next, FencesExact;
    InvAlways(run, m);
    InvAlways(run, n);
    InvFences(At(FRESH, run, m));
    InvFences(At(FRESH, run, n));
    CommitPresentsGreatest(At(FRESH, run, m), run[m]);
    CommitPresentsGreatest(At(FRESH, run, n), run[n]);
    TokensMonotone(run, m, n, run[m].request.fence.scope);
  }

  /** Once a later token was granted, the superseded writer never commits again. */
  lemma SupersededNeverCommits(run: seq<Step>, m: nat, n: nat, fence: Fence)
    requires Runs(FRESH, run) && m <= n < |run|
    requires fence.token < TokenOf(At(FRESH, run, m), fence.scope)
    ensures !(run[n].Commit? && run[n].request.fence == fence)
  {
    hide Inv, Enabled, Next, FencesExact;
    TokensMonotone(run, m, n, fence.scope);
    InvAlways(run, n);
    InvFences(At(FRESH, run, n));
    if run[n].Commit? {
      CommitPresentsGreatest(At(FRESH, run, n), run[n]);
    }
  }

  /** A token belongs to one holder and one lease for the whole run. */
  lemma {:induction false} TokenNamesOneLease(run: seq<Step>, m: nat, n: nat, scope: ScopeId)
    requires Runs(FRESH, run) && m <= n <= |run|
    requires LeaseAt(At(FRESH, run, m).table, scope).Some? && LeaseAt(At(FRESH, run, n).table, scope).Some?
    requires TokenOf(At(FRESH, run, m), scope) == TokenOf(At(FRESH, run, n), scope)
    ensures var a := LeaseAt(At(FRESH, run, m).table, scope).value;
            var b := LeaseAt(At(FRESH, run, n).table, scope).value;
            a.token == b.token && a.holder == b.holder && a.lease == b.lease
    decreases n
  {
    hide Inv, Enabled, Next, FencesExact, Grants;
    InvAlways(run, m);
    InvFences(At(FRESH, run, m));
    ActiveToken(At(FRESH, run, m), scope);
    InvAlways(run, n);
    InvFences(At(FRESH, run, n));
    ActiveToken(At(FRESH, run, n), scope);
    if m < n {
      var s := At(FRESH, run, n - 1);
      InvAlways(run, n - 1);
      InvFences(s);
      StepTokens(s, run[n - 1], scope);
      TokensMonotone(run, m, n - 1, scope);
      HolderKept(s, run[n - 1], scope);
      TokenNamesOneLease(run, m, n - 1, scope);
    }
  }
}
