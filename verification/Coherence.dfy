/** The change feed is good enough to keep a cache exact over whole runs
    (crates/w9pt-fs-state-postgres/src/commit.rs:2259-2352, record_write.rs:251-278,
    crates/w9pt-fs-state-postgres/src/lease.rs:976-1071). */
module Coherence {
  import opened Values
  import opened Records
  import opened Requests
  import opened Effects
  import opened Admission
  import opened Leases
  import opened Authority
  import opened Invariants

  // --------------------------------------------------------------- one step

  /** A commit changes only the keys its event names. */
  lemma CommitChangesNamed(s: State, step: Step, k: Key)
    requires Inv(s) && step.Commit? && Enabled(s, step) && k !in step.keys
    ensures Lookup(Next(s, step).table, k) == Lookup(s.table, k)
  {
    hide Inv, Admitted, Stepped;
    assert TableInv(s.table) by { InvTable(s); }
    hide TableInv, Touched;
    TableInvPreserved(s.table, step.request, s.current + 1, step.depth, step.files);
    assert !Touched(step.request.changes, k) && k != MutationKey(step.request.mutation.id);
    UntouchedKept(s.table, step.request, s.current + 1, step.files, k);
  }

  lemma InvTable(s: State)
    requires Inv(s)
    ensures TableInv(s.table)
  {
  }

  lemma AdmittedStamps(t: Table, q: Request, revision: Revision, depth: nat, t': Table, k: Key)
    requires TableInv(t) && Admitted(t, q, revision, depth, t') && Touched(q.changes, k) && k in t'
    ensures RevisionOf(t'[k]) == revision
  {
    hide TableInv, Admitted, Stepped, Written, WellShaped, WellKeyed, Touched, RevisionOf;
    TableInvPreserved(t, q, revision, depth, t');
    SteppedParts(t, q, revision, t');
    TouchedIsStamped(t, q.changes, q.mutation, revision, t', k);
  }

  /** A present key named by a commit carries the commit's revision. */
  lemma CommitStampsNamed(s: State, step: Step, k: Key)
    requires Inv(s) && step.Commit? && Enabled(s, step) && k in step.keys && k in Next(s, step).table
    ensures RevisionOf(Next(s, step).table[k]) == s.current + 1
  {
    hide Inv, Admitted, TableInv, Touched, RevisionOf, ValidateFence;
    InvTable(s);
    if k == MutationKey(step.request.mutation.id) {
      LedgerRowStamped(step.request, s.current + 1);
    } else {
      AdmittedStamps(s.table, step.request, s.current + 1, step.depth, step.files, k);
    }
  }

  lemma LedgerRowStamped(q: Request, revision: Revision)
    ensures RevisionOf(MutationRecord(LedgerRow(q, revision))) == revision
  {
  }

  /** Any step changes only what its event names, and stamps what it names. */
  lemma StepNamesChanges(s: State, step: Step, k: Key)
    requires Inv(s) && Enabled(s, step)
    ensures k !in Named(s, step) ==> Lookup(Next(s, step).table, k) == Lookup(s.table, k)
    ensures k in Named(s, step) && k in Next(s, step).table
            ==> RevisionOf(Next(s, step).table[k]) == Next(s, step).current
  {
    hide Inv, Admitted, EventKeys;
    if step.Commit? {
      if k !in step.keys {
        CommitChangesNamed(s, step, k);
      } else if k in Next(s, step).table {
        CommitStampsNamed(s, step, k);
      }
    } else {
      LeaseNamesChanges(s, step, k);
    }
  }

  lemma LeaseNamesChanges(s: State, step: Step, k: Key)
    requires step.Lease?
    ensures k !in Named(s, step) ==> Lookup(Next(s, step).table, k) == Lookup(s.table, k)
    ensures k in Named(s, step) && k in Next(s, step).table
            ==> RevisionOf(Next(s, step).table[k]) == Next(s, step).current
  {
    hide Store, Retained, OutcomeOf, Decide;
    LeaseStamps(s, step);
  }

  lemma LeaseStamps(s: State, step: Step)
    requires step.Lease?
    ensures var d := DecisionAt(s, step.operation, step.leaseNow);
            d.Activate? ==> d.lease.revision == s.current + 1
  {
    if DecisionAt(s, step.operation, step.leaseNow).Activate? {
      var scope := ScopeOf(step.operation);
      ActivatedLease(step.operation, LeaseAt(s.table, scope),
                     if scope in s.tokens then Some(s.tokens[scope]) else None, step.leaseNow, s.current + 1);
    }
  }

  /** A step that names keys takes the next revision; one that names none leaves
      the records and the revision alone. */
  lemma StepRevision(s: State, step: Step)
    requires Enabled(s, step)
    ensures Next(s, step).current == s.current + if Named(s, step) != [] then 1 else 0
    ensures Named(s, step) == [] ==> Next(s, step).table == s.table
  {
    hide Admitted, Store, Retained, OutcomeOf, Decide;
    if step.Commit? {
      assert MutationKey(step.request.mutation.id) in step.keys;
    }
  }

  // ------------------------------------------------------------------- runs

  /** No step in [m, n) names `k`. */
  ghost predicate Unnamed(run: seq<Step>, m: nat, n: nat, k: Key)
    requires m <= n <= |run|
  {
    forall x | m <= x < n :: k !in Named(At(FRESH, run, x), run[x])
  }

  lemma {:induction false} RevisionGrows(run: seq<Step>, m: nat, n: nat)
    requires Runs(FRESH, run) && m <= n <= |run|
    ensures At(FRESH, run, m).current <= At(FRESH, run, n).current
    decreases n
  {
    hide Enabled, Next;
    if m < n {
      RevisionGrows(run, m, n - 1);
      assert Takes(FRESH, run, n - 1);
      StepRevision(At(FRESH, run, n - 1), run[n - 1]);
    }
  }

  /** Cache exactness: a value read in state `m` is the value a fresh read in state
      `n` returns, for every key no event in between names. */
  lemma {:induction false} CacheExact(run: seq<Step>, m: nat, n: nat, k: Key)
    requires Runs(FRESH, run) && m <= n <= |run| && Unnamed(run, m, n, k)
    ensures Lookup(At(FRESH, run, n).table, k) == Lookup(At(FRESH, run, m).table, k)
    decreases n
  {
    hide Enabled, Next, Inv;
    if m < n {
      assert Unnamed(run, m, n - 1, k);
      CacheExact(run, m, n - 1, k);
      InvAlways(run, n - 1);
      StepNamesChanges(At(FRESH, run, n - 1), run[n - 1], k);
    }
  }

  /** The revision of a present record is the revision of the latest event naming it. */
  lemma {:induction false} RevisionIsLatestEvent(run: seq<Step>, n: nat, k: Key) returns (m: nat)
    requires Runs(FRESH, run) && n <= |run| && k in At(FRESH, run, n).table
    ensures m < n && k in Named(At(FRESH, run, m), run[m])
    ensures RevisionOf(At(FRESH, run, n).table[k]) == At(FRESH, run, m).current + 1 == At(FRESH, run, m + 1).current
    ensures Unnamed(run, m + 1, n, k)
    decreases n
  {
    hide Enabled, Next, Inv, Named, RevisionOf;
    var s := At(FRESH, run, n - 1);
    InvAlways(run, n - 1);
    StepNamesChanges(s, run[n - 1], k);
    StepRevision(s, run[n - 1]);
    if k in Named(s, run[n - 1]) {
      m := n - 1;
    } else {
      assert Lookup(At(FRESH, run, n).table, k) == Lookup(s.table, k);
      m := RevisionIsLatestEvent(run, n - 1, k);
    }
  }

  /** Equal record revisions at two times mean the record never changed in between. */
  lemma EqualRevisionMeansUnchanged(run: seq<Step>, m: nat, x: nat, n: nat, k: Key)
    requires Runs(FRESH, run) && m <= x <= n <= |run|
    requires k in At(FRESH, run, m).table && k in At(FRESH, run, n).table
    requires RevisionOf(At(FRESH, run, m).table[k]) == RevisionOf(At(FRESH, run, n).table[k])
    ensures Lookup(At(FRESH, run, x).table, k) == Lookup(At(FRESH, run, m).table, k)
  {
    hide Enabled, Next;
    var last := RevisionIsLatestEvent(run, n, k);
    InvAlways(run, m);
    assert RevisionsBounded(At(FRESH, run, m));
    hide Inv;
    if last >= m {
      RevisionGrows(run, m, last);
    }
    assert Unnamed(run, m, x, k);
    CacheExact(run, m, x, k);
  }

  // ------------------------------------------------------------ the log

  /** The event names the mutation or the lease operation of the step. */
  predicate MadeBy(step: Step, origin: Origin)
  {
    match step
    case Commit(q, _, _, _, _, _) => origin == FromMutation(q.mutation.id)
    case Lease(r, _, _, _) => origin == FromLease(r.id)
  }

  /** Every retained event is the event of the step that took its revision. */
  ghost predicate LogOfRun(run: seq<Step>, n: nat, r: Revision)
    requires n <= |run|
  {
    r in At(FRESH, run, n).keys ==>
      exists m :: 0 <= m < n && At(FRESH, run, m).current + 1 == r && Named(At(FRESH, run, m), run[m]) != []
        && At(FRESH, run, n).keys[r] == Named(At(FRESH, run, m), run[m])
        && r in At(FRESH, run, n).commits && MadeBy(run[m], At(FRESH, run, n).commits[r].origin)
  }

  /** What publishing does to the log, whatever else of the state changes with it. */
  lemma PublishedLog(s: State, base: State, origin: Origin, keys: seq<Key>, limit: nat, r: Revision)
    requires LogExact(s) && r in Publish(base, origin, keys, limit).keys
    requires base.commits == s.commits && base.keys == s.keys && base.current == s.current
    ensures var next := Publish(base, origin, keys, limit);
            && r in next.commits
            && (|| (r in s.keys && next.keys[r] == s.keys[r] && r <= s.current && r in s.commits
                    && next.commits[r] == s.commits[r])
                || (r == s.current + 1 && next.keys[r] == keys && next.commits[r].origin == origin))
  {
  }

  /** A step leaves the log alone, or publishes its keys under its origin. */
  lemma StepPublishes(s: State, step: Step) returns (base: State, origin: Origin, limit: nat)
    requires Enabled(s, step)
    ensures base.commits == s.commits && base.keys == s.keys && base.current == s.current
    ensures MadeBy(step, origin)
    ensures Next(s, step) == if Named(s, step) == [] then base else Publish(base, origin, Named(s, step), limit)
  {
    hide Publish, Admitted, Decide;
    match step
    case Commit(q, _, _, n, files, keys) =>
      assert MutationKey(q.mutation.id) in keys;
      base := s.(table := files[MutationKey(q.mutation.id) := MutationRecord(LedgerRow(q, s.current + 1))]);
      origin, limit := FromMutation(q.mutation.id), n;
    case Lease(r, filesystem, now, n) =>
      origin, limit := FromLease(r.id), n;
      var decision := DecisionAt(s, r, now);
      DecisionIsRetained(r, LeaseAt(s.table, ScopeOf(r)),
                         if ScopeOf(r) in s.tokens then Some(s.tokens[ScopeOf(r)]) else None, now, s.current + 1);
      base := s.(operations := s.operations[r.id := Store(r, filesystem, OutcomeOf(r, decision))]);
      var k := WriterLeaseKey(ScopeOf(r));
      match decision
      case Refuse(_) =>
      case Activate(l) =>
        base := base.(table := s.table[k := WriterLeaseRecord(l)],
                      tokens := if r.Acquire? then s.tokens[ScopeOf(r) := l.token] else s.tokens);
      case Deactivate => base := base.(table := s.table - {k});
  }

  lemma KeysAfter(s: State, step: Step, r: Revision)
    requires LogExact(s) && Enabled(s, step) && r in Next(s, step).keys
    ensures r in Next(s, step).commits
    ensures || (r in s.keys && Next(s, step).keys[r] == s.keys[r] && r <= s.current
                && r in s.commits && Next(s, step).commits[r] == s.commits[r])
            || (r == s.current + 1 && Next(s, step).keys[r] == Named(s, step) && Named(s, step) != []
                && MadeBy(step, Next(s, step).commits[r].origin))
  {
    hide Enabled, Next, Publish, Named, MadeBy;
    var base, origin, limit := StepPublishes(s, step);
    if Named(s, step) != [] {
      PublishedLog(s, base, origin, Named(s, step), limit, r);
    }
  }

  lemma InvLog(s: State)
    requires Inv(s)
    ensures LogExact(s)
  {
  }

  lemma {:induction false} LogRecordsRun(run: seq<Step>, n: nat, r: Revision)
    requires Runs(FRESH, run) && n <= |run|
    ensures LogOfRun(run, n, r)
    decreases n
  {
    hide Inv, Enabled, Next, LogExact, Named, MadeBy;
    if n > 0 && r in At(FRESH, run, n).keys {
      InvAlways(run, n - 1);
      InvLog(At(FRESH, run, n - 1));
      KeysAfter(At(FRESH, run, n - 1), run[n - 1], r);
      LogRecordsRun(run, n - 1, r);
    }
  }

  // ----------------------------------------------------------- conservation

  function MutationCount(run: seq<Step>, n: nat): nat
    requires n <= |run|
  {
    if n == 0 then 0 else MutationCount(run, n - 1) + if run[n - 1].Commit? then 1 else 0
  }

  /** A lease operation that grants, renews or releases. */
  predicate Transits(s: State, step: Step)
  {
    step.Lease? && !DecisionAt(s, step.operation, step.leaseNow).Refuse?
  }

  function TransitionCount(run: seq<Step>, n: nat): nat
    requires n <= |run|
  {
    if n == 0 then 0
    else TransitionCount(run, n - 1) + if Transits(At(FRESH, run, n - 1), run[n - 1]) then 1 else 0
  }

  lemma SuccessIsNamed(s: State, step: Step)
    requires Enabled(s, step)
    ensures Named(s, step) != [] <==> step.Commit? || Transits(s, step)
  {
    hide Admitted, Decide;
    if step.Commit? {
      assert MutationKey(step.request.mutation.id) in step.keys;
    }
  }

  /** The authority revision counts the committed mutations and the successful
      lease transitions, from one. */
  lemma {:induction false} RevisionCounts(run: seq<Step>, n: nat)
    requires Runs(FRESH, run) && n <= |run|
    ensures At(FRESH, run, n).current == 1 + MutationCount(run, n) + TransitionCount(run, n)
    decreases n
  {
    hide Enabled, Next, Named, Transits;
    if n > 0 {
      RevisionCounts(run, n - 1);
      assert Takes(FRESH, run, n - 1);
      StepRevision(At(FRESH, run, n - 1), run[n - 1]);
      SuccessIsNamed(At(FRESH, run, n - 1), run[n - 1]);
      assert run[n - 1].Commit? ==> !Transits(At(FRESH, run, n - 1), run[n - 1]) by {
        CommitDoesNotTransit(At(FRESH, run, n - 1), run[n - 1]);
      }
    }
  }

  lemma CommitDoesNotTransit(s: State, step: Step)
    ensures step.Commit? ==> !Transits(s, step)
  {
  }

  /** The retained log is exactly the revisions in (oldest, current], for any
      interleaving and any sequence of history limits. */
  lemma RetainedLogIsContiguous(run: seq<Step>, n: nat, r: Revision)
    requires Runs(FRESH, run) && n <= |run|
    ensures var s := At(FRESH, run, n);
            (r in s.commits <==> s.oldest < r <= s.current) && (r in s.keys <==> r in s.commits)
  {
    InvAlways(run, n);
  }
}
