/** What every transaction keeps, whatever the requests. */
module Invariants {
  import opened Values
  import opened Records
  import opened Requests
  import opened Applying
  import opened Effects
  import opened Loading
  import opened Transitions
  import opened LockTable
  import opened Targeting
  import opened Admission
  import opened Namespace
  import opened Accounting
  import opened ContentHistory
  import opened Leases
  import opened Authority

  // ------------------------------------------------- store-owned families

  predicate StoreOwned(k: Key)
  {
    k.MutationKey? || k.WriterLeaseKey?
  }

  /** The tables agree outside the ledger and the leases. */
  ghost predicate SameFiles(a: Table, b: Table)
  {
    forall k | !StoreOwned(k) :: Lookup(a, k) == Lookup(b, k)
  }

  lemma SameSets(a: Table, b: Table, i: InodeId)
    requires SameFiles(a, b)
    ensures EntriesTo(a, i) == EntriesTo(b, i) && EntriesIn(a, i) == EntriesIn(b, i) && Pins(a, i) == Pins(b, i)
    ensures InodeAt(a, i) == InodeAt(b, i) && OrphanAt(a, i) == OrphanAt(b, i)
  {
    forall k: Key | k.EntryKey? || k.OpenPinKey? ensures Lookup(a, k) == Lookup(b, k) {
    }
    assert forall k :: k in a <==> Lookup(a, k).Some?;
    assert forall k :: k in b <==> Lookup(b, k).Some?;
    assert Lookup(a, InodeKey(i)) == Lookup(b, InodeKey(i));
    assert Lookup(a, OrphanKey(i)) == Lookup(b, OrphanKey(i));
  }

  lemma {:induction false} SameAncestry(a: Table, b: Table, i: InodeId, root: InodeId, depth: nat)
    requires SameFiles(a, b) && Ancestry(a, i, root, depth)
    ensures Ancestry(b, i, root, depth)
    decreases depth
  {
    SameSets(a, b, i);
    if i != root {
      SameAncestry(a, b, InodeAt(a, i).value.data.parent, root, depth - 1);
    }
  }

  lemma SameTree(a: Table, b: Table)
    requires SameFiles(a, b) && Tree(a)
    ensures Tree(b)
  {
    var root := HeaderAt(a).value.root;
    assert Lookup(a, FilesystemKey) == Lookup(b, FilesystemKey);
    SameSets(a, b, root);
    forall i | InodeAt(b, i).Some? && i != root ensures NodePlaced(b, root, InodeAt(b, i).value) {
      SameNode(a, b, root, i);
    }
    forall k ensures EntryPlaced(b, k) {
      if k in b && k.EntryKey? {
        assert Lookup(a, k) == Lookup(b, k) && EntryPlaced(a, k);
        SameSets(a, b, k.parent);
        SameSets(a, b, a[k].entry.child);
      }
    }
  }

  lemma SameNode(a: Table, b: Table, root: InodeId, i: InodeId)
    requires SameFiles(a, b) && Tree(a) && HeaderAt(a).value.root == root
    requires InodeAt(b, i).Some? && i != root
    ensures NodePlaced(b, root, InodeAt(b, i).value)
  {
    SameSets(a, b, i);
    var n := InodeAt(a, i).value;
    assert NodePlaced(a, root, n);
    SameSets(a, b, n.id);
    if n.data.DirectoryData? && n.linkCount != 0 {
      SameSets(a, b, n.data.parent);
      var depth: nat :| Ancestry(a, n.id, root, depth);
      SameAncestry(a, b, n.id, root, depth);
    }
  }

  lemma SameAccounting(a: Table, b: Table)
    requires SameFiles(a, b) && Accounted(a) && WellKeyed(b)
    ensures Accounted(b)
  {
    forall i | InodeAt(b, i).Some? ensures InodeAccounted(b, InodeAt(b, i).value) {
      SameSets(a, b, i);
      SameSets(a, b, InodeAt(b, i).value.id);
      assert InodeAccounted(a, InodeAt(a, i).value);
    }
    forall k | k in b && !StoreOwned(k) ensures k in a && a[k] == b[k] {
      assert Lookup(a, k) == Lookup(b, k);
    }
    forall k, i | k in b && DependsOn(b, k, i) ensures InodeAt(b, i).Some? {
      assert Names(b[k], k) && DependsOn(a, k, i);
      SameSets(a, b, i);
    }
    forall k | k in b && (b[k].OpenPinRecord? || b[k].LockRecord?)
      ensures (b[k].OpenPinRecord? ==> PinOwnerOk(b, b[k].pin)) && (b[k].LockRecord? ==> LockOwnerOk(b, b[k].lock))
    {
      assert Names(b[k], k);
      var o := if b[k].OpenPinRecord? then b[k].pin.open else b[k].lock.owner.open;
      assert Lookup(a, OpenKey(o)) == Lookup(b, OpenKey(o));
    }
  }

  lemma SameLocksAndContent(a: Table, b: Table)
    requires SameFiles(a, b) && WellKeyed(b) && ConflictFree(a) && Matched(a)
    ensures ConflictFree(b) && Matched(b)
  {
    forall k | k in b && !StoreOwned(k) ensures k in a && a[k] == b[k] {
      assert Lookup(a, k) == Lookup(b, k);
    }
    forall j, k | j in b && k in b && b[j].LockRecord? && b[k].LockRecord?
      ensures !Conflicts(b[j].lock, b[k].lock)
    {
      assert Names(b[j], j) && Names(b[k], k);
    }
    forall i | InodeAt(b, i).Some? ensures MatchedAt(b, InodeAt(b, i).value) {
      SameSets(a, b, i);
      assert MatchedAt(a, InodeAt(a, i).value);
      if InodeAt(b, i).value.data.RegularData? {
        var k := ContentMetadataKey(InodeAt(b, i).value.data.contentFile);
        assert Lookup(a, k) == Lookup(b, k);
      }
    }
  }

  // ---------------------------------------------------------- the change log

  /** The retained log is exactly the contiguous revisions after `oldest`. */
  ghost predicate LogExact(s: State)
  {
    && 1 <= s.oldest <= s.current
    && (forall r :: r in s.commits <==> s.oldest < r <= s.current)
    && (forall r :: r in s.keys <==> s.oldest < r <= s.current)
    && (forall r | r in s.commits :: s.commits[r].keyCount == |s.keys[r]|)
    && (forall r | r in s.keys :: 0 < |s.keys[r]| <= SCHEMA_KEYS)
    && (forall r | r in s.keys :: Canonical(s.keys[r]))
  }

  lemma PublishKeepsLog(s: State, origin: Origin, keys: seq<Key>, limit: nat)
    requires LogExact(s) && Canonical(keys) && 0 < |keys| <= SCHEMA_KEYS
    ensures LogExact(Publish(s, origin, keys, limit))
  {
  }

  function Smaller(a: nat, b: nat): nat
  {
    if a < b then a else b
  }

  /** Compaction keeps as many events as the limit allows: the retained count grows
      by one up to the limit, and the newest events stay. */
  lemma PublishRetains(s: State, origin: Origin, keys: seq<Key>, limit: nat)
    requires LogExact(s)
    ensures var s' := Publish(s, origin, keys, limit);
      && s'.current == s.current + 1
      && s'.current - s'.oldest == Smaller(limit, s.current - s.oldest + 1)
      && (forall r | r in s'.keys :: s'.keys[r] == if r == s'.current then keys else s.keys[r])
      && (forall r | r in s'.commits && r < s'.current :: s'.commits[r] == s.commits[r])
      && (limit > 0 ==> s'.current in s'.commits && s'.commits[s'.current] == CommitRow(origin, |keys|))
  {
  }

  // ---------------------------------------------------------------- fences

  /** An active lease carries its scope's greatest token. */
  ghost predicate FencesExact(s: State)
  {
    forall scope | LeaseAt(s.table, scope).Some?
      :: scope in s.tokens && LeaseAt(s.table, scope).value.token == s.tokens[scope]
  }

  // ------------------------------------------------------------ the whole

  ghost predicate LedgerRowOk(s: State, m: Mutation)
  {
    && m.committedRevision == m.revision
    && m.scope in s.tokens && m.token <= s.tokens[m.scope]
  }

  ghost predicate LedgerExact(s: State)
  {
    forall k | k in s.table && s.table[k].MutationRecord? :: LedgerRowOk(s, s.table[k].mutation)
  }

  ghost predicate RevisionsBounded(s: State)
  {
    forall k | k in s.table :: 1 < RevisionOf(s.table[k]) <= s.current
  }

  /** The table alone. */
  ghost predicate TableInv(t: Table)
  {
    && WellKeyed(t) && ConstraintsHold(t)
    && Accounted(t) && ConflictFree(t) && Matched(t)
  }

  ghost predicate Inv(s: State)
  {
    TableInv(s.table) && LogExact(s) && FencesExact(s) && LedgerExact(s) && RevisionsBounded(s)
  }

  lemma FreshHolds()
    ensures Inv(FRESH)
  {
  }

  // -------------------------------------------------------- commit preserves

  lemma TableInvPreserved(t: Table, q: Request, revision: Revision, depth: nat, t': Table)
    requires TableInv(t) && Admitted(t, q, revision, depth, t')
    ensures TableInv(t') && Stepped(t, q, revision, t')
  {
    hide Admitted, Accounted, ConflictFree, Matched, Stepped, ConstraintsHold, WellKeyed;
    AdmittedSteps(t, q, revision, depth, t');
    AdmittedParts(t, q, revision, depth, t');
    SteppedParts(t, q, revision, t');
    hide PreflightOk, WellShaped, DistinctTargets, ContentPaired, TransitionsOk, LocksOk, TargetedOk, Written, ApplyAll;
    AppliedKeepsConstraints(t, Loaded(t, q), q.changes, q, revision);
    AccountedPreserved(t, q, revision, depth, t');
    ConflictFreePreserved(t, q.changes, q.mutation, revision, t');
    MatchedPreserved(t, q, revision, depth, t');
  }

  /** The ledger row, or a lease row, changes nothing about the files. */
  lemma TableInvFrames(a: Table, b: Table)
    requires TableInv(a) && SameFiles(a, b) && WellKeyed(b)
    ensures TableInv(b)
  {
    hide Accounted, ConflictFree, Matched;
    assert ConstraintsHold(b) by {
      hide Lookup;
      SameConstraints(a, b);
    }
    SameAccounting(a, b);
    SameLocksAndContent(a, b);
  }

  lemma SameConstraints(a: Table, b: Table)
    requires SameFiles(a, b) && WellKeyed(b) && ConstraintsHold(a)
    ensures ConstraintsHold(b)
  {
    forall k | k in b && !StoreOwned(k) ensures k in a && a[k] == b[k] {
      assert Lookup(a, k) == Lookup(b, k);
    }
    forall k | k in b ensures SchemaAllows(b[k]) {
      assert Names(b[k], k);
    }
    forall j, k | j in b && k in b && j != k ensures !SameUnique(b[j], b[k]) {
      assert Names(b[j], j) && Names(b[k], k);
    }
  }

  /** Store-owned rows pass through the record changes of a commit. */
  lemma StoreOwnedUntouched(t: Table, q: Request, revision: Revision, t': Table, k: Key)
    requires Stepped(t, q, revision, t') && StoreOwned(k)
    ensures Lookup(t', k) == Lookup(t, k) && !Touched(q.changes, k)
  {
    hide Stepped;
    if c :| c in q.changes && Touches(c, k) {
      ChangeAt(t, q, revision, t', c, k);
      NotStoreOwned(c, q.mutation, k);
    } else {
      UntouchedKept(t, q, revision, t', k);
    }
  }

  lemma NotStoreOwned(c: Change, mutation: MutationContext, k: Key)
    requires ShapeError(c, mutation).None? && Touches(c, k)
    ensures !StoreOwned(k)
  {
  }

  lemma CommitRevisions(t: Table, q: Request, current: Revision, t': Table)
    requires Stepped(t, q, current + 1, t') && 1 <= current
    requires forall k | k in t :: 1 < RevisionOf(t[k]) <= current
    ensures forall k | k in t' :: 1 < RevisionOf(t'[k]) <= current + 1
  {
    hide Stepped, WellKeyed, WellShaped, Written, Touched, RevisionOf;
    SteppedParts(t, q, current + 1, t');
    forall k | k in t' ensures 1 < RevisionOf(t'[k]) <= current + 1 {
      if Touched(q.changes, k) {
        TouchedIsStamped(t, q.changes, q.mutation, current + 1, t', k);
      } else {
        UntouchedKept(t, q, current + 1, t', k);
      }
    }
  }

  /** What a commit does to the store-owned rows. */
  lemma CommitOwnedRows(t: Table, q: Request, revision: Revision, t': Table, k: Key)
    requires Stepped(t, q, revision, t') && StoreOwned(k)
    ensures Lookup(t'[MutationKey(q.mutation.id) := MutationRecord(LedgerRow(q, revision))], k) ==
            if k == MutationKey(q.mutation.id) then Some(MutationRecord(LedgerRow(q, revision))) else Lookup(t, k)
  {
    StoreOwnedUntouched(t, q, revision, t', k);
  }

  lemma CommitFences(s: State, s': State, q: Request)
    requires FencesExact(s) && LedgerExact(s) && s'.tokens == s.tokens && WellKeyed(s'.table)
    requires LeaseAt(s.table, q.fence.scope).Some? && LeaseAt(s.table, q.fence.scope).value.token == q.fence.token
    requires forall k | StoreOwned(k) :: Lookup(s'.table, k) ==
               if k == MutationKey(q.mutation.id) then Some(MutationRecord(LedgerRow(q, s'.current)))
               else Lookup(s.table, k)
    ensures FencesExact(s') && LedgerExact(s')
  {
    forall scope | LeaseAt(s'.table, scope).Some?
      ensures scope in s'.tokens && LeaseAt(s'.table, scope).value.token == s'.tokens[scope]
    {
      assert Lookup(s'.table, WriterLeaseKey(scope)) == Lookup(s.table, WriterLeaseKey(scope));
    }
    forall k | k in s'.table && s'.table[k].MutationRecord? ensures LedgerRowOk(s', s'.table[k].mutation) {
      assert Names(s'.table[k], k) && StoreOwned(k);
    }
  }

  lemma CommitPreserves(s: State, step: Step)
    requires Inv(s) && step.Commit? && Enabled(s, step)
    ensures Inv(Next(s, step))
  {
    hide TableInv, Admitted, FencesExact, LedgerExact, LogExact, Stepped;
    var q := step.request;
    var s' := Next(s, step);
    TableInvPreserved(s.table, q, s.current + 1, step.depth, step.files);
    assert TableInv(s'.table) by {
      CommitTableInv(step.files, q, s.current + 1);
    }
    forall k | StoreOwned(k) ensures Lookup(s'.table, k) ==
        if k == MutationKey(q.mutation.id) then Some(MutationRecord(LedgerRow(q, s'.current))) else Lookup(s.table, k)
    {
      CommitOwnedRows(s.table, q, s.current + 1, step.files, k);
    }
    assert FencesExact(s') && LedgerExact(s') by {
      assert WellKeyed(s'.table) by { TableInvParts(s'.table); }
      CommitFences(s, s', q);
    }
    assert RevisionsBounded(s') by {
      LogStarts(s);
      CommitRevisions(s.table, q, s.current, step.files);
    }
    CommitLog(s, step);
  }

  lemma CommitLog(s: State, step: Step)
    requires LogExact(s) && step.Commit? && EventKeys(step.request, step.keys) && |step.keys| <= SCHEMA_KEYS
    ensures LogExact(Next(s, step))
  {
    assert MutationKey(step.request.mutation.id) in step.keys;
    PublishKeepsLog(s.(table := Next(s, step).table), FromMutation(step.request.mutation.id), step.keys, step.limit);
  }

  lemma LogStarts(s: State)
    requires LogExact(s)
    ensures 1 <= s.oldest <= s.current
  {
  }

  lemma TableInvParts(t: Table)
    requires TableInv(t)
    ensures WellKeyed(t)
  {
  }

  lemma CommitTableInv(t: Table, q: Request, revision: Revision)
    requires TableInv(t)
    ensures TableInv(t[MutationKey(q.mutation.id) := MutationRecord(LedgerRow(q, revision))])
  {
    hide Accounted, ConflictFree, Matched, ConstraintsHold;
    TableInvFrames(t, t[MutationKey(q.mutation.id) := MutationRecord(LedgerRow(q, revision))]);
  }

  // --------------------------------------------------------- leases preserve

  lemma LeaseTable(s: State, step: Step)
    requires TableInv(s.table) && step.Lease?
    ensures TableInv(Next(s, step).table) && SameFiles(s.table, Next(s, step).table)
  {
    assert WellKeyed(s.table);
    hide TableInv, WellKeyed, Next;
    LeaseFrames(s, step);
    TableInvFrames(s.table, Next(s, step).table);
  }

  lemma LeaseFrames(s: State, step: Step)
    requires WellKeyed(s.table) && step.Lease?
    ensures WellKeyed(Next(s, step).table) && SameFiles(s.table, Next(s, step).table)
  {
    hide Store, Retained, OutcomeOf, Fingerprint, Decide;
    var scope := ScopeOf(step.operation);
    var greatest := if scope in s.tokens then Some(s.tokens[scope]) else None;
    if DecisionAt(s, step.operation, step.leaseNow).Activate? {
      ActivatedLease(step.operation, LeaseAt(s.table, scope), greatest, step.leaseNow, s.current + 1);
    }
  }

  /** Tokens of a scope never fall. */
  lemma TokensGrow(s: State, step: Step)
    requires FencesExact(s)
    ensures forall scope | scope in s.tokens
              :: scope in Next(s, step).tokens && s.tokens[scope] <= Next(s, step).tokens[scope]
  {
  }

  lemma LeaseKeepsRows(s: State, step: Step, k: Key)
    requires step.Lease? && k != WriterLeaseKey(ScopeOf(step.operation))
    ensures Lookup(Next(s, step).table, k) == Lookup(s.table, k)
  {
  }

  lemma LeaseKeepsLedger(s: State, step: Step)
    requires WellKeyed(s.table) && FencesExact(s) && LedgerExact(s) && step.Lease?
    ensures LedgerExact(Next(s, step))
  {
    var s' := Next(s, step);
    TokensGrow(s, step);
    forall k | k in s'.table && s'.table[k].MutationRecord? ensures LedgerRowOk(s', s'.table[k].mutation) {
      hide FencesExact;
      assert k != WriterLeaseKey(ScopeOf(step.operation));
      LeaseKeepsRows(s, step, k);
      assert LedgerRowOk(s, s.table[k].mutation);
    }
  }

  lemma LeaseFences(s: State, step: Step)
    requires FencesExact(s) && step.Lease?
    ensures FencesExact(Next(s, step))
  {
    hide Store, Retained, OutcomeOf, Fingerprint, Admitted, Decide;
    var s' := Next(s, step);
    var own := ScopeOf(step.operation);
    if DecisionAt(s, step.operation, step.leaseNow).Activate? {
      ActivatedLease(step.operation, LeaseAt(s.table, own), if own in s.tokens then Some(s.tokens[own]) else None,
                     step.leaseNow, s.current + 1);
    }
    forall scope | LeaseAt(s'.table, scope).Some?
      ensures scope in s'.tokens && LeaseAt(s'.table, scope).value.token == s'.tokens[scope]
    {
      if scope != ScopeOf(step.operation) {
        LeaseKeepsRows(s, step, WriterLeaseKey(scope));
        assert LeaseAt(s.table, scope).Some?;
      }
    }
  }

  lemma LeaseRevisions(s: State, step: Step)
    requires RevisionsBounded(s) && 1 <= s.current && step.Lease?
    ensures RevisionsBounded(Next(s, step))
  {
    hide Store, Retained, OutcomeOf, Decide;
    var scope := ScopeOf(step.operation);
    if DecisionAt(s, step.operation, step.leaseNow).Activate? {
      ActivatedLease(step.operation, LeaseAt(s.table, scope),
                     if scope in s.tokens then Some(s.tokens[scope]) else None, step.leaseNow, s.current + 1);
    }
  }

  lemma LeasePreserves(s: State, step: Step)
    requires Inv(s) && step.Lease? && Enabled(s, step)
    ensures Inv(Next(s, step))
  {
    hide TableInv, FencesExact, LedgerExact, LogExact, RevisionsBounded;
    LeaseTable(s, step);
    TableInvParts(s.table);
    LeaseFences(s, step);
    LeaseKeepsLedger(s, step);
    LogStarts(s);
    LeaseRevisions(s, step);
    LeaseLog(s, step);
  }

  lemma LeaseLog(s: State, step: Step)
    requires LogExact(s) && step.Lease?
    ensures LogExact(Next(s, step))
  {
    if !DecisionAt(s, step.operation, step.leaseNow).Refuse? {
      var s' := Next(s, step);
      PublishKeepsLog(s.(table := s'.table, tokens := s'.tokens, operations := s'.operations),
                      FromLease(step.operation.id), [WriterLeaseKey(ScopeOf(step.operation))], step.leaseLimit);
    }
  }

  // ------------------------------------------------------------------- runs

  lemma StepPreserves(s: State, step: Step)
    requires Inv(s) && Enabled(s, step)
    ensures Inv(Next(s, step))
  {
    hide Inv, Next;
    if step.Commit? {
      CommitPreserves(s, step);
    } else {
      LeasePreserves(s, step);
    }
  }

  /** Every state of every run from the empty authority satisfies the invariant. */
  lemma {:induction false} InvAlways(run: seq<Step>, n: nat)
    requires Runs(FRESH, run) && n <= |run|
    ensures Inv(At(FRESH, run, n))
    ensures n < |run| ==> Enabled(At(FRESH, run, n), run[n])
  {
    hide Inv, Enabled, Next;
    if n < |run| {
      assert Takes(FRESH, run, n);
    }
    if n == 0 {
      FreshHolds();
    } else {
      InvAlways(run, n - 1);
      StepPreserves(At(FRESH, run, n - 1), run[n - 1]);
    }
  }
}
