/** A first run: a writer takes the lease and creates the filesystem. It shows that
    commits are reachable from the empty store and that the run theorems speak about
    real filesystems. */
module Bootstrap {
  import opened Values
  import opened Records
  import opened Requests
  import opened Applying
  import opened Effects
  import opened Loading
  import opened Transitions
  import opened LockTable
  import opened Targeting
  import opened Admission
  import opened Namespace
  import opened Leases
  import opened Authority
  import opened Invariants

  const SCOPE: ScopeId := 1
  const FENCE := Fence(SCOPE, 1, 1, 1)
  const ACQUIRE_STEP := Lease(Acquire(1, SCOPE, 1, 1, 100), 7, 0, 10)
  const LEASE := WriterLease(SCOPE, 1, 1, 100, 1, 2)
  const LEASED: Table := map[WriterLeaseKey(SCOPE) := WriterLeaseRecord(LEASE)]

  const ROOT := Inode(1, 1, 0, Attributes(0, [114], [114], Timestamps(0, 0, 0, 0)), 0, 1, 1, None, DirectoryData(1, 1))
  const HEADER := Header(1, 2, 1, 1, 0)
  const MAKE_HEADER := Insert(FilesystemKey, FilesystemRecord(HEADER))
  const MAKE_ROOT := Insert(InodeKey(1), InodeRecord(ROOT))
  const CREATE := Request(MutationContext(1, [], 1, 0), FENCE, [], [MAKE_HEADER, MAKE_ROOT], [])

  const HALF: Table := map[
    WriterLeaseKey(SCOPE) := WriterLeaseRecord(LEASE),
    FilesystemKey := FilesystemRecord(HEADER.(revision := 3))
  ]

  const FILES: Table := map[
    WriterLeaseKey(SCOPE) := WriterLeaseRecord(LEASE),
    FilesystemKey := FilesystemRecord(HEADER.(revision := 3)),
    InodeKey(1) := InodeRecord(ROOT.(revision := 3))
  ]

  const KEYS: seq<Key> := [FilesystemKey, InodeKey(1), MutationKey(1)]
  const CREATE_STEP := Commit(CREATE, 50, 1, 10, FILES, KEYS)

  lemma AcquireLeads()
    ensures Enabled(FRESH, ACQUIRE_STEP)
    ensures Next(FRESH, ACQUIRE_STEP).table == LEASED && Next(FRESH, ACQUIRE_STEP).current == 2
  {
    assert DecisionAt(FRESH, ACQUIRE_STEP.operation, 0) == Activate(LEASE);
  }

  lemma CreatePreflight()
    ensures PreflightOk(CREATE)
  {
    assert CREATE.changes[0] == MAKE_HEADER && CREATE.changes[1] == MAKE_ROOT;
    assert forall c :: c in CREATE.changes <==> c == MAKE_HEADER || c == MAKE_ROOT;
  }

  lemma NothingLoaded()
    ensures Loaded(LEASED, CREATE) == map[]
  {
    forall k | k in LEASED ensures !Locked(CREATE, k) {
      assert Own(CREATE, k);
    }
  }

  lemma CreateTransitions()
    ensures TransitionsOk(map[], CREATE.changes) && LocksOk(LEASED, CREATE.changes)
  {
    assert forall c :: c in CREATE.changes <==> c == MAKE_HEADER || c == MAKE_ROOT;
    assert FinalLock(MAKE_HEADER).None? && FinalLock(MAKE_ROOT).None?;
  }

  lemma HeaderApplies()
    ensures ApplyChange(LEASED, map[], MAKE_HEADER, CREATE, 3) == Done(HALF)
  {
    var w := Writes(LEASED, map[], MAKE_HEADER, 3);
    assert w == Put(FilesystemKey, FilesystemRecord(HEADER.(revision := 3)));
    assert !WriteViolates(LEASED, w);
    assert Overlay(LEASED, w) == HALF;
  }

  lemma RootApplies()
    ensures ApplyChange(HALF, map[], MAKE_ROOT, CREATE, 3) == Done(FILES)
  {
    var w := Writes(HALF, map[], MAKE_ROOT, 3);
    assert w == Put(InodeKey(1), InodeRecord(ROOT.(revision := 3)));
    assert !WriteViolates(HALF, w);
    assert Overlay(HALF, w) == FILES;
  }

  lemma CreateApplies()
    ensures ApplyAll(LEASED, map[], CREATE.changes, CREATE, 3) == Done(FILES)
  {
    hide ApplyChange;
    HeaderApplies();
    RootApplies();
    var changes := CREATE.changes;
    assert changes == [MAKE_HEADER, MAKE_ROOT];
    assert changes[..1] == [MAKE_HEADER] && [MAKE_HEADER][..0] == [];
    assert ApplyAll(LEASED, map[], [], CREATE, 3) == Done(LEASED);
    assert ApplyAll(LEASED, map[], [MAKE_HEADER], CREATE, 3) == Done(HALF);
  }

  lemma CreateTargets()
    ensures TargetedOk(FILES, map[], CREATE.changes, 1)
  {
    assert forall c :: c in CREATE.changes <==> c == MAKE_HEADER || c == MAKE_ROOT;
    assert EntriesTo(FILES, 1) == {};
    assert Ancestry(FILES, 1, 1, 1);
    assert InodeOk(FILES, 1, 1);
    assert ChangeInodes(map[], MAKE_HEADER) == {1} && ChangeInodes(map[], MAKE_ROOT) == {1};
  }

  lemma CreateAdmitted()
    ensures Admitted(LEASED, CREATE, 3, 1, FILES)
  {
    hide PreflightOk, TransitionsOk, LocksOk, ApplyAll, TargetedOk, Loaded;
    CreatePreflight();
    NothingLoaded();
    CreateTransitions();
    CreateApplies();
    CreateTargets();
    assert PreconditionsHold(LEASED, CREATE);
  }

  lemma CreateEvent()
    ensures EventKeys(CREATE, KEYS)
  {
    assert forall c :: c in CREATE.changes <==> c == MAKE_HEADER || c == MAKE_ROOT;
    assert Affected(MAKE_HEADER) == [FilesystemKey] && Affected(MAKE_ROOT) == [InodeKey(1)];
    forall k ensures Touched(CREATE.changes, k) <==> k == FilesystemKey || k == InodeKey(1) {
      assert Touches(MAKE_HEADER, FilesystemKey) && Touches(MAKE_ROOT, InodeKey(1));
    }
    assert LexLess([0], [1, 1]) && LexLess([0], [10, 1]) && LexLess([1, 1], [10, 1]);
    assert Rank(FilesystemKey) == [0] && Rank(InodeKey(1)) == [1, 1] && Rank(MutationKey(1)) == [10, 1];
  }

  /** Two transactions from the empty store: a grant, then the creation of a tree. */
  lemma FirstRun()
    ensures var run := [ACQUIRE_STEP, CREATE_STEP];
            Runs(FRESH, run) && Tree(End(FRESH, run).table) && End(FRESH, run).current == 3
  {
    hide Enabled, Next, Tree;
    var run := [ACQUIRE_STEP, CREATE_STEP];
    AcquireLeads();
    CreateFollows(Next(FRESH, ACQUIRE_STEP));
    assert At(FRESH, run, 0) == FRESH && At(FRESH, run, 1) == Next(FRESH, ACQUIRE_STEP);
    assert At(FRESH, run, 2) == Next(At(FRESH, run, 1), CREATE_STEP);
  }

  lemma CreateFollows(s: State)
    requires s.table == LEASED && s.current == 2
    ensures Enabled(s, CREATE_STEP) && Next(s, CREATE_STEP).current == 3 && Tree(Next(s, CREATE_STEP).table)
  {
    hide Admitted, EventKeys, Tree;
    CreateAdmitted();
    CreateEvent();
    FilesAreTree();
    var t := Next(s, CREATE_STEP).table;
    assert t == FILES[MutationKey(1) := MutationRecord(LedgerRow(CREATE, 3))];
    SameTree(FILES, t);
  }

  /** A COMMIT under way can land although the same request was answered with a definite
      rejection meanwhile: planned while its lease runs, it lands after the deadline, and
      a retry past the deadline is answered as expired. */
  lemma LateCommitOutlivesRejection()
    ensures var s := Next(FRESH, ACQUIRE_STEP);
            && Enabled(s, CREATE_STEP) && CREATE_STEP.request == CREATE && CREATE_STEP.now < LEASE.deadline
            && ValidateFence(CREATE.fence, LeaseAt(s.table, SCOPE), LEASE.deadline).Expired?
  {
    hide Enabled, Next;
    AcquireLeads();
    CreateFollows(Next(FRESH, ACQUIRE_STEP));
  }

  lemma FilesAreTree()
    ensures Tree(FILES)
  {
    hide Admitted, Tree;
    CreateAdmitted();
    assert Unborn(LEASED) && WellKeyed(LEASED);
    BootstrapMakesTree(LEASED, CREATE, 3, 1, FILES);
  }
}
