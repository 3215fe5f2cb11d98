/** Requests that one store accepts and the other refuses. Each shows that a condition
    of the comparison of the two stores cannot be dropped. */
module StoreDifferences {
  import opened Values
  import opened Records
  import opened Requests
  import opened Applying
  import opened Loading
  import opened Transitions
  import opened LockTable
  import opened Targeting
  import opened Admission
  import opened WholeImage
  import opened MemoryStore
  import opened Counterexamples

  // --------------------------------------------------------------- own lease

  const OWN := WriterLeaseKey(1)
  const LEASE := WriterLeaseRecord(WriterLease(1, 1, 1, 100, 1, 2))

  /** The two names of before, and the lease the request is fenced by. */
  const FENCED: Table := BEFORE[OWN := LEASE]

  const TOUCH := BumpInodeGeneration(2)
  const TOUCHED: Table := FENCED[InodeKey(2) := InodeRecord(Socket(2, 2, 2, 3))]

  function Asking(p: Precondition): Request
  {
    Request(CONTEXT, FENCE, [p], [TOUCH], [])
  }

  lemma AskingPreflight(p: Precondition)
    ensures PreflightOk(Asking(p))
  {
    assert Asking(p).changes[0] == TOUCH;
    assert forall d :: d in Asking(p).changes <==> d == TOUCH;
  }

  lemma TouchTransitions(t: Table)
    ensures TransitionsOk(t, [TOUCH]) && LocksOk(FENCED, [TOUCH])
  {
    var changes := [TOUCH];
    assert forall d :: d in changes <==> d == TOUCH;
    assert changes[..0] == [];
    assert Declared([], true) == 0 && Declared(changes, true) == 0;
    assert Declared([], false) == 0 && Declared(changes, false) == 0;
    assert NewCookies(t, changes, 0) == 0 && NewCookies(t, changes, 1) == 0;
    assert InodeInserts([]) == 0 && InodeInserts(changes) == 0;
    assert Parents(t, []) == {} && Parents(t, changes) == {};
    assert FinalLock(TOUCH).None?;
  }

  /** The own lease is removed from the loaded rows. */
  lemma AskingLoads(p: Precondition)
    requires p == RecordAbsent(OWN) || p == RecordRevision(OWN, 2)
    ensures var loaded := Loaded(FENCED, Asking(p));
            InodeKey(2) in loaded && loaded[InodeKey(2)] == FENCED[InodeKey(2)] && OWN !in loaded
  {
    var q := Asking(p);
    assert TOUCH in q.changes && InodeKey(2) in ChangeKeys(TOUCH);
    assert Locked(q, InodeKey(2));
    OwnRowNotLoaded(FENCED, q, OWN);
  }

  lemma TouchWrites(loaded: Table)
    requires InodeKey(2) in loaded && loaded[InodeKey(2)] == FENCED[InodeKey(2)]
    ensures Writes(FENCED, loaded, TOUCH, 3) == Put(InodeKey(2), InodeRecord(Socket(2, 2, 2, 3)))
    ensures forall q :: ChangeRefusal(FENCED, loaded, TOUCH, q).None?
  {
  }

  lemma TouchApplies(loaded: Table, q: Request)
    requires InodeKey(2) in loaded && loaded[InodeKey(2)] == FENCED[InodeKey(2)]
    ensures ApplyAll(FENCED, loaded, [TOUCH], q, 3) == Done(TOUCHED)
  {
    hide Writes, ChangeRefusal, WriteViolates;
    TouchWrites(loaded);
    PutIsClean(FENCED, InodeKey(2), InodeRecord(Socket(2, 2, 2, 3)));
    assert [TOUCH][..0] == [];
    assert ApplyAll(FENCED, loaded, [], q, 3) == Done(FENCED);
    assert Overlay(FENCED, Put(InodeKey(2), InodeRecord(Socket(2, 2, 2, 3)))) == TOUCHED;
  }

  lemma TouchStages(q: Request)
    ensures StageAll(FENCED, [TOUCH], q, 3) == Some(TOUCHED)
  {
    hide Writes;
    TouchWrites(FENCED);
    assert [TOUCH][..0] == [];
    assert StageAll(FENCED, [], q, 3) == Some(FENCED);
    assert Overlay(FENCED, Put(InodeKey(2), InodeRecord(Socket(2, 2, 2, 3)))) == TOUCHED;
  }

  lemma TouchedChecks()
    ensures HeaderOk(TOUCHED) && InodeOk(TOUCHED, 2, 1)
  {
    assert EntriesTo(TOUCHED, 2) == {KEY_A};
  }

  /** The QID path is the identity, and the cookie tells the two names apart. */
  predicate PlainRow(k: Key, r: Record, one: Key, two: Key)
  {
    match r
    case InodeRecord(n) => k == InodeKey(n.qidPath)
    case EntryRecord(e) => k == if e.cookie == 1 then one else two
    case ContentMetadataRecord(_) => false
    case LockRecord(_) => false
    case _ => true
  }

  lemma PlainIsUnique(t: Table, one: Key, two: Key)
    requires forall k | k in t :: PlainRow(k, t[k], one, two)
    ensures Unique(t) && ConflictFree(t)
  {
  }

  lemma TouchedRows(k: Key)
    requires k in TOUCHED
    ensures RowOk(TOUCHED, TOUCHED[k], 1) && Names(TOUCHED[k], k)
  {
    assert Ancestry(TOUCHED, 1, 1, 1);
  }

  lemma TouchedLinks(i: InodeId)
    requires InodeAt(TOUCHED, i).Some?
    ensures LinkRowOk(TOUCHED, InodeAt(TOUCHED, i).value)
  {
    assert EntriesTo(TOUCHED, 1) == {};
    assert EntriesTo(TOUCHED, 2) == {KEY_A};
    assert EntriesTo(TOUCHED, 3) == {KEY_B};
    assert i == 1 || i == 2 || i == 3;
  }

  lemma TouchedIsUnique()
    ensures Unique(TOUCHED) && ConflictFree(TOUCHED)
  {
    hide PlainRow;
    forall k | k in TOUCHED ensures PlainRow(k, TOUCHED[k], KEY_A, KEY_B) {
      TouchedIsPlain(k);
    }
    PlainIsUnique(TOUCHED, KEY_A, KEY_B);
  }

  lemma TouchedIsPlain(k: Key)
    requires k in TOUCHED
    ensures PlainRow(k, TOUCHED[k], KEY_A, KEY_B)
  {
  }

  lemma TouchedIsImage()
    ensures ImageOk(TOUCHED, 1)
  {
    hide RowOk, LinkRowOk, Unique, ConflictFree;
    TouchedIsUnique();
    forall k | k in TOUCHED ensures RowOk(TOUCHED, TOUCHED[k], 1) && Names(TOUCHED[k], k) {
      TouchedRows(k);
    }
    forall i | InodeAt(TOUCHED, i).Some? ensures LinkRowOk(TOUCHED, InodeAt(TOUCHED, i).value) {
      TouchedLinks(i);
    }
  }

  lemma AskingOnly(p: Precondition)
    requires p == RecordAbsent(OWN) || p == RecordRevision(OWN, 2)
    ensures var q := Asking(p);
            && (PreconditionsHold(FENCED, q) <==> ConflictOf(p, FENCED, Loaded(FENCED, q), q).None?)
            && (PreconditionsTrue(FENCED, q) <==> ConflictOf(p, FENCED, FENCED, q).None?)
  {
    hide ConflictOf, Loaded;
    assert Asking(p).preconditions[0] == p;
    assert forall x :: x in Asking(p).preconditions <==> x == p;
  }

  lemma AskingJudged()
    ensures var q := Asking(RecordRevision(OWN, 2)); PreconditionsTrue(FENCED, q) && !PreconditionsHold(FENCED, q)
    ensures var q := Asking(RecordAbsent(OWN)); PreconditionsHold(FENCED, q) && !PreconditionsTrue(FENCED, q)
  {
    hide Loaded, PreconditionsTrue, PreconditionsHold;
    AskingLoads(RecordRevision(OWN, 2));
    AskingLoads(RecordAbsent(OWN));
    AskingOnly(RecordRevision(OWN, 2));
    AskingOnly(RecordAbsent(OWN));
    assert OWN in FENCED && RevisionOf(FENCED[OWN]) == 2;
  }

  lemma TouchAcceptedInMemory(p: Precondition)
    requires PreconditionsTrue(FENCED, Asking(p))
    ensures MemoryAccepts(FENCED, Asking(p), 3, 1, TOUCHED)
  {
    hide PreflightOk, TransitionsOk, StageAll, ImageOk, PreconditionsTrue;
    AskingPreflight(p);
    TouchTransitions(FENCED);
    TouchStages(Asking(p));
    TouchedIsImage();
    assert forall c :: c in [TOUCH] <==> c == TOUCH;
  }

  lemma TouchAdmitted(p: Precondition)
    requires PreconditionsHold(FENCED, Asking(p)) && InodeKey(2) in Loaded(FENCED, Asking(p))
    requires Loaded(FENCED, Asking(p))[InodeKey(2)] == FENCED[InodeKey(2)]
    ensures Admitted(FENCED, Asking(p), 3, 1, TOUCHED)
  {
    hide PreflightOk, TransitionsOk, LocksOk, TargetedOk, ApplyAll, InodeOk, HeaderOk, Loaded, PreconditionsHold;
    var loaded := Loaded(FENCED, Asking(p));
    AskingPreflight(p);
    TouchTransitions(loaded);
    TouchApplies(loaded, Asking(p));
    TouchedChecks();
    assert ChangeInodes(loaded, TOUCH) == {2};
    OneTarget(TOUCHED, loaded, TOUCH, 2);
  }

  lemma PreconditionsNeeded(q: Request, depth: nat, t': Table)
    ensures !PreconditionsHold(FENCED, q) ==> !Admitted(FENCED, q, 3, depth, t')
    ensures !PreconditionsTrue(FENCED, q) ==> !MemoryAccepts(FENCED, q, 3, depth, t')
  {
    hide PreflightOk, TransitionsOk, StageAll, ImageOk, LocksOk, ApplyAll, TargetedOk;
  }

  /** The true revision of the own lease: accepted in memory, refused by the database. */
  lemma OwnRevisionDiffers(depth: nat, t': Table)
    ensures var q := Asking(RecordRevision(OWN, 2));
            PastFence(FENCED, q) && MemoryAccepts(FENCED, q, 3, 1, TOUCHED) && !Admitted(FENCED, q, 3, depth, t')
  {
    hide Admitted, MemoryAccepts, PreconditionsHold, PreconditionsTrue;
    AskingJudged();
    TouchAcceptedInMemory(RecordRevision(OWN, 2));
    PreconditionsNeeded(Asking(RecordRevision(OWN, 2)), depth, t');
  }

  /** The absence of the own lease: accepted by the database, refused in memory. */
  lemma OwnAbsenceDiffers(depth: nat, t': Table)
    ensures var q := Asking(RecordAbsent(OWN));
            PastFence(FENCED, q) && Admitted(FENCED, q, 3, 1, TOUCHED) && !MemoryAccepts(FENCED, q, 3, depth, t')
  {
    hide Admitted, MemoryAccepts, PreconditionsHold, PreconditionsTrue, Loaded;
    AskingJudged();
    AskingLoads(RecordAbsent(OWN));
    TouchAdmitted(RecordAbsent(OWN));
    PreconditionsNeeded(Asking(RecordAbsent(OWN)), depth, t');
  }

  // ------------------------------------------------------------- transitions

  /** The replacement that turns a generation back passes the database and not the
      in-memory store, whose validators always see the header. */
  lemma RewindDiffers(depth: nat, t': Table)
    ensures var q := Only(Replace(InodeKey(1), REWOUND));
            Admitted(BEFORE, q, 3, 1, BEFORE[InodeKey(1) := Stamp(REWOUND, 3)])
            && !MemoryAccepts(BEFORE, q, 3, depth, t')
  {
    UnguardedStampFalls();
    hide Admitted, StageAll, ImageOk, PreflightOk, PreconditionsTrue;
    var c := Replace(InodeKey(1), REWOUND);
    assert c in [c] && !ReplacementOk(BEFORE, [c], Parents(BEFORE, [c]), c);
  }

  // -------------------------------------------------------------- lock order

  const OLD_LOCK := Lock(1, 2, 0, None, Exclusive, LockOwner(1, 1), 1, 2)
  const NEW_LOCK := Lock(2, 2, 0, None, Exclusive, LockOwner(2, 2), 1, 3)
  const OPEN_ONE := OpenRecord(Open(1, 2, 1, 1, false, 1, 2))
  const OPEN_TWO := OpenRecord(Open(2, 2, 2, 1, false, 1, 2))

  /** Two opens of inode 2, the first holding a lock on all its bytes. */
  const LOCKED: Table := BEFORE[OpenKey(1) := OPEN_ONE][OpenKey(2) := OPEN_TWO][LockKey(2, 1) := LockRecord(OLD_LOCK)]

  /** The second takes the lock before the first gives it up. */
  const TAKE := Insert(LockKey(2, 2), LockRecord(NEW_LOCK))
  const GIVE := Delete(LockKey(2, 1))
  const SWAP := Request(CONTEXT, FENCE, [], [TAKE, GIVE], [])

  const SWAPPED: Table := BEFORE[OpenKey(1) := OPEN_ONE][OpenKey(2) := OPEN_TWO][LockKey(2, 2) := LockRecord(NEW_LOCK)]

  lemma SwapPreflight()
    ensures PreflightOk(SWAP)
  {
    hide DistinctTargets, ContentPaired;
    KeysAreApart(SWAP.changes);
    forall c | c in SWAP.changes ensures ShapeError(c, CONTEXT).None? && !NeedsInode(c) && !NeedsMetadata(c) {
      assert c == TAKE || c == GIVE;
    }
    UnpairedIsPaired(SWAP.changes);
  }

  lemma SwapLocked(k: Key)
    ensures Locked(SWAP, k) <==> k == LockKey(2, 1) || k == LockKey(2, 2)
  {
    assert forall c :: c in SWAP.changes <==> c == TAKE || c == GIVE;
    assert ChangeKeys(TAKE) == {LockKey(2, 2)} && ChangeKeys(GIVE) == {LockKey(2, 1)};
  }

  lemma SwapLoads()
    ensures var loaded := Loaded(LOCKED, SWAP);
            && FilesystemKey !in loaded && LockKey(2, 2) !in loaded
            && LockKey(2, 1) in loaded && loaded[LockKey(2, 1)] == LockRecord(OLD_LOCK)
  {
    hide Locked;
    SwapLocked(LockKey(2, 1));
    SwapLocked(FilesystemKey);
  }

  lemma SwapTransitions(loaded: Table)
    requires FilesystemKey !in loaded
    ensures TransitionsOk(loaded, [TAKE, GIVE])
  {
    assert forall c :: c in [TAKE, GIVE] <==> c == TAKE || c == GIVE;
  }

  lemma SwapLocks()
    ensures LocksOk(LOCKED, [TAKE, GIVE])
  {
    var changes := [TAKE, GIVE];
    assert forall c :: c in changes <==> c == TAKE || c == GIVE;
    assert FinalLock(TAKE) == Some(NEW_LOCK) && FinalLock(GIVE).None?;
    NoSelfConflict(NEW_LOCK);
    assert GIVE in changes && RemovedLock(GIVE) == Some(LockKey(2, 1));
    assert Removed(changes, LockKey(2, 1));
  }

  lemma SwapApplies(loaded: Table)
    requires LockKey(2, 2) !in loaded
    ensures ApplyAll(LOCKED, loaded, [TAKE, GIVE], SWAP, 3) == Done(SWAPPED)
  {
    hide ApplyChange;
    var both := LOCKED[LockKey(2, 2) := LockRecord(NEW_LOCK)];
    TakeApplies(loaded);
    DeleteApplies(both, loaded, SWAP, LockKey(2, 1));
    assert [TAKE, GIVE][..1] == [TAKE] && [TAKE][..0] == [];
    assert ApplyAll(LOCKED, loaded, [], SWAP, 3) == Done(LOCKED);
    assert ApplyAll(LOCKED, loaded, [TAKE], SWAP, 3) == Done(both);
    assert both - {LockKey(2, 1)} == SWAPPED;
  }

  lemma TakeApplies(loaded: Table)
    requires LockKey(2, 2) !in loaded
    ensures ApplyChange(LOCKED, loaded, TAKE, SWAP, 3) == Done(LOCKED[LockKey(2, 2) := LockRecord(NEW_LOCK)])
  {
    var w := Writes(LOCKED, loaded, TAKE, 3);
    assert w == Put(LockKey(2, 2), LockRecord(NEW_LOCK));
    assert !WriteViolates(LOCKED, w) by { PutIsClean(LOCKED, LockKey(2, 2), LockRecord(NEW_LOCK)); }
    assert Overlay(LOCKED, w) == LOCKED[LockKey(2, 2) := LockRecord(NEW_LOCK)];
  }

  lemma SwapChecks()
    ensures HeaderOk(SWAPPED) && InodeOk(SWAPPED, 2, 1) && OpenOk(SWAPPED, 1) && OpenOk(SWAPPED, 2)
    ensures LockOwnerOk(SWAPPED, NEW_LOCK)
  {
    assert LockOwnerOk(SWAPPED, NEW_LOCK);
    SwapLinks();
    SwapOpens(1);
    SwapOpens(2);
  }

  lemma SwapLinks()
    ensures InodeOk(SWAPPED, 2, 1)
  {
    assert EntriesTo(SWAPPED, 2) == {KEY_A};
  }

  lemma SwapOpens(o: OpenId)
    ensures OpenOk(SWAPPED, o)
  {
  }

  lemma SwapTargets(loaded: Table)
    requires LockKey(2, 1) in loaded && loaded[LockKey(2, 1)] == LockRecord(OLD_LOCK)
    ensures TargetedOk(SWAPPED, loaded, [TAKE, GIVE], 1)
  {
    hide HeaderOk, InodeOk, OpenOk, LockOwnerOk;
    SwapChecks();
    assert forall c :: c in [TAKE, GIVE] <==> c == TAKE || c == GIVE;
    assert ChangeInodes(loaded, TAKE) == {2} && ChangeInodes(loaded, GIVE) == {2};
    assert ChangeOpens(loaded, TAKE) == {2} && ChangeOpens(loaded, GIVE) == {1};
  }

  lemma TakeIsNotStaged(depth: nat, t': Table)
    ensures !MemoryAccepts(LOCKED, SWAP, 3, depth, t')
  {
    hide ImageOk, PreflightOk, PreconditionsTrue, WholeTransitionsOk;
    assert !LockFree(LOCKED, TAKE) by {
      assert LockKey(2, 1) in LOCKED && Conflicts(NEW_LOCK, OLD_LOCK);
    }
    assert [TAKE, GIVE][..1] == [TAKE] && [TAKE][..0] == [];
    assert StageAll(LOCKED, [], SWAP, 3) == Some(LOCKED);
    assert StageAll(LOCKED, [TAKE], SWAP, 3) == None;
  }

  /** A lock taken before the conflicting one is given up: accepted by the database,
      refused in memory. */
  lemma LockOrderDiffers(depth: nat, t': Table)
    ensures Admitted(LOCKED, SWAP, 3, 1, SWAPPED) && !MemoryAccepts(LOCKED, SWAP, 3, depth, t')
  {
    hide TargetedOk, PreflightOk, TransitionsOk, LocksOk, ApplyAll, Loaded, MemoryAccepts;
    SwapPreflight();
    SwapLoads();
    var loaded := Loaded(LOCKED, SWAP);
    SwapTransitions(loaded);
    SwapLocks();
    SwapApplies(loaded);
    SwapTargets(loaded);
    TakeIsNotStaged(depth, t');
    assert PreconditionsHold(LOCKED, SWAP);
  }

  // ------------------------------------------------------------ cookie order

  const NAME_C: Bytes := [99]
  const KEY_C := EntryKey(1, NAME_C)

  /** Inode 2 gets its new name before it loses the old one, under the same cookie. */
  const LINK := Insert(KEY_C, EntryRecord(Entry(1, NAME_C, 1, 2, 3)))
  const UNLINK := Delete(KEY_A)
  const RELINK := Request(CONTEXT, FENCE, [], [LINK, UNLINK, BUMP], [])

  const RELINKED: Table := map[
    FilesystemKey := FilesystemRecord(HEADER),
    InodeKey(1) := InodeRecord(Directory(6, 2, 3)),
    InodeKey(2) := InodeRecord(Socket(2, 2, 1, 2)),
    InodeKey(3) := InodeRecord(Socket(3, 3, 1, 2)),
    KEY_B := EntryRecord(Entry(1, NAME_B, 2, 3, 2)),
    KEY_C := EntryRecord(Entry(1, NAME_C, 1, 2, 3))
  ]

  lemma NamesDiffer()
    ensures KEY_A != KEY_B && KEY_A != KEY_C && KEY_B != KEY_C
  {
    assert NAME_A[0] != NAME_B[0] && NAME_A[0] != NAME_C[0] && NAME_B[0] != NAME_C[0];
  }

  lemma RelinkPreflight()
    ensures PreflightOk(RELINK)
  {
    hide DistinctTargets, ContentPaired;
    RelinkApart();
    forall c | c in RELINK.changes ensures ShapeError(c, CONTEXT).None? && !NeedsInode(c) && !NeedsMetadata(c) {
      assert c == LINK || c == UNLINK || c == BUMP;
    }
    UnpairedIsPaired(RELINK.changes);
  }

  lemma RelinkApart()
    ensures DistinctTargets(RELINK.changes)
  {
    hide Touches;
    var changes := RELINK.changes;
    assert changes[0] == LINK && changes[1] == UNLINK && changes[2] == BUMP;
    forall k ensures !(Touches(LINK, k) && Touches(UNLINK, k)) && !(Touches(LINK, k) && Touches(BUMP, k))
                     && !(Touches(UNLINK, k) && Touches(BUMP, k)) {
      RelinkTouches(k);
    }
  }

  lemma RelinkTouches(k: Key)
    ensures !(Touches(LINK, k) && Touches(UNLINK, k)) && !(Touches(LINK, k) && Touches(BUMP, k))
    ensures !(Touches(UNLINK, k) && Touches(BUMP, k))
  {
    NamesDiffer();
  }

  lemma RelinkCookies()
    ensures CookiesOk(BEFORE, [LINK, UNLINK, BUMP]) && QidPathsOk(BEFORE, [LINK, UNLINK, BUMP])
  {
    NamesDiffer();
    var changes := [LINK, UNLINK, BUMP];
    assert forall c :: c in changes <==> c == LINK || c == UNLINK || c == BUMP;
    assert changes[..2] == [LINK, UNLINK] && changes[..1] == [LINK] && changes[..0] == [];
    assert [LINK, UNLINK][..1] == [LINK] && [LINK][..0] == [];
    assert Freed(BEFORE, UNLINK) == Some(Entry(1, NAME_A, 1, 2, 2)) && UNLINK in changes;
    assert Transfers(BEFORE, changes, LINK.record.entry);
    assert NewCookies(BEFORE, changes, 0) == 0 && NewCookies(BEFORE, changes, 1) == 0;
    assert NewCookies(BEFORE, changes, 2) == 0 && NewCookies(BEFORE, changes, 3) == 0;
    assert Declared([], true) == 0 && Declared([LINK], true) == 0 && Declared([LINK, UNLINK], true) == 0;
    assert Declared([], false) == 0 && Declared([LINK], false) == 0 && Declared([LINK, UNLINK], false) == 0;
    assert InodeInserts([]) == 0 && InodeInserts([LINK]) == 0 && InodeInserts([LINK, UNLINK]) == 0;
  }

  lemma RelinkAdvances()
    ensures MonotonicOk(BEFORE, [LINK, UNLINK, BUMP]) && XattrsOk(BEFORE, [LINK, UNLINK, BUMP])
  {
    var changes := [LINK, UNLINK, BUMP];
    assert forall c :: c in changes <==> c == LINK || c == UNLINK || c == BUMP;
    forall p | p in Parents(BEFORE, changes) ensures SomeAdvances(BEFORE, changes, p) {
      ParentsAre(BEFORE, changes, p);
      assert p == 1;
      assert AdvancesDirectory(BEFORE, BUMP, 1);
    }
  }

  lemma RelinkStages()
    ensures StageAll(BEFORE, [LINK, UNLINK, BUMP], RELINK, 3) == Some(RELINKED)
  {
    hide StageChange;
    NamesDiffer();
    var one := BEFORE[KEY_C := EntryRecord(Entry(1, NAME_C, 1, 2, 3))];
    var two := one - {KEY_A};
    LinkStages();
    UnlinkStages(one);
    BumpStages(two);
    var changes := [LINK, UNLINK, BUMP];
    assert changes[..2] == [LINK, UNLINK] && [LINK, UNLINK][..1] == [LINK] && [LINK][..0] == [];
    assert StageAll(BEFORE, [], RELINK, 3) == Some(BEFORE);
    assert StageAll(BEFORE, [LINK], RELINK, 3) == Some(one);
    assert StageAll(BEFORE, [LINK, UNLINK], RELINK, 3) == Some(two);
    assert two[InodeKey(1) := InodeRecord(Directory(6, 2, 3))] == RELINKED;
  }

  lemma LinkStages()
    ensures StageChange(BEFORE, LINK, RELINK, 3) == Some(BEFORE[KEY_C := EntryRecord(Entry(1, NAME_C, 1, 2, 3))])
  {
    NamesDiffer();
    assert KEY_C !in BEFORE;
    var w := Writes(BEFORE, BEFORE, LINK, 3);
    assert w == Put(KEY_C, EntryRecord(Entry(1, NAME_C, 1, 2, 3)));
    assert Overlay(BEFORE, w) == BEFORE[KEY_C := EntryRecord(Entry(1, NAME_C, 1, 2, 3))];
  }

  lemma UnlinkStages(cur: Table)
    requires KEY_A in cur
    ensures StageChange(cur, UNLINK, RELINK, 3) == Some(cur - {KEY_A})
  {
    var w := Writes(cur, cur, UNLINK, 3);
    assert w == Write({KEY_A}, map[]);
    assert Overlay(cur, w) == cur - {KEY_A};
  }

  lemma BumpStages(cur: Table)
    requires InodeKey(1) in cur && cur[InodeKey(1)] == BEFORE[InodeKey(1)]
    ensures StageChange(cur, BUMP, RELINK, 3) == Some(cur[InodeKey(1) := InodeRecord(Directory(6, 2, 3))])
  {
    var w := Writes(cur, cur, BUMP, 3);
    assert w == Put(InodeKey(1), InodeRecord(Directory(6, 2, 3)));
    assert Overlay(cur, w) == cur[InodeKey(1) := InodeRecord(Directory(6, 2, 3))];
  }

  lemma RelinkedRows(k: Key)
    requires k in RELINKED
    ensures RowOk(RELINKED, RELINKED[k], 1) && Names(RELINKED[k], k)
  {
    assert Ancestry(RELINKED, 1, 1, 1);
  }

  lemma RelinkedLinks(i: InodeId)
    requires InodeAt(RELINKED, i).Some?
    ensures LinkRowOk(RELINKED, InodeAt(RELINKED, i).value)
  {
    NamesDiffer();
    assert EntriesTo(RELINKED, 1) == {};
    assert EntriesTo(RELINKED, 2) == {KEY_C};
    assert EntriesTo(RELINKED, 3) == {KEY_B};
    assert i == 1 || i == 2 || i == 3;
  }

  lemma RelinkedIsUnique()
    ensures Unique(RELINKED) && ConflictFree(RELINKED)
  {
    hide PlainRow;
    forall k | k in RELINKED ensures PlainRow(k, RELINKED[k], KEY_C, KEY_B) {
      RelinkedIsPlain(k);
    }
    PlainIsUnique(RELINKED, KEY_C, KEY_B);
  }

  lemma RelinkedIsPlain(k: Key)
    requires k in RELINKED
    ensures PlainRow(k, RELINKED[k], KEY_C, KEY_B)
  {
  }

  lemma RelinkedIsImage()
    ensures ImageOk(RELINKED, 1)
  {
    hide RowOk, LinkRowOk, Unique, ConflictFree;
    RelinkedIsUnique();
    forall k | k in RELINKED ensures RowOk(RELINKED, RELINKED[k], 1) && Names(RELINKED[k], k) {
      RelinkedRows(k);
    }
    forall i | InodeAt(RELINKED, i).Some? ensures LinkRowOk(RELINKED, InodeAt(RELINKED, i).value) {
      RelinkedLinks(i);
    }
  }

  lemma LinkViolates(loaded: Table)
    ensures ApplyChange(BEFORE, loaded, LINK, RELINK, 3).Refused?
  {
    NamesDiffer();
    var r := EntryRecord(Entry(1, NAME_C, 1, 2, 3));
    var w := Put(KEY_C, r);
    assert Writes(BEFORE, loaded, LINK, 3) == w;
    assert BEFORE - w.removed == BEFORE;
    assert KEY_A in BEFORE && KEY_A != KEY_C && SameUnique(BEFORE[KEY_A], r);
    assert Violates(BEFORE, KEY_C, r);
    assert KEY_C in w.written && WriteViolates(BEFORE, w);
  }

  lemma RelinkRefused(loaded: Table)
    ensures ApplyAll(BEFORE, loaded, [LINK, UNLINK, BUMP], RELINK, 3).Refused?
  {
    hide ApplyChange;
    LinkViolates(loaded);
    var changes := [LINK, UNLINK, BUMP];
    assert changes[..2] == [LINK, UNLINK] && [LINK, UNLINK][..1] == [LINK] && [LINK][..0] == [];
    assert ApplyAll(BEFORE, loaded, [], RELINK, 3) == Done(BEFORE);
    assert ApplyAll(BEFORE, loaded, [LINK], RELINK, 3).Refused?;
    assert ApplyAll(BEFORE, loaded, [LINK, UNLINK], RELINK, 3).Refused?;
  }

  /** A name inserted before the old one under the same cookie is deleted: accepted in
      memory, refused by the unique constraint of the database. */
  lemma CookieOrderDiffers(depth: nat, t': Table)
    ensures MemoryAccepts(BEFORE, RELINK, 3, 1, RELINKED) && !Admitted(BEFORE, RELINK, 3, depth, t')
  {
    hide CookiesOk, QidPathsOk, MonotonicOk, XattrsOk, PreflightOk, StageAll, ImageOk, ApplyAll, Loaded;
    RelinkPreflight();
    RelinkCookies();
    RelinkAdvances();
    RelinkStages();
    RelinkedIsImage();
    RelinkRefused(Loaded(BEFORE, RELINK));
    assert PreconditionsTrue(BEFORE, RELINK);
  }
}
