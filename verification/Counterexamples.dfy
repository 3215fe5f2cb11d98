/** Accepted requests that break what their callers are trusted with. Each shows
    that a caller condition of the main theorems cannot be dropped. */
module Counterexamples {
  import opened Values
  import opened Records
  import opened Requests
  import opened Applying
  import opened Loading
  import opened Transitions
  import opened LockTable
  import opened Targeting
  import opened Admission
  import opened Namespace
  import opened Allocation
  import opened DirectoryStamp
  import opened WholeImage
  import opened ForeignKeys

  const NAME_A: Bytes := [97]
  const NAME_B: Bytes := [98]
  const KEY_A := EntryKey(1, NAME_A)
  const KEY_B := EntryKey(1, NAME_B)
  const TIMES := Timestamps(0, 0, 0, 0)
  const ATTRIBUTES := Attributes(0, [114], [114], TIMES)

  function Directory(generation: nat, inodeGeneration: nat, revision: Revision): Inode
  {
    Inode(1, 1, revision, ATTRIBUTES, 0, 1, inodeGeneration, None, DirectoryData(generation, 1))
  }

  function Socket(id: InodeId, qid: nat, inodeGeneration: nat, revision: Revision): Inode
  {
    Inode(id, qid, revision, ATTRIBUTES, 0, 1, inodeGeneration, None, SocketData)
  }

  const HEADER := Header(1, 4, 3, 1, 2)

  /** A root directory with two names, `a` for inode 2 and `b` for inode 3. */
  const BEFORE: Table := map[
    FilesystemKey := FilesystemRecord(HEADER),
    InodeKey(1) := InodeRecord(Directory(5, 1, 2)),
    InodeKey(2) := InodeRecord(Socket(2, 2, 1, 2)),
    InodeKey(3) := InodeRecord(Socket(3, 3, 1, 2)),
    KEY_A := EntryRecord(Entry(1, NAME_A, 1, 2, 2)),
    KEY_B := EntryRecord(Entry(1, NAME_B, 2, 3, 2))
  ]

  const CONTEXT := MutationContext(1, [], 1, 0)
  const FENCE := Fence(1, 1, 1, 1)

  function Only(c: Change): Request
  {
    Request(CONTEXT, FENCE, [], [c], [])
  }

  lemma BeforeIsTree()
    ensures WellKeyed(BEFORE) && Tree(BEFORE)
    ensures QidsBelow(BEFORE, HEADER.nextQidPath)
  {
    assert EntriesTo(BEFORE, 1) == {};
    assert EntriesTo(BEFORE, 2) == {KEY_A};
    assert EntriesTo(BEFORE, 3) == {KEY_B};
    forall i | InodeAt(BEFORE, i).Some? && i != 1 ensures i == 2 || i == 3 {
    }
  }

  // ------------------------------------------------ requests of one replacement

  /** A request that replaces one inode row touches no header and is not guarded. */
  lemma ReplaceIsUnguarded(t: Table, k: Key, r: Record)
    requires k.InodeKey? && r.InodeRecord?
    ensures !Guarded(t, Only(Replace(k, r)))
    ensures forall j :: j in Loaded(t, Only(Replace(k, r))) <==> j in t && j == k
  {
    var q := Only(Replace(k, r));
    forall j ensures Locked(q, j) <==> j == k {
      assert ChangeKeys(Replace(k, r)) == {k};
      if j == k {
        assert Replace(k, r) in q.changes && j in ChangeKeys(Replace(k, r));
      }
    }
  }

  lemma SingleIsPreflightOk(c: Change)
    requires ShapeError(c, CONTEXT).None? && !c.MoveEntry? && !NeedsInode(c) && !NeedsMetadata(c)
    ensures PreflightOk(Only(c))
  {
    var q := Only(c);
    assert q.changes[0] == c;
    assert forall d :: d in q.changes <==> d == c;
  }

  /** Without a loaded header, inodes, opens and their rows are not checked against
      the marks or the generations. */
  lemma UnguardedTransitions(t: Table, loaded: Table, changes: seq<Change>)
    requires FilesystemKey !in loaded
    requires forall c | c in changes :: FinalLock(c).None? && !c.PublishXattrStaging?
    requires forall c | c in changes :: c.Delete? ==> !c.key.XattrStagingKey?
    ensures TransitionsOk(loaded, changes) && LocksOk(t, changes)
  {
  }

  lemma ReplaceApplies(t: Table, k: Key, r: Record)
    requires k.InodeKey? && k in t && t[k].InodeRecord? && r.InodeRecord? && SchemaAllows(r)
    requires Content(t[k].node).None? && ContentFile(t[k].node).None? && t[k].node.context.None?
    requires Content(r.node).None? && ContentFile(r.node).None? && r.node.context.None?
    requires forall j | j in t && j != k :: !SameUnique(t[j], r)
    ensures var q := Only(Replace(k, r));
            ApplyAll(t, Loaded(t, q), q.changes, q, 3) == Done(t[k := Stamp(r, 3)])
  {
    hide ApplyChange, SchemaAllows;
    var q := Only(Replace(k, r));
    ReplaceIsUnguarded(t, k, r);
    var loaded := Loaded(t, q);
    ReplaceOne(t, loaded, q, k, r);
    assert q.changes[..0] == [];
    assert ApplyAll(t, loaded, [], q, 3) == Done(t);
  }

  lemma ReplaceOne(t: Table, loaded: Table, q: Request, k: Key, r: Record)
    requires k in t && k in loaded && loaded[k] == t[k] && t[k].InodeRecord? && r.InodeRecord? && SchemaAllows(r)
    requires Content(t[k].node).None? && ContentFile(t[k].node).None? && t[k].node.context.None?
    requires Content(r.node).None? && ContentFile(r.node).None? && r.node.context.None?
    requires forall j | j in t && j != k :: !SameUnique(t[j], r)
    ensures ApplyChange(t, loaded, Replace(k, r), q, 3) == Done(t[k := Stamp(r, 3)])
  {
    var c := Replace(k, r);
    assert ChangeRefusal(t, loaded, c, q).None?;
    var w := Writes(t, loaded, c, 3);
    assert w == Put(k, Stamp(r, 3));
    assert !WriteViolates(t, w) by { PutIsClean(t, k, Stamp(r, 3)); }
    assert Overlay(t, w) == t[k := Stamp(r, 3)];
  }

  lemma PutIsClean(t: Table, k: Key, r: Record)
    requires SchemaAllows(r) && forall j | j in t && j != k :: !SameUnique(t[j], r)
    ensures !WriteViolates(t, Put(k, r))
  {
    hide SchemaAllows, SameUnique;
    assert t - Put(k, r).removed == t;
  }

  /** Replacing one inode row outside a guarded request is admitted when the
      targeted checks pass. */
  lemma ReplaceAdmitted(t: Table, k: Key, r: Record)
    requires k.InodeKey? && k in t && t[k].InodeRecord? && Names(r, k) && SchemaAllows(r)
    requires Content(t[k].node).None? && ContentFile(t[k].node).None? && t[k].node.context.None?
    requires Content(r.node).None? && ContentFile(r.node).None? && r.node.context.None?
    requires forall j | j in t && j != k :: !SameUnique(t[j], r)
    requires TargetedOk(t[k := Stamp(r, 3)], Loaded(t, Only(Replace(k, r))), [Replace(k, r)], 1)
    ensures Admitted(t, Only(Replace(k, r)), 3, 1, t[k := Stamp(r, 3)])
  {
    hide TargetedOk, PreflightOk, TransitionsOk, LocksOk, ApplyAll, Loaded;
    var c := Replace(k, r);
    SingleIsPreflightOk(c);
    ReplaceIsUnguarded(t, k, r);
    assert forall d :: d in [c] <==> d == c;
    assert FinalLock(c).None?;
    UnguardedTransitions(t, Loaded(t, Only(c)), [c]);
    ReplaceApplies(t, k, r);
    assert PreconditionsHold(t, Only(c));
  }

  // ------------------------------------------------------------ QID paths

  const FAR := InodeRecord(Socket(2, 100, 7, 0))

  lemma OneTarget(t: Table, loaded: Table, c: Change, i: InodeId)
    requires HeaderOk(t) && InodeOk(t, i, 1) && WrittenRowOk(t, c)
    requires ChangeInodes(loaded, c) == {i} && ChangeOpens(loaded, c) == {}
    ensures TargetedOk(t, loaded, [c], 1)
  {
    assert forall d :: d in [c] <==> d == c;
  }

  lemma FarChecks()
    ensures var t' := BEFORE[InodeKey(2) := Stamp(FAR, 3)];
            HeaderOk(t') && InodeOk(t', 2, 1) && HeaderAt(t') == Some(HEADER) && !QidsBelow(t', HEADER.nextQidPath)
  {
    var t' := BEFORE[InodeKey(2) := Stamp(FAR, 3)];
    assert EntriesTo(t', 2) == {KEY_A};
    assert t'[InodeKey(2)].node.qidPath == 100;
  }

  /** An unguarded replacement moves a QID path past the allocation mark. */
  lemma UnguardedQidPassesMark()
    ensures WellKeyed(BEFORE) && QidsBelow(BEFORE, HEADER.nextQidPath)
    ensures var t' := BEFORE[InodeKey(2) := Stamp(FAR, 3)];
            Admitted(BEFORE, Only(Replace(InodeKey(2), FAR)), 3, 1, t')
            && HeaderAt(t') == Some(HEADER) && !QidsBelow(t', HEADER.nextQidPath)
  {
    hide TargetedOk, InodeOk, HeaderOk, Tree, Admitted, Loaded, QidsBelow;
    BeforeIsTree();
    FarChecks();
    var c := Replace(InodeKey(2), FAR);
    OneTarget(BEFORE[InodeKey(2) := Stamp(FAR, 3)], Loaded(BEFORE, Only(c)), c, 2);
    ReplaceAdmitted(BEFORE, InodeKey(2), FAR);
  }

  // ------------------------------------------------------- directory stamp

  const REWOUND := InodeRecord(Directory(1, 7, 0))

  lemma RewoundChecks()
    ensures var t' := BEFORE[InodeKey(1) := Stamp(REWOUND, 3)];
            HeaderOk(t') && InodeOk(t', 1, 1) && IsDirectory(t', 1) && Generation(t', 1) == 1
  {
    var t' := BEFORE[InodeKey(1) := Stamp(REWOUND, 3)];
    assert EntriesTo(t', 1) == {};
    assert Ancestry(t', 1, 1, 1);
  }

  /** An unguarded replacement turns a directory generation back. */
  lemma UnguardedStampFalls()
    ensures WellKeyed(BEFORE) && IsDirectory(BEFORE, 1)
    ensures var t' := BEFORE[InodeKey(1) := Stamp(REWOUND, 3)];
            Admitted(BEFORE, Only(Replace(InodeKey(1), REWOUND)), 3, 1, t')
            && IsDirectory(t', 1) && Generation(t', 1) < Generation(BEFORE, 1)
            && !InodeStamped(BEFORE, t', 1)
  {
    hide TargetedOk, InodeOk, HeaderOk, Tree, Admitted, Loaded, QidsBelow;
    BeforeIsTree();
    RewoundChecks();
    var c := Replace(InodeKey(1), REWOUND);
    OneTarget(BEFORE[InodeKey(1) := Stamp(REWOUND, 3)], Loaded(BEFORE, Only(c)), c, 1);
    ReplaceAdmitted(BEFORE, InodeKey(1), REWOUND);
  }

  // --------------------------------------------------------------- demotion

  const KEY_INNER := EntryKey(2, NAME_B)

  /** A directory `a` in the root that holds the name `b`. */
  const NESTED: Table := map[
    FilesystemKey := FilesystemRecord(HEADER),
    InodeKey(1) := InodeRecord(Directory(5, 1, 2)),
    InodeKey(2) := InodeRecord(Inode(2, 2, 2, ATTRIBUTES, 0, 1, 1, None, DirectoryData(1, 1))),
    InodeKey(3) := InodeRecord(Socket(3, 3, 1, 2)),
    KEY_A := EntryRecord(Entry(1, NAME_A, 1, 2, 2)),
    KEY_INNER := EntryRecord(Entry(2, NAME_B, 1, 3, 2))
  ]

  const DEMOTED := InodeRecord(Socket(2, 2, 2, 0))

  lemma NestedIsTree()
    ensures WellKeyed(NESTED) && Tree(NESTED)
  {
    assert EntriesTo(NESTED, 1) == {};
    assert EntriesTo(NESTED, 2) == {KEY_A};
    assert EntriesTo(NESTED, 3) == {KEY_INNER};
    assert Ancestry(NESTED, 2, 1, 1) by { assert Ancestry(NESTED, 1, 1, 0); }
    forall i | InodeAt(NESTED, i).Some? && i != 1 ensures i == 2 || i == 3 {
    }
  }

  lemma DemotedChecks()
    ensures var t' := NESTED[InodeKey(2) := Stamp(DEMOTED, 3)];
            HeaderOk(t') && InodeOk(t', 2, 1) && !EntryPlaced(t', KEY_INNER)
  {
    var t' := NESTED[InodeKey(2) := Stamp(DEMOTED, 3)];
    assert EntriesTo(t', 2) == {KEY_A};
  }

  /** An unguarded replacement turns a directory with names into a socket. */
  lemma DemotionBreaksNamespace()
    ensures WellKeyed(NESTED) && Tree(NESTED)
    ensures var t' := NESTED[InodeKey(2) := Stamp(DEMOTED, 3)];
            Admitted(NESTED, Only(Replace(InodeKey(2), DEMOTED)), 3, 1, t') && !Tree(t')
  {
    hide TargetedOk, InodeOk, HeaderOk, Admitted, Loaded, EntryPlaced;
    NestedIsTree();
    DemotedChecks();
    var c := Replace(InodeKey(2), DEMOTED);
    OneTarget(NESTED[InodeKey(2) := Stamp(DEMOTED, 3)], Loaded(NESTED, Only(c)), c, 2);
    ReplaceAdmitted(NESTED, InodeKey(2), DEMOTED);
  }

  // --------------------------------------------------------- owner identity

  const CONTENT := ContentMetadata(2, 7, 9, 1, [1], None, None, 2)

  /** A root directory, and the retained metadata of content that inode 2 once held. */
  const RETIRED: Table := map[
    FilesystemKey := FilesystemRecord(HEADER),
    InodeKey(1) := InodeRecord(Directory(5, 1, 2)),
    ContentMetadataKey(7) := ContentMetadataRecord(CONTENT)
  ]

  const UNLINKED := InodeRecord(Socket(2, 2, 1, 3).(linkCount := 0))
  const OPENED := OpenRecord(Open(1, 2, 1, 1, false, 1, 3))
  const PINNED := OpenPinRecord(OpenPin(2, 1, 3))
  const ORPHANED := OrphanRecord(Orphan(2, 1, 3, 3))

  const REVIVE := [
    Insert(InodeKey(2), UNLINKED), Insert(OpenKey(1), OPENED), Insert(OpenPinKey(2, 1), PINNED),
    Insert(OrphanKey(2), ORPHANED)]
  const REVIVAL := Request(CONTEXT, FENCE, [], REVIVE, [])

  /** Inode 2 is there, as an open and unlinked socket. */
  function Revived(t: Table): Table
  {
    t[InodeKey(2) := UNLINKED][OpenKey(1) := OPENED][OpenPinKey(2, 1) := PINNED][OrphanKey(2) := ORPHANED]
  }

  const REVIVED := Revived(RETIRED)

  lemma RevivalPreflight()
    ensures PreflightOk(REVIVAL)
  {
    hide DistinctTargets, ContentPaired;
    KeysAreApart(REVIVE);
    forall c | c in REVIVE ensures ShapeError(c, CONTEXT).None? && !NeedsInode(c) && !NeedsMetadata(c) {
      assert c == REVIVE[0] || c == REVIVE[1] || c == REVIVE[2] || c == REVIVE[3];
    }
    UnpairedIsPaired(REVIVE);
  }

  lemma KeysAreApart(changes: seq<Change>)
    requires forall x | 0 <= x < |changes| :: changes[x].Insert? || changes[x].Delete?
    requires forall x, y | 0 <= x < y < |changes| :: changes[x].key != changes[y].key
    ensures DistinctTargets(changes)
  {
  }

  lemma UnpairedIsPaired(changes: seq<Change>)
    requires forall c | c in changes :: !NeedsInode(c) && !NeedsMetadata(c)
    ensures ContentPaired(changes)
  {
  }

  predicate Untaken(t: Table)
  {
    && InodeKey(2) !in t && OpenKey(1) !in t && OpenPinKey(2, 1) !in t && OrphanKey(2) !in t
    && forall k | k in t && t[k].InodeRecord? :: t[k].node.qidPath != 2
  }

  /** The request locks only the rows it inserts, so it loads nothing. */
  lemma RevivalLoadsNothing(t: Table)
    requires Untaken(t)
    ensures Loaded(t, REVIVAL) == map[]
  {
    forall k | k in t ensures !Locked(REVIVAL, k) {
      forall c | c in REVIVE ensures k !in ChangeKeys(c) {
        assert c == REVIVE[0] || c == REVIVE[1] || c == REVIVE[2] || c == REVIVE[3];
      }
    }
  }

  lemma RevivalTransitions(t: Table)
    ensures TransitionsOk(map[], REVIVE) && LocksOk(t, REVIVE)
  {
    hide TransitionsOk, LocksOk;
    forall c | c in REVIVE ensures FinalLock(c).None? && !c.PublishXattrStaging? && !c.Delete? {
      assert c == REVIVE[0] || c == REVIVE[1] || c == REVIVE[2] || c == REVIVE[3];
    }
    UnguardedTransitions(t, map[], REVIVE);
  }

  lemma InsertApplies(cur: Table, q: Request, k: Key, r: Record)
    requires k !in cur && SchemaAllows(r) && Stamp(r, 3) == r
    requires forall j | j in cur :: !SameUnique(cur[j], r)
    ensures ApplyChange(cur, map[], Insert(k, r), q, 3) == Done(cur[k := r])
  {
    var w := Writes(cur, map[], Insert(k, r), 3);
    assert w == Put(k, r);
    assert !WriteViolates(cur, w) by { PutIsClean(cur, k, r); }
    assert Overlay(cur, w) == cur[k := r];
  }

  lemma RevivalApplies(t: Table)
    requires Untaken(t)
    ensures ApplyAll(t, map[], REVIVE, REVIVAL, 3) == Done(Revived(t))
  {
    hide ApplyChange;
    var one := t[InodeKey(2) := UNLINKED];
    var two := one[OpenKey(1) := OPENED];
    var three := two[OpenPinKey(2, 1) := PINNED];
    InsertApplies(t, REVIVAL, InodeKey(2), UNLINKED);
    InsertApplies(one, REVIVAL, OpenKey(1), OPENED);
    InsertApplies(two, REVIVAL, OpenPinKey(2, 1), PINNED);
    InsertApplies(three, REVIVAL, OrphanKey(2), ORPHANED);
    assert REVIVE[..3][..2] == REVIVE[..2] && REVIVE[..2][..1] == REVIVE[..1] && REVIVE[..1][..0] == [];
    assert ApplyAll(t, map[], [], REVIVAL, 3) == Done(t);
    assert ApplyAll(t, map[], REVIVE[..1], REVIVAL, 3) == Done(one);
    assert ApplyAll(t, map[], REVIVE[..2], REVIVAL, 3) == Done(two);
    assert ApplyAll(t, map[], REVIVE[..3], REVIVAL, 3) == Done(three);
  }

  lemma RevivalTargets(t': Table)
    requires HeaderOk(t') && InodeOk(t', 2, 1) && OpenOk(t', 1)
    ensures TargetedOk(t', map[], REVIVE, 1)
  {
    hide InodeOk, OpenOk, HeaderOk;
    forall c | c in REVIVE
      ensures WrittenRowOk(t', c) && ChangeInodes(map[], c) == {2} && ChangeOpens(map[], c) <= {1}
    {
      assert c == REVIVE[0] || c == REVIVE[1] || c == REVIVE[2] || c == REVIVE[3];
    }
  }

  /** The four inserts are accepted wherever their checks pass. */
  lemma RevivalAdmitted(t: Table)
    requires Untaken(t) && HeaderOk(Revived(t)) && InodeOk(Revived(t), 2, 1) && OpenOk(Revived(t), 1)
    ensures Admitted(t, REVIVAL, 3, 1, Revived(t))
  {
    hide TargetedOk, PreflightOk, TransitionsOk, LocksOk, ApplyAll, Loaded, InodeOk, OpenOk, HeaderOk, Untaken, Revived;
    RevivalPreflight();
    RevivalLoadsNothing(t);
    RevivalTransitions(t);
    RevivalApplies(t);
    RevivalTargets(Revived(t));
    assert PreconditionsHold(t, REVIVAL);
  }

  lemma RevivedChecks()
    ensures HeaderOk(REVIVED) && InodeOk(REVIVED, 2, 1) && OpenOk(REVIVED, 1)
  {
    assert EntriesTo(REVIVED, 2) == {};
    assert Pins(REVIVED, 2) == {OpenPinKey(2, 1)};
  }

  lemma RetiredRows(k: Key)
    requires k in RETIRED
    ensures RowOk(RETIRED, RETIRED[k], 1)
  {
    assert Ancestry(RETIRED, 1, 1, 1);
  }

  lemma RetiredLinks(i: InodeId)
    requires InodeAt(RETIRED, i).Some?
    ensures LinkRowOk(RETIRED, InodeAt(RETIRED, i).value)
  {
    assert EntriesTo(RETIRED, 1) == {};
    assert i == 1;
  }

  lemma RetiredIsImage()
    ensures ImageOk(RETIRED, 1) && OwnersBound(RETIRED)
  {
    hide RowOk, LinkRowOk;
    forall k | k in RETIRED ensures RowOk(RETIRED, RETIRED[k], 1) {
      RetiredRows(k);
    }
    forall i | InodeAt(RETIRED, i).Some? ensures LinkRowOk(RETIRED, InodeAt(RETIRED, i).value) {
      RetiredLinks(i);
    }
  }

  /** An unlinked socket under an identity that retained metadata names is accepted;
      the metadata is bound to its owner no more, and the image is valid at no depth. */
  lemma RevivalUnbindsOwner(depth: nat)
    ensures ImageOk(RETIRED, 1) && OwnersBound(RETIRED)
    ensures Admitted(RETIRED, REVIVAL, 3, 1, REVIVED) && !OwnersBound(REVIVED) && !ImageOk(REVIVED, depth)
  {
    hide Admitted, HeaderOk, InodeOk, OpenOk, LinkRowOk, Unique, ConflictFree;
    RetiredIsImage();
    RevivedChecks();
    RevivalAdmitted(RETIRED);
    assert REVIVED[ContentMetadataKey(7)] == ContentMetadataRecord(CONTENT);
    assert !OwnerRowOk(REVIVED, CONTENT) && !RowOk(REVIVED, REVIVED[ContentMetadataKey(7)], depth);
  }

  // -------------------------------------------------------- header deletion

  /** A root directory beside an open and unlinked socket. */
  const OCCUPIED: Table := map[
    FilesystemKey := FilesystemRecord(HEADER),
    InodeKey(1) := InodeRecord(Directory(5, 1, 2)),
    InodeKey(2) := UNLINKED, OpenKey(1) := OPENED, OpenPinKey(2, 1) := PINNED, OrphanKey(2) := ORPHANED
  ]

  const REMOVE := [Delete(FilesystemKey), Delete(InodeKey(1))]
  const REMOVAL := Request(CONTEXT, FENCE, [], REMOVE, [])

  const ABANDONED: Table := map[
    InodeKey(2) := UNLINKED, OpenKey(1) := OPENED, OpenPinKey(2, 1) := PINNED, OrphanKey(2) := ORPHANED
  ]

  lemma OccupiedIsTree()
    ensures WellKeyed(OCCUPIED) && Tree(OCCUPIED)
  {
    assert EntriesTo(OCCUPIED, 1) == {};
    assert EntriesTo(OCCUPIED, 2) == {};
    forall i | InodeAt(OCCUPIED, i).Some? && i != 1 ensures i == 2 {
    }
  }

  lemma RemovalPreflight()
    ensures PreflightOk(REMOVAL)
  {
    hide DistinctTargets, ContentPaired;
    KeysAreApart(REMOVE);
    forall c | c in REMOVE ensures ShapeError(c, CONTEXT).None? && !NeedsInode(c) && !NeedsMetadata(c) {
      assert c == REMOVE[0] || c == REMOVE[1];
    }
    UnpairedIsPaired(REMOVE);
  }

  lemma RemovalLoads()
    ensures var loaded := Loaded(OCCUPIED, REMOVAL);
            forall k :: k in loaded <==> k == FilesystemKey || k == InodeKey(1)
  {
    forall k ensures Locked(REMOVAL, k) <==> k == FilesystemKey || k == InodeKey(1) {
      assert forall c :: c in REMOVE <==> c == REMOVE[0] || c == REMOVE[1];
      assert ChangeKeys(REMOVE[0]) == {FilesystemKey} && ChangeKeys(REMOVE[1]) == {InodeKey(1)};
    }
  }

  lemma RemovalAllocatesNothing(loaded: Table)
    requires forall k :: k in loaded <==> k == FilesystemKey || k == InodeKey(1)
    requires loaded[FilesystemKey] == OCCUPIED[FilesystemKey] && loaded[InodeKey(1)] == OCCUPIED[InodeKey(1)]
    ensures CookiesOk(loaded, REMOVE) && QidPathsOk(loaded, REMOVE)
  {
    assert REMOVE[..1] == [REMOVE[0]] && [REMOVE[0]][..0] == [];
    assert Declared([], true) == 0 && Declared(REMOVE[..1], true) == 0 && Declared(REMOVE, true) == 0;
    assert Declared([], false) == 0 && Declared(REMOVE[..1], false) == 0 && Declared(REMOVE, false) == 0;
    assert NewCookies(loaded, REMOVE, 0) == 0 && NewCookies(loaded, REMOVE, 1) == 0;
    assert NewCookies(loaded, REMOVE, 2) == 0;
    assert InodeInserts([]) == 0 && InodeInserts(REMOVE[..1]) == 0 && InodeInserts(REMOVE) == 0;
  }

  lemma RemovalTransitions(loaded: Table)
    requires forall k :: k in loaded <==> k == FilesystemKey || k == InodeKey(1)
    requires loaded[FilesystemKey] == OCCUPIED[FilesystemKey] && loaded[InodeKey(1)] == OCCUPIED[InodeKey(1)]
    ensures TransitionsOk(loaded, REMOVE) && LocksOk(OCCUPIED, REMOVE)
  {
    hide CookiesOk, QidPathsOk;
    RemovalAllocatesNothing(loaded);
    assert forall c :: c in REMOVE <==> c == REMOVE[0] || c == REMOVE[1];
    assert REMOVE[..1] == [REMOVE[0]] && [REMOVE[0]][..0] == [];
    assert Parents(loaded, []) == {} && Parents(loaded, REMOVE[..1]) == {} && Parents(loaded, REMOVE) == {};
    assert FinalLock(REMOVE[0]).None? && FinalLock(REMOVE[1]).None?;
  }

  lemma RemovalApplies(loaded: Table)
    ensures ApplyAll(OCCUPIED, loaded, REMOVE, REMOVAL, 3) == Done(ABANDONED)
  {
    hide ApplyChange;
    var half := OCCUPIED - {FilesystemKey};
    DeleteApplies(OCCUPIED, loaded, REMOVAL, FilesystemKey);
    DeleteApplies(half, loaded, REMOVAL, InodeKey(1));
    assert REMOVE[..1] == [REMOVE[0]] && [REMOVE[0]][..0] == [];
    assert ApplyAll(OCCUPIED, loaded, [], REMOVAL, 3) == Done(OCCUPIED);
    assert ApplyAll(OCCUPIED, loaded, REMOVE[..1], REMOVAL, 3) == Done(half);
    assert half - {InodeKey(1)} == ABANDONED;
  }

  lemma DeleteApplies(cur: Table, loaded: Table, q: Request, k: Key)
    requires k in cur
    ensures ApplyChange(cur, loaded, Delete(k), q, 3) == Done(cur - {k})
  {
    var w := Writes(cur, loaded, Delete(k), 3);
    assert w == Write({k}, map[]);
    assert Overlay(cur, w) == cur - {k};
  }

  lemma RemovalTargets(loaded: Table)
    requires forall k :: k in loaded <==> k == FilesystemKey || k == InodeKey(1)
    requires loaded[FilesystemKey] == OCCUPIED[FilesystemKey] && loaded[InodeKey(1)] == OCCUPIED[InodeKey(1)]
    ensures TargetedOk(ABANDONED, loaded, REMOVE, 1)
  {
    hide HeaderOk, InodeOk;
    RootGone();
    assert forall c :: c in REMOVE <==> c == REMOVE[0] || c == REMOVE[1];
    assert ChangeInodes(loaded, REMOVE[0]) == {1} && ChangeInodes(loaded, REMOVE[1]) == {1};
    assert ChangeOpens(loaded, REMOVE[0]) == {} && ChangeOpens(loaded, REMOVE[1]) == {};
  }

  lemma RootGone()
    ensures HeaderOk(ABANDONED) && InodeOk(ABANDONED, 1, 1)
  {
    assert InodeAt(ABANDONED, 1).None?;
  }

  /** Deleting header and root is accepted while an open and unlinked inode stands:
      no tree is left, and no image at any depth. */
  lemma RemovalAbandonsInode(depth: nat)
    ensures WellKeyed(OCCUPIED) && Tree(OCCUPIED)
    ensures Admitted(OCCUPIED, REMOVAL, 3, 1, ABANDONED) && !Tree(ABANDONED) && !ImageOk(ABANDONED, depth)
  {
    hide TargetedOk, PreflightOk, TransitionsOk, LocksOk, ApplyAll, LinkRowOk;
    OccupiedIsTree();
    RemovalPreflight();
    RemovalLoads();
    var loaded := Loaded(OCCUPIED, REMOVAL);
    RemovalTransitions(loaded);
    RemovalApplies(loaded);
    RemovalTargets(loaded);
    hide Loaded;
    assert PreconditionsHold(OCCUPIED, REMOVAL);
    assert HeaderAt(ABANDONED).None?;
    assert !RowOk(ABANDONED, ABANDONED[InodeKey(2)], depth);
  }

  lemma AbandonedChecks()
    ensures HeaderOk(ABANDONED) && InodeOk(ABANDONED, 2, 1) && OpenOk(ABANDONED, 1) && Revived(map[]) == ABANDONED
  {
    assert EntriesTo(ABANDONED, 2) == {};
    assert Pins(ABANDONED, 2) == {OpenPinKey(2, 1)};
  }

  /** The same inserts are accepted as a first request that creates no header: they
      turn the empty image into one that is valid at no depth. */
  lemma FirstRequestWithoutHeader(depth: nat)
    ensures ImageOk(map[], depth) && Admitted(map[], REVIVAL, 3, 1, ABANDONED) && !ImageOk(ABANDONED, depth)
  {
    hide Admitted, HeaderOk, InodeOk, OpenOk, LinkRowOk;
    AbandonedChecks();
    RevivalAdmitted(map[]);
    RemovalAbandonsInode(depth);
  }

  // ------------------------------------------------------------ parent deletion

  function Unlinked(id: InodeId, parent: InodeId): Inode
  {
    Inode(id, id, 2, ATTRIBUTES, 0, 0, 1, None, DirectoryData(1, parent))
  }

  /** Two open and unlinked directories; 2 still names 3 as its parent. */
  const NESTED_ORPHANS: Table := map[
    FilesystemKey := FilesystemRecord(HEADER),
    InodeKey(1) := InodeRecord(Directory(5, 1, 2)),
    InodeKey(2) := InodeRecord(Unlinked(2, 3)), OpenKey(1) := OpenRecord(Open(1, 2, 1, 1, false, 1, 2)),
    OpenPinKey(2, 1) := OpenPinRecord(OpenPin(2, 1, 2)), OrphanKey(2) := OrphanRecord(Orphan(2, 1, 2, 2)),
    InodeKey(3) := InodeRecord(Unlinked(3, 1)), OpenKey(2) := OpenRecord(Open(2, 3, 1, 1, false, 1, 2)),
    OpenPinKey(3, 2) := OpenPinRecord(OpenPin(3, 2, 2)), OrphanKey(3) := OrphanRecord(Orphan(3, 1, 2, 2))
  ]

  /** The last close of directory 3. */
  const RETIRE := [
    Delete(OpenPinKey(3, 2)), Delete(OpenKey(2)), Delete(OrphanKey(3)), Delete(InodeKey(3))]
  const RETIREMENT := Request(CONTEXT, FENCE, [], RETIRE, [])

  const PARENTLESS: Table := map[
    FilesystemKey := FilesystemRecord(HEADER),
    InodeKey(1) := InodeRecord(Directory(5, 1, 2)),
    InodeKey(2) := InodeRecord(Unlinked(2, 3)), OpenKey(1) := OpenRecord(Open(1, 2, 1, 1, false, 1, 2)),
    OpenPinKey(2, 1) := OpenPinRecord(OpenPin(2, 1, 2)), OrphanKey(2) := OrphanRecord(Orphan(2, 1, 2, 2))
  ]

  lemma RetirePreflight()
    ensures PreflightOk(RETIREMENT)
  {
    hide DistinctTargets, ContentPaired;
    KeysAreApart(RETIRE);
    forall c | c in RETIRE ensures ShapeError(c, CONTEXT).None? && !NeedsInode(c) && !NeedsMetadata(c) {
      assert c == RETIRE[0] || c == RETIRE[1] || c == RETIRE[2] || c == RETIRE[3];
    }
    UnpairedIsPaired(RETIRE);
  }

  lemma DeletedKeys(k: Key)
    requires !k.EntryKey?
    ensures ChangeKeys(Delete(k)) == {k}
  {
  }

  /** Deletions outside the namespace load only the rows they delete. */
  lemma DeletionLoads(t: Table, q: Request, k: Key)
    requires q.preconditions == [] && forall c | c in q.changes :: c.Delete? && !c.key.EntryKey?
    requires k in Loaded(t, q)
    ensures Delete(k) in q.changes && Loaded(t, q)[k] == t[k]
  {
    hide ChangeKeys;
    var c :| c in q.changes && k in ChangeKeys(c);
    DeletedKeys(c.key);
    assert c == Delete(k);
  }

  lemma RetireTransitions(loaded: Table)
    requires FilesystemKey !in loaded
    ensures TransitionsOk(loaded, RETIRE) && LocksOk(NESTED_ORPHANS, RETIRE)
  {
    hide TransitionsOk, LocksOk;
    forall c | c in RETIRE ensures FinalLock(c).None? && !c.PublishXattrStaging? && !c.key.XattrStagingKey? {
      assert c == RETIRE[0] || c == RETIRE[1] || c == RETIRE[2] || c == RETIRE[3];
    }
    UnguardedTransitions(NESTED_ORPHANS, loaded, RETIRE);
  }

  lemma RetireApplies(loaded: Table)
    ensures ApplyAll(NESTED_ORPHANS, loaded, RETIRE, RETIREMENT, 3) == Done(PARENTLESS)
  {
    hide ApplyChange;
    var one := NESTED_ORPHANS - {OpenPinKey(3, 2)};
    var two := one - {OpenKey(2)};
    var three := two - {OrphanKey(3)};
    DeleteApplies(NESTED_ORPHANS, loaded, RETIREMENT, OpenPinKey(3, 2));
    DeleteApplies(one, loaded, RETIREMENT, OpenKey(2));
    DeleteApplies(two, loaded, RETIREMENT, OrphanKey(3));
    DeleteApplies(three, loaded, RETIREMENT, InodeKey(3));
    assert RETIRE[..3][..2] == RETIRE[..2] && RETIRE[..2][..1] == RETIRE[..1] && RETIRE[..1][..0] == [];
    assert ApplyAll(NESTED_ORPHANS, loaded, [], RETIREMENT, 3) == Done(NESTED_ORPHANS);
    assert ApplyAll(NESTED_ORPHANS, loaded, RETIRE[..1], RETIREMENT, 3) == Done(one);
    assert ApplyAll(NESTED_ORPHANS, loaded, RETIRE[..2], RETIREMENT, 3) == Done(two);
    assert ApplyAll(NESTED_ORPHANS, loaded, RETIRE[..3], RETIREMENT, 3) == Done(three);
    assert three - {InodeKey(3)} == PARENTLESS;
  }

  lemma RetireChecks()
    ensures HeaderOk(PARENTLESS) && InodeOk(PARENTLESS, 1, 1) && InodeOk(PARENTLESS, 3, 1) && OpenOk(PARENTLESS, 2)
  {
    assert EntriesTo(PARENTLESS, 1) == {};
    assert Ancestry(PARENTLESS, 1, 1, 1);
    assert InodeAt(PARENTLESS, 3).None?;
  }

  lemma RetireTargets(loaded: Table)
    requires forall k | k in loaded :: k in NESTED_ORPHANS && loaded[k] == NESTED_ORPHANS[k]
    ensures TargetedOk(PARENTLESS, loaded, RETIRE, 1)
  {
    hide HeaderOk, InodeOk, OpenOk, ChangeInodes, ChangeOpens;
    RetireChecks();
    forall c | c in RETIRE
      ensures WrittenRowOk(PARENTLESS, c) && ChangeInodes(loaded, c) <= {1, 3} && ChangeOpens(loaded, c) <= {2}
    {
      RetireTarget(loaded, c);
    }
  }

  lemma RetireTarget(loaded: Table, c: Change)
    requires forall k | k in loaded :: k in NESTED_ORPHANS && loaded[k] == NESTED_ORPHANS[k]
    requires c in RETIRE
    ensures ChangeInodes(loaded, c) <= {1, 3} && ChangeOpens(loaded, c) <= {2} && c.Delete?
  {
    assert c == RETIRE[0] || c == RETIRE[1] || c == RETIRE[2] || c == RETIRE[3];
  }

  lemma RetireAdmitted()
    ensures Admitted(NESTED_ORPHANS, RETIREMENT, 3, 1, PARENTLESS)
  {
    hide TargetedOk, PreflightOk, TransitionsOk, LocksOk, ApplyAll, Loaded;
    RetirePreflight();
    var loaded := Loaded(NESTED_ORPHANS, RETIREMENT);
    forall k | k in loaded ensures k in NESTED_ORPHANS && loaded[k] == NESTED_ORPHANS[k] && k != FilesystemKey {
      RetireLoads(k);
    }
    RetireTransitions(loaded);
    RetireApplies(loaded);
    RetireTargets(loaded);
    assert PreconditionsHold(NESTED_ORPHANS, RETIREMENT);
  }

  lemma RetireLoads(k: Key)
    requires k in Loaded(NESTED_ORPHANS, RETIREMENT)
    ensures k in NESTED_ORPHANS && Loaded(NESTED_ORPHANS, RETIREMENT)[k] == NESTED_ORPHANS[k] && k != FilesystemKey
  {
    hide Loaded;
    forall c | c in RETIRE ensures c.Delete? && !c.key.EntryKey? && c.key != FilesystemKey && c.key in NESTED_ORPHANS {
      assert c == RETIRE[0] || c == RETIRE[1] || c == RETIRE[2] || c == RETIRE[3];
    }
    DeletionLoads(NESTED_ORPHANS, RETIREMENT, k);
  }

  lemma NestedOrphansRefer(k: Key)
    requires k in NESTED_ORPHANS
    ensures ReferencesStand(NESTED_ORPHANS, NESTED_ORPHANS[k]) && Names(NESTED_ORPHANS[k], k)
  {
  }

  lemma ParentlessRefers()
    ensures !ReferencesStand(PARENTLESS, PARENTLESS[InodeKey(2)])
  {
    assert InodeAt(PARENTLESS, 3).None?;
  }

  /** Deleting an unlinked directory that another unlinked directory names as parent
      passes every check of the transaction; its COMMIT violates a foreign key. */
  lemma RetirementFailsAtCommit()
    ensures WellKeyed(NESTED_ORPHANS) && ForeignKeysHold(NESTED_ORPHANS)
    ensures Admitted(NESTED_ORPHANS, RETIREMENT, 3, 1, PARENTLESS) && !ForeignKeysHold(PARENTLESS)
  {
    hide Admitted, ReferencesStand;
    RetireAdmitted();
    ParentlessRefers();
    forall k | k in NESTED_ORPHANS
      ensures ReferencesStand(NESTED_ORPHANS, NESTED_ORPHANS[k]) && Names(NESTED_ORPHANS[k], k)
    {
      NestedOrphansRefer(k);
    }
    assert InodeKey(2) in PARENTLESS;
  }

  // ----------------------------------------------------------------- rename

  const MOVE := MoveEntry(1, NAME_A, Entry(1, NAME_B, 1, 2, 0))
  const BUMP := BumpDirectoryGeneration(1)
  const RENAME := Request(CONTEXT, FENCE, [], [MOVE, BUMP], [])

  /** The name `b` now means inode 2; inode 3 keeps its link count and has no name. */
  const AFTER: Table := map[
    FilesystemKey := FilesystemRecord(HEADER),
    InodeKey(1) := InodeRecord(Directory(6, 2, 3)),
    InodeKey(2) := InodeRecord(Socket(2, 2, 1, 2)),
    InodeKey(3) := InodeRecord(Socket(3, 3, 1, 2)),
    KEY_B := EntryRecord(Entry(1, NAME_B, 1, 2, 3))
  ]

  lemma RenamePreflight()
    ensures PreflightOk(RENAME)
  {
    assert RENAME.changes[0] == MOVE && RENAME.changes[1] == BUMP;
    assert forall d :: d in RENAME.changes <==> d == MOVE || d == BUMP;
    assert NAME_A[0] != NAME_B[0];
  }

  lemma RenameLocks(k: Key)
    requires k in {FilesystemKey, InodeKey(1), KEY_A, KEY_B}
    ensures Locked(RENAME, k) && k in BEFORE
  {
    assert MOVE in RENAME.changes;
    assert k in ChangeKeys(MOVE);
  }

  /** The rename loads the header, the directory and both names. */
  lemma RenameLoads()
    ensures var loaded := Loaded(BEFORE, RENAME);
            && (forall k | k in loaded :: k in BEFORE && loaded[k] == BEFORE[k])
            && FilesystemKey in loaded && InodeKey(1) in loaded && KEY_A in loaded && KEY_B in loaded
  {
    hide Locked;
    RenameLocks(FilesystemKey);
    RenameLocks(InodeKey(1));
    RenameLocks(KEY_A);
    RenameLocks(KEY_B);
  }

  lemma RenameAllocatesNothing(loaded: Table)
    requires forall k | k in loaded :: k in BEFORE && loaded[k] == BEFORE[k]
    requires FilesystemKey in loaded && InodeKey(1) in loaded && KEY_A in loaded && KEY_B in loaded
    ensures CookiesOk(loaded, [MOVE, BUMP]) && QidPathsOk(loaded, [MOVE, BUMP])
  {
    var changes := [MOVE, BUMP];
    assert changes[0] == MOVE && changes[1] == BUMP;
    assert changes[..1] == [MOVE] && [MOVE][..0] == [];
    assert Declared([], true) == 0 && Declared([MOVE], true) == 0 && Declared(changes, true) == 0;
    assert Declared([], false) == 0 && Declared([MOVE], false) == 0 && Declared(changes, false) == 0;
    assert NewCookies(loaded, changes, 0) == 0 && NewCookies(loaded, changes, 1) == 0;
    assert NewCookies(loaded, changes, 2) == 0;
    assert InodeInserts([]) == 0 && InodeInserts([MOVE]) == 0 && InodeInserts(changes) == 0;
  }

  lemma RenameAdvances(loaded: Table)
    requires forall k | k in loaded :: k in BEFORE && loaded[k] == BEFORE[k]
    requires FilesystemKey in loaded && InodeKey(1) in loaded && KEY_A in loaded && KEY_B in loaded
    ensures MonotonicOk(loaded, [MOVE, BUMP])
  {
    var changes := [MOVE, BUMP];
    assert forall d :: d in changes <==> d == MOVE || d == BUMP;
    assert changes[..1] == [MOVE] && [MOVE][..0] == [];
    assert ParentsOf(loaded, MOVE) == {1} && ParentsOf(loaded, BUMP) == {};
    assert Parents(loaded, []) == {} && Parents(loaded, [MOVE]) == {1};
    assert Parents(loaded, changes) == {1};
    assert AdvancesDirectory(loaded, BUMP, 1);
    assert SomeAdvances(loaded, changes, 1);
  }

  lemma RenameTransitions(loaded: Table)
    requires forall k | k in loaded :: k in BEFORE && loaded[k] == BEFORE[k]
    requires FilesystemKey in loaded && InodeKey(1) in loaded && KEY_A in loaded && KEY_B in loaded
    ensures TransitionsOk(loaded, [MOVE, BUMP]) && LocksOk(BEFORE, [MOVE, BUMP])
  {
    hide CookiesOk, QidPathsOk, MonotonicOk;
    RenameAllocatesNothing(loaded);
    RenameAdvances(loaded);
    assert forall d :: d in [MOVE, BUMP] <==> d == MOVE || d == BUMP;
    assert FinalLock(MOVE).None? && FinalLock(BUMP).None?;
  }

  const HALFWAY: Table := map[
    FilesystemKey := FilesystemRecord(HEADER),
    InodeKey(1) := InodeRecord(Directory(5, 1, 2)),
    InodeKey(2) := InodeRecord(Socket(2, 2, 1, 2)),
    InodeKey(3) := InodeRecord(Socket(3, 3, 1, 2)),
    KEY_B := EntryRecord(Entry(1, NAME_B, 1, 2, 3))
  ]

  lemma KeysDiffer()
    ensures KEY_A != KEY_B
  {
    assert NAME_A[0] != NAME_B[0];
  }

  const MOVED := EntryRecord(Entry(1, NAME_B, 1, 2, 3))

  lemma MoveWrites(loaded: Table)
    requires KEY_A in loaded && KEY_B in loaded && loaded[KEY_A] == BEFORE[KEY_A]
    ensures Writes(BEFORE, loaded, MOVE, 3) == Write({KEY_A}, map[KEY_B := MOVED])
    ensures ChangeRefusal(BEFORE, loaded, MOVE, RENAME).None?
  {
    KeysDiffer();
  }

  lemma MoveIsClean()
    ensures !WriteViolates(BEFORE, Write({KEY_A}, map[KEY_B := MOVED]))
  {
    var base := BEFORE - {KEY_A};
    assert SchemaAllows(MOVED);
    forall j | j in base && j != KEY_B ensures !SameUnique(base[j], MOVED) {
    }
  }

  lemma MoveApplies(loaded: Table)
    requires KEY_A in loaded && KEY_B in loaded && loaded[KEY_A] == BEFORE[KEY_A]
    ensures ApplyChange(BEFORE, loaded, MOVE, RENAME, 3) == Done(HALFWAY)
  {
    hide Writes, ChangeRefusal, WriteViolates;
    MoveWrites(loaded);
    MoveIsClean();
    KeysDiffer();
    assert Overlay(BEFORE, Write({KEY_A}, map[KEY_B := MOVED])) == HALFWAY;
  }

  lemma BumpWrites(loaded: Table)
    requires InodeKey(1) in loaded && loaded[InodeKey(1)] == BEFORE[InodeKey(1)]
    ensures Writes(HALFWAY, loaded, BUMP, 3) == Put(InodeKey(1), InodeRecord(Directory(6, 2, 3)))
    ensures ChangeRefusal(HALFWAY, loaded, BUMP, RENAME).None?
  {
  }

  lemma BumpApplies(loaded: Table)
    requires InodeKey(1) in loaded && loaded[InodeKey(1)] == BEFORE[InodeKey(1)]
    ensures ApplyChange(HALFWAY, loaded, BUMP, RENAME, 3) == Done(AFTER)
  {
    hide Writes, ChangeRefusal, WriteViolates;
    BumpWrites(loaded);
    var r := InodeRecord(Directory(6, 2, 3));
    PutIsClean(HALFWAY, InodeKey(1), r);
    assert Overlay(HALFWAY, Put(InodeKey(1), r)) == AFTER;
  }

  lemma RenameApplies(loaded: Table)
    requires KEY_A in loaded && KEY_B in loaded && loaded[KEY_A] == BEFORE[KEY_A]
    requires InodeKey(1) in loaded && loaded[InodeKey(1)] == BEFORE[InodeKey(1)]
    ensures ApplyAll(BEFORE, loaded, [MOVE, BUMP], RENAME, 3) == Done(AFTER)
  {
    hide ApplyChange;
    MoveApplies(loaded);
    BumpApplies(loaded);
    assert [MOVE, BUMP][..1] == [MOVE] && [MOVE][..0] == [];
    assert ApplyAll(BEFORE, loaded, [], RENAME, 3) == Done(BEFORE);
    assert ApplyAll(BEFORE, loaded, [MOVE], RENAME, 3) == Done(HALFWAY);
  }

  lemma RenameTargets(loaded: Table)
    ensures TargetedOk(AFTER, loaded, [MOVE, BUMP], 1)
  {
    assert forall d :: d in [MOVE, BUMP] <==> d == MOVE || d == BUMP;
    assert EntriesTo(AFTER, 1) == {};
    assert EntriesTo(AFTER, 2) == {KEY_B};
    assert Ancestry(AFTER, 1, 1, 1);
    assert InodeOk(AFTER, 1, 1) && InodeOk(AFTER, 2, 1);
    assert ChangeInodes(loaded, MOVE) == {1, 2} && ChangeInodes(loaded, BUMP) == {1};
  }

  /** A rename over `b` that does not also adjust inode 3 is accepted and leaves a
      linked inode without a name: the namespace is no tree any more. */
  lemma RenameBreaksTree()
    ensures WellKeyed(BEFORE) && Tree(BEFORE) && Admitted(BEFORE, RENAME, 3, 1, AFTER) && !Tree(AFTER)
  {
    hide TargetedOk, PreflightOk, TransitionsOk, LocksOk, ApplyAll, Loaded;
    BeforeIsTree();
    RenamePreflight();
    RenameLoads();
    var loaded := Loaded(BEFORE, RENAME);
    RenameTransitions(loaded);
    RenameApplies(loaded);
    RenameTargets(loaded);
    assert PreconditionsHold(BEFORE, RENAME);
    assert EntriesTo(AFTER, 3) == {};
    assert InodeAt(AFTER, 3) == Some(Socket(3, 3, 1, 2));
  }

  lemma BeforeRows(k: Key)
    requires k in BEFORE
    ensures RowOk(BEFORE, BEFORE[k], 1)
  {
    assert Ancestry(BEFORE, 1, 1, 1);
  }

  lemma BeforeLinks(i: InodeId)
    requires InodeAt(BEFORE, i).Some?
    ensures LinkRowOk(BEFORE, InodeAt(BEFORE, i).value)
  {
    assert EntriesTo(BEFORE, 1) == {};
    assert EntriesTo(BEFORE, 2) == {KEY_A};
    assert EntriesTo(BEFORE, 3) == {KEY_B};
    assert i == 1 || i == 2 || i == 3;
  }

  lemma BeforeIsImage()
    ensures ImageOk(BEFORE, 1)
  {
    hide RowOk, LinkRowOk;
    KeysDiffer();
    forall k | k in BEFORE ensures RowOk(BEFORE, BEFORE[k], 1) {
      BeforeRows(k);
    }
    forall i | InodeAt(BEFORE, i).Some? ensures LinkRowOk(BEFORE, InodeAt(BEFORE, i).value) {
      BeforeLinks(i);
    }
  }

  /** The same rename turns an image the whole-image validator accepts into one it
      rejects at every depth. */
  lemma RenameBreaksImage(depth: nat)
    ensures ImageOk(BEFORE, 1) && Admitted(BEFORE, RENAME, 3, 1, AFTER) && !ImageOk(AFTER, depth)
  {
    hide Admitted, RowOk;
    BeforeIsImage();
    RenameBreaksTree();
    assert EntriesTo(AFTER, 3) == {};
    assert InodeAt(AFTER, 3) == Some(Socket(3, 3, 1, 2));
    assert !LinkRowOk(AFTER, InodeAt(AFTER, 3).value);
  }
}
